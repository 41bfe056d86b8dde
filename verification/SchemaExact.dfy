/** When the merged schema of a resource says exactly what its providers say, as a condition that can be
    read off the schemas. */
module SchemaExact {
  import opened Common
  import opened Envelope
  import opened ResourceSchema
  import opened SchemaMeaning

  /** The header fields that the validator knows. */
  const META_FIELDS := {"request_id", "correlation_id", "reply_to", "source_peer_id", "target_peer_id",
                        "tenant", "trace_id", "idempotency_key", "timeout_ms"}

  // ----- A schema that no request can meet -----

  predicate EmptyRange(c: Constraint, positive: bool) {
    || (c.min.Some? && c.max.Some? && c.max.value < c.min.value)
    || (positive && c.max.Some? && c.max.value <= 0)
  }

  /** The enum is not empty but has no value that a required field could have. */
  predicate OnlyBlank(c: Constraint) { c.enum != [] && forall v :: v in c.enum ==> v == "" }

  /** An unknown name is required, no timeout will do, or a required field may only be blank. */
  predicate Hopeless(s: Schema) {
    || (exists f :: f in s.required && f !in META_FIELDS)
    || ("timeout_ms" in s.constraints && EmptyRange(s.constraints["timeout_ms"], "timeout_ms" in s.required))
    || (exists k :: k in s.protocolMetaRequired && k != "timeout_ms" && k in s.constraints && OnlyBlank(s.constraints[k]))
  }

  function FirstFilled(values: seq<string>): (v: string)
    requires exists w :: w in values && w != ""
    ensures v in values && v != ""
  {
    if values[0] != "" then values[0]
    else
      var w :| w in values && w != "";
      assert w in values[1..];
      FirstFilled(values[1..])
  }

  function ValueFor(s: Schema, k: string): (v: string)
    requires !Hopeless(s) && k in s.protocolMetaRequired
    ensures v != "" && (k != "timeout_ms" && k in s.constraints ==> EnumAdmits(s.constraints[k].enum, v))
  {
    if k == "timeout_ms" || k !in s.constraints || s.constraints[k].enum == [] then "x"
    else
      assert !OnlyBlank(s.constraints[k]);
      FirstFilled(s.constraints[k].enum)
  }

  function TimeoutFor(c: Constraint, positive: bool): (t: int)
    requires !EmptyRange(c, positive)
    ensures InRange(c, t) && (positive ==> t > 0)
  {
    var t := if c.min.Some? then c.min.value else if c.max.Some? then c.max.value else 1;
    if positive && t <= 0 then 1 else t
  }

  /** A request made to measure. */
  function MadeFor(s: Schema): Request
    requires !Hopeless(s)
  {
    var t := if "timeout_ms" in s.constraints
             then TimeoutFor(s.constraints["timeout_ms"], "timeout_ms" in s.required) else 1;
    Request(Header("x", "x", "x", t, "x", "x", "x", "x", "x"),
            map k | k in s.protocolMetaRequired :: ValueFor(s, k))
  }

  lemma MadeForIsAccepted(s: Schema)
    requires !Hopeless(s)
    ensures Accepts(s, MadeFor(s))
  {
    var r := MadeFor(s);
    forall f | f in s.required ensures HasMetaField(r.header, f) { assert f in META_FIELDS; }
    forall k | k in s.protocolMetaRequired ensures FieldValue(r, k) != "" { assert k in r.fields; }
    forall f | f in s.constraints ensures ConstraintOk(r, f, s.constraints[f]) {
      if f != "timeout_ms" && f in r.fields { assert r.fields[f] == ValueFor(s, f); }
    }
  }

  /** A schema accepts nothing if and only if it is hopeless. */
  lemma AcceptsNothingIffHopeless(s: Schema)
    ensures (forall r :: !Accepts(s, r)) <==> Hopeless(s)
  {
    if Hopeless(s) {
      forall r ensures !Accepts(s, r) { HopelessRejects(s, r); }
    } else {
      MadeForIsAccepted(s);
    }
  }

  lemma HopelessRejects(s: Schema, r: Request)
    requires Hopeless(s)
    ensures !Accepts(s, r)
  {
    if f :| f in s.required && f !in META_FIELDS {
      assert !HasMetaField(r.header, f);
    } else if k :| k in s.protocolMetaRequired && k != "timeout_ms" && k in s.constraints && OnlyBlank(s.constraints[k]) {
      assert ConstraintOk(r, k, s.constraints[k]) ==> FieldValue(r, k) == "";
    } else {
      assert ConstraintOk(r, "timeout_ms", s.constraints["timeout_ms"]) ==> InRange(s.constraints["timeout_ms"], r.header.timeoutMs);
      assert HasMetaField(r.header, "timeout_ms") ==> r.header.timeoutMs > 0;
    }
  }

  // ----- The merged schema -----

  /** The merged schema accepts exactly what all providers accept, on every request, if and only if it is
      hopeless or the enums of every field are exact. */
  lemma MergeExactIff(schemas: seq<Schema>)
    ensures (forall r :: Accepts(MergeAll(schemas), r) <==> AllAccept(schemas, r))
            <==> Hopeless(MergeAll(schemas)) || FieldsExact(schemas)
  {
    AcceptsNothingIffHopeless(MergeAll(schemas));
    forall r | AllAccept(schemas, r) ensures Accepts(MergeAll(schemas), r) { AcceptedByAllIsAcceptedByMerged(schemas, r); }
    if FieldsExact(schemas) {
      forall r ensures Accepts(MergeAll(schemas), r) <==> AllAccept(schemas, r) { ExactMergeMeansAll(schemas, r); }
    } else if r :| Accepts(MergeAll(schemas), r) {
      var field :| field != "timeout_ms" && ForField(schemas, field) != [] && !EnumsExact(ForField(schemas, field));
      var r' := InexactFieldShows(schemas, r, field);
      assert Accepts(MergeAll(schemas), r') && !AllAccept(schemas, r');
    }
  }

  // ----- Enums without the empty string, as anyone would write them -----

  predicate NoBlanks(cs: seq<Constraint>) { forall c :: c in cs ==> "" !in c.enum }

  lemma {:induction false} MergedValueIsListed(cs: seq<Constraint>, w: string)
    requires cs != [] && w in MergeList(cs).enum
    ensures exists c :: c in cs && w in c.enum
  {
    if |cs| > 1 {
      var init, last := cs[..|cs|-1], cs[|cs|-1];
      assert cs == init + [last];
      if w !in last.enum { MergedValueIsListed(init, w); }
    }
  }

  /** Then the enums of a field are exact if and only if they share a value. */
  lemma ExactIffShared(cs: seq<Constraint>)
    requires cs != [] && NoBlanks(cs)
    ensures EnumsExact(cs) <==> ShareValue(cs)
  {
    var e := MergeList(cs).enum;
    if e != [] { MergedValueIsListed(cs, e[0]); }
  }

  predicate PlainEnums(schemas: seq<Schema>) {
    forall i, f :: 0 <= i < |schemas| && f in schemas[i].constraints ==> "" !in schemas[i].constraints[f].enum
  }

  lemma PlainFields(schemas: seq<Schema>, field: string)
    requires PlainEnums(schemas)
    ensures NoBlanks(ForField(schemas, field))
  {
    forall c | c in ForField(schemas, field) ensures "" !in c.enum { ForFieldMembers(schemas, field, c); }
  }

  lemma FieldsExactIffShared(schemas: seq<Schema>)
    requires PlainEnums(schemas)
    ensures FieldsExact(schemas) <==> EnumsShareValues(schemas)
  {
    forall field | field != "timeout_ms" && ForField(schemas, field) != []
      ensures EnumsExact(ForField(schemas, field)) <==> ShareValue(ForField(schemas, field))
    {
      PlainFields(schemas, field);
      ExactIffShared(ForField(schemas, field));
    }
    if FieldsExact(schemas) {
      forall field | field != "timeout_ms" ensures ShareValue(ForField(schemas, field)) {
        if ForField(schemas, field) == [] { assert CommonTo(ForField(schemas, field), ""); }
      }
    }
  }

  predicate MinAbove(s: Schema, t: Schema) {
    && "timeout_ms" in s.constraints && "timeout_ms" in t.constraints
    && var lo, hi := s.constraints["timeout_ms"].min, t.constraints["timeout_ms"].max;
       lo.Some? && hi.Some? && hi.value < lo.value
  }

  predicate NoneLeft(s: Schema) {
    && "timeout_ms" in s.constraints
    && var hi := s.constraints["timeout_ms"].max;
       hi.Some? && hi.value <= 0
  }

  /** No request can suit all providers: one requires an unknown name, one's least timeout is above another's
      greatest, or one requires a timeout and another admits no positive one. */
  predicate AtOdds(schemas: seq<Schema>) {
    || (exists i, f :: 0 <= i < |schemas| && f in schemas[i].required && f !in META_FIELDS)
    || (exists i, j :: 0 <= i < |schemas| && 0 <= j < |schemas| && MinAbove(schemas[i], schemas[j]))
    || (exists i, j :: 0 <= i < |schemas| && 0 <= j < |schemas| && "timeout_ms" in schemas[i].required && NoneLeft(schemas[j]))
  }

  /** The merged bounds are the tightest ones, and some provider's own. */
  lemma {:induction false} BoundsOfMerge(cs: seq<Constraint>)
    requires cs != []
    ensures var m := MergeList(cs);
            && (m.min.Some? ==> exists c :: c in cs && c.min == m.min)
            && (m.max.Some? ==> exists c :: c in cs && c.max == m.max)
            && (forall c :: c in cs && c.min.Some? ==> m.min.Some? && c.min.value <= m.min.value)
            && (forall c :: c in cs && c.max.Some? ==> m.max.Some? && m.max.value <= c.max.value)
  {
    if |cs| > 1 {
      var init, last := cs[..|cs|-1], cs[|cs|-1];
      BoundsOfMerge(init);
      assert forall c :: c in cs <==> c in init || c == last by { assert cs == init + [last]; }
    } else {
      assert cs == [cs[0]];
    }
  }

  lemma TimeoutOf(schemas: seq<Schema>, c: Constraint) returns (i: nat)
    requires c in ForField(schemas, "timeout_ms")
    ensures i < |schemas| && "timeout_ms" in schemas[i].constraints && schemas[i].constraints["timeout_ms"] == c
  {
    ForFieldMembers(schemas, "timeout_ms", c);
    i :| 0 <= i < |schemas| && "timeout_ms" in schemas[i].constraints && schemas[i].constraints["timeout_ms"] == c;
  }

  lemma NeverOnlyBlank(schemas: seq<Schema>, k: string)
    requires PlainEnums(schemas) && k in MergeAll(schemas).constraints
    ensures !OnlyBlank(MergeAll(schemas).constraints[k])
  {
    FieldOfMerge(schemas, k);
    PlainFields(schemas, k);
    var e := MergeAll(schemas).constraints[k].enum;
    if e != [] { MergedValueIsListed(ForField(schemas, k), e[0]); }
  }

  lemma HopelessIsAtOdds(schemas: seq<Schema>)
    requires PlainEnums(schemas) && Hopeless(MergeAll(schemas))
    ensures AtOdds(schemas)
  {
    var m := MergeAll(schemas);
    if f :| f in m.required && f !in META_FIELDS {
      NamesOfMerge(schemas, f);
    } else {
      forall k | k in m.constraints ensures !OnlyBlank(m.constraints[k]) { NeverOnlyBlank(schemas, k); }
      NamesOfMerge(schemas, "timeout_ms");
      FieldOfMerge(schemas, "timeout_ms");
      var cs := ForField(schemas, "timeout_ms");
      BoundsOfMerge(cs);
      var c' :| c' in cs && c'.max == m.constraints["timeout_ms"].max;
      var j := TimeoutOf(schemas, c');
      if !("timeout_ms" in m.required && NoneLeft(schemas[j])) {
        var c :| c in cs && c.min == m.constraints["timeout_ms"].min;
        var i := TimeoutOf(schemas, c);
        assert MinAbove(schemas[i], schemas[j]);
      }
    }
  }

  lemma AtOddsIsHopeless(schemas: seq<Schema>)
    requires AtOdds(schemas)
    ensures Hopeless(MergeAll(schemas))
  {
    var m := MergeAll(schemas);
    if i, f :| 0 <= i < |schemas| && f in schemas[i].required && f !in META_FIELDS {
      NamesOfMerge(schemas, f);
    } else {
      NamesOfMerge(schemas, "timeout_ms");
      FieldOfMerge(schemas, "timeout_ms");
      var cs := ForField(schemas, "timeout_ms");
      if i, j :| 0 <= i < |schemas| && 0 <= j < |schemas| && MinAbove(schemas[i], schemas[j]) {
        ForFieldMembers(schemas, "timeout_ms", schemas[i].constraints["timeout_ms"]);
        ForFieldMembers(schemas, "timeout_ms", schemas[j].constraints["timeout_ms"]);
        BoundsOfMerge(cs);
      } else {
        var i, j :| 0 <= i < |schemas| && 0 <= j < |schemas| && "timeout_ms" in schemas[i].required && NoneLeft(schemas[j]);
        ForFieldMembers(schemas, "timeout_ms", schemas[j].constraints["timeout_ms"]);
        BoundsOfMerge(cs);
      }
    }
  }

  /** The whole condition, read off the providers' own schemas: merging is exact if and only if the enums of
      every field share a value or the providers are at odds in any case. */
  lemma MergeExactIffPlain(schemas: seq<Schema>)
    requires PlainEnums(schemas)
    ensures (forall r :: Accepts(MergeAll(schemas), r) <==> AllAccept(schemas, r))
            <==> AtOdds(schemas) || EnumsShareValues(schemas)
  {
    MergeExactIff(schemas);
    FieldsExactIffShared(schemas);
    if Hopeless(MergeAll(schemas)) { HopelessIsAtOdds(schemas); }
    if AtOdds(schemas) { AtOddsIsHopeless(schemas); }
  }
}
