/** What merging schemas does to the requests they admit, judged by the request validator. */
module SchemaMeaning {
  import opened Common
  import opened Envelope
  import opened ResourceSchema

  /** What the validator sees of a normalised message. */
  datatype Request = Request(header: Header, fields: map<string, string>)

  predicate HasMetaField(h: Header, field: string) {
    match field
    case "request_id" => h.requestId != ""
    case "correlation_id" => h.correlationId != ""
    case "reply_to" => h.replyTo != ""
    case "source_peer_id" => h.sourcePeerId != ""
    case "target_peer_id" => h.targetPeerId != ""
    case "tenant" => h.tenant != ""
    case "trace_id" => h.traceId != ""
    case "idempotency_key" => h.idempotencyKey != ""
    case "timeout_ms" => h.timeoutMs > 0
    case _ => false
  }

  /** Each of the nine names reads one header field: setting that field decides its requirement and no other. */
  lemma HeaderFieldsAreRead(h: Header, f: string, v: string, t: int)
    ensures HasMetaField(h.(requestId := v), f) <==> if f == "request_id" then v != "" else HasMetaField(h, f)
    ensures HasMetaField(h.(correlationId := v), f) <==> if f == "correlation_id" then v != "" else HasMetaField(h, f)
    ensures HasMetaField(h.(replyTo := v), f) <==> if f == "reply_to" then v != "" else HasMetaField(h, f)
    ensures HasMetaField(h.(sourcePeerId := v), f) <==> if f == "source_peer_id" then v != "" else HasMetaField(h, f)
    ensures HasMetaField(h.(targetPeerId := v), f) <==> if f == "target_peer_id" then v != "" else HasMetaField(h, f)
    ensures HasMetaField(h.(tenant := v), f) <==> if f == "tenant" then v != "" else HasMetaField(h, f)
    ensures HasMetaField(h.(traceId := v), f) <==> if f == "trace_id" then v != "" else HasMetaField(h, f)
    ensures HasMetaField(h.(idempotencyKey := v), f) <==> if f == "idempotency_key" then v != "" else HasMetaField(h, f)
    ensures HasMetaField(h.(timeoutMs := t), f) <==> if f == "timeout_ms" then t > 0 else HasMetaField(h, f)
    ensures !HasMetaField(ZERO_HEADER, f)
  {
  }

  function FieldValue(r: Request, key: string): string { if key in r.fields then r.fields[key] else "" }

  predicate InRange(c: Constraint, v: int) {
    (c.min.Some? ==> v >= c.min.value) && (c.max.Some? ==> v <= c.max.value)
  }

  predicate EnumAdmits(enum: seq<string>, v: string) { |enum| == 0 || v == "" || v in enum }

  predicate ConstraintOk(r: Request, field: string, c: Constraint) {
    if field == "timeout_ms" then InRange(c, r.header.timeoutMs) else EnumAdmits(c.enum, FieldValue(r, field))
  }

  predicate Accepts(s: Schema, r: Request) {
    && (forall f :: f in s.required ==> HasMetaField(r.header, f))
    && (forall k :: k in s.protocolMetaRequired ==> FieldValue(r, k) != "")
    && (forall f :: f in s.constraints ==> ConstraintOk(r, f, s.constraints[f]))
  }

  method ValidateConstraint(r: Request, field: string, c: Constraint) returns (ok: bool)
    ensures ok == ConstraintOk(r, field, c)
    ensures field == "timeout_ms" ==>
              (ok <==> (c.min.None? || r.header.timeoutMs >= c.min.value) && (c.max.None? || r.header.timeoutMs <= c.max.value))
    ensures field != "timeout_ms" ==>
              (ok <==> c.enum == [] || field !in r.fields || r.fields[field] == "" || r.fields[field] in c.enum)
  {
    if field == "timeout_ms" {
      var value := r.header.timeoutMs;
      if c.min.Some? && value < c.min.value { return false; }
      if c.max.Some? && value > c.max.value { return false; }
      return true;
    }
    if |c.enum| == 0 { return true; }
    var value := FieldValue(r, field);
    if value == "" { return true; }
    for i := 0 to |c.enum|
      invariant value !in c.enum[..i]
    {
      if value == c.enum[i] { return true; }
    }
    return false;
  }

  method ValidateRequestMeta(schema: Option<Schema>, r: Request) returns (ok: bool)
    ensures ok == (schema.None? || Accepts(schema.value, r))
    ensures schema.Some? ==>
              (ok <==> && (forall f :: f in schema.value.required ==> HasMetaField(r.header, f))
                       && (forall k :: k in schema.value.protocolMetaRequired ==> k in r.fields && r.fields[k] != "")
                       && (forall f :: f in schema.value.constraints ==> ConstraintOk(r, f, schema.value.constraints[f])))
  {
    if schema.None? { return true; }
    var s := schema.value;
    for i := 0 to |s.required|
      invariant forall j :: 0 <= j < i ==> HasMetaField(r.header, s.required[j])
    {
      if !HasMetaField(r.header, s.required[i]) { return false; }
    }
    for i := 0 to |s.protocolMetaRequired|
      invariant forall j :: 0 <= j < i ==> FieldValue(r, s.protocolMetaRequired[j]) != ""
    {
      if FieldValue(r, s.protocolMetaRequired[i]) == "" { return false; }
    }
    var rest := s.constraints.Keys;
    while rest != {}
      invariant rest <= s.constraints.Keys
      invariant forall f :: f in s.constraints && f !in rest ==> ConstraintOk(r, f, s.constraints[f])
      decreases rest
    {
      var field :| field in rest;
      var fine := ValidateConstraint(r, field, s.constraints[field]);
      if !fine { return false; }
      rest := rest - {field};
    }
    return true;
  }

  // ----- One field -----

  /** The constraints that the schemas put on a field, in order. */
  function ForField(schemas: seq<Schema>, field: string): seq<Constraint> {
    if schemas == [] then []
    else
      var last := schemas[|schemas|-1];
      ForField(schemas[..|schemas|-1], field) + if field in last.constraints then [last.constraints[field]] else []
  }

  function MergeList(cs: seq<Constraint>): Constraint
    requires cs != []
  {
    if |cs| == 1 then cs[0] else MergedConstraint(MergeList(cs[..|cs|-1]), cs[|cs|-1])
  }

  lemma {:induction false} FieldOfMerge(schemas: seq<Schema>, field: string)
    ensures field in MergeAll(schemas).constraints <==> ForField(schemas, field) != []
    ensures field in MergeAll(schemas).constraints ==> MergeAll(schemas).constraints[field] == MergeList(ForField(schemas, field))
  {
    if schemas != [] {
      var init, last := schemas[..|schemas|-1], schemas[|schemas|-1];
      FieldOfMerge(init, field);
      var before, cs := ForField(init, field), ForField(schemas, field);
      if field in last.constraints {
        assert cs == before + [last.constraints[field]] && cs[..|cs|-1] == before;
      } else {
        assert cs == before;
      }
    }
  }

  lemma {:induction false} ForFieldMembers(schemas: seq<Schema>, field: string, c: Constraint)
    ensures c in ForField(schemas, field)
            <==> exists i :: 0 <= i < |schemas| && field in schemas[i].constraints && schemas[i].constraints[field] == c
  {
    if schemas != [] {
      var init := schemas[..|schemas|-1];
      ForFieldMembers(init, field, c);
      if c in ForField(init, field) {
        var i :| 0 <= i < |init| && field in init[i].constraints && init[i].constraints[field] == c;
        assert schemas[i] == init[i];
      }
      if i :| 0 <= i < |schemas| && field in schemas[i].constraints && schemas[i].constraints[field] == c {
        if i < |init| { assert init[i] == schemas[i]; }
      }
    }
  }

  lemma {:induction false} RangeOfMerge(cs: seq<Constraint>, v: int)
    requires cs != []
    ensures InRange(MergeList(cs), v) <==> forall c :: c in cs ==> InRange(c, v)
  {
    if |cs| > 1 {
      var init, last := cs[..|cs|-1], cs[|cs|-1];
      RangeOfMerge(init, v);
      assert InRange(MergedConstraint(MergeList(init), last), v) <==> InRange(MergeList(init), v) && InRange(last, v);
      assert forall c :: c in cs <==> c in init || c == last by { assert cs == init + [last]; }
    } else {
      assert cs == [cs[0]];
    }
  }

  predicate AllAdmit(cs: seq<Constraint>, v: string) { forall c :: c in cs ==> EnumAdmits(c.enum, v) }

  /** A value that every non-empty enum lists. */
  predicate CommonTo(cs: seq<Constraint>, v: string) { forall c :: c in cs && c.enum != [] ==> v in c.enum }

  ghost predicate ShareValue(cs: seq<Constraint>) { exists v :: CommonTo(cs, v) }

  /** A common value survives every merge; and while one exists, merging is intersecting. */
  lemma {:induction false} EnumOfMerge(cs: seq<Constraint>, v: string, w: string)
    requires cs != []
    ensures CommonTo(cs, v) ==> MergeList(cs).enum == [] || v in MergeList(cs).enum
    ensures CommonTo(cs, v) && MergeList(cs).enum == [] ==> forall c :: c in cs ==> c.enum == []
    ensures CommonTo(cs, v) && w in MergeList(cs).enum ==> CommonTo(cs, w)
  {
    if |cs| > 1 {
      var init, last := cs[..|cs|-1], cs[|cs|-1];
      assert cs == init + [last];
      EnumOfMerge(init, v, w);
      if CommonTo(cs, v) { assert CommonTo(init, v); }
    }
  }

  /** Whatever all providers admit, the merged enum admits: with no condition at all. */
  lemma MergedEnumAdmits(cs: seq<Constraint>, v: string)
    requires cs != [] && AllAdmit(cs, v)
    ensures EnumAdmits(MergeList(cs).enum, v)
  {
    if v != "" {
      assert CommonTo(cs, v);
      EnumOfMerge(cs, v, v);
    }
  }

  lemma SharedEnumExact(cs: seq<Constraint>, w: string)
    requires cs != [] && ShareValue(cs) && EnumAdmits(MergeList(cs).enum, w)
    ensures AllAdmit(cs, w)
  {
    var v :| CommonTo(cs, v);
    EnumOfMerge(cs, v, w);
  }

  /** The non-empty enums share a value, or the merge happens to leave nothing but the empty string. */
  ghost predicate EnumsExact(cs: seq<Constraint>)
    requires cs != []
  {
    ShareValue(cs) || (MergeList(cs).enum != [] && forall w :: w in MergeList(cs).enum ==> w == "")
  }

  /** Exactly then the merged enum admits what every provider admits.  In every other case an
      intersection came out empty, and an empty enum admits everything. */
  lemma MergedEnumExactIff(cs: seq<Constraint>)
    requires cs != []
    ensures (forall w :: EnumAdmits(MergeList(cs).enum, w) <==> AllAdmit(cs, w))
            <==> EnumsExact(cs)
  {
    var e := MergeList(cs).enum;
    forall w | AllAdmit(cs, w) ensures EnumAdmits(e, w) { MergedEnumAdmits(cs, w); }
    if ShareValue(cs) {
      forall w | EnumAdmits(e, w) ensures AllAdmit(cs, w) { SharedEnumExact(cs, w); }
    } else {
      forall w | w != "" ensures !AllAdmit(cs, w) {
        assert !CommonTo(cs, w);
      }
      if e == [] { assert EnumAdmits(e, "x") && !AllAdmit(cs, "x"); }
      if w :| w in e && w != "" { assert EnumAdmits(e, w) && !AllAdmit(cs, w); }
    }
  }

  // ----- Whole schemas -----

  lemma NamesOfMerge(schemas: seq<Schema>, f: string)
    ensures f in MergeAll(schemas).required <==> exists i :: 0 <= i < |schemas| && f in schemas[i].required
    ensures f in MergeAll(schemas).optional <==> exists i :: 0 <= i < |schemas| && f in schemas[i].optional
    ensures f in MergeAll(schemas).protocolMetaRequired <==> exists i :: 0 <= i < |schemas| && f in schemas[i].protocolMetaRequired
  {
    RequiredOfMerge(schemas, f);
    OptionalOfMerge(schemas, f);
    ProtocolMetaOfMerge(schemas, f);
  }

  lemma {:induction false} RequiredOfMerge(schemas: seq<Schema>, f: string)
    ensures f in MergeAll(schemas).required <==> exists i :: 0 <= i < |schemas| && f in schemas[i].required
  {
    if schemas != [] {
      var init, last := schemas[..|schemas|-1], schemas[|schemas|-1];
      RequiredOfMerge(init, f);
      assert f in MergeAll(schemas).required <==> f in MergeAll(init).required || f in last.required;
      assert forall i :: 0 <= i < |init| ==> init[i] == schemas[i];
    }
  }

  lemma {:induction false} OptionalOfMerge(schemas: seq<Schema>, f: string)
    ensures f in MergeAll(schemas).optional <==> exists i :: 0 <= i < |schemas| && f in schemas[i].optional
  {
    if schemas != [] {
      var init, last := schemas[..|schemas|-1], schemas[|schemas|-1];
      OptionalOfMerge(init, f);
      assert f in MergeAll(schemas).optional <==> f in MergeAll(init).optional || f in last.optional;
      assert forall i :: 0 <= i < |init| ==> init[i] == schemas[i];
    }
  }

  lemma {:induction false} ProtocolMetaOfMerge(schemas: seq<Schema>, f: string)
    ensures f in MergeAll(schemas).protocolMetaRequired <==> exists i :: 0 <= i < |schemas| && f in schemas[i].protocolMetaRequired
  {
    if schemas != [] {
      var init, last := schemas[..|schemas|-1], schemas[|schemas|-1];
      ProtocolMetaOfMerge(init, f);
      assert f in MergeAll(schemas).protocolMetaRequired <==> f in MergeAll(init).protocolMetaRequired || f in last.protocolMetaRequired;
      assert forall i :: 0 <= i < |init| ==> init[i] == schemas[i];
    }
  }

  lemma AcceptsFieldwise(schemas: seq<Schema>, r: Request, field: string)
    requires AllAccept(schemas, r)
    requires field in MergeAll(schemas).constraints
    ensures ConstraintOk(r, field, MergeAll(schemas).constraints[field])
  {
    FieldOfMerge(schemas, field);
    var cs := ForField(schemas, field);
    forall c | c in cs ensures ConstraintOk(r, field, c) { ForFieldMembers(schemas, field, c); }
    if field == "timeout_ms" {
      RangeOfMerge(cs, r.header.timeoutMs);
    } else {
      MergedEnumAdmits(cs, FieldValue(r, field));
    }
  }

  /** A request that every provider accepts is accepted by the merged schema. */
  lemma AcceptedByAllIsAcceptedByMerged(schemas: seq<Schema>, r: Request)
    requires AllAccept(schemas, r)
    ensures Accepts(MergeAll(schemas), r)
  {
    var m := MergeAll(schemas);
    forall f | f in m.required ensures HasMetaField(r.header, f) { NamesOfMerge(schemas, f); }
    forall k | k in m.protocolMetaRequired ensures FieldValue(r, k) != "" { NamesOfMerge(schemas, k); }
    forall f | f in m.constraints ensures ConstraintOk(r, f, m.constraints[f]) { AcceptsFieldwise(schemas, r, f); }
  }

  /** For each field but the timeout, the non-empty enums of the providers share a value. */
  ghost predicate EnumsShareValues(schemas: seq<Schema>) {
    forall field :: field != "timeout_ms" ==> ShareValue(ForField(schemas, field))
  }

  /** The merged enum of every constrained field but the timeout is exact. */
  ghost predicate FieldsExact(schemas: seq<Schema>) {
    forall field :: field != "timeout_ms" && ForField(schemas, field) != [] ==> EnumsExact(ForField(schemas, field))
  }

  predicate AllAccept(schemas: seq<Schema>, r: Request) { forall i :: 0 <= i < |schemas| ==> Accepts(schemas[i], r) }

  lemma ProviderConstraintOk(schemas: seq<Schema>, r: Request, i: nat, field: string)
    requires i < |schemas| && field in schemas[i].constraints
    requires FieldsExact(schemas) && Accepts(MergeAll(schemas), r)
    ensures ConstraintOk(r, field, schemas[i].constraints[field])
  {
    var cs := ForField(schemas, field);
    ForFieldMembers(schemas, field, schemas[i].constraints[field]);
    FieldOfMerge(schemas, field);
    if field == "timeout_ms" {
      RangeOfMerge(cs, r.header.timeoutMs);
    } else {
      MergedEnumExactIff(cs);
    }
  }

  lemma ExactMergeMeansAll(schemas: seq<Schema>, r: Request)
    requires FieldsExact(schemas)
    ensures Accepts(MergeAll(schemas), r) <==> AllAccept(schemas, r)
  {
    if Accepts(MergeAll(schemas), r) {
      forall i | 0 <= i < |schemas| ensures Accepts(schemas[i], r) {
        forall f | f in schemas[i].required ensures HasMetaField(r.header, f) { NamesOfMerge(schemas, f); }
        forall k | k in schemas[i].protocolMetaRequired ensures FieldValue(r, k) != "" { NamesOfMerge(schemas, k); }
        forall f | f in schemas[i].constraints ensures ConstraintOk(r, f, schemas[i].constraints[f]) {
          ProviderConstraintOk(schemas, r, i, f);
        }
      }
    }
    if AllAccept(schemas, r) { AcceptedByAllIsAcceptedByMerged(schemas, r); }
  }

  /** When the enums share values, the merged schema accepts exactly what every provider accepts. */
  lemma MergedMeansAll(schemas: seq<Schema>, r: Request)
    requires EnumsShareValues(schemas)
    ensures Accepts(MergeAll(schemas), r) <==> AllAccept(schemas, r)
  {
    ExactMergeMeansAll(schemas, r);
  }

  /** One field whose merged enum is not exact turns any accepted request into one that some provider rejects. */
  lemma InexactFieldShows(schemas: seq<Schema>, r: Request, field: string) returns (r': Request)
    requires Accepts(MergeAll(schemas), r) && field != "timeout_ms" && ForField(schemas, field) != []
    requires !EnumsExact(ForField(schemas, field))
    ensures Accepts(MergeAll(schemas), r') && !AllAccept(schemas, r')
  {
    var cs := ForField(schemas, field);
    FieldOfMerge(schemas, field);
    var w := InexactValue(cs);
    r' := Request(r.header, r.fields[field := w]);
    assert forall k :: k != field ==> FieldValue(r', k) == FieldValue(r, k);
    var c :| c in cs && !EnumAdmits(c.enum, w);
    ForFieldMembers(schemas, field, c);
    assert !ConstraintOk(r', field, c);
  }

  lemma InexactValue(cs: seq<Constraint>) returns (w: string)
    requires cs != [] && !EnumsExact(cs)
    ensures w != "" && EnumAdmits(MergeList(cs).enum, w) && !AllAdmit(cs, w)
  {
    MergedEnumExactIff(cs);
    w :| EnumAdmits(MergeList(cs).enum, w) != AllAdmit(cs, w);
    if AllAdmit(cs, w) { MergedEnumAdmits(cs, w); }
  }

  lemma SharingIgnoresOrder(schemas: seq<Schema>, schemas': seq<Schema>)
    requires multiset(schemas) == multiset(schemas') && EnumsShareValues(schemas)
    ensures EnumsShareValues(schemas')
  {
    forall field | field != "timeout_ms" ensures ShareValue(ForField(schemas', field)) {
      var v :| CommonTo(ForField(schemas, field), v);
      forall c | c in ForField(schemas', field) && c.enum != [] ensures v in c.enum {
        ForFieldMembers(schemas', field, c);
        var i :| 0 <= i < |schemas'| && field in schemas'[i].constraints && schemas'[i].constraints[field] == c;
        assert schemas'[i] in multiset(schemas');
        assert schemas'[i] in schemas;
        ForFieldMembers(schemas, field, c);
      }
      assert CommonTo(ForField(schemas', field), v);
    }
  }

  /** Then the verdict does not depend on the order in which the hub visits its providers. */
  lemma ProviderOrderIrrelevant(schemas: seq<Schema>, schemas': seq<Schema>, r: Request)
    requires multiset(schemas) == multiset(schemas') && EnumsShareValues(schemas)
    ensures Accepts(MergeAll(schemas), r) == Accepts(MergeAll(schemas'), r)
  {
    SharingIgnoresOrder(schemas, schemas');
    MergedMeansAll(schemas, r);
    MergedMeansAll(schemas', r);
    assert forall s :: s in schemas <==> s in multiset(schemas);
    assert forall s :: s in schemas' <==> s in multiset(schemas');
    assert (forall s :: s in schemas ==> Accepts(s, r)) <==> (forall s :: s in schemas' ==> Accepts(s, r));
  }

  lemma Disjoint(v: string, w: string)
    requires v != w
    ensures Intersect([v], [w]) == []
  {
    assert [v][..0] == [];
  }

  /** Without a shared value both fail: two disjoint enums merge into one that admits everything, and
      with a third provider the verdict depends on the order. */
  lemma DisjointEnumsLoseTheConstraint()
    ensures var a, b, c := Constraint(None, None, ["a"]), Constraint(None, None, ["b"]), Constraint(None, None, ["c"]);
            && EnumAdmits(MergeList([a, b]).enum, "z") && !EnumAdmits(a.enum, "z") && !EnumAdmits(b.enum, "z")
            && EnumAdmits(MergeList([a, b, c]).enum, "c") && !EnumAdmits(MergeList([b, c, a]).enum, "c")
  {
    var a, b, c := Constraint(None, None, ["a"]), Constraint(None, None, ["b"]), Constraint(None, None, ["c"]);
    Disjoint("a", "b");
    Disjoint("b", "c");
    assert [a, b][..1] == [a] && [a, b, c][..2] == [a, b] && [b, c, a][..2] == [b, c] && [b, c][..1] == [b];
    assert MergeList([a, b]).enum == [] && MergeList([b, c]).enum == [];
    assert MergeList([a, b, c]) == MergedConstraint(MergeList([a, b]), c);
    assert MergeList([b, c, a]) == MergedConstraint(MergeList([b, c]), a);
  }
}
