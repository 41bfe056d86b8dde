/** Request validation at the hub, from the store to the verdict: the visible providers of a resource, their
    declared schemas in whatever order the store lists them, the merge, and the validator. */
module HubValidation {
  import opened Common
  import opened PeerRegistry
  import opened ResourceSchema
  import opened SchemaMeaning
  import opened SchemaExact

  predicate Declares(p: Peer, resource: string) {
    "resource_meta_schema_v1" in p.capabilities && resource in p.resourceSchemas
  }

  /** The schemas that the visible peers declare for the resource. */
  function Offered(visible: map<string, Peer>, resource: string): set<Schema> {
    set id | id in visible && Declares(visible[id], resource) :: visible[id].resourceSchemas[resource]
  }

  predicate AllOfferedAccept(visible: map<string, Peer>, resource: string, r: Request) {
    forall s :: s in Offered(visible, resource) ==> Accepts(s, r)
  }

  predicate Verdict(providers: seq<Peer>, resource: string, r: Request) {
    var schema := Merged(Declared(providers, resource));
    schema.None? || Accepts(schema.value, r)
  }

  method Validate(registry: PeerRegistryService, resource: string, r: Request, now: int) returns (ok: bool)
    ensures exists providers ::
              && Lists(providers, VisiblePeers(registry.store.peers, resource, now, registry.leaseTtl))
              && ok == Verdict(providers, resource, r)
  {
    var schema := registry.GetResourceMetaSchema(resource, now);
    ok := ValidateRequestMeta(schema, r);
  }

  // ----- The condition, on the set of declared schemas -----

  /** For each field but the timeout there is a value that every non-empty enum lists. */
  ghost predicate ShareAmong(schemas: set<Schema>) {
    forall field :: field != "timeout_ms" ==> FieldShared(schemas, field)
  }

  ghost predicate FieldShared(schemas: set<Schema>, field: string) { exists v :: Shared(schemas, field, v) }

  predicate Shared(schemas: set<Schema>, field: string, v: string) {
    forall s :: s in schemas && field in s.constraints && s.constraints[field].enum != [] ==> v in s.constraints[field].enum
  }

  predicate AtOddsAmong(schemas: set<Schema>) {
    || (exists s, f :: s in schemas && f in s.required && f !in META_FIELDS)
    || (exists s, t :: s in schemas && t in schemas && MinAbove(s, t))
    || (exists s, t :: s in schemas && t in schemas && "timeout_ms" in s.required && NoneLeft(t))
  }

  predicate PlainAmong(schemas: set<Schema>) {
    forall s, f :: s in schemas && f in s.constraints ==> "" !in s.constraints[f].enum
  }

  lemma DeclaredIsOffered(providers: seq<Peer>, visible: map<string, Peer>, resource: string, s: Schema)
    requires Lists(providers, visible)
    ensures s in Declared(providers, resource) <==> s in Offered(visible, resource)
  {
    DeclaredByPeers(providers, resource, s);
    var ids :| ListedUnder(ids, providers, visible);
    if s in Offered(visible, resource) {
      var id :| id in visible && Declares(visible[id], resource) && visible[id].resourceSchemas[resource] == s;
      assert id in ids;
      assert visible[id] in providers;
    }
  }

  lemma SameVerdict(schemas: seq<Schema>, all: set<Schema>)
    requires forall s :: s in schemas <==> s in all
    ensures AtOdds(schemas) <==> AtOddsAmong(all)
    ensures PlainAmong(all) ==> PlainEnums(schemas)
    ensures forall r :: AllAccept(schemas, r) <==> forall s :: s in all ==> Accepts(s, r)
  {
    assert forall i :: 0 <= i < |schemas| ==> schemas[i] in all;
    if AtOddsAmong(all) {
      if s, f :| s in all && f in s.required && f !in META_FIELDS {
        assert s in schemas;
      } else if s, t :| s in all && t in all && MinAbove(s, t) {
        assert s in schemas && t in schemas;
      } else {
        var s, t :| s in all && t in all && "timeout_ms" in s.required && NoneLeft(t);
        assert s in schemas && t in schemas;
      }
    }
  }

  lemma SameSharing(schemas: seq<Schema>, all: set<Schema>)
    requires forall s :: s in schemas <==> s in all
    ensures EnumsShareValues(schemas) <==> ShareAmong(all)
  {
    forall field, v ensures CommonTo(ForField(schemas, field), v) <==> Shared(all, field, v) {
      forall c ensures c in ForField(schemas, field)
                       <==> exists s :: s in all && field in s.constraints && s.constraints[field] == c {
        ForFieldMembers(schemas, field, c);
      }
    }
    if EnumsShareValues(schemas) {
      forall field | field != "timeout_ms" ensures FieldShared(all, field) {
        var v :| CommonTo(ForField(schemas, field), v);
        assert Shared(all, field, v);
      }
    }
    if ShareAmong(all) {
      forall field | field != "timeout_ms" ensures ShareValue(ForField(schemas, field)) {
        assert FieldShared(all, field);
        var v :| Shared(all, field, v);
        assert CommonTo(ForField(schemas, field), v);
      }
    }
  }

  lemma NothingDeclared(providers: seq<Peer>, resource: string, r: Request)
    ensures Verdict(providers, resource, r) <==> Accepts(MergeAll(Declared(providers, resource)), r)
  {
  }

  /** Over a store, for every order in which it may list its peers: the validator accepts, on every request,
      exactly what every visible provider's declared schema accepts, if and only if the enums of each field
      share a value or the providers are at odds in any case. */
  lemma ValidatorMeansProvidersIff(visible: map<string, Peer>, providers: seq<Peer>, resource: string)
    requires Lists(providers, visible) && PlainAmong(Offered(visible, resource))
    ensures (forall r :: Verdict(providers, resource, r) <==> AllOfferedAccept(visible, resource, r))
            <==> AtOddsAmong(Offered(visible, resource)) || ShareAmong(Offered(visible, resource))
  {
    var schemas, all := Declared(providers, resource), Offered(visible, resource);
    forall s ensures s in schemas <==> s in all { DeclaredIsOffered(providers, visible, resource, s); }
    SameVerdict(schemas, all);
    SameSharing(schemas, all);
    MergeExactIffPlain(schemas);
    forall r ensures Verdict(providers, resource, r) <==> Accepts(MergeAll(schemas), r) { NothingDeclared(providers, resource, r); }
    assert forall r :: AllOfferedAccept(visible, resource, r) <==> AllAccept(schemas, r);
  }
}
