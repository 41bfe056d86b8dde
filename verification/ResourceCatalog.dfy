/** The resource catalog: an inverted index from resources to providers, against the simple map
    from peers to the resources they offer. */
module ResourceCatalog {

  type Index = map<string, seq<string>>

  function ProvidersOf(index: Index, resource: string): seq<string> {
    if resource in index then index[resource] else []
  }

  function Without(providers: seq<string>, peerId: string): (r: seq<string>)
    ensures forall p :: p in r <==> p in providers && p != peerId
    ensures NoDuplicates(providers) ==> NoDuplicates(r)
  {
    if providers == [] then []
    else
      var init, last := providers[..|providers|-1], providers[|providers|-1];
      var rest := Without(init, peerId);
      assert NoDuplicates(providers) ==> NoDuplicates(init) && last !in init;
      assert providers == init + [last];
      if last == peerId then rest else rest + [last]
  }

  predicate NoDuplicates(s: seq<string>) { forall i, j :: 0 <= i < j < |s| ==> s[i] != s[j] }

  function WithProvider(index: Index, resource: string, peerId: string): Index {
    var providers := ProvidersOf(index, resource);
    if peerId in providers then index else index[resource := providers + [peerId]]
  }

  function WithProviders(index: Index, resources: seq<string>, peerId: string): Index {
    if resources == [] then index
    else WithProvider(WithProviders(index, resources[..|resources|-1], peerId), resources[|resources|-1], peerId)
  }

  function Cleared(index: Index, peerId: string): Index {
    map r | r in index :: Without(index[r], peerId)
  }

  /** The index, and the events that explain it. */
  class Catalog {
    var index: Index
    ghost var history: seq<Event>

    ghost predicate Valid()
      reads this
    {
      index == Run(history)
    }

    constructor ()
      ensures Valid() && history == []
    {
      index, history := map[], [];
    }

    method AddProvider(resource: string, peerId: string)
      modifies this`index
      ensures index == WithProvider(old(index), resource, peerId)
    {
      var providers := ProvidersOf(index, resource);
      for i := 0 to |providers|
        invariant peerId !in providers[..i] && index == old(index)
      {
        if providers[i] == peerId { return; }
      }
      assert providers[..|providers|] == providers;
      index := index[resource := providers + [peerId]];
    }

    method AddAll(resources: seq<string>, peerId: string)
      modifies this`index
      ensures index == WithProviders(old(index), resources, peerId)
    {
      for i := 0 to |resources|
        invariant index == WithProviders(old(index), resources[..i], peerId)
      {
        assert resources[..i + 1][..i] == resources[..i];
        AddProvider(resources[i], peerId);
      }
      assert resources[..|resources|] == resources;
    }

    ghost method Record(e: Event)
      requires index == Step(Run(history), e)
      modifies this`history
      ensures Valid() && history == old(history) + [e]
    {
      RunSnoc(history, e);
      history := history + [e];
    }

    method OnPeerRegistered(peerId: string, resources: seq<string>)
      requires Valid()
      modifies this
      ensures Valid() && history == old(history) + [Register(peerId, resources)]
      ensures index == WithProviders(old(index), resources, peerId)
    {
      AddAll(resources, peerId);
      Record(Register(peerId, resources));
    }

    method OnPeerUnregistered(peerId: string)
      requires Valid()
      modifies this
      ensures Valid() && history == old(history) + [Unregister(peerId)]
      ensures index == Cleared(old(index), peerId)
    {
      Clear(peerId);
      Record(Unregister(peerId));
    }

    method Clear(peerId: string)
      modifies this`index
      ensures index == Cleared(old(index), peerId)
    {
      var rest := index.Keys;
      while rest != {}
        invariant rest <= index.Keys == old(index).Keys
        invariant forall r :: r in index ==> index[r] == if r in rest then old(index)[r] else Without(old(index)[r], peerId)
        decreases rest
      {
        var resource :| resource in rest;
        rest := rest - {resource};
        var filtered := Filter(index[resource], peerId);
        index := index[resource := filtered];
      }
    }

    static method Filter(providers: seq<string>, peerId: string) returns (filtered: seq<string>)
      ensures filtered == Without(providers, peerId)
    {
      filtered := [];
      for i := 0 to |providers|
        invariant filtered == Without(providers[..i], peerId)
      {
        assert providers[..i + 1][..i] == providers[..i];
        if providers[i] != peerId { filtered := filtered + [providers[i]]; }
      }
      assert providers[..|providers|] == providers;
    }

    method OnResourceReport(peerId: string, resources: seq<string>)
      requires Valid()
      modifies this
      ensures Valid() && history == old(history) + [Report(peerId, resources)]
      ensures index == WithProviders(Cleared(old(index), peerId), resources, peerId)
    {
      Clear(peerId);
      AddAll(resources, peerId);
      Record(Report(peerId, resources));
    }

    /** Whatever has happened so far: the peers that still offer the resource, each once. */
    method GetProviders(resource: string) returns (providers: seq<string>)
      requires Valid()
      ensures NoDuplicates(providers)
      ensures forall p :: p in providers <==> StillOffered(history, p, resource)
    {
      CatalogIsHistory(history, resource);
      providers := ProvidersOf(index, resource);
    }
  }

  // ----- Runs -----

  datatype Event =
    | Register(peerId: string, resources: seq<string>)
    | Report(peerId: string, resources: seq<string>)
    | Unregister(peerId: string)

  function Step(index: Index, e: Event): Index {
    match e
    case Register(p, rs) => WithProviders(index, rs, p)
    case Report(p, rs) => WithProviders(Cleared(index, p), rs, p)
    case Unregister(p) => Cleared(index, p)
  }

  function Run(es: seq<Event>): Index {
    if es == [] then map[] else Step(Run(es[..|es|-1]), es[|es|-1])
  }

  lemma RunSnoc(es: seq<Event>, e: Event)
    ensures Run(es + [e]) == Step(Run(es), e)
  {
    assert (es + [e])[..|es|] == es;
  }

  /** The event makes the peer a provider of the resource. */
  predicate Offers(e: Event, peerId: string, resource: string) {
    e.peerId == peerId && (e.Register? || e.Report?) && resource in e.resources
  }

  /** The event forgets what the peer offered before. */
  predicate Forgets(e: Event, peerId: string) { e.peerId == peerId && (e.Report? || e.Unregister?) }

  /** The peer offered the resource in some event and no later event forgot it. */
  predicate StillOffered(es: seq<Event>, peerId: string, resource: string) {
    exists i :: 0 <= i < |es| && Offers(es[i], peerId, resource) && forall j :: i < j < |es| ==> !Forgets(es[j], peerId)
  }

  lemma {:induction false} WithProvidersProvides(index: Index, resources: seq<string>, peerId: string, r: string)
    ensures var providers := ProvidersOf(WithProviders(index, resources, peerId), r);
            && (forall p :: p in providers <==> p in ProvidersOf(index, r) || (p == peerId && r in resources))
            && (NoDuplicates(ProvidersOf(index, r)) ==> NoDuplicates(providers))
  {
    if resources != [] { WithProvidersProvides(index, resources[..|resources|-1], peerId, r); }
  }

  lemma {:induction false} OfferedStep(es: seq<Event>, e: Event, p: string, r: string)
    ensures StillOffered(es + [e], p, r) <==> Offers(e, p, r) || (StillOffered(es, p, r) && !Forgets(e, p))
  {
    var all := es + [e];
    assert all[|es|] == e && forall i :: 0 <= i < |es| ==> all[i] == es[i];
    if StillOffered(es, p, r) && !Forgets(e, p) {
      var i :| 0 <= i < |es| && Offers(es[i], p, r) && forall j :: i < j < |es| ==> !Forgets(es[j], p);
      assert Offers(all[i], p, r) && forall j :: i < j < |all| ==> !Forgets(all[j], p);
    }
    if StillOffered(all, p, r) && !Offers(e, p, r) {
      var i :| 0 <= i < |all| && Offers(all[i], p, r) && forall j :: i < j < |all| ==> !Forgets(all[j], p);
      assert Offers(es[i], p, r) && forall j :: i < j < |es| ==> !Forgets(es[j], p) by {
        assert forall j :: i < j < |es| ==> all[j] == es[j];
      }
      assert !Forgets(all[|es|], p);
    }
  }

  /** After any run the providers of a resource are listed once each, and they are exactly the peers
      that offered it and have not since reported, or unregistered, without it. */
  lemma {:induction false} CatalogIsHistory(es: seq<Event>, r: string)
    ensures NoDuplicates(ProvidersOf(Run(es), r))
    ensures forall p :: p in ProvidersOf(Run(es), r) <==> StillOffered(es, p, r)
  {
    if es != [] {
      var init, e := es[..|es|-1], es[|es|-1];
      CatalogIsHistory(init, r);
      assert es == init + [e];
      forall p ensures p in ProvidersOf(Run(es), r) <==> StillOffered(es, p, r) {
        OfferedStep(init, e, p, r);
        match e
        case Register(q, rs) => WithProvidersProvides(Run(init), rs, q, r);
        case Report(q, rs) => WithProvidersProvides(Cleared(Run(init), q), rs, q, r);
        case Unregister(q) =>
      }
      match e
      case Register(q, rs) => WithProvidersProvides(Run(init), rs, q, r);
      case Report(q, rs) => WithProvidersProvides(Cleared(Run(init), q), rs, q, r);
      case Unregister(q) =>
    }
  }
}
