/** The peer list query: access-control, role and status filters, and pagination. */
module PeerList {
  import opened Common
  import opened TopicAcl
  import opened TopicSet
  import opened PeerRegistry

  datatype Query = Query(
    sourcePeerId: string, resourceFilter: string, roleFilter: string, statusFilter: Option<Status>,
    pageSize: int, pageOffset: int)

  datatype Response = Response(peers: seq<Peer>, totalCount: nat, pageOffset: nat, hasMore: bool)

  /** The caller may publish or subscribe to the peer's request topic; without an access control service
      (no rules) or without a caller, everything is visible. */
  predicate CallerSees(rules: Option<set<Rule>>, tenant: string, caller: string, p: Peer) {
    || rules.None? || caller == ""
    || Permitted(rules.value, caller, Sub, TransferRequest(tenant, p.id))
    || Permitted(rules.value, caller, Pub, TransferRequest(tenant, p.id))
  }

  // The peers that each filter of a query keeps.

  ghost function VisibleTo(rules: Option<set<Rule>>, tenant: string, caller: string): iset<Peer> {
    iset p: Peer | CallerSees(rules, tenant, caller, p)
  }

  ghost function InRole(role: string): iset<Peer> { iset p: Peer | role == "" || p.role == role }

  ghost function InStatus(status: Option<Status>): iset<Peer> { iset p: Peer | status.None? || Some(p.status) == status }

  predicate Selects(rules: Option<set<Rule>>, tenant: string, q: Query, p: Peer) {
    && CallerSees(rules, tenant, q.sourcePeerId, p)
    && (q.roleFilter == "" || p.role == q.roleFilter)
    && (q.statusFilter.None? || Some(p.status) == q.statusFilter)
  }

  ghost function Selected(rules: Option<set<Rule>>, tenant: string, q: Query): iset<Peer> {
    iset p: Peer | Selects(rules, tenant, q, p)
  }

  /** The first k peers that are kept, in order. */
  ghost function FilterFirst(peers: seq<Peer>, k: nat, keep: iset<Peer>): seq<Peer>
    requires k <= |peers|
  {
    if k == 0 then []
    else
      var before := FilterFirst(peers, k - 1, keep);
      if peers[k - 1] in keep then before + [peers[k - 1]] else before
  }

  ghost function Filter(peers: seq<Peer>, keep: iset<Peer>): seq<Peer> { FilterFirst(peers, |peers|, keep) }

  lemma {:induction false} FilterMembers(peers: seq<Peer>, k: nat, keep: iset<Peer>, p: Peer)
    requires k <= |peers|
    ensures p in FilterFirst(peers, k, keep) <==> p in peers[..k] && p in keep
  {
    if k > 0 {
      FilterMembers(peers, k - 1, keep, p);
      assert peers[..k] == peers[..k - 1] + [peers[k - 1]];
    }
  }

  lemma FilterKeeps(peers: seq<Peer>, keep: iset<Peer>)
    ensures forall p :: p in Filter(peers, keep) <==> p in peers && p in keep
  {
    assert peers[..|peers|] == peers;
    forall p ensures p in Filter(peers, keep) <==> p in peers && p in keep { FilterMembers(peers, |peers|, keep, p); }
  }

  lemma FilterSnoc(peers: seq<Peer>, p: Peer, keep: iset<Peer>)
    ensures Filter(peers + [p], keep) == Filter(peers, keep) + if p in keep then [p] else []
  {
    FilterPrefix(peers, p, |peers|, keep);
    assert (peers + [p])[|peers|] == p;
  }

  /** A filter keeps the order and every occurrence: it works peer by peer. */
  lemma {:induction false} FilterConcat(peers: seq<Peer>, more: seq<Peer>, keep: iset<Peer>)
    ensures Filter(peers + more, keep) == Filter(peers, keep) + Filter(more, keep)
    ensures |more| == 1 ==> Filter(more, keep) == if more[0] in keep then more else []
    decreases |more|
  {
    if more == [] {
      assert peers + more == peers;
    } else {
      var n := |more| - 1;
      var init, p := more[..n], more[n];
      FilterConcat(peers, init, keep);
      FilterSnoc(init, p, keep);
      FilterSnoc(peers + init, p, keep);
      assert more == init + [p];
      assert peers + more == (peers + init) + [p];
    }
  }

  /** The page size that the service uses: the requested one, or 20 when it is out of range. */
  function PageSize(requested: int, maxPageSize: int): (n: nat)
    ensures n >= 1
  {
    if requested <= 0 || requested > maxPageSize then 20 else requested
  }

  function Page(filtered: seq<Peer>, size: nat, offset: int): Response {
    var from := if offset < 0 then 0 else offset;
    if from + size < |filtered| then Response(filtered[from..from + size], |filtered|, from, true)
    else if from < |filtered| then Response(filtered[from..], |filtered|, from, false)
    else Response([], |filtered|, from, false)
  }

  class PeerListService {
    const registry: PeerRegistryService
    const acl: Option<TopicAclService>
    const tenant: string
    const maxPageSize: int

    constructor (registry: PeerRegistryService, acl: Option<TopicAclService>, tenant: string, maxPageSize: int)
      ensures this.registry == registry && this.acl == acl && this.tenant == tenant
      ensures this.maxPageSize == (if maxPageSize <= 0 then 100 else maxPageSize)
    {
      this.registry := registry;
      this.acl := acl;
      this.tenant := tenant;
      this.maxPageSize := if maxPageSize <= 0 then 100 else maxPageSize;
    }

    ghost function Rules(): Option<set<Rule>>
      reads if acl.Some? then {acl.value} else {}
    {
      if acl.None? then None else Some(RuleSet(acl.value.rules))
    }

    method FilterByAcl(caller: string, peers: seq<Peer>) returns (result: seq<Peer>)
      ensures result == Filter(peers, VisibleTo(Rules(), tenant, caller))
      ensures acl.None? || caller == "" ==> result == peers
    {
      ghost var keep := VisibleTo(Rules(), tenant, caller);
      if acl.None? || caller == "" {
        KeepsAll(peers, |peers|, keep);
        return peers;
      }
      result := [];
      for i := 0 to |peers|
        invariant result == FilterFirst(peers, i, keep)
      {
        var ok := MaySee(caller, peers[i]);
        if ok { result := result + [peers[i]]; }
      }
    }

    method MaySee(caller: string, p: Peer) returns (ok: bool)
      requires acl.Some? && caller != ""
      ensures ok == CallerSees(Rules(), tenant, caller, p)
    {
      ok := acl.value.Authorize(caller, Sub, TransferRequest(tenant, p.id));
      if !ok { ok := acl.value.Authorize(caller, Pub, TransferRequest(tenant, p.id)); }
    }

    method FilterByRole(peers: seq<Peer>, roleFilter: string) returns (result: seq<Peer>)
      ensures result == Filter(peers, InRole(roleFilter))
      ensures forall p :: p in result <==> p in peers && (roleFilter == "" || p.role == roleFilter)
    {
      FilterKeeps(peers, InRole(roleFilter));
      ghost var keep := InRole(roleFilter);
      if roleFilter == "" {
        KeepsAll(peers, |peers|, keep);
        return peers;
      }
      result := [];
      for i := 0 to |peers|
        invariant result == FilterFirst(peers, i, keep)
      {
        if peers[i].role == roleFilter { result := result + [peers[i]]; }
      }
    }

    method FilterByStatus(peers: seq<Peer>, statusFilter: Option<Status>) returns (result: seq<Peer>)
      ensures result == Filter(peers, InStatus(statusFilter))
      ensures forall p :: p in result <==> p in peers && (statusFilter.None? || p.status == statusFilter.value)
    {
      FilterKeeps(peers, InStatus(statusFilter));
      ghost var keep := InStatus(statusFilter);
      if statusFilter.None? {
        KeepsAll(peers, |peers|, keep);
        return peers;
      }
      result := [];
      for i := 0 to |peers|
        invariant result == FilterFirst(peers, i, keep)
      {
        if peers[i].status == statusFilter.value { result := result + [peers[i]]; }
      }
    }

    /** One query.  The registry lists its candidates anew each time, in any order. */
    method HandleQuery(q: Query, now: int) returns (resp: Response)
      ensures exists listing ::
                && Lists(listing, VisiblePeers(registry.store.peers, q.resourceFilter, now, registry.leaseTtl))
                && resp == Page(Filter(listing, Selected(Rules(), tenant, q)), PageSize(q.pageSize, maxPageSize), q.pageOffset)
    {
      var ids, allPeers := registry.GetPeers(q.resourceFilter, now);
      ghost var visible := VisiblePeers(registry.store.peers, q.resourceFilter, now, registry.leaseTtl);
      IsListing(ids, allPeers, visible);
      var filtered := Select(q, allPeers);
      resp := Paginate(filtered, q.pageSize, q.pageOffset);
    }

    method Select(q: Query, allPeers: seq<Peer>) returns (filtered: seq<Peer>)
      ensures filtered == Filter(allPeers, Selected(Rules(), tenant, q))
    {
      filtered := FilterByAcl(q.sourcePeerId, allPeers);
      filtered := FilterByRole(filtered, q.roleFilter);
      filtered := FilterByStatus(filtered, q.statusFilter);
      FiltersCompose(allPeers, Rules(), tenant, q);
    }

    method Paginate(selected: seq<Peer>, requestedSize: int, requestedOffset: int) returns (resp: Response)
      ensures resp == Page(selected, PageSize(requestedSize, maxPageSize), requestedOffset)
      ensures var size := if 0 < requestedSize <= maxPageSize then requestedSize else 20;
              var from := if requestedOffset > 0 then requestedOffset else 0;
              && resp.totalCount == |selected| && resp.pageOffset == from && (resp.hasMore <==> from + size < |selected|)
              && resp.peers == if from >= |selected| then [] else if resp.hasMore then selected[from..from + size] else selected[from..]
    {
      var filtered := selected;
      var pageSize := requestedSize;
      if pageSize <= 0 || pageSize > maxPageSize { pageSize := 20; }
      var offset := requestedOffset;
      if offset < 0 { offset := 0; }
      var totalCount := |filtered|;
      var hasMore := false;
      if offset + pageSize < totalCount {
        hasMore := true;
        filtered := filtered[offset..offset + pageSize];
      } else if offset < totalCount {
        filtered := filtered[offset..];
      } else {
        filtered := [];
      }
      resp := Response(filtered, totalCount, offset, hasMore);
    }
  }

  lemma IsListing(ids: seq<string>, peers: seq<Peer>, all: map<string, Peer>)
    requires ListedUnder(ids, peers, all)
    ensures Lists(peers, all)
  {
  }

  lemma {:induction false} KeepsAll(peers: seq<Peer>, k: nat, keep: iset<Peer>)
    requires k <= |peers| && forall p :: p in peers ==> p in keep
    ensures FilterFirst(peers, k, keep) == peers[..k]
  {
    if k > 0 { KeepsAll(peers, k - 1, keep); }
  }

  lemma {:induction false} FilterPrefix(peers: seq<Peer>, p: Peer, k: nat, keep: iset<Peer>)
    requires k <= |peers|
    ensures FilterFirst(peers + [p], k, keep) == FilterFirst(peers, k, keep)
  {
    if k > 0 { FilterPrefix(peers, p, k - 1, keep); }
  }

  lemma {:induction false} FilterTwice(peers: seq<Peer>, k: nat, f: iset<Peer>, g: iset<Peer>)
    requires k <= |peers|
    ensures Filter(FilterFirst(peers, k, f), g) == FilterFirst(peers, k, f * g)
  {
    if k > 0 {
      FilterTwice(peers, k - 1, f, g);
      var before := FilterFirst(peers, k - 1, f);
      FilterPrefix(before, peers[k - 1], |before|, g);
    }
  }

  /** The three filters, one after the other, select what the query asks for. */
  lemma FiltersCompose(peers: seq<Peer>, rules: Option<set<Rule>>, tenant: string, q: Query)
    ensures Filter(Filter(Filter(peers, VisibleTo(rules, tenant, q.sourcePeerId)), InRole(q.roleFilter)), InStatus(q.statusFilter))
         == Filter(peers, Selected(rules, tenant, q))
  {
    var sees, role, status := VisibleTo(rules, tenant, q.sourcePeerId), InRole(q.roleFilter), InStatus(q.statusFilter);
    FilterTwice(peers, |peers|, sees, role);
    FilterTwice(peers, |peers|, sees * role, status);
    assert sees * role * status == Selected(rules, tenant, q);
  }

  /** The pages of one fixed list, page after page while there is more. */
  function FollowPages(filtered: seq<Peer>, size: nat, offset: nat): seq<Peer>
    requires size >= 1
    decreases |filtered| - offset
  {
    var r := Page(filtered, size, offset);
    r.peers + if r.hasMore then FollowPages(filtered, size, offset + size) else []
  }

  /** Of one fixed list the pages concatenate to exactly that list, each peer once and in order. */
  lemma {:induction false} PagesConcatenate(filtered: seq<Peer>, size: nat, offset: nat)
    requires size >= 1 && offset <= |filtered|
    ensures FollowPages(filtered, size, offset) == filtered[offset..]
    decreases |filtered| - offset
  {
    if offset + size < |filtered| {
      PagesConcatenate(filtered, size, offset + size);
      assert filtered[offset..offset + size] + filtered[offset + size..] == filtered[offset..];
    }
  }
}
