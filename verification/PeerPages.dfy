/** Paging through the peer list.  Every page request lists the store anew, in any order: when the pages
    together are still the list. */
module PeerPages {
  import opened Common
  import opened TopicAcl
  import opened TopicSet
  import opened PeerRegistry
  import opened PeerList
  import LeaseHistory

  /** What the store holds and the query selects. */
  ghost function Chosen(all: map<string, Peer>, keep: iset<Peer>): set<Peer> { set p | p in all.Values && p in keep }

  /** Each record sits under its own id. */
  predicate UnderOwnIds(all: map<string, Peer>) { forall id :: id in all ==> all[id].id == id }

  /** So it is after every run of registry events, from an empty store or any other that is well kept. */
  lemma RunsKeepOwnIds(start: map<string, Peer>, es: seq<LeaseHistory.Timed>, from: int, to: int, leaseTtl: int, resource: string)
    requires LeaseHistory.AllWellKept(start, from, leaseTtl) && LeaseHistory.ClockRuns(from, es, to)
    ensures UnderOwnIds(VisiblePeers(LeaseHistory.Run(start, es, leaseTtl), resource, to, leaseTtl))
  {
    LeaseHistory.StaleMeansExpired(start, es, from, to, leaseTtl);
    WellKeptIsUnderOwnIds(LeaseHistory.Run(start, es, leaseTtl), to, leaseTtl);
  }

  lemma WellKeptIsUnderOwnIds(peers: map<string, Peer>, now: int, leaseTtl: int)
    requires LeaseHistory.AllWellKept(peers, now, leaseTtl)
    ensures UnderOwnIds(peers)
  {
    forall id | id in peers ensures peers[id].id == id { assert LeaseHistory.WellKept(peers[id], id, now, leaseTtl); }
  }

  predicate Distinct(s: seq<Peer>) { forall i, j :: 0 <= i < j < |s| ==> s[i] != s[j] }

  /** The listings that page requests may see are the arrangements of the records. */
  lemma ListsAreArrangements(l: seq<Peer>, all: map<string, Peer>)
    requires UnderOwnIds(all)
    ensures Lists(l, all) <==> Distinct(l) && forall p :: p in l <==> p in all.Values
  {
    if Lists(l, all) {
      var ids :| ListedUnder(ids, l, all);
      forall p | p in all.Values ensures p in l {
        assert p.id in ids;
        var i :| 0 <= i < |ids| && ids[i] == p.id;
        assert l[i] == p;
      }
    }
    if Distinct(l) && forall p :: p in l <==> p in all.Values {
      var ids := seq(|l|, i requires 0 <= i < |l| => l[i].id);
      assert forall i :: 0 <= i < |l| ==> l[i] in all.Values;
      forall id | id in all ensures id in ids {
        assert all[id] in all.Values;
        var i :| 0 <= i < |l| && l[i] == all[id];
        assert ids[i] == id;
      }
      assert ListedUnder(ids, l, all);
    }
  }

  lemma {:induction false} FilterDistinct(l: seq<Peer>, k: nat, keep: iset<Peer>)
    requires k <= |l| && Distinct(l)
    ensures Distinct(FilterFirst(l, k, keep))
  {
    if k > 0 {
      FilterDistinct(l, k - 1, keep);
      FilterMembers(l, k - 1, keep, l[k - 1]);
    }
  }

  lemma {:induction false} DistinctSize(s: seq<Peer>, members: set<Peer>)
    requires Distinct(s) && forall p :: p in s <==> p in members
    ensures |s| == |members|
  {
    if s != [] {
      var init, last := s[..|s|-1], s[|s|-1];
      assert s == init + [last];
      DistinctSize(init, members - {last});
    } else {
      assert members == {};
    }
  }

  /** Filtering any listing gives the chosen peers, each once. */
  lemma FilteredListing(l: seq<Peer>, all: map<string, Peer>, keep: iset<Peer>)
    requires UnderOwnIds(all) && Lists(l, all)
    ensures Distinct(Filter(l, keep)) && (forall p :: p in Filter(l, keep) <==> p in Chosen(all, keep))
    ensures |Filter(l, keep)| == |Chosen(all, keep)|
  {
    ListsAreArrangements(l, all);
    FilterDistinct(l, |l|, keep);
    assert l[..|l|] == l;
    forall p ensures p in Filter(l, keep) <==> p in Chosen(all, keep) { FilterMembers(l, |l|, keep, p); }
    DistinctSize(Filter(l, keep), Chosen(all, keep));
  }

  /** One listing for every page request, named by its offset. */
  ghost predicate Relists(listings: nat -> seq<Peer>, all: map<string, Peer>) {
    forall offset: nat :: Lists(listings(offset), all)
  }

  /** What a client collects that asks for page after page while the service says there is more. */
  ghost function Collected(listings: nat -> seq<Peer>, all: map<string, Peer>, keep: iset<Peer>, size: nat, offset: nat): seq<Peer>
    requires UnderOwnIds(all) && Relists(listings, all) && size >= 1
    decreases |Chosen(all, keep)| - offset
  {
    FilteredListing(listings(offset), all, keep);
    var r := Page(Filter(listings(offset), keep), size, offset);
    r.peers + if r.hasMore then Collected(listings, all, keep, size, offset + size) else []
  }

  /** Every chosen peer is there, and there once. */
  ghost predicate EachOnce(collected: seq<Peer>, chosen: set<Peer>) {
    forall p :: p in chosen ==> multiset(collected)[p] == 1
  }

  lemma {:induction false} DistinctIsOnce(s: seq<Peer>, p: Peer)
    requires Distinct(s) && p in s
    ensures multiset(s)[p] == 1
  {
    var init, last := s[..|s|-1], s[|s|-1];
    assert s == init + [last];
    if p == last {
      assert p !in init && multiset(init)[p] == 0;
    } else {
      DistinctIsOnce(init, p);
    }
  }

  lemma {:induction false} FilterAll(l: seq<Peer>, k: nat, rest: seq<Peer>, keep: iset<Peer>)
    requires k <= |l| && (forall p :: p in l ==> p in keep)
    ensures FilterFirst(l + rest, k, keep) == l[..k]
  {
    if k > 0 { FilterAll(l, k - 1, rest, keep); }
  }

  lemma {:induction false} FilterNone(l: seq<Peer>, k: nat, rest: seq<Peer>, keep: iset<Peer>)
    requires k <= |rest| && (forall p :: p in rest ==> p !in keep)
    ensures FilterFirst(l + rest, |l| + k, keep) == FilterFirst(l + rest, |l|, keep)
  {
    if k > 0 { FilterNone(l, k - 1, rest, keep); }
  }

  lemma DistinctJoin(f: seq<Peer>, rest: seq<Peer>)
    requires Distinct(f) && Distinct(rest) && forall p :: p in f ==> p !in rest
    ensures Distinct(f + rest)
  {
    forall i, j | 0 <= i < |f| && 0 <= j < |rest| ensures f[i] != rest[j] { assert f[i] in f && rest[j] in rest; }
  }

  /** Any arrangement of the chosen peers is what some listing filters to. */
  lemma ArrangementIsListed(f: seq<Peer>, all: map<string, Peer>, keep: iset<Peer>) returns (l: seq<Peer>)
    requires UnderOwnIds(all) && Distinct(f) && forall p :: p in f <==> p in Chosen(all, keep)
    ensures Lists(l, all) && Filter(l, keep) == f
  {
    var rest := Enumerated(set p | p in all.Values && p !in keep);
    l := f + rest;
    assert forall p :: p in l <==> p in f || p in rest;
    DistinctJoin(f, rest);
    ListsAreArrangements(l, all);
    FilterAll(f, |f|, rest, keep);
    FilterNone(f, |rest|, rest, keep);
  }

  lemma Exchange(f: seq<Peer>, i: nat, j: nat) returns (g: seq<Peer>)
    requires i < j < |f| && Distinct(f)
    ensures g == f[i := f[j]][j := f[i]] && Distinct(g) && forall p :: p in g <==> p in f
  {
    g := f[i := f[j]][j := f[i]];
    forall p | p in f ensures p in g {
      var k :| 0 <= k < |f| && f[k] == p;
      assert g[if k == i then j else if k == j then i else k] == p;
    }
  }

  lemma Enumerated(members: set<Peer>) returns (s: seq<Peer>)
    ensures Distinct(s) && forall p :: p in s <==> p in members
  {
    if members == {} {
      s := [];
    } else {
      var p :| p in members;
      var rest := Enumerated(members - {p});
      s := [p] + rest;
    }
  }

  lemma OnePageIsAll(listings: nat -> seq<Peer>, all: map<string, Peer>, keep: iset<Peer>, size: nat)
    requires UnderOwnIds(all) && Relists(listings, all) && size >= 1 && |Chosen(all, keep)| <= size
    ensures EachOnce(Collected(listings, all, keep, size, 0), Chosen(all, keep))
  {
    var f := Filter(listings(0), keep);
    FilteredListing(listings(0), all, keep);
    assert Collected(listings, all, keep, size, 0) == f;
    forall p | p in Chosen(all, keep) ensures multiset(f)[p] == 1 { DistinctIsOnce(f, p); }
  }

  /** The first page ends before f[size]; listed with f[0] and f[size] exchanged, the next begins with f[0] again. */
  lemma SecondPageRepeats(all: map<string, Peer>, keep: iset<Peer>, size: nat) returns (listings: nat -> seq<Peer>, p: Peer)
    requires UnderOwnIds(all) && 1 <= size < |Chosen(all, keep)|
    ensures Relists(listings, all) && p in Chosen(all, keep)
    ensures multiset(Collected(listings, all, keep, size, 0))[p] >= 2
  {
    var f := Enumerated(Chosen(all, keep));
    DistinctSize(f, Chosen(all, keep));
    var g := Exchange(f, 0, size);
    var l := ArrangementIsListed(f, all, keep);
    var l' := ArrangementIsListed(g, all, keep);
    listings, p := (offset: nat) => if offset == 0 then l else l', f[0];
    var first, second := f[..size], Collected(listings, all, keep, size, size);
    CollectedFrom(listings, all, keep, size, 0, f);
    BeginsWith(listings, all, keep, size, size, g);
    assert first[0] == p;
    TwiceInBoth(first, second, p);
  }

  lemma BeginsWith(listings: nat -> seq<Peer>, all: map<string, Peer>, keep: iset<Peer>, size: nat, offset: nat, f: seq<Peer>)
    requires UnderOwnIds(all) && Relists(listings, all) && size >= 1 && Filter(listings(offset), keep) == f && offset < |f|
    ensures var s := Collected(listings, all, keep, size, offset); |s| > 0 && s[0] == f[offset]
  {
    CollectedFrom(listings, all, keep, size, offset, f);
  }

  lemma TwiceInBoth(a: seq<Peer>, b: seq<Peer>, p: Peer)
    requires p in a && p in b
    ensures multiset(a + b)[p] >= 2
  {
    assert multiset(a)[p] >= 1 && multiset(b)[p] >= 1;
  }

  /** One page of the collection. */
  lemma CollectedFrom(listings: nat -> seq<Peer>, all: map<string, Peer>, keep: iset<Peer>, size: nat, offset: nat, f: seq<Peer>)
    requires UnderOwnIds(all) && Relists(listings, all) && size >= 1 && Filter(listings(offset), keep) == f && offset <= |f|
    ensures offset + size < |f| ==>
              Collected(listings, all, keep, size, offset) == f[offset..offset + size] + Collected(listings, all, keep, size, offset + size)
    ensures offset + size >= |f| ==> Collected(listings, all, keep, size, offset) == f[offset..]
  {
  }

  /** Paging is complete, whatever listings the requests see, if and only if one page holds all there is. */
  lemma PagesCompleteIff(all: map<string, Peer>, keep: iset<Peer>, size: nat)
    requires UnderOwnIds(all) && size >= 1
    ensures (forall listings: nat -> seq<Peer> :: Relists(listings, all) ==>
               EachOnce(Collected(listings, all, keep, size, 0), Chosen(all, keep)))
            <==> |Chosen(all, keep)| <= size
  {
    if |Chosen(all, keep)| <= size {
      forall listings: nat -> seq<Peer> | Relists(listings, all)
        ensures EachOnce(Collected(listings, all, keep, size, 0), Chosen(all, keep))
      {
        OnePageIsAll(listings, all, keep, size);
      }
    } else {
      var listings, p := SecondPageRepeats(all, keep, size);
      assert !EachOnce(Collected(listings, all, keep, size, 0), Chosen(all, keep));
    }
  }

  lemma AllKept(f: seq<Peer>, keep: iset<Peer>)
    requires forall p :: p in f ==> p in keep
    ensures Filter(f, keep) == f
  {
    FilterAll(f, |f|, [], keep);
    assert f + [] == f;
  }

  lemma TwoPeersListed(x: Peer, y: Peer)
    requires x.id != y.id
    ensures var all := map[x.id := x, y.id := y];
            UnderOwnIds(all) && all.Values == {x, y} && Lists([x, y], all) && Lists([y, x], all)
  {
    var all := map[x.id := x, y.id := y];
    assert all[x.id] == x && all[y.id] == y;
    assert ListedUnder([x.id, y.id], [x, y], all);
    assert ListedUnder([y.id, x.id], [y, x], all);
  }

  /** Two peers, one a page: listed as x, y and then as y, x, the client gets x twice and y never. */
  lemma PeerIsMissed(x: Peer, y: Peer, keep: iset<Peer>, listings: nat -> seq<Peer>)
    requires x.id != y.id && x in keep && y in keep
    requires forall offset: nat :: listings(offset) == if offset == 0 then [x, y] else [y, x]
    ensures var all := map[x.id := x, y.id := y];
            && UnderOwnIds(all) && Relists(listings, all) && Chosen(all, keep) == {x, y}
            && Collected(listings, all, keep, 1, 0) == [x, x]
  {
    var all := map[x.id := x, y.id := y];
    TwoPeersListed(x, y);
    AllKept([x, y], keep);
    AllKept([y, x], keep);
    var first, second := Collected(listings, all, keep, 1, 0), Collected(listings, all, keep, 1, 1);
    CollectedFrom(listings, all, keep, 1, 0, [x, y]);
    CollectedFrom(listings, all, keep, 1, 1, [y, x]);
    assert first == [x] + second && second == [x];
  }

  lemma Slices(f: seq<Peer>, a: nat, b: nat)
    requires a <= b <= |f|
    ensures f[a..b] + f[b..] == f[a..]
  {
  }

  /** The same for the stores that registry events make: a client that pages through a query while nothing
      else happens gets every selected peer once, whatever orders it meets, if and only if one page is enough. */
  lemma ReachablePagesCompleteIff(start: map<string, Peer>, es: seq<LeaseHistory.Timed>, from: int, to: int, leaseTtl: int,
                                  rules: Option<set<Rule>>, tenant: string, q: Query, maxPageSize: int)
    requires LeaseHistory.AllWellKept(start, from, leaseTtl) && LeaseHistory.ClockRuns(from, es, to)
    ensures var all := VisiblePeers(LeaseHistory.Run(start, es, leaseTtl), q.resourceFilter, to, leaseTtl);
            var keep, size := Selected(rules, tenant, q), PageSize(q.pageSize, maxPageSize);
            && UnderOwnIds(all)
            && ((forall listings: nat -> seq<Peer> :: Relists(listings, all) ==>
                   EachOnce(Collected(listings, all, keep, size, 0), Chosen(all, keep)))
                <==> |Chosen(all, keep)| <= size)
  {
    RunsKeepOwnIds(start, es, from, to, leaseTtl, q.resourceFilter);
    var all := VisiblePeers(LeaseHistory.Run(start, es, leaseTtl), q.resourceFilter, to, leaseTtl);
    PagesCompleteIff(all, Selected(rules, tenant, q), PageSize(q.pageSize, maxPageSize));
  }

  lemma {:induction false} SameListing(listings: nat -> seq<Peer>, all: map<string, Peer>, keep: iset<Peer>, size: nat, offset: nat, f: seq<Peer>)
    requires UnderOwnIds(all) && Relists(listings, all) && size >= 1 && offset <= |f|
    requires forall o: nat :: Filter(listings(o), keep) == f
    ensures Collected(listings, all, keep, size, offset) == f[offset..]
    decreases |f| - offset
  {
    CollectedFrom(listings, all, keep, size, offset, f);
    if offset + size < |f| {
      SameListing(listings, all, keep, size, offset + size, f);
      Slices(f, offset, offset + size);
    }
  }

  /** When every request sees the same order, as it would if the list were sorted, paging is complete for every page size. */
  lemma SortedPagesComplete(listings: nat -> seq<Peer>, all: map<string, Peer>, keep: iset<Peer>, size: nat)
    requires UnderOwnIds(all) && Relists(listings, all) && size >= 1 && forall o: nat :: listings(o) == listings(0)
    ensures Collected(listings, all, keep, size, 0) == Filter(listings(0), keep)
    ensures EachOnce(Collected(listings, all, keep, size, 0), Chosen(all, keep))
  {
    var f := Filter(listings(0), keep);
    SameListing(listings, all, keep, size, 0, f);
    FilteredListing(listings(0), all, keep);
    assert f[0..] == f;
    forall p | p in Chosen(all, keep) ensures multiset(f)[p] == 1 { DistinctIsOnce(f, p); }
  }

  /** Everything collected from an offset on was chosen. */
  ghost predicate AllChosen(listings: nat -> seq<Peer>, all: map<string, Peer>, keep: iset<Peer>, size: nat, offset: nat)
    requires UnderOwnIds(all) && Relists(listings, all) && size >= 1
  {
    forall p :: p in Collected(listings, all, keep, size, offset) ==> p in Chosen(all, keep)
  }

  lemma PageIsChosen(listings: nat -> seq<Peer>, all: map<string, Peer>, keep: iset<Peer>, size: nat, offset: nat)
    requires UnderOwnIds(all) && Relists(listings, all) && size >= 1
    requires offset + size < |Chosen(all, keep)| ==> AllChosen(listings, all, keep, size, offset + size)
    ensures AllChosen(listings, all, keep, size, offset)
  {
    var f := Filter(listings(offset), keep);
    FilteredListing(listings(offset), all, keep);
    var page := Page(f, size, offset);
    assert forall p :: p in page.peers ==> p in f;
  }

  /** Whatever listings the requests see, nothing is collected that was not chosen. */
  lemma {:induction false} OnlyChosen(listings: nat -> seq<Peer>, all: map<string, Peer>, keep: iset<Peer>, size: nat, offset: nat)
    requires UnderOwnIds(all) && Relists(listings, all) && size >= 1
    ensures AllChosen(listings, all, keep, size, offset)
    decreases |Chosen(all, keep)| - offset
  {
    if offset + size < |Chosen(all, keep)| { OnlyChosen(listings, all, keep, size, offset + size); }
    PageIsChosen(listings, all, keep, size, offset);
  }

  lemma CollectedIsChosen(listings: nat -> seq<Peer>, all: map<string, Peer>, keep: iset<Peer>, size: nat, p: Peer)
    requires UnderOwnIds(all) && Relists(listings, all) && size >= 1
    ensures p in Collected(listings, all, keep, size, 0) ==> p in Chosen(all, keep)
    ensures (|Chosen(all, keep)| <= size || (forall o: nat :: listings(o) == listings(0))) && p in Chosen(all, keep) ==>
              p in Collected(listings, all, keep, size, 0)
  {
    OnlyChosen(listings, all, keep, size, 0);
    if p in Chosen(all, keep) {
      if |Chosen(all, keep)| <= size {
        OnePageIsAll(listings, all, keep, size);
        OnceIsThere(Collected(listings, all, keep, size, 0), Chosen(all, keep), p);
      } else if forall o: nat :: listings(o) == listings(0) {
        SortedPagesComplete(listings, all, keep, size);
        OnceIsThere(Collected(listings, all, keep, size, 0), Chosen(all, keep), p);
      }
    }
  }

  lemma OnceIsThere(collected: seq<Peer>, chosen: set<Peer>, p: Peer)
    requires EachOnce(collected, chosen) && p in chosen
    ensures p in collected
  {
    assert multiset(collected)[p] == 1;
  }

  /** What a client finds on its pages: only peers that pass the role and status filters and, if it names
      itself, for which publishing or subscribing is allowed by a rule and denied by none; and all of these
      when they fit on one page or every request sees the same order. */
  lemma PagesAreTheAclView(listings: nat -> seq<Peer>, all: map<string, Peer>, rules: set<Rule>, tenant: string, q: Query,
                           maxPageSize: int, p: Peer)
    requires UnderOwnIds(all) && Relists(listings, all)
    ensures var size, keep := PageSize(q.pageSize, maxPageSize), Selected(Some(rules), tenant, q);
            var passes := && (q.roleFilter == "" || p.role == q.roleFilter)
                          && (q.statusFilter.None? || p.status == q.statusFilter.value)
                          && (q.sourcePeerId == ""
                              || Permitted(rules, q.sourcePeerId, Sub, TransferRequest(tenant, p.id))
                              || Permitted(rules, q.sourcePeerId, Pub, TransferRequest(tenant, p.id)));
            && (p in Collected(listings, all, keep, size, 0) ==> p in all.Values && passes)
            && (|Chosen(all, keep)| <= size || (forall o: nat :: listings(o) == listings(0)) ==>
                  (p in all.Values && passes ==> p in Collected(listings, all, keep, size, 0)))
  {
    var size, keep := PageSize(q.pageSize, maxPageSize), Selected(Some(rules), tenant, q);
    CollectedIsChosen(listings, all, keep, size, p);
    assert p in Chosen(all, keep) <==> p in all.Values && Selects(Some(rules), tenant, q, p);
  }
}
