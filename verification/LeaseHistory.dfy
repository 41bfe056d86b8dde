/** The stale sweep is invisible: over every run of the registry under a non-decreasing clock, what
    queries see does not depend on whether and when the sweep ran. */
module LeaseHistory {
  import opened PeerRegistry

  datatype Event =
    | Register(peer: Peer)
    | Heartbeat(peerId: string, timestamp: int)
    | ReportResources(report: Report)
    | Unregister(peerId: string)
    | Sweep

  datatype Timed = Timed(at: int, event: Event)

  /** The handlers of the registry service, as its methods specify them. */
  function Step(peers: map<string, Peer>, e: Timed, leaseTtl: int): map<string, Peer> {
    match e.event
    case Register(p) => peers[p.id := Registered(p, e.at)]
    case Heartbeat(id, ts) => if id in peers then peers[id := Beaten(peers[id], ts, e.at)] else peers
    case ReportResources(r) => if r.peerId in peers then peers[r.peerId := Reported(peers[r.peerId], r, e.at)] else peers
    case Unregister(id) => peers - {id}
    case Sweep => SweptAll(peers, e.at, leaseTtl)
  }

  /** Each event handled by the service itself makes exactly that step. */
  method Handle(service: PeerRegistryService, e: Timed)
    modifies service.store
    ensures service.store.peers == Step(old(service.store.peers), e, service.leaseTtl)
  {
    match e.event {
      case Register(p) => service.HandleRegister(p, e.at);
      case Heartbeat(id, ts) => service.HandleHeartbeat(id, ts, e.at);
      case ReportResources(r) => service.HandleResourceReport(r, e.at);
      case Unregister(id) => service.HandleUnregister(id);
      case Sweep => service.SweepStale(e.at);
    }
  }

  function Run(peers: map<string, Peer>, es: seq<Timed>, leaseTtl: int): map<string, Peer>
    decreases |es|
  {
    if es == [] then peers else Run(Step(peers, es[0], leaseTtl), es[1..], leaseTtl)
  }

  /** The same run without its sweeps. */
  function WithoutSweeps(es: seq<Timed>): seq<Timed> {
    if es == [] then [] else (if es[0].event.Sweep? then [] else [es[0]]) + WithoutSweeps(es[1..])
  }

  predicate ClockRuns(from: int, es: seq<Timed>, to: int)
    decreases |es|
  {
    if es == [] then from <= to else from <= es[0].at && ClockRuns(es[0].at, es[1..], to)
  }

  /** A swept record p against the record q of the run without sweeps: the same, or marked stale by a
      sweep after its lease had expired. */
  predicate Shadows(p: Peer, q: Peer, now: int, leaseTtl: int) {
    p == q || (p.status == Stale && LeaseExpired(p, now, leaseTtl) && p == q.(status := p.status, updatedAt := p.updatedAt))
  }

  predicate AllShadow(swept: map<string, Peer>, plain: map<string, Peer>, now: int, leaseTtl: int) {
    swept.Keys == plain.Keys && forall id :: id in swept ==> Shadows(swept[id], plain[id], now, leaseTtl)
  }

  lemma ShadowsKeepSteps(swept: map<string, Peer>, plain: map<string, Peer>, e: Timed, now: int, leaseTtl: int)
    requires AllShadow(swept, plain, now, leaseTtl) && now <= e.at
    ensures AllShadow(Step(swept, e, leaseTtl), if e.event.Sweep? then plain else Step(plain, e, leaseTtl), e.at, leaseTtl)
  {
  }

  lemma ShadowsLookAlike(swept: map<string, Peer>, plain: map<string, Peer>, now: int, leaseTtl: int, resource: string)
    requires AllShadow(swept, plain, now, leaseTtl)
    ensures VisiblePeers(swept, resource, now, leaseTtl) == VisiblePeers(plain, resource, now, leaseTtl)
  {
  }

  lemma {:induction false} RunsShadow(swept: map<string, Peer>, plain: map<string, Peer>, es: seq<Timed>, from: int, to: int, leaseTtl: int)
    requires AllShadow(swept, plain, from, leaseTtl) && ClockRuns(from, es, to)
    ensures AllShadow(Run(swept, es, leaseTtl), Run(plain, WithoutSweeps(es), leaseTtl), to, leaseTtl)
    decreases |es|
  {
    if es == [] {
      forall id | id in swept ensures Shadows(swept[id], plain[id], to, leaseTtl) {}
    } else {
      ShadowsKeepSteps(swept, plain, es[0], from, leaseTtl);
      var rest := WithoutSweeps(es[1..]);
      if es[0].event.Sweep? {
        assert WithoutSweeps(es) == rest;
        RunsShadow(Step(swept, es[0], leaseTtl), plain, es[1..], es[0].at, to, leaseTtl);
      } else {
        assert WithoutSweeps(es)[0] == es[0] && WithoutSweeps(es)[1..] == rest;
        RunsShadow(Step(swept, es[0], leaseTtl), Step(plain, es[0], leaseTtl), es[1..], es[0].at, to, leaseTtl);
      }
    }
  }

  /** Every query answer, as full records, is the same with the sweeps and without them. */
  lemma SweepsAreInvisible(es: seq<Timed>, from: int, to: int, leaseTtl: int, resource: string)
    requires ClockRuns(from, es, to)
    ensures VisiblePeers(Run(map[], es, leaseTtl), resource, to, leaseTtl)
         == VisiblePeers(Run(map[], WithoutSweeps(es), leaseTtl), resource, to, leaseTtl)
  {
    RunsShadow(map[], map[], es, from, to, leaseTtl);
    ShadowsLookAlike(Run(map[], es, leaseTtl), Run(map[], WithoutSweeps(es), leaseTtl), to, leaseTtl, resource);
  }

  predicate WellKept(p: Peer, id: string, now: int, leaseTtl: int) {
    p.id == id && p.status != Offline && (p.status == Stale ==> LeaseExpired(p, now, leaseTtl))
  }

  predicate AllWellKept(peers: map<string, Peer>, now: int, leaseTtl: int) {
    forall id :: id in peers ==> WellKept(peers[id], id, now, leaseTtl)
  }

  lemma StepKeepsWell(peers: map<string, Peer>, e: Timed, now: int, leaseTtl: int)
    requires now <= e.at && AllWellKept(peers, now, leaseTtl)
    ensures AllWellKept(Step(peers, e, leaseTtl), e.at, leaseTtl)
  {
    var s := Step(peers, e, leaseTtl);
    forall id | id in s ensures WellKept(s[id], id, e.at, leaseTtl) {
      if id in peers { assert WellKept(peers[id], id, now, leaseTtl); }
    }
  }

  /** In every reachable store a record sits under its own id, and a stale one has a non-zero heartbeat
      whose lease has expired; so a peer is visible exactly while its lease runs. */
  lemma {:induction false} StaleMeansExpired(peers: map<string, Peer>, es: seq<Timed>, from: int, to: int, leaseTtl: int)
    requires AllWellKept(peers, from, leaseTtl) && ClockRuns(from, es, to)
    ensures var s := Run(peers, es, leaseTtl);
            && AllWellKept(s, to, leaseTtl)
            && (forall id :: id in s ==> (Visible(s[id], "", to, leaseTtl) <==> !LeaseExpired(s[id], to, leaseTtl)))
    decreases |es|
  {
    if es == [] {
      forall id | id in peers ensures WellKept(peers[id], id, to, leaseTtl) { assert WellKept(peers[id], id, from, leaseTtl); }
    } else {
      StepKeepsWell(peers, es[0], from, leaseTtl);
      StaleMeansExpired(Step(peers, es[0], leaseTtl), es[1..], es[0].at, to, leaseTtl);
      assert Run(peers, es, leaseTtl) == Run(Step(peers, es[0], leaseTtl), es[1..], leaseTtl);
    }
  }

  /** When a sweep changes an answer: exactly when it is dated so late that the lease of a peer that the
      query sees has expired by then.  Under a non-decreasing clock that cannot be. */
  lemma SweepChangesNothingIff(peers: map<string, Peer>, at: int, to: int, leaseTtl: int, resource: string)
    ensures VisiblePeers(SweptAll(peers, at, leaseTtl), resource, to, leaseTtl) == VisiblePeers(peers, resource, to, leaseTtl)
            <==> forall id :: id in VisiblePeers(peers, resource, to, leaseTtl) ==> !LeaseExpired(peers[id], at, leaseTtl)
    ensures at <= to ==>
              VisiblePeers(SweptAll(peers, at, leaseTtl), resource, to, leaseTtl) == VisiblePeers(peers, resource, to, leaseTtl)
  {
    var swept := SweptAll(peers, at, leaseTtl);
    var before, after := VisiblePeers(peers, resource, to, leaseTtl), VisiblePeers(swept, resource, to, leaseTtl);
    forall id | id in peers
      ensures id in after <==> id in before && !LeaseExpired(peers[id], at, leaseTtl)
      ensures id in after ==> after[id] == peers[id]
    {
      assert swept[id] == Swept(peers[id], at, leaseTtl);
    }
    if forall id :: id in before ==> !LeaseExpired(peers[id], at, leaseTtl) { assert after == before; }
  }

  /** The clock must not run backwards: a sweep dated after the query hides a peer whose lease still runs. */
  lemma EarlySweepHides(p: Peer, at: int, leaseTtl: int)
    requires leaseTtl >= 0 && at != ZERO_TIME
    ensures var es := [Timed(at, Register(p)), Timed(at + leaseTtl + 1, Sweep)];
            && p.id in VisiblePeers(Run(map[], WithoutSweeps(es), leaseTtl), "", at, leaseTtl)
            && p.id !in VisiblePeers(Run(map[], es, leaseTtl), "", at, leaseTtl)
  {
    var reg, sweep := Timed(at, Register(p)), Timed(at + leaseTtl + 1, Sweep);
    var es := [reg, sweep];
    assert es[1..] == [sweep] && [sweep][1..] == [] && [reg][1..] == [];
    assert WithoutSweeps([sweep]) == [] + WithoutSweeps([]) == [];
    assert WithoutSweeps(es) == [reg] + WithoutSweeps([sweep]) == [reg];
    var one := map[p.id := Registered(p, at)];
    assert Step(map[], reg, leaseTtl) == one;
    assert Run(map[], [reg], leaseTtl) == Run(one, [], leaseTtl) == one;
    assert Run(map[], es, leaseTtl) == Run(one, [sweep], leaseTtl) == SweptAll(one, sweep.at, leaseTtl);
  }

  // ----- What a query sees, read off the events -----

  /** The last event of a kind, or -1. */
  function Last(es: seq<Timed>, kind: Timed -> bool): (i: int)
    ensures -1 <= i < |es| && (i >= 0 ==> kind(es[i])) && forall j :: i < j < |es| ==> !kind(es[j])
  {
    if es == [] then -1
    else if kind(es[|es|-1]) then |es| - 1
    else Last(es[..|es|-1], kind)
  }

  lemma LastSnoc(es: seq<Timed>, e: Timed, kind: Timed -> bool)
    ensures Last(es + [e], kind) == if kind(e) then |es| else Last(es, kind)
  {
    assert (es + [e])[..|es|] == es;
  }

  function Registers(id: string): Timed -> bool { (e: Timed) => e.event.Register? && e.event.peer.id == id }

  function Unregisters(id: string): Timed -> bool { (e: Timed) => e.event.Unregister? && e.event.peerId == id }

  /** A registration or a heartbeat. */
  function Beats(id: string): Timed -> bool {
    (e: Timed) => (e.event.Register? && e.event.peer.id == id) || (e.event.Heartbeat? && e.event.peerId == id)
  }

  /** A registration or a resource report. */
  function Declares(id: string): Timed -> bool {
    (e: Timed) => (e.event.Register? && e.event.peer.id == id) || (e.event.ReportResources? && e.event.report.peerId == id)
  }

  /** The time that a registration or a heartbeat gives: a heartbeat's own, if it has one. */
  function BeatTime(e: Timed): int { if e.event.Heartbeat? && e.event.timestamp != 0 then e.event.timestamp else e.at }

  /** A registration lists the resource, or a report has an item of that name. */
  predicate Names(e: Timed, resource: string) {
    match e.event
    case Register(p) => resource in p.resources
    case ReportResources(r) => Named(r.apis, resource) || Named(r.topics, resource) || Named(r.streams, resource)
    case _ => false
  }

  predicate Named(items: seq<map<string, string>>, name: string) {
    exists i :: 0 <= i < |items| && "name" in items[i] && items[i]["name"] == name
  }

  lemma {:induction false} CollectedNames(items: seq<map<string, string>>, name: string)
    requires name != ""
    ensures name in PeerRegistry.Names(items) <==> Named(items, name)
  {
    if items != [] {
      var init, last := items[..|items|-1], items[|items|-1];
      CollectedNames(init, name);
      assert Named(items, name) <==> Named(init, name) || ("name" in last && last["name"] == name) by {
        assert forall i :: 0 <= i < |init| ==> init[i] == items[i];
      }
    }
  }

  lemma {:induction false} RunSnoc(peers: map<string, Peer>, es: seq<Timed>, e: Timed, leaseTtl: int)
    ensures Run(peers, es + [e], leaseTtl) == Step(Run(peers, es, leaseTtl), e, leaseTtl)
    decreases |es|
  {
    if es == [] {
      assert es + [e] == [e] && [e][1..] == [];
      assert Run(Step(peers, e, leaseTtl), [], leaseTtl) == Step(peers, e, leaseTtl);
    } else {
      assert (es + [e])[0] == es[0] && (es + [e])[1..] == es[1..] + [e];
      RunSnoc(Step(peers, es[0], leaseTtl), es[1..], e, leaseTtl);
    }
  }

  /** The record has the time of the peer's last beat and the names of its last declaration. */
  ghost predicate FitsHistory(p: Peer, es: seq<Timed>, id: string) {
    var beat, declared := Last(es, Beats(id)), Last(es, Declares(id));
    && beat >= 0 && declared >= 0
    && p.lastHeartbeatAt == BeatTime(es[beat])
    && forall resource :: resource != "" ==> (resource in p.resources <==> Names(es[declared], resource))
  }

  /** The store holds the peers whose last registration came after their last unregistration, as their history has them. */
  ghost predicate HoldsHistory(peers: map<string, Peer>, es: seq<Timed>, id: string) {
    && (id in peers <==> Last(es, Registers(id)) > Last(es, Unregisters(id)))
    && (id in peers ==> FitsHistory(peers[id], es, id))
  }

  lemma ReportedNames(r: PeerRegistry.Report, e: Timed, resource: string)
    requires e.event == ReportResources(r) && resource != ""
    ensures resource in PeerRegistry.Names(r.apis) + PeerRegistry.Names(r.topics) + PeerRegistry.Names(r.streams) <==> Names(e, resource)
  {
    CollectedNames(r.apis, resource);
    CollectedNames(r.topics, resource);
    CollectedNames(r.streams, resource);
  }

  lemma FitsStep(peers: map<string, Peer>, es: seq<Timed>, e: Timed, leaseTtl: int, id: string)
    requires id in peers && FitsHistory(peers[id], es, id) && !e.event.Register? && id in Step(peers, e, leaseTtl)
    ensures FitsHistory(Step(peers, e, leaseTtl)[id], es + [e], id)
  {
    LastSnoc(es, e, Beats(id));
    LastSnoc(es, e, Declares(id));
    if e.event.ReportResources? {
      forall resource | resource != ""
        ensures var r := e.event.report;
                resource in PeerRegistry.Names(r.apis) + PeerRegistry.Names(r.topics) + PeerRegistry.Names(r.streams) <==> Names(e, resource)
      {
        ReportedNames(e.event.report, e, resource);
      }
    }
  }

  lemma FitsRegister(peers: map<string, Peer>, es: seq<Timed>, e: Timed, leaseTtl: int, id: string)
    requires e.event.Register? && (id in peers ==> FitsHistory(peers[id], es, id)) && id in Step(peers, e, leaseTtl)
    ensures FitsHistory(Step(peers, e, leaseTtl)[id], es + [e], id)
  {
    LastSnoc(es, e, Beats(id));
    LastSnoc(es, e, Declares(id));
  }

  lemma HistoryStep(peers: map<string, Peer>, es: seq<Timed>, e: Timed, leaseTtl: int, id: string)
    requires HoldsHistory(peers, es, id)
    ensures HoldsHistory(Step(peers, e, leaseTtl), es + [e], id)
  {
    LastSnoc(es, e, Registers(id));
    LastSnoc(es, e, Unregisters(id));
    if id in Step(peers, e, leaseTtl) {
      if e.event.Register? { FitsRegister(peers, es, e, leaseTtl, id); } else { FitsStep(peers, es, e, leaseTtl, id); }
    }
  }

  lemma {:induction false} StoreIsHistory(start: map<string, Peer>, es: seq<Timed>, leaseTtl: int, id: string)
    requires start == map[]
    ensures HoldsHistory(Run(start, es, leaseTtl), es, id)
    decreases |es|
  {
    if es != [] {
      var init, e := es[..|es|-1], es[|es|-1];
      StoreIsHistory(start, init, leaseTtl, id);
      assert es == init + [e];
      RunSnoc(start, init, e, leaseTtl);
      HistoryStep(Run(start, init, leaseTtl), init, e, leaseTtl, id);
    }
  }

  /** A query by id, decided by the events alone: the peer registered after it last unregistered, its last beat is
      at most a lease ago or carries the zero time, and the resource is not asked for or is among the names that
      its last registration or report declared. */
  predicate ListedByEvents(es: seq<Timed>, to: int, leaseTtl: int, resource: string, id: string) {
    && Last(es, Registers(id)) > Last(es, Unregisters(id))
    && Last(es, Beats(id)) >= 0 && Last(es, Declares(id)) >= 0
    && (var t := BeatTime(es[Last(es, Beats(id))]); t == 0 || to - t <= leaseTtl)
    && (resource == "" || Names(es[Last(es, Declares(id))], resource))
  }

  lemma VisibleIsHistory(start: map<string, Peer>, es: seq<Timed>, from: int, to: int, leaseTtl: int, resource: string, id: string)
    requires start == map[] && ClockRuns(from, es, to)
    ensures id in VisiblePeers(Run(start, es, leaseTtl), resource, to, leaseTtl) <==> ListedByEvents(es, to, leaseTtl, resource, id)
  {
    StoreIsHistory(start, es, leaseTtl, id);
    StaleMeansExpired(start, es, from, to, leaseTtl);
    SeenWhileLeased(Run(start, es, leaseTtl), to, leaseTtl, resource, id);
  }

  lemma SeenWhileLeased(peers: map<string, Peer>, to: int, leaseTtl: int, resource: string, id: string)
    requires AllWellKept(peers, to, leaseTtl)
    ensures id in VisiblePeers(peers, resource, to, leaseTtl)
            <==> && id in peers && (peers[id].lastHeartbeatAt == 0 || to - peers[id].lastHeartbeatAt <= leaseTtl)
                 && (resource == "" || resource in peers[id].resources)
  {
    if id in peers { assert WellKept(peers[id], id, to, leaseTtl); }
  }

  /** A query of the service, after any events since it started. */
  method Query(service: PeerRegistryService, resource: string, now: int, ghost es: seq<Timed>, ghost from: int)
    returns (ids: seq<string>, out: seq<Peer>)
    requires service.store.peers == Run(map[], es, service.leaseTtl) && ClockRuns(from, es, now)
    ensures |ids| == |out| && forall i :: 0 <= i < |ids| ==> ids[i] in service.store.peers && out[i] == service.store.peers[ids[i]]
    ensures forall id :: id in ids <==> ListedByEvents(es, now, service.leaseTtl, resource, id)
  {
    ids, out := service.GetPeers(resource, now);
    ghost var visible := VisiblePeers(service.store.peers, resource, now, service.leaseTtl);
    forall id ensures id in ids <==> ListedByEvents(es, now, service.leaseTtl, resource, id) {
      VisibleIsHistory(map[], es, from, now, service.leaseTtl, resource, id);
      assert id in ids <==> id in visible;
    }
  }
}
