/** The peer registry: peer records under leases, kept in an in-memory store and changed by
    registration, heartbeat, resource report, unregistration and the stale sweep.

    Time is an integer; 0 stands for the zero time of a record that never had a heartbeat. */
module PeerRegistry {
  import opened Common
  import opened ResourceSchema

  datatype Status = Registering | Active | Stale | Offline | Other(name: string)

  const ZERO_TIME := 0

  datatype Peer = Peer(
    id: string, name: string, role: string, key: string, secret: string, status: Status,
    resources: seq<string>, capabilities: seq<string>, resourceSchemas: map<string, Schema>, tags: map<string, string>,
    lastHeartbeatAt: int, createdAt: int, updatedAt: int)

  datatype Report = Report(peerId: string, apis: seq<map<string, string>>, topics: seq<map<string, string>>,
                           streams: seq<map<string, string>>, schemas: map<string, Schema>)

  predicate LeaseExpired(p: Peer, now: int, leaseTtl: int) {
    p.lastHeartbeatAt != ZERO_TIME && now - p.lastHeartbeatAt > leaseTtl
  }

  // ----- The records, as the handlers change them -----

  function Registered(p: Peer, now: int): Peer {
    p.(status := Registering, lastHeartbeatAt := now, updatedAt := now,
       createdAt := if p.createdAt == ZERO_TIME then now else p.createdAt)
  }

  function Beaten(p: Peer, timestamp: int, now: int): Peer {
    p.(lastHeartbeatAt := if timestamp == ZERO_TIME then now else timestamp, status := Active, updatedAt := now)
  }

  /** The non-empty names, in order. */
  function Names(items: seq<map<string, string>>): seq<string> {
    if items == [] then []
    else
      var last := items[|items|-1];
      Names(items[..|items|-1]) + if "name" in last && last["name"] != "" then [last["name"]] else []
  }

  lemma NamesInOrder(items: seq<map<string, string>>, item: map<string, string>)
    ensures Names([]) == []
    ensures "name" in item && item["name"] != "" ==> Names(items + [item]) == Names(items) + [item["name"]]
    ensures "name" !in item || item["name"] == "" ==> Names(items + [item]) == Names(items)
  {
    assert (items + [item])[..|items|] == items;
  }

  function Reported(p: Peer, r: Report, now: int): Peer {
    p.(resources := Names(r.apis) + Names(r.topics) + Names(r.streams),
       resourceSchemas := if |r.schemas| > 0 then r.schemas else p.resourceSchemas,
       updatedAt := now)
  }

  function Swept(p: Peer, now: int, leaseTtl: int): Peer {
    if LeaseExpired(p, now, leaseTtl) then p.(status := Stale, updatedAt := now) else p
  }

  function SweptAll(peers: map<string, Peer>, now: int, leaseTtl: int): map<string, Peer> {
    map id | id in peers :: Swept(peers[id], now, leaseTtl)
  }

  predicate Visible(p: Peer, resource: string, now: int, leaseTtl: int) {
    && p.status != Offline && p.status != Stale
    && !LeaseExpired(p, now, leaseTtl)
    && (resource == "" || resource in p.resources)
  }

  /** The full records that a query may see. */
  function VisiblePeers(peers: map<string, Peer>, resource: string, now: int, leaseTtl: int): map<string, Peer> {
    map id | id in peers && Visible(peers[id], resource, now, leaseTtl) :: peers[id]
  }

  class MemoryStore {
    var peers: map<string, Peer>

    constructor ()
      ensures peers == map[]
    {
      peers := map[];
    }

    method Get(id: string) returns (p: Option<Peer>)
      ensures p == if id in peers then Some(peers[id]) else None
    {
      p := if id in peers then Some(peers[id]) else None;
    }

    method Set(id: string, p: Peer)
      modifies this
      ensures peers == old(peers)[id := p]
    {
      peers := peers[id := p];
    }

    method Delete(id: string)
      modifies this
      ensures peers == old(peers) - {id}
    {
      peers := peers - {id};
    }

    /** All records, each once, in an order that is not the caller's to choose. */
    method List() returns (ids: seq<string>, out: seq<Peer>)
      ensures ListedUnder(ids, out, peers)
    {
      ids, out := [], [];
      var rest := peers.Keys;
      while rest != {}
        invariant rest <= peers.Keys
        invariant |ids| == |out| && (forall i :: 0 <= i < |ids| ==> ids[i] in peers && out[i] == peers[ids[i]])
        invariant forall id :: id in peers ==> (id in ids <==> id !in rest)
        invariant forall i, j :: 0 <= i < j < |ids| ==> ids[i] != ids[j]
        decreases rest
      {
        var id :| id in rest;
        ids, out := ids + [id], out + [peers[id]];
        rest := rest - {id};
      }
    }

    method SweepStale(now: int, leaseTtl: int)
      modifies this
      ensures peers == SweptAll(old(peers), now, leaseTtl)
      ensures peers.Keys == old(peers).Keys
      ensures forall id :: id in peers ==>
                var p := old(peers)[id];
                peers[id] == if p.lastHeartbeatAt != 0 && now - p.lastHeartbeatAt > leaseTtl
                             then p.(status := Stale, updatedAt := now) else p
    {
      var rest := peers.Keys;
      while rest != {}
        invariant rest <= peers.Keys == old(peers).Keys
        invariant forall id :: id in peers ==>
                    peers[id] == if id in rest then old(peers)[id] else Swept(old(peers)[id], now, leaseTtl)
        decreases rest
      {
        var id :| id in rest;
        rest := rest - {id};
        var peer := peers[id];
        if peer.lastHeartbeatAt == ZERO_TIME { continue; }
        if now - peer.lastHeartbeatAt > leaseTtl {
          peer := peer.(status := Stale);
          peer := peer.(updatedAt := now);
          peers := peers[id := peer];
        }
      }
    }
  }

  method CollectNames(resources: seq<string>, items: seq<map<string, string>>) returns (out: seq<string>)
    ensures out == resources + Names(items)
  {
    out := resources;
    for i := 0 to |items|
      invariant out == resources + Names(items[..i])
    {
      assert items[..i + 1][..i] == items[..i];
      if "name" in items[i] && items[i]["name"] != "" { out := out + [items[i]["name"]]; }
    }
    assert items[..|items|] == items;
  }

  class PeerRegistryService {
    const store: MemoryStore
    const leaseTtl: int

    constructor (leaseTtl: int)
      ensures this.leaseTtl == leaseTtl && fresh(store) && store.peers == map[]
    {
      this.leaseTtl := leaseTtl;
      store := new MemoryStore();
    }

    method HandleRegister(peer: Peer, now: int)
      modifies store
      ensures store.peers == old(store.peers)[peer.id := Registered(peer, now)]
      ensures store.peers[peer.id] == peer.(status := Registering, lastHeartbeatAt := now, updatedAt := now,
                                            createdAt := if peer.createdAt == 0 then now else peer.createdAt)
    {
      var p := peer.(status := Registering, lastHeartbeatAt := now);
      if p.createdAt == ZERO_TIME { p := p.(createdAt := now); }
      p := p.(updatedAt := now);
      store.Set(p.id, p);
    }

    method HandleHeartbeat(peerId: string, timestamp: int, now: int)
      modifies store
      ensures store.peers == if peerId in old(store.peers)
                             then old(store.peers)[peerId := Beaten(old(store.peers)[peerId], timestamp, now)]
                             else old(store.peers)
      ensures peerId in old(store.peers) ==>
                store.peers[peerId] == old(store.peers)[peerId].(status := Active, updatedAt := now,
                                                                 lastHeartbeatAt := if timestamp == 0 then now else timestamp)
    {
      var found := store.Get(peerId);
      if found.None? { return; }
      var peer := found.value.(lastHeartbeatAt := timestamp);
      if peer.lastHeartbeatAt == ZERO_TIME { peer := peer.(lastHeartbeatAt := now); }
      peer := peer.(status := Active);
      peer := peer.(updatedAt := now);
      store.Set(peerId, peer);
    }

    method HandleResourceReport(r: Report, now: int)
      modifies store
      ensures store.peers == if r.peerId in old(store.peers)
                             then old(store.peers)[r.peerId := Reported(old(store.peers)[r.peerId], r, now)]
                             else old(store.peers)
      ensures r.peerId in old(store.peers) ==>
                store.peers[r.peerId] ==
                old(store.peers)[r.peerId].(resources := store.peers[r.peerId].resources, updatedAt := now,
                                            resourceSchemas := if r.schemas == map[] then old(store.peers)[r.peerId].resourceSchemas
                                                               else r.schemas)
    {
      var found := store.Get(r.peerId);
      if found.None? { return; }
      var peer := found.value;
      var resources := CollectNames([], r.apis);
      assert resources == Names(r.apis);
      resources := CollectNames(resources, r.topics);
      resources := CollectNames(resources, r.streams);
      peer := peer.(resources := resources);
      if |r.schemas| > 0 { peer := peer.(resourceSchemas := r.schemas); }
      peer := peer.(updatedAt := now);
      store.Set(r.peerId, peer);
    }

    method HandleUnregister(peerId: string)
      modifies store
      ensures store.peers == old(store.peers) - {peerId}
    {
      store.Delete(peerId);
    }

    method SweepStale(now: int)
      modifies store
      ensures store.peers == SweptAll(old(store.peers), now, leaseTtl)
    {
      store.SweepStale(now, leaseTtl);
    }

    /** The visible records, each once. */
    method GetPeers(resource: string, now: int) returns (ids: seq<string>, out: seq<Peer>)
      ensures ListedUnder(ids, out, VisiblePeers(store.peers, resource, now, leaseTtl))
      ensures forall id :: id in ids <==>
                && id in store.peers && store.peers[id].status != Offline && store.peers[id].status != Stale
                && (store.peers[id].lastHeartbeatAt == 0 || now - store.peers[id].lastHeartbeatAt <= leaseTtl)
                && (resource == "" || resource in store.peers[id].resources)
    {
      var allIds, allPeers := store.List();
      ids, out := [], [];
      ghost var visible := VisiblePeers(store.peers, resource, now, leaseTtl);
      for k := 0 to |allIds|
        invariant |ids| == |out| && (forall i :: 0 <= i < |ids| ==> ids[i] in visible && out[i] == visible[ids[i]])
        invariant forall j :: k <= j < |allIds| ==> allIds[j] !in ids
        invariant forall i :: 0 <= i < k && allIds[i] in visible ==> allIds[i] in ids
        invariant forall i, j :: 0 <= i < j < |ids| ==> ids[i] != ids[j]
      {
        var peer := allPeers[k];
        if peer.status == Offline || peer.status == Stale { continue; }
        if peer.lastHeartbeatAt != ZERO_TIME && now - peer.lastHeartbeatAt > leaseTtl { continue; }
        if resource != "" && resource !in peer.resources { continue; }
        ids, out := ids + [allIds[k]], out + [peer];
      }
    }

    /** The merged schema of the visible providers that declare one, visited in some order. */
    method GetResourceMetaSchema(resource: string, now: int) returns (schema: Option<Schema>)
      ensures exists providers :: && Lists(providers, VisiblePeers(store.peers, resource, now, leaseTtl))
                                  && schema == Merged(Declared(providers, resource))
    {
      var ids, peers := GetPeers(resource, now);
      assert Lists(peers, VisiblePeers(store.peers, resource, now, leaseTtl)) by {
        assert ListedUnder(ids, peers, VisiblePeers(store.peers, resource, now, leaseTtl));
      }
      schema := Aggregate(peers, resource);
    }
  }

  /** The records, in the order of their ids in `ids`, each once. */
  ghost predicate ListedUnder(ids: seq<string>, peers: seq<Peer>, all: map<string, Peer>) {
    && |ids| == |peers| && (forall i :: 0 <= i < |ids| ==> ids[i] in all && peers[i] == all[ids[i]])
    && (forall id :: id in all ==> id in ids) && (forall i, j :: 0 <= i < j < |ids| ==> ids[i] != ids[j])
  }

  ghost predicate Lists(peers: seq<Peer>, all: map<string, Peer>) { exists ids :: ListedUnder(ids, peers, all) }

  function Merged(schemas: seq<Schema>): Option<Schema> { if schemas == [] then None else Some(MergeAll(schemas)) }

  /** Merges the schemas that the peers declare, one peer after the other. */
  method Aggregate(peers: seq<Peer>, resource: string) returns (schema: Option<Schema>)
    ensures schema == Merged(Declared(peers, resource))
    ensures schema.None? <==>
              forall p :: p in peers && "resource_meta_schema_v1" in p.capabilities ==> resource !in p.resourceSchemas
  {
    NoneDeclared(peers, resource);
    var merged := EMPTY_SCHEMA;
    var seenRequired: set<string>, seenOptional: set<string>, seenProto: set<string> := {}, {}, {};
    var found := false;
    for i := 0 to |peers|
      invariant merged == MergeAll(Declared(peers[..i], resource))
      invariant found <==> Declared(peers[..i], resource) != []
      invariant seenRequired == set v | v in merged.required
      invariant seenOptional == set v | v in merged.optional
      invariant seenProto == set v | v in merged.protocolMetaRequired
    {
      var p := peers[i];
      assert peers[..i + 1] == peers[..i] + [p];
      DeclaredSnoc(peers[..i], p, resource);
      if "resource_meta_schema_v1" !in p.capabilities { continue; }
      if resource !in p.resourceSchemas { continue; }
      found := true;
      var s := p.resourceSchemas[resource];
      MergeAllSnoc(Declared(peers[..i], resource), s);
      var required, optional, proto;
      required, seenRequired := AppendNew(merged.required, seenRequired, s.required);
      optional, seenOptional := AppendNew(merged.optional, seenOptional, s.optional);
      proto, seenProto := AppendNew(merged.protocolMetaRequired, seenProto, s.protocolMetaRequired);
      var constraints := MergeConstraintMaps(merged.constraints, s.constraints);
      merged := Schema(required, optional, constraints, proto);
    }
    assert peers[..|peers|] == peers;
    schema := if found then Some(merged) else None;
  }

  /** The schemas for a resource that the providers with the capability declare, in order. */
  function Declared(peers: seq<Peer>, resource: string): seq<Schema> {
    if peers == [] then []
    else
      var p := peers[|peers|-1];
      Declared(peers[..|peers|-1], resource) +
      if "resource_meta_schema_v1" in p.capabilities && resource in p.resourceSchemas then [p.resourceSchemas[resource]] else []
  }

  /** Which schemas take part in the merge: those that a peer declares for the resource, if it has the capability. */
  lemma {:induction false} DeclaredByPeers(peers: seq<Peer>, resource: string, s: Schema)
    ensures s in Declared(peers, resource)
            <==> exists p :: && p in peers && "resource_meta_schema_v1" in p.capabilities
                             && resource in p.resourceSchemas && p.resourceSchemas[resource] == s
  {
    if peers != [] {
      var init, last := peers[..|peers|-1], peers[|peers|-1];
      assert peers == init + [last];
      DeclaredByPeers(init, resource, s);
      DeclaredSnoc(init, last, resource);
    }
  }

  lemma NoneDeclared(peers: seq<Peer>, resource: string)
    ensures Declared(peers, resource) == [] <==>
              forall p :: p in peers && "resource_meta_schema_v1" in p.capabilities ==> resource !in p.resourceSchemas
  {
    if Declared(peers, resource) != [] {
      DeclaredByPeers(peers, resource, Declared(peers, resource)[0]);
    }
    if p :| p in peers && "resource_meta_schema_v1" in p.capabilities && resource in p.resourceSchemas {
      DeclaredByPeers(peers, resource, p.resourceSchemas[resource]);
    }
  }

  lemma DeclaredSnoc(peers: seq<Peer>, p: Peer, resource: string)
    ensures Declared(peers + [p], resource) ==
            if "resource_meta_schema_v1" in p.capabilities && resource in p.resourceSchemas
            then Declared(peers, resource) + [p.resourceSchemas[resource]] else Declared(peers, resource)
  {
    assert (peers + [p])[..|peers|] == peers;
  }
}
