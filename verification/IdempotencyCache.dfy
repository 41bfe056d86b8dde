/** The idempotency cache of the sync service: a map from idempotency key to the
    reply of a completed call, with an expiry sweep and a capacity eviction.

    Time is an integer number of milliseconds.  The specification relates the map
    to the log of completed calls, which the program itself never keeps. */
module IdempotencyCache {
  import opened Common

  const MINUTE := 60000

  datatype Entry<+R> = Entry(response: R, expireAt: int)

  /** One completed call, in the order in which the calls stored their replies. */
  datatype Completion<+R> = Completion(key: string, response: R, timeoutMs: int, at: int) {
    function ExpireAt(): int { at + Ttl(timeoutMs) }
  }

  function Ttl(timeoutMs: int): int {
    if timeoutMs * 5 < MINUTE then MINUTE else timeoutMs * 5
  }

  function Lookup<R>(entries: map<string, Entry<R>>, key: string, now: int): Option<R> {
    if key != "" && key in entries && now < entries[key].expireAt then Some(entries[key].response) else None
  }

  function Stored<R>(entries: map<string, Entry<R>>, c: Completion<R>): map<string, Entry<R>> {
    if c.key == "" then entries else entries[c.key := Entry(c.response, c.ExpireAt())]
  }

  function Unexpired<R>(entries: map<string, Entry<R>>, now: int): map<string, Entry<R>> {
    map k | k in entries && now <= entries[k].expireAt :: entries[k]
  }

  ghost predicate SubMap<R>(a: map<string, Entry<R>>, b: map<string, Entry<R>>) {
    forall k :: k in a ==> k in b && a[k] == b[k]
  }

  /** No entry dropped from `live` expires later than an entry kept in `kept`. */
  ghost predicate EvictsOldest<R>(live: map<string, Entry<R>>, kept: map<string, Entry<R>>) {
    forall gone, k :: gone in live && gone !in kept && k in kept ==> live[gone].expireAt <= kept[k].expireAt
  }

  /** What one tick of the sweeper may do; the victims among equally old entries are a free choice. */
  ghost predicate SweptTo<R>(before: map<string, Entry<R>>, after: map<string, Entry<R>>, now: int, max: nat) {
    var live := Unexpired(before, now);
    && SubMap(after, live)
    && EvictsOldest(live, after)
    && |after| == (if |live| <= max then |live| else max)
  }

  /** The service's cache, updated in place. */
  class IdempotentStore<R> {
    var idempotentKeys: map<string, Entry<R>>

    constructor ()
      ensures idempotentKeys == map[]
    {
      idempotentKeys := map[];
    }

    method LookupIdempotent(key: string, now: int) returns (cached: Option<R>)
      ensures cached == Lookup(idempotentKeys, key, now)
      ensures cached == if key != "" && key in idempotentKeys && now < idempotentKeys[key].expireAt
                        then Some(idempotentKeys[key].response) else None
    {
      if key == "" { return None; }
      if key in idempotentKeys && now < idempotentKeys[key].expireAt {
        return Some(idempotentKeys[key].response);
      }
      return None;
    }

    method StoreIdempotent(key: string, timeoutMs: int, response: R, now: int)
      modifies this
      ensures idempotentKeys == Stored(old(idempotentKeys), Completion(key, response, timeoutMs, now))
      ensures key == "" ==> idempotentKeys == old(idempotentKeys)
      ensures key != "" ==>
                && key in idempotentKeys && idempotentKeys == old(idempotentKeys)[key := idempotentKeys[key]]
                && idempotentKeys[key].response == response
                && var until := idempotentKeys[key].expireAt;
                   && until >= now + 60000 && until >= now + 5 * timeoutMs
                   && (until == now + 60000 || until == now + 5 * timeoutMs)
    {
      if key == "" { return; }
      var ttl := timeoutMs * 5;
      if ttl < MINUTE { ttl := MINUTE; }
      idempotentKeys := idempotentKeys[key := Entry(response, now + ttl)];
    }

    /** Scans the whole map, in any order, for a key with the least expiry. */
    method OldestKey() returns (oldestKey: string)
      requires idempotentKeys != map[]
      ensures oldestKey in idempotentKeys
      ensures forall k :: k in idempotentKeys ==> idempotentKeys[oldestKey].expireAt <= idempotentKeys[k].expireAt
    {
      var rest := idempotentKeys.Keys;
      oldestKey :| oldestKey in rest;
      rest := rest - {oldestKey};
      while rest != {}
        invariant rest <= idempotentKeys.Keys
        invariant oldestKey in idempotentKeys
        invariant forall k :: k in idempotentKeys && k !in rest ==> idempotentKeys[oldestKey].expireAt <= idempotentKeys[k].expireAt
        decreases rest
      {
        var key :| key in rest;
        if idempotentKeys[key].expireAt < idempotentKeys[oldestKey].expireAt { oldestKey := key; }
        rest := rest - {key};
      }
    }

    method DropExpired(now: int)
      modifies this
      ensures idempotentKeys == Unexpired(old(idempotentKeys), now)
      ensures forall k :: k in idempotentKeys <==> k in old(idempotentKeys) && now <= old(idempotentKeys)[k].expireAt
      ensures forall k :: k in idempotentKeys ==> idempotentKeys[k] == old(idempotentKeys)[k]
    {
      var rest := idempotentKeys.Keys;
      while rest != {}
        invariant rest <= old(idempotentKeys).Keys
        invariant idempotentKeys.Keys <= old(idempotentKeys).Keys
        invariant forall k :: k in rest ==> k in idempotentKeys
        invariant forall k :: k in idempotentKeys ==> idempotentKeys[k] == old(idempotentKeys)[k]
        invariant forall k :: k in old(idempotentKeys) && k !in rest ==>
                    (k in idempotentKeys <==> now <= old(idempotentKeys)[k].expireAt)
        decreases rest
      {
        var key :| key in rest;
        if now > idempotentKeys[key].expireAt { idempotentKeys := idempotentKeys - {key}; }
        rest := rest - {key};
      }
    }

    /** One tick: expire, then evict the oldest while over capacity.  The inner loop gives up
        on an empty oldest key, so the bound needs the invariant that "" is never stored;
        CacheHistory.RunAgrees proves that invariant for every run. */
    method SweepIdempotent(now: int, maxIdempotentKeys: nat)
      modifies this
      ensures "" !in old(idempotentKeys) ==> SweptTo(old(idempotentKeys), idempotentKeys, now, maxIdempotentKeys)
      ensures |idempotentKeys| > maxIdempotentKeys ==> "" in idempotentKeys
      ensures SubMap(idempotentKeys, Unexpired(old(idempotentKeys), now))
      ensures EvictsOldest(Unexpired(old(idempotentKeys), now), idempotentKeys)
      ensures forall k :: k in idempotentKeys ==>
                k in old(idempotentKeys) && idempotentKeys[k] == old(idempotentKeys)[k] && now <= idempotentKeys[k].expireAt
      ensures forall gone, k :: gone in old(idempotentKeys) && now <= old(idempotentKeys)[gone].expireAt
                                && gone !in idempotentKeys && k in idempotentKeys ==>
                old(idempotentKeys)[gone].expireAt <= idempotentKeys[k].expireAt
      ensures |idempotentKeys| < maxIdempotentKeys ==>
                forall k :: k in old(idempotentKeys) && now <= old(idempotentKeys)[k].expireAt ==> k in idempotentKeys
    {
      DropExpired(now);
      ghost var live := idempotentKeys;
      while |idempotentKeys| > maxIdempotentKeys
        invariant SubMap(idempotentKeys, live)
        invariant EvictsOldest(live, idempotentKeys)
        invariant |idempotentKeys| >= (if |live| <= maxIdempotentKeys then |live| else maxIdempotentKeys)
        decreases |idempotentKeys|
      {
        var oldestKey := OldestKey();
        if oldestKey == "" { break; }
        ghost var was := idempotentKeys;
        idempotentKeys := idempotentKeys - {oldestKey};
        assert idempotentKeys.Keys == was.Keys - {oldestKey};
      }
      SubMapSize(idempotentKeys, live);
      if |idempotentKeys| < maxIdempotentKeys { SameSizeIsAll(idempotentKeys, live); }
    }
  }

  lemma SameSizeIsAll<R>(a: map<string, Entry<R>>, b: map<string, Entry<R>>)
    requires SubMap(a, b) && |a| == |b|
    ensures a == b
  {
    assert a.Keys <= b.Keys;
    assert |a| == |a.Keys| && |b| == |b.Keys|;
    SubsetSize(b.Keys - a.Keys, b.Keys);
    assert |b.Keys - a.Keys| == |b.Keys| - |a.Keys|;
    assert a.Keys == b.Keys;
  }

  lemma SubMapSize<R>(a: map<string, Entry<R>>, b: map<string, Entry<R>>)
    requires SubMap(a, b)
    ensures |a| <= |b|
  {
    assert a.Keys <= b.Keys;
    SubsetSize(a.Keys, b.Keys);
    assert |a| == |a.Keys| && |b| == |b.Keys|;
  }

  lemma SubsetSize<T>(a: set<T>, b: set<T>)
    requires a <= b
    ensures |a| <= |b|
  {
    if a != {} {
      var x :| x in a;
      SubsetSize(a - {x}, b - {x});
    }
  }
}
