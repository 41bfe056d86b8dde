/** The idempotency cache against the log of completed calls, over every run of
    stores and sweeps under a non-decreasing clock. */
module CacheHistory {
  import opened Common
  import opened IdempotencyCache

  /** The cache together with the history that explains it: the log of completed calls
      and the log positions whose entries the capacity bound pushed out. */
  datatype CacheState<+R> = CacheState(
    entries: map<string, Entry<R>>, log: seq<Completion<R>>, evicted: set<int>, now: int)

  datatype CacheEvent<+R> =
    | Complete(c: Completion<R>)
    | Ask(at: int)
    | Tick(at: int, kept: map<string, Entry<R>>)
  {
    function At(): int { if Complete? then c.at else at }
  }

  const CAPACITY: nat := 10000

  function Init<R>(): CacheState<R> { CacheState(map[], [], {}, 0) }

  /** The position of the last completed call with this key, or -1. */
  function LastFor<R>(log: seq<Completion<R>>, key: string): (i: int)
    ensures -1 <= i < |log|
    ensures i >= 0 ==> log[i].key == key
    ensures forall j :: i < j < |log| ==> log[j].key != key
  {
    if log == [] then -1
    else if log[|log|-1].key == key then |log| - 1
    else LastFor(log[..|log|-1], key)
  }

  ghost predicate CanHappen<R(!new)>(s: CacheState<R>, e: CacheEvent<R>) {
    s.now <= e.At() && (e.Tick? ==> SweptTo(s.entries, e.kept, e.at, CAPACITY))
  }

  ghost function Apply<R(!new)>(s: CacheState<R>, e: CacheEvent<R>): CacheState<R>
    requires CanHappen(s, e)
  {
    match e
    case Complete(c) => CacheState(Stored(s.entries, c), s.log + [c], s.evicted, c.at)
    case Ask(at) => s.(now := at)
    case Tick(at, kept) =>
      CacheState(kept, s.log, s.evicted + PushedOut(s, at, kept), at)
  }

  /** The log positions of the unexpired entries that a sweep did not keep. */
  function PushedOut<R>(s: CacheState<R>, at: int, kept: map<string, Entry<R>>): set<int> {
    set k | k in Unexpired(s.entries, at) && k !in kept :: LastFor(s.log, k)
  }

  ghost predicate IsRun<R(!new)>(s: CacheState<R>, es: seq<CacheEvent<R>>)
    decreases |es|
  {
    es == [] || (CanHappen(s, es[0]) && IsRun(Apply(s, es[0]), es[1..]))
  }

  ghost function Run<R(!new)>(s: CacheState<R>, es: seq<CacheEvent<R>>): CacheState<R>
    requires IsRun(s, es)
    decreases |es|
  {
    if es == [] then s else Run(Apply(s, es[0]), es[1..])
  }

  /** Every entry is what the last completed call with its key stored and was not pushed out, and the last
      call of a key is absent only when it expired or was pushed out by the capacity bound. */
  ghost predicate Agrees<R(!new)>(s: CacheState<R>) {
    && "" !in s.entries
    && (forall i :: 0 <= i < |s.log| ==> s.log[i].at <= s.now)
    && (forall k :: k in s.entries ==>
          var i := LastFor(s.log, k);
          i >= 0 && i !in s.evicted && s.entries[k] == Entry(s.log[i].response, s.log[i].ExpireAt()))
    && (forall i :: i in s.evicted ==> 0 <= i < |s.log|)
    && (forall k :: k != "" && k !in s.entries ==>
          var i := LastFor(s.log, k);
          i >= 0 ==> s.log[i].ExpireAt() < s.now || i in s.evicted)
  }

  lemma LastForSnoc<R>(log: seq<Completion<R>>, c: Completion<R>, key: string)
    ensures LastFor(log + [c], key) == if c.key == key then |log| else LastFor(log, key)
  {
    assert (log + [c])[..|log|] == log;
  }

  lemma CompleteAgrees<R(!new)>(s: CacheState<R>, c: Completion<R>)
    requires Agrees(s) && CanHappen(s, Complete(c))
    ensures Agrees(Apply(s, Complete(c)))
  {
    var s' := Apply(s, Complete(c));
    forall k | k in s'.entries
      ensures var i := LastFor(s'.log, k);
              i >= 0 && i !in s'.evicted && s'.entries[k] == Entry(s'.log[i].response, s'.log[i].ExpireAt())
    {
      LastForSnoc(s.log, c, k);
    }
    forall k | k != "" && k !in s'.entries && LastFor(s'.log, k) >= 0
      ensures var i := LastFor(s'.log, k); s'.log[i].ExpireAt() < s'.now || i in s'.evicted
    {
      LastForSnoc(s.log, c, k);
    }
  }

  lemma TickAgrees<R(!new)>(s: CacheState<R>, at: int, kept: map<string, Entry<R>>)
    requires Agrees(s) && CanHappen(s, Tick(at, kept))
    ensures Agrees(Apply(s, Tick(at, kept)))
  {
    var s' := Apply(s, Tick(at, kept));
    forall i | i in PushedOut(s, at, kept) ensures 0 <= i < |s.log| && s.log[i].key !in kept {
      var k :| k in Unexpired(s.entries, at) && k !in kept && LastFor(s.log, k) == i;
      assert k in s.entries;
    }
    forall k | k in kept
      ensures var i := LastFor(s.log, k); i >= 0 && i !in s'.evicted && kept[k] == Entry(s.log[i].response, s.log[i].ExpireAt())
    {
      assert k in s.entries && s.log[LastFor(s.log, k)].key == k;
    }
    forall k | k != "" && k !in kept && LastFor(s.log, k) >= 0
      ensures var i := LastFor(s.log, k); s.log[i].ExpireAt() < at || i in s'.evicted
    {
      if k in s.entries && at <= s.entries[k].expireAt {
        assert k in Unexpired(s.entries, at);
      }
    }
  }

  lemma ApplyAgrees<R(!new)>(s: CacheState<R>, e: CacheEvent<R>)
    requires Agrees(s) && CanHappen(s, e)
    ensures Agrees(Apply(s, e))
  {
    match e
    case Complete(c) => CompleteAgrees(s, c);
    case Ask(at) =>
    case Tick(at, kept) => TickAgrees(s, at, kept);
  }

  lemma {:induction false} RunAgrees<R(!new)>(s: CacheState<R>, es: seq<CacheEvent<R>>)
    requires Agrees(s) && IsRun(s, es)
    ensures Agrees(Run(s, es))
    decreases |es|
  {
    if es != [] {
      ApplyAgrees(s, es[0]);
      RunAgrees(Apply(s, es[0]), es[1..]);
    }
  }

  /** A hit returns the reply of the most recently completed call with that key, inside its window. */
  lemma HitIsLatestCompletion<R(!new)>(es: seq<CacheEvent<R>>, key: string, now: int)
    requires IsRun(Init<R>(), es)
    ensures var s := Run(Init<R>(), es);
            Lookup(s.entries, key, now).Some? ==>
              exists i :: && 0 <= i < |s.log| && s.log[i].key == key != ""
                          && (forall j :: i < j < |s.log| ==> s.log[j].key != key)
                          && (now < s.log[i].at + 60000 || now < s.log[i].at + 5 * s.log[i].timeoutMs)
                          && Lookup(s.entries, key, now) == Some(s.log[i].response)
  {
    RunAgrees(Init<R>(), es);
    var s := Run(Init<R>(), es);
    if Lookup(s.entries, key, now).Some? {
      assert s.log[LastFor(s.log, key)].key == key;
    }
  }

  /** When a lookup hits: exactly inside the window of the last completed call with the key, unless the
      capacity bound pushed its entry out. */
  lemma LookupIff<R(!new)>(s: CacheState<R>, key: string, now: int)
    requires Agrees(s) && s.now <= now
    ensures var i := LastFor(s.log, key);
            && (Lookup(s.entries, key, now).Some?
                <==> && key != "" && i >= 0 && i !in s.evicted
                     && (now < s.log[i].at + 60000 || now < s.log[i].at + 5 * s.log[i].timeoutMs))
            && (Lookup(s.entries, key, now).Some? ==> Lookup(s.entries, key, now).value == s.log[i].response)
  {
  }

  /** A miss inside the window of the last completed call is a capacity eviction, and every such eviction a miss. */
  lemma MissIsEviction<R(!new)>(es: seq<CacheEvent<R>>, key: string, now: int, i: nat)
    requires IsRun(Init<R>(), es) && key != ""
    requires var s := Run(Init<R>(), es);
             && s.now <= now && i < |s.log| && s.log[i].key == key
             && (forall j :: i < j < |s.log| ==> s.log[j].key != key)
             && (now < s.log[i].at + 60000 || now < s.log[i].at + 5 * s.log[i].timeoutMs)
    ensures var s := Run(Init<R>(), es);
            Lookup(s.entries, key, now) == if i in s.evicted then None else Some(s.log[i].response)
  {
    RunAgrees(Init<R>(), es);
    LookupIff(Run(Init<R>(), es), key, now);
    assert LastFor(Run(Init<R>(), es).log, key) == i;
  }

  /** A sweep leaves at most ten thousand entries, and fewer only when fewer are unexpired. */
  lemma SweepBounded<R(!new)>(s: CacheState<R>, at: int, kept: map<string, Entry<R>>)
    requires CanHappen(s, Tick(at, kept))
    ensures |kept| <= 10000
    ensures |kept| < 10000 ==> forall k :: k in s.entries && at <= s.entries[k].expireAt ==> k in kept
  {
    if |kept| < 10000 { SameSizeIsAll(kept, Unexpired(s.entries, at)); }
  }

  /** Below capacity a sweep evicts nothing that a lookup could still return. */
  lemma SweepInvisible<R(!new)>(entries: map<string, Entry<R>>, kept: map<string, Entry<R>>, at: int, key: string, now: int)
    requires SweptTo(entries, kept, at, CAPACITY) && at <= now
    ensures |Unexpired(entries, at)| <= CAPACITY ==> kept == Unexpired(entries, at)
    ensures |Unexpired(entries, at)| <= CAPACITY ==> Lookup(kept, key, now) == Lookup(entries, key, now)
  {
    var live := Unexpired(entries, at);
    if |live| <= CAPACITY {
      assert kept.Keys == live.Keys by {
        SubsetSize(live.Keys - kept.Keys, live.Keys);
        assert kept.Keys <= live.Keys && |kept.Keys| == |live.Keys|;
        assert |live.Keys - kept.Keys| == |live.Keys| - |kept.Keys|;
      }
      assert kept == live;
    }
  }
}
