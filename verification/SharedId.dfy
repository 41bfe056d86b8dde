/** Several calls under one request id: exactly when the status under the id stays that of one of them. */
module SharedId {
  import opened Common
  import opened TransferStatus
  import opened SendSyncSystem
  import IdempotencyCache
  import Engine = SyncEngine

  function StatusUnder(s: System, id: string): Option<Status> {
    if id in s.table.records then Some(s.table.records[id].status) else None
  }

  predicate Newcomer(e: Event, id: string) { e.Enter? && e.requestId == id }

  predicate NoNewcomer(es: seq<Event>, id: string) { forall i :: 0 <= i < |es| ==> !Newcomer(es[i], id) }

  /** A call with a record still to make that another call's status x may not agree with: it has not yet
      been admitted or given an answer, or the one record it will make is not x. */
  predicate Contests(d: Engine.Call, p: Progress, x: Status) {
    match d.phase
    case Preparing => true
    case InFlight => true
    case Storing => p.noted == Some(Routed) && x != Responded
    case Leaving => p.noted == Some(Routed) && p.why.Some? && p.why.value.Last() != Some(Routed) && p.why.value.Last() != Some(x)
    case Ended => false
  }

  predicate SameId(s: System, c: Id, d: Id) {
    c in s.engine.calls && d in s.engine.calls && s.engine.calls[d].requestId == s.engine.calls[c].requestId
  }

  /** The status of call c stands, or was swept away, and no other call under the id contests it. */
  ghost predicate Uncontested(s: System, c: Id) {
    && c in s.engine.calls && s.progress.Keys == s.engine.calls.Keys && s.progress[c].noted.Some?
    && (StatusUnder(s, s.engine.calls[c].requestId) == None || StatusUnder(s, s.engine.calls[c].requestId) == s.progress[c].noted)
    && forall d :: SameId(s, c, d) && d != c ==> !Contests(s.engine.calls[d], s.progress[d], s.progress[c].noted.value)
  }

  /** Whatever happens, short of a new call under the id: the status is what call c recorded last, or swept away. */
  ghost predicate StaysOwn(s: System, c: Id)
    requires c in s.engine.calls
  {
    var id := s.engine.calls[c].requestId;
    forall es :: IsRun(s, es) && NoNewcomer(es, id) ==> IsOwn(Run(s, es), c, id)
  }

  predicate IsOwn(s: System, c: Id, id: string) {
    c in s.progress && (StatusUnder(s, id) == None || StatusUnder(s, id) == s.progress[c].noted)
  }

  // ----- Uncontested, it stays -----

  /** Steps that change no call and no record, except that records may be swept away. */
  lemma UnmovedStays(s: System, s': System, c: Id)
    requires Uncontested(s, c) && s'.engine.calls == s.engine.calls && s'.progress == s.progress
    requires forall id :: id in s'.table.records ==> id in s.table.records && s'.table.records[id] == s.table.records[id]
    ensures Uncontested(s', c)
  {
    forall d | SameId(s', c, d) && d != c
      ensures !Contests(s'.engine.calls[d], s'.progress[d], s'.progress[c].noted.value)
    {
      assert SameId(s, c, d);
    }
  }

  /** Steps of a call that make no record. */
  lemma SilentStays(s: System, s': System, c: Id, x: Id)
    requires Uncontested(s, c) && OnlyMoves(s, s', x) && s'.table == s.table
    requires x in s.engine.calls ==> s'.progress[x].noted == s.progress[x].noted
    requires SameId(s', c, x) && x != c ==> !Contests(s'.engine.calls[x], s'.progress[x], s'.progress[c].noted.value)
    ensures Uncontested(s', c)
  {
    forall d | SameId(s', c, d) && d != c
      ensures !Contests(s'.engine.calls[d], s'.progress[d], s'.progress[c].noted.value)
    {
      if d != x { assert SameId(s, c, d); }
    }
  }

  /** A call that does not contest still does not after a step of its own. */
  lemma StepContestsNot(s: System, e: Engine.Event, x: Status)
    requires Engine.Owned(s.engine) && AllFit(s) && Engine.Enabled(s.engine, e) && Ready(s, e) && e.OfCall()
    requires e.c in s.progress && e.c in s.engine.calls && !Contests(s.engine.calls[e.c], s.progress[e.c], x)
    ensures e.c in ProgressAfter(s, e) && e.c in Engine.Next(s.engine, e).calls
    ensures !Contests(Engine.Next(s.engine, e).calls[e.c], ProgressAfter(s, e)[e.c], x)
  {
    assert Fits(s.engine.calls[e.c], s.progress[e.c]);
    assert s.engine.calls[e.c].PhaseFits();
  }

  lemma CallStepStays(s: System, e: Engine.Event, c: Id)
    requires Engine.Owned(s.engine) && AllFit(s) && Uncontested(s, c) && MayStep(s, e) && e.OfCall()
    ensures Uncontested(StepNext(s, e), c)
  {
    OnlyItsCall(s.engine, e);
    OnlyItsProgress(s, e);
    if SameId(s, c, e.c) && e.c != c { StepContestsNot(s, e, s.progress[c].noted.value); }
    SilentStays(s, StepNext(s, e), c, e.c);
  }

  lemma StepStays(s: System, e: Engine.Event, c: Id)
    requires Engine.Owned(s.engine) && AllFit(s) && Uncontested(s, c) && MayStep(s, e)
    ensures Uncontested(StepNext(s, e), c)
  {
    if e.OfCall() { CallStepStays(s, e, c); } else { UnmovedStays(s, StepNext(s, e), c); }
  }

  lemma GiveUpStays(s: System, x: Id, why: Why, c: Id)
    requires Uncontested(s, c) && MayGiveUp(s, x, why)
    ensures Uncontested(GiveUpNext(s, x, why), c)
  {
    assert SameId(s, c, x) && x != c ==> Contests(s.engine.calls[x], s.progress[x], s.progress[c].noted.value);
    SilentStays(s, GiveUpNext(s, x, why), c, x);
  }

  lemma CompleteStays(s: System, x: Id, at: int, c: Id)
    requires Uncontested(s, c) && MayComplete(s, x, at)
    ensures Uncontested(CompleteNext(s, x, at), c)
  {
    SilentStays(s, CompleteNext(s, x, at), c, x);
  }

  lemma EnterStays(s: System, x: Id, id: string, key: CallKey, allowed: bool, at: int, c: Id)
    requires Uncontested(s, c) && MayEnter(s, x, at) && id != s.engine.calls[c].requestId
    ensures Uncontested(EnterNext(s, x, id, key, allowed, at), c)
  {
    EnteredCalls(s.engine, x, id, allowed, IdempotencyLookup(s, key, at));
    SilentStays(s, EnterNext(s, x, id, key, allowed, at), c, x);
  }

  function IdempotencyLookup(s: System, key: CallKey, at: int): Option<Id> {
    IdempotencyCache.Lookup(s.cache.entries, key.idempotencyKey, at)
  }

  /** A record of call c itself, which still has one to make: then nobody else under the id has. */
  lemma OwnRecordStays(s: System, status: Status, at: int, c: Id)
    requires AllFit(s) && Uncontested(s, c) && MayNote(s, c, status, at)
    ensures Uncontested(NoteNext(s, c, status, at), c)
  {
    var s' := NoteNext(s, c, status, at);
    forall d | SameId(s', c, d) && d != c
      ensures !Contests(s'.engine.calls[d], s'.progress[d], s'.progress[c].noted.value)
    {
      assert SameId(s, c, d);
      assert Fits(s.engine.calls[d], s.progress[d]);
      assert s.progress[c].noted == Some(Accepted) || s.progress[c].noted == Some(Routed);
    }
  }

  /** A record of another call under the id agrees with call c's. */
  lemma OtherRecordStays(s: System, d: Id, status: Status, at: int, c: Id)
    requires Uncontested(s, c) && MayNote(s, d, status, at) && SameId(s, c, d) && d != c
    ensures Uncontested(NoteNext(s, d, status, at), c)
  {
    var s' := NoteNext(s, d, status, at);
    assert !Contests(s.engine.calls[d], s.progress[d], s.progress[c].noted.value);
    assert Some(status) == s.progress[c].noted;
    forall x | SameId(s', c, x) && x != c
      ensures !Contests(s'.engine.calls[x], s'.progress[x], s'.progress[c].noted.value)
    {
      assert SameId(s, c, x);
    }
  }

  lemma ForeignRecordStays(s: System, d: Id, status: Status, at: int, c: Id)
    requires Uncontested(s, c) && MayNote(s, d, status, at) && !SameId(s, c, d)
    ensures Uncontested(NoteNext(s, d, status, at), c)
  {
    var s' := NoteNext(s, d, status, at);
    forall x | SameId(s', c, x) && x != c
      ensures !Contests(s'.engine.calls[x], s'.progress[x], s'.progress[c].noted.value)
    {
      assert SameId(s, c, x);
    }
  }

  lemma UncontestedStep(s: System, e: Event, c: Id)
    requires Inv(s) && Uncontested(s, c) && Enabled(s, e) && !Newcomer(e, s.engine.calls[c].requestId)
    ensures Uncontested(Next(s, e), c)
  {
    match e
    case Enter(x, id, key, allowed, at) => EnterStays(s, x, id, key, allowed, at, c);
    case Record(d, status, at) =>
      if d == c {
        OwnRecordStays(s, status, at, c);
      } else if SameId(s, c, d) {
        OtherRecordStays(s, d, status, at, c);
      } else {
        ForeignRecordStays(s, d, status, at, c);
      }
    case Step(ee) => StepStays(s, ee, c);
    case GiveUp(x, why) => GiveUpStays(s, x, why, c);
    case Complete(x, at) => CompleteStays(s, x, at, c);
    case Sweep(at, kept) => UnmovedStays(s, Next(s, e), c);
    case SweepStatuses(at) => UnmovedStays(s, Next(s, e), c);
  }

  lemma IdsStay(s: System, e: Event, c: Id)
    requires Enabled(s, e) && c in s.engine.calls
    ensures c in Next(s, e).engine.calls && Next(s, e).engine.calls[c].requestId == s.engine.calls[c].requestId
  {
    match e
    case Enter(x, id, key, allowed, at) => EnteredCalls(s.engine, x, id, allowed, IdempotencyLookup(s, key, at));
    case Step(ee) => if ee.OfCall() { OnlyItsCall(s.engine, ee); }
    case _ =>
  }

  lemma {:induction false} UncontestedRun(s: System, es: seq<Event>, c: Id, id: string)
    requires Inv(s) && Uncontested(s, c) && s.engine.calls[c].requestId == id && IsRun(s, es) && NoNewcomer(es, id)
    ensures IsOwn(Run(s, es), c, id)
    decreases |es|
  {
    if es != [] {
      assert !Newcomer(es[0], id);
      assert forall i :: 0 <= i < |es[1..]| ==> es[1..][i] == es[i + 1];
      NextInv(s, es[0]);
      UncontestedStep(s, es[0], c);
      IdsStay(s, es[0], c);
      UncontestedRun(Next(s, es[0]), es[1..], c, id);
    }
  }

  // ----- Contested, it can be overwritten -----

  /** State t can be reached from s without a new call under the id. */
  ghost predicate LeadsTo(s: System, t: System, id: string) {
    exists es :: IsRun(s, es) && NoNewcomer(es, id) && Run(s, es) == t
  }

  lemma {:induction false} RunsConcat(s: System, es: seq<Event>, fs: seq<Event>)
    requires IsRun(s, es) && IsRun(Run(s, es), fs)
    ensures IsRun(s, es + fs) && Run(s, es + fs) == Run(Run(s, es), fs)
    decreases |es|
  {
    if es == [] {
      assert es + fs == fs;
    } else {
      assert (es + fs)[0] == es[0] && (es + fs)[1..] == es[1..] + fs;
      RunsConcat(Next(s, es[0]), es[1..], fs);
    }
  }

  lemma LeadsNowhere(s: System, id: string)
    ensures LeadsTo(s, s, id)
  {
    assert IsRun(s, []) && NoNewcomer([], id) && Run(s, []) == s;
  }

  /** One step further. */
  lemma LeadsOn(s: System, t: System, e: Event, id: string)
    requires LeadsTo(s, t, id) && Enabled(t, e) && !Newcomer(e, id)
    ensures LeadsTo(s, Next(t, e), id)
  {
    var es :| IsRun(s, es) && NoNewcomer(es, id) && Run(s, es) == t;
    assert [e][1..] == [] && IsRun(Next(t, e), []) && Run(Next(t, e), []) == Next(t, e);
    assert IsRun(t, [e]) && Run(t, [e]) == Next(t, e);
    RunsConcat(s, es, [e]);
    assert NoNewcomer(es + [e], id);
  }

  lemma LeadsByRecord(s: System, t: System, o: Id, status: Status, id: string)
    requires LeadsTo(s, t, id) && MayNote(t, o, status, t.table.now)
    ensures LeadsTo(s, NoteNext(t, o, status, t.table.now), id)
  {
    LeadsOn(s, t, Record(o, status, t.table.now), id);
  }

  lemma LeadsByGivingUp(s: System, t: System, o: Id, why: Why, id: string)
    requires LeadsTo(s, t, id) && MayGiveUp(t, o, why)
    ensures LeadsTo(s, GiveUpNext(t, o, why), id)
  {
    LeadsOn(s, t, GiveUp(o, why), id);
  }

  lemma LeadsByCompleting(s: System, t: System, o: Id, id: string)
    requires LeadsTo(s, t, id) && MayComplete(t, o, t.cache.now)
    ensures LeadsTo(s, CompleteNext(t, o, t.cache.now), id)
  {
    LeadsOn(s, t, Complete(o, t.cache.now), id);
  }

  lemma LeadsByStep(s: System, t: System, e: Engine.Event, id: string)
    requires LeadsTo(s, t, id) && MayStep(t, e)
    ensures LeadsTo(s, StepNext(t, e), id)
  {
    LeadsOn(s, t, Step(e), id);
  }

  lemma LeadsBoth(s: System, t: System, u: System, id: string)
    requires LeadsTo(s, t, id) && LeadsTo(t, u, id)
    ensures LeadsTo(s, u, id)
  {
    var es :| IsRun(s, es) && NoNewcomer(es, id) && Run(s, es) == t;
    var fs :| IsRun(t, fs) && NoNewcomer(fs, id) && Run(t, fs) == u;
    RunsConcat(s, es, fs);
    assert NoNewcomer(es + fs, id);
  }

  /** From s to t nothing has changed but where call o stands and what it recorded. */
  predicate Moved(s: System, t: System, o: Id) {
    && o in s.engine.calls && OnlyMoves(s, t, o) && t.keys == s.keys
    && t.engine.pendingRequests == s.engine.pendingRequests && SameMax(s, t)
  }

  /** What the invariant says of one call. */
  predicate Sits(s: System, o: Id) {
    && o in s.engine.calls && s.progress.Keys == s.engine.calls.Keys && s.keys.Keys == s.engine.calls.Keys
    && Fits(s.engine.calls[o], s.progress[o]) && s.engine.calls[o].PhaseFits()
  }

  lemma EveryoneSits(s: System, o: Id)
    requires Inv(s) && o in s.engine.calls
    ensures Sits(s, o)
  {
  }

  lemma Routes(s: System, o: Id, id: string) returns (t: System)
    requires Sits(s, o) && s.engine.calls[o].phase.InFlight?
    ensures LeadsTo(s, t, id) && Moved(s, t, o) && t.engine.calls[o].phase.InFlight? && t.progress[o] == Progress(Some(Routed), None)
  {
    LeadsNowhere(s, id);
    t := s;
    if s.progress[o].noted == Some(Accepted) {
      LeadsByRecord(s, s, o, Routed, id);
      t := NoteNext(s, o, Routed, s.table.now);
    }
  }

  /** A call that has begun to leave and has made its last record. */
  predicate MayClean(s: System, o: Id) {
    && o in s.engine.calls && s.engine.calls[o].phase.Leaving? && o in s.progress && s.progress[o].noted.Some?
    && (s.progress[o].why.Some? ==> s.progress[o].noted == s.progress[o].why.value.Last())
  }

  lemma LeavesFromFlight(s: System, o: Id, id: string) returns (t: System)
    requires Sits(s, o) && s.engine.calls[o].phase.InFlight?
    ensures LeadsTo(s, t, id) && Moved(s, t, o) && MayClean(t, o)
  {
    var r := Routes(s, o, id);
    LeadsByGivingUp(s, r, o, Cancelled, id);
    t := GiveUpNext(r, o, Cancelled);
  }

  lemma LeavesFromStoring(s: System, o: Id, id: string) returns (t: System)
    requires Sits(s, o) && s.engine.calls[o].phase.Storing?
    ensures LeadsTo(s, t, id) && Moved(s, t, o) && MayClean(t, o)
  {
    LeadsNowhere(s, id);
    var r := s;
    if s.progress[o].noted == Some(Routed) {
      LeadsByRecord(s, s, o, Responded, id);
      r := NoteNext(s, o, Responded, s.table.now);
    }
    LeadsByCompleting(s, r, o, id);
    CompletesClean(r, o);
    t := CompleteNext(r, o, r.cache.now);
  }

  lemma CompletesClean(s: System, o: Id)
    requires MayComplete(s, o, s.cache.now) && s.progress[o].why == None && s.progress.Keys == s.engine.calls.Keys
    ensures var t := CompleteNext(s, o, s.cache.now); Moved(s, t, o) && MayClean(t, o)
  {
  }

  lemma LeavesFromLeaving(s: System, o: Id, id: string) returns (t: System)
    requires Sits(s, o) && s.engine.calls[o].phase.Leaving?
    ensures LeadsTo(s, t, id) && Moved(s, t, o) && MayClean(t, o)
  {
    LeadsNowhere(s, id);
    t := s;
    var p := s.progress[o];
    if p.why.Some? && p.noted != p.why.value.Last() {
      LeadsByRecord(s, s, o, p.why.value.Last().value, id);
      t := NoteNext(s, o, p.why.value.Last().value, s.table.now);
    }
  }

  /** The call is at its end: its entry is gone, and nobody else has moved. */
  predicate Finished(s: System, t: System, o: Id) {
    && o in s.engine.calls && OnlyMoves(s, t, o) && t.progress[o].noted.Some? && SameMax(s, t) && t.keys == s.keys
    && t.engine.pendingRequests == s.engine.pendingRequests - {s.engine.calls[o].requestId}
  }

  lemma CleansUp(s: System, t: System, o: Id, id: string) returns (u: System)
    requires LeadsTo(s, t, id) && Moved(s, t, o) && MayClean(t, o)
    ensures LeadsTo(s, u, id) && Finished(s, u, o)
  {
    LeadsByStep(s, t, Engine.Cleanup(o), id);
    u := StepNext(t, Engine.Cleanup(o));
  }

  /** A registered call can be brought to its end. */
  lemma Finishes(s: System, o: Id, id: string) returns (t: System)
    requires Sits(s, o) && s.engine.calls[o].phase.Registered()
    ensures LeadsTo(s, t, id) && Finished(s, t, o)
  {
    var r;
    if s.engine.calls[o].phase.InFlight? {
      r := LeavesFromFlight(s, o, id);
    } else if s.engine.calls[o].phase.Storing? {
      r := LeavesFromStoring(s, o, id);
    } else {
      r := LeavesFromLeaving(s, o, id);
    }
    t := CleansUp(s, r, o, id);
  }

  /** Call d waits to be registered under the id of call c, which has a status. */
  predicate Waits(s: System, c: Id, d: Id) {
    && SameId(s, c, d) && c != d && c in s.progress && d in s.progress && s.progress[c].noted.Some?
    && s.engine.calls[d].phase.Preparing? && s.progress[d] == Progress(Some(Accepted), None) && s.engine.calls[d].requestId != ""
  }

  predicate HasRoom(s: System, id: string) {
    id !in s.engine.pendingRequests && |s.engine.pendingRequests| < s.engine.maxPendingRequests
  }

  lemma OwnerOf(s: System, k: string) returns (o: Id)
    requires Inv(s) && k in s.engine.pendingRequests
    ensures o in s.engine.calls && s.engine.calls[o].requestId == k && s.engine.calls[o].phase.Registered() && Sits(s, o)
  {
    o := s.engine.pendingRequests[k];
    EveryoneSits(s, o);
  }

  /** Whoever is in the way of a call that is to register can be brought to an end. */
  lemma MakesRoom(s: System, c: Id, d: Id, id: string) returns (t: System)
    requires Inv(s) && Waits(s, c, d) && id == s.engine.calls[d].requestId && s.engine.maxPendingRequests >= 1
    ensures LeadsTo(s, t, id) && Waits(t, c, d) && t.engine.calls[d].requestId == id && HasRoom(t, id)
  {
    var pending := s.engine.pendingRequests;
    if HasRoom(s, id) {
      t := s;
      LeadsNowhere(s, id);
    } else {
      var k := id;
      if id !in pending { k :| k in pending; }
      var o := OwnerOf(s, k);
      Fewer(pending, k);
      PendingBounded(s);
      t := Finishes(s, o, id);
      OthersWait(s, t, c, d, o);
    }
  }

  lemma PendingBounded(s: System)
    requires Inv(s)
    ensures |s.engine.pendingRequests| <= s.engine.maxPendingRequests
  {
  }

  lemma OthersWait(s: System, t: System, c: Id, d: Id, o: Id)
    requires Waits(s, c, d) && Finished(s, t, o) && o != d
    ensures Waits(t, c, d) && t.engine.calls[d].requestId == s.engine.calls[d].requestId
  {
  }

  lemma Fewer(m: map<string, Id>, k: string)
    requires k in m
    ensures |m - {k}| == |m| - 1
  {
    assert (m - {k}).Keys == m.Keys - {k};
  }

  /** A record has been made under the id that is not call c's. */
  ghost predicate Overwritten(s: System, t: System, c: Id, id: string) {
    LeadsTo(s, t, id) && c in t.progress && StatusUnder(t, id).Some? && StatusUnder(t, id) != t.progress[c].noted
  }

  lemma LastRecordOverwrites(s: System, t: System, c: Id, d: Id, status: Status, id: string) returns (u: System)
    requires LeadsTo(s, t, id) && c != d && c in t.progress
    requires MayNote(t, d, status, t.table.now) && t.engine.calls[d].requestId == id && t.progress[c].noted != Some(status)
    ensures Overwritten(s, u, c, id)
  {
    LeadsByRecord(s, t, d, status, id);
    u := NoteNext(t, d, status, t.table.now);
  }

  /** A registered call that waits can fail in two ways, and one of them is not call c's. */
  lemma FlightOverwrites(s: System, c: Id, d: Id, id: string) returns (u: System)
    requires Sits(s, d) && SameId(s, c, d) && c != d && s.engine.calls[d].requestId == id && s.engine.calls[d].phase.InFlight?
    ensures Overwritten(s, u, c, id)
  {
    var r := Routes(s, d, id);
    var why := if s.progress[c].noted == Some(TimedOut) then Unpublished else Late;
    LeadsByGivingUp(s, r, d, why, id);
    u := LastRecordOverwrites(s, GiveUpNext(r, d, why), c, d, if why.Late? then TimedOut else Failed, id);
  }

  lemma Accepts(s: System, c: Id, d: Id, id: string) returns (t: System)
    requires Sits(s, c) && Sits(s, d) && SameId(s, c, d) && c != d && id == s.engine.calls[d].requestId
    requires s.progress[c].noted.Some? && s.engine.calls[d].phase.Preparing?
    ensures LeadsTo(s, t, id) && Waits(t, c, d) && t.engine == s.engine
  {
    LeadsNowhere(s, id);
    t := s;
    if s.progress[d].noted == None {
      LeadsByRecord(s, s, d, Accepted, id);
      t := NoteNext(s, d, Accepted, s.table.now);
    }
  }

  lemma Registers(s: System, c: Id, d: Id, id: string) returns (u: System)
    requires Waits(s, c, d) && s.engine.calls[d].requestId == id && HasRoom(s, id)
    requires s.progress.Keys == s.engine.calls.Keys && s.keys.Keys == s.engine.calls.Keys
    ensures LeadsTo(s, u, id) && Sits(u, d) && SameId(u, c, d) && u.engine.calls[d].requestId == id && u.engine.calls[d].phase.InFlight?
  {
    LeadsNowhere(s, id);
    LeadsByStep(s, s, Engine.Register(d), id);
    u := StepNext(s, Engine.Register(d));
  }

  lemma LeadsKeepsInv(s: System, t: System, id: string)
    requires Inv(s) && LeadsTo(s, t, id)
    ensures Inv(t) && SameMax(s, t)
  {
    var es :| IsRun(s, es) && NoNewcomer(es, id) && Run(s, es) == t;
    RunInv(s, es);
  }

  /** A call that is not yet registered can still be, and then goes on as above. */
  lemma PreparingOverwrites(s: System, c: Id, d: Id, id: string) returns (u: System)
    requires Inv(s) && SameId(s, c, d) && c != d && s.progress[c].noted.Some? && s.engine.maxPendingRequests >= 1
    requires id == s.engine.calls[d].requestId && s.engine.calls[d].phase.Preparing?
    ensures Overwritten(s, u, c, id)
  {
    EveryoneSits(s, c);
    EveryoneSits(s, d);
    var a := Accepts(s, c, d, id);
    LeadsKeepsInv(s, a, id);
    var room := MakesRoom(a, c, d, id);
    LeadsBoth(s, a, room, id);
    LeadsKeepsInv(s, room, id);
    EveryoneSits(room, d);
    var reg := Registers(room, c, d, id);
    LeadsBoth(s, room, reg, id);
    u := FlightOverwrites(reg, c, d, id);
    LeadsBoth(s, reg, u, id);
  }

  lemma ContestedOverwrites(s: System, c: Id, d: Id, id: string) returns (u: System)
    requires Inv(s) && SameId(s, c, d) && c != d && s.progress[c].noted.Some? && s.engine.maxPendingRequests >= 1
    requires id == s.engine.calls[d].requestId && Contests(s.engine.calls[d], s.progress[d], s.progress[c].noted.value)
    ensures Overwritten(s, u, c, id)
  {
    if s.engine.calls[d].phase.Preparing? {
      u := PreparingOverwrites(s, c, d, id);
    } else {
      EveryoneSits(s, d);
      u := RegisteredOverwrites(s, c, d, id);
    }
  }

  lemma RegisteredOverwrites(s: System, c: Id, d: Id, id: string) returns (u: System)
    requires Sits(s, d) && SameId(s, c, d) && c != d && s.progress[c].noted.Some? && !s.engine.calls[d].phase.Preparing?
    requires id == s.engine.calls[d].requestId && Contests(s.engine.calls[d], s.progress[d], s.progress[c].noted.value)
    ensures Overwritten(s, u, c, id)
  {
    LeadsNowhere(s, id);
    if s.engine.calls[d].phase.InFlight? {
      u := FlightOverwrites(s, c, d, id);
    } else if s.engine.calls[d].phase.Storing? {
      u := LastRecordOverwrites(s, s, c, d, Responded, id);
    } else {
      u := LastRecordOverwrites(s, s, c, d, s.progress[d].why.value.Last().value, id);
    }
  }

  /** The exact condition, in every reachable state of a service that admits calls at all: the status under
      an id stays what call c recorded last, or is swept away, whatever happens short of a new call under the
      id, if and only if it is that now and no other call under the id contests it. */
  lemma StaysOwnIffUncontested(max: nat, es: seq<Event>, c: Id)
    requires max >= 1 && IsRun(Init(max), es)
    requires c in Run(Init(max), es).progress && Run(Init(max), es).progress[c].noted.Some?
    ensures c in Run(Init(max), es).engine.calls
    ensures StaysOwn(Run(Init(max), es), c) <==> Uncontested(Run(Init(max), es), c)
  {
    InitInv(max);
    RunInv(Init(max), es);
    StateStaysIff(Run(Init(max), es), c);
  }

  lemma StateStaysIff(s: System, c: Id)
    requires Inv(s) && s.engine.maxPendingRequests >= 1 && c in s.engine.calls && s.progress[c].noted.Some?
    ensures StaysOwn(s, c) <==> Uncontested(s, c)
  {
    var id := s.engine.calls[c].requestId;
    if Uncontested(s, c) {
      forall fs | IsRun(s, fs) && NoNewcomer(fs, id) ensures IsOwn(Run(s, fs), c, id) { UncontestedRun(s, fs, c, id); }
    } else if d :| SameId(s, c, d) && d != c && Contests(s.engine.calls[d], s.progress[d], s.progress[c].noted.value) {
      var u := ContestedOverwrites(s, c, d, id);
    } else {
      LeadsNowhere(s, id);
    }
  }

  // ----- It happens -----

  lemma LeadsByEntering(s: System, t: System, c: Id, requestId: string, key: CallKey, at: int, id: string)
    requires LeadsTo(s, t, id) && MayEnter(t, c, at) && requestId != id
    ensures LeadsTo(s, EnterNext(t, c, requestId, key, true, at), id)
  {
    LeadsOn(s, t, Enter(c, requestId, key, true, at), id);
  }

  /** One call under the id, published and waiting, in a service that has done nothing else. */
  predicate OneRouted(s: System, id: string) {
    && s.engine.calls == map[0 := Engine.Call(id, Engine.InFlight, Engine.Open)] && s.engine.channels.Keys == {0}
    && s.progress == map[0 := Progress(Some(Routed), None)] && s.cache.now <= 0 && s.table.now == 0
  }

  /** The same one step earlier than registration. */
  predicate OneAccepted(s: System, id: string) {
    && s.engine.calls == map[0 := Engine.Call(id, Engine.Preparing, Engine.Open)] && s.engine.channels == map[]
    && s.engine.pendingRequests == map[] && s.engine.maxPendingRequests >= 1
    && s.progress == map[0 := Progress(Some(Accepted), None)] && s.cache.now <= 0 && s.table.now == 0
  }

  lemma FirstEnters(max: nat, id: string) returns (t: System)
    requires max >= 1 && id != ""
    ensures LeadsTo(Init(max), t, "") && OneAccepted(t, id)
  {
    var s, key := Init(max), CallKey("", 0);
    LeadsNowhere(s, "");
    LeadsByEntering(s, s, 0, id, key, 0, "");
    EnteredCalls(s.engine, 0, id, true, IdempotencyLookup(s, key, 0));
    var entered := EnterNext(s, 0, id, key, true, 0);
    LeadsByRecord(s, entered, 0, Accepted, "");
    t := NoteNext(entered, 0, Accepted, 0);
  }

  lemma FirstRegisters(s: System, id: string) returns (t: System)
    requires OneAccepted(s, id) && id != ""
    ensures LeadsTo(s, t, "") && OneRouted(t, id)
  {
    LeadsNowhere(s, "");
    LeadsByStep(s, s, Engine.Register(0), "");
    FirstAdmitted(s, id);
    var registered := StepNext(s, Engine.Register(0));
    LeadsByRecord(s, registered, 0, Routed, "");
    t := NoteNext(registered, 0, Routed, 0);
  }

  lemma FirstAdmitted(s: System, id: string)
    requires OneAccepted(s, id) && id != ""
    ensures MayStep(s, Engine.Register(0))
    ensures var t := StepNext(s, Engine.Register(0));
            && t.engine.calls == map[0 := Engine.Call(id, Engine.InFlight, Engine.Open)] && t.engine.channels.Keys == {0}
            && t.progress == s.progress && t.cache == s.cache && t.table == s.table
  {
    assert Engine.Admit(s.engine.pendingRequests, s.engine.maxPendingRequests, id) == Engine.Admitted;
  }

  /** A running call whose status another call under its id has overwritten. */
  predicate RunningButAccepted(s: System, id: string) {
    && 0 in s.engine.calls && s.engine.calls[0] == Engine.Call(id, Engine.InFlight, Engine.Open)
    && 0 in s.progress && s.progress[0].noted == Some(Routed) && StatusUnder(s, id) == Some(Accepted)
  }

  lemma SecondCall(t: System, id: string) returns (u: System)
    requires OneRouted(t, id) && id != ""
    ensures LeadsTo(t, u, "") && RunningButAccepted(u, id)
  {
    var key := CallKey("", 0);
    LeadsNowhere(t, "");
    LeadsByEntering(t, t, 1, id, key, 0, "");
    EnteredCalls(t.engine, 1, id, true, IdempotencyLookup(t, key, 0));
    var entered := EnterNext(t, 1, id, key, true, 0);
    LeadsByRecord(t, entered, 1, Accepted, "");
    u := NoteNext(entered, 1, Accepted, 0);
  }

  /** From the start of any service that admits calls there is a run to such a state: the id of a running call
      is used again, and its status is "accepted" where it recorded "routed". */
  lemma SharedIdOverwrites(max: nat, id: string)
    requires max >= 1 && id != ""
    ensures exists es :: IsRun(Init(max), es) && RunningButAccepted(Run(Init(max), es), id)
  {
    var a := FirstEnters(max, id);
    var t := FirstRegisters(a, id);
    LeadsBoth(Init(max), a, t, "");
    var u := SecondCall(t, id);
    LeadsBoth(Init(max), t, u, "");
  }
}
