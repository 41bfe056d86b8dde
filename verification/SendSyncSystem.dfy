/** SendSync end to end: the request/reply engine together with the idempotency cache, the status table, and
    the sweepers of both, over every interleaving.  Every reply a call returns is its own, or one that an
    earlier call with the same idempotency key took; and the status under an id tells how the call that used
    it went, until the retention sweep takes it away. */
module SendSyncSystem {
  import opened Common
  import opened IdempotencyCache
  import opened TransferStatus
  import CacheHistory
  import Engine = SyncEngine

  type Id = Engine.Id

  datatype CallKey = CallKey(idempotencyKey: string, timeoutMs: int)

  /** Why a call failed: screened out before registration, refused at registration, not published (or not
      encoded), cancelled, or timed out. */
  datatype Why = Screened | Refused | Unpublished | Cancelled | Late {
    /** The last status such a call records. */
    function Last(): Option<Status> {
      match this
      case Screened => None
      case Refused => Some(Accepted)
      case Unpublished => Some(Failed)
      case Cancelled => Some(Routed)
      case Late => Some(TimedOut)
    }
  }

  /** How far a call has come with its status records. */
  datatype Progress = Progress(noted: Option<Status>, why: Option<Why>)

  /** A cached answer: the log entry behind it, and the log and the clock at that moment. */
  datatype Answer = Answer(entry: int, seen: int, at: int)

  datatype System = System(
    engine: Engine.State,
    cache: CacheHistory.CacheState<Id>,
    table: Table,
    keys: map<Id, CallKey>,
    progress: map<Id, Progress>,
    completedBy: seq<Id>,           // the call behind each entry of the cache's log
    answers: map<Id, Answer>)

  datatype Event =
    | Enter(c: Id, requestId: string, key: CallKey, allowed: bool, at: int)
    | Record(c: Id, status: Status, at: int)
    | Step(e: Engine.Event)
    | GiveUp(c: Id, why: Why)
    | Complete(c: Id, at: int)
    | Sweep(at: int, kept: map<string, Entry<Id>>)
    | SweepStatuses(at: int)

  function Init(max: nat): System {
    System(Engine.Init(max), CacheHistory.Init(), Table(map[], [], [], 0), map[], map[], [], map[])
  }

  ghost function CompletionOf(s: System, c: Id, at: int): Completion<Id>
    requires c in s.keys && c in s.engine.calls && s.engine.calls[c].outcome.Fresh?
  {
    Completion(s.keys[c].idempotencyKey, s.engine.calls[c].outcome.handler, s.keys[c].timeoutMs, at)
  }

  /** A call begins, and ends at once when access is denied or the cache answers. */
  function Entered(s: Engine.State, c: Id, requestId: string, allowed: bool, hit: Option<Id>): Engine.State
    requires c !in s.calls && c !in s.channels
  {
    var begun := Engine.Next(s, Engine.Begin(c, requestId));
    if !allowed then Engine.Next(begun, Engine.Reject(c))
    else if hit.Some? then Engine.Next(begun, Engine.Answer(c, hit.value))
    else begun
  }

  predicate HasNoted(s: System, c: Id, status: Option<Status>) { c in s.progress && s.progress[c].noted == status }

  /** Where SendSync records which status. */
  predicate MayRecord(call: Engine.Call, p: Progress, status: Status) {
    match status
    case Accepted => call.phase.Preparing? && p.noted == None && call.requestId != ""
    case Routed => call.phase.InFlight? && p.noted == Some(Accepted)
    case Responded => call.phase.Storing? && p.noted == Some(Routed)
    case TimedOut => call.phase.Leaving? && p == Progress(Some(Routed), Some(Late))
    case Failed => call.phase.Leaving? && p == Progress(Some(Routed), Some(Unpublished))
  }

  predicate MayNote(s: System, c: Id, status: Status, at: int) {
    c in s.engine.calls && c in s.progress && MayRecord(s.engine.calls[c], s.progress[c], status) && s.table.now <= at
  }

  /** Which engine steps a call is ready for; those of the reply handlers always. */
  predicate Ready(s: System, e: Engine.Event) {
    match e
    case Reject(c) => HasNoted(s, c, None)
    case Register(c) => HasNoted(s, c, Some(Accepted))
    case Take(c) => HasNoted(s, c, Some(Routed))
    case Cleanup(c) => c in s.progress && (s.progress[c].why.Some? ==> s.progress[c].noted == s.progress[c].why.value.Last())
    case _ => !e.OfCall()
  }

  ghost predicate Enabled(s: System, e: Event) {
    match e
    case Enter(c, _, _, _, at) => MayEnter(s, c, at)
    case Record(c, status, at) => MayNote(s, c, status, at)
    case Step(ee) => MayStep(s, ee)
    case GiveUp(c, why) => MayGiveUp(s, c, why)
    case Complete(c, at) => MayComplete(s, c, at)
    case Sweep(at, kept) => CacheHistory.CanHappen(s.cache, CacheHistory.Tick(at, kept))
    case SweepStatuses(at) => s.table.now <= at
  }

  predicate MayGiveUp(s: System, c: Id, why: Why) {
    Engine.InPhase(s.engine, c, Engine.InFlight) && HasNoted(s, c, Some(Routed)) && !why.Screened? && !why.Refused?
  }

  function GiveUpNext(s: System, c: Id, why: Why): System
    requires MayGiveUp(s, c, why)
  {
    s.(engine := Engine.SetCall(s.engine, c, Engine.Leaving, Engine.Failed),
       progress := s.progress[c := s.progress[c].(why := Some(why))])
  }

  predicate MayComplete(s: System, c: Id, at: int) {
    && Engine.InPhase(s.engine, c, Engine.Storing) && s.engine.calls[c].outcome.Fresh?
    && c in s.keys && HasNoted(s, c, Some(Responded)) && s.cache.now <= at
  }

  ghost function CompleteNext(s: System, c: Id, at: int): System
    requires MayComplete(s, c, at)
  {
    s.(engine := Engine.SetCall(s.engine, c, Engine.Leaving, s.engine.calls[c].outcome),
       cache := CacheHistory.Apply(s.cache, CacheHistory.Complete(CompletionOf(s, c, at))),
       completedBy := s.completedBy + [c])
  }

  predicate MayEnter(s: System, c: Id, at: int) { c !in s.engine.calls && c !in s.engine.channels && s.cache.now <= at }

  ghost function EnterNext(s: System, c: Id, id: string, key: CallKey, allowed: bool, at: int): System
    requires MayEnter(s, c, at)
  {
    var hit := Lookup(s.cache.entries, key.idempotencyKey, at);
    s.(engine := Entered(s.engine, c, id, allowed, hit),
       cache := s.cache.(now := at),
       keys := s.keys[c := key],
       progress := s.progress[c := Progress(None, if allowed then None else Some(Screened))],
       answers := if !allowed || hit.None? then s.answers
                  else s.answers[c := Answer(CacheHistory.LastFor(s.cache.log, key.idempotencyKey), |s.cache.log|, at)])
  }

  function NoteNext(s: System, c: Id, status: Status, at: int): System
    requires MayNote(s, c, status, at)
  {
    s.(table := Noted(s.table, Note(s.engine.calls[c].requestId, c, status, at)),
       progress := s.progress[c := s.progress[c].(noted := Some(status))])
  }

  function ProgressAfter(s: System, e: Engine.Event): map<Id, Progress>
    requires Engine.Enabled(s.engine, e) && Ready(s, e)
  {
    match e
    case Reject(c) => s.progress[c := s.progress[c].(why := Some(Screened))]
    case Register(c) =>
      if Engine.Next(s.engine, e).calls[c].phase.InFlight? then s.progress
      else s.progress[c := s.progress[c].(why := Some(Refused))]
    case _ => s.progress
  }

  predicate MayStep(s: System, e: Engine.Event) { Engine.Enabled(s.engine, e) && Ready(s, e) }

  function StepNext(s: System, e: Engine.Event): System
    requires MayStep(s, e)
  {
    s.(engine := Engine.Next(s.engine, e), progress := ProgressAfter(s, e))
  }

  ghost function Next(s: System, e: Event): System
    requires Enabled(s, e)
  {
    match e
    case Enter(c, id, key, allowed, at) =>
      EnterNext(s, c, id, key, allowed, at)
    case Record(c, status, at) => NoteNext(s, c, status, at)
    case Step(ee) => StepNext(s, ee)
    case GiveUp(c, why) => GiveUpNext(s, c, why)
    case Complete(c, at) => CompleteNext(s, c, at)
    case Sweep(at, kept) => s.(cache := CacheHistory.Apply(s.cache, CacheHistory.Tick(at, kept)))
    case SweepStatuses(at) => s.(table := Swept(s.table, at))
  }

  ghost predicate IsRun(s: System, es: seq<Event>)
    decreases |es|
  {
    es == [] || (Enabled(s, es[0]) && IsRun(Next(s, es[0]), es[1..]))
  }

  ghost function Run(s: System, es: seq<Event>): System
    requires IsRun(s, es)
    decreases |es|
  {
    if es == [] then s else Run(Next(s, es[0]), es[1..])
  }

  // ----- The cache explains every cached answer -----

  /** Log entry i is the reply that the call behind it took from its own channel. */
  ghost predicate LogEntryExplained(s: System, i: int)
    requires 0 <= i < |s.completedBy| == |s.cache.log|
  {
    var c := s.completedBy[i];
    && c in s.engine.calls && s.engine.calls[c].outcome == Engine.Fresh(s.cache.log[i].response)
    && c in s.keys && s.keys[c].idempotencyKey == s.cache.log[i].key
  }

  /** The answer is that of the completion that was the latest for the call's key when the call asked, and
      the call asked inside its window. */
  ghost predicate AnswerExplained(s: System, c: Id) {
    && c in s.answers && c in s.keys && c in s.engine.calls
    && var a := s.answers[c];
       && 0 <= a.entry < a.seen <= |s.cache.log|
       && s.cache.log[a.entry].key == s.keys[c].idempotencyKey != ""
       && (forall j :: a.entry < j < a.seen ==> s.cache.log[j].key != s.keys[c].idempotencyKey)
       && a.at < s.cache.log[a.entry].ExpireAt()
       && s.engine.calls[c].outcome == Engine.Cached(s.cache.log[a.entry].response)
  }

  ghost predicate Explained(s: System) {
    && CacheHistory.Agrees(s.cache)
    && |s.completedBy| == |s.cache.log|
    && s.keys.Keys == s.engine.calls.Keys
    && (forall i :: 0 <= i < |s.completedBy| ==> LogEntryExplained(s, i))
    && (forall c :: c in s.engine.calls && s.engine.calls[c].outcome.Cached? ==> AnswerExplained(s, c))
  }

  /** What has been settled about a call stays. */
  ghost predicate Settled(s: Engine.State, s': Engine.State, c: Id) {
    && (c in s.calls && (s.calls[c].outcome.Fresh? || s.calls[c].outcome.Cached?) ==>
          c in s'.calls && s'.calls[c].outcome == s.calls[c].outcome)
    && (c in s'.calls && s'.calls[c].outcome.Cached? ==> c in s.calls && s.calls[c].outcome == s'.calls[c].outcome)
  }

  /** A step other than a cache answer changes no settled outcome and invents no cached one. */
  lemma OutcomesSettle(s: Engine.State, e: Engine.Event, c: Id)
    requires Engine.Owned(s) && Engine.Enabled(s, e) && !e.Answer?
    ensures Settled(s, Engine.Next(s, e), c)
  {
  }

  /** While the log and the answers stay, or the log grows, explanations stay. */
  lemma ExplanationsStay(s: System, s': System)
    requires Explained(s) && forall c :: Settled(s.engine, s'.engine, c)
    requires s.cache.log <= s'.cache.log && s.completedBy <= s'.completedBy && |s'.completedBy| == |s'.cache.log|
    requires s'.keys == s.keys && s'.answers == s.answers
    ensures forall i :: 0 <= i < |s.completedBy| ==> LogEntryExplained(s', i)
    ensures forall c :: c in s'.engine.calls && s'.engine.calls[c].outcome.Cached? ==> AnswerExplained(s', c)
  {
    forall i | 0 <= i < |s.completedBy| ensures LogEntryExplained(s', i) {
      assert LogEntryExplained(s, i);
      assert Settled(s.engine, s'.engine, s.completedBy[i]);
    }
    forall c | c in s'.engine.calls && s'.engine.calls[c].outcome.Cached? ensures AnswerExplained(s', c) {
      assert Settled(s.engine, s'.engine, c);
      assert AnswerExplained(s, c);
    }
  }

  lemma StepExplained(s: System, e: Engine.Event, s': System)
    requires Engine.Owned(s.engine) && Explained(s) && Engine.Enabled(s.engine, e) && !e.Begin? && !e.Answer?
    requires s' == s.(engine := Engine.Next(s.engine, e), progress := s'.progress)
    ensures Explained(s')
  {
    assert s'.engine.calls.Keys == s.engine.calls.Keys;
    forall c ensures Settled(s.engine, s'.engine, c) { OutcomesSettle(s.engine, e, c); }
    ExplanationsStay(s, s');
  }

  lemma CompleteExplained(s: System, c: Id, at: int)
    requires Engine.Owned(s.engine) && Explained(s) && MayComplete(s, c, at)
    ensures Explained(CompleteNext(s, c, at))
  {
    var s' := CompleteNext(s, c, at);
    CacheHistory.ApplyAgrees(s.cache, CacheHistory.Complete(CompletionOf(s, c, at)));
    assert s'.engine.calls.Keys == s.engine.calls.Keys;
    forall x ensures Settled(s.engine, s'.engine, x) { OutcomesSettle(s.engine, Engine.Store(c), x); }
    ExplanationsStay(s, s');
    assert Settled(s.engine, s'.engine, c);
    assert LogEntryExplained(s', |s.completedBy|);
  }

  lemma EnteredCalls(s: Engine.State, c: Id, id: string, allowed: bool, hit: Option<Id>)
    requires c !in s.calls && c !in s.channels
    ensures Entered(s, c, id, allowed, hit).calls ==
            s.calls[c := if !allowed then Engine.Call(id, Engine.Ended, Engine.Failed)
                         else if hit.Some? then Engine.Call(id, Engine.Ended, Engine.Cached(hit.value))
                         else Engine.Call(id, Engine.Preparing, Engine.Open)]
  {
  }

  lemma EnteredInv(s: Engine.State, c: Id, id: string, allowed: bool, hit: Option<Id>)
    requires Engine.Inv(s) && c !in s.calls && c !in s.channels
    ensures Engine.Inv(Entered(s, c, id, allowed, hit))
    ensures Entered(s, c, id, allowed, hit).maxPendingRequests == s.maxPendingRequests
  {
    var begun := Engine.Next(s, Engine.Begin(c, id));
    Engine.StepInv(s, Engine.Begin(c, id));
    if !allowed {
      Engine.StepInv(begun, Engine.Reject(c));
    } else if hit.Some? {
      Engine.StepInv(begun, Engine.Answer(c, hit.value));
    }
  }

  lemma HitExplained(s: System, c: Id, id: string, key: CallKey, at: int)
    requires CacheHistory.Agrees(s.cache) && MayEnter(s, c, at)
    requires Lookup(s.cache.entries, key.idempotencyKey, at).Some?
    ensures AnswerExplained(EnterNext(s, c, id, key, true, at), c)
  {
    CacheHistory.LookupIff(s.cache, key.idempotencyKey, at);
    EnteredCalls(s.engine, c, id, true, Lookup(s.cache.entries, key.idempotencyKey, at));
  }

  lemma EnterExplained(s: System, c: Id, id: string, key: CallKey, allowed: bool, at: int)
    requires Explained(s) && MayEnter(s, c, at)
    ensures Explained(EnterNext(s, c, id, key, allowed, at))
  {
    var s' := EnterNext(s, c, id, key, allowed, at);
    var hit := Lookup(s.cache.entries, key.idempotencyKey, at);
    EnteredCalls(s.engine, c, id, allowed, hit);
    AskAgrees(s.cache, at);
    if allowed && hit.Some? { HitExplained(s, c, id, key, at); }
    NewcomerExplained(s, s', c);
  }

  lemma AskAgrees(cache: CacheHistory.CacheState<Id>, at: int)
    requires CacheHistory.Agrees(cache) && cache.now <= at
    ensures CacheHistory.Agrees(cache.(now := at))
  {
    CacheHistory.ApplyAgrees(cache, CacheHistory.Ask(at));
  }

  /** One more call changes no other explanation. */
  lemma NewcomerExplained(s: System, s': System, c: Id)
    requires Explained(s) && c !in s.engine.calls
    requires s'.cache.log == s.cache.log && s'.completedBy == s.completedBy && CacheHistory.Agrees(s'.cache)
    requires s'.keys.Keys == s'.engine.calls.Keys == s.engine.calls.Keys + {c}
    requires forall x :: x in s.engine.calls ==> s'.engine.calls[x] == s.engine.calls[x] && s'.keys[x] == s.keys[x]
    requires forall x :: x in s.answers && x != c ==> x in s'.answers && s'.answers[x] == s.answers[x]
    requires s'.engine.calls[c].outcome.Cached? ==> AnswerExplained(s', c)
    ensures Explained(s')
  {
    forall x | x in s'.engine.calls && s'.engine.calls[x].outcome.Cached? ensures AnswerExplained(s', x) {
      if x != c { assert AnswerExplained(s, x); }
    }
    forall i | 0 <= i < |s'.completedBy| ensures LogEntryExplained(s', i) {
      assert LogEntryExplained(s, i);
    }
  }

  lemma SweepExplained(s: System, at: int, kept: map<string, Entry<Id>>)
    requires Explained(s) && Enabled(s, Sweep(at, kept))
    ensures Explained(Next(s, Sweep(at, kept)))
  {
    CacheHistory.ApplyAgrees(s.cache, CacheHistory.Tick(at, kept));
    ExplanationsStay(s, Next(s, Sweep(at, kept)));
  }

  lemma NoteExplained(s: System, c: Id, status: Status, at: int)
    requires Explained(s) && MayNote(s, c, status, at)
    ensures Explained(NoteNext(s, c, status, at))
  {
    ExplanationsStay(s, NoteNext(s, c, status, at));
  }

  // ----- The status table tells of every call -----

  /** What a call has recorded, for where it is. */
  predicate Fits(call: Engine.Call, p: Progress) {
    (p.noted.Some? ==> call.requestId != "") &&
    match call.phase
    case Preparing => p.why == None && (p.noted == None || p.noted == Some(Accepted))
    case InFlight => p.why == None && (p.noted == Some(Accepted) || p.noted == Some(Routed))
    case Storing => p.why == None && (p.noted == Some(Routed) || p.noted == Some(Responded))
    case Leaving =>
      if call.outcome.Fresh? then p == Progress(Some(Responded), None)
      else call.outcome.Failed? && p.why.Some? && !p.why.value.Screened? && !p.why.value.Refused?
           && (p.noted == Some(Routed) || p.noted == p.why.value.Last())
    case Ended =>
      match call.outcome {
        case Fresh(_) => p == Progress(Some(Responded), None)
        case Cached(_) => p == Progress(None, None)
        case Failed => p.why.Some? && p.noted == p.why.value.Last()
        case Open => false
      }
  }

  /** The status that the call recorded last. */
  function NotedBy(log: seq<Note>, c: Id): Option<Status> {
    if log == [] then None
    else if log[|log|-1].call == c then Some(log[|log|-1].status)
    else NotedBy(log[..|log|-1], c)
  }

  lemma NotedBySnoc(log: seq<Note>, n: Note, c: Id)
    ensures NotedBy(log + [n], c) == if n.call == c then Some(n.status) else NotedBy(log, c)
  {
    assert (log + [n])[..|log|] == log;
  }

  predicate AllFit(s: System) {
    s.progress.Keys == s.engine.calls.Keys && forall c :: c in s.engine.calls ==> Fits(s.engine.calls[c], s.progress[c])
  }

  /** The log of the table is what the calls recorded, each under its own id. */
  predicate Logged(s: System) {
    && s.progress.Keys == s.engine.calls.Keys
    && (forall i :: 0 <= i < |s.table.log| ==>
          var n := s.table.log[i];
          n.call in s.engine.calls && s.engine.calls[n.call].requestId == n.id)
    && (forall c :: c in s.engine.calls ==> s.progress[c].noted == NotedBy(s.table.log, c))
  }

  ghost predicate Booked(s: System) { TableAgrees(s.table) && AllFit(s) && Logged(s) }

  /** Only call c moves on. */
  predicate OnlyMoves(s: System, s': System, c: Id) {
    && s.progress.Keys == s.engine.calls.Keys && s'.progress.Keys == s'.engine.calls.Keys == s.engine.calls.Keys + {c}
    && (forall x :: x in s.engine.calls && x != c ==>
          s'.engine.calls[x] == s.engine.calls[x] && s'.progress[x] == s.progress[x])
    && (c in s.engine.calls ==> s'.engine.calls[c].requestId == s.engine.calls[c].requestId)
  }

  lemma OneFits(s: System, s': System, c: Id)
    requires AllFit(s) && OnlyMoves(s, s', c) && Fits(s'.engine.calls[c], s'.progress[c])
    ensures AllFit(s')
  {
  }

  lemma LogStays(s: System, s': System, c: Id)
    requires Logged(s) && OnlyMoves(s, s', c) && s'.table.log == s.table.log
    requires s'.progress[c].noted == if c in s.engine.calls then s.progress[c].noted else None
    ensures Logged(s')
  {
    if c !in s.engine.calls { NeverNoted(s.table.log, c); }
  }

  lemma {:induction false} NeverNoted(log: seq<Note>, c: Id)
    requires forall i :: 0 <= i < |log| ==> log[i].call != c
    ensures NotedBy(log, c) == None
  {
    if log != [] { NeverNoted(log[..|log|-1], c); }
  }

  lemma LogGrows(s: System, s': System, n: Note)
    requires Logged(s) && OnlyMoves(s, s', n.call) && n.call in s.engine.calls && s.engine.calls[n.call].requestId == n.id
    requires s'.table.log == s.table.log + [n] && s'.progress[n.call].noted == Some(n.status)
    ensures Logged(s')
  {
    forall c | c in s'.engine.calls ensures s'.progress[c].noted == NotedBy(s'.table.log, c) {
      NotedBySnoc(s.table.log, n, c);
    }
  }

  lemma BookedOne(s: System, s': System, c: Id)
    requires Booked(s) && OnlyMoves(s, s', c) && Fits(s'.engine.calls[c], s'.progress[c]) && s'.table == s.table
    requires s'.progress[c].noted == if c in s.engine.calls then s.progress[c].noted else None
    ensures Booked(s')
  {
    OneFits(s, s', c);
    LogStays(s, s', c);
  }

  lemma OnlyItsCall(s: Engine.State, e: Engine.Event)
    requires Engine.Enabled(s, e) && e.OfCall() && !e.Begin?
    ensures var s' := Engine.Next(s, e);
            && s'.calls.Keys == s.calls.Keys && e.c in s.calls
            && s'.calls[e.c].requestId == s.calls[e.c].requestId
            && (forall x :: x in s.calls && x != e.c ==> s'.calls[x] == s.calls[x])
  {
  }

  lemma StepFits(s: System, e: Engine.Event)
    requires Engine.Owned(s.engine) && Booked(s) && Engine.Enabled(s.engine, e) && Ready(s, e) && e.OfCall()
    ensures e.c in ProgressAfter(s, e) && e.c in Engine.Next(s.engine, e).calls
    ensures Fits(Engine.Next(s.engine, e).calls[e.c], ProgressAfter(s, e)[e.c])
  {
    assert Fits(s.engine.calls[e.c], s.progress[e.c]);
    assert s.engine.calls[e.c].PhaseFits();
  }

  lemma OnlyItsProgress(s: System, e: Engine.Event)
    requires Engine.Enabled(s.engine, e) && Ready(s, e) && e.OfCall() && e.c in s.progress
    ensures var p := ProgressAfter(s, e);
            && p.Keys == s.progress.Keys && p[e.c].noted == s.progress[e.c].noted
            && forall x :: x in s.progress && x != e.c ==> p[x] == s.progress[x]
  {
  }

  lemma StepBooked(s: System, e: Engine.Event)
    requires Engine.Owned(s.engine) && Booked(s) && MayStep(s, e)
    ensures Booked(StepNext(s, e))
  {
    var s' := StepNext(s, e);
    if e.OfCall() {
      OnlyItsCall(s.engine, e);
      StepFits(s, e);
      OnlyItsProgress(s, e);
      BookedOne(s, s', e.c);
    } else {
      assert s'.engine.calls == s.engine.calls;
    }
  }

  lemma NoteBooked(s: System, c: Id, status: Status, at: int)
    requires Engine.Owned(s.engine) && Booked(s) && MayNote(s, c, status, at)
    ensures Booked(NoteNext(s, c, status, at))
  {
    var n := Note(s.engine.calls[c].requestId, c, status, at);
    assert Fits(s.engine.calls[c], s.progress[c]);
    assert s.engine.calls[c].PhaseFits();
    NoteFits(s.engine.calls[c], s.progress[c], status);
    NotedAgrees(s.table, n);
    OneFits(s, NoteNext(s, c, status, at), c);
    LogGrows(s, NoteNext(s, c, status, at), n);
  }

  lemma NoteFits(call: Engine.Call, p: Progress, status: Status)
    requires Fits(call, p) && call.PhaseFits() && MayRecord(call, p, status)
    ensures Fits(call, p.(noted := Some(status)))
  {
  }

  lemma GiveUpBooked(s: System, c: Id, why: Why)
    requires Booked(s) && MayGiveUp(s, c, why)
    ensures Booked(GiveUpNext(s, c, why))
  {
    BookedOne(s, GiveUpNext(s, c, why), c);
  }

  lemma CompleteBooked(s: System, c: Id, at: int)
    requires Engine.Owned(s.engine) && Booked(s) && MayComplete(s, c, at)
    ensures Booked(CompleteNext(s, c, at))
  {
    assert Fits(s.engine.calls[c], s.progress[c]);
    BookedOne(s, CompleteNext(s, c, at), c);
  }

  lemma EnterBooked(s: System, c: Id, id: string, key: CallKey, allowed: bool, at: int)
    requires Booked(s) && MayEnter(s, c, at)
    ensures Booked(EnterNext(s, c, id, key, allowed, at))
  {
    EnteredCalls(s.engine, c, id, allowed, Lookup(s.cache.entries, key.idempotencyKey, at));
    BookedOne(s, EnterNext(s, c, id, key, allowed, at), c);
  }

  // ----- Every run -----

  ghost predicate Inv(s: System) { Engine.Inv(s.engine) && Explained(s) && Booked(s) }

  lemma EnterInv(s: System, c: Id, id: string, key: CallKey, allowed: bool, at: int)
    requires Inv(s) && MayEnter(s, c, at)
    ensures Inv(EnterNext(s, c, id, key, allowed, at)) && SameMax(s, EnterNext(s, c, id, key, allowed, at))
  {
    EnteredInv(s.engine, c, id, allowed, Lookup(s.cache.entries, key.idempotencyKey, at));
    EnterExplained(s, c, id, key, allowed, at);
    EnterBooked(s, c, id, key, allowed, at);
  }

  predicate SameMax(s: System, s': System) { s'.engine.maxPendingRequests == s.engine.maxPendingRequests }

  lemma NoteInv(s: System, c: Id, status: Status, at: int)
    requires Inv(s) && MayNote(s, c, status, at)
    ensures Inv(NoteNext(s, c, status, at)) && SameMax(s, NoteNext(s, c, status, at))
  {
    NoteExplained(s, c, status, at);
    NoteBooked(s, c, status, at);
  }

  lemma StepInv(s: System, e: Engine.Event)
    requires Inv(s) && MayStep(s, e)
    ensures Inv(StepNext(s, e)) && SameMax(s, StepNext(s, e))
  {
    Engine.StepInv(s.engine, e);
    StepExplained(s, e, StepNext(s, e));
    StepBooked(s, e);
  }

  lemma GiveUpInv(s: System, c: Id, why: Why)
    requires Inv(s) && MayGiveUp(s, c, why)
    ensures Inv(GiveUpNext(s, c, why)) && SameMax(s, GiveUpNext(s, c, why))
  {
    Engine.StepInv(s.engine, Engine.Fail(c));
    StepExplained(s, Engine.Fail(c), GiveUpNext(s, c, why));
    GiveUpBooked(s, c, why);
  }

  lemma CompleteInv(s: System, c: Id, at: int)
    requires Inv(s) && MayComplete(s, c, at)
    ensures Inv(CompleteNext(s, c, at)) && SameMax(s, CompleteNext(s, c, at))
  {
    Engine.StepInv(s.engine, Engine.Store(c));
    CompleteExplained(s, c, at);
    CompleteBooked(s, c, at);
  }

  lemma NextInv(s: System, e: Event)
    requires Inv(s) && Enabled(s, e)
    ensures Inv(Next(s, e)) && SameMax(s, Next(s, e))
  {
    match e
    case Enter(c, id, key, allowed, at) => EnterInv(s, c, id, key, allowed, at);
    case Record(c, status, at) => NoteInv(s, c, status, at);
    case Step(ee) => StepInv(s, ee);
    case GiveUp(c, why) => GiveUpInv(s, c, why);
    case Complete(c, at) => CompleteInv(s, c, at);
    case Sweep(at, kept) => SweepExplained(s, at, kept);
    case SweepStatuses(at) => StatusSweepKeeps(s, at);
  }

  lemma StatusSweepKeeps(s: System, at: int)
    requires Explained(s) && Booked(s) && s.table.now <= at
    ensures Explained(s.(table := Swept(s.table, at))) && Booked(s.(table := Swept(s.table, at)))
  {
    ExplanationsStay(s, s.(table := Swept(s.table, at)));
    SweptAgrees(s.table, at);
  }

  lemma {:induction false} RunInv(s: System, es: seq<Event>)
    requires Inv(s) && IsRun(s, es)
    ensures Inv(Run(s, es)) && SameMax(s, Run(s, es))
    decreases |es|
  {
    if es != [] {
      NextInv(s, es[0]);
      RunInv(Next(s, es[0]), es[1..]);
    }
  }

  /** Every reply SendSync returns is explained: taken from the call's own channel it carries the call's
      request id; served from the cache it is the reply of the call that was the latest to complete with the
      same non-empty idempotency key, asked for inside its window, so it carries this call's request id
      exactly when the two calls share it. */
  lemma EveryReturnedReply(max: nat, es: seq<Event>, c: Id)
    requires IsRun(Init(max), es)
    ensures ReplyExplained(Run(Init(max), es), c)
  {
    InitInv(max);
    RunInv(Init(max), es);
    RepliesExplained(Run(Init(max), es), c);
  }

  ghost predicate ReplyExplained(s: System, c: Id) {
    c in s.engine.calls ==>
      match s.engine.calls[c].outcome
      case Fresh(h) =>
        h in s.engine.handlers && Engine.ReplyKey(s.engine.handlers[h].reply) == s.engine.calls[c].requestId
      case Cached(h) => CachedReply(s, c, h)
      case _ => true
  }

  lemma RepliesExplained(s: System, c: Id)
    requires Engine.Correlated(s.engine) && Explained(s)
    ensures ReplyExplained(s, c)
  {
    if c in s.engine.calls && s.engine.calls[c].outcome.Cached? { CacheAnswers(s, c); }
  }

  lemma CacheAnswers(s: System, c: Id)
    requires Engine.Correlated(s.engine) && Explained(s) && c in s.engine.calls && s.engine.calls[c].outcome.Cached?
    ensures CachedReply(s, c, s.engine.calls[c].outcome.handler)
  {
    assert AnswerExplained(s, c);
    assert LogEntryExplained(s, s.answers[c].entry);
    assert Engine.Delivered(s.engine, s.engine.calls[c].outcome.handler, s.completedBy[s.answers[c].entry]);
  }

  ghost predicate CachedReply(s: System, c: Id, h: Id) {
    && c in s.answers && 0 <= s.answers[c].entry < |s.completedBy| == |s.cache.log| && c in s.engine.calls && c in s.keys
    && h in s.engine.handlers
    && var a := s.answers[c];
       var first, key := s.completedBy[a.entry], s.keys[c].idempotencyKey;
       && first in s.engine.calls && first != c && s.engine.calls[first].outcome == Engine.Fresh(h)
       && first in s.keys && s.keys[first].idempotencyKey == key != ""
       && (forall j :: a.entry < j < a.seen && j < |s.cache.log| ==> s.cache.log[j].key != key)
       && (a.at < s.cache.log[a.entry].at + 60000 || a.at < s.cache.log[a.entry].at + 5 * s.cache.log[a.entry].timeoutMs)
       && (Engine.ReplyKey(s.engine.handlers[h].reply) == s.engine.calls[c].requestId
           <==> s.engine.calls[first].requestId == s.engine.calls[c].requestId)
  }

  /** When a call is answered from the cache: exactly when it is allowed and a call with its key has completed,
      the last of these inside its window and not pushed out by the capacity bound; and then with that reply.
      A call that is not allowed has failed at once, and every other call goes on to its first status. */
  lemma AnsweredFromCacheIff(max: nat, es: seq<Event>, c: Id, id: string, key: CallKey, allowed: bool, at: int)
    requires IsRun(Init(max), es) && MayEnter(Run(Init(max), es), c, at)
    ensures var s := Run(Init(max), es);
            var s' := EnterNext(s, c, id, key, allowed, at);
            c in s'.engine.calls &&
            var o := s'.engine.calls[c].outcome;
            var i := CacheHistory.LastFor(s.cache.log, key.idempotencyKey);
            && (o.Cached? <==> && allowed && key.idempotencyKey != "" && i >= 0
                               && (at < s.cache.log[i].at + 60000 || at < s.cache.log[i].at + 5 * s.cache.log[i].timeoutMs)
                               && i !in s.cache.evicted)
            && (o.Cached? ==> o == Engine.Cached(s.cache.log[i].response))
            && (!allowed ==> s'.engine.calls[c] == Engine.Call(id, Engine.Ended, Engine.Failed))
            && (allowed && !o.Cached? ==> s'.engine.calls[c] == Engine.Call(id, Engine.Preparing, Engine.Open))
  {
    InitInv(max);
    RunInv(Init(max), es);
    var s := Run(Init(max), es);
    CacheHistory.LookupIff(s.cache, key.idempotencyKey, at);
    EnteredCalls(s.engine, c, id, allowed, Lookup(s.cache.entries, key.idempotencyKey, at));
  }

  /** What the last status of an ended call says about it. */
  predicate Tells(noted: Option<Status>, call: Engine.Call, why: Option<Why>) {
    && (call.outcome.Failed? <==> why.Some?)
    && match noted {
         case None => call.outcome.Cached? || why == Some(Screened)
         case Some(Accepted) => why == Some(Refused)
         case Some(Routed) => why == Some(Cancelled)
         case Some(Responded) => call.outcome.Fresh?
         case Some(TimedOut) => why == Some(Late)
         case Some(Failed) => why == Some(Unpublished)
       }
  }

  lemma EndedTells(call: Engine.Call, p: Progress)
    requires Fits(call, p) && call.phase.Ended?
    ensures Tells(p.noted, call, p.why)
  {
  }

  predicate AloneUnderItsId(s: System, c: Id) {
    && c in s.engine.calls
    && forall d :: d in s.engine.calls && d != c ==> s.engine.calls[d].requestId != s.engine.calls[c].requestId
  }

  /** The table's entry under the id of call c: what the call recorded last and when, unless a sweep ran later
      than that record plus the retention; and nothing if it recorded nothing. */
  ghost predicate StatusOfCall(s: System, c: Id) {
    && c in s.engine.calls && c in s.progress
    && var id, i := s.engine.calls[c].requestId, LastUnder(s.table.log, s.engine.calls[c].requestId);
       && s.progress[c].noted == (if i < 0 then None else Some(s.table.log[i].status))
       && (i >= 0 ==> s.table.log[i].call == c)
       && (id in s.table.records <==> i >= 0 && !SweptAfter(s.table, s.table.log[i].at))
       && (id in s.table.records ==> s.table.records[id] == Standing(s.table.log[i].status, s.table.log[i].at))
  }

  /** Over every run, under an id that one call alone used stands what that call recorded last, and it is gone
      after a record if and only if a sweep ran later than the record plus the retention.  What the call
      recorded last fits where it is, and once it has ended tells how. */
  lemma StatusTellsCall(max: nat, es: seq<Event>, c: Id)
    requires IsRun(Init(max), es) && AloneUnderItsId(Run(Init(max), es), c)
    ensures var s := Run(Init(max), es);
            && StatusOfCall(s, c) && Fits(s.engine.calls[c], s.progress[c])
            && (s.engine.calls[c].phase.Ended? ==> Tells(s.progress[c].noted, s.engine.calls[c], s.progress[c].why))
  {
    InitInv(max);
    RunInv(Init(max), es);
    var s := Run(Init(max), es);
    TableTells(s, c);
    if s.engine.calls[c].phase.Ended? { EndedTells(s.engine.calls[c], s.progress[c]); }
  }

  lemma InitInv(max: nat)
    ensures Inv(Init(max))
  {
    var t := Init(max).table;
    forall id ensures AsRecorded(t, id) { assert LastUnder(t.log, id) == -1; }
  }

  lemma TableTells(s: System, c: Id)
    requires Booked(s) && AloneUnderItsId(s, c)
    ensures StatusOfCall(s, c) && Fits(s.engine.calls[c], s.progress[c])
  {
    var id := s.engine.calls[c].requestId;
    assert AsRecorded(s.table, id);
    forall i | 0 <= i < |s.table.log| ensures s.table.log[i].id == id <==> s.table.log[i].call == c {
      assert s.table.log[i].call in s.engine.calls;
    }
    LastIsOwn(s.table.log, id, c);
  }

  lemma {:induction false} LastIsOwn(log: seq<Note>, id: string, c: Id)
    requires forall i :: 0 <= i < |log| ==> (log[i].id == id <==> log[i].call == c)
    ensures var i := LastUnder(log, id);
            NotedBy(log, c) == if i < 0 then None else Some(log[i].status)
  {
    if log != [] { LastIsOwn(log[..|log|-1], id, c); }
  }
}
