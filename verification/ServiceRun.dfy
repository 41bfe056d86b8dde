/** The service object refines the system of interleaved calls: whatever one SendSync of the object does, alone,
    is a run of SendSyncSystem, with the same outcome, statuses, cache and pending ids. */
module ServiceRun {
  import opened Common
  import opened TransferStatus
  import opened IdempotencyCache
  import opened SendSyncSystem
  import opened SharedId
  import Engine = SyncEngine
  import Envelope
  import Service = DdDataService

  /** The messages that the handlers decoded. */
  type Messages = map<Id, Envelope.Message>

  predicate CacheMirrors(entries: map<string, Entry<Id>>, cache: map<string, Entry<Envelope.Message>>, msgs: Messages) {
    && entries.Keys == cache.Keys
    && forall k :: k in entries ==>
         entries[k].response in msgs && cache[k] == Entry(msgs[entries[k].response], entries[k].expireAt)
  }

  /** The system state stands for the books and the pending ids of the object. */
  predicate Represents(s: System, b: Service.Books, pending: map<string, Id>, msgs: Messages) {
    && s.table.records == Service.Standings(b.statuses) && CacheMirrors(s.cache.entries, b.cache, msgs)
    && s.engine.pendingRequests == pending
  }

  /** The call ended in the system as it did in the object. */
  predicate Mirrors(result: Service.SyncOutcome, call: Engine.Call, why: Option<Why>, msgs: Messages) {
    && call.phase.Ended?
    && match result {
         case Denied => call.outcome.Failed? && why == Some(Screened)
         case Invalid(_) => call.outcome.Failed? && why == Some(Screened)
         case FromCache(m) => call.outcome.Cached? && call.outcome.handler in msgs && msgs[call.outcome.handler] == m
         case Backpressure => call.outcome.Failed? && why == Some(Refused)
         case DuplicateRequest => call.outcome.Failed? && why == Some(Refused)
         case EncodeFailed => call.outcome.Failed? && why == Some(Unpublished)
         case PublishFailed => call.outcome.Failed? && why == Some(Unpublished)
         case Cancelled => call.outcome.Failed? && why == Some(Why.Cancelled)
         case Timeout => call.outcome.Failed? && why == Some(Late)
         case Answered(m) => call.outcome.Fresh? && call.outcome.handler in msgs && msgs[call.outcome.handler] == m
       }
  }

  /** A call that the system has not seen, and a handler that has not decoded anything. */
  predicate Unused(s: System, c: Id, h: Id, msgs: Messages) {
    && c !in s.engine.calls && c !in s.engine.channels && h !in s.engine.handlers && h !in msgs
  }

  predicate InTime(s: System, d: Service.Sending) { s.table.now <= d.now <= d.later && s.cache.now <= d.now }

  function KeyOfCall(d: Service.Sending): CallKey { CallKey(d.p.header.idempotencyKey, d.p.header.timeoutMs) }

  /** Where call c stands, in a state whose rest is that of s. */
  predicate Stands(s: System, t: System, c: Id, d: Service.Sending, call: Engine.Call, p: Progress) {
    && c in t.engine.calls && t.engine.calls[c] == call && c in t.progress && t.progress[c] == p
    && c in t.keys && t.keys[c] == KeyOfCall(d)
    && t.engine.handlers == s.engine.handlers && t.engine.maxPendingRequests == s.engine.maxPendingRequests
    && t.cache.entries == s.cache.entries && t.cache.now <= d.now
  }

  function Waiting(d: Service.Sending): Engine.Call { Engine.Call(d.p.header.requestId, Engine.InFlight, Engine.Open) }

  /** ... and it is registered and waits, with an empty channel. */
  predicate Parked(s: System, t: System, c: Id, d: Service.Sending, noted: Status) {
    && Stands(s, t, c, d, Waiting(d), Progress(Some(noted), None))
    && d.p.header.requestId !in s.engine.pendingRequests
    && t.engine.pendingRequests == s.engine.pendingRequests[d.p.header.requestId := c]
    && c in t.engine.channels && t.engine.channels[c] == []
  }

  /** The table holds the statuses of the books, as of the given time. */
  predicate InTable(t: System, b: Service.Books, now: int) { t.table.records == Service.Standings(b.statuses) && t.table.now <= now }

  lemma NoteMirrors(b: Service.Books, d: Service.Sending, status: Status, latencyMs: int, at: int)
    ensures Service.Standings(b.Note(d.p, status, latencyMs, at).statuses)
         == Service.Standings(b.statuses)[d.p.header.requestId := Standing(status, at)]
  {
  }

  // ----- The parts of a run -----

  /** The call enters: it ends at once if it is not allowed or the cache answers, and else stands before its first status. */
  lemma Enters(s: System, c: Id, d: Service.Sending, allowed: bool) returns (e: System)
    requires c !in s.engine.calls && c !in s.engine.channels && InTime(s, d)
    ensures e == EnterNext(s, c, d.p.header.requestId, KeyOfCall(d), allowed, d.now)
    ensures e.table == s.table && e.engine.pendingRequests == s.engine.pendingRequests
    ensures var hit := Lookup(s.cache.entries, d.p.header.idempotencyKey, d.now);
            && e.engine.handlers == s.engine.handlers && e.engine.maxPendingRequests == s.engine.maxPendingRequests
            && e.cache.entries == s.cache.entries
            && Stands(e, e, c, d,
                      if !allowed then Engine.Call(d.p.header.requestId, Engine.Ended, Engine.Failed)
                      else if hit.Some? then Engine.Call(d.p.header.requestId, Engine.Ended, Engine.Cached(hit.value))
                      else Engine.Call(d.p.header.requestId, Engine.Preparing, Engine.Open),
                      Progress(None, if allowed then None else Some(Screened)))
  {
    EnteredCalls(s.engine, c, d.p.header.requestId, allowed, Lookup(s.cache.entries, d.p.header.idempotencyKey, d.now));
    e := EnterNext(s, c, d.p.header.requestId, KeyOfCall(d), allowed, d.now);
  }

  lemma RecordsStatus(s: System, t: System, c: Id, d: Service.Sending, status: Status, at: int, b: Service.Books, latencyMs: int, id: string)
    returns (u: System)
    requires LeadsTo(s, t, id) && MayNote(t, c, status, at) && t.engine.calls[c].requestId == d.p.header.requestId
    requires InTable(t, b, at)
    ensures LeadsTo(s, u, id) && u == NoteNext(t, c, status, at) && InTable(u, b.Note(d.p, status, latencyMs, at), at)
  {
    LeadsOn(s, t, Record(c, status, at), id);
    u := NoteNext(t, c, status, at);
    NoteMirrors(b, d, status, latencyMs, at);
  }

  /** An invalid call ends without a trace. */
  lemma RejectedRun(e: System, c: Id, d: Service.Sending, id: string) returns (t: System)
    requires Stands(e, e, c, d, Engine.Call(d.p.header.requestId, Engine.Preparing, Engine.Open), Progress(None, None))
    ensures LeadsTo(e, t, id) && c in t.engine.calls && c in t.progress
    ensures t.engine.calls[c] == Engine.Call(d.p.header.requestId, Engine.Ended, Engine.Failed)
    ensures t.progress[c] == Progress(None, Some(Screened))
    ensures t.table == e.table && t.cache.entries == e.cache.entries && t.engine.pendingRequests == e.engine.pendingRequests
  {
    LeadsNowhere(e, id);
    LeadsByStep(e, e, Engine.Reject(c), id);
    t := StepNext(e, Engine.Reject(c));
  }

  lemma AcceptedRun(e: System, c: Id, d: Service.Sending, b: Service.Books, id: string) returns (t: System)
    requires Stands(e, e, c, d, Engine.Call(d.p.header.requestId, Engine.Preparing, Engine.Open), Progress(None, None))
    requires d.p.header.requestId != "" && InTable(e, b, d.now)
    ensures LeadsTo(e, t, id) && t.engine.pendingRequests == e.engine.pendingRequests
    ensures Stands(e, t, c, d, Engine.Call(d.p.header.requestId, Engine.Preparing, Engine.Open), Progress(Some(Accepted), None))
    ensures InTable(t, b.Note(d.p, Accepted, 0, d.now), d.now)
  {
    LeadsNowhere(e, id);
    t := RecordsStatus(e, e, c, d, Accepted, d.now, b, 0, id);
  }

  lemma RefusedRun(s: System, t: System, c: Id, d: Service.Sending, id: string) returns (u: System)
    requires LeadsTo(s, t, id) && d.p.header.requestId != ""
    requires Stands(s, t, c, d, Engine.Call(d.p.header.requestId, Engine.Preparing, Engine.Open), Progress(Some(Accepted), None))
    requires Engine.Admit(t.engine.pendingRequests, t.engine.maxPendingRequests, d.p.header.requestId) != Engine.Admitted
    ensures LeadsTo(s, u, id) && u.table == t.table && u.engine.pendingRequests == t.engine.pendingRequests
    ensures Stands(s, u, c, d, Engine.Call(d.p.header.requestId, Engine.Ended, Engine.Failed), Progress(Some(Accepted), Some(Refused)))
  {
    LeadsByStep(s, t, Engine.Register(c), id);
    u := StepNext(t, Engine.Register(c));
  }

  lemma AdmittedRun(s: System, t: System, c: Id, d: Service.Sending, id: string) returns (u: System)
    requires LeadsTo(s, t, id) && d.p.header.requestId != "" && t.engine.pendingRequests == s.engine.pendingRequests
    requires Stands(s, t, c, d, Engine.Call(d.p.header.requestId, Engine.Preparing, Engine.Open), Progress(Some(Accepted), None))
    requires Engine.Admit(t.engine.pendingRequests, t.engine.maxPendingRequests, d.p.header.requestId) == Engine.Admitted
    ensures LeadsTo(s, u, id) && u.table == t.table && Parked(s, u, c, d, Accepted)
  {
    LeadsByStep(s, t, Engine.Register(c), id);
    u := StepNext(t, Engine.Register(c));
  }

  lemma RoutedRun(s: System, t: System, c: Id, d: Service.Sending, b: Service.Books, id: string) returns (u: System)
    requires LeadsTo(s, t, id) && Parked(s, t, c, d, Accepted) && InTable(t, b, d.now)
    ensures LeadsTo(s, u, id) && Parked(s, u, c, d, Routed) && InTable(u, b.Note(d.p, Routed, 0, d.now), d.now)
  {
    u := RecordsStatus(s, t, c, d, Routed, d.now, b, 0, id);
  }

  /** The deferred delete gives the pending map back as it was. */
  lemma CleanRun(s: System, t: System, c: Id, id: string) returns (u: System)
    requires LeadsTo(s, t, id) && c in t.engine.calls && t.engine.calls[c].phase.Leaving? && c in t.progress
    requires t.progress[c].why.Some? ==> t.progress[c].noted == t.progress[c].why.value.Last()
    requires var own := t.engine.calls[c].requestId;
             own !in s.engine.pendingRequests && t.engine.pendingRequests == s.engine.pendingRequests[own := c]
    ensures LeadsTo(s, u, id) && u.table == t.table && u.cache == t.cache && u.engine.pendingRequests == s.engine.pendingRequests
    ensures c in u.engine.calls && u.engine.calls[c] == t.engine.calls[c].(phase := Engine.Ended) && u.progress == t.progress
  {
    LeadsByStep(s, t, Engine.Cleanup(c), id);
    u := StepNext(t, Engine.Cleanup(c));
  }

  /** A waiting call fails, records how, and leaves. */
  lemma FailedRun(s: System, t: System, c: Id, d: Service.Sending, why: Why, at: int, b: Service.Books, id: string) returns (u: System)
    requires LeadsTo(s, t, id) && Parked(s, t, c, d, Routed) && InTable(t, b, d.now) && d.now <= at && (why.Unpublished? || why.Late?)
    ensures LeadsTo(s, u, id) && InTable(u, b.Note(d.p, why.Last().value, 0, at), at)
    ensures u.cache.entries == s.cache.entries && u.engine.pendingRequests == s.engine.pendingRequests
    ensures c in u.engine.calls && u.engine.calls[c] == Engine.Call(d.p.header.requestId, Engine.Ended, Engine.Failed)
    ensures c in u.progress && u.progress[c].why == Some(why)
  {
    LeadsByGivingUp(s, t, c, why, id);
    var g := GiveUpNext(t, c, why);
    var r := RecordsStatus(s, g, c, d, why.Last().value, at, b, 0, id);
    u := CleanRun(s, r, c, id);
  }

  lemma CancelledRun(s: System, t: System, c: Id, d: Service.Sending, id: string) returns (u: System)
    requires LeadsTo(s, t, id) && Parked(s, t, c, d, Routed)
    ensures LeadsTo(s, u, id) && u.table == t.table
    ensures u.cache.entries == s.cache.entries && u.engine.pendingRequests == s.engine.pendingRequests
    ensures c in u.engine.calls && u.engine.calls[c] == Engine.Call(d.p.header.requestId, Engine.Ended, Engine.Failed)
    ensures c in u.progress && u.progress[c].why == Some(Why.Cancelled)
  {
    LeadsByGivingUp(s, t, c, Why.Cancelled, id);
    u := CleanRun(s, GiveUpNext(t, c, Why.Cancelled), c, id);
  }

  /** A handler decodes the reply, finds the waiting call, and fills its channel. */
  lemma DeliveredRun(s: System, t: System, c: Id, h: Id, d: Service.Sending, reply: Engine.Reply, id: string) returns (u: System)
    requires LeadsTo(s, t, id) && Parked(s, t, c, d, Routed) && h !in s.engine.handlers
    requires Engine.ReplyKey(reply) == d.p.header.requestId != ""
    ensures LeadsTo(s, u, id) && u.table == t.table && u.cache == t.cache && u.keys == t.keys && u.progress == t.progress
    ensures u.engine == t.engine.(channels := t.engine.channels[c := [h]], handlers := u.engine.handlers)
  {
    var f := FoundRun(s, t, c, h, d, reply, id);
    LeadsByStep(s, f, Engine.TrySend(h), id);
    u := StepNext(f, Engine.TrySend(h));
  }

  lemma FoundRun(s: System, t: System, c: Id, h: Id, d: Service.Sending, reply: Engine.Reply, id: string) returns (u: System)
    requires LeadsTo(s, t, id) && h !in t.engine.handlers && Engine.ReplyKey(reply) == d.p.header.requestId != ""
    requires d.p.header.requestId in t.engine.pendingRequests && t.engine.pendingRequests[d.p.header.requestId] == c
    ensures LeadsTo(s, u, id)
    ensures u == t.(engine := t.engine.(handlers := t.engine.handlers[h := Engine.Handler(reply, Engine.Sending, c)]))
  {
    LeadsByStep(s, t, Engine.Arrive(h, reply), id);
    var a := StepNext(t, Engine.Arrive(h, reply));
    LeadsByStep(s, a, Engine.Look(h), id);
    u := StepNext(a, Engine.Look(h));
  }

  /** The waiter takes the reply, records, stores it in the cache, and leaves. */
  lemma TakenRun(s: System, t: System, c: Id, h: Id, d: Service.Sending, b: Service.Books, id: string) returns (u: System)
    requires LeadsTo(s, t, id) && InTable(t, b, d.now) && d.now <= d.later
    requires c in t.engine.calls && t.engine.calls[c] == Waiting(d) && c in t.progress && t.progress[c] == Progress(Some(Routed), None)
    requires c in t.keys && t.keys[c] == KeyOfCall(d) && t.cache.entries == s.cache.entries && t.cache.now <= d.now
    requires d.p.header.requestId !in s.engine.pendingRequests
    requires t.engine.pendingRequests == s.engine.pendingRequests[d.p.header.requestId := c]
    requires c in t.engine.channels && t.engine.channels[c] == [h]
    ensures LeadsTo(s, u, id) && InTable(u, b.Note(d.p, Responded, d.later - d.now, d.later), d.later)
    ensures u.engine.pendingRequests == s.engine.pendingRequests
    ensures u.cache.entries == Stored(s.cache.entries, Completion(d.p.header.idempotencyKey, h, d.p.header.timeoutMs, d.later))
    ensures c in u.engine.calls && u.engine.calls[c] == Engine.Call(d.p.header.requestId, Engine.Ended, Engine.Fresh(h))
    ensures c in u.progress
  {
    LeadsByStep(s, t, Engine.Take(c), id);
    var k := StepNext(t, Engine.Take(c));
    var r := RecordsStatus(s, k, c, d, Responded, d.later, b, d.later - d.now, id);
    LeadsOn(s, r, Complete(c, d.later), id);
    u := CleanRun(s, CompleteNext(r, c, d.later), c, id);
  }

  lemma StoredMirrors(entries: map<string, Entry<Id>>, cache: map<string, Entry<Envelope.Message>>, msgs: Messages, h: Id,
                      m: Envelope.Message, key: string, timeoutMs: int, at: int)
    requires CacheMirrors(entries, cache, msgs) && h !in msgs
    ensures CacheMirrors(Stored(entries, Completion(key, h, timeoutMs, at)), Stored(cache, Completion(key, m, timeoutMs, at)), msgs[h := m])
  {
  }

  // ----- The whole call -----

  /** A registered call ends in the system as Exchanged says. */
  lemma ExchangedRun(s: System, t: System, c: Id, h: Id, d: Service.Sending, b: Service.Books, msgs: Messages, id: string)
    returns (u: System, msgs': Messages)
    requires LeadsTo(s, t, id) && Parked(s, t, c, d, Accepted) && InTable(t, b, d.now) && d.now <= d.later
    requires CacheMirrors(s.cache.entries, b.cache, msgs) && h !in s.engine.handlers && h !in msgs && d.p.header.requestId != ""
    requires d.arrived.Some? ==> Service.KeyOf(d.arrived.value) == d.p.header.requestId
    ensures LeadsTo(s, u, id) && Done(s, u, c, Service.Exchanged(b, d), msgs')
  {
    var r := RoutedRun(s, t, c, d, b, id);
    var routed := b.Note(d.p, Routed, 0, d.now);
    if d.wire.None? || d.publishFails || d.arrived.None? {
      u := UnansweredRun(s, r, c, d, routed, msgs, id);
      msgs' := msgs;
    } else {
      u := AnsweredRun(s, r, c, h, d, routed, msgs, id);
      msgs' := msgs[h := d.arrived.value];
    }
    ExchangedUnfolds(b, d);
  }

  /** What is left of an exchange once the call has been routed. */
  function Rest(routed: Service.Books, d: Service.Sending): (Service.Books, Service.SyncOutcome) {
    if d.wire.None? then (routed.Note(d.p, Failed, 0, d.now), Service.EncodeFailed)
    else if d.publishFails then (routed.Note(d.p, Failed, 0, d.now), Service.PublishFailed)
    else Service.Settled(routed.(published := routed.published + [(d.topic, d.wire.value)]), d, d.arrived)
  }

  lemma ExchangedUnfolds(b: Service.Books, d: Service.Sending)
    ensures Service.Exchanged(b, d) == Rest(b.Note(d.p, Routed, 0, d.now), d)
  {
  }

  lemma UnansweredRun(s: System, t: System, c: Id, d: Service.Sending, routed: Service.Books, msgs: Messages, id: string)
    returns (u: System)
    requires LeadsTo(s, t, id) && Parked(s, t, c, d, Routed) && InTable(t, routed, d.now) && d.now <= d.later
    requires CacheMirrors(s.cache.entries, routed.cache, msgs) && (d.wire.None? || d.publishFails || d.arrived.None?)
    ensures LeadsTo(s, u, id) && Done(s, u, c, Rest(routed, d), msgs)
  {
    if d.wire.None? || d.publishFails {
      u := UnpublishedRun(s, t, c, d, routed, msgs, id);
    } else {
      u := UnheardRun(s, t, c, d, routed, msgs, id);
    }
  }

  lemma UnpublishedRun(s: System, t: System, c: Id, d: Service.Sending, routed: Service.Books, msgs: Messages, id: string)
    returns (u: System)
    requires LeadsTo(s, t, id) && Parked(s, t, c, d, Routed) && InTable(t, routed, d.now)
    requires CacheMirrors(s.cache.entries, routed.cache, msgs) && (d.wire.None? || d.publishFails)
    ensures LeadsTo(s, u, id) && Done(s, u, c, Rest(routed, d), msgs)
  {
    u := FailedRun(s, t, c, d, Unpublished, d.now, routed, id);
    FailureIsDone(s, u, c, d, routed, msgs);
  }

  lemma UnheardRun(s: System, t: System, c: Id, d: Service.Sending, routed: Service.Books, msgs: Messages, id: string)
    returns (u: System)
    requires LeadsTo(s, t, id) && Parked(s, t, c, d, Routed) && InTable(t, routed, d.now) && d.now <= d.later
    requires CacheMirrors(s.cache.entries, routed.cache, msgs) && d.wire.Some? && !d.publishFails && d.arrived.None?
    ensures LeadsTo(s, u, id) && Done(s, u, c, Rest(routed, d), msgs)
  {
    if d.waiting.ctxDone {
      u := CancelledRun(s, t, c, d, id);
      FailureIsDone(s, u, c, d, routed, msgs);
    } else {
      u := FailedRun(s, t, c, d, Late, d.later, routed, id);
      FailureIsDone(s, u, c, d, routed, msgs);
    }
  }

  /** What the books hold, and how the call ended, when no reply was taken. */
  lemma FailureIsDone(s: System, u: System, c: Id, d: Service.Sending, routed: Service.Books, msgs: Messages)
    requires d.wire.None? || d.publishFails || d.arrived.None?
    requires CacheMirrors(s.cache.entries, routed.cache, msgs) && u.cache.entries == s.cache.entries
    requires u.engine.pendingRequests == s.engine.pendingRequests
    requires c in u.engine.calls && u.engine.calls[c].phase.Ended? && u.engine.calls[c].outcome.Failed? && c in u.progress
    requires if d.wire.None? || d.publishFails then
               u.progress[c].why == Some(Unpublished) && u.table.records == Service.Standings(routed.Note(d.p, Failed, 0, d.now).statuses)
             else if d.waiting.ctxDone then
               u.progress[c].why == Some(Why.Cancelled) && u.table.records == Service.Standings(routed.statuses)
             else
               u.progress[c].why == Some(Late) && u.table.records == Service.Standings(routed.Note(d.p, TimedOut, 0, d.later).statuses)
    ensures Done(s, u, c, Rest(routed, d), msgs)
  {
  }

  lemma AnswerIsDone(s: System, u: System, c: Id, h: Id, d: Service.Sending, routed: Service.Books, msgs: Messages)
    requires d.wire.Some? && !d.publishFails && d.arrived.Some? && h !in msgs && CacheMirrors(s.cache.entries, routed.cache, msgs)
    requires u.engine.pendingRequests == s.engine.pendingRequests
    requires u.table.records == Service.Standings(routed.Note(d.p, Responded, d.later - d.now, d.later).statuses)
    requires u.cache.entries == Stored(s.cache.entries, Completion(d.p.header.idempotencyKey, h, d.p.header.timeoutMs, d.later))
    requires c in u.engine.calls && u.engine.calls[c] == Engine.Call(d.p.header.requestId, Engine.Ended, Engine.Fresh(h)) && c in u.progress
    ensures Done(s, u, c, Rest(routed, d), msgs[h := d.arrived.value])
  {
    StoredMirrors(s.cache.entries, routed.cache, msgs, h, d.arrived.value, d.p.header.idempotencyKey, d.p.header.timeoutMs, d.later);
  }

  lemma AnsweredRun(s: System, t: System, c: Id, h: Id, d: Service.Sending, routed: Service.Books, msgs: Messages, id: string)
    returns (u: System)
    requires LeadsTo(s, t, id) && Parked(s, t, c, d, Routed) && InTable(t, routed, d.now) && d.now <= d.later
    requires CacheMirrors(s.cache.entries, routed.cache, msgs) && h !in s.engine.handlers && h !in msgs
    requires d.wire.Some? && !d.publishFails && d.arrived.Some? && d.p.header.requestId != ""
    requires Service.KeyOf(d.arrived.value) == d.p.header.requestId
    ensures LeadsTo(s, u, id) && Done(s, u, c, Rest(routed, d), msgs[h := d.arrived.value])
  {
    var m := d.arrived.value;
    var q := DeliveredRun(s, t, c, h, d, Engine.Reply(m.header.correlationId, m.header.requestId), id);
    u := TakenRun(s, q, c, h, d, routed, id);
    AnswerIsDone(s, u, c, h, d, routed, msgs);
  }

  /** The system stands for what the object has become, and the call for what it returned. */
  predicate Done(s: System, u: System, c: Id, after: (Service.Books, Service.SyncOutcome), msgs: Messages) {
    && Represents(u, after.0, s.engine.pendingRequests, msgs)
    && c in u.engine.calls && c in u.progress && Mirrors(after.1, u.engine.calls[c], u.progress[c].why, msgs)
  }

  lemma CalledRun(e: System, c: Id, h: Id, d: Service.Sending, b: Service.Books, msgs: Messages, id: string)
    returns (u: System, msgs': Messages)
    requires Represents(e, b, e.engine.pendingRequests, msgs) && h !in e.engine.handlers && h !in msgs
    requires Stands(e, e, c, d, Engine.Call(d.p.header.requestId, Engine.Preparing, Engine.Open), Progress(None, None))
    requires d.p.header.requestId != "" && e.table.now <= d.now <= d.later
    requires d.arrived.Some? ==> Service.KeyOf(d.arrived.value) == d.p.header.requestId
    ensures var admission := Engine.Admit(e.engine.pendingRequests, e.engine.maxPendingRequests, d.p.header.requestId);
            LeadsTo(e, u, id) && Done(e, u, c, Service.Called(b, admission, d), msgs')
  {
    var accepted := b.Note(d.p, Accepted, 0, d.now);
    var t := AcceptedRun(e, c, d, b, id);
    if Engine.Admit(e.engine.pendingRequests, e.engine.maxPendingRequests, d.p.header.requestId) == Engine.Admitted {
      var r := AdmittedRun(e, t, c, d, id);
      u, msgs' := ExchangedRun(e, r, c, h, d, accepted, msgs, id);
    } else {
      u := RefusedRun(e, t, c, d, id);
      msgs' := msgs;
    }
  }

  lemma LookupMirrors(entries: map<string, Entry<Id>>, cache: map<string, Entry<Envelope.Message>>, msgs: Messages, key: string, now: int)
    requires CacheMirrors(entries, cache, msgs)
    ensures Lookup(entries, key, now).Some? <==> Lookup(cache, key, now).Some?
    ensures Lookup(entries, key, now).Some? ==>
              Lookup(entries, key, now).value in msgs && Lookup(cache, key, now).value == msgs[Lookup(entries, key, now).value]
  {
  }

  /** The checks before registration end a call without a trace. */
  lemma ScreenedRun(s: System, c: Id, d: Service.Sending, allowed: bool, b: Service.Books, msgs: Messages, id: string)
    returns (u: System)
    requires Represents(s, b, s.engine.pendingRequests, msgs) && c !in s.engine.calls && c !in s.engine.channels && InTime(s, d)
    requires Service.Screen(allowed, Lookup(b.cache, d.p.header.idempotencyKey, d.now), d.p).Some?
    ensures LeadsTo(EnterNext(s, c, d.p.header.requestId, KeyOfCall(d), allowed, d.now), u, id)
    ensures Done(s, u, c, (b, Service.Screen(allowed, Lookup(b.cache, d.p.header.idempotencyKey, d.now), d.p).value), msgs)
  {
    LookupMirrors(s.cache.entries, b.cache, msgs, d.p.header.idempotencyKey, d.now);
    var e := Enters(s, c, d, allowed);
    if !allowed || Lookup(s.cache.entries, d.p.header.idempotencyKey, d.now).Some? {
      u := e;
      LeadsNowhere(e, id);
    } else {
      u := RejectedRun(e, c, d, id);
    }
  }

  lemma FirstThen(s: System, first: Event, u: System, id: string)
    requires Enabled(s, first) && LeadsTo(Next(s, first), u, id)
    ensures exists es :: es != [] && es[0] == first && IsRun(s, es) && Run(s, es) == u
  {
    var es :| IsRun(Next(s, first), es) && NoNewcomer(es, id) && Run(Next(s, first), es) == u;
    var all := [first] + es;
    assert all[1..] == es && all[0] == first;
    assert IsRun(s, all) && Run(s, all) == u;
  }

  /** From every state of the system that stands for the object, whatever other calls are in flight in it, the
      object's SendSync is a run of the system, in which the call enters first, as allowed exactly if access
      control allowed it: to a state that stands for the object afterwards, in which the call has ended as the
      object says it did. */
  lemma SendSyncIsARun(s: System, c: Id, h: Id, d: Service.Sending, allowed: bool, b: Service.Books, msgs: Messages)
    returns (u: System, msgs': Messages)
    requires Represents(s, b, s.engine.pendingRequests, msgs) && Unused(s, c, h, msgs) && InTime(s, d)
    requires d.arrived.Some? ==> Service.KeyOf(d.arrived.value) == d.p.header.requestId
    ensures var admission := Engine.Admit(s.engine.pendingRequests, s.engine.maxPendingRequests, d.p.header.requestId);
            && (exists es :: && es != [] && es[0] == Enter(c, d.p.header.requestId, KeyOfCall(d), allowed, d.now)
                             && IsRun(s, es) && Run(s, es) == u)
            && Done(s, u, c, Service.SyncCall(b, allowed, admission, d), msgs')
  {
    LookupMirrors(s.cache.entries, b.cache, msgs, d.p.header.idempotencyKey, d.now);
    msgs' := msgs;
    if Service.Screen(allowed, Lookup(b.cache, d.p.header.idempotencyKey, d.now), d.p).Some? {
      u := ScreenedRun(s, c, d, allowed, b, msgs, "");
    } else {
      var e := Enters(s, c, d, allowed);
      u, msgs' := CalledRun(e, c, h, d, b, msgs, "");
    }
    FirstThen(s, Enter(c, d.p.header.requestId, KeyOfCall(d), allowed, d.now), u, "");
  }

  /** A service that has just started is such a state. */
  lemma StartRepresents(max: nat)
    ensures Represents(Init(max), Service.Books(map[], map[], []), map[], map[])
  {
    assert Service.Standings(map[]) == map[];
  }
}
