/** The synchronous request/reply engine as a step system: any number of SendSync calls
    and any number of concurrent reply handlers.

    Each event is one atomic step: a mutex-protected block or one channel operation.
    A call's reply channel is named by the call that made it, and a reply is named by the
    handler invocation that decoded it: the channels carry pointers to those messages. */
module SyncEngine {
  import opened IdempotencyCache

  /** Names of calls (and of their channels) and of handler invocations (and of their messages). */
  type Id = int

  datatype Reply = Reply(correlationId: string, requestId: string)

  /** The id a reply handler looks up: the correlation id, else the request id. */
  function ReplyKey(r: Reply): string {
    if r.correlationId != "" then r.correlationId else r.requestId
  }

  datatype Outcome = Open | Fresh(handler: Id) | Cached(handler: Id) | Failed

  datatype Phase =
    | Preparing     // before registration
    | InFlight      // registered: encoding, publishing, or waiting
    | Storing       // a reply was taken, not yet in the cache
    | Leaving       // only the deferred delete is left
    | Ended
  {
    predicate Registered() { InFlight? || Storing? || Leaving? }
  }

  datatype Call = Call(requestId: string, phase: Phase, outcome: Outcome) {
    predicate PhaseFits() {
      && ((phase.Preparing? || phase.InFlight?) <==> outcome.Open?)
      && (phase.Storing? ==> outcome.Fresh?)
      && (outcome.Cached? ==> phase.Ended?)
    }
  }

  datatype Pc = Looking | Sending | Draining | Resending | Finished | Dropped {
    predicate Holds() { Sending? || Draining? || Resending? || Finished? }

    /** Past the first channel operation. */
    predicate Tried() { Draining? || Resending? || Finished? }
  }

  /** A reply handler: its decoded message, where it is, and the channel it found (if it holds one). */
  datatype Handler = Handler(reply: Reply, pc: Pc, ch: Id)

  datatype State = State(
    maxPendingRequests: nat,
    pendingRequests: map<string, Id>,
    channels: map<Id, seq<Id>>,
    calls: map<Id, Call>,
    handlers: map<Id, Handler>)

  datatype Event =
    | Begin(c: Id, requestId: string)
    | Answer(c: Id, hit: Id)      // idempotency cache hit
    | Reject(c: Id)                // access control or validation failed before registration
    | Register(c: Id)
    | Fail(c: Id)                  // encode or publish error, cancellation, or timeout
    | Take(c: Id)
    | Store(c: Id)                 // the reply goes into the idempotency cache
    | Cleanup(c: Id)               // the deferred delete
    | Arrive(h: Id, reply: Reply)
    | Look(h: Id)
    | TrySend(h: Id)
    | Drain(h: Id)
    | Resend(h: Id)
  {
    predicate OfCall() { Begin? || Answer? || Reject? || Register? || Fail? || Take? || Store? || Cleanup? }
  }

  // The atomic operations, shared with the service class.

  datatype Admission = Admitted | Backpressure | Duplicate

  function Admit(pending: map<string, Id>, max: nat, requestId: string): Admission {
    if |pending| >= max then Backpressure else if requestId in pending then Duplicate else Admitted
  }

  /** A non-blocking send on a channel of capacity one. */
  function Offered<T>(buf: seq<T>, x: T): seq<T> { if |buf| == 0 then [x] else buf }

  /** A non-blocking receive whose value is thrown away. */
  function Drained<T>(buf: seq<T>): seq<T> { if |buf| == 0 then buf else buf[1..] }

  function Init(max: nat): State { State(max, map[], map[], map[], map[]) }

  predicate InPhase(s: State, c: Id, p: Phase) { c in s.calls && s.calls[c].phase == p }

  function SetCall(s: State, c: Id, p: Phase, o: Outcome): State
    requires c in s.calls
  {
    s.(calls := s.calls[c := s.calls[c].(phase := p, outcome := o)])
  }

  predicate AtPc(s: State, h: Id, pc: Pc) { h in s.handlers && s.handlers[h].pc == pc }

  /** A channel operation of handler h that leaves buf in its channel. */
  function ChannelStep(s: State, h: Id, buf: seq<Id>, pc: Pc): State
    requires h in s.handlers
  {
    var hd := s.handlers[h];
    s.(channels := s.channels[hd.ch := buf], handlers := s.handlers[h := hd.(pc := pc)])
  }

  predicate Enabled(s: State, e: Event) {
    match e
    case Begin(c, _) => c !in s.calls && c !in s.channels
    case Answer(c, _) => InPhase(s, c, Preparing)
    case Reject(c) => InPhase(s, c, Preparing)
    case Register(c) => InPhase(s, c, Preparing) && s.calls[c].requestId != ""
    case Fail(c) => InPhase(s, c, InFlight)
    case Take(c) => InPhase(s, c, InFlight) && c in s.channels && s.channels[c] != []
    case Store(c) => InPhase(s, c, Storing)
    case Cleanup(c) => InPhase(s, c, Leaving)
    case Arrive(h, reply) => h !in s.handlers && ReplyKey(reply) != ""
    case Look(h) => AtPc(s, h, Looking)
    case TrySend(h) => AtPc(s, h, Sending) && s.handlers[h].ch in s.channels
    case Drain(h) => AtPc(s, h, Draining) && s.handlers[h].ch in s.channels
    case Resend(h) => AtPc(s, h, Resending) && s.handlers[h].ch in s.channels
  }

  function Next(s: State, e: Event): State
    requires Enabled(s, e)
  {
    match e
    case Begin(c, id) => s.(calls := s.calls[c := Call(id, Preparing, Open)])
    case Answer(c, hit) => SetCall(s, c, Ended, Cached(hit))
    case Reject(c) => SetCall(s, c, Ended, Failed)
    case Register(c) =>
      var id := s.calls[c].requestId;
      if Admit(s.pendingRequests, s.maxPendingRequests, id) == Admitted then
        SetCall(s.(channels := s.channels[c := []], pendingRequests := s.pendingRequests[id := c]), c, InFlight, Open)
      else SetCall(s, c, Ended, Failed)
    case Fail(c) => SetCall(s, c, Leaving, Failed)
    case Take(c) =>
      SetCall(s.(channels := s.channels[c := s.channels[c][1..]]), c, Storing, Fresh(s.channels[c][0]))
    case Store(c) => SetCall(s, c, Leaving, s.calls[c].outcome)
    case Cleanup(c) =>
      SetCall(s.(pendingRequests := s.pendingRequests - {s.calls[c].requestId}), c, Ended, s.calls[c].outcome)
    case Arrive(h, reply) => s.(handlers := s.handlers[h := Handler(reply, Looking, 0)])
    case Look(h) =>
      var hd := s.handlers[h];
      var key := ReplyKey(hd.reply);
      s.(handlers := s.handlers[h := if key in s.pendingRequests then hd.(pc := Sending, ch := s.pendingRequests[key])
                                     else hd.(pc := Dropped)])
    case TrySend(h) =>
      var buf := s.channels[s.handlers[h].ch];
      ChannelStep(s, h, Offered(buf, h), if buf == [] then Finished else Draining)
    case Drain(h) => ChannelStep(s, h, Drained(s.channels[s.handlers[h].ch]), Resending)
    case Resend(h) => ChannelStep(s, h, Offered(s.channels[s.handlers[h].ch], h), Finished)
  }

  predicate IsRun(s: State, es: seq<Event>)
    decreases |es|
  {
    es == [] || (Enabled(s, es[0]) && IsRun(Next(s, es[0]), es[1..]))
  }

  function Run(s: State, es: seq<Event>): State
    requires IsRun(s, es)
    decreases |es|
  {
    if es == [] then s else Run(Next(s, es[0]), es[1..])
  }

  // ----- The invariant -----

  /** The pending map is exactly the registered calls, one entry each, within the bound. */
  ghost predicate Owned(s: State) {
    && |s.pendingRequests| <= s.maxPendingRequests
    && (forall id :: id in s.pendingRequests ==>
          var c := s.pendingRequests[id];
          c in s.calls && s.calls[c].phase.Registered() && s.calls[c].requestId == id)
    && (forall c :: c in s.calls && s.calls[c].phase.Registered() ==>
          && s.calls[c].requestId in s.pendingRequests && s.pendingRequests[s.calls[c].requestId] == c
          && c in s.channels)
    && (forall c :: c in s.channels ==> c in s.calls && !s.calls[c].phase.Preparing?)
    && (forall c :: c in s.calls ==> s.calls[c].PhaseFits())
  }

  /** Handler h has put its reply into channel c, which it found under its own key. */
  ghost predicate Delivered(s: State, h: Id, c: Id) {
    h in s.handlers && s.handlers[h].pc.Tried() && s.handlers[h].ch == c
  }

  /** Handlers only hold channels of calls with their key, and a channel only carries,
      and a waiter only takes, replies of handlers that hold that channel. */
  ghost predicate Correlated(s: State) {
    && (forall h :: h in s.handlers && s.handlers[h].pc.Holds() ==>
          var c := s.handlers[h].ch;
          c in s.channels && c in s.calls && s.calls[c].requestId == ReplyKey(s.handlers[h].reply))
    && (forall c :: c in s.channels ==> |s.channels[c]| <= 1)
    && (forall c :: c in s.channels && s.channels[c] != [] ==> Delivered(s, s.channels[c][0], c))
    && (forall c :: c in s.calls && s.calls[c].outcome.Fresh? ==> Delivered(s, s.calls[c].outcome.handler, c))
  }

  ghost predicate SomeoneResending(s: State, c: Id) {
    exists h :: AtPc(s, h, Resending) && s.handlers[h].ch == c
  }

  /** A reply was taken from channel c, or is in it, or a handler is about to send one to it. */
  ghost predicate ReplyAvailable(s: State, c: Id) {
    || (c in s.calls && s.calls[c].outcome.Fresh?)
    || (c in s.channels && s.channels[c] != [])
    || SomeoneResending(s, c)
  }

  ghost predicate NoLostReply(s: State) {
    forall h :: h in s.handlers && s.handlers[h].pc.Tried() ==> ReplyAvailable(s, s.handlers[h].ch)
  }

  ghost predicate Inv(s: State) { Owned(s) && Correlated(s) && NoLostReply(s) }

  // ----- Every step keeps it -----

  lemma OwnedSetCall(s: State, c: Id, p: Phase, o: Outcome)
    requires Owned(s) && c in s.calls && !p.Preparing? && p.Registered() == s.calls[c].phase.Registered()
    requires s.calls[c].(phase := p, outcome := o).PhaseFits()
    ensures Owned(SetCall(s, c, p, o))
  {
  }

  lemma OwnedAdmit(s: State, c: Id)
    requires Owned(s) && InPhase(s, c, Preparing)
    requires Admit(s.pendingRequests, s.maxPendingRequests, s.calls[c].requestId) == Admitted
    ensures var id := s.calls[c].requestId;
            Owned(SetCall(s.(channels := s.channels[c := []], pendingRequests := s.pendingRequests[id := c]), c, InFlight, Open))
  {
    var id := s.calls[c].requestId;
    var s' := SetCall(s.(channels := s.channels[c := []], pendingRequests := s.pendingRequests[id := c]), c, InFlight, Open);
    forall x | x in s'.calls && s'.calls[x].phase.Registered()
      ensures && s'.calls[x].requestId in s'.pendingRequests && s'.pendingRequests[s'.calls[x].requestId] == x
              && x in s'.channels
    {
      if x != c { assert s.calls[x].phase.Registered() && s.calls[x].requestId != id; }
    }
    forall k | k in s'.pendingRequests
      ensures var x := s'.pendingRequests[k];
              x in s'.calls && s'.calls[x].phase.Registered() && s'.calls[x].requestId == k
    {
      if k != id { assert s.pendingRequests[k] != c; }
    }
  }

  lemma OwnedRegister(s: State, c: Id)
    requires Owned(s) && Enabled(s, Register(c))
    ensures Owned(Next(s, Register(c)))
  {
    if Admit(s.pendingRequests, s.maxPendingRequests, s.calls[c].requestId) == Admitted {
      OwnedAdmit(s, c);
    } else {
      OwnedSetCall(s, c, Ended, Failed);
    }
  }

  lemma OwnedCleanup(s: State, c: Id)
    requires Owned(s) && Enabled(s, Cleanup(c))
    ensures Owned(Next(s, Cleanup(c)))
  {
    var s' := Next(s, Cleanup(c));
    SubsetSize(s'.pendingRequests.Keys, s.pendingRequests.Keys);
    assert |s'.pendingRequests| == |s'.pendingRequests.Keys| && |s.pendingRequests| == |s.pendingRequests.Keys|;
  }

  lemma OwnedStep(s: State, e: Event)
    requires Owned(s) && Enabled(s, e)
    ensures Owned(Next(s, e))
  {
    match e
    case Answer(c, hit) => OwnedSetCall(s, c, Ended, Cached(hit));
    case Reject(c) => OwnedSetCall(s, c, Ended, Failed);
    case Register(c) => OwnedRegister(s, c);
    case Fail(c) => OwnedSetCall(s, c, Leaving, Failed);
    case Take(c) =>
      OwnedSetCall(s.(channels := s.channels[c := s.channels[c][1..]]), c, Storing, Fresh(s.channels[c][0]));
    case Store(c) => OwnedSetCall(s, c, Leaving, s.calls[c].outcome);
    case Cleanup(c) => OwnedCleanup(s, c);
    case _ =>
  }

  lemma CorrelatedSetCall(s: State, c: Id, p: Phase, o: Outcome)
    requires Correlated(s) && c in s.calls
    requires o.Fresh? ==> Delivered(s, o.handler, c)
    ensures Correlated(SetCall(s, c, p, o))
  {
  }

  lemma CorrelatedChannelStep(s: State, h: Id, buf: seq<Id>, pc: Pc)
    requires Correlated(s) && h in s.handlers && s.handlers[h].pc.Holds() && pc.Tried()
    requires |buf| <= 1 && (buf != [] ==> buf == [h] || buf == s.channels[s.handlers[h].ch])
    ensures Correlated(ChannelStep(s, h, buf, pc))
  {
  }

  lemma CorrelatedEmptied(s: State, c: Id)
    requires Correlated(s) && c in s.calls
    ensures Correlated(s.(channels := s.channels[c := []]))
  {
  }

  lemma CorrelatedRegister(s: State, c: Id)
    requires Correlated(s) && Enabled(s, Register(c))
    ensures Correlated(Next(s, Register(c)))
  {
    var id := s.calls[c].requestId;
    if Admit(s.pendingRequests, s.maxPendingRequests, id) == Admitted {
      CorrelatedEmptied(s, c);
      CorrelatedSetCall(s.(channels := s.channels[c := []], pendingRequests := s.pendingRequests[id := c]), c, InFlight, Open);
    } else {
      CorrelatedSetCall(s, c, Ended, Failed);
    }
  }

  lemma CorrelatedTake(s: State, c: Id)
    requires Correlated(s) && Enabled(s, Take(c))
    ensures Correlated(Next(s, Take(c)))
  {
    CorrelatedEmptied(s, c);
    CorrelatedSetCall(s.(channels := s.channels[c := s.channels[c][1..]]), c, Storing, Fresh(s.channels[c][0]));
  }

  lemma CorrelatedCallStep(s: State, e: Event)
    requires Owned(s) && Correlated(s) && Enabled(s, e) && e.OfCall()
    ensures Correlated(Next(s, e))
  {
    match e
    case Answer(c, hit) => CorrelatedSetCall(s, c, Ended, Cached(hit));
    case Reject(c) => CorrelatedSetCall(s, c, Ended, Failed);
    case Register(c) => CorrelatedRegister(s, c);
    case Fail(c) => CorrelatedSetCall(s, c, Leaving, Failed);
    case Take(c) => CorrelatedTake(s, c);
    case Store(c) => CorrelatedSetCall(s, c, Leaving, s.calls[c].outcome);
    case Cleanup(c) =>
      CorrelatedSetCall(s.(pendingRequests := s.pendingRequests - {s.calls[c].requestId}), c, Ended, s.calls[c].outcome);
    case _ =>
  }

  lemma CorrelatedMove(s: State, h: Id, hd: Handler)
    requires Correlated(s) && h in s.handlers && !s.handlers[h].pc.Tried()
    requires hd.pc.Holds() ==> hd.ch in s.channels && hd.ch in s.calls && s.calls[hd.ch].requestId == ReplyKey(hd.reply)
    ensures Correlated(s.(handlers := s.handlers[h := hd]))
  {
  }

  lemma CorrelatedLook(s: State, h: Id)
    requires Owned(s) && Correlated(s) && Enabled(s, Look(h))
    ensures Correlated(Next(s, Look(h)))
  {
    CorrelatedMove(s, h, Next(s, Look(h)).handlers[h]);
  }

  lemma CorrelatedArrive(s: State, h: Id, reply: Reply)
    requires Correlated(s) && Enabled(s, Arrive(h, reply))
    ensures Correlated(Next(s, Arrive(h, reply)))
  {
  }

  lemma CorrelatedHandlerStep(s: State, e: Event)
    requires Owned(s) && Correlated(s) && Enabled(s, e) && !e.OfCall()
    ensures Correlated(Next(s, e))
  {
    match e
    case Arrive(h, reply) => CorrelatedArrive(s, h, reply);
    case Look(h) => CorrelatedLook(s, h);
    case TrySend(h) =>
      var buf := s.channels[s.handlers[h].ch];
      CorrelatedChannelStep(s, h, Offered(buf, h), if buf == [] then Finished else Draining);
    case Drain(h) => CorrelatedChannelStep(s, h, Drained(s.channels[s.handlers[h].ch]), Resending);
    case Resend(h) => CorrelatedChannelStep(s, h, Offered(s.channels[s.handlers[h].ch], h), Finished);
  }

  /** Handlers other than the one that moves stay where they are. */
  lemma ResendingStep(s: State, e: Event, c: Id)
    requires Enabled(s, e) && SomeoneResending(s, c) && !e.Resend?
    ensures SomeoneResending(Next(s, e), c)
  {
    var s' := Next(s, e);
    var w :| AtPc(s, w, Resending) && s.handlers[w].ch == c;
    assert AtPc(s', w, Resending) && s'.handlers[w].ch == c;
  }

  lemma AvailableCallStep(s: State, e: Event, c: Id)
    requires Owned(s) && Enabled(s, e) && e.OfCall() && ReplyAvailable(s, c)
    ensures ReplyAvailable(Next(s, e), c)
  {
    if SomeoneResending(s, c) { ResendingStep(s, e, c); }
  }

  lemma AvailableHandlerStep(s: State, e: Event, c: Id)
    requires Enabled(s, e) && !e.OfCall() && ReplyAvailable(s, c)
    ensures ReplyAvailable(Next(s, e), c)
  {
    var s' := Next(s, e);
    if e.Drain? { assert AtPc(s', e.h, Resending); }
    if SomeoneResending(s, c) {
      if e.Resend? && s.handlers[e.h].ch != c {
        var w :| AtPc(s, w, Resending) && s.handlers[w].ch == c;
        assert AtPc(s', w, Resending);
      } else if !e.Resend? {
        ResendingStep(s, e, c);
      }
    }
  }

  lemma NoLostReplyStep(s: State, e: Event)
    requires Inv(s) && Enabled(s, e)
    ensures NoLostReply(Next(s, e))
  {
    var s' := Next(s, e);
    forall h | h in s'.handlers && s'.handlers[h].pc.Tried()
      ensures ReplyAvailable(s', s'.handlers[h].ch)
    {
      if h in s.handlers && s.handlers[h].pc.Tried() {
        if e.OfCall() { AvailableCallStep(s, e, s.handlers[h].ch); } else { AvailableHandlerStep(s, e, s.handlers[h].ch); }
      } else {
        assert e == TrySend(h);
      }
    }
  }

  lemma StepInv(s: State, e: Event)
    requires Inv(s) && Enabled(s, e)
    ensures Inv(Next(s, e)) && Next(s, e).maxPendingRequests == s.maxPendingRequests
  {
    OwnedStep(s, e);
    if e.OfCall() { CorrelatedCallStep(s, e); } else { CorrelatedHandlerStep(s, e); }
    NoLostReplyStep(s, e);
  }

  lemma {:induction false} RunInv(s: State, es: seq<Event>)
    requires Inv(s) && IsRun(s, es)
    ensures Inv(Run(s, es)) && Run(s, es).maxPendingRequests == s.maxPendingRequests
    decreases |es|
  {
    if es != [] {
      StepInv(s, es[0]);
      RunInv(Next(s, es[0]), es[1..]);
    }
  }

  ghost predicate Reachable(max: nat, s: State) {
    exists es :: IsRun(Init(max), es) && Run(Init(max), es) == s
  }

  lemma ReachableInv(max: nat, s: State)
    requires Reachable(max, s)
    ensures Inv(s) && s.maxPendingRequests == max
  {
    var es :| IsRun(Init(max), es) && Run(Init(max), es) == s;
    RunInv(Init(max), es);
  }

  // ----- What the invariant buys -----

  /** The pending map is bounded, has an entry for an id exactly when a registered call owns it,
      and that call is unique. */
  lemma PendingIsRegisteredCalls(max: nat, s: State, id: string, c: Id)
    requires Reachable(max, s)
    ensures |s.pendingRequests| <= max
    ensures (id in s.pendingRequests && s.pendingRequests[id] == c)
            <==> (c in s.calls && s.calls[c].phase.Registered() && s.calls[c].requestId == id)
  {
    ReachableInv(max, s);
  }

  /** A deferred delete removes its own entry and nothing else. */
  lemma CleanupRemovesOwnEntry(max: nat, s: State, c: Id)
    requires Reachable(max, s) && Enabled(s, Cleanup(c))
    ensures var s' := Next(s, Cleanup(c)); var id := s.calls[c].requestId;
            && id in s.pendingRequests && s.pendingRequests[id] == c && id !in s'.pendingRequests
            && |s'.pendingRequests| == |s.pendingRequests| - 1
            && (forall k :: k in s.pendingRequests && k != id ==>
                  k in s'.pendingRequests && s'.pendingRequests[k] == s.pendingRequests[k])
  {
    ReachableInv(max, s);
    var s' := Next(s, Cleanup(c));
    assert s'.pendingRequests.Keys == s.pendingRequests.Keys - {s.calls[c].requestId};
  }

  /** Once some delivery to a call has touched its channel, then as soon as no handler is between its
      drain and its final send, the waiter has a reply or can take one: the channel holds exactly one. */
  lemma NoReplyLost(max: nat, s: State, h: Id)
    requires Reachable(max, s) && h in s.handlers && s.handlers[h].pc.Tried()
    requires forall w :: w in s.handlers && s.handlers[w].pc.Resending? ==> s.handlers[w].ch != s.handlers[h].ch
    ensures var c := s.handlers[h].ch;
            c in s.calls && (s.calls[c].outcome.Fresh? || (c in s.channels && |s.channels[c]| == 1))
    ensures var c := s.handlers[h].ch;
            s.calls[c].phase.InFlight? ==> Enabled(s, Take(c))
  {
    ReachableInv(max, s);
    assert ReplyAvailable(s, s.handlers[h].ch);
  }

  /** A reply returned from the channel carries the call's own request id, and no other call gets it. */
  lemma ReplyIsOwn(max: nat, s: State, c: Id, c': Id)
    requires Reachable(max, s) && c in s.calls && s.calls[c].outcome.Fresh?
    ensures var h := s.calls[c].outcome.handler;
            && h in s.handlers
            && (if s.handlers[h].reply.correlationId != "" then s.handlers[h].reply.correlationId == s.calls[c].requestId
                else s.handlers[h].reply.requestId == s.calls[c].requestId)
            && (c' in s.calls && s.calls[c'].outcome == Fresh(h) ==> c' == c)
  {
    ReachableInv(max, s);
  }

  /** A reply is handled exactly when it names an id in one of its two fields, and the correlation id counts
      first: a handler finds a channel exactly when a call is registered under that id. */
  lemma RepliesAreFound(s: State, h: Id, reply: Reply)
    ensures Enabled(s, Arrive(h, reply)) <==> h !in s.handlers && (reply.correlationId != "" || reply.requestId != "")
    ensures AtPc(s, h, Looking) && s.handlers[h].reply == reply ==>
              var id := if reply.correlationId != "" then reply.correlationId else reply.requestId;
              var hd := Next(s, Look(h)).handlers[h];
              if id in s.pendingRequests then hd.pc == Sending && hd.ch == s.pendingRequests[id] else hd.pc == Dropped
  {
  }

  /** The channel operations: a send into a full channel leaves it as it is, a drain empties it, and the waiter
      takes what is in it; a handler tries once, and if the channel was full drains and sends once more. */
  lemma ChannelsHoldOne(max: nat, s: State, h: Id, c: Id)
    requires Reachable(max, s) && h in s.handlers && s.handlers[h].ch == c && c in s.channels
    ensures Enabled(s, TrySend(h)) ==>
              var s' := Next(s, TrySend(h));
              && s'.channels[c] == (if s.channels[c] == [] then [h] else s.channels[c])
              && s'.handlers[h].pc == (if s.channels[c] == [] then Finished else Draining)
    ensures Enabled(s, Drain(h)) ==> Next(s, Drain(h)).channels[c] == [] && Next(s, Drain(h)).handlers[h].pc == Resending
    ensures Enabled(s, Resend(h)) ==>
              var s' := Next(s, Resend(h));
              s'.channels[c] == (if s.channels[c] == [] then [h] else s.channels[c]) && s'.handlers[h].pc == Finished
    ensures Enabled(s, Take(c)) ==>
              var s' := Next(s, Take(c));
              s'.channels[c] == [] && s.channels[c] == [s'.calls[c].outcome.handler]
  {
    ReachableInv(max, s);
  }

  lemma FeedsOnlyItsChannel(s: State, h: Id, c: Id)
    requires Correlated(s)
    requires || (c in s.calls && s.calls[c].outcome == Fresh(h))
             || (c in s.channels && h in s.channels[c])
    ensures Delivered(s, h, c)
  {
  }

  lemma {:induction false} HoldsForever(s: State, es: seq<Event>, h: Id)
    requires IsRun(s, es) && h in s.handlers && s.handlers[h].pc.Holds()
    ensures var s' := Run(s, es);
            h in s'.handlers && s'.handlers[h].pc.Holds() && s'.handlers[h].ch == s.handlers[h].ch
    decreases |es|
  {
    if es != [] { HoldsForever(Next(s, es[0]), es[1..], h); }
  }

  lemma {:induction false} RunConcat(s: State, es: seq<Event>, fs: seq<Event>)
    requires IsRun(s, es) && IsRun(Run(s, es), fs)
    ensures IsRun(s, es + fs) && Run(s, es + fs) == Run(Run(s, es), fs)
    decreases |es|
  {
    if es == [] {
      assert es + fs == fs;
    } else {
      assert (es + fs)[0] == es[0] && (es + fs)[1..] == es[1..] + fs;
      RunConcat(Next(s, es[0]), es[1..], fs);
    }
  }

  /** A handler that found the channel of call c never feeds another call, whatever happens later,
      even when c has ended and another call reuses its request id. */
  lemma NoCrossTalk(max: nat, s: State, es: seq<Event>, h: Id, c': Id)
    requires Reachable(max, s) && IsRun(s, es)
    requires h in s.handlers && s.handlers[h].pc.Holds()
    ensures var s' := Run(s, es);
            && (c' in s'.calls && s'.calls[c'].outcome == Fresh(h) ==> c' == s.handlers[h].ch)
            && (c' in s'.channels && h in s'.channels[c'] ==> c' == s.handlers[h].ch)
  {
    var prefix :| IsRun(Init(max), prefix) && Run(Init(max), prefix) == s;
    RunConcat(Init(max), prefix, es);
    RunInv(Init(max), prefix + es);
    HoldsForever(s, es, h);
    var s' := Run(s, es);
    if || (c' in s'.calls && s'.calls[c'].outcome == Fresh(h)) || (c' in s'.channels && h in s'.channels[c']) {
      FeedsOnlyItsChannel(s', h, c');
    }
  }

  lemma RunOne(s: State, e: Event)
    requires Enabled(s, e)
    ensures IsRun(s, [e]) && Run(s, [e]) == Next(s, e)
  {
    assert [e][1..] == [] && IsRun(Next(s, e), []) && Run(Next(s, e), []) == Next(s, e);
  }

  lemma RunCons(s: State, e: Event, es: seq<Event>)
    requires Enabled(s, e) && IsRun(Next(s, e), es)
    ensures IsRun(s, [e] + es) && Run(s, [e] + es) == Run(Next(s, e), es)
  {
    assert ([e] + es)[1..] == es;
  }

  lemma DrainThenResend(s: State, h: Id)
    requires AtPc(s, h, Draining) && s.handlers[h].ch in s.channels && |s.channels[s.handlers[h].ch]| <= 1
    ensures var es := [Drain(h), Resend(h)];
            && IsRun(s, es) && Run(s, es).channels == s.channels[s.handlers[h].ch := [h]] && AtPc(Run(s, es), h, Finished)
  {
    var s2 := Next(s, Drain(h));
    assert s2.channels == s.channels[s.handlers[h].ch := []];
    RunOne(s2, Resend(h));
    RunCons(s, Drain(h), [Resend(h)]);
    assert [Drain(h)] + [Resend(h)] == [Drain(h), Resend(h)];
  }

  /** A delivery that no other event interrupts leaves its own reply, and only that, in the channel. */
  lemma UninterruptedDeliveryWins(max: nat, s: State, h: Id)
    requires Reachable(max, s) && AtPc(s, h, Sending)
    ensures var c := s.handlers[h].ch;
            c in s.channels && Enabled(s, TrySend(h)) &&
            var es := if s.channels[c] == [] then [TrySend(h)] else [TrySend(h)] + [Drain(h), Resend(h)];
            IsRun(s, es) && Run(s, es).channels == s.channels[c := [h]] && AtPc(Run(s, es), h, Finished)
  {
    ReachableInv(max, s);
    var c := s.handlers[h].ch;
    if s.channels[c] == [] {
      RunOne(s, TrySend(h));
    } else {
      var s1 := Next(s, TrySend(h));
      assert s1.channels == s.channels;
      DrainThenResend(s1, h);
      RunCons(s, TrySend(h), [Drain(h), Resend(h)]);
    }
  }

  lemma ReachableNext(max: nat, s: State, e: Event)
    requires Reachable(max, s) && Enabled(s, e)
    ensures Reachable(max, Next(s, e))
  {
    var es :| IsRun(Init(max), es) && Run(Init(max), es) == s;
    RunOne(s, e);
    RunConcat(Init(max), es, [e]);
  }
}
