/** The CoAP bridge's bounded task queue and its worker pool: nothing is lost, nothing is handled
    twice, and stopping drains what was accepted. */
module CoapQueue {

  datatype Task = Task(topic: string, payload: string, isSync: bool)

  datatype DeadLetter = DeadLetter(reason: string, task: Task)

  datatype Verdict = Accepted | DeadLettered | Refused

  function VerdictOn(queue: seq<Task>, queueSize: nat, stopped: bool): Verdict {
    if stopped then Refused else if |queue| < queueSize then Accepted else DeadLettered
  }

  function QueueFull(t: Task): DeadLetter {
    DeadLetter(if t.isSync then "sync_queue_full" else "async_queue_full", t)
  }

  /** The bridge's request channel; `stopped` stands for both of its channels being closed. */
  class TaskQueue {
    const queueSize: nat
    var reqCh: seq<Task>
    var stopped: bool
    var deadLetters: seq<DeadLetter>

    constructor (queueSize: nat)
      ensures this.queueSize == queueSize && reqCh == [] && !stopped && deadLetters == []
    {
      this.queueSize := queueSize;
      reqCh, stopped, deadLetters := [], false, [];
    }

    method EnqueueTask(t: Task)
      modifies this
      ensures stopped == old(stopped)
      ensures reqCh == old(reqCh) + [t] <==> !stopped && |old(reqCh)| < queueSize
      ensures !(!stopped && |old(reqCh)| < queueSize) ==> reqCh == old(reqCh)
      ensures if !stopped && |old(reqCh)| >= queueSize then
                deadLetters == old(deadLetters) + [DeadLetter(if t.isSync then "sync_queue_full" else "async_queue_full", t)]
              else deadLetters == old(deadLetters)
      ensures match VerdictOn(old(reqCh), queueSize, stopped)
              case Accepted => reqCh == old(reqCh) + [t] && deadLetters == old(deadLetters)
              case DeadLettered => reqCh == old(reqCh) && deadLetters == old(deadLetters) + [QueueFull(t)]
              case Refused => reqCh == old(reqCh) && deadLetters == old(deadLetters)
    {
      if stopped { return; }
      if |reqCh| < queueSize {
        reqCh := reqCh + [t];
      } else {
        var reason := "async_queue_full";
        if t.isSync { reason := "sync_queue_full"; }
        deadLetters := deadLetters + [DeadLetter(reason, t)];
      }
    }

    /** What a worker's loop receives: the oldest task. */
    method Receive() returns (t: Task)
      requires reqCh != []
      modifies this
      ensures old(reqCh) == [t] + reqCh && stopped == old(stopped) && deadLetters == old(deadLetters)
    {
      t := reqCh[0];
      reqCh := reqCh[1..];
    }

    method Close()
      modifies this
      ensures stopped && reqCh == old(reqCh) && deadLetters == old(deadLetters)
    {
      stopped := true;
    }
  }

  // ----- The pool as a step system -----

  datatype Worker = Idle | Busy(task: Task) | Exited

  datatype State = State(
    queueSize: nat, queue: seq<Task>, stopped: bool, returned: bool, workers: seq<Worker>,
    offered: multiset<Task>, accepted: seq<Task>, taken: seq<Task>,
    handled: multiset<Task>, dead: multiset<Task>, refused: multiset<Task>)

  datatype Event =
    | Offer(t: Task)
    | Take(w: nat)
    | Finish(w: nat)
    | Exit(w: nat)          // the channel is closed and drained
    | Stop                  // Stop closes the channels
    | StopReturns           // Stop has waited for every worker

  function Init(queueSize: nat, workerCount: nat): State {
    State(queueSize, [], false, false, seq(workerCount, i => Idle),
          multiset{}, [], [], multiset{}, multiset{}, multiset{})
  }

  predicate Enabled(s: State, e: Event) {
    match e
    case Offer(_) => true
    case Take(w) => w < |s.workers| && s.workers[w].Idle? && s.queue != []
    case Finish(w) => w < |s.workers| && s.workers[w].Busy?
    case Exit(w) => w < |s.workers| && s.workers[w].Idle? && s.stopped && s.queue == []
    case Stop => !s.stopped
    case StopReturns => s.stopped && forall w :: 0 <= w < |s.workers| ==> s.workers[w].Exited?
  }

  function Next(s: State, e: Event): State
    requires Enabled(s, e)
  {
    match e
    case Offer(t) =>
      var s' := s.(offered := s.offered + multiset{t});
      match VerdictOn(s.queue, s.queueSize, s.stopped) {
        case Accepted => s'.(queue := s.queue + [t], accepted := s.accepted + [t])
        case DeadLettered => s'.(dead := s.dead + multiset{t})
        case Refused => s'.(refused := s.refused + multiset{t})
      }
    case Take(w) =>
      s.(queue := s.queue[1..], workers := s.workers[w := Busy(s.queue[0])], taken := s.taken + [s.queue[0]])
    case Finish(w) => s.(workers := s.workers[w := Idle], handled := s.handled + multiset{s.workers[w].task})
    case Exit(w) => s.(workers := s.workers[w := Exited])
    case Stop => s.(stopped := true)
    case StopReturns => s.(returned := true)
  }

  predicate IsRun(s: State, es: seq<Event>)
    decreases |es|
  {
    es == [] || (Enabled(s, es[0]) && IsRun(Next(s, es[0]), es[1..]))
  }

  function Run(s: State, es: seq<Event>): State
    requires IsRun(s, es)
    decreases |es|
  {
    if es == [] then s else Run(Next(s, es[0]), es[1..])
  }

  /** The tasks that the first n workers are handling. */
  function InHands(workers: seq<Worker>, n: nat): multiset<Task>
    requires n <= |workers|
  {
    if n == 0 then multiset{}
    else InHands(workers, n - 1) + Held(workers[n - 1])
  }

  function Hands(s: State): multiset<Task> { InHands(s.workers, |s.workers|) }

  function Held(w: Worker): multiset<Task> { if w.Busy? then multiset{w.task} else multiset{} }

  lemma HandsUpdateOf(workers: seq<Worker>, n: nat, w: nat, x: Worker, t: Task)
    requires n <= |workers| && w < |workers|
    ensures InHands(workers[w := x], n)[t] + (if w < n then Held(workers[w])[t] else 0)
         == InHands(workers, n)[t] + (if w < n then Held(x)[t] else 0)
  {
    HandsCounted(workers, n, t);
    HandsCounted(workers[w := x], n, t);
    CountUpdate(workers, n, w, x, t);
  }

  function Busies(workers: seq<Worker>, n: nat, t: Task): nat
    requires n <= |workers|
  {
    if n == 0 then 0 else Busies(workers, n - 1, t) + One(workers[n - 1], t)
  }

  function One(w: Worker, t: Task): nat { if w == Busy(t) then 1 else 0 }

  lemma {:induction false} HandsCounted(workers: seq<Worker>, n: nat, t: Task)
    requires n <= |workers|
    ensures InHands(workers, n)[t] == Busies(workers, n, t)
  {
    if n > 0 { HandsCounted(workers, n - 1, t); }
  }

  lemma {:induction false} CountUpdate(workers: seq<Worker>, n: nat, w: nat, x: Worker, t: Task)
    requires n <= |workers| && w < |workers|
    ensures Busies(workers[w := x], n, t) + (if w < n then One(workers[w], t) else 0)
         == Busies(workers, n, t) + (if w < n then One(x, t) else 0)
  {
    if n > 0 { CountUpdate(workers, n - 1, w, x, t); }
  }

  /** One worker's change changes what the pool holds by exactly that worker's task. */
  lemma HandsUpdate(workers: seq<Worker>, w: nat, x: Worker)
    requires w < |workers|
    ensures InHands(workers[w := x], |workers|) + Held(workers[w]) == InHands(workers, |workers|) + Held(x)
  {
    forall t ensures (InHands(workers[w := x], |workers|) + Held(workers[w]))[t]
                  == (InHands(workers, |workers|) + Held(x))[t]
    {
      HandsUpdateOf(workers, |workers|, w, x, t);
    }
  }

  lemma {:induction false} HandsEmpty(workers: seq<Worker>, n: nat)
    requires n <= |workers| && forall w :: 0 <= w < n ==> !workers[w].Busy?
    ensures InHands(workers, n) == multiset{}
  {
    if n > 0 { HandsEmpty(workers, n - 1); }
  }

  /** Every task is accounted for. */
  predicate Counted(s: State) {
    && s.accepted == s.taken + s.queue
    && multiset(s.taken) == Hands(s) + s.handled
    && s.offered == multiset(s.accepted) + s.dead + s.refused
  }

  /** A worker leaves only a closed and drained queue, and Stop returns only after all have left. */
  predicate Drained(s: State) {
    && |s.queue| <= s.queueSize
    && ((exists w :: 0 <= w < |s.workers| && s.workers[w].Exited?) ==> s.stopped && s.queue == [])
    && (s.returned ==> s.stopped && forall w :: 0 <= w < |s.workers| ==> s.workers[w].Exited?)
    && (s.refused != multiset{} ==> s.stopped)
  }

  predicate Inv(s: State) { Counted(s) && Drained(s) }

  lemma TakeMoves(s: State, w: nat)
    requires Enabled(s, Take(w)) && multiset(s.taken) == Hands(s) + s.handled
    ensures var s' := Next(s, Take(w)); multiset(s'.taken) == Hands(s') + s'.handled
  {
    var t := s.queue[0];
    HandsUpdate(s.workers, w, Busy(t));
    var hands' := InHands(s.workers[w := Busy(t)], |s.workers|);
    assert hands' == Hands(s) + multiset{t};
    assert multiset(s.taken + [t]) == multiset(s.taken) + multiset{t};
  }

  lemma FinishMoves(s: State, e: Event)
    requires Enabled(s, e) && (e.Finish? || e.Exit?) && multiset(s.taken) == Hands(s) + s.handled
    ensures var s' := Next(s, e); multiset(s'.taken) == Hands(s') + s'.handled
  {
    var worker := if e.Finish? then Idle else Exited;
    HandsUpdate(s.workers, e.w, worker);
    assert InHands(s.workers[e.w := worker], |s.workers|) + Held(s.workers[e.w]) == Hands(s);
  }

  lemma AcceptCounted(accepted: seq<Task>, dead: multiset<Task>, refused: multiset<Task>, t: Task)
    ensures multiset(accepted + [t]) + dead + refused == multiset(accepted) + dead + refused + multiset{t}
  {
    assert multiset(accepted + [t]) == multiset(accepted) + multiset{t};
  }

  lemma OfferCounted(s: State, t: Task)
    requires Counted(s)
    ensures Counted(Next(s, Offer(t)))
  {
    if VerdictOn(s.queue, s.queueSize, s.stopped) == Accepted {
      assert s.taken + s.queue + [t] == s.taken + (s.queue + [t]);
      AcceptCounted(s.accepted, s.dead, s.refused, t);
    }
  }

  /** What becomes of an offered task, in every state: queued at the end exactly while the bridge runs and the
      queue has room, dead-lettered exactly while it runs and the queue is full, refused after the stop. */
  lemma OfferIsDecided(s: State, t: Task)
    ensures var s' := Next(s, Offer(t));
            && (s'.queue == s.queue + [t] <==> !s.stopped && |s.queue| < s.queueSize)
            && (s'.accepted == s.accepted + [t] <==> !s.stopped && |s.queue| < s.queueSize)
            && (s'.dead == s.dead + multiset{t} <==> !s.stopped && |s.queue| >= s.queueSize)
            && (s'.refused == s.refused + multiset{t} <==> s.stopped)
            && (s'.queue == s.queue || s'.queue == s.queue + [t]) && (s'.dead == s.dead || s'.dead == s.dead + multiset{t})
            && s'.offered == s.offered + multiset{t} && s'.workers == s.workers
  {
    assert (s.dead + multiset{t})[t] == s.dead[t] + 1 && (s.refused + multiset{t})[t] == s.refused[t] + 1;
  }

  lemma TakeCounted(s: State, w: nat)
    requires Counted(s) && Enabled(s, Take(w))
    ensures Counted(Next(s, Take(w)))
  {
    TakeMoves(s, w);
    HeadTaken(s.taken, s.queue);
  }

  lemma HeadTaken(taken: seq<Task>, queue: seq<Task>)
    requires queue != []
    ensures taken + [queue[0]] + queue[1..] == taken + queue
  {
  }

  lemma FinishCounted(s: State, e: Event)
    requires Counted(s) && Enabled(s, e) && (e.Finish? || e.Exit?)
    ensures Counted(Next(s, e))
  {
    FinishMoves(s, e);
  }

  lemma StopCounted(s: State, e: Event)
    requires Counted(s) && Enabled(s, e) && (e.Stop? || e.StopReturns?)
    ensures Counted(Next(s, e))
  {
  }

  lemma CountedStep(s: State, e: Event)
    requires Counted(s) && Enabled(s, e)
    ensures Counted(Next(s, e))
  {
    if e.Offer? {
      OfferCounted(s, e.t);
    } else if e.Take? {
      TakeCounted(s, e.w);
    } else if e.Finish? || e.Exit? {
      FinishCounted(s, e);
    } else {
      StopCounted(s, e);
    }
  }

  lemma DrainedStep(s: State, e: Event)
    requires Drained(s) && Enabled(s, e)
    ensures Drained(Next(s, e)) && |Next(s, e).workers| == |s.workers|
  {
  }

  lemma {:induction false} RunInv(s: State, es: seq<Event>)
    requires Inv(s) && IsRun(s, es)
    ensures Inv(Run(s, es)) && |Run(s, es).workers| == |s.workers|
    decreases |es|
  {
    if es != [] {
      CountedStep(s, es[0]);
      DrainedStep(s, es[0]);
      RunInv(Next(s, es[0]), es[1..]);
    }
  }

  /** At every moment the offered tasks are exactly those queued, in a worker's hands, handled,
      dead-lettered, or refused after the stop, and the accepted ones are taken first come, first served. */
  lemma TasksConserved(queueSize: nat, workerCount: nat, es: seq<Event>)
    requires IsRun(Init(queueSize, workerCount), es)
    ensures var s := Run(Init(queueSize, workerCount), es);
            && s.offered == multiset(s.queue) + Hands(s) + s.handled + s.dead + s.refused
            && |s.queue| <= s.queueSize
            && s.taken <= s.accepted
            && (!s.stopped ==> s.refused == multiset{})
  {
    InitInv(queueSize, workerCount);
    RunInv(Init(queueSize, workerCount), es);
    var s := Run(Init(queueSize, workerCount), es);
    assert multiset(s.accepted) == multiset(s.taken) + multiset(s.queue);
  }

  lemma InitInv(queueSize: nat, workerCount: nat)
    ensures Inv(Init(queueSize, workerCount))
  {
    var s := Init(queueSize, workerCount);
    HandsEmpty(s.workers, |s.workers|);
  }

  /** When Stop returns, every accepted task has been handled: with at least one worker always, and
      without workers exactly when nothing had been accepted. */
  lemma StopDrains(queueSize: nat, workerCount: nat, es: seq<Event>)
    requires IsRun(Init(queueSize, workerCount), es) && Run(Init(queueSize, workerCount), es).returned
    ensures var s := Run(Init(queueSize, workerCount), es);
            multiset(s.accepted) == s.handled <==> workerCount > 0 || s.accepted == []
  {
    InitInv(queueSize, workerCount);
    RunInv(Init(queueSize, workerCount), es);
    var s := Run(Init(queueSize, workerCount), es);
    HandsEmpty(s.workers, |s.workers|);
    if workerCount > 0 {
      assert s.workers[0].Exited?;
      assert s.accepted == s.taken;
    } else {
      NoWorkersNoHandling(Init(queueSize, 0), es);
    }
  }

  lemma {:induction false} NoWorkersNoHandling(s: State, es: seq<Event>)
    requires IsRun(s, es) && s.workers == [] && s.handled == multiset{}
    ensures Run(s, es).handled == multiset{}
    decreases |es|
  {
    if es != [] { NoWorkersNoHandling(Next(s, es[0]), es[1..]); }
  }
}
