/** The circuit breaker that both protocol bridges carry, and the retry loops that feed it.

    Time is an integer number of milliseconds, never negative; 0 is the zero time. */
module CircuitBreaker {
  import opened Common

  datatype Mark = Failure(at: int) | Success(at: int)

  const OPEN_MS := 5000

  /** The two fields as the marks leave them. */
  datatype Fields = Fields(cbFails: int, cbOpenUntil: int)

  function AfterMark(f: Fields, m: Mark): Fields {
    match m
    case Failure(at) => Fields(f.cbFails + 1, if f.cbFails + 1 >= 3 then at + OPEN_MS else f.cbOpenUntil)
    case Success(_) => Fields(0, 0)
  }

  /** After the first k marks. */
  function AfterFirst(f: Fields, marks: seq<Mark>, k: nat): Fields
    requires k <= |marks|
  {
    if k == 0 then f else AfterMark(AfterFirst(f, marks, k - 1), marks[k - 1])
  }

  function AfterMarks(f: Fields, marks: seq<Mark>): Fields { AfterFirst(f, marks, |marks|) }

  /** From a fresh breaker. */
  function FieldsAfter(history: seq<Mark>): Fields { AfterMarks(Fields(0, 0), history) }

  lemma {:induction false} AfterPrefix(f: Fields, a: seq<Mark>, b: seq<Mark>, k: nat)
    requires k <= |a|
    ensures AfterFirst(f, a + b, k) == AfterFirst(f, a, k)
  {
    if k > 0 { AfterPrefix(f, a, b, k - 1); }
  }

  lemma {:induction false} AfterSuffix(f: Fields, a: seq<Mark>, b: seq<Mark>, k: nat)
    requires k <= |b|
    ensures AfterFirst(f, a + b, |a| + k) == AfterFirst(AfterMarks(f, a), b, k)
  {
    if k == 0 { AfterPrefix(f, a, b, |a|); } else { AfterSuffix(f, a, b, k - 1); }
  }

  lemma MarksConcat(f: Fields, a: seq<Mark>, b: seq<Mark>)
    ensures AfterMarks(f, a + b) == AfterMarks(AfterMarks(f, a), b)
  {
    AfterSuffix(f, a, b, |b|);
  }

  lemma OneMore(f: Fields, marks: seq<Mark>, m: Mark)
    ensures AfterMarks(f, marks + [m]) == AfterMark(AfterMarks(f, marks), m)
  {
    AfterPrefix(f, marks, [m], |marks|);
  }

  /** What the breaker stands for: at least three failures since the last success, the latest of them
      less than five seconds ago. */
  predicate OpenByHistory(history: seq<Mark>, now: int) {
    var n := |history|;
    && n >= 3 && history[n-1].Failure? && history[n-2].Failure? && history[n-3].Failure?
    && now < history[n-1].at + OPEN_MS
  }

  /** The counter counts the failures at the end of the marks. */
  lemma {:induction false} FailsCountTrailing(marks: seq<Mark>, k: nat, n: nat)
    requires k <= |marks|
    ensures AfterFirst(Fields(0, 0), marks, k).cbFails >= n
            <==> k >= n && forall i :: k - n <= i < k ==> marks[i].Failure?
  {
    if k > 0 {
      FailsCountTrailing(marks, k - 1, if n > 0 then n - 1 else 0);
      FailsCountTrailing(marks, k - 1, 0);
    }
  }

  lemma {:induction false} OpenUntilIsLatest(marks: seq<Mark>, k: nat)
    requires k <= |marks|
    ensures var f := AfterFirst(Fields(0, 0), marks, k);
            && f.cbFails >= 0 && (f.cbFails >= 3 ==> k > 0)
            && f.cbOpenUntil == if f.cbFails >= 3 then marks[k - 1].at + OPEN_MS else 0
  {
    if k > 0 { OpenUntilIsLatest(marks, k - 1); }
  }

  /** After every history of marks the deadline decides exactly as the history does. */
  lemma BreakerIsHistory(history: seq<Mark>, now: int)
    requires now >= 0
    ensures now < FieldsAfter(history).cbOpenUntil <==> OpenByHistory(history, now)
    ensures now < FieldsAfter(history).cbOpenUntil
            <==> && |history| >= 3 && (forall i :: |history| - 3 <= i < |history| ==> history[i].Failure?)
                 && now < history[|history| - 1].at + 5000
  {
    FailsCountTrailing(history, |history|, 3);
    OpenUntilIsLatest(history, |history|);
  }

  class Breaker {
    var cbFails: int
    var cbOpenUntil: int

    function View(): Fields
      reads this
    {
      Fields(cbFails, cbOpenUntil)
    }

    constructor ()
      ensures View() == FieldsAfter([])
    {
      cbFails, cbOpenUntil := 0, 0;
    }

    method MarkFailure(now: int)
      modifies this
      ensures View() == AfterMark(old(View()), Failure(now))
      ensures cbFails == old(cbFails) + 1
      ensures cbOpenUntil == if cbFails >= 3 then now + 5000 else old(cbOpenUntil)
    {
      cbFails := cbFails + 1;
      if cbFails >= 3 { cbOpenUntil := now + OPEN_MS; }
    }

    method MarkSuccess(now: int)
      modifies this
      ensures View() == AfterMark(old(View()), Success(now))
      ensures cbFails == 0 && cbOpenUntil == 0
    {
      cbFails := 0;
      cbOpenUntil := 0;
    }

    method IsCircuitOpen(now: int, ghost history: seq<Mark>) returns (open: bool)
      requires now >= 0 && View() == FieldsAfter(history)
      ensures open == OpenByHistory(history, now)
      ensures open <==> now < cbOpenUntil
    {
      BreakerIsHistory(history, now);
      open := now < cbOpenUntil;
    }
  }

  // ----- A call: several attempts -----

  /** What an attempt does to the breaker, and whether it is worth another one. */
  datatype Effect = Effect(mark: Option<Mark>, retriable: bool)

  /** The marks of the first k attempts. */
  function CallMarks(es: seq<Effect>, k: nat): seq<Mark>
    requires k <= |es|
  {
    if k == 0 then []
    else CallMarks(es, k - 1) + if es[k - 1].mark.Some? then [es[k - 1].mark.value] else []
  }

  /** The fields after the first k attempts of a call. */
  function CallFields(f: Fields, es: seq<Effect>, k: nat): Fields
    requires k <= |es|
  {
    if k == 0 then f
    else
      var before := CallFields(f, es, k - 1);
      if es[k - 1].mark.None? then before else AfterMark(before, es[k - 1].mark.value)
  }

  lemma {:induction false} FieldsAreMarks(f: Fields, es: seq<Effect>, k: nat)
    requires k <= |es|
    ensures CallFields(f, es, k) == AfterMarks(f, CallMarks(es, k))
  {
    if k > 0 {
      FieldsAreMarks(f, es, k - 1);
      var before, mark := CallMarks(es, k - 1), es[k - 1].mark;
      if mark.None? {
        assert CallMarks(es, k) == before;
      } else {
        assert CallMarks(es, k) == before + [mark.value];
        OneMore(f, before, mark.value);
      }
    }
  }

  /** A call that made `made` of at most `retries` attempts: only attempts worth repeating before the
      last, and fewer than `retries` only when the last settled the matter. */
  predicate Tried(es: seq<Effect>, retries: int, made: int) {
    && 1 <= made <= retries && made <= |es|
    && (forall i :: 0 <= i < made - 1 ==> es[i].retriable)
    && (made < retries ==> !es[made - 1].retriable)
  }

  /** Attempts that each count as a failure, but for unmarked ones at the end: the counter grows by one for each,
      and from the third failure on the deadline is five seconds after the last. */
  lemma {:induction false} FailuresAddUp(f: Fields, es: seq<Effect>, k: nat)
    requires k <= |es| && forall i :: 0 <= i < k ==> es[i].mark.Some? && es[i].mark.value.Failure?
    ensures var after := CallFields(f, es, k);
            && after.cbFails == f.cbFails + k
            && after.cbOpenUntil == if k > 0 && after.cbFails >= 3 then es[k - 1].mark.value.at + 5000 else f.cbOpenUntil
  {
    if k > 0 { FailuresAddUp(f, es, k - 1); }
  }

  /** How the last attempt of a call leaves the breaker, after `failures` failed ones. */
  predicate Counted(before: Fields, after: Fields, failures: nat, lastAt: int) {
    && after.cbFails == before.cbFails + failures
    && after.cbOpenUntil == if failures > 0 && after.cbFails >= 3 then lastAt + 5000 else before.cbOpenUntil
  }

  // ----- The HTTP bridge -----

  datatype HttpAttempt =
    | BuildError
    | TransportError(at: int)
    | ReadError(at: int)
    | Response(status: int, body: seq<byte>, at: int)
  {
    /** Worth another attempt, if one is left. */
    predicate Retriable() { TransportError? || ReadError? || (Response? && status >= 500) }

    function Outcome(): Effect {
      Effect(if BuildError? then None else if Retriable() then Some(Failure(at)) else Some(Success(at)), Retriable())
    }
  }

  function HttpEffects(attempts: seq<HttpAttempt>): (es: seq<Effect>)
    ensures |es| == |attempts| && forall i :: 0 <= i < |es| ==> es[i] == attempts[i].Outcome()
  {
    seq(|attempts|, i requires 0 <= i < |attempts| => attempts[i].Outcome())
  }

  datatype HttpResult = CircuitOpen | BuildFailed | CallFailed | ReadFailed | Answered(status: int, body: seq<byte>) | Exhausted

  function HttpResultOf(a: HttpAttempt): HttpResult {
    match a
    case BuildError => BuildFailed
    case TransportError(_) => CallFailed
    case ReadError(_) => ReadFailed
    case Response(status, body, _) => Answered(status, body)
  }

  /** What the attempt loop returns and leaves: each attempt made is marked once, and with `retries`
      at least 1 the code after the loop is never reached. */
  ghost predicate HttpCalled(attempts: seq<HttpAttempt>, retries: int, made: int, result: HttpResult, before: Fields, after: Fields) {
    if retries < 1 then made == 0 && result == Exhausted && after == before
    else Tried(HttpEffects(attempts), retries, made) && result == HttpResultOf(attempts[made - 1])
         && after == CallFields(before, HttpEffects(attempts), made)
  }

  /** The time of a failure that is marked. */
  function FailedAt(a: HttpAttempt): int { if a.BuildError? then 0 else a.at }

  /** The same in terms of what came back: transport and read errors and statuses from 500 on are failures and
      are tried again while attempts are left; a lower status is a success and clears the breaker; a request that
      cannot be built ends the call unmarked. */
  lemma HttpCallInNumbers(attempts: seq<HttpAttempt>, retries: int, made: int, result: HttpResult, before: Fields, after: Fields)
    requires retries >= 1 && HttpCalled(attempts, retries, made, result, before, after)
    ensures 1 <= made <= retries && made <= |attempts|
    ensures forall i :: 0 <= i < made - 1 ==>
              attempts[i].TransportError? || attempts[i].ReadError? || (attempts[i].Response? && attempts[i].status >= 500)
    ensures var a := attempts[made - 1];
            && (made < retries ==> a.BuildError? || (a.Response? && a.status < 500))
            && (result.BuildFailed? <==> a.BuildError?) && (result.CallFailed? <==> a.TransportError?)
            && (result.ReadFailed? <==> a.ReadError?)
            && (a.Response? ==> result == Answered(a.status, a.body))
            && (a.Response? && a.status < 500 ==> after == Fields(0, 0))
            && (a.BuildError? ==> Counted(before, after, made - 1, if made > 1 then FailedAt(attempts[made - 2]) else 0))
            && (a.TransportError? || a.ReadError? || (a.Response? && a.status >= 500) ==> Counted(before, after, made, a.at))
  {
    var es := HttpEffects(attempts);
    FailuresAddUp(before, es, made - 1);
    if es[made - 1].mark.Some? && es[made - 1].mark.value.Failure? { FailuresAddUp(before, es, made); }
  }

  method HttpAttempts(b: Breaker, retries: int, attempts: seq<HttpAttempt>) returns (result: HttpResult, ghost made: nat)
    requires |attempts| >= retries
    modifies b
    ensures HttpCalled(attempts, retries, made, result, old(b.View()), b.View())
  {
    ghost var es := HttpEffects(attempts);
    made := 0;
    var attempt := 1;
    while attempt <= retries
      invariant made == attempt - 1 && if retries < 1 then attempt == 1 else 1 <= attempt <= retries
      invariant b.View() == CallFields(old(b.View()), es, made)
      invariant forall i :: 0 <= i < made ==> attempts[i].Retriable()
    {
      var a := attempts[attempt - 1];
      made := attempt;
      if a.BuildError? { return BuildFailed, made; }
      if a.TransportError? {
        b.MarkFailure(a.at);
        if attempt < retries { attempt := attempt + 1; continue; }
        return CallFailed, made;
      }
      if a.ReadError? {
        b.MarkFailure(a.at);
        if attempt < retries { attempt := attempt + 1; continue; }
        return ReadFailed, made;
      }
      if a.status >= 500 && attempt < retries {
        b.MarkFailure(a.at);
        attempt := attempt + 1;
        continue;
      }
      if a.status >= 500 { b.MarkFailure(a.at); } else { b.MarkSuccess(a.at); }
      return Answered(a.status, a.body), made;
    }
    return Exhausted, made;
  }

  /** One call after a history of marks; `attempts` says how each attempt would turn out.  The breaker
      refuses exactly when the history says it is open, and afterwards stands for the longer history. */
  method DoHttp(b: Breaker, retries: int, attempts: seq<HttpAttempt>, now: int, ghost history: seq<Mark>)
    returns (result: HttpResult, ghost made: nat)
    requires b.View() == FieldsAfter(history) && now >= 0 && |attempts| >= retries
    modifies b
    ensures made <= |attempts| && b.View() == FieldsAfter(history + CallMarks(HttpEffects(attempts), made))
    ensures result.CircuitOpen? <==> now < old(b.cbOpenUntil)
    ensures if OpenByHistory(history, now) then made == 0 && result == CircuitOpen
            else HttpCalled(attempts, retries, made, result, old(b.View()), b.View())
  {
    made := 0;
    var open := b.IsCircuitOpen(now, history);
    if open {
      result := CircuitOpen;
    } else {
      result, made := HttpAttempts(b, retries, attempts);
      FieldsAreMarks(FieldsAfter(history), HttpEffects(attempts), made);
    }
    MarksConcat(Fields(0, 0), history, CallMarks(HttpEffects(attempts), made));
  }

  // ----- The CoAP bridge -----

  const MAX_COAP_PAYLOAD_BYTES := 1024

  datatype CoapAttempt =
    | DialError(at: int)
    | DeadlineError
    | WriteError(at: int)
    | ConnClosed
    | CoapReadError(at: int)
    | Reply(payload: seq<byte>, at: int)
  {
    predicate Retriable() { DialError? || WriteError? || CoapReadError? }

    function Outcome(): Effect {
      Effect(if DeadlineError? || ConnClosed? then None else if Retriable() then Some(Failure(at)) else Some(Success(at)),
                    Retriable())
    }
  }

  function CoapEffects(attempts: seq<CoapAttempt>): (es: seq<Effect>)
    ensures |es| == |attempts| && forall i :: 0 <= i < |es| ==> es[i] == attempts[i].Outcome()
  {
    seq(|attempts|, i requires 0 <= i < |attempts| => attempts[i].Outcome())
  }

  datatype CoapResult =
    | CoapCircuitOpen | PayloadTooLarge | ResolveFailed | CoapRetryExhausted
    | DialFailed | DeadlineFailed | WriteFailed | Closed | CoapReadFailed | Payload(payload: seq<byte>)

  function CoapResultOf(a: CoapAttempt): CoapResult {
    match a
    case DialError(_) => DialFailed
    case DeadlineError => DeadlineFailed
    case WriteError(_) => WriteFailed
    case ConnClosed => Closed
    case CoapReadError(_) => CoapReadFailed
    case Reply(payload, _) => Payload(payload)
  }

  /** The same in terms of what happened: dial, write and read errors are failures and are tried again while
      attempts are left; a reply is a success; a deadline that cannot be set and a closed connection end the call
      unmarked. */
  lemma CoapCallInNumbers(attempts: seq<CoapAttempt>, retries: int, made: int, before: Fields)
    requires retries >= 1 && Tried(CoapEffects(attempts), retries, made)
    ensures 1 <= made <= retries && made <= |attempts|
    ensures forall i :: 0 <= i < made - 1 ==> attempts[i].DialError? || attempts[i].WriteError? || attempts[i].CoapReadError?
    ensures var a, after := attempts[made - 1], CallFields(before, CoapEffects(attempts), made);
            && (made < retries ==> a.DeadlineError? || a.ConnClosed? || a.Reply?)
            && (a.Reply? ==> CoapResultOf(a) == Payload(a.payload) && after == Fields(0, 0))
            && (a.DeadlineError? ==> CoapResultOf(a) == DeadlineFailed) && (a.ConnClosed? ==> CoapResultOf(a) == Closed)
            && (a.DialError? ==> CoapResultOf(a) == DialFailed) && (a.WriteError? ==> CoapResultOf(a) == WriteFailed)
            && (a.CoapReadError? ==> CoapResultOf(a) == CoapReadFailed)
            && (a.DialError? || a.WriteError? || a.CoapReadError? ==> Counted(before, after, made, a.at))
            && (a.DeadlineError? || a.ConnClosed? ==> after.cbFails == before.cbFails + made - 1)
  {
    var es := CoapEffects(attempts);
    FailuresAddUp(before, es, made - 1);
    if es[made - 1].mark.Some? && es[made - 1].mark.value.Failure? { FailuresAddUp(before, es, made); }
  }

  /** The attempt loop; no result when it runs out, which needs `retries` below 1. */
  method CoapAttempts(b: Breaker, retries: int, attempts: seq<CoapAttempt>)
    returns (result: Option<CoapResult>, ghost made: nat)
    requires |attempts| >= retries
    modifies b
    ensures if retries < 1 then made == 0 && result == None
            else Tried(CoapEffects(attempts), retries, made) && result == Some(CoapResultOf(attempts[made - 1]))
    ensures made <= |attempts| && b.View() == CallFields(old(b.View()), CoapEffects(attempts), made)
  {
    ghost var es := CoapEffects(attempts);
    made := 0;
    var attempt := 1;
    while attempt <= retries
      invariant made == attempt - 1 && if retries < 1 then attempt == 1 else 1 <= attempt <= retries
      invariant b.View() == CallFields(old(b.View()), es, made)
      invariant forall i :: 0 <= i < made ==> attempts[i].Retriable()
    {
      var a := attempts[attempt - 1];
      made := attempt;
      if a.DialError? {
        b.MarkFailure(a.at);
        if attempt < retries { attempt := attempt + 1; continue; }
        return Some(DialFailed), made;
      }
      if a.DeadlineError? { return Some(DeadlineFailed), made; }
      if a.WriteError? {
        b.MarkFailure(a.at);
        if attempt < retries { attempt := attempt + 1; continue; }
        return Some(WriteFailed), made;
      }
      if a.ConnClosed? { return Some(Closed), made; }
      if a.CoapReadError? {
        b.MarkFailure(a.at);
        if attempt < retries { attempt := attempt + 1; continue; }
        return Some(CoapReadFailed), made;
      }
      b.MarkSuccess(a.at);
      return Some(Payload(a.payload)), made;
    }
    return None, made;
  }

  /** What a CoAP call returns and which marks it leaves.  Running out of the loop counts as one more
      failure: unreachable for `retries` at least 1, and the only mark of a call otherwise. */
  ghost predicate CoapCalled(attempts: seq<CoapAttempt>, retries: int, made: int, result: CoapResult, marks: seq<Mark>, end: int) {
    if retries < 1 then made == 0 && result == CoapRetryExhausted && marks == [Failure(end)]
    else Tried(CoapEffects(attempts), retries, made) && result == CoapResultOf(attempts[made - 1])
         && marks == CallMarks(CoapEffects(attempts), made)
  }

  method DoCoap(b: Breaker, retries: int, payloadLength: nat, resolves: bool, attempts: seq<CoapAttempt>, now: int, end: int,
                ghost history: seq<Mark>)
    returns (result: CoapResult, ghost made: nat, ghost marks: seq<Mark>)
    requires b.View() == FieldsAfter(history) && now >= 0 && |attempts| >= retries
    modifies b
    ensures b.View() == FieldsAfter(history + marks)
    ensures result.CoapCircuitOpen? <==> now < old(b.cbOpenUntil)
    ensures if OpenByHistory(history, now) then marks == [] && result == CoapCircuitOpen
            else if payloadLength > 1024 then marks == [] && result == PayloadTooLarge
            else if !resolves then marks == [] && result == ResolveFailed
            else CoapCalled(attempts, retries, made, result, marks, end)
  {
    made, marks := 0, [];
    assert history + [] == history;
    var open := b.IsCircuitOpen(now, history);
    if open { return CoapCircuitOpen, made, marks; }
    if payloadLength > MAX_COAP_PAYLOAD_BYTES { return PayloadTooLarge, made, marks; }
    if !resolves { return ResolveFailed, made, marks; }
    var settled;
    settled, made := CoapAttempts(b, retries, attempts);
    if settled.Some? {
      marks := CallMarks(CoapEffects(attempts), made);
      FieldsAreMarks(FieldsAfter(history), CoapEffects(attempts), made);
      MarksConcat(Fields(0, 0), history, marks);
      return settled.value, made, marks;
    }
    b.MarkFailure(end);
    marks := [Failure(end)];
    OneMore(Fields(0, 0), history, Failure(end));
    return CoapRetryExhausted, made, marks;
  }
}
