/** "The latest reply replaces the stale one": exactly when it does.  A handler that has found its
    channel and is about to send stands against the other handlers that hold the same channel. */
module LatestReply {
  import opened SyncEngine

  /** Handler h has found channel c and still has operations on it to make. */
  predicate Busy(s: State, h: Id, c: Id) {
    h in s.handlers && s.handlers[h].ch == c && s.handlers[h].pc.Holds() && !s.handlers[h].pc.Finished?
  }

  /** A step that neither takes from channel c nor lets another handler find it. */
  predicate Leaves(s: State, e: Event, c: Id)
    requires Enabled(s, e)
  {
    && e != Take(c)
    && (e.Look? ==> !Busy(Next(s, e), e.h, c))
  }

  predicate Quiet(s: State, es: seq<Event>, c: Id)
    requires IsRun(s, es)
    decreases |es|
  {
    es == [] || (Leaves(s, es[0], c) && Quiet(Next(s, es[0]), es[1..], c))
  }

  /** Every handler that holds channel c has finished. */
  predicate AtRest(s: State, c: Id) { forall h :: h in s.handlers ==> !Busy(s, h, c) }

  /** No rival of handler a is before its drain; and past it there is at most one, with the channel still empty. */
  predicate Unopposed(s: State, a: Id)
    requires a in s.handlers && s.handlers[a].ch in s.channels
  {
    var c := s.handlers[a].ch;
    && (forall h :: h in s.handlers && h != a && Busy(s, h, c) ==> s.handlers[h].pc.Resending? && s.channels[c] == [])
    && (forall h, k :: h in s.handlers && k in s.handlers && h != a && k != a && Busy(s, h, c) && Busy(s, k, c) ==> h == k)
  }

  /** Whatever happens, short of the waiter taking a reply or another handler finding the channel:
      once all that hold the channel have finished, it holds the reply of handler a. */
  ghost predicate SurelyStays(s: State, a: Id)
    requires a in s.handlers
  {
    var c := s.handlers[a].ch;
    forall es :: IsRun(s, es) && Quiet(s, es, c) && AtRest(Run(s, es), c) ==>
      c in Run(s, es).channels && Run(s, es).channels[c] == [a]
  }

  // ----- Unopposed, the reply stays -----

  /** What an unopposed delivery keeps, wherever handler a is. */
  predicate Winning(s: State, a: Id, c: Id) {
    && a in s.handlers && s.handlers[a].ch == c && s.handlers[a].pc.Holds() && c in s.channels
    && (forall h :: h in s.handlers && h != a && Busy(s, h, c) ==> s.handlers[h].pc.Resending?)
    && (forall h, k :: h in s.handlers && k in s.handlers && h != a && k != a && Busy(s, h, c) && Busy(s, k, c) ==> h == k)
    && match s.handlers[a].pc {
         case Sending => forall h :: h in s.handlers && h != a && Busy(s, h, c) ==> s.channels[c] == []
         case Draining => forall h :: h in s.handlers && h != a ==> !Busy(s, h, c)
         case Resending => s.channels[c] == [] && forall h :: h in s.handlers && h != a ==> !Busy(s, h, c)
         case _ => s.channels[c] == [a]
       }
  }

  lemma WinningCallStep(s: State, e: Event, a: Id, c: Id)
    requires Owned(s) && Enabled(s, e) && e.OfCall() && e != Take(c) && Winning(s, a, c)
    ensures Winning(Next(s, e), a, c)
  {
    var s' := Next(s, e);
    assert s'.handlers == s.handlers;
    assert c in s'.channels && s'.channels[c] == s.channels[c];
    assert forall h :: h in s.handlers ==> Busy(s', h, c) == Busy(s, h, c);
  }

  lemma WinningElsewhere(s: State, e: Event, a: Id, c: Id)
    requires Enabled(s, e) && !e.OfCall() && Winning(s, a, c)
    requires e.Arrive? || e.Look? || s.handlers[e.h].ch != c
    requires Leaves(s, e, c)
    ensures Winning(Next(s, e), a, c)
  {
    var s' := Next(s, e);
    assert e.h != a;
    assert c in s'.channels && s'.channels[c] == s.channels[c];
    assert forall h :: h in s'.handlers && Busy(s', h, c) ==> h in s.handlers && Busy(s, h, c) && s'.handlers[h] == s.handlers[h];
    assert s'.handlers[a] == s.handlers[a];
  }

  lemma WinningOnChannel(s: State, e: Event, a: Id, c: Id)
    requires Enabled(s, e) && (e.TrySend? || e.Drain? || e.Resend?) && s.handlers[e.h].ch == c
    requires Winning(s, a, c) && |s.channels[c]| <= 1
    ensures Winning(Next(s, e), a, c)
  {
    var s' := Next(s, e);
    assert forall h :: h in s.handlers && h != e.h ==> s'.handlers[h] == s.handlers[h] && Busy(s', h, c) == Busy(s, h, c);
    assert Busy(s, e.h, c);
  }

  lemma {:induction false} WinningRun(s: State, es: seq<Event>, a: Id, c: Id)
    requires Inv(s) && IsRun(s, es) && Quiet(s, es, c) && Winning(s, a, c)
    ensures Winning(Run(s, es), a, c)
    decreases |es|
  {
    if es != [] {
      var e := es[0];
      StepInv(s, e);
      if e.OfCall() {
        WinningCallStep(s, e, a, c);
      } else if e.Arrive? || e.Look? || s.handlers[e.h].ch != c {
        WinningElsewhere(s, e, a, c);
      } else {
        WinningOnChannel(s, e, a, c);
      }
      WinningRun(Next(s, e), es[1..], a, c);
    }
  }

  // ----- Opposed, there is a schedule in which it does not -----

  /** State t can be reached from s without taking from channel c or finding it anew. */
  ghost predicate LeadsTo(s: State, t: State, c: Id) {
    exists es :: IsRun(s, es) && Quiet(s, es, c) && Run(s, es) == t
  }

  lemma {:induction false} QuietConcat(s: State, es: seq<Event>, fs: seq<Event>, c: Id)
    requires IsRun(s, es) && Quiet(s, es, c) && IsRun(Run(s, es), fs) && Quiet(Run(s, es), fs, c)
    ensures IsRun(s, es + fs) && Quiet(s, es + fs, c) && Run(s, es + fs) == Run(Run(s, es), fs)
    decreases |es|
  {
    RunConcat(s, es, fs);
    if es == [] {
      assert es + fs == fs;
    } else {
      assert (es + fs)[0] == es[0] && (es + fs)[1..] == es[1..] + fs;
      QuietConcat(Next(s, es[0]), es[1..], fs, c);
    }
  }

  lemma LeadsOn(s: State, t: State, u: State, c: Id)
    requires LeadsTo(s, t, c) && LeadsTo(t, u, c)
    ensures LeadsTo(s, u, c)
  {
    var es :| IsRun(s, es) && Quiet(s, es, c) && Run(s, es) == t;
    var fs :| IsRun(t, fs) && Quiet(t, fs, c) && Run(t, fs) == u;
    QuietConcat(s, es, fs, c);
  }

  lemma LeadsNowhere(s: State, c: Id)
    ensures LeadsTo(s, s, c)
  {
    assert IsRun(s, []) && Quiet(s, [], c) && Run(s, []) == s;
  }

  lemma LeadsByOne(s: State, e: Event, c: Id)
    requires Enabled(s, e) && (e.TrySend? || e.Drain? || e.Resend?)
    ensures LeadsTo(s, Next(s, e), c)
  {
    RunOne(s, e);
    var s' := Next(s, e);
    assert [e][1..] == [] && IsRun(s', []) && Quiet(s', [], c);
    assert Quiet(s, [e], c);
  }

  /** State t differs from s only in the content of channel c and the position of handler h on it. */
  ghost predicate Moved(s: State, t: State, h: Id, c: Id) {
    && h in s.handlers && h in t.handlers && c in s.channels && c in t.channels
    && t == s.(channels := t.channels, handlers := t.handlers)
    && t.channels == s.channels[c := t.channels[c]]
    && t.handlers == s.handlers[h := s.handlers[h].(pc := t.handlers[h].pc)]
    && |t.channels[c]| <= 1
  }

  /** Handler h makes its first channel operation, and its drain if that finds the channel full. */
  lemma RunsToDrained(s: State, h: Id, c: Id) returns (t: State)
    requires Busy(s, h, c) && c in s.channels && |s.channels[c]| <= 1
    ensures LeadsTo(s, t, c) && Moved(s, t, h, c)
    ensures if s.handlers[h].pc.Resending? then t == s
            else if s.handlers[h].pc.Sending? && s.channels[c] == [] then t.handlers[h].pc.Finished? && t.channels[c] == [h]
            else t.handlers[h].pc.Resending? && t.channels[c] == []
  {
    t := s;
    LeadsNowhere(s, c);
    if t.handlers[h].pc.Sending? {
      LeadsByOne(t, TrySend(h), c);
      t := Next(t, TrySend(h));
    }
    if t.handlers[h].pc.Draining? {
      var u := Next(t, Drain(h));
      LeadsByOne(t, Drain(h), c);
      LeadsOn(s, t, u, c);
      t := u;
    }
  }

  /** ... and then its last one. */
  lemma RunsToEnd(s: State, h: Id, c: Id) returns (t: State)
    requires Busy(s, h, c) && c in s.channels && |s.channels[c]| <= 1
    ensures LeadsTo(s, t, c) && Moved(s, t, h, c) && t.handlers[h].pc.Finished?
    ensures t.channels[c] == if s.handlers[h].pc.Resending? && s.channels[c] != [] then s.channels[c] else [h]
  {
    t := RunsToDrained(s, h, c);
    if t.handlers[h].pc.Resending? {
      var u := Next(t, Resend(h));
      LeadsByOne(t, Resend(h), c);
      LeadsOn(s, t, u, c);
      t := u;
    }
  }

  function BusyOn(s: State, c: Id): set<Id> { set h | h in s.handlers && Busy(s, h, c) }

  /** Handler a is through and its reply is gone. */
  predicate Lost(s: State, a: Id, c: Id) {
    && a in s.handlers && s.handlers[a].ch == c && s.handlers[a].pc.Finished?
    && c in s.channels && |s.channels[c]| <= 1 && s.channels[c] != [a]
  }

  /** Once lost it stays lost, while all the others finish. */
  lemma {:induction false} LostForGood(s: State, a: Id, c: Id) returns (t: State)
    requires Lost(s, a, c)
    ensures LeadsTo(s, t, c) && Lost(t, a, c) && AtRest(t, c)
    decreases |BusyOn(s, c)|
  {
    if h :| h in BusyOn(s, c) {
      var next := RunsToEnd(s, h, c);
      assert BusyOn(next, c) == BusyOn(s, c) - {h};
      t := LostForGood(next, a, c);
      LeadsOn(s, next, t, c);
    } else {
      t := s;
      LeadsNowhere(s, c);
      assert forall h :: h in s.handlers && Busy(s, h, c) ==> h in BusyOn(s, c);
    }
  }

  /** A rival that has not drained yet moves after handler a. */
  lemma RivalComesAfter(s: State, a: Id, b: Id, c: Id) returns (t: State)
    requires Busy(s, a, c) && s.handlers[a].pc.Sending? && Busy(s, b, c) && !s.handlers[b].pc.Resending? && a != b
    requires c in s.channels && |s.channels[c]| <= 1
    ensures LeadsTo(s, t, c) && Lost(t, a, c)
  {
    var done := RunsToEnd(s, a, c);
    t := RunsToEnd(done, b, c);
    LeadsOn(s, done, t, c);
  }

  /** A rival past its drain, with the channel full again: handler a drains it and the rival fills it first. */
  lemma RivalFillsFirst(s: State, a: Id, b: Id, c: Id) returns (t: State)
    requires Busy(s, a, c) && s.handlers[a].pc.Sending? && Busy(s, b, c) && s.handlers[b].pc.Resending? && a != b
    requires c in s.channels && |s.channels[c]| == 1
    ensures LeadsTo(s, t, c) && Lost(t, a, c)
  {
    var drained := RunsToDrained(s, a, c);
    var filled := RunsToEnd(drained, b, c);
    LeadsOn(s, drained, filled, c);
    t := RunsToEnd(filled, a, c);
    LeadsOn(s, filled, t, c);
  }

  /** Two rivals past their drains: the first fills the channel, and then the second does as above. */
  lemma SecondRivalFillsFirst(s: State, a: Id, b: Id, b': Id, c: Id) returns (t: State)
    requires Busy(s, a, c) && s.handlers[a].pc.Sending? && a != b && a != b' && b != b'
    requires Busy(s, b, c) && s.handlers[b].pc.Resending? && Busy(s, b', c) && s.handlers[b'].pc.Resending?
    requires c in s.channels && s.channels[c] == []
    ensures LeadsTo(s, t, c) && Lost(t, a, c)
  {
    var full := RunsToEnd(s, b, c);
    t := RivalFillsFirst(full, a, b', c);
    LeadsOn(s, full, t, c);
  }

  lemma OpposedCanLose(s: State, a: Id) returns (t: State)
    requires Correlated(s) && AtPc(s, a, Sending) && !Unopposed(s, a)
    ensures LeadsTo(s, t, s.handlers[a].ch) && Lost(t, a, s.handlers[a].ch)
  {
    var c := s.handlers[a].ch;
    if b :| b in s.handlers && b != a && Busy(s, b, c) && !s.handlers[b].pc.Resending? {
      t := RivalComesAfter(s, a, b, c);
    } else if b :| b in s.handlers && b != a && Busy(s, b, c) && s.channels[c] != [] {
      t := RivalFillsFirst(s, a, b, c);
    } else {
      var b, b' :| b in s.handlers && b' in s.handlers && b != a && b' != a && Busy(s, b, c) && Busy(s, b', c) && b != b';
      t := SecondRivalFillsFirst(s, a, b, b', c);
    }
  }

  /** The exact condition: a handler about to send is sure to leave its reply in the channel if and only if
      it is unopposed.  Steps on other channels, and handlers that have finished, do no harm. */
  lemma LatestStaysIffUnopposed(max: nat, s: State, a: Id)
    requires Reachable(max, s) && AtPc(s, a, Sending)
    ensures s.handlers[a].ch in s.channels
    ensures SurelyStays(s, a) <==> Unopposed(s, a)
  {
    ReachableInv(max, s);
    var c := s.handlers[a].ch;
    if Unopposed(s, a) {
      forall es | IsRun(s, es) && Quiet(s, es, c) && AtRest(Run(s, es), c)
        ensures c in Run(s, es).channels && Run(s, es).channels[c] == [a]
      {
        WinningRun(s, es, a, c);
        assert !Busy(Run(s, es), a, c);
      }
    } else {
      var lost := OpposedCanLose(s, a);
      var t := LostForGood(lost, a, c);
      LeadsOn(s, lost, t, c);
    }
  }

  /** The claim is not about nothing: from every such state all holders of the channel can finish. */
  lemma {:induction false} CanComeToRest(s: State, c: Id) returns (t: State)
    requires c in s.channels && |s.channels[c]| <= 1
    ensures LeadsTo(s, t, c) && AtRest(t, c)
    decreases |BusyOn(s, c)|
  {
    if h :| h in BusyOn(s, c) {
      var next := RunsToEnd(s, h, c);
      assert BusyOn(next, c) == BusyOn(s, c) - {h};
      t := CanComeToRest(next, c);
      LeadsOn(s, next, t, c);
    } else {
      t := s;
      LeadsNowhere(s, c);
      assert forall h :: h in s.handlers && Busy(s, h, c) ==> h in BusyOn(s, c);
    }
  }
}
