/** Overlapping deliveries to one call: which reply survives is a race, so "the latest response
    replaces the stale one" holds for deliveries that do not overlap and fails for some that do. */
module SyncRace {
  import opened SyncEngine

  /** Handler b is elsewhere while handler a makes its channel operation e. */
  lemma ChannelOperation(s: State, e: Event, b: Id)
    requires Enabled(s, e) && (e.Drain? || e.Resend?) && b in s.handlers && b != e.h
    ensures var s' := Next(s, e); var c := s.handlers[e.h].ch;
            && s'.channels == s.channels[c := if e.Drain? then Drained(s.channels[c]) else Offered(s.channels[c], e.h)]
            && s'.handlers == s.handlers[e.h := s.handlers[e.h].(pc := if e.Drain? then Resending else Finished)]
            && s'.handlers[b] == s.handlers[b]
  {
  }

  lemma BothDrain(max: nat, s: State, a: Id, b: Id) returns (s': State)
    requires Reachable(max, s) && AtPc(s, a, Draining) && AtPc(s, b, Draining) && a != b
    requires s.handlers[a].ch == s.handlers[b].ch && s.handlers[a].ch in s.channels
    requires |s.channels[s.handlers[a].ch]| <= 1
    ensures Reachable(max, s') && AtPc(s', a, Resending) && AtPc(s', b, Resending)
    ensures s'.handlers[a].ch == s'.handlers[b].ch == s.handlers[a].ch
    ensures s'.channels == s.channels[s.handlers[a].ch := []]
  {
    var s1 := Next(s, Drain(a));
    ReachableNext(max, s, Drain(a));
    ChannelOperation(s, Drain(a), b);
    s' := Next(s1, Drain(b));
    ReachableNext(max, s1, Drain(b));
    ChannelOperation(s1, Drain(b), a);
  }

  lemma FirstResendWins(max: nat, s: State, a: Id, b: Id) returns (s': State)
    requires Reachable(max, s) && AtPc(s, a, Resending) && AtPc(s, b, Resending) && a != b
    requires s.handlers[a].ch == s.handlers[b].ch && s.handlers[a].ch in s.channels && s.channels[s.handlers[a].ch] == []
    ensures Reachable(max, s') && AtPc(s', a, Finished) && AtPc(s', b, Finished)
    ensures s'.channels == s.channels[s.handlers[a].ch := [a]]
  {
    var s1 := Next(s, Resend(a));
    ReachableNext(max, s, Resend(a));
    ChannelOperation(s, Resend(a), b);
    s' := Next(s1, Resend(b));
    ReachableNext(max, s1, Resend(b));
    ChannelOperation(s1, Resend(b), a);
  }

  /** Whenever two deliveries have both found a channel full, either reply can be the one that stays. */
  lemma EitherReplyCanWin(max: nat, s: State, a: Id, b: Id)
    requires Reachable(max, s) && AtPc(s, a, Draining) && AtPc(s, b, Draining) && a != b
    requires s.handlers[a].ch == s.handlers[b].ch
    ensures exists s' :: && Reachable(max, s') && AtPc(s', a, Finished) && AtPc(s', b, Finished)
                         && s'.channels == s.channels[s.handlers[a].ch := [a]]
  {
    ReachableInv(max, s);
    var mid := BothDrain(max, s, a, b);
    var s' := FirstResendWins(max, mid, a, b);
    var c := s.handlers[a].ch;
    assert s'.channels == s.channels[c := []][c := [a]] == s.channels[c := [a]];
  }

  /** One registered call 0 with request id "r", the given handlers, and the given channel content. */
  function OneCall(handlers: map<Id, Handler>, buf: seq<Id>): State {
    State(1, map["r" := 0], map[0 := buf], map[0 := Call("r", InFlight, Open)], handlers)
  }

  lemma CallRegistered()
    ensures Reachable(1, OneCall(map[], []))
  {
    var i := Init(1);
    assert IsRun(i, []) && Run(i, []) == i;
    ReachableNext(1, i, Begin(0, "r"));
    var s := Next(i, Begin(0, "r"));
    ReachableNext(1, s, Register(0));
    assert Next(s, Register(0)) == OneCall(map[], []);
  }

  /** A step from one such state to the next. */
  lemma OneCallSteps(handlers: map<Id, Handler>, buf: seq<Id>, e: Event, handlers': map<Id, Handler>, buf': seq<Id>)
    requires Reachable(1, OneCall(handlers, buf)) && Enabled(OneCall(handlers, buf), e)
    requires Next(OneCall(handlers, buf), e) == OneCall(handlers', buf')
    ensures Reachable(1, OneCall(handlers', buf'))
  {
    ReachableNext(1, OneCall(handlers, buf), e);
  }

  function FromHandler(pc: Pc): Handler { Handler(Reply("r", ""), pc, 0) }

  lemma ReplyFindsCall(handlers: map<Id, Handler>, buf: seq<Id>, h: Id)
    requires Reachable(1, OneCall(handlers, buf)) && h !in handlers
    ensures Reachable(1, OneCall(handlers[h := FromHandler(Sending)], buf))
  {
    var looking := handlers[h := FromHandler(Looking)];
    OneCallSteps(handlers, buf, Arrive(h, Reply("r", "")), looking, buf);
    assert looking[h := FromHandler(Sending)] == handlers[h := FromHandler(Sending)];
    OneCallSteps(looking, buf, Look(h), looking[h := FromHandler(Sending)], buf);
  }

  lemma SendsOnce(handlers: map<Id, Handler>, buf: seq<Id>, h: Id, pc: Pc, buf': seq<Id>)
    requires h in handlers && handlers[h] == FromHandler(Sending) && |buf| <= 1
    requires pc == (if buf == [] then Finished else Draining) && buf' == if buf == [] then [h] else buf
    ensures Enabled(OneCall(handlers, buf), TrySend(h))
    ensures Next(OneCall(handlers, buf), TrySend(h)) == OneCall(handlers[h := FromHandler(pc)], buf')
  {
  }

  lemma ReplyArrives(handlers: map<Id, Handler>, buf: seq<Id>, h: Id)
    requires Reachable(1, OneCall(handlers, buf)) && h !in handlers && |buf| <= 1
    ensures var tried := if buf == [] then Finished else Draining;
            Reachable(1, OneCall(handlers[h := FromHandler(tried)], if buf == [] then [h] else buf))
  {
    ReplyFindsCall(handlers, buf, h);
    var sending := handlers[h := FromHandler(Sending)];
    var tried, buf' := if buf == [] then Finished else Draining, if buf == [] then [h] else buf;
    SendsOnce(sending, buf, h, tried, buf');
    OneCallSteps(sending, buf, TrySend(h), sending[h := FromHandler(tried)], buf');
    assert sending[h := FromHandler(tried)] == handlers[h := FromHandler(tried)];
  }

  /** The race is real: reply 3 arrives when reply 2 is already being delivered, and reply 2 is what stays. */
  lemma LatestReplyCanLose()
    ensures exists s, s' ::
              && Reachable(1, s) && AtPc(s, 2, Draining) && 3 !in s.handlers
              && Reachable(1, s') && AtPc(s', 2, Finished) && AtPc(s', 3, Finished)
              && 0 in s'.channels && s'.channels[0] == [2]
  {
    CallRegistered();
    ReplyArrives(map[], [], 1);
    var one := map[1 := FromHandler(Finished)];
    assert map[][1 := FromHandler(Finished)] == one;
    ReplyArrives(one, [1], 2);
    var two := one[2 := FromHandler(Draining)];
    var s := OneCall(two, [1]);
    ReplyArrives(two, [1], 3);
    var full := OneCall(two[3 := FromHandler(Draining)], [1]);
    EitherReplyCanWin(1, full, 2, 3);
    var s' :| Reachable(1, s') && AtPc(s', 2, Finished) && AtPc(s', 3, Finished) && s'.channels == full.channels[0 := [2]];
    assert Reachable(1, s) && AtPc(s, 2, Draining) && 3 !in s.handlers;
    assert s'.channels[0] == [2];
  }
}
