/** The bridge publishes on the client it subscribes to, so what it forwards may come back to it: when the
    forwarding of one mapping comes to an end. */
module BridgeLoop {
  import opened Common
  import opened TopicLevels
  import opened TopicMatch
  import opened MqttBridge

  /** What one delivery of a message under the topic makes of it. */
  function Hop(m: Mapping, topic: string): Option<string> {
    if BrokerMatches(m.source, topic) then Some(DestTopic(m.source, m.target, topic)) else None
  }

  function Hops(m: Mapping): string -> Option<string> { (topic: string) => Hop(m, topic) }

  /** The topic after n deliveries, if the message is still on its way. */
  function Chain(hop: string -> Option<string>, topic: string, n: nat): Option<string> {
    if n == 0 then Some(topic)
    else
      var before := Chain(hop, topic, n - 1);
      if before.None? then None else hop(before.value)
  }

  ghost predicate Ends(m: Mapping, topic: string) { exists n: nat :: Chain(Hops(m), topic, n).None? }

  /** A mapping between two filters that end in the same wildcard and have no other. */
  predicate Trailing(m: Mapping, sp: string, tp: string, w: char) {
    && TrailingWildcard(m.source, sp, w) && WildcardFree(sp) && "*" !in CutAtHash(Split(m.source))
    && TrailingWildcard(m.target, tp, w) && WildcardFree(tp)
  }

  lemma HopIs(m: Mapping, sp: string, tp: string, w: char, topic: string)
    requires Trailing(m, sp, tp, w)
    ensures Hop(m, topic) ==
            if sp == topic + "/" && w == '#' then Some(topic)
            else if sp <= topic && (w == '+' ==> '/' !in topic[|sp|..]) then Some(tp + topic[|sp|..])
            else None
  {
    BridgeForwards(m, sp, tp, w, topic, []);
    assert Forwarded(m, topic, []) == match Hop(m, topic) case None => [] case Some(t) => [Publication(t, [])];
  }

  /** A topic that is its own next stop. */
  lemma {:induction false} StaysPut(hop: string -> Option<string>, topic: string, stop: string, from: nat, n: nat)
    requires Chain(hop, topic, from) == Some(stop) && hop(stop) == Some(stop) && n >= from
    ensures Chain(hop, topic, n) == Some(stop)
  {
    if n > from { StaysPut(hop, topic, stop, from, n - 1); }
  }

  lemma {:induction false} StaysUnder(hop: string -> Option<string>, sp: string, topic: string, n: nat)
    requires sp <= topic && forall t :: sp <= t ==> hop(t).Some? && sp <= hop(t).value
    ensures Chain(hop, topic, n).Some? && sp <= Chain(hop, topic, n).value
  {
    if n > 0 { StaysUnder(hop, sp, topic, n - 1); }
  }

  /** The bare parent of a '#' source is delivered to the bridge again and again. */
  lemma BareParentLoops(m: Mapping, sp: string, tp: string, topic: string)
    requires Trailing(m, sp, tp, '#') && sp == topic + "/"
    ensures !Ends(m, topic)
  {
    HopIs(m, sp, tp, '#', topic);
    forall n: nat ensures Chain(Hops(m), topic, n) == Some(topic) { StaysPut(Hops(m), topic, topic, 0, n); }
  }

  /** A target that is a shorter prefix of the source leads some topic to the bare parent. */
  lemma ShorterTargetLoops(m: Mapping, sp: string, tp: string) returns (topic: string)
    requires Trailing(m, sp, tp, '#') && tp <= sp && tp != sp
    ensures sp <= topic && !Ends(m, topic)
  {
    var r := sp[|tp|..];
    var tail := r[..|r|-1];
    var parent := sp[..|sp|-1];
    topic := sp + tail;
    assert sp == parent + "/";
    assert tp + tail == parent;
    HopIs(m, sp, tp, '#', topic);
    HopIs(m, sp, tp, '#', parent);
    assert Hops(m)(topic) == Some(parent) == Hops(m)(parent);
    AfterOne(Hops(m), topic);
    forall n: nat ensures Chain(Hops(m), topic, n).Some? {
      if n > 0 { StaysPut(Hops(m), topic, parent, 1, n); }
    }
  }

  lemma AfterOne(hop: string -> Option<string>, topic: string)
    ensures Chain(hop, topic, 1) == hop(topic)
    ensures hop(topic).Some? && hop(hop(topic).value).None? ==> Chain(hop, topic, 2) == None
  {
    assert Chain(hop, topic, 0) == Some(topic);
  }

  lemma TwoHops(m: Mapping, topic: string)
    requires Hop(m, topic).Some? ==> Hop(m, Hop(m, topic).value).None?
    ensures Ends(m, topic)
  {
    AfterOne(Hops(m), topic);
    assert Hops(m)(topic) == Hop(m, topic);
    if Hop(m, topic).Some? {
      assert Hops(m)(Hop(m, topic).value) == None;
      assert Chain(Hops(m), topic, 2).None?;
    } else {
      assert Chain(Hops(m), topic, 1).None?;
    }
  }

  /** A '#' mapping forwards everything under its prefix a finite number of times if and only if neither
      prefix begins with the other.  The bare parent it always forwards without end. */
  lemma HashChainsEndIff(m: Mapping, sp: string, tp: string)
    requires Trailing(m, sp, tp, '#')
    ensures (forall topic :: sp <= topic ==> Ends(m, topic)) <==> !(sp <= tp) && !(tp <= sp)
    ensures forall topic :: sp == topic + "/" ==> !Ends(m, topic)
  {
    forall topic | sp == topic + "/" ensures !Ends(m, topic) { BareParentLoops(m, sp, tp, topic); }
    if sp <= tp {
      forall t | sp <= t ensures Hops(m)(t).Some? && sp <= Hops(m)(t).value { HopIs(m, sp, tp, '#', t); }
      forall n: nat ensures Chain(Hops(m), sp, n).Some? { StaysUnder(Hops(m), sp, sp, n); }
      assert sp <= sp && !Ends(m, sp);
    } else if tp <= sp {
      var topic := ShorterTargetLoops(m, sp, tp);
    } else {
      forall topic | sp <= topic ensures Ends(m, topic) {
        HopIs(m, sp, tp, '#', topic);
        var next := tp + topic[|sp|..];
        HopIs(m, sp, tp, '#', next);
        assert tp <= next + "/";
        if sp <= next { OneBeginsTheOther(sp, tp, next); }
        TwoHops(m, topic);
      }
    }
  }

  lemma OneBeginsTheOther(a: string, b: string, s: string)
    requires a <= s && b <= s
    ensures a <= b || b <= a
  {
    assert a == s[..|a|] && b == s[..|b|];
    if |a| <= |b| { assert a == b[..|a|]; } else { assert b == a[..|b|]; }
  }

  /** A '+' mapping forwards every topic at most once if its prefixes differ, and without end if they agree. */
  lemma PlusChainsEndIff(m: Mapping, sp: string, tp: string)
    requires Trailing(m, sp, tp, '+')
    ensures (forall topic :: Ends(m, topic)) <==> sp != tp
  {
    if sp == tp {
      var topic := sp + "a";
      assert topic[|sp|..] == "a" && tp + topic[|sp|..] == topic;
      HopIs(m, sp, tp, '+', topic);
      forall n: nat ensures Chain(Hops(m), topic, n) == Some(topic) { StaysPut(Hops(m), topic, topic, 0, n); }
      assert !Ends(m, topic);
    } else {
      forall topic ensures Ends(m, topic) {
        HopIs(m, sp, tp, '+', topic);
        if Hop(m, topic).Some? {
          var x := topic[|sp|..];
          HopIs(m, sp, tp, '+', tp + x);
          if sp <= tp + x && '/' !in (tp + x)[|sp|..] { SamePrefix(sp, tp, x); }
        }
        TwoHops(m, topic);
      }
    }
  }

  /** Two prefixes that end in '/' (or are empty) before the same last level are the same. */
  lemma SamePrefix(sp: string, tp: string, x: string)
    requires (sp == "" || sp[|sp|-1] == '/') && (tp == "" || tp[|tp|-1] == '/')
    requires '/' !in x && sp <= tp + x && '/' !in (tp + x)[|sp|..]
    ensures sp == tp
  {
    NotLonger(sp, tp, x);
    NotShorter(sp, tp, x);
    assert sp == (tp + x)[..|sp|] && tp == (tp + x)[..|tp|];
  }

  lemma NotLonger(sp: string, tp: string, x: string)
    requires (sp == "" || sp[|sp|-1] == '/') && '/' !in x && sp <= tp + x
    ensures |sp| <= |tp|
  {
    var t := tp + x;
    forall k | |tp| <= k < |t| ensures t[k] != '/' { assert t[k] == x[k - |tp|]; }
  }

  lemma NotShorter(sp: string, tp: string, x: string)
    requires (tp == "" || tp[|tp|-1] == '/') && |sp| <= |tp + x| && '/' !in (tp + x)[|sp|..]
    ensures |tp| <= |sp|
  {
    var t := tp + x;
    forall k | |sp| <= k < |t| ensures t[k] != '/' { assert t[k] == t[|sp|..][k - |sp|]; }
    if tp != "" { assert t[|tp|-1] == '/'; }
  }
}
