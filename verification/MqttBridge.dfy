/** The MQTT-to-MQTT bridge: it subscribes by levels but rewrites topics as raw strings. */
module MqttBridge {
  import opened Common
  import opened TopicLevels
  import opened TopicMatch

  function TrimSuffix(s: string, c: char): string {
    if s != "" && s[|s|-1] == c then s[..|s|-1] else s
  }

  function StripWildcard(pattern: string): string { TrimSuffix(TrimSuffix(pattern, '#'), '+') }

  /** What stripping removes: one '#' at the end, and then one '+'. */
  lemma StripsOneOfEach(pattern: string)
    ensures var r := StripWildcard(pattern);
            && (pattern == r || pattern == r + "#" || pattern == r + "+" || pattern == r + "+#")
            && (pattern == r ==> r == "" || (r[|r|-1] != '#' && r[|r|-1] != '+'))
            && (pattern == r + "#" ==> r == "" || r[|r|-1] != '+')
  {
    var s := TrimSuffix(pattern, '#');
    assert pattern == s || pattern == s + "#";
    assert s == StripWildcard(pattern) || s == StripWildcard(pattern) + "+";
    assert StripWildcard(pattern) + "+" + "#" == StripWildcard(pattern) + "+#";
  }

  /** The first position at which sub occurs in s. */
  function FirstIndex(s: string, sub: string): (r: Option<nat>)
    ensures r.Some? ==> r.value + |sub| <= |s|
  {
    if sub <= s then Some(0)
    else if s == "" then None
    else
      var rest := FirstIndex(s[1..], sub);
      if rest.None? then None else Some(rest.value + 1)
  }

  lemma {:induction false} FirstIndexIs(s: string, sub: string)
    ensures var r := FirstIndex(s, sub);
            && (r.Some? ==> s[r.value..][..|sub|] == sub && forall i :: 0 <= i < r.value ==> !(sub <= s[i..]))
            && (r.None? ==> forall i :: 0 <= i <= |s| ==> !(sub <= s[i..]))
  {
    if !(sub <= s) && s != "" {
      FirstIndexIs(s[1..], sub);
      assert forall i :: 0 < i <= |s| ==> s[i..] == s[1..][i-1..];
    }
  }

  /** Replaces the first occurrence; an empty `was` occurs at the start. */
  function ReplaceFirst(s: string, was: string, with: string): string {
    match FirstIndex(s, was)
    case None => s
    case Some(i) => s[..i] + with + s[i + |was|..]
  }

  /** The first occurrence, and it alone, is replaced; without one nothing changes. */
  lemma ReplacesTheFirst(a: string, was: string, b: string, with: string)
    requires forall i :: 0 <= i < |a| ==> !(was <= (a + was + b)[i..])
    ensures ReplaceFirst(a + was + b, was, with) == a + with + b
  {
    var s := a + was + b;
    FirstIndexIs(s, was);
    assert s[|a|..] == was + b;
    assert s[..|a|] == a && s[|a| + |was|..] == b;
  }

  lemma ReplacesOnlyOccurrences(s: string, was: string, with: string)
    requires forall i :: 0 <= i <= |s| ==> !(was <= s[i..])
    ensures ReplaceFirst(s, was, with) == s
  {
    FirstIndexIs(s, was);
    if FirstIndex(s, was).Some? { assert was <= s[FirstIndex(s, was).value..]; }
  }

  function DestTopic(source: string, target: string, topic: string): string {
    ReplaceFirst(topic, StripWildcard(source), StripWildcard(target))
  }

  datatype Mapping = Mapping(source: string, target: string)

  datatype Publication = Publication(topic: string, payload: seq<int>)

  function Forwarded(m: Mapping, topic: string, payload: seq<int>): seq<Publication> {
    if BrokerMatches(m.source, topic) then [Publication(DestTopic(m.source, m.target, topic), payload)] else []
  }

  /** What the first n subscriptions, in order, forward of one incoming message. */
  function Forwards(mappings: seq<Mapping>, n: nat, topic: string, payload: seq<int>): seq<Publication>
    requires n <= |mappings|
  {
    if n == 0 then []
    else Forwards(mappings, n - 1, topic, payload) + Forwarded(mappings[n-1], topic, payload)
  }

  /** Mapping by mapping: each publishes behind the earlier ones, once and to its rewritten topic, if its source
      takes the topic, and else nothing. */
  lemma ForwardsInOrder(mappings: seq<Mapping>, n: nat, topic: string, payload: seq<int>)
    requires n < |mappings|
    ensures Forwards(mappings, 0, topic, payload) == []
    ensures BrokerMatches(mappings[n].source, topic) ==>
              Forwards(mappings, n + 1, topic, payload) ==
              Forwards(mappings, n, topic, payload)
              + [Publication(ReplaceFirst(topic, StripWildcard(mappings[n].source), StripWildcard(mappings[n].target)), payload)]
    ensures !BrokerMatches(mappings[n].source, topic) ==>
              Forwards(mappings, n + 1, topic, payload) == Forwards(mappings, n, topic, payload)
  {
  }

  lemma Append(a: seq<Publication>, b: seq<Publication>, c: seq<Publication>)
    ensures a + b + c == a + (b + c)
  {
  }

  class Bridge {
    const mappings: seq<Mapping>
    var published: seq<Publication>

    constructor (mappings: seq<Mapping>)
      ensures this.mappings == mappings && published == []
    {
      this.mappings := mappings;
      published := [];
    }

    /** One message arriving at the broker the bridge is subscribed to, mapping by mapping. */
    method OnMessage(topic: string, payload: seq<int>)
      modifies this
      ensures published == old(published) + Forwards(mappings, |mappings|, topic, payload)
    {
      ghost var before := published;
      var i: nat := 0;
      while i < |mappings|
        invariant i <= |mappings|
        invariant published == before + Forwards(mappings, i, topic, payload)
      {
        Append(before, Forwards(mappings, i, topic, payload), Forwarded(mappings[i], topic, payload));
        Forward(mappings[i], topic, payload);
        i := i + 1;
      }
    }

    /** The handler of one mapping's subscription. */
    method Forward(m: Mapping, topic: string, payload: seq<int>)
      modifies this
      ensures published == old(published) + Forwarded(m, topic, payload)
    {
      var matched := MatchMqttTopicWildcard(m.source, topic);
      if matched {
        var dest := DestTopic(m.source, m.target, topic);
        published := published + [Publication(dest, payload)];
      }
    }
  }

  predicate WildcardFree(s: string) { '+' !in s && '#' !in s }

  /** The filter p followed by the single wildcard level w, with p empty or ending in '/'. */
  predicate TrailingWildcard(filter: string, p: string, w: char) {
    (w == '#' || w == '+') && filter == p + [w] && (p == "" || p[|p|-1] == '/')
  }

  lemma StripOfTrailing(filter: string, p: string, w: char)
    requires TrailingWildcard(filter, p, w)
    ensures StripWildcard(filter) == p
  {
    assert filter[..|filter|-1] == p;
  }

  lemma StripOfPlain(filter: string)
    requires WildcardFree(filter)
    ensures StripWildcard(filter) == filter
  {
  }

  /** Levels of p + tail, for a prefix p that is empty or ends in '/'. */
  lemma SplitAfter(p: string, tail: string)
    requires p == "" || p[|p|-1] == '/'
    ensures p == "" ==> p + tail == tail
    ensures p != "" ==> Split(p + tail) == Split(p[..|p|-1]) + Split(tail)
  {
    if p != "" {
      SplitConcat(p[..|p|-1], tail);
      assert p + tail == p[..|p|-1] + "/" + tail;
    }
  }

  lemma NoWildcardLevels(s: string)
    requires WildcardFree(s)
    ensures forall i :: 0 <= i < |Split(s)| ==> Split(s)[i] != "+" && Split(s)[i] != "#"
  {
    forall i | 0 <= i < |Split(s)| ensures Split(s)[i] != "+" && Split(s)[i] != "#" {
      if '+' in Split(s)[i] { LevelChars(s, i, '+'); }
      if '#' in Split(s)[i] { LevelChars(s, i, '#'); }
    }
  }

  /** The topics that p# and p+ take, as strings, for a prefix p without wildcards. */
  lemma {:induction false} PrefixedMatch(prefix: seq<string>, w: string, t: seq<string>)
    requires forall i :: 0 <= i < |prefix| ==> prefix[i] != "+" && prefix[i] != "#"
    requires w == "#" || w == "+"
    ensures Matches(prefix + [w], t)
            <==> prefix <= t && (w == "+" ==> |t| == |prefix| + 1)
  {
    if prefix == [] {
      assert prefix + [w] == [w];
      if t != [] { assert [w][1..] == [] && (t[1..] == [] <==> |t| == 1); }
    } else {
      assert (prefix + [w])[1..] == prefix[1..] + [w];
      if t != [] {
        PrefixedMatch(prefix[1..], w, t[1..]);
        assert prefix <= t <==> prefix[0] == t[0] && prefix[1..] <= t[1..];
      }
    }
  }

  /** What a filter with one trailing wildcard matches, in terms of strings: the bare parent (for '#')
      and everything that extends the prefix, by a single level for '+'. */
  lemma TrailingMatch(filter: string, p: string, w: char, topic: string)
    requires TrailingWildcard(filter, p, w) && WildcardFree(p)
    ensures AclMatches(filter, topic)
            <==> || (w == '#' && p == topic + "/")
                 || (p <= topic && (w == '+' ==> '/' !in topic[|p|..]))
  {
    SplitAfter(p, [w]);
    SplitLevel([w]);
    if p == "" {
      assert [] + [[w]] == [[w]];
      CutOfValid([[w]]);
      PrefixedMatch([], [w], Split(topic));
      if '/' !in topic { SplitLevel(topic); }
      assert topic[|p|..] == topic;
    } else {
      var q := p[..|p|-1];
      NoWildcardLevels(q);
      assert forall i :: 0 <= i < |q| ==> q[i] == p[i];
      CutOfValid(Split(q) + [[w]]);
      PrefixedMatch(Split(q), [w], Split(topic));
      assert p == q + "/";
      TrailingMatchStrings(q, topic);
      if p <= topic { SplitTail(q, topic); }
    }
  }

  lemma TrailingMatchStrings(q: string, topic: string)
    ensures Split(q) <= Split(topic) <==> topic == q || q + "/" <= topic
  {
    if Split(q) <= Split(topic) { LevelPrefix(q, topic); }
    if q + "/" <= topic { SplitTail(q, topic); }
  }

  lemma SplitTail(q: string, topic: string)
    requires q + "/" <= topic
    ensures var tail := topic[|q|+1..];
            Split(topic) == Split(q) + Split(tail) && (|Split(tail)| == 1 <==> '/' !in tail)
  {
    var tail := topic[|q|+1..];
    assert topic == q + "/" + tail;
    SplitConcat(q, tail);
    if '/' !in tail { SplitLevel(tail); }
  }

  lemma ReplacesPrefix(s: string, was: string, with: string)
    requires was <= s
    ensures ReplaceFirst(s, was, with) == with + s[|was|..]
  {
  }

  lemma ReplacesNothing(s: string, was: string, with: string)
    requires |was| > |s| || exists c :: c in was && c !in s
    ensures ReplaceFirst(s, was, with) == s
  {
    FirstIndexIs(s, was);
    if FirstIndex(s, was).Some? { OccurrenceInside(s, was, FirstIndex(s, was).value); }
  }

  lemma OccurrenceInside(s: string, was: string, i: nat)
    requires i + |was| <= |s| && s[i..][..|was|] == was
    ensures |was| <= |s| && forall c :: c in was ==> c in s
  {
    assert forall k :: 0 <= k < |was| ==> was[k] == s[i..][..|was|][k] == s[i + k];
  }

  /** A filter that ends in one whole-level wildcard and has no other: every matched topic moves to the
      target prefix with the same suffix, and matches the target filter, except the bare parent of a '#'
      filter, which stays where it is. */
  lemma RewriteAgreesWithMatching(source: string, target: string, sp: string, tp: string, w: char, topic: string)
    requires TrailingWildcard(source, sp, w) && WildcardFree(sp)
    requires TrailingWildcard(target, tp, w) && WildcardFree(tp)
    requires AclMatches(source, topic)
    ensures if sp == topic + "/" then DestTopic(source, target, topic) == topic
            else && sp <= topic
                 && DestTopic(source, target, topic) == tp + topic[|sp|..]
                 && AclMatches(target, DestTopic(source, target, topic))
  {
    StripOfTrailing(source, sp, w);
    StripOfTrailing(target, tp, w);
    TrailingMatch(source, sp, w, topic);
    if sp == topic + "/" {
      ReplacesNothing(topic, sp, tp);
    } else {
      ReplacesPrefix(topic, sp, tp);
      var dest := tp + topic[|sp|..];
      assert dest[|tp|..] == topic[|sp|..];
      TrailingMatch(target, tp, w, dest);
    }
  }

  /** So this is what the bridge publishes for one mapping, message by message.  The stars are the
      broker's own addition to the filter language; without them it matches as MQTT does. */
  lemma BridgeForwards(m: Mapping, sp: string, tp: string, w: char, topic: string, payload: seq<int>)
    requires TrailingWildcard(m.source, sp, w) && WildcardFree(sp)
    requires TrailingWildcard(m.target, tp, w) && WildcardFree(tp)
    requires "*" !in CutAtHash(Split(m.source))
    ensures Forwarded(m, topic, payload) ==
            if sp == topic + "/" && w == '#' then [Publication(topic, payload)]
            else if sp <= topic && (w == '+' ==> '/' !in topic[|sp|..]) then [Publication(tp + topic[|sp|..], payload)]
            else []
  {
    MatchersAgreeIffNoStar(m.source);
    TrailingMatch(m.source, sp, w, topic);
    if AclMatches(m.source, topic) { RewriteAgreesWithMatching(m.source, m.target, sp, tp, w, topic); }
  }

  /** A wildcard-free source takes one topic and sends it exactly to its target. */
  lemma PlainMapping(source: string, target: string, topic: string)
    requires WildcardFree(source) && WildcardFree(target)
    ensures AclMatches(source, topic) <==> topic == source
    ensures AclMatches(source, topic) ==> DestTopic(source, target, topic) == target
  {
    NoWildcardLevels(source);
    CutOfValid(Split(source));
    MatchesIsPointwise(Split(source), Split(topic));
    if AclMatches(source, topic) {
      assert Split(source) == Split(topic);
      assert Join(Split(source)) == Join(Split(topic));
    }
    StripOfPlain(source);
    StripOfPlain(target);
    ReplacesPrefix(source, source, target);
    assert target + source[|source|..] == target;
  }

  /** A source with a wildcard before its last level never moves a message: the stripped source still
      contains a wildcard, no topic name does, and the message goes back to the topic it came from. */
  lemma InnerWildcardForwardsInPlace(source: string, target: string, topic: string)
    requires !WildcardFree(StripWildcard(source)) && WildcardFree(topic)
    ensures DestTopic(source, target, topic) == topic
  {
    var sp := StripWildcard(source);
    if '+' in sp { assert '+' in sp && '+' !in topic; } else { assert '#' in sp && '#' !in topic; }
    ReplacesNothing(topic, sp, StripWildcard(target));
  }
}
