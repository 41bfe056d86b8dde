/** The two wildcard matchers of the system (access control and in-memory broker) against the
    matching rules of section 4.7 of MQTT 3.1.1. */
module TopicMatch {
  import opened TopicLevels

  /** Section 4.7 on levels: '+' stands for one level, a last '#' for any remaining levels, the parent included. */
  predicate Matches(filter: seq<string>, topic: seq<string>) {
    if filter == [] then topic == []
    else if filter[0] == "#" then |filter| == 1
    else topic != [] && (filter[0] == "+" || filter[0] == topic[0]) && Matches(filter[1..], topic[1..])
  }

  /** Section 4.7.1: a wildcard fills its level, and '#' is the last level. */
  predicate ValidFilter(filter: seq<string>) {
    forall i :: 0 <= i < |filter| ==>
      && ('#' in filter[i] ==> filter[i] == "#" && i == |filter| - 1)
      && ('+' in filter[i] ==> filter[i] == "+")
  }

  /** The levels up to and including the first '#': all that either matcher looks at. */
  function CutAtHash(filter: seq<string>): seq<string> {
    if filter == [] then []
    else if filter[0] == "#" then ["#"]
    else [filter[0]] + CutAtHash(filter[1..])
  }

  function StarAsPlus(filter: seq<string>): (r: seq<string>)
    ensures |r| == |filter|
    ensures forall i :: 0 <= i < |r| ==> r[i] == if filter[i] == "*" then "+" else filter[i]
  {
    if filter == [] then [] else [if filter[0] == "*" then "+" else filter[0]] + StarAsPlus(filter[1..])
  }

  function AclMatches(pattern: string, topic: string): bool { Matches(CutAtHash(Split(pattern)), Split(topic)) }

  function BrokerMatches(pattern: string, topic: string): bool {
    Matches(StarAsPlus(CutAtHash(Split(pattern))), Split(topic))
  }

  /** The position of the first '#' level, or the number of levels. */
  function FirstHash(filter: seq<string>): (n: nat)
    ensures n <= |filter| && (n < |filter| ==> filter[n] == "#") && forall i :: 0 <= i < n ==> filter[i] != "#"
  {
    if filter == [] || filter[0] == "#" then 0 else 1 + FirstHash(filter[1..])
  }

  lemma {:induction false} CutIsPrefix(filter: seq<string>)
    ensures var n := FirstHash(filter);
            CutAtHash(filter) == if n < |filter| then filter[..n] + ["#"] else filter
  {
    if filter != [] && filter[0] != "#" {
      CutIsPrefix(filter[1..]);
      assert filter == [filter[0]] + filter[1..];
    }
  }

  /** What the matchers decide, level by level, for every filter: up to the first '#' each level is a wildcard or
      the topic's own, and without a '#' there are no further levels. */
  lemma MatchersLevelByLevel(pattern: string, topic: string)
    ensures var f, t := Split(pattern), Split(topic);
            var n := FirstHash(f);
            && (AclMatches(pattern, topic)
                <==> (if n < |f| then n <= |t| else n == |t|) && forall i :: 0 <= i < n ==> f[i] == "+" || f[i] == t[i])
            && (BrokerMatches(pattern, topic)
                <==> (if n < |f| then n <= |t| else n == |t|)
                     && forall i :: 0 <= i < n ==> f[i] == "+" || f[i] == "*" || f[i] == t[i])
  {
    var f, t := Split(pattern), Split(topic);
    CutIsPrefix(f);
    CutMatches(f, CutAtHash(f), t);
    StarsAt(f, CutAtHash(f), StarAsPlus(CutAtHash(f)), FirstHash(f));
    StarsMatch(f, FirstHash(f), StarAsPlus(CutAtHash(f)), t);
  }

  lemma CutMatches(f: seq<string>, g: seq<string>, t: seq<string>)
    requires g == CutAtHash(f)
    ensures var n := FirstHash(f);
            Matches(g, t) <==> (if n < |f| then n <= |t| else n == |t|) && forall i :: 0 <= i < n ==> f[i] == "+" || f[i] == t[i]
  {
    CutIsPrefix(f);
    HashLast(g, FirstHash(f), t);
  }

  lemma StarsMatch(f: seq<string>, n: nat, g: seq<string>, t: seq<string>)
    requires n <= |f| && (if n < |f| then |g| == n + 1 && g[n] == "#" else |g| == n)
    requires forall i :: 0 <= i < n ==> g[i] == (if f[i] == "*" then "+" else f[i]) && g[i] != "#"
    ensures Matches(g, t)
            <==> (if n < |f| then n <= |t| else n == |t|) && forall i :: 0 <= i < n ==> f[i] == "+" || f[i] == "*" || f[i] == t[i]
  {
    HashLast(g, n, t);
  }

  lemma StarsAt(f: seq<string>, h: seq<string>, g: seq<string>, n: nat)
    requires n <= |f| && h == (if n < |f| then f[..n] + ["#"] else f) && g == StarAsPlus(h)
    requires forall i :: 0 <= i < n ==> f[i] != "#"
    ensures if n < |f| then |g| == n + 1 && g[n] == "#" else |g| == n
    ensures forall i :: 0 <= i < n ==> g[i] == (if f[i] == "*" then "+" else f[i]) && g[i] != "#"
  {
    assert forall i :: 0 <= i < n ==> h[i] == f[i];
  }

  /** Levels without a '#', and at most one after them. */
  lemma HashLast(g: seq<string>, n: nat, t: seq<string>)
    requires n <= |g| <= n + 1 && (n < |g| ==> g[n] == "#") && forall i :: 0 <= i < n ==> g[i] != "#"
    ensures Matches(g, t) <==> (if n < |g| then n <= |t| else n == |t|) && forall i :: 0 <= i < n ==> g[i] == "+" || g[i] == t[i]
  {
    MatchesIsPointwise(g, t);
  }

  /** The access-control matcher. */
  method MatchMqttTopic(pattern: string, topic: string) returns (r: bool)
    ensures r == AclMatches(pattern, topic)
  {
    var pp := Split(pattern);
    var tp := Split(topic);
    var i := 0;
    while i < |pp|
      invariant 0 <= i <= |pp| && i <= |tp|
      invariant AclMatches(pattern, topic) == Matches(CutAtHash(pp[i..]), tp[i..])
    {
      assert pp[i..][1..] == pp[i+1..];
      if pp[i] == "#" { return true; }
      if i >= |tp| { return false; }
      assert tp[i..][1..] == tp[i+1..];
      assert CutAtHash(pp[i..])[1..] == CutAtHash(pp[i+1..]);
      if pp[i] == "+" { i := i + 1; continue; }
      if pp[i] != tp[i] { return false; }
      i := i + 1;
    }
    return |pp| == |tp|;
  }

  /** The broker's level matcher, which also takes '*' for one level. */
  method MatchLevels(pp: seq<string>, tp: seq<string>) returns (r: bool)
    ensures r == Matches(StarAsPlus(CutAtHash(pp)), tp)
  {
    var pi, ti := 0, 0;
    while pi < |pp|
      invariant 0 <= pi == ti <= |pp| && ti <= |tp|
      invariant Matches(StarAsPlus(CutAtHash(pp)), tp) == Matches(StarAsPlus(CutAtHash(pp[pi..])), tp[ti..])
    {
      assert pp[pi..][1..] == pp[pi+1..];
      if pp[pi] == "#" { return true; }
      if ti >= |tp| { return false; }
      assert tp[ti..][1..] == tp[ti+1..];
      assert StarAsPlus(CutAtHash(pp[pi..]))[1..] == StarAsPlus(CutAtHash(pp[pi+1..]));
      if pp[pi] == "+" || pp[pi] == "*" { pi := pi + 1; ti := ti + 1; continue; }
      if pp[pi] != tp[ti] { return false; }
      pi := pi + 1;
      ti := ti + 1;
    }
    return |pp| == |tp|;
  }

  /** The broker's matcher with its equality shortcut, which the contract shows to be redundant. */
  method MatchMqttTopicWildcard(pattern: string, topic: string) returns (r: bool)
    ensures r == BrokerMatches(pattern, topic)
  {
    if pattern == topic {
      MatchesItself(Split(pattern));
      return true;
    }
    var pp := Split(pattern);
    var tp := Split(topic);
    r := MatchLevels(pp, tp);
  }

  lemma {:induction false} MatchesItself(levels: seq<string>)
    ensures Matches(StarAsPlus(CutAtHash(levels)), levels)
  {
    if levels != [] && levels[0] != "#" {
      MatchesItself(levels[1..]);
      assert StarAsPlus(CutAtHash(levels))[1..] == StarAsPlus(CutAtHash(levels[1..]));
    }
  }

  lemma {:induction false} CutOfValid(filter: seq<string>)
    requires forall i :: 0 <= i < |filter| && filter[i] == "#" ==> i == |filter| - 1
    ensures CutAtHash(filter) == filter
  {
    if filter != [] && filter[0] != "#" {
      forall i | 0 <= i < |filter[1..]| && filter[1..][i] == "#" ensures i == |filter[1..]| - 1 {
        assert filter[i + 1] == "#";
      }
      CutOfValid(filter[1..]);
    }
  }

  /** Matching, level by level: a filter ending in '#' matches a topic with at least its other levels,
      any other filter a topic with as many levels, and every level agrees or is '+'. */
  predicate MatchesPointwise(filter: seq<string>, topic: seq<string>) {
    var n := if filter != [] && filter[|filter|-1] == "#" then |filter| - 1 else |filter|;
    && (if n < |filter| then n <= |topic| else n == |topic|)
    && forall i :: 0 <= i < n ==> filter[i] == "+" || filter[i] == topic[i]
  }

  lemma PointwiseUnfolds(filter: seq<string>, topic: seq<string>)
    requires filter != [] && filter[0] != "#" && topic != []
    ensures MatchesPointwise(filter, topic)
            <==> (filter[0] == "+" || filter[0] == topic[0]) && MatchesPointwise(filter[1..], topic[1..])
  {
    var f, t := filter[1..], topic[1..];
    var n := if filter[|filter|-1] == "#" then |filter| - 1 else |filter|;
    assert forall i :: 0 <= i < |f| ==> f[i] == filter[i + 1];
    assert forall i :: 0 <= i < |t| ==> t[i] == topic[i + 1];
    if (filter[0] == "+" || filter[0] == topic[0]) && MatchesPointwise(f, t) {
      forall i | 0 <= i < n ensures filter[i] == "+" || filter[i] == topic[i] {
        if i > 0 { assert f[i - 1] == "+" || f[i - 1] == t[i - 1]; }
      }
    }
  }

  lemma {:induction false} MatchesIsPointwise(filter: seq<string>, topic: seq<string>)
    requires forall i :: 0 <= i < |filter| && filter[i] == "#" ==> i == |filter| - 1
    ensures Matches(filter, topic) == MatchesPointwise(filter, topic)
  {
    if filter != [] && filter[0] != "#" && topic != [] {
      var f := filter[1..];
      forall i | 0 <= i < |f| && f[i] == "#" ensures i == |f| - 1 { assert filter[i + 1] == "#"; }
      MatchesIsPointwise(f, topic[1..]);
      PointwiseUnfolds(filter, topic);
    }
  }

  /** The rules of section 4.7 in full, with 4.7.2: a leading wildcard does not match a topic that starts with '$'. */
  predicate MqttMatches(filter: string, topic: string) {
    && Matches(Split(filter), Split(topic))
    && !("$" <= topic && Split(filter)[0] in {"+", "#"})
  }

  /** For valid filters the access-control matcher is the MQTT definition, except that it also lets
      leading wildcards match topics that start with '$'. */
  lemma AclMatcherIsMqtt(filter: string, topic: string)
    requires ValidFilter(Split(filter))
    ensures AclMatches(filter, topic) == Matches(Split(filter), Split(topic))
    ensures AclMatches(filter, topic) == MatchesPointwise(Split(filter), Split(topic))
    ensures MqttMatches(filter, topic) ==> AclMatches(filter, topic)
    ensures AclMatches(filter, topic) && !MqttMatches(filter, topic)
            <==> "$" <= topic && Split(filter)[0] in {"+", "#"} && Matches(Split(filter), Split(topic))
  {
    CutOfValid(Split(filter));
    MatchesIsPointwise(Split(filter), Split(topic));
  }

  /** So the two agree on every topic if and only if the filter does not begin with a wildcard. */
  lemma AclIsMqttIffNoLeadingWildcard(filter: string)
    requires ValidFilter(Split(filter))
    ensures (forall topic :: AclMatches(filter, topic) == MqttMatches(filter, topic)) <==> Split(filter)[0] !in {"+", "#"}
  {
    var f := Split(filter);
    forall topic { AclMatcherIsMqtt(filter, topic); }
    if f[0] in {"+", "#"} {
      var levels := if f[0] == "#" then ["$"] else ["$"] + f[1..];
      var topic := Join(levels);
      SplitJoin(levels);
      if f[0] == "+" { MatchesOwnLevels(f[1..]); }
      assert levels[1..] == if f[0] == "#" then [] else f[1..];
      AclMatcherIsMqtt(filter, topic);
      assert Matches(f, levels) && "$" <= topic;
      assert AclMatches(filter, topic) && !MqttMatches(filter, topic);
    }
  }

  lemma {:induction false} MatchesOwnLevels(levels: seq<string>)
    requires forall i :: 0 <= i < |levels| && levels[i] == "#" ==> i == |levels| - 1
    ensures Matches(levels, levels)
  {
    if levels != [] && levels[0] != "#" {
      forall i | 0 <= i < |levels[1..]| && levels[1..][i] == "#" ensures i == |levels[1..]| - 1 { assert levels[i + 1] == "#"; }
      MatchesOwnLevels(levels[1..]);
    }
  }

  /** The pattern with every '*' level written as '+'. */
  function StarsRewritten(pattern: string): string { Join(StarAsPlus(Split(pattern))) }

  lemma {:induction false} CutOfStars(filter: seq<string>)
    ensures CutAtHash(StarAsPlus(filter)) == StarAsPlus(CutAtHash(filter))
  {
    if filter != [] && filter[0] != "#" {
      CutOfStars(filter[1..]);
      assert StarAsPlus(filter)[1..] == StarAsPlus(filter[1..]);
      assert CutAtHash(filter)[1..] == CutAtHash(filter[1..]);
    }
  }

  /** On every pattern and topic the broker decides as the access control does after '*' is read as '+'. */
  lemma BrokerIsAclOnRewritten(pattern: string, topic: string)
    ensures BrokerMatches(pattern, topic) == AclMatches(StarsRewritten(pattern), topic)
  {
    SplitJoin(StarAsPlus(Split(pattern)));
    CutOfStars(Split(pattern));
  }

  /** The levels of a topic that the broker matches and the access control does not. */
  function Witness(filter: seq<string>): (r: seq<string>)
    ensures |r| == |filter|
  {
    if filter == [] then [] else [if filter[0] == "*" then "a" else filter[0]] + Witness(filter[1..])
  }

  lemma {:induction false} WitnessSplits(filter: seq<string>)
    requires forall l :: l in filter ==> '/' !in l
    ensures forall l :: l in Witness(filter) ==> '/' !in l
    ensures Matches(StarAsPlus(CutAtHash(filter)), Witness(filter))
    ensures "*" in CutAtHash(filter) ==> !Matches(CutAtHash(filter), Witness(filter))
  {
    if filter != [] {
      WitnessSplits(filter[1..]);
      assert Witness(filter)[1..] == Witness(filter[1..]);
      if filter[0] != "#" {
        assert StarAsPlus(CutAtHash(filter))[1..] == StarAsPlus(CutAtHash(filter[1..]));
        assert CutAtHash(filter)[1..] == CutAtHash(filter[1..]);
      }
    }
  }

  lemma {:induction false} NoStars(filter: seq<string>)
    requires "*" !in filter
    ensures StarAsPlus(filter) == filter
  {
  }

  /** The two matchers agree on every topic exactly when the pattern has no '*' level before its first '#'. */
  lemma MatchersAgreeIffNoStar(pattern: string)
    ensures (forall topic :: BrokerMatches(pattern, topic) == AclMatches(pattern, topic))
            <==> "*" !in CutAtHash(Split(pattern))
  {
    var filter := Split(pattern);
    if "*" in CutAtHash(filter) {
      WitnessSplits(filter);
      var topic := Join(Witness(filter));
      SplitJoin(Witness(filter));
      assert BrokerMatches(pattern, topic) != AclMatches(pattern, topic);
    } else {
      NoStars(CutAtHash(filter));
    }
  }
}
