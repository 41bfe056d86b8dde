/** The transfer topics, and which reply stream each of them reaches. */
module TopicSet {
  import opened TopicLevels
  import opened TopicMatch

  /** dd/{tenant}/transfer/{x}/{y} */
  function TransferTopic(tenant: string, x: string, y: string): string {
    "dd" + "/" + tenant + "/" + "transfer" + "/" + x + "/" + y
  }

  function TransferRequest(tenant: string, resource: string): string { TransferTopic(tenant, resource, "request") }

  function TransferResponse(tenant: string, resource: string): string { TransferTopic(tenant, resource, "response") }

  function TransferResponseByRequest(tenant: string, requestId: string): string { TransferTopic(tenant, "response", requestId) }

  function TransferResponseStream(tenant: string): string { TransferTopic(tenant, "+", "response") }

  function TransferResponseByRequestStream(tenant: string): string { TransferTopic(tenant, "response", "+") }

  /** The topics, spelled out. */
  lemma TopicsSpelledOut(tenant: string, resource: string, requestId: string)
    ensures TransferRequest(tenant, resource) == "dd/" + tenant + "/transfer/" + resource + "/request"
    ensures TransferResponse(tenant, resource) == "dd/" + tenant + "/transfer/" + resource + "/response"
    ensures TransferResponseByRequest(tenant, requestId) == "dd/" + tenant + "/transfer/response/" + requestId
    ensures TransferResponseStream(tenant) == "dd/" + tenant + "/transfer/+/response"
    ensures TransferResponseByRequestStream(tenant) == "dd/" + tenant + "/transfer/response/+"
  {
    Spelled(tenant, resource, "request");
    Spelled(tenant, resource, "response");
    Spelled(tenant, "response", requestId);
    Spelled(tenant, "+", "response");
    Spelled(tenant, "response", "+");
    assert "/" + "request" == "/request" && "/" + "response" == "/response" && "/" + "+" == "/+";
  }

  lemma Spelled(tenant: string, x: string, y: string)
    ensures TransferTopic(tenant, x, y) == "dd/" + tenant + "/transfer/" + x + "/" + y
  {
    assert "dd" + "/" == "dd/" && "/" + "transfer" + "/" == "/transfer/";
    assert "dd" + "/" + tenant + "/" + "transfer" + "/" + x + "/" + y == "dd/" + tenant + ("/" + "transfer" + "/") + x + "/" + y;
  }

  lemma TransferLevels(tenant: string, x: string, y: string)
    ensures Split(TransferTopic(tenant, x, y)) == ["dd"] + Split(tenant) + ["transfer"] + Split(x) + Split(y)
  {
    SplitLevel("dd");
    SplitLevel("transfer");
    var a := "dd" + "/" + tenant;
    var b := a + "/" + "transfer";
    var c := b + "/" + x;
    SplitConcat("dd", tenant);
    SplitConcat(a, "transfer");
    SplitConcat(b, x);
    SplitConcat(c, y);
  }

  lemma {:induction false} NoHashNoCut(filter: seq<string>)
    requires "#" !in filter
    ensures CutAtHash(filter) == filter
  {
    CutOfValid(filter);
  }

  /** Two level lists dd/T/transfer/... agree on a common prefix T without a '#' level; what is left decides. */
  lemma {:induction false} SharedPrefix(prefix: seq<string>, f: seq<string>, t: seq<string>)
    requires "#" !in prefix
    ensures Matches(prefix + f, prefix + t) == Matches(f, t)
  {
    if prefix == [] {
      assert prefix + f == f && prefix + t == t;
    } else {
      assert (prefix + f)[1..] == prefix[1..] + f && (prefix + t)[1..] == prefix[1..] + t;
      SharedPrefix(prefix[1..], f, t);
    }
  }

  lemma {:induction false} SharedPrefixStars(prefix: seq<string>, f: seq<string>, t: seq<string>)
    requires "#" !in prefix
    ensures Matches(StarAsPlus(prefix + f), prefix + t) == Matches(StarAsPlus(f), t)
  {
    if prefix == [] {
      assert prefix + f == f && prefix + t == t;
    } else {
      assert (prefix + f)[1..] == prefix[1..] + f && (prefix + t)[1..] == prefix[1..] + t;
      SharedPrefixStars(prefix[1..], f, t);
      assert StarAsPlus(prefix + f)[1..] == StarAsPlus(prefix[1..] + f);
    }
  }

  lemma LevelsDecide(prefix: seq<string>, f: seq<string>, t: seq<string>)
    requires "#" !in prefix && "#" !in f && "*" !in f
    ensures Matches(CutAtHash(prefix + f), prefix + t) == Matches(f, t)
    ensures Matches(StarAsPlus(CutAtHash(prefix + f)), prefix + t) == Matches(f, t)
  {
    NoHashNoCut(prefix + f);
    SharedPrefix(prefix, f, t);
    SharedPrefixStars(prefix, f, t);
    NoStars(f);
  }

  lemma TransferPrefix(tenant: string, x: string, y: string)
    ensures Split(TransferTopic(tenant, x, y)) == (["dd"] + Split(tenant) + ["transfer"]) + (Split(x) + Split(y))
  {
    TransferLevels(tenant, x, y);
    var p := ["dd"] + Split(tenant) + ["transfer"];
    assert p + Split(x) + Split(y) == p + (Split(x) + Split(y));
  }

  /** Both matchers on a reply-stream filter and a topic of the same tenant. */
  lemma StreamDecides(tenant: string, fx: string, fy: string, x: string, y: string)
    requires "#" !in Split(tenant)
    requires '/' !in fx && '/' !in fy && fx != "#" && fy != "#" && fx != "*" && fy != "*"
    ensures var filter := TransferTopic(tenant, fx, fy);
            var topic := TransferTopic(tenant, x, y);
            && AclMatches(filter, topic) == Matches([fx, fy], Split(x) + Split(y))
            && BrokerMatches(filter, topic) == Matches([fx, fy], Split(x) + Split(y))
  {
    TransferPrefix(tenant, fx, fy);
    TransferPrefix(tenant, x, y);
    SplitLevel(fx);
    SplitLevel(fy);
    assert Split(fx) + Split(fy) == [fx, fy];
    LevelsDecide(["dd"] + Split(tenant) + ["transfer"], [fx, fy], Split(x) + Split(y));
  }

  lemma OneLevel(x: string)
    ensures |Split(x)| == 1 <==> '/' !in x
    ensures |Split(x)| == 1 ==> Split(x) == [x]
  {
    if '/' !in x { SplitLevel(x); }
  }

  lemma TwoLevels(fx: string, fy: string, x: string, y: string)
    requires fx != "#" && fy != "#"
    ensures Matches([fx, fy], Split(x) + Split(y))
            <==> '/' !in x && '/' !in y && (fx == "+" || fx == x) && (fy == "+" || fy == y)
  {
    OneLevel(x);
    OneLevel(y);
    var t := Split(x) + Split(y);
    MatchesIsPointwise([fx, fy], t);
    if |t| == 2 { assert t == [x, y]; }
  }

  /** A reply-stream filter takes exactly the two-level addresses that agree with it. */
  lemma StreamVerdict(tenant: string, fx: string, fy: string, x: string, y: string)
    requires "#" !in Split(tenant)
    requires '/' !in fx && '/' !in fy && fx != "#" && fy != "#" && fx != "*" && fy != "*"
    ensures var filter, topic := TransferTopic(tenant, fx, fy), TransferTopic(tenant, x, y);
            AclMatches(filter, topic) == BrokerMatches(filter, topic)
              == ('/' !in x && '/' !in y && (fx == "+" || fx == x) && (fy == "+" || fy == y))
  {
    StreamDecides(tenant, fx, fy, x, y);
    TwoLevels(fx, fy, x, y);
  }

  predicate OnSomeStream(tenant: string, topic: string) {
    BrokerMatches(TransferResponseStream(tenant), topic) || BrokerMatches(TransferResponseByRequestStream(tenant), topic)
  }

  /** A reply addressed to a peer arrives on the peer-addressed stream exactly when the peer id is one level. */
  lemma ResponseReachesStream(tenant: string, peerId: string)
    requires "#" !in Split(tenant)
    ensures BrokerMatches(TransferResponseStream(tenant), TransferResponse(tenant, peerId)) <==> '/' !in peerId
    ensures AclMatches(TransferResponseStream(tenant), TransferResponse(tenant, peerId)) <==> '/' !in peerId
  {
    StreamVerdict(tenant, "+", "response", peerId, "response");
  }

  /** A reply addressed to one request arrives on the request-addressed stream exactly when its id is one level. */
  lemma ResponseByRequestReachesStream(tenant: string, requestId: string)
    requires "#" !in Split(tenant)
    ensures BrokerMatches(TransferResponseByRequestStream(tenant), TransferResponseByRequest(tenant, requestId))
            <==> '/' !in requestId
  {
    StreamVerdict(tenant, "response", "+", "response", requestId);
  }

  lemma ResponseOnStreams(tenant: string, peerId: string)
    requires "#" !in Split(tenant)
    ensures OnSomeStream(tenant, TransferResponse(tenant, peerId)) <==> '/' !in peerId
  {
    StreamVerdict(tenant, "+", "response", peerId, "response");
    StreamVerdict(tenant, "response", "+", peerId, "response");
  }

  lemma ByRequestOnStreams(tenant: string, requestId: string)
    requires "#" !in Split(tenant)
    ensures OnSomeStream(tenant, TransferResponseByRequest(tenant, requestId)) <==> '/' !in requestId
  {
    StreamVerdict(tenant, "+", "response", "response", requestId);
    StreamVerdict(tenant, "response", "+", "response", requestId);
  }

  /** No caller takes its own request for a reply, whatever the resource, unless the resource is called "response". */
  lemma RequestReachesNoStream(tenant: string, resource: string)
    requires "#" !in Split(tenant)
    ensures OnSomeStream(tenant, TransferRequest(tenant, resource)) <==> resource == "response"
  {
    StreamVerdict(tenant, "+", "response", resource, "request");
    StreamVerdict(tenant, "response", "+", resource, "request");
  }

  /** A tenant whose levels are names, not wildcards. */
  predicate PlainTenant(tenant: string) { "#" !in Split(tenant) && "+" !in Split(tenant) && "*" !in Split(tenant) }

  predicate IsName(l: string) { '/' !in l && l != "#" && l != "+" && l != "*" }

  /** Whatever the peer stream takes is a response topic, and whatever the request stream takes a by-request one. */
  lemma StreamAddress(tenant: string, fx: string, fy: string, topic: string) returns (x: string, y: string)
    requires PlainTenant(tenant) && (fx == "+" || IsName(fx)) && (fy == "+" || IsName(fy))
    requires BrokerMatches(TransferTopic(tenant, fx, fy), topic)
    ensures '/' !in x && '/' !in y && topic == TransferTopic(tenant, x, y)
    ensures (fx != "+" ==> x == fx) && (fy != "+" ==> y == fy)
  {
    var p, t := ["dd"] + Split(tenant) + ["transfer"], Split(topic);
    StreamTopicLevels(tenant, fx, fy, topic);
    x, y := t[|p|], t[|p| + 1];
    LevelAt(topic, |p|);
    LevelAt(topic, |p| + 1);
    SameTopic(tenant, x, y, topic);
  }

  lemma StreamTopicLevels(tenant: string, fx: string, fy: string, topic: string)
    requires PlainTenant(tenant) && (fx == "+" || IsName(fx)) && (fy == "+" || IsName(fy))
    requires BrokerMatches(TransferTopic(tenant, fx, fy), topic)
    ensures var p, t := ["dd"] + Split(tenant) + ["transfer"], Split(topic);
            && |t| == |p| + 2 && t == p + [t[|p|], t[|p| + 1]]
            && (fx != "+" ==> t[|p|] == fx) && (fy != "+" ==> t[|p| + 1] == fy)
  {
    FilterLevels(tenant, fx, fy);
    NamesBefore(tenant);
    StreamShape(["dd"] + Split(tenant) + ["transfer"], fx, fy, Split(TransferTopic(tenant, fx, fy)), Split(topic));
  }

  lemma NamesBefore(tenant: string)
    requires PlainTenant(tenant)
    ensures var p := ["dd"] + Split(tenant) + ["transfer"]; "#" !in p && "+" !in p && "*" !in p
  {
  }

  lemma StreamShape(p: seq<string>, fx: string, fy: string, f: seq<string>, t: seq<string>)
    requires "#" !in p && "+" !in p && "*" !in p && fx != "#" && fx != "*" && fy != "#" && fy != "*" && f == p + [fx, fy]
    requires Matches(StarAsPlus(CutAtHash(f)), t)
    ensures |t| == |p| + 2 && t == p + [t[|p|], t[|p| + 1]]
    ensures (fx != "+" ==> t[|p|] == fx) && (fy != "+" ==> t[|p| + 1] == fy)
  {
    PlainFilter(f);
    StreamLevels(p, fx, fy, t);
  }

  lemma LevelAt(topic: string, i: nat)
    requires i < |Split(topic)|
    ensures '/' !in Split(topic)[i]
  {
    assert Split(topic)[i] in Split(topic);
  }

  lemma SameTopic(tenant: string, x: string, y: string, topic: string)
    requires '/' !in x && '/' !in y && Split(topic) == ["dd"] + Split(tenant) + ["transfer"] + [x, y]
    ensures topic == TransferTopic(tenant, x, y)
  {
    FilterLevels(tenant, x, y);
    assert Join(Split(topic)) == Join(Split(TransferTopic(tenant, x, y)));
  }

  lemma FilterLevels(tenant: string, x: string, y: string)
    requires '/' !in x && '/' !in y
    ensures Split(TransferTopic(tenant, x, y)) == ["dd"] + Split(tenant) + ["transfer"] + [x, y]
  {
    TransferPrefix(tenant, x, y);
    SplitLevel(x);
    SplitLevel(y);
    assert Split(x) + Split(y) == [x, y];
  }

  lemma PlainFilter(f: seq<string>)
    requires "#" !in f && "*" !in f
    ensures StarAsPlus(CutAtHash(f)) == f
  {
    NoHashNoCut(f);
    NoStars(f);
  }

  /** Names before the wildcards are matched by themselves. */
  lemma {:induction false} NamesFirst(p: seq<string>, g: seq<string>, t: seq<string>)
    requires "#" !in p && "+" !in p && Matches(p + g, t)
    ensures p <= t && Matches(g, t[|p|..])
  {
    if p == [] {
      assert p + g == g && t[0..] == t;
    } else {
      assert p[0] in p && (p + g)[1..] == p[1..] + g;
      NamesFirst(p[1..], g, t[1..]);
      assert t == [t[0]] + t[1..];
    }
  }

  lemma TwoLast(fx: string, fy: string, r: seq<string>)
    requires fx != "#" && fy != "#" && Matches([fx, fy], r)
    ensures |r| == 2 && (fx != "+" ==> r[0] == fx) && (fy != "+" ==> r[1] == fy)
  {
    MatchesIsPointwise([fx, fy], r);
  }

  lemma StreamLevels(p: seq<string>, fx: string, fy: string, t: seq<string>)
    requires "#" !in p && "+" !in p && fx != "#" && fy != "#" && Matches(p + [fx, fy], t)
    ensures |t| == |p| + 2 && t == p + [t[|p|], t[|p| + 1]]
    ensures (fx != "+" ==> t[|p|] == fx) && (fy != "+" ==> t[|p| + 1] == fy)
  {
    NamesFirst(p, [fx, fy], t);
    var r := t[|p|..];
    TwoLast(fx, fy, r);
    TwoMore(p, t);
  }

  lemma TwoMore(p: seq<string>, t: seq<string>)
    requires p <= t && |t| == |p| + 2
    ensures t == p + [t[|p|], t[|p| + 1]]
  {
  }

  lemma AddressOnStream(tenant: string, topic: string) returns (x: string)
    requires PlainTenant(tenant) && OnSomeStream(tenant, topic)
    ensures '/' !in x && (topic == TransferResponse(tenant, x) || topic == TransferResponseByRequest(tenant, x))
  {
    if BrokerMatches(TransferResponseStream(tenant), topic) {
      x := PeerOnStream(tenant, topic);
    } else {
      x := RequestOnStream(tenant, topic);
    }
  }

  lemma ResponseIsName()
    ensures IsName("response")
  {
  }

  lemma PeerOnStream(tenant: string, topic: string) returns (x: string)
    requires PlainTenant(tenant) && BrokerMatches(TransferResponseStream(tenant), topic)
    ensures '/' !in x && topic == TransferResponse(tenant, x)
  {
    var plus, name := "+", "response";
    ResponseIsName();
    x := AddressWith(tenant, plus, name, TransferResponseStream(tenant), topic);
  }

  lemma RequestOnStream(tenant: string, topic: string) returns (x: string)
    requires PlainTenant(tenant) && BrokerMatches(TransferResponseByRequestStream(tenant), topic)
    ensures '/' !in x && topic == TransferResponseByRequest(tenant, x)
  {
    var plus, name := "+", "response";
    ResponseIsName();
    x := AddressWith(tenant, name, plus, TransferResponseByRequestStream(tenant), topic);
  }

  lemma AddressWith(tenant: string, fx: string, fy: string, filter: string, topic: string) returns (x: string)
    requires PlainTenant(tenant) && (fx == "+" || IsName(fx)) && (fy == "+" || IsName(fy)) && (fx == "+" <==> fy != "+")
    requires filter == TransferTopic(tenant, fx, fy) && BrokerMatches(filter, topic)
    ensures '/' !in x && topic == if fx == "+" then TransferTopic(tenant, x, fy) else TransferTopic(tenant, fx, x)
  {
    var x', y := StreamAddress(tenant, fx, fy, topic);
    x := if fx == "+" then x' else y;
  }

  /** The topics on the reply streams: replies to a one-level peer, and replies to a one-level request id. */
  lemma StreamTopics(tenant: string, topic: string)
    requires PlainTenant(tenant)
    ensures OnSomeStream(tenant, topic)
            <==> exists x :: '/' !in x && (topic == TransferResponse(tenant, x) || topic == TransferResponseByRequest(tenant, x))
  {
    if OnSomeStream(tenant, topic) { var x := AddressOnStream(tenant, topic); }
    if x :| '/' !in x && (topic == TransferResponse(tenant, x) || topic == TransferResponseByRequest(tenant, x)) {
      ResponseOnStreams(tenant, x);
      ByRequestOnStreams(tenant, x);
    }
  }

  lemma SecondLevel(a: string, b: string, f: seq<string>, t: seq<string>)
    requires a !in {"#", "+", "*"} && b !in {"#", "+", "*"} && |t| >= 2
    requires Matches(StarAsPlus(CutAtHash([a] + ([b] + f))), t)
    ensures t[1] == b
  {
    assert ([a] + ([b] + f))[1..] == [b] + f && ([b] + f)[1..] == f;
    var g := StarAsPlus(CutAtHash(f));
    assert StarAsPlus(CutAtHash([b] + f)) == [b] + g by {
      assert CutAtHash([b] + f)[1..] == CutAtHash(f);
    }
    assert CutAtHash([a] + ([b] + f))[1..] == CutAtHash([b] + f);
    assert StarAsPlus(CutAtHash([a] + ([b] + f))) == [a] + ([b] + g);
    assert ([a] + ([b] + g))[1..] == [b] + g;
    assert Matches([b] + g, t[1..]);
  }

  lemma SecondLevelPlain(a: string, b: string, f: seq<string>, t: seq<string>)
    requires a !in {"#", "+"} && b !in {"#", "+"} && |t| >= 2
    requires Matches(CutAtHash([a] + ([b] + f)), t)
    ensures t[1] == b
  {
    assert ([a] + ([b] + f))[1..] == [b] + f && ([b] + f)[1..] == f;
    var g := CutAtHash(f);
    assert CutAtHash([a] + ([b] + f)) == [a] + ([b] + g);
    assert ([a] + ([b] + g))[1..] == [b] + g;
    assert Matches([b] + g, t[1..]);
  }

  lemma SecondIsTenant(tenant: string, x: string, y: string)
    requires '/' !in tenant
    ensures var levels := Split(TransferTopic(tenant, x, y));
            |levels| >= 2 && levels[1] == tenant && levels == ["dd"] + ([tenant] + (["transfer"] + (Split(x) + Split(y))))
  {
    TransferPrefix(tenant, x, y);
    SplitLevel(tenant);
    Nested(tenant, Split(x) + Split(y));
  }

  lemma Nested(tenant: string, rest: seq<string>)
    ensures ["dd"] + [tenant] + ["transfer"] + rest == ["dd"] + ([tenant] + (["transfer"] + rest))
  {
  }

  /** A filter on transfer topics of one tenant takes no transfer topic of another. */
  lemma TenantsAreSeparate(tenant: string, other: string, fx: string, fy: string, x: string, y: string)
    requires '/' !in tenant && '/' !in other && tenant !in {"+", "#", "*"}
    ensures BrokerMatches(TransferTopic(tenant, fx, fy), TransferTopic(other, x, y)) ==> other == tenant
    ensures AclMatches(TransferTopic(tenant, fx, fy), TransferTopic(other, x, y)) ==> other == tenant
  {
    var filter, topic := TransferTopic(tenant, fx, fy), TransferTopic(other, x, y);
    SecondIsTenant(tenant, fx, fy);
    SecondIsTenant(other, x, y);
    if BrokerMatches(filter, topic) {
      SecondLevel("dd", tenant, ["transfer"] + (Split(fx) + Split(fy)), Split(topic));
    }
    if AclMatches(filter, topic) {
      SecondLevelPlain("dd", tenant, ["transfer"] + (Split(fx) + Split(fy)), Split(topic));
    }
  }

  /** Of the filters that the program uses on transfer topics, with single levels for both addresses, this
      holds for tenants of any depth. */
  lemma PlainTenantsAreSeparate(tenant: string, other: string, fx: string, fy: string, x: string, y: string)
    requires PlainTenant(tenant) && (fx == "+" || IsName(fx)) && (fy == "+" || IsName(fy)) && '/' !in x && '/' !in y
    requires BrokerMatches(TransferTopic(tenant, fx, fy), TransferTopic(other, x, y))
    ensures other == tenant
  {
    var x', y' := StreamAddress(tenant, fx, fy, TransferTopic(other, x, y));
    FilterLevels(tenant, x', y');
    FilterLevels(other, x, y);
    SameMiddle(["dd"], Split(tenant), Split(other), ["transfer"], [x', y'], [x, y]);
    assert Join(Split(tenant)) == Join(Split(other));
  }

  lemma SameMiddle(p: seq<string>, a: seq<string>, b: seq<string>, q: seq<string>, s: seq<string>, t: seq<string>)
    requires |s| == |t| && p + a + q + s == p + b + q + t
    ensures a == b
  {
    var l := p + a + q + s;
    assert a == l[|p|..|p| + |a|] && b == l[|p|..|p| + |b|];
  }

  /** With a '#' it does not: such a filter of one tenant takes every transfer topic of tenants below it. */
  lemma HashCrossesTenants(tenant: string, b: string, fy: string, x: string, y: string)
    requires PlainTenant(tenant)
    ensures BrokerMatches(TransferTopic(tenant, "#", fy), TransferTopic(tenant + "/" + "transfer" + "/" + b, x, y))
  {
    var p := ["dd"] + Split(tenant) + ["transfer"];
    var rest := Split(b) + ["transfer"] + (Split(x) + Split(y));
    LevelsBelow(tenant, b, x, y);
    HashLevels(tenant, fy);
    CutAfterNames(p, Split(fy));
    HashTakesRest(p, rest);
  }

  lemma HashLevels(tenant: string, fy: string)
    ensures Split(TransferTopic(tenant, "#", fy)) == (["dd"] + Split(tenant) + ["transfer"]) + (["#"] + Split(fy))
  {
    TransferPrefix(tenant, "#", fy);
    SplitLevel("#");
  }

  lemma LevelsBelow(tenant: string, b: string, x: string, y: string)
    ensures Split(TransferTopic(tenant + "/" + "transfer" + "/" + b, x, y))
         == (["dd"] + Split(tenant) + ["transfer"]) + (Split(b) + ["transfer"] + (Split(x) + Split(y)))
  {
    var t, last := tenant + "/" + "transfer", Split(x) + Split(y);
    TransferPrefix(t + "/" + b, x, y);
    SplitConcat(t, b);
    SplitConcat(tenant, "transfer");
    SplitLevel("transfer");
    Regrouped(["dd"], Split(tenant), ["transfer"], Split(b), last);
  }

  lemma Regrouped(a: seq<string>, t: seq<string>, m: seq<string>, b: seq<string>, last: seq<string>)
    ensures (a + (t + m + b) + m) + last == (a + t + m) + (b + m + last)
  {
  }

  lemma HashTakesRest(p: seq<string>, rest: seq<string>)
    requires "#" !in p
    ensures Matches(StarAsPlus(p + ["#"]), p + rest)
  {
    SharedPrefixStars(p, ["#"], rest);
    assert StarAsPlus(["#"]) == ["#"];
  }

  lemma {:induction false} CutAfterNames(p: seq<string>, rest: seq<string>)
    requires "#" !in p
    ensures CutAtHash(p + (["#"] + rest)) == p + ["#"]
  {
    if p == [] {
      assert p + (["#"] + rest) == ["#"] + rest;
    } else {
      assert (p + (["#"] + rest))[1..] == p[1..] + (["#"] + rest);
      CutAfterNames(p[1..], rest);
    }
  }
}
