/** Topic strings and their levels: splitting at '/' and joining again. */
module TopicLevels {

  function Split(s: string): (levels: seq<string>)
    ensures |levels| >= 1
    ensures forall l :: l in levels ==> '/' !in l
    ensures Join(levels) == s
  {
    if s == "" then [""]
    else if s[0] == '/' then [""] + Split(s[1..])
    else
      var rest := Split(s[1..]);
      [[s[0]] + rest[0]] + rest[1..]
  }

  function Join(levels: seq<string>): string
    requires |levels| >= 1
  {
    if |levels| == 1 then levels[0] else levels[0] + "/" + Join(levels[1..])
  }

  lemma {:induction false} SplitLevel(s: string)
    requires '/' !in s
    ensures Split(s) == [s]
  {
    if s != "" { SplitLevel(s[1..]); }
  }

  lemma {:induction false} SplitConcat(a: string, b: string)
    ensures Split(a + "/" + b) == Split(a) + Split(b)
  {
    if a == "" {
      assert (a + "/" + b)[1..] == b;
    } else {
      assert (a + "/" + b)[1..] == a[1..] + "/" + b;
      SplitConcat(a[1..], b);
    }
  }

  lemma {:induction false} JoinConcat(a: seq<string>, b: seq<string>)
    requires |a| >= 1 && |b| >= 1
    ensures Join(a + b) == Join(a) + "/" + Join(b)
  {
    if |a| > 1 {
      assert (a + b)[1..] == a[1..] + b;
      JoinConcat(a[1..], b);
    } else {
      assert (a + b)[1..] == b;
    }
  }

  /** Splitting undoes joining, for levels that are levels. */
  lemma {:induction false} SplitJoin(levels: seq<string>)
    requires |levels| >= 1 && forall l :: l in levels ==> '/' !in l
    ensures Split(Join(levels)) == levels
  {
    SplitLevel(levels[0]);
    if |levels| > 1 {
      SplitJoin(levels[1..]);
      SplitConcat(levels[0], Join(levels[1..]));
    }
  }

  /** A prefix of levels is the whole string, or a string prefix that ends at a '/'. */
  lemma LevelPrefix(p: string, topic: string)
    requires Split(p) <= Split(topic)
    ensures var rest := Split(topic)[|Split(p)|..];
            topic == if rest == [] then p else p + "/" + Join(rest)
  {
    var rest := Split(topic)[|Split(p)|..];
    assert Split(topic) == Split(p) + rest;
    if rest == [] {
      assert Split(topic) == Split(p);
    } else {
      JoinConcat(Split(p), rest);
    }
  }

  lemma {:induction false} LevelChars(s: string, i: nat, c: char)
    requires i < |Split(s)| && c in Split(s)[i]
    ensures c in s
  {
    if s != "" {
      var rest := Split(s[1..]);
      if s[0] == '/' {
        LevelChars(s[1..], i - 1, c);
      } else if i > 0 {
        LevelChars(s[1..], i, c);
      } else if c != s[0] {
        assert c in rest[0];
        LevelChars(s[1..], 0, c);
      }
    }
  }
}
