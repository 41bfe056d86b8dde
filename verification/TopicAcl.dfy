/** Topic access control: an ordered rule list, and a decision that does not depend on the order. */
module TopicAcl {
  import opened TopicMatch

  datatype Action = Pub | Sub

  datatype Rule = Rule(peerId: string, action: Action, pattern: string, allow: bool)

  predicate Applies(r: Rule, peerId: string, action: Action, topic: string) {
    r.peerId == peerId && r.action == action && AclMatches(r.pattern, topic)
  }

  /** Some applicable rule allows, and none denies. */
  predicate Permitted(rules: set<Rule>, peerId: string, action: Action, topic: string) {
    && (exists r :: r in rules && Applies(r, peerId, action, topic) && r.allow)
    && (forall r :: r in rules && Applies(r, peerId, action, topic) ==> r.allow)
  }

  function RuleSet(rules: seq<Rule>): set<Rule> { set r | r in rules }

  class TopicAclService {
    var rules: seq<Rule>

    constructor ()
      ensures rules == []
    {
      rules := [];
    }

    method SetRules(newRules: seq<Rule>)
      modifies this
      ensures rules == newRules
    {
      rules := newRules;
    }

    /** Stops at the first applicable deny, yet decides by the set of rules alone. */
    method Authorize(peerId: string, action: Action, topic: string) returns (allowed: bool)
      ensures allowed == Permitted(RuleSet(rules), peerId, action, topic)
      ensures allowed
              <==> && (exists i :: && 0 <= i < |rules| && rules[i].allow
                                   && rules[i].peerId == peerId && rules[i].action == action && AclMatches(rules[i].pattern, topic))
                   && (forall i :: && 0 <= i < |rules|
                                   && rules[i].peerId == peerId && rules[i].action == action && AclMatches(rules[i].pattern, topic)
                                   ==> rules[i].allow)
    {
      allowed := false;
      for i := 0 to |rules|
        invariant forall j :: 0 <= j < i && Applies(rules[j], peerId, action, topic) ==> rules[j].allow
        invariant allowed <==> exists j :: 0 <= j < i && Applies(rules[j], peerId, action, topic)
      {
        var rule := rules[i];
        if rule.peerId != peerId || rule.action != action { continue; }
        var matched := MatchMqttTopic(rule.pattern, topic);
        if !matched { continue; }
        assert Applies(rule, peerId, action, topic);
        if !rule.allow {
          assert rule in RuleSet(rules);
          return false;
        }
        allowed := true;
      }
      if allowed {
        var j :| 0 <= j < |rules| && Applies(rules[j], peerId, action, topic);
        assert rules[j] in RuleSet(rules);
      }
      SetDecides(rules, peerId, action, topic);
    }
  }

  /** The decision on the rule set, spelled out on the list. */
  lemma SetDecides(rules: seq<Rule>, peerId: string, action: Action, topic: string)
    ensures Permitted(RuleSet(rules), peerId, action, topic)
            <==> && (exists i :: && 0 <= i < |rules| && rules[i].allow
                                 && rules[i].peerId == peerId && rules[i].action == action && AclMatches(rules[i].pattern, topic))
                 && (forall i :: && 0 <= i < |rules|
                                 && rules[i].peerId == peerId && rules[i].action == action && AclMatches(rules[i].pattern, topic)
                                 ==> rules[i].allow)
  {
    assert forall i :: 0 <= i < |rules| ==> rules[i] in RuleSet(rules);
  }

  /** Rules for another peer, for the other action, or for topics that do not match change no decision, and
      without any other nothing is allowed. */
  lemma ForeignRulesIrrelevant(rules: set<Rule>, foreign: set<Rule>, peerId: string, action: Action, topic: string)
    requires forall r :: r in foreign ==> r.peerId != peerId || r.action != action || !AclMatches(r.pattern, topic)
    ensures Permitted(rules + foreign, peerId, action, topic) == Permitted(rules, peerId, action, topic)
    ensures !Permitted(foreign, peerId, action, topic)
  {
    assert forall r :: r in rules ==> r in rules + foreign;
  }

  lemma {:induction false} RuleOrderIrrelevant(rules: seq<Rule>, rules': seq<Rule>, peerId: string, action: Action, topic: string)
    requires multiset(rules) == multiset(rules')
    ensures Permitted(RuleSet(rules), peerId, action, topic) == Permitted(RuleSet(rules'), peerId, action, topic)
  {
    forall r ensures r in RuleSet(rules) <==> r in RuleSet(rules') {
      assert r in multiset(rules) <==> r in multiset(rules');
    }
    assert RuleSet(rules) == RuleSet(rules');
  }

  /** Adding a rule can only turn a decision in the direction of that rule. */
  lemma DenyWins(rules: set<Rule>, r: Rule, peerId: string, action: Action, topic: string)
    ensures Permitted(rules + {r}, peerId, action, topic)
            <==> if !Applies(r, peerId, action, topic) then Permitted(rules, peerId, action, topic)
                 else r.allow && forall q :: q in rules && Applies(q, peerId, action, topic) ==> q.allow
  {
    if Applies(r, peerId, action, topic) && r.allow {
      assert r in rules + {r};
    }
  }
}
