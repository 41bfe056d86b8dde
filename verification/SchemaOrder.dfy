/** Merging enums depends on the order of the providers: exactly when it does. */
module SchemaOrder {
  import opened Common
  import opened ResourceSchema
  import opened SchemaMeaning

  /** The provider lists whatever the others list, or restricts nothing. */
  predicate Covers(d: Constraint, cs: seq<Constraint>) {
    d.enum == [] || forall c, v :: c in cs && v in c.enum ==> v in d.enum
  }

  /** Two orders of the same constraints. */
  predicate SameList(a: seq<Constraint>, b: seq<Constraint>) { a != [] && b != [] && multiset(a) == multiset(b) }

  /** With one more provider, every order of all of them admits the same values. */
  ghost predicate OrderBlind(cs: seq<Constraint>, d: Constraint) {
    forall a, b, v :: SameList(a, cs + [d]) && SameList(b, cs + [d]) ==>
      (EnumAdmits(MergeList(a).enum, v) <==> EnumAdmits(MergeList(b).enum, v))
  }

  /** At most one provider restricts the field. */
  predicate AtMostOne(cs: seq<Constraint>) { forall i, j :: 0 <= i < j < |cs| ==> cs[i].enum == [] || cs[j].enum == [] }

  function Universe(cs: seq<Constraint>): (r: seq<string>)
    ensures forall v :: v in r <==> exists c :: c in cs && v in c.enum
  {
    if cs == [] then []
    else
      var init, last := cs[..|cs|-1], cs[|cs|-1];
      assert cs == init + [last];
      Universe(init) + last.enum
  }

  lemma {:induction false} Fresh(list: seq<string>) returns (v: string)
    ensures v != "" && v !in list && forall s :: s in list ==> |s| < |v|
  {
    if list == [] {
      v := "a";
    } else {
      var init, last := list[..|list|-1], list[|list|-1];
      assert list == init + [last];
      v := Fresh(init);
      if |v| <= |last| { v := seq(|last| + 1, i => 'a'); }
    }
  }

  lemma SameMembers(a: seq<Constraint>, b: seq<Constraint>)
    requires multiset(a) == multiset(b)
    ensures forall c :: c in a <==> c in b
  {
    assert forall c :: c in a <==> c in multiset(a);
    assert forall c :: c in b <==> c in multiset(b);
  }

  lemma MergeSnoc(cs: seq<Constraint>, x: Constraint)
    requires cs != []
    ensures MergeList(cs + [x]) == MergedConstraint(MergeList(cs), x)
  {
    assert (cs + [x])[..|cs|] == cs;
  }

  // ----- Without a shared value, one more provider makes the order matter -----

  ghost predicate SameValues(a: seq<string>, b: seq<string>) { forall v :: v in a <==> v in b }

  lemma BothEmpty(a: seq<string>, b: seq<string>)
    ensures SameValues(a, b) ==> (a == [] <==> b == [])
  {
    if a != [] { assert a[0] in a; }
    if b != [] { assert b[0] in b; }
  }

  lemma {:induction false} NothingShared(a: seq<string>, b: seq<string>)
    requires forall v :: v in a ==> v !in b
    ensures Intersect(a, b) == []
  {
    if a != [] { NothingShared(a[..|a|-1], b); }
  }

  lemma MergedSameValues(a: Constraint, a': Constraint, x: Constraint)
    requires SameValues(a.enum, a'.enum)
    ensures SameValues(MergedConstraint(a, x).enum, MergedConstraint(a', x).enum)
  {
    if a.enum != [] { assert a.enum[0] in a'.enum; }
    if a'.enum != [] { assert a'.enum[0] in a.enum; }
  }

  lemma CoveredSameValues(d: Constraint, x: Constraint)
    requires d.enum != [] && x.enum != [] && forall v :: v in x.enum ==> v in d.enum
    ensures SameValues(MergedConstraint(d, x).enum, x.enum)
  {
  }

  predicate Unrestricted(cs: seq<Constraint>) { forall c :: c in cs ==> c.enum == [] }

  lemma {:induction false} UnrestrictedMerge(d: Constraint, cs: seq<Constraint>)
    requires cs != [] && Unrestricted(cs)
    ensures MergeList([d] + cs).enum == d.enum && MergeList(cs).enum == []
  {
    var init, last := cs[..|cs|-1], cs[|cs|-1];
    assert cs == init + [last] && [d] + cs == ([d] + init) + [last];
    MergeSnoc([d] + init, last);
    if init == [] {
      assert [d] + init == [d];
    } else {
      MergeSnoc(init, last);
      UnrestrictedMerge(d, init);
    }
  }

  /** A covering enum that comes first changes nothing, unless it is the only one. */
  lemma {:induction false} CoveringFirst(d: Constraint, cs: seq<Constraint>)
    requires cs != [] && d.enum != [] && Covers(d, cs) && !Unrestricted(cs)
    ensures SameValues(MergeList([d] + cs).enum, MergeList(cs).enum)
  {
    var init, last := cs[..|cs|-1], cs[|cs|-1];
    assert cs == init + [last] && [d] + cs == ([d] + init) + [last];
    MergeSnoc([d] + init, last);
    if init == [] {
      assert [d] + init == [d] && cs == [last] && last in cs;
      CoveredSameValues(d, last);
    } else {
      MergeSnoc(init, last);
      if Unrestricted(init) {
        UnrestrictedMerge(d, init);
        assert last in cs;
        CoveredSameValues(Constraint(None, None, d.enum), last);
      } else {
        CoveringFirst(d, init);
        MergedSameValues(MergeList([d] + init), MergeList(init), last);
      }
    }
  }

  /** A merge that admits everything: a covering enum at the end decides, and at the start is forgotten. */
  lemma EmptyMergeMatters(cs: seq<Constraint>) returns (d: Constraint, a: seq<Constraint>, b: seq<Constraint>, v: string)
    requires cs != [] && !ShareValue(cs) && MergeList(cs).enum == []
    ensures Covers(d, cs) && SameList(a, cs + [d]) && SameList(b, cs + [d])
    ensures !EnumAdmits(MergeList(a).enum, v) && EnumAdmits(MergeList(b).enum, v)
  {
    d := Constraint(None, None, Universe(cs));
    a, b := cs + [d], [d] + cs;
    v := Fresh(d.enum);
    assert !CommonTo(cs, v);
    var c :| c in cs && c.enum != [] && v !in c.enum;
    assert c.enum[0] in d.enum;
    MergeSnoc(cs, d);
    CoveringFirst(d, cs);
    BothEmpty(MergeList(b).enum, MergeList(cs).enum);
  }

  /** The provider at position k moved to the end. */
  function MovedToEnd(cs: seq<Constraint>, k: nat): (r: seq<Constraint>)
    requires k < |cs|
    ensures multiset(r) == multiset(cs)
  {
    assert cs == cs[..k] + [cs[k]] + cs[k + 1..];
    cs[..k] + cs[k + 1..] + [cs[k]]
  }

  /** The last non-empty enum bounds a merge that admits less than everything. */
  lemma LastBounds(cs: seq<Constraint>, x: Constraint, w: string)
    requires cs != [] && x.enum != [] && MergeList(cs + [x]).enum != [] && w in MergeList(cs + [x]).enum
    ensures w in x.enum
  {
    MergeSnoc(cs, x);
  }

  /** For every list of constraints without a shared value there is one further provider, two orders, and a
      value that the one order admits and the other does not. */
  lemma OrderMatters(cs: seq<Constraint>) returns (d: Constraint, a: seq<Constraint>, b: seq<Constraint>, v: string)
    requires cs != [] && !ShareValue(cs)
    ensures Covers(d, cs) && SameList(a, cs + [d]) && SameList(b, cs + [d])
    ensures EnumAdmits(MergeList(a).enum, v) != EnumAdmits(MergeList(b).enum, v)
  {
    var e := MergeList(cs).enum;
    if e == [] {
      d, a, b, v := EmptyMergeMatters(cs);
    } else {
      var w := if exists u :: u in e && u != "" then (var u :| u in e && u != ""; u) else e[0];
      var k := Rejecting(cs, w);
      var other := MovedToEnd(cs, k);
      SameMembers(cs, other);
      assert multiset(other) == multiset(cs);
      if MergeList(other).enum == [] {
        NotSharedEither(cs, other);
        d, a, b, v := EmptyMergeMatters(other);
        assert multiset(other + [d]) == multiset(cs + [d]);
      } else {
        d, a, b, v := LastDecides(cs, k, w);
      }
    }
  }

  lemma NotSharedEither(cs: seq<Constraint>, other: seq<Constraint>)
    requires !ShareValue(cs) && forall c :: c in cs <==> c in other
    ensures !ShareValue(other)
  {
    forall u ensures !CommonTo(other, u) { assert !CommonTo(cs, u); }
  }

  lemma Rejecting(cs: seq<Constraint>, w: string) returns (k: nat)
    requires cs != [] && !ShareValue(cs) && w in MergeList(cs).enum
    ensures k < |cs| && |cs| > 1 && cs[k].enum != [] && w !in cs[k].enum
  {
    assert !CommonTo(cs, w);
    k :| 0 <= k < |cs| && cs[k].enum != [] && w !in cs[k].enum;
  }

  /** An enum that rejects w, placed last, decides about w, and about some other value if w is blank. */
  lemma LastDecides(cs: seq<Constraint>, k: nat, w: string)
    returns (d: Constraint, a: seq<Constraint>, b: seq<Constraint>, v: string)
    requires k < |cs| && |cs| > 1 && cs[k].enum != [] && w !in cs[k].enum
    requires w in MergeList(cs).enum && (w == "" ==> forall u :: u in MergeList(cs).enum ==> u == "")
    requires MergeList(MovedToEnd(cs, k)).enum != []
    ensures Covers(d, cs) && SameList(a, cs + [d]) && SameList(b, cs + [d])
    ensures EnumAdmits(MergeList(a).enum, v) != EnumAdmits(MergeList(b).enum, v)
  {
    var other, e' := MovedToEnd(cs, k), MergeList(MovedToEnd(cs, k)).enum;
    d := Constraint(None, None, []);
    a, b := cs + [d], other + [d];
    MergeSnoc(cs, d);
    MergeSnoc(other, d);
    assert multiset(other + [d]) == multiset(other) + multiset{d} == multiset(cs + [d]);
    forall u | u in e' ensures u in cs[k].enum { LastBounds(cs[..k] + cs[k + 1..], cs[k], u); }
    v := if w != "" then w else e'[0];
  }

  // ----- The two exact conditions -----

  /** A covering provider keeps a shared value shared. */
  lemma CoveringShares(cs: seq<Constraint>, d: Constraint)
    requires Covers(d, cs) && ShareValue(cs)
    ensures ShareValue(cs + [d])
  {
    var v :| CommonTo(cs, v);
    if c :| c in cs && c.enum != [] {
      assert v in c.enum;
      assert CommonTo(cs + [d], v);
    } else if d.enum != [] {
      assert CommonTo(cs + [d], d.enum[0]);
    } else {
      assert CommonTo(cs + [d], v);
    }
  }

  lemma SharedIsBlind(cs: seq<Constraint>, d: Constraint)
    requires ShareValue(cs + [d])
    ensures OrderBlind(cs, d)
  {
    forall a, b, v | SameList(a, cs + [d]) && SameList(b, cs + [d])
      ensures EnumAdmits(MergeList(a).enum, v) <==> EnumAdmits(MergeList(b).enum, v)
    {
      SharedAdmitsAll(cs + [d], a, v);
      SharedAdmitsAll(cs + [d], b, v);
    }
  }

  lemma SharedAdmitsAll(cs: seq<Constraint>, a: seq<Constraint>, v: string)
    requires SameList(a, cs) && ShareValue(cs)
    ensures EnumAdmits(MergeList(a).enum, v) <==> AllAdmit(cs, v)
  {
    SameMembers(a, cs);
    var w :| CommonTo(cs, w);
    assert CommonTo(a, w);
    MergedEnumExactIff(a);
  }

  /** The order is irrelevant, whichever covering provider joins, if and only if the enums share a value. */
  lemma OrderIrrelevantIffShared(cs: seq<Constraint>)
    requires cs != []
    ensures (forall d :: Covers(d, cs) ==> OrderBlind(cs, d)) <==> ShareValue(cs)
  {
    if ShareValue(cs) {
      forall d | Covers(d, cs) ensures OrderBlind(cs, d) {
        CoveringShares(cs, d);
        SharedIsBlind(cs, d);
      }
    } else {
      var d, a, b, v := OrderMatters(cs);
      assert !OrderBlind(cs, d);
    }
  }

  /** Two disjoint enums, each once, among constraints that restrict nothing: every order admits everything. */
  lemma {:induction false} TwoDisjoint(l: seq<Constraint>, c: Constraint, d: Constraint)
    requires l != [] && c.enum != [] && d.enum != [] && Intersect(c.enum, d.enum) == [] == Intersect(d.enum, c.enum) && c != d
    requires (forall x :: x in l ==> x.enum == [] || x == c || x == d) && multiset(l)[c] <= 1 && multiset(l)[d] <= 1
    ensures MergeList(l).enum == if c in l && d in l then [] else if c in l then c.enum else if d in l then d.enum else []
  {
    var init, last := l[..|l|-1], l[|l|-1];
    assert l == init + [last];
    assert multiset(l) == multiset(init) + multiset{last};
    if init != [] {
      TwoDisjoint(init, c, d);
      MergeSnoc(init, last);
    }
  }

  lemma OnlyOnce(cs: seq<Constraint>, c: Constraint)
    requires AtMostOne(cs) && c in cs && c.enum != []
    ensures multiset(cs)[c] == 1 && forall x :: x in cs ==> x.enum == [] || x == c
  {
    var k :| 0 <= k < |cs| && cs[k] == c;
    assert cs == cs[..k] + [c] + cs[k + 1..];
    assert c !in cs[..k] && c !in cs[k + 1..];
  }

  lemma AtMostOneIsBlind(cs: seq<Constraint>, d: Constraint)
    requires AtMostOne(cs)
    ensures OrderBlind(cs, d)
  {
    if ShareValue(cs + [d]) {
      SharedIsBlind(cs, d);
    } else {
      assert !CommonTo(cs + [d], "");
      var c := TheRestriction(cs, d);
      OnlyOnce(cs, c);
      assert multiset(cs + [d]) == multiset(cs) + multiset{d};
      forall l | SameList(l, cs + [d]) ensures MergeList(l).enum == [] {
        SameMembers(l, cs + [d]);
        TwoDisjoint(l, c, d);
      }
    }
  }

  /** Without a value shared with d, exactly one other enum restricts, and it is disjoint from that of d. */
  lemma TheRestriction(cs: seq<Constraint>, d: Constraint) returns (c: Constraint)
    requires AtMostOne(cs) && !ShareValue(cs + [d])
    ensures c in cs && c.enum != [] && d.enum != [] && c != d
    ensures Intersect(c.enum, d.enum) == [] == Intersect(d.enum, c.enum)
  {
    var l := cs + [d];
    c := Lacking(l, if d.enum == [] then "" else d.enum[0]);
    OnlyOnce(cs, c);
    var other := Lacking(l, c.enum[0]);
    assert other == d;
    forall v | v in c.enum ensures v !in d.enum {
      var y := Lacking(l, v);
      assert y == d;
    }
    NothingShared(c.enum, d.enum);
    NothingShared(d.enum, c.enum);
  }

  lemma Lacking(l: seq<Constraint>, v: string) returns (c: Constraint)
    requires !ShareValue(l)
    ensures c in l && c.enum != [] && v !in c.enum
  {
    assert !CommonTo(l, v);
    c :| c in l && c.enum != [] && v !in c.enum;
  }

  /** Two providers that restrict, and a third whose enum is disjoint from theirs: whoever comes last decides. */
  lemma ThirdDisjointMatters(cs: seq<Constraint>, i: nat, j: nat) returns (d: Constraint)
    requires i < j < |cs| && cs[i].enum != [] && cs[j].enum != [] && ShareValue(cs)
    ensures !OrderBlind(cs, d)
  {
    var u := Fresh(Universe(cs));
    var v := Fresh(Universe(cs) + [u]);
    d := Constraint(None, None, [u]);
    var rest := cs[..j] + cs[j + 1..];
    assert cs[i] in rest && cs == cs[..j] + [cs[j]] + cs[j + 1..];
    var w :| CommonTo(cs, w);
    assert CommonTo(rest, w);
    ForeignEmpties(cs, d, u, w, cs[i]);
    ForeignEmpties(rest, d, u, w, cs[i]);
    MergeSnoc(rest + [d], cs[j]);
    LastButOne(cs, j, d);
    VerdictsDiffer(cs, d, (rest + [d]) + [cs[j]], v);
  }

  lemma LastButOne(cs: seq<Constraint>, j: nat, d: Constraint)
    requires j < |cs|
    ensures SameList((cs[..j] + cs[j + 1..] + [d]) + [cs[j]], cs + [d])
  {
    assert cs == cs[..j] + [cs[j]] + cs[j + 1..];
  }

  lemma VerdictsDiffer(cs: seq<Constraint>, d: Constraint, b: seq<Constraint>, v: string)
    requires cs != [] && SameList(b, cs + [d]) && MergeList(cs + [d]).enum == []
    requires MergeList(b).enum != [] && v !in MergeList(b).enum && v != ""
    ensures !OrderBlind(cs, d)
  {
    var a := cs + [d];
    assert SameList(a, cs + [d]) && SameList(b, cs + [d]);
    assert EnumAdmits(MergeList(a).enum, v) && !EnumAdmits(MergeList(b).enum, v);
  }

  lemma ForeignEmpties(cs: seq<Constraint>, d: Constraint, u: string, w: string, c: Constraint)
    requires c in cs && c.enum != [] && CommonTo(cs, w) && d.enum == [u] && u !in c.enum
    ensures MergeList(cs + [d]).enum == []
  {
    MergeSnoc(cs, d);
    EnumOfMerge(cs, w, u);
    NothingShared(MergeList(cs).enum, [u]);
  }

  /** The order is irrelevant, whichever provider joins, if and only if at most one provider restricts. */
  lemma OrderIrrelevantIffAtMostOne(cs: seq<Constraint>)
    requires cs != []
    ensures (forall d :: OrderBlind(cs, d)) <==> AtMostOne(cs)
  {
    if AtMostOne(cs) {
      forall d ensures OrderBlind(cs, d) { AtMostOneIsBlind(cs, d); }
    } else if ShareValue(cs) {
      var i, j :| 0 <= i < j < |cs| && cs[i].enum != [] && cs[j].enum != [];
      var d := ThirdDisjointMatters(cs, i, j);
      assert !OrderBlind(cs, d);
    } else {
      var d, a, b, v := OrderMatters(cs);
      assert !OrderBlind(cs, d);
    }
  }
}
