/** Declarative request schemas of a resource, and how the hub merges those of several providers. */
module ResourceSchema {
  import opened Common

  datatype Constraint = Constraint(min: Option<int>, max: Option<int>, enum: seq<string>)

  datatype Schema = Schema(
    required: seq<string>, optional: seq<string>,
    constraints: map<string, Constraint>, protocolMetaRequired: seq<string>)

  const EMPTY_SCHEMA := Schema([], [], map[], [])

  // ----- What merging means -----

  function Tighter(a: Option<int>, b: Option<int>, upper: bool): Option<int> {
    if b.None? then a
    else if a.None? || (if upper then b.value < a.value else b.value > a.value) then b
    else a
  }

  function Intersect(a: seq<string>, b: seq<string>): (r: seq<string>)
    ensures forall v :: v in r <==> v in a && v in b
  {
    if a == [] then []
    else
      var rest := Intersect(a[..|a|-1], b);
      if a[|a|-1] in b then rest + [a[|a|-1]] else rest
  }

  function MergedConstraint(a: Constraint, b: Constraint): Constraint {
    Constraint(
      Tighter(a.min, b.min, false),
      Tighter(a.max, b.max, true),
      if |a.enum| > 0 && |b.enum| > 0 then Intersect(a.enum, b.enum)
      else if |a.enum| == 0 then b.enum else a.enum)
  }

  function MergedConstraints(a: map<string, Constraint>, b: map<string, Constraint>): map<string, Constraint> {
    map f | f in a.Keys + b.Keys ::
      if f !in a then b[f] else if f !in b then a[f] else MergedConstraint(a[f], b[f])
  }

  /** The additions that are not there yet, in order, each once. */
  function WithNew(list: seq<string>, additions: seq<string>): (r: seq<string>)
    ensures forall v :: v in r <==> v in list || v in additions
  {
    if additions == [] then list
    else
      var r := WithNew(list, additions[..|additions|-1]);
      var v := additions[|additions|-1];
      if v in r then r else r + [v]
  }

  /** Nothing is appended for nothing, and one more addition only if it is neither listed nor among the earlier ones. */
  lemma AppendedOnce(list: seq<string>, additions: seq<string>, v: string)
    ensures WithNew(list, []) == list
    ensures WithNew(list, additions + [v])
         == if v in list || v in additions then WithNew(list, additions) else WithNew(list, additions) + [v]
  {
    assert (additions + [v])[..|additions|] == additions;
  }

  function MergedSchema(a: Schema, b: Schema): Schema {
    Schema(WithNew(a.required, b.required), WithNew(a.optional, b.optional),
           MergedConstraints(a.constraints, b.constraints),
           WithNew(a.protocolMetaRequired, b.protocolMetaRequired))
  }

  function MergeAll(schemas: seq<Schema>): Schema {
    if schemas == [] then EMPTY_SCHEMA
    else MergedSchema(MergeAll(schemas[..|schemas|-1]), schemas[|schemas|-1])
  }

  lemma MergeAllSnoc(schemas: seq<Schema>, s: Schema)
    ensures MergeAll(schemas + [s]) == MergedSchema(MergeAll(schemas), s)
  {
    assert (schemas + [s])[..|schemas|] == schemas;
  }

  // ----- How the program computes it -----

  method MergeConstraint(a: Constraint, b: Constraint) returns (out: Constraint)
    ensures out == MergedConstraint(a, b)
    ensures out.min == if a.min.None? || (b.min.Some? && b.min.value > a.min.value) then b.min else a.min
    ensures out.max == if a.max.None? || (b.max.Some? && b.max.value < a.max.value) then b.max else a.max
    ensures a.enum == [] ==> out.enum == b.enum
    ensures b.enum == [] ==> out.enum == a.enum
    ensures a.enum != [] && b.enum != [] ==> forall v :: v in out.enum <==> v in a.enum && v in b.enum
  {
    out := a;
    if b.min.Some? {
      if out.min.None? || b.min.value > out.min.value { out := out.(min := b.min); }
    }
    if b.max.Some? {
      if out.max.None? || b.max.value < out.max.value { out := out.(max := b.max); }
    }
    if |a.enum| > 0 && |b.enum| > 0 {
      var members := set v | v in b.enum;
      var inter := [];
      for i := 0 to |a.enum|
        invariant inter == Intersect(a.enum[..i], b.enum)
      {
        assert a.enum[..i + 1][..i] == a.enum[..i];
        if a.enum[i] in members { inter := inter + [a.enum[i]]; }
      }
      assert a.enum[..|a.enum|] == a.enum;
      out := out.(enum := inter);
      return;
    }
    if |out.enum| == 0 && |b.enum| > 0 { out := out.(enum := b.enum); }
  }

  /** Appends the unseen, keeping the set of seen names beside the list. */
  method AppendNew(list: seq<string>, seen: set<string>, additions: seq<string>) returns (list': seq<string>, seen': set<string>)
    requires seen == set v | v in list
    ensures list' == WithNew(list, additions)
    ensures seen' == set v | v in list'
  {
    list', seen' := list, seen;
    for i := 0 to |additions|
      invariant list' == WithNew(list, additions[..i])
      invariant seen' == set v | v in list'
    {
      var f := additions[i];
      assert additions[..i + 1][..i] == additions[..i];
      if f in seen' { continue; }
      seen' := seen' + {f};
      list' := list' + [f];
    }
    assert additions[..|additions|] == additions;
  }

  /** Merges field by field; the order in which the map is visited does not matter. */
  method MergeConstraintMaps(merged: map<string, Constraint>, more: map<string, Constraint>) returns (out: map<string, Constraint>)
    ensures out == MergedConstraints(merged, more)
  {
    out := merged;
    var rest := more.Keys;
    while rest != {}
      invariant rest <= more.Keys
      invariant out.Keys == merged.Keys + (more.Keys - rest)
      invariant forall f :: f in out && (f !in more || f in rest) ==> out[f] == merged[f]
      invariant forall f :: f in more && f !in rest ==>
                  out[f] == if f !in merged then more[f] else MergedConstraint(merged[f], more[f])
      decreases rest
    {
      var field :| field in rest;
      rest := rest - {field};
      if field !in out {
        out := out[field := more[field]];
        continue;
      }
      var c := MergeConstraint(out[field], more[field]);
      out := out[field := c];
    }
  }
}
