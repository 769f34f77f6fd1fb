/** The reduction pass over the result tree: every child is reduced first
    (post-order), then runs of adjacent equal siblings collapse into the first step
    of the run, which absorbs the counts and durations of the others. */
module StepMerge {
  import opened Common
  import opened TestSteps

  /** The surviving step `x` after absorbing its right neighbour `y`. */
  function Absorb(x: Step, y: Step): (r: Step)
    ensures r.name == x.name && r.result == x.result && r.steps == x.steps
    ensures r.info == x.info && r.comment == x.comment
    ensures r.count == x.count + y.count && r.duration == x.duration + y.duration
  {
    x.(count := x.count + y.count, duration := x.duration + y.duration)
  }

  /** The sibling scan: a step equal to the step on its left is absorbed into it;
      the scan stays on the survivor, so longer runs collapse completely. */
  function Collapse(xs: seq<Step>): seq<Step>
    decreases |xs|
  {
    if |xs| <= 1 then xs
    else if Equiv(xs[0], xs[1]) then Collapse([Absorb(xs[0], xs[1])] + xs[2..])
    else [xs[0]] + Collapse(xs[1..])
  }

  /** `mergeSteps`: a leaf is left alone; otherwise every child is merged first and
      then the reduced children are collapsed. */
  function Merge(s: Step): (r: Step)
    decreases s, 1
    ensures r.name == s.name && r.result == s.result && r.count == s.count
    ensures r.duration == s.duration && r.info == s.info && r.comment == s.comment
    ensures s.steps == [] ==> r == s
  {
    if s.steps == [] then s else s.(steps := Collapse(MergeAll(s)))
  }

  /** The children of `s`, each merged. */
  function MergeAll(s: Step): (r: seq<Step>)
    decreases s, 0
    ensures |r| == |s.steps|
  {
    seq(|s.steps|, i requires 0 <= i < |s.steps| => Merge(s.steps[i]))
  }

  // ---------------------------------------------------------------------------
  // Totals

  function TotalCount(xs: seq<Step>): int {
    if xs == [] then 0 else xs[0].count + TotalCount(xs[1..])
  }

  function TotalDuration(xs: seq<Step>): nat {
    if xs == [] then 0 else xs[0].duration + TotalDuration(xs[1..])
  }

  /** Collapsing keeps the total count and the total duration of the siblings. */
  lemma {:induction false} CollapseKeepsTotals(xs: seq<Step>)
    ensures TotalCount(Collapse(xs)) == TotalCount(xs)
    ensures TotalDuration(Collapse(xs)) == TotalDuration(xs)
    decreases |xs|
  {
    if |xs| > 1 {
      if Equiv(xs[0], xs[1]) {
        var ys := [Absorb(xs[0], xs[1])] + xs[2..];
        CollapseKeepsTotals(ys);
        assert ys[1..] == xs[2..];
        assert xs[1..][1..] == xs[2..];
      } else {
        CollapseKeepsTotals(xs[1..]);
        assert ([xs[0]] + Collapse(xs[1..]))[1..] == Collapse(xs[1..]);
      }
    }
  }

  // ---------------------------------------------------------------------------
  // Order and adjacency

  /** Shapes of a list of steps. */
  function Shapes(xs: seq<Step>): (r: seq<Shape>)
    ensures |r| == |xs|
  {
    seq(|xs|, i requires 0 <= i < |xs| => ShapeOf(xs[i]))
  }

  /** Reference definition of the scan's effect: drop every element equal to its
      left neighbour. */
  function Dedup<T(==)>(xs: seq<T>): seq<T>
    decreases |xs|
  {
    if |xs| <= 1 then xs
    else if xs[0] == xs[1] then Dedup(xs[1..])
    else [xs[0]] + Dedup(xs[1..])
  }

  /** Collapsing is adjacent-duplicate removal on shapes: order is preserved, and a
      step disappears only when it equals its immediate left neighbour; equal steps
      that are not adjacent both stay. */
  lemma {:induction false} CollapseIsDedup(xs: seq<Step>)
    ensures Shapes(Collapse(xs)) == Dedup(Shapes(xs))
    decreases |xs|
  {
    if |xs| > 1 {
      EquivIffSameShape(xs[0], xs[1]);
      var sh := Shapes(xs);
      assert sh[1..] == Shapes(xs[1..]);
      if Equiv(xs[0], xs[1]) {
        var a := Absorb(xs[0], xs[1]);
        var ys := [a] + xs[2..];
        assert ShapeOf(a) == ShapeOf(xs[0]);
        assert Shapes(ys) == Shapes(xs[1..]);
        CollapseIsDedup(ys);
      } else {
        CollapseIsDedup(xs[1..]);
        assert Shapes([xs[0]] + Collapse(xs[1..])) == [sh[0]] + Shapes(Collapse(xs[1..]));
      }
    }
  }

  predicate NoAdjacentEqual<T(==)>(xs: seq<T>) {
    forall i :: 0 <= i < |xs| - 1 ==> xs[i] != xs[i + 1]
  }

  /** After adjacent-duplicate removal no two neighbours are equal; the first element
      is kept. */
  lemma {:induction false} DedupNoAdjacent<T>(xs: seq<T>)
    ensures NoAdjacentEqual(Dedup(xs))
    ensures xs != [] ==> Dedup(xs) != [] && Dedup(xs)[0] == xs[0]
    decreases |xs|
  {
    if |xs| > 1 {
      DedupNoAdjacent(xs[1..]);
    }
  }

  /** No two adjacent steps of `xs` are equal under `TLTestStep.equals`. */
  predicate NoAdjacentEquiv(xs: seq<Step>) {
    forall i :: 0 <= i < |xs| - 1 ==> !Equiv(xs[i], xs[i + 1])
  }

  /** After collapsing, no two adjacent siblings are equal. */
  lemma CollapseNoAdjacentEquiv(xs: seq<Step>)
    ensures NoAdjacentEquiv(Collapse(xs))
  {
    var ys := Collapse(xs);
    CollapseIsDedup(xs);
    DedupNoAdjacent(Shapes(xs));
    forall i | 0 <= i < |ys| - 1 ensures !Equiv(ys[i], ys[i + 1]) {
      EquivIffSameShape(ys[i], ys[i + 1]);
      assert Shapes(ys)[i] == ShapeOf(ys[i]) && Shapes(ys)[i + 1] == ShapeOf(ys[i + 1]);
      assert Shapes(ys)[i] != Shapes(ys)[i + 1];
    }
  }

  /** A list without adjacent equal steps is left unchanged by collapsing. */
  lemma {:induction false} CollapseFixed(xs: seq<Step>)
    requires NoAdjacentEquiv(xs)
    ensures Collapse(xs) == xs
    decreases |xs|
  {
    if |xs| > 1 {
      CollapseFixed(xs[1..]);
    }
  }

  // ---------------------------------------------------------------------------
  // Idempotence

  /** A fully reduced tree: no node has two adjacent equal children. */
  predicate Reduced(s: Step)
    decreases s
  {
    NoAdjacentEquiv(s.steps) && forall i :: 0 <= i < |s.steps| ==> Reduced(s.steps[i])
  }

  predicate AllReduced(xs: seq<Step>) {
    forall i :: 0 <= i < |xs| ==> Reduced(xs[i])
  }

  lemma {:induction false} CollapseKeepsReduced(xs: seq<Step>)
    requires AllReduced(xs)
    ensures AllReduced(Collapse(xs))
    decreases |xs|
  {
    if |xs| > 1 {
      if Equiv(xs[0], xs[1]) {
        var ys := [Absorb(xs[0], xs[1])] + xs[2..];
        assert Reduced(ys[0]);
        CollapseKeepsReduced(ys);
      } else {
        CollapseKeepsReduced(xs[1..]);
      }
    }
  }

  /** Merging yields a reduced tree. */
  lemma {:induction false} MergeReduces(s: Step)
    ensures Reduced(Merge(s))
    decreases s
  {
    if s.steps != [] {
      var ms := MergeAll(s);
      forall i | 0 <= i < |ms| ensures Reduced(ms[i]) {
        MergeReduces(s.steps[i]);
      }
      CollapseKeepsReduced(ms);
      CollapseNoAdjacentEquiv(ms);
    }
  }

  /** Merging a reduced tree changes nothing. */
  lemma {:induction false} MergeFixesReduced(s: Step)
    requires Reduced(s)
    ensures Merge(s) == s
    decreases s
  {
    if s.steps != [] {
      forall i | 0 <= i < |s.steps| ensures Merge(s.steps[i]) == s.steps[i] {
        MergeFixesReduced(s.steps[i]);
      }
      assert MergeAll(s) == s.steps;
      CollapseFixed(s.steps);
    }
  }

  /** Merging twice is merging once. */
  lemma MergeIdempotent(s: Step)
    ensures Merge(Merge(s)) == Merge(s)
  {
    MergeReduces(s);
    MergeFixesReduced(Merge(s));
  }

  /** Lists whose steps agree position by position on count and duration have the
      same totals. */
  lemma {:induction false} TotalsPointwise(xs: seq<Step>, ys: seq<Step>)
    requires |xs| == |ys|
    requires forall i :: 0 <= i < |xs| ==> xs[i].count == ys[i].count && xs[i].duration == ys[i].duration
    ensures TotalCount(xs) == TotalCount(ys) && TotalDuration(xs) == TotalDuration(ys)
  {
    if xs != [] {
      TotalsPointwise(xs[1..], ys[1..]);
    }
  }

  /** Merging keeps the total count and total duration of a node's children, and
      their order: the children's shapes after merging are the merged children's
      shapes with adjacent repeats removed. */
  lemma MergeKeepsChildTotals(s: Step)
    ensures TotalCount(Merge(s).steps) == TotalCount(s.steps)
    ensures TotalDuration(Merge(s).steps) == TotalDuration(s.steps)
    ensures s.steps != [] ==> Shapes(Merge(s).steps) == Dedup(Shapes(MergeAll(s)))
  {
    if s.steps != [] {
      TotalsPointwise(MergeAll(s), s.steps);
      CollapseKeepsTotals(MergeAll(s));
      CollapseIsDedup(MergeAll(s));
    }
  }

  // ---------------------------------------------------------------------------
  // The loop of `TLTestStep.mergeSteps`

  /** One step of the sibling scan, seen from the survivor `x`. */
  lemma CollapseUnfold(x: Step, rest: seq<Step>)
    requires rest != []
    ensures Collapse([x] + rest) ==
      if Equiv(x, rest[0]) then Collapse([Absorb(x, rest[0])] + rest[1..]) else [x] + Collapse(rest)
  {
    var xs := [x] + rest;
    assert xs[0] == x && xs[1] == rest[0] && xs[2..] == rest[1..] && xs[1..] == rest;
  }

  /** The in-place loop of `mergeSteps`, on a sequence: `merging` is the survivor being
      grown, `out` the siblings already settled. */
  method MergeSiblings(xs: seq<Step>) returns (ys: seq<Step>)
    ensures ys == Collapse(xs)
    ensures NoAdjacentEquiv(ys)
    ensures TotalCount(ys) == TotalCount(xs)
  {
    CollapseNoAdjacentEquiv(xs);
    CollapseKeepsTotals(xs);
    if xs == [] {
      return [];
    }
    ys := CollapseLoop(xs);
  }

  /** The loop proper, on a non-empty sequence. */
  method CollapseLoop(xs: seq<Step>) returns (ys: seq<Step>)
    requires xs != []
    ensures ys == Collapse(xs)
  {
    var out: seq<Step> := [];
    var merging := xs[0];
    var m := 1;
    assert [merging] + xs[m..] == xs;
    while m < |xs|
      invariant 1 <= m <= |xs|
      invariant Collapse(xs) == out + Collapse([merging] + xs[m..])
    {
      var next := xs[m];
      CollapseUnfold(merging, xs[m..]);
      assert xs[m..][1..] == xs[m + 1..];
      if Equiv(merging, next) {
        merging := Absorb(merging, next);
      } else {
        out := out + [merging];
        merging := next;
        assert xs[m..] == [next] + xs[m + 1..];
      }
      m := m + 1;
    }
    assert [merging] + xs[m..] == [merging];
    ys := out + [merging];
  }

  // ---------------------------------------------------------------------------
  // Examples

  function Named(name: string, duration: nat): Step {
    Step(Some(name), None, 1, duration, "", "", [])
  }

  /** Merging `[first, twin (13 ms), twin (18 ms), last]` leaves
      `[first, twin (count 2, 31 ms), last]`, the parent's own duration untouched. */
  lemma TwinsMerge()
    ensures
      var parent := Step(Some("parent"), None, 1, 40, "", "", [Named("first", 4), Named("twin", 13), Named("twin", 18), Named("last", 5)]);
      Merge(parent).steps == [Named("first", 4), Named("twin", 31).(count := 2), Named("last", 5)]
      && Merge(parent).duration == 40
  {
    var parent := Step(Some("parent"), None, 1, 40, "", "", [Named("first", 4), Named("twin", 13), Named("twin", 18), Named("last", 5)]);
    assert MergeAll(parent) == parent.steps;
    var xs := parent.steps;
    assert !Equiv(xs[0], xs[1]);
    assert Equiv(xs[1], xs[2]);
    var tw := Absorb(xs[1], xs[2]);
    assert [tw] + xs[3..] == [tw, xs[3]];
    assert !Equiv(tw, xs[3]);
    assert Collapse([tw, xs[3]]) == [tw] + Collapse([xs[3]]);
  }

  /** Equal steps that are not neighbours are not merged: `[A, B, A]` keeps three
      steps. */
  lemma NonAdjacentKept()
    ensures
      var parent := Step(Some("parent"), None, 1, 0, "", "", [Named("A", 1), Named("B", 2), Named("A", 3)]);
      |Merge(parent).steps| == 3
  {
    var parent := Step(Some("parent"), None, 1, 0, "", "", [Named("A", 1), Named("B", 2), Named("A", 3)]);
    assert MergeAll(parent) == parent.steps;
    var xs := parent.steps;
    assert !Equiv(xs[0], xs[1]);
    assert !Equiv(xs[1], xs[2]);
    assert xs[1..][1..] == [xs[2]];
  }
}
