/** Small shared vocabulary: an optional value and first-match search over a sequence. */
module Common {

  /** A value that may be absent; stands for a nullable Java reference. */
  datatype Option<+T> = None | Some(value: T) {
    function GetOr(default: T): T {
      match this
      case Some(v) => v
      case None => default
    }
  }

  /** Index of the first element of `xs` satisfying `p`, if any. This is how the
      model reads the library's `stream().filter(..).findAny()`: deterministically,
      as the first match. */
  function FirstMatch<T>(xs: seq<T>, p: T -> bool): (r: Option<nat>)
    ensures r.Some? ==> r.value < |xs| && p(xs[r.value])
    ensures r.Some? ==> forall j :: 0 <= j < r.value ==> !p(xs[j])
    ensures r.None? <==> forall j :: 0 <= j < |xs| ==> !p(xs[j])
  {
    if xs == [] then None
    else if p(xs[0]) then Some(0)
    else match FirstMatch(xs[1..], p)
      case None => None
      case Some(i) => Some(i + 1)
  }

  /** The first match in a list does not move when the list grows at its end, and
      does not depend on how `p` behaves outside the old elements. */
  lemma {:induction false} FirstMatchStable<T>(xs: seq<T>, ys: seq<T>, p: T -> bool, q: T -> bool)
    requires FirstMatch(xs, p).Some?
    requires forall j :: 0 <= j < |xs| ==> p(xs[j]) == q(xs[j])
    ensures FirstMatch(xs + ys, q) == FirstMatch(xs, p)
  {
    if !p(xs[0]) {
      assert (xs + ys)[1..] == xs[1..] + ys;
      FirstMatchStable(xs[1..], ys, p, q);
    }
  }

  /** Removes the first element equal to `x`, as `java.util.List.remove(Object)` does. */
  function RemoveFirst<T(==)>(xs: seq<T>, x: T): (r: seq<T>)
    ensures x in xs ==> |r| == |xs| - 1
    ensures x !in xs ==> r == xs
    ensures multiset(r) == multiset(xs) - multiset{x}
  {
    if xs == [] then []
    else
      assert xs == [xs[0]] + xs[1..];
      if xs[0] == x then xs[1..]
      else [xs[0]] + RemoveFirst(xs[1..], x)
  }
}
