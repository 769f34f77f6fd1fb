/** The local result tree: a named step with an optional explicit outcome, a
    repetition count, a duration and ordered child steps. This module holds the
    status aggregation, the structural equality used for merging, and the
    flattening of the immediate children into remote case steps. */
module TestSteps {
  import opened Common
  import opened ResultCodes
  import opened Text
  import opened Remote

  /** Repetition counts start at 1 and only ever grow by addition. */
  type Count = c: int | c >= 1 witness 1

  /** One step of the result tree. `name` and `result` may be unset (`null` in the
      Java class); `duration` is in milliseconds. */
  datatype Step = Step(
    name: Option<string>,
    result: Option<ResultCode>,
    count: Count,
    duration: nat,
    info: string,
    comment: string,
    steps: seq<Step>)

  /** A freshly constructed step: no name, no result, count 1, zero duration, empty
      texts and no children. */
  function NewStep(): (s: Step)
    ensures s.steps == [] && s.count == 1 && s.duration == 0
    ensures Result(s) == ResultCode.NotRun
  {
    Step(None, None, 1, 0, "", "", [])
  }

  /** Attaches `child` as the last child of `parent` (what constructing a step with
      a parent does). */
  function AddStep(parent: Step, child: Step): (r: Step)
    ensures r.steps == parent.steps + [child]
    ensures r.(steps := parent.steps) == parent
  {
    parent.(steps := parent.steps + [child])
  }

  // ---------------------------------------------------------------------------
  // Status aggregation

  /** The outcome of a step. A leaf reports its explicit result, or not-run when none
      was set. A step with children ignores its own result field and aggregates the
      children's outcomes with `Aggregate`. */
  function Result(s: Step): ResultCode
    decreases s, 1
  {
    if s.steps == [] then s.result.GetOr(ResultCode.NotRun)
    else Aggregate(ChildResults(s))
  }

  /** Outcomes of the immediate children, in order. */
  function ChildResults(s: Step): (rs: seq<ResultCode>)
    decreases s, 0
    ensures |rs| == |s.steps|
  {
    seq(|s.steps|, i requires 0 <= i < |s.steps| => Result(s.steps[i]))
  }

  /** The left-to-right scan of `TLTestStep.getResult`: a failure or a not-run outcome returns at
      once; a skipped outcome turns the running answer to skipped; success changes
      nothing. */
  function Scan(rs: seq<ResultCode>, acc: ResultCode): ResultCode {
    if rs == [] then acc
    else match rs[0]
      case Failure => Failure
      case NotRun => ResultCode.NotRun
      case Skipped => Scan(rs[1..], Skipped)
      case Success => Scan(rs[1..], acc)
  }

  function Aggregate(rs: seq<ResultCode>): ResultCode {
    Scan(rs, Success)
  }

  /** Outcomes that end the scan. */
  predicate Decisive(r: ResultCode) {
    r == Failure || r == ResultCode.NotRun
  }

  /** Reference definition of the aggregation rule: the first failure-or-not-run
      child decides; without one the answer is skipped if any child was skipped, and
      success otherwise. */
  function Precedence(rs: seq<ResultCode>): ResultCode {
    match FirstMatch(rs, Decisive)
    case Some(i) => rs[i]
    case None => if Skipped in rs then Skipped else Success
  }

  lemma {:induction false} ScanFollowsPrecedence(rs: seq<ResultCode>, acc: ResultCode)
    requires acc == Success || acc == Skipped
    ensures FirstMatch(rs, Decisive).Some? ==> Scan(rs, acc) == Precedence(rs)
    ensures FirstMatch(rs, Decisive).None? ==>
      Scan(rs, acc) == (if acc == Skipped || Skipped in rs then Skipped else Success)
  {
    if rs != [] && !Decisive(rs[0]) {
      ScanFollowsPrecedence(rs[1..], if rs[0] == Skipped then Skipped else acc);
      assert rs == [rs[0]] + rs[1..];
      assert Skipped in rs <==> rs[0] == Skipped || Skipped in rs[1..];
    }
  }

  /** The scan `getResult` performs computes exactly the precedence rule. */
  lemma AggregateIsPrecedence(rs: seq<ResultCode>)
    ensures Aggregate(rs) == Precedence(rs)
  {
    ScanFollowsPrecedence(rs, Success);
  }

  /** A step with children: its outcome is the precedence of its children's
      outcomes, whatever its own result field says. */
  lemma NodeResult(s: Step, own: Option<ResultCode>)
    requires s.steps != []
    ensures Result(s) == Precedence(ChildResults(s))
    ensures Result(s.(result := own)) == Result(s)
  {
    AggregateIsPrecedence(ChildResults(s));
    assert ChildResults(s.(result := own)) == ChildResults(s);
  }

  /** A step with children succeeds exactly when every child succeeds. */
  lemma SucceedsIffAllChildrenSucceed(s: Step)
    requires s.steps != []
    ensures Result(s) == Success <==> forall i :: 0 <= i < |s.steps| ==> Result(s.steps[i]) == Success
  {
    var rs := ChildResults(s);
    AggregateIsPrecedence(rs);
    assert forall i :: 0 <= i < |s.steps| ==> rs[i] == Result(s.steps[i]);
    if Result(s) == Success {
      assert FirstMatch(rs, Decisive).None?;
      forall i | 0 <= i < |s.steps| ensures Result(s.steps[i]) == Success {
        assert !Decisive(rs[i]);
        assert rs[i] != Skipped;
      }
    }
  }

  /** One more outcome folded into a running aggregate. */
  function Combine(acc: ResultCode, r: ResultCode): ResultCode {
    if Decisive(acc) then acc
    else if Decisive(r) then r
    else if acc == Skipped || r == Skipped then Skipped
    else Success
  }

  lemma {:induction false} ScanAppend(rs: seq<ResultCode>, r: ResultCode, acc: ResultCode)
    requires acc == Success || acc == Skipped
    ensures Scan(rs + [r], acc) == Combine(Scan(rs, acc), r)
  {
    if rs == [] {
      assert [r][1..] == [];
    } else {
      assert (rs + [r])[1..] == rs[1..] + [r];
      if !Decisive(rs[0]) {
        ScanAppend(rs[1..], r, if rs[0] == Skipped then Skipped else acc);
      }
    }
  }

  /** Attaching a child to a step that already has children updates its outcome
      incrementally: the old outcome combined with the new child's. */
  lemma AddStepResult(parent: Step, child: Step)
    requires parent.steps != []
    ensures Result(AddStep(parent, child)) == Combine(Result(parent), Result(child))
  {
    var p := AddStep(parent, child);
    assert ChildResults(p) == ChildResults(parent) + [Result(child)];
    ScanAppend(ChildResults(parent), Result(child), Success);
  }

  /** A leaf carrying an explicit result. */
  function Leaf(name: string, r: ResultCode): Step {
    Step(Some(name), Some(r), 1, 0, "", "", [])
  }

  /** A not-run child before a failing one decides the outcome; a failure after it is
      never reached. A skipped child only downgrades success. */
  lemma PrecedenceExamples()
    ensures Result(Step(None, None, 1, 0, "", "", [Leaf("a", ResultCode.NotRun), Leaf("b", Failure)])) == ResultCode.NotRun
    ensures Result(Step(None, None, 1, 0, "", "", [Leaf("a", Success), Leaf("b", Failure), Leaf("c", ResultCode.NotRun)])) == Failure
    ensures Result(Step(None, None, 1, 0, "", "", [Leaf("a", Success), Leaf("b", Skipped)])) == Skipped
    ensures Result(Step(None, None, 1, 0, "", "", [Leaf("a", ResultCode.NotRun), Leaf("b", Skipped)])) == ResultCode.NotRun
    ensures Result(Step(None, Some(Failure), 1, 0, "", "", [Leaf("a", Success)])) == Success
  {
  }

  // ---------------------------------------------------------------------------
  // Structural equality

  /** The Java `equals` of `TLTestStep`: same name (both unset counts as equal), same raw result
      field, and pairwise-equal child lists. Count, duration, info and comment are
      ignored. */
  predicate Equiv(a: Step, b: Step)
    decreases a
  {
    && a.name == b.name
    && a.result == b.result
    && |a.steps| == |b.steps|
    && forall i :: 0 <= i < |a.steps| ==> Equiv(a.steps[i], b.steps[i])
  }

  /** What equality looks at: the tree with counts, durations and texts erased. */
  datatype Shape = Shape(name: Option<string>, result: Option<ResultCode>, children: seq<Shape>)

  function ShapeOf(s: Step): (sh: Shape)
    decreases s
    ensures |sh.children| == |s.steps|
  {
    Shape(s.name, s.result, seq(|s.steps|, i requires 0 <= i < |s.steps| => ShapeOf(s.steps[i])))
  }

  /** Two steps are equal under the Java `equals` exactly when their shapes coincide. */
  lemma {:induction false} EquivIffSameShape(a: Step, b: Step)
    ensures Equiv(a, b) <==> ShapeOf(a) == ShapeOf(b)
  {
    if |a.steps| == |b.steps| {
      forall i | 0 <= i < |a.steps|
        ensures Equiv(a.steps[i], b.steps[i]) <==> ShapeOf(a.steps[i]) == ShapeOf(b.steps[i])
      {
        EquivIffSameShape(a.steps[i], b.steps[i]);
      }
      if ShapeOf(a) == ShapeOf(b) {
        forall i | 0 <= i < |a.steps| ensures ShapeOf(a.steps[i]) == ShapeOf(b.steps[i]) {
          assert ShapeOf(a).children[i] == ShapeOf(b).children[i];
        }
      }
    }
  }

  /** Equality is an equivalence relation and ignores the bookkeeping fields. */
  lemma EquivProperties(a: Step, b: Step, c: Step, count: Count, duration: nat, info: string, comment: string)
    ensures Equiv(a, a)
    ensures Equiv(a, b) ==> Equiv(b, a)
    ensures Equiv(a, b) && Equiv(b, c) ==> Equiv(a, c)
    ensures Equiv(a, a.(count := count, duration := duration, info := info, comment := comment))
  {
    EquivIffSameShape(a, a);
    EquivIffSameShape(a, b);
    EquivIffSameShape(b, a);
    EquivIffSameShape(b, c);
    EquivIffSameShape(a, c);
    var a' := a.(count := count, duration := duration, info := info, comment := comment);
    EquivIffSameShape(a, a');
  }

  // ---------------------------------------------------------------------------
  // Flattening

  /** Text of a possibly unset name in a string concatenation (`"null"` when unset). */
  function NameText(name: Option<string>): string {
    match name
    case Some(n) => n
    case None => "null"
  }

  /** The repetition annotation: empty for a single run, otherwise `pre`, the count
      in decimal, and `post`. */
  function FormattedCount(count: Count, pre: string, post: string): (r: string)
    ensures count == 1 <==> r == ""
    ensures count != 1 ==> r == pre + DecimalString(count) + post
  {
    if count == 1 then "" else pre + DecimalString(count) + post
  }

  /** Action text of one flattened step: the name followed by ` (x<count>)` when the
      step ran more than once. */
  function Label(s: Step): string {
    NameText(s.name) + FormattedCount(s.count, " (x", ")")
  }

  /** The label keeps the whole repetition count: two steps of the same name whose
      labels agree ran the same number of times. */
  lemma LabelKeepsCount(a: Step, b: Step)
    requires a.name == b.name && Label(a) == Label(b)
    ensures a.count == b.count
  {
    var n := NameText(a.name);
    var fa := FormattedCount(a.count, " (x", ")");
    var fb := FormattedCount(b.count, " (x", ")");
    assert Label(a)[|n|..] == fa && Label(b)[|n|..] == fb;
    if a.count != 1 && b.count != 1 {
      var da := DecimalString(a.count);
      var db := DecimalString(b.count);
      assert fa[3..|fa| - 1] == da;
      assert fb[3..|fb| - 1] == db;
      DecimalStringInjective(a.count, b.count);
    }
  }

  /** The immediate children (and only those) flattened into remote case steps: the
      i-th step gets id i, the given version, number i+1, the child's label as its
      action, an empty expected result, and is active and automated. */
  function ToSteps(s: Step, version: int): (r: seq<CaseStep>)
    ensures |r| == |s.steps|
    ensures forall i :: 0 <= i < |r| ==> r[i].number == i + 1 && r[i].version == version
    ensures forall i :: 0 <= i < |r| ==> r[i].actions == Label(s.steps[i]) && r[i].expectedResults == ""
  {
    seq(|s.steps|, i requires 0 <= i < |s.steps| =>
      CaseStep(i, version, i + 1, Label(s.steps[i]), "", true, Automated))
  }
}
