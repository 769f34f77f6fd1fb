/** The root of a result tree: a step without parent that also owns the execution
    time and the list of suite names the result belongs to. */
module TestResults {
  import opened Common
  import opened Text
  import opened TestSteps

  /** A result tree root. `executionTime` is unset until assigned (milliseconds since
      the epoch). */
  datatype TestResult = TestResult(root: Step, executionTime: Option<nat>, testSuites: seq<string>)

  /** A fresh root: an empty step without parent, no execution time, no suites. */
  function NewTestResult(): (r: TestResult)
    ensures r.root == NewStep() && r.executionTime.None? && r.testSuites == []
  {
    TestResult(NewStep(), None, [])
  }

  /** Assigns the execution time; nothing else changes. */
  function SetExecutionTime(r: TestResult, time: nat): (r': TestResult)
    ensures r'.executionTime == Some(time)
    ensures r'.root == r.root && r'.testSuites == r.testSuites
  {
    r.(executionTime := Some(time))
  }

  /** Replaces the suite list by (a copy of) `suites`; nothing else changes. */
  function SetTestSuites(r: TestResult, suites: seq<string>): (r': TestResult)
    ensures r'.testSuites == suites
    ensures r'.root == r.root && r'.executionTime == r.executionTime
  {
    r.(testSuites := suites)
  }

  /** The execution time reads back as unset on a fresh root and as the last value
      assigned afterwards. */
  lemma ExecutionTimeLastWins(r: TestResult, a: nat, b: nat)
    ensures NewTestResult().executionTime == None
    ensures SetExecutionTime(SetExecutionTime(r, a), b).executionTime == Some(b)
    ensures SetTestSuites(SetExecutionTime(r, a), []).executionTime == Some(a)
  {
  }

  /** `TLTestResult.getTestSuite` as a fold: `reduce(null, (s, suite) -> s == null ? suite : s + "." + suite)`. */
  function DotFold(acc: Option<string>, suites: seq<string>): (r: Option<string>)
    ensures r.None? <==> acc.None? && suites == []
    ensures acc.None? && |suites| == 1 ==> r == Some(suites[0])
    decreases |suites|
  {
    if suites == [] then acc
    else DotFold(Some(if acc.None? then suites[0] else acc.value + "." + suites[0]), suites[1..])
  }

  /** The dotted suite name: unset for no suites, the only name for one suite. */
  function TestSuite(r: TestResult): (s: Option<string>)
    ensures s.None? <==> r.testSuites == []
    ensures |r.testSuites| == 1 ==> s == Some(r.testSuites[0])
  {
    DotFold(None, r.testSuites)
  }

  lemma {:induction false} DotFoldJoins(prefix: string, suites: seq<string>)
    requires suites != []
    ensures DotFold(Some(prefix), suites) == Some(prefix + "." + JoinWith(suites, "."))
    decreases |suites|
  {
    if |suites| > 1 {
      DotFoldJoins(prefix + "." + suites[0], suites[1..]);
      assert prefix + "." + suites[0] + "." + JoinWith(suites[1..], ".")
          == prefix + "." + (suites[0] + "." + JoinWith(suites[1..], "."));
    }
  }

  /** For a non-empty suite list the dotted name is the names joined by `.` in order. */
  lemma TestSuiteIsJoin(r: TestResult)
    requires r.testSuites != []
    ensures TestSuite(r) == Some(JoinWith(r.testSuites, "."))
  {
    var xs := r.testSuites;
    if |xs| > 1 {
      DotFoldJoins(xs[0], xs[1..]);
    }
  }

  // ---------------------------------------------------------------------------
  // Execution time of an inner step

  /** One link of the parent chain from a step up to its root: a plain step, or the
      result root that owns the execution time. */
  datatype Ancestor = PlainStep | ResultRoot(time: Option<nat>)

  /** Answer of an execution-time query: a time (possibly unset) or the error of a
      step without parent that is not a result root. */
  datatype TimeLookup = Time(value: Option<nat>) | NoParent

  /** `getExecutionTime` walking up the parent chain: `chain[0]` is the step asked,
      `chain[i + 1]` the parent of `chain[i]`. A result root answers with its time;
      a plain step asks its parent, and fails when it has none. Only the last link
      can be a result root, because a result root never has a parent. */
  function ExecutionTimeVia(chain: seq<Ancestor>): (r: TimeLookup)
    requires chain != []
    requires forall i :: 0 <= i < |chain| - 1 ==> chain[i].PlainStep?
    ensures chain[|chain| - 1].ResultRoot? ==> r == Time(chain[|chain| - 1].time)
    ensures chain[|chain| - 1].PlainStep? ==> r == NoParent
  {
    match chain[0]
    case ResultRoot(t) => Time(t)
    case PlainStep => if |chain| == 1 then NoParent else ExecutionTimeVia(chain[1..])
  }

  /** Parent chain of a step `depth` levels below the root of `r`. Step trees here
      are values without parent links, so the chain is built directly: `depth` plain
      steps and then the result itself. The chain's shape is given; what the lemma
      below checks is the upward deferral of `ExecutionTimeVia` along it. */
  function ChainBelow(r: TestResult, depth: nat): (chain: seq<Ancestor>)
    ensures |chain| == depth + 1 && chain[depth] == ResultRoot(r.executionTime)
    ensures forall i :: 0 <= i < depth ==> chain[i].PlainStep?
  {
    seq(depth, i => PlainStep) + [ResultRoot(r.executionTime)]
  }

  /** Every step of a result tree, at any depth, reports the root's execution time. */
  lemma ExecutionTimeAtAnyDepth(r: TestResult, depth: nat)
    ensures ExecutionTimeVia(ChainBelow(r, depth)) == Time(r.executionTime)
  {
  }
}
