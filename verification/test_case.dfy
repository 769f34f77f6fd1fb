/** Case handles: deciding whether a run's steps differ from the stored ones, bringing
    a stored case up to date as a new version, and submitting an execution. */
module TestCases {
  import opened Common
  import opened Text
  import opened ResultCodes
  import opened Remote
  import opened TestSteps
  import opened Catalogue
  import opened Builds

  // ---------------------------------------------------------------------------
  // Step comparison

  /** Two steps differ in what the comparison looks at: the action or the expected
      result (ids, numbers and versions are ignored). */
  predicate StepDiffers(stored: CaseStep, written: CaseStep) {
    stored.actions != written.actions || stored.expectedResults != written.expectedResults
  }

  /** The scan from position `i` on, stopping at the first differing position. */
  function DiffersFrom(stored: seq<CaseStep>, written: seq<CaseStep>, i: nat): (d: bool)
    requires |stored| == |written| && i <= |stored|
    ensures d <==> exists k :: i <= k < |stored| && StepDiffers(stored[k], written[k])
    decreases |stored| - i
  {
    if i == |stored| then false
    else if StepDiffers(stored[i], written[i]) then true
    else DiffersFrom(stored, written, i + 1)
  }

  /** Whether a run's children no longer match the stored steps: a different number
      of steps, or some position whose action is not the child's label or whose
      expected result is not empty. */
  function StepsChanged(stored: seq<CaseStep>, result: Step): (changed: bool)
    ensures changed <==>
      |stored| != |result.steps| ||
      exists k :: 0 <= k < |stored| && (stored[k].actions != Label(result.steps[k]) || stored[k].expectedResults != "")
  {
    var written := ToSteps(result, -1);
    if |written| != |stored| then true
    else DiffersFrom(stored, written, 0)
  }

  /** Steps written from a run never count as changed against that same run,
      whatever version they were written for. */
  lemma WrittenStepsUnchanged(result: Step, version: int)
    ensures !StepsChanged(ToSteps(result, version), result)
  {
  }

  // ---------------------------------------------------------------------------
  // Update

  /** The creation request of an update: same name, suite and project, the new
      summary, the run's steps written for the next version, internal id -1, and a new
      version on a name clash. */
  function UpdateRequest(env: Env, tc: CaseHandle, summary: string, result: Step): (req: CaseRequest)
    ensures req.name == tc.testcase.name && req.suiteId == tc.suiteId && req.projectId == tc.projectId
    ensures req.summary == summary && req.author == env.username
    ensures req.onDuplicate == CreateNewVersion && req.internalId == -1
    ensures |req.steps| == |result.steps|
    ensures forall i :: 0 <= i < |req.steps| ==> req.steps[i].version == tc.testcase.version + 1
    ensures !StepsChanged(req.steps, result)
  {
    WrittenStepsUnchanged(result, tc.testcase.version + 1);
    CaseRequest(tc.testcase.name, tc.suiteId, tc.projectId, env.username, summary,
                ToSteps(result, tc.testcase.version + 1), -1, CreateNewVersion)
  }

  /** Whether the stored case is out of date with respect to `summary` and `result`. */
  predicate OutOfDate(tc: CaseHandle, summary: string, result: Step) {
    summary != tc.testcase.summary || StepsChanged(tc.testcase.steps, result)
  }

  /** The update step shared by both readings of the permission flag: create the
      next version and wrap it, or keep the old handle when the creation fails. */
  function CreateNextVersion(env: Env, st: State, tc: CaseHandle, summary: string, result: Step): (a: Answer<CaseHandle>)
    ensures a.st.trace == st.trace + [CreateCase(UpdateRequest(env, tc, summary, result))]
    ensures a.st == st.(trace := a.st.trace, nextCase := a.st.nextCase)
    ensures match env.api.createCase(Now(st), UpdateRequest(env, tc, summary, result))
      case Done(c) => a.value == CaseHandle(st.nextCase, tc.projectId, tc.suiteId, c) && a.st.nextCase == st.nextCase + 1
      case Thrown(_) => a.value == tc && a.st.nextCase == st.nextCase
  {
    var req := UpdateRequest(env, tc, summary, result);
    var st' := Record(st, CreateCase(req));
    match env.api.createCase(Now(st), req)
    case Done(c) => Answer(st'.(nextCase := st.nextCase + 1), CaseHandle(st.nextCase, tc.projectId, tc.suiteId, c))
    case Thrown(_) => Answer(st', tc)
  }

  /** `update` as the library writes it: the update permission is consulted only for
      a log line, so an out-of-date case with a successful run is updated even when
      updates are not permitted. */
  function UpdateAsWritten(env: Env, st: State, tc: CaseHandle, summary: string, result: Step): (a: Answer<CaseHandle>)
    ensures !OutOfDate(tc, summary, result) || TestSteps.Result(result) != Success ==> a == Answer(st, tc)
    ensures OutOfDate(tc, summary, result) && TestSteps.Result(result) == Success ==>
      a.st.trace == st.trace + [CreateCase(UpdateRequest(env, tc, summary, result))] &&
      a.value == (match env.api.createCase(Now(st), UpdateRequest(env, tc, summary, result))
                  case Done(c) => CaseHandle(st.nextCase, tc.projectId, tc.suiteId, c)
                  case Thrown(_) => tc)
    ensures a.st == st.(trace := a.st.trace, nextCase := a.st.nextCase)
    ensures st.trace <= a.st.trace && st.nextCase <= a.st.nextCase
  {
    if !OutOfDate(tc, summary, result) then Answer(st, tc)
    else if TestSteps.Result(result) != Success then Answer(st, tc)
    else CreateNextVersion(env, st, tc, summary, result)
  }

  /** The as-written update contacts the service without update permission. */
  lemma UpdateIgnoresPermission(env: Env, st: State, tc: CaseHandle, summary: string, result: Step)
    requires !env.config.updateTestCase
    requires summary != tc.testcase.summary && TestSteps.Result(result) == Success
    ensures UpdateAsWritten(env, st, tc, summary, result).st.trace != st.trace
  {
  }

  /** `update`: an up-to-date case is kept; an out-of-date case is kept when updates
      are not permitted or the run did not succeed; otherwise the case is created
      again as the next version with the run's steps, and the new handle replaces the
      old one unless that creation fails. */
  function Update(env: Env, st: State, tc: CaseHandle, summary: string, result: Step): (a: Answer<CaseHandle>)
    ensures !OutOfDate(tc, summary, result) ==> a == Answer(st, tc)
    ensures !env.config.updateTestCase ==> a == Answer(st, tc)
    ensures TestSteps.Result(result) != Success ==> a == Answer(st, tc)
    ensures a.st.trace != st.trace <==> OutOfDate(tc, summary, result) && env.config.updateTestCase && TestSteps.Result(result) == Success
    ensures a.st.trace != st.trace ==>
      a.st.trace == st.trace + [CreateCase(UpdateRequest(env, tc, summary, result))] &&
      a.value == (match env.api.createCase(Now(st), UpdateRequest(env, tc, summary, result))
                  case Done(c) => CaseHandle(st.nextCase, tc.projectId, tc.suiteId, c)
                  case Thrown(_) => tc)
    ensures a.st == st.(trace := a.st.trace, nextCase := a.st.nextCase)
    ensures st.trace <= a.st.trace && st.nextCase <= a.st.nextCase
  {
    if !OutOfDate(tc, summary, result) then Answer(st, tc)
    else if !env.config.updateTestCase then Answer(st, tc)
    else if TestSteps.Result(result) != Success then Answer(st, tc)
    else CreateNextVersion(env, st, tc, summary, result)
  }

  /** An update settles: once the service has stored the requested summary and steps,
      updating the new version with the same summary and run does nothing. */
  lemma UpdateSettles(env: Env, st: State, tc: CaseHandle, summary: string, result: Step)
    requires env.api.createCase(Now(st), UpdateRequest(env, tc, summary, result)).Done?
    requires var c := env.api.createCase(Now(st), UpdateRequest(env, tc, summary, result)).value;
      c.summary == summary && c.steps == UpdateRequest(env, tc, summary, result).steps
    ensures var a := Update(env, st, tc, summary, result);
      Update(env, a.st, a.value, summary, result) == Answer(a.st, a.value)
  {
    var a := Update(env, st, tc, summary, result);
    if a.st.trace != st.trace {
      WrittenStepsUnchanged(result, tc.testcase.version + 1);
    }
  }

  // ---------------------------------------------------------------------------
  // Execution

  /** The note appended when the plan links another version than the one run. */
  function VersionNote(version: int): (s: string)
    ensures s != [] && !IsTrimmed(s[0]) && !IsTrimmed(s[|s| - 1])
  {
    "Actual executed version: " + IntString(version) + "\nGo to Test Specification to see changes"
  }

  /** The annotation proper: a blank line, then the version note. */
  function Annotation(version: int): string {
    "\n\n" + VersionNote(version)
  }

  /** Trimming annotated notes keeps the whole version note: only the notes' leading
      blanks go (and the blank line too when the notes are blank). */
  lemma AnnotationSurvivesTrim(notes: string, version: int)
    ensures Trim(notes + Annotation(version)) == TrimStart(notes + "\n\n") + VersionNote(version)
  {
    var v := VersionNote(version);
    assert notes + Annotation(version) == (notes + "\n\n") + v;
    TrimKeepsTail(notes + "\n\n", v);
  }

  /** The notes as submitted: annotated with the run version when the plan links a
      different (positive) version, then trimmed. */
  function SubmittedNotes(notes: string, linked: int, version: int): (s: string)
    ensures linked > 0 && linked != version ==> s == TrimStart(notes + "\n\n") + VersionNote(version)
    ensures !(linked > 0 && linked != version) ==> s == Trim(notes)
  {
    if linked > 0 && linked != version then
      AnnotationSurvivesTrim(notes, version);
      Trim(notes + Annotation(version))
    else Trim(notes)
  }

  /** `execute`: records `outcome` for the case in the build. Nothing is sent when
      execution is not permitted or the outcome is "not run"; otherwise the case is
      linked into the plan first, a failed link aborts, and the outcome is submitted
      with the submitted notes. True exactly when the submission succeeds. */
  function Execute(env: Env, st: State, tc: CaseHandle, build: BuildHandle, outcome: ResultCode, notes: string): (a: Answer<bool>)
    ensures !env.config.executeTestCase || outcome == ResultCode.NotRun ==> a == Answer(st, false)
    ensures env.config.executeTestCase && outcome != ResultCode.NotRun ==>
      var link := AddTestcaseToTestPlan(env, st, build, tc);
      if link.value == -1 then a == Answer(link.st, false)
      else
        var call := SubmitExecution(tc.testcase.id, build.planId, ToExecutionStatus(outcome), build.buildId,
                                    SubmittedNotes(notes, link.value, tc.testcase.version));
        a.st == Record(link.st, call) &&
        (a.value <==> env.api.submitExecution(Now(link.st), call.caseId, call.planId, call.status, call.buildId, call.notes).Done?)
    ensures a.st.nextCase == st.nextCase && a.st.suites == st.suites && a.st.projectNodes == st.projectNodes
  {
    if !env.config.executeTestCase then Answer(st, false)
    else
      var status := ToExecutionStatus(outcome);
      if status == ExecutionStatus.NotRun then Answer(st, false)
      else
        var link := AddTestcaseToTestPlan(env, st, build, tc);
        if link.value == -1 then Answer(link.st, false)
        else
          var submitted := SubmittedNotes(notes, link.value, tc.testcase.version);
          var st' := Record(link.st, SubmitExecution(tc.testcase.id, build.planId, status, build.buildId, submitted));
          match env.api.submitExecution(Now(link.st), tc.testcase.id, build.planId, status, build.buildId, submitted)
          case Done(_) => Answer(st', true)
          case Thrown(_) => Answer(st', false)
  }

  /** A successful execution sent exactly two calls, the link and the submission, and
      the submitted status reads back as the outcome. */
  lemma ExecuteSendsLinkThenSubmit(env: Env, st: State, tc: CaseHandle, build: BuildHandle, outcome: ResultCode, notes: string)
    requires Execute(env, st, tc, build, outcome, notes).value
    ensures var a := Execute(env, st, tc, build, outcome, notes);
      |a.st.trace| == |st.trace| + 2 &&
      a.st.trace[|st.trace|] == LinkCase(build.projectId, build.planId, tc.testcase.id, tc.testcase.version) &&
      a.st.trace[|st.trace| + 1].SubmitExecution? &&
      FromExecutionStatus(a.st.trace[|st.trace| + 1].status) == outcome
  {
    ToFromRoundTrip(outcome);
  }
}
