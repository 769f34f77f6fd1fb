/** Build handles: linking a case into the build's test plan, and reading back the
    latest execution of a case in this build. */
module Builds {
  import opened Common
  import opened ResultCodes
  import opened Remote
  import opened Catalogue

  /** Links the case's current version into the plan. Answers 0 when the link is
      made, the already linked version when the service refuses because the case is
      linked already, and -1 on every other failure. */
  function AddTestcaseToTestPlan(env: Env, st: State, build: BuildHandle, tc: CaseHandle): (a: Answer<int>)
    ensures a.st == Record(st, LinkCase(build.projectId, build.planId, tc.testcase.id, tc.testcase.version))
    ensures var o := env.api.linkCase(Now(st), build.projectId, build.planId, tc.testcase.id, tc.testcase.version);
      && (o.Done? ==> a.value == 0)
      && (o.Thrown? && !env.api.isAlreadyLinked(o.message) ==> a.value == -1)
      && (o.Thrown? && env.api.isAlreadyLinked(o.message) ==> a.value == env.api.linkedVersion(o.message))
  {
    var st' := Record(st, LinkCase(build.projectId, build.planId, tc.testcase.id, tc.testcase.version));
    match env.api.linkCase(Now(st), build.projectId, build.planId, tc.testcase.id, tc.testcase.version)
    case Done(_) => Answer(st', 0)
    case Thrown(message) =>
      if env.api.isAlreadyLinked(message) then Answer(st', env.api.linkedVersion(message))
      else Answer(st', -1)
  }

  /** An execution handle: the build, the case, and the execution itself, absent when
      the case was not executed in this build. */
  datatype ExecutionHandle = ExecutionHandle(build: BuildHandle, testcase: CaseHandle, execution: Option<Execution>)

  predicate NotExecuted(h: ExecutionHandle) {
    h.execution.None?
  }

  /** The local reading of the recorded status. A not-executed handle has no
      execution to read, and the Java method dereferences `null`: that is the thrown
      outcome. */
  function ExecutionResult(h: ExecutionHandle): (r: Outcome<ResultCode>)
    ensures r.Thrown? <==> NotExecuted(h)
    ensures r.Done? ==> ToExecutionStatus(r.value) == h.execution.value.status
  {
    match h.execution
    case None => Thrown("NullPointerException")
    case Some(e) =>
      FromToRoundTrip(e.status);
      Done(FromExecutionStatus(e.status))
  }

  /** The latest execution of the case in the build's plan, as seen from this build:
      no handle when the query fails, a not-executed handle when the plan has no
      execution of the case or the latest one belongs to another build, and the
      execution otherwise. */
  function GetLastExecution(env: Env, st: State, build: BuildHandle, tc: CaseHandle): (a: Answer<Option<ExecutionHandle>>)
    ensures a.st == Record(st, LastExecution(build.planId, tc.testcase.id))
    ensures a.value.Some? ==> a.value.value.build == build && a.value.value.testcase == tc
    ensures var o := env.api.lastExecution(Now(st), build.planId, tc.testcase.id);
      && (a.value.None? <==> o.Thrown?)
      && (a.value.Some? && !NotExecuted(a.value.value) <==>
            o.Done? && o.value.Some? && o.value.value.buildId == build.buildId)
      && (a.value.Some? && !NotExecuted(a.value.value) ==> a.value.value.execution == o.value)
  {
    var st' := Record(st, LastExecution(build.planId, tc.testcase.id));
    match env.api.lastExecution(Now(st), build.planId, tc.testcase.id)
    case Thrown(_) => Answer(st', None)
    case Done(None) => Answer(st', Some(ExecutionHandle(build, tc, None)))
    case Done(Some(e)) =>
      if e.buildId != build.buildId then Answer(st', Some(ExecutionHandle(build, tc, None)))
      else Answer(st', Some(ExecutionHandle(build, tc, Some(e))))
  }

  /** An execution found in this build always belongs to this build, and a result
      submitted as `ToExecutionStatus(r)` reads back as `r`. */
  lemma LastExecutionReadsBack(env: Env, st: State, build: BuildHandle, tc: CaseHandle, r: ResultCode)
    requires env.api.lastExecution(Now(st), build.planId, tc.testcase.id).Done?
    requires var e := env.api.lastExecution(Now(st), build.planId, tc.testcase.id).value;
      e.Some? && e.value.buildId == build.buildId && e.value.status == ToExecutionStatus(r)
    ensures var h := GetLastExecution(env, st, build, tc).value;
      h.Some? && !NotExecuted(h.value) && h.value.execution.value.buildId == build.buildId &&
      ExecutionResult(h.value) == Done(r)
  {
    ToFromRoundTrip(r);
  }
}
