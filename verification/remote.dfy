/** The boundary to the remote TestLink service: the library's record types (only the
    fields the handles use), the permission set, the requests the handles issue, and
    an abstract oracle standing for the remote API. */
module Remote {
  import opened Common
  import opened ResultCodes

  /** Execution type of a remote case step; the handles only ever write `Automated`. */
  datatype ExecutionType = Manual | Automated

  /** A remote case step: id, version of the owning case, 1-based number, the action
      text, the expected-results text, the active flag and the execution type. */
  datatype CaseStep = CaseStep(
    id: int,
    version: int,
    number: int,
    actions: string,
    expectedResults: string,
    active: bool,
    executionType: ExecutionType)

  /** A remote test case, as far as the handles read it. */
  datatype TestCase = TestCase(id: int, name: string, version: int, summary: string, steps: seq<CaseStep>)

  datatype ProjectRec = ProjectRec(id: int, name: string)
  datatype SuiteRec = SuiteRec(id: int, name: string)
  datatype PlanRec = PlanRec(id: int, name: string)
  datatype BuildRec = BuildRec(id: int, name: string)
  datatype Execution = Execution(id: int, buildId: int, status: ExecutionStatus, notes: string)

  /** The five capabilities a run may be granted. */
  datatype Config = Config(
    createTestCase: bool,
    updateTestCase: bool,
    executeTestCase: bool,
    createTestSuite: bool,
    createBuild: bool)

  const NoPermissions := Config(false, false, false, false, false)
  const AllPermissions := Config(true, true, true, true, true)

  /** What to do when a created case's name already exists remotely. */
  datatype OnDuplicate = Block | CreateNewVersion

  /** Arguments of a remote case creation: name, suite, project, author, summary,
      steps, internal id and the duplicate policy. */
  datatype CaseRequest = CaseRequest(
    name: string,
    suiteId: int,
    projectId: int,
    author: string,
    summary: string,
    steps: seq<CaseStep>,
    internalId: int,
    onDuplicate: OnDuplicate)

  /** One remote call, as recorded in the call trace. */
  datatype Call =
    | FindProject(projectName: string)
    | ListFirstLevelSuites(projectId: int)
    | ListChildSuites(suiteId: int)
    | ListCases(suiteId: int)
    | CreateSuite(projectId: int, suiteName: string, parentId: int)
    | CreateCase(request: CaseRequest)
    | FindPlan(planName: string, projectName: string)
    | ListBuilds(planId: int)
    | CreateBuild(planId: int, buildName: string)
    | LinkCase(projectId: int, planId: int, caseId: int, version: int)
    | SubmitExecution(caseId: int, planId: int, status: ExecutionStatus, buildId: int, notes: string)
    | LastExecution(planId: int, caseId: int)

  /** Answer of a remote call: a value, or an exception carrying its message. */
  datatype Outcome<+T> = Done(value: T) | Thrown(message: string)

  /** The remote API as an oracle. Every answer may depend on the number of calls
      made before it (the first argument), so the remote side may change between
      calls. Creation calls answer with the new id; the library then builds the
      record from the requested name. Case creation answers with the whole case. */
  datatype Api = Api(
    projectByName: (nat, string) -> Outcome<ProjectRec>,
    firstLevelSuites: (nat, int) -> Outcome<seq<SuiteRec>>,
    childSuites: (nat, int) -> Outcome<seq<SuiteRec>>,
    casesOfSuite: (nat, int) -> Outcome<seq<TestCase>>,
    createSuite: (nat, int, string, int) -> Outcome<int>,
    createCase: (nat, CaseRequest) -> Outcome<TestCase>,
    planByName: (nat, string, string) -> Outcome<PlanRec>,
    buildsOfPlan: (nat, int) -> Outcome<seq<BuildRec>>,
    createBuild: (nat, int, string) -> Outcome<int>,
    linkCase: (nat, int, int, int, int) -> Outcome<()>,
    submitExecution: (nat, int, int, ExecutionStatus, int, string) -> Outcome<()>,
    lastExecution: (nat, int, int) -> Outcome<Option<Execution>>,
    /** Whether an exception message reports that the case is already linked. */
    isAlreadyLinked: string -> bool,
    /** The linked version such a message names. */
    linkedVersion: string -> int)

  /** Everything fixed for one connection: the oracle, the permissions and the
      user name sent as author. */
  datatype Env = Env(api: Api, config: Config, username: string)
}
