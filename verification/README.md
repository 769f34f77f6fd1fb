# oo-tl-api core, modelled in Dafny

oo-tl-api is a Java wrapper around a TestLink server. It has two parts that this
project models.

The first part is a local **result tree**. `TLTestStep` is a tree of named steps; `TLTestResult` is its root.
- A step's result is aggregated from its children in a fixed, order-sensitive way.
- Adjacent equal siblings are merged: their repetition counts and durations are added up.
- The immediate children are flattened into numbered TestLink case steps.
- `ResultCode` maps results to and from TestLink's execution statuses.

The second part is a set of **memoising handles** over the remote catalogue: `TestLink`, `TLTestProject`, `TLTestSuite`, `TLTestCase` and `TLBuild`.
- Child lists are fetched at most once.
- Lookup is by name.
- Created children are appended to the cached lists.
- Suite paths are resolved with a memo, and so are builds and projects.
- A case is brought up to date by creating its next version.
- An execution is submitted after the case is linked into the plan.

## How the model is built

- **Pure part.** These modules use immutable datatypes and recursive functions:
  - `ResultCodes` (`result_code.dfy`);
  - `TestSteps` (`step_tree.dfy`): the tree, aggregation, equality, labels and flattening;
  - `StepMerge` (`step_merge.dfy`): merging;
  - `TestResults` (`test_result.dfy`): the root.
- **Handles.** The handles are modelled as a state-passing heap (`Catalogue`, `catalogue.dfy`):
  - A `State` holds the suite nodes and project nodes in sequences. A handle is an index into those sequences.
  - A child cache is `Unloaded` (Java `null`) or `Loaded(items)`.
  - Every remote call is appended to a call trace. The trace replaces the call counters a test would use.
  - `Valid` is the well-formedness invariant. Parents come before their children. Every fetched child points back at its parent. Every memoised path leads to a suite with exactly that path. Every memoised build carries its key's build name.
  - `Extends` says that a later state only grew: the trace is extended, nodes are kept, and fetched caches and memo entries stay.
- **The remote service.** The TestLink service is an abstract oracle `Api` (`remote.dfy`):
  - Each operation is a total function of the call's position in the trace and its arguments. So answers may depend on history.
  - Each answer is either `Done(value)` or `Thrown(message)`, which stands for a `TestLinkAPIException`.
- **Exceptions.** Exceptions propagate exactly where the Java code lets them propagate:
  - `Reply` carries an `Outcome` that may be `Thrown`.
  - `Answer` is used by operations that catch everything themselves.
- **Permissions.** The permission flags of `TestLinkConfig` and the user name are plain parameters (`Env`).
- **Modules.** `TestCases`, `Builds`, `TestSuites`, `TestProjects` and `TestLinks` follow the Java classes one to one. `Text` holds decimal rendering, `String.trim`, joining and the path split.

Behaviour of the Java code worth knowing:

- **Aggregation.** A node's result is decided by the first child, from the left, whose result is FAILURE or NOT_RUN. So `[NOT_RUN, FAILURE]` aggregates to NOT_RUN, not FAILURE (`TestSteps.PrecedenceExamples`).
- **Project lookups.** A failing project lookup is not told apart from "no such project", and it is not memoised. `computeIfAbsent` stores nothing for `null`, so the name is looked up again next time (`TestLinks.FailedProjectRetried`). The same holds for suite paths that do not resolve (`TestProjects.FailedPathRetried`).
- **Failing listings.** A listing call that throws leaves an empty fetched list behind, because the Java code installs the list before it makes the call. Later requests are then answered from that empty list.
- **Update permission.** The update permission does not stop an update in the code (see the Findings row for `TLTestCase.java:93-95`).

## Model

| member | source | states |
|---|---|---|
| ResultCodes.ByStatusCode | src/main/java/de/blinklan/tools/ootl/structure/ResultCode.java:13-22 | 0 maps to SKIPPED, 1 to SUCCESS, every other integer to FAILURE; never NOT_RUN (each as an if-and-only-if) |
| ResultCodes.FromExecutionStatus | src/main/java/de/blinklan/tools/ootl/structure/ResultCode.java:24-35 | PASSED, BLOCKED, NOT_RUN and FAILED map to SUCCESS, SKIPPED, NOT_RUN and FAILURE, each in both directions |
| ResultCodes.ToExecutionStatus | src/main/java/de/blinklan/tools/ootl/structure/ResultCode.java:37-48 | SUCCESS, SKIPPED, NOT_RUN and FAILURE map to PASSED, BLOCKED, NOT_RUN and FAILED, each in both directions |
| ResultCodes.ToFromRoundTrip | src/main/java/de/blinklan/tools/ootl/structure/ResultCode.java:24-48 | reading back a converted result gives the result |
| ResultCodes.FromToRoundTrip | src/main/java/de/blinklan/tools/ootl/structure/ResultCode.java:24-48 | converting a read-back status gives the status (the four modelled statuses) |
| ResultCodes.NotRunOnlyFromNotRun | src/main/java/de/blinklan/tools/ootl/structure/ResultCode.java:37-48 | a result converts to NOT_RUN exactly when it is NOT_RUN |
| TestSteps.NewStep | src/main/java/eu/qedv/tools/ootl/structure/TLTestStep.java:20-38 | a new step has no children, count 1, zero duration, and aggregates to NOT_RUN |
| TestSteps.AddStep | src/main/java/eu/qedv/tools/ootl/structure/TLTestStep.java:40-43 | the child is appended last and nothing else of the parent changes |
| TestSteps.ScanFollowsPrecedence | src/main/java/eu/qedv/tools/ootl/structure/TLTestStep.java:116-129 | the left-to-right loop agrees with the precedence reading: the first FAILURE or NOT_RUN child decides, else SKIPPED if some child is skipped, else SUCCESS |
| TestSteps.AggregateIsPrecedence | src/main/java/eu/qedv/tools/ootl/structure/TLTestStep.java:116-129 | the loop's result equals the precedence reading for every list of child results |
| TestSteps.NodeResult | src/main/java/eu/qedv/tools/ootl/structure/TLTestStep.java:112-129 | a node with children aggregates by precedence and ignores its own result field |
| TestSteps.SucceedsIffAllChildrenSucceed | src/main/java/eu/qedv/tools/ootl/structure/TLTestStep.java:116-129 | a node with children succeeds exactly when every child succeeds |
| TestSteps.ScanAppend | src/main/java/eu/qedv/tools/ootl/structure/TLTestStep.java:118-128 | scanning one more child result combines it with the result so far |
| TestSteps.AddStepResult | src/main/java/eu/qedv/tools/ootl/structure/TLTestStep.java:112-129 | adding a child to a node that has children combines the child's result with the node's |
| TestSteps.PrecedenceExamples | src/main/java/eu/qedv/tools/ootl/structure/TLTestStep.java:112-129 | [NOT_RUN, FAILURE] gives NOT_RUN; [SUCCESS, FAILURE, NOT_RUN] gives FAILURE; [SUCCESS, SKIPPED] gives SKIPPED; [NOT_RUN, SKIPPED] gives NOT_RUN; an explicit result on a node with children is ignored |
| TestSteps.EquivIffSameShape | src/main/java/eu/qedv/tools/ootl/structure/TLTestStep.java:169-179 | two steps are equal exactly when their name, raw result and children shapes agree, so count, duration, info and comment are ignored |
| TestSteps.EquivProperties | src/main/java/eu/qedv/tools/ootl/structure/TLTestStep.java:169-179 | step equality is reflexive, symmetric and transitive, and is blind to count, duration, info and comment |
| TestSteps.FormattedCount | src/main/java/eu/qedv/tools/ootl/structure/TLTestStep.java:191-193 | empty exactly for count 1, otherwise prefix, decimal count, suffix |
| TestSteps.LabelKeepsCount | src/main/java/eu/qedv/tools/ootl/structure/TLTestStep.java:157-166 | two same-named steps with the same action label ran the same number of times |
| TestSteps.ToSteps | src/main/java/eu/qedv/tools/ootl/structure/TLTestStep.java:157-166 | one case step per immediate child: number i+1, the given version, the child's label as action, empty expected result |
| StepMerge.Absorb | src/main/java/eu/qedv/tools/ootl/structure/TLTestStep.java:145-148 | absorbing a twin adds its count and duration; the survivor keeps its own name, result, children, info and comment |
| StepMerge.Merge | src/main/java/eu/qedv/tools/ootl/structure/TLTestStep.java:136-155 | merging keeps the node's own fields and is a no-op on a leaf |
| StepMerge.CollapseKeepsTotals | src/main/java/eu/qedv/tools/ootl/structure/TLTestStep.java:143-154 | collapsing siblings keeps their total count and total duration |
| StepMerge.CollapseIsDedup | src/main/java/eu/qedv/tools/ootl/structure/TLTestStep.java:143-154 | the collapsed siblings' shapes are the input shapes with adjacent repeats removed, so order is kept and only left neighbours absorb |
| StepMerge.CollapseNoAdjacentEquiv | src/main/java/eu/qedv/tools/ootl/structure/TLTestStep.java:143-154 | after collapsing, no two adjacent siblings are equal |
| StepMerge.CollapseFixed | src/main/java/eu/qedv/tools/ootl/structure/TLTestStep.java:143-154 | siblings with no adjacent equal pair are left unchanged |
| StepMerge.CollapseKeepsReduced | src/main/java/eu/qedv/tools/ootl/structure/TLTestStep.java:136-155 | collapsing merged siblings keeps every one of them merged |
| StepMerge.MergeReduces | src/main/java/eu/qedv/tools/ootl/structure/TLTestStep.java:136-155 | after merging, no node anywhere in the tree has two adjacent equal children |
| StepMerge.MergeFixesReduced | src/main/java/eu/qedv/tools/ootl/structure/TLTestStep.java:136-155 | merging a tree that has no adjacent equal children anywhere changes nothing |
| StepMerge.MergeIdempotent | src/main/java/eu/qedv/tools/ootl/structure/TLTestStep.java:136-155 | merging twice is merging once |
| StepMerge.MergeKeepsChildTotals | src/main/java/eu/qedv/tools/ootl/structure/TLTestStep.java:136-155 | merging keeps the children's total count and duration, and the children become the merged children with adjacent repeats removed |
| StepMerge.MergeSiblings | src/main/java/eu/qedv/tools/ootl/structure/TLTestStep.java:143-154 | the in-place loop computes the collapse: no adjacent equal siblings and the same total count |
| StepMerge.TwinsMerge | src/test/java/eu/qedv/tools/ootl/test/TLTestStepBasicTest.java:15-50 | [first, twin 13 ms, twin 18 ms, last] merges to [first, twin with count 2 and 31 ms, last], the others keeping count 1 |
| StepMerge.NonAdjacentKept | src/main/java/eu/qedv/tools/ootl/structure/TLTestStep.java:143-154 | equal steps that are not neighbours are not merged |
| TestResults.NewTestResult | src/main/java/de/blinklan/tools/ootl/structure/TLTestResult.java:14-17 | a new result is a fresh root with no execution time and no suites |
| TestResults.SetExecutionTime | src/main/java/de/blinklan/tools/ootl/structure/TLTestResult.java:27-30 | sets the time and changes nothing else |
| TestResults.SetTestSuites | src/main/java/de/blinklan/tools/ootl/structure/TLTestResult.java:40-44 | the suites read back are exactly the list set; nothing else changes |
| TestResults.ExecutionTimeLastWins | src/main/java/de/blinklan/tools/ootl/structure/TLTestResult.java:20-30 | no time until one is set; afterwards the last time set |
| TestResults.DotFold | src/main/java/de/blinklan/tools/ootl/structure/TLTestResult.java:36-38 | the reduction yields null exactly for a null start and no suites, and the sole suite for one suite |
| TestResults.TestSuite | src/main/java/de/blinklan/tools/ootl/structure/TLTestResult.java:36-38 | null exactly for no suites, the sole suite for one |
| TestResults.DotFoldJoins | src/main/java/de/blinklan/tools/ootl/structure/TLTestResult.java:36-38 | continuing the reduction from a prefix appends the remaining suites joined with "." |
| TestResults.TestSuiteIsJoin | src/main/java/de/blinklan/tools/ootl/structure/TLTestResult.java:36-38 | a non-empty suite list reads as its elements joined with "." in order |
| TestResults.ExecutionTimeVia | src/main/java/eu/qedv/tools/ootl/structure/TLTestStep.java:100-105 | asking a step for its execution time defers up the parent chain to the root's time, and fails without a root |
| TestResults.ExecutionTimeAtAnyDepth | src/main/java/eu/qedv/tools/ootl/structure/TLTestStep.java:100-105 | a step at any depth below a result reports the result's execution time |
| Text.SplitPathJoin | src/main/java/de/blinklan/tools/ootl/TLTestProject.java:161-163 | names without separators, the last non-empty, joined with "/" split back into exactly those names |
| Text.SplitPathKeepsInnerEmpty | src/main/java/de/blinklan/tools/ootl/TLTestProject.java:161-163 | "a//b/" splits into ["a", "", "b"]: inner empty pieces stay, trailing ones go |
| Text.SplitPathLeadingAndBackslash | src/main/java/de/blinklan/tools/ootl/TLTestProject.java:161-163 | "/a" splits into ["", "a"], and a backslash separates like "/" |
| Text.SplitPathEmpty | src/main/java/de/blinklan/tools/ootl/TLTestProject.java:161-163 | the empty text splits into one empty name, not into no names |
| Common.RemoveFirst | src/main/java/de/blinklan/tools/ootl/TLTestSuite.java:203 | removing an element present shortens the list by one and removes exactly one copy; an absent element changes nothing |
| Catalogue.FindSuite | src/main/java/de/blinklan/tools/ootl/TLTestSuite.java:123-125 | the first listed suite with that name, or none exactly when no listed suite has it |
| Catalogue.FindCase | src/main/java/de/blinklan/tools/ootl/TLTestSuite.java:181-184 | the first listed case with that name, or none exactly when no listed case has it |
| TestCases.DiffersFrom | src/main/java/de/blinklan/tools/ootl/TLTestCase.java:47-55 | the positional scan finds a difference exactly when some position differs in action or expected result |
| TestCases.StepsChanged | src/main/java/de/blinklan/tools/ootl/TLTestCase.java:42-56 | changed exactly when the lengths differ or some stored step's action is not the child's label or its expected result is not empty |
| TestCases.WrittenStepsUnchanged | src/main/java/de/blinklan/tools/ootl/TLTestCase.java:42-56 | steps written from a run never count as changed against that run, whatever their version |
| TestCases.UpdateRequest | src/main/java/de/blinklan/tools/ootl/TLTestCase.java:101-107 | the new version keeps name, suite and project, carries the new summary and the connection's user as author, internal id -1 and "new version on a clash"; its steps, one per child of the run and each for version+1, read as unchanged against that run |
| TestCases.CreateNextVersion | src/main/java/de/blinklan/tools/ootl/TLTestCase.java:104-112 | one creation call; the created case replaces the old one, or the old one is kept when the call throws |
| TestCases.UpdateAsWritten | src/main/java/de/blinklan/tools/ootl/TLTestCase.java:88-113 | the code as written: an up-to-date case or an unsuccessful run is kept with no call; otherwise one creation call, whatever the update permission, returning the new version (or the old case when the creation throws); only the trace and the handle counter change |
| TestCases.UpdateIgnoresPermission | src/main/java/de/blinklan/tools/ootl/TLTestCase.java:93-95 | without update permission the as-written update still calls the service |
| TestCases.Update | src/main/java/de/blinklan/tools/ootl/TLTestCase.java:88-113 | corrected reading (see Findings): a call is made exactly when the case is out of date, updates are permitted and the run succeeded; it is then the creation of the next version, whose result replaces the case unless it throws |
| TestCases.UpdateSettles | src/main/java/de/blinklan/tools/ootl/TLTestCase.java:88-113 | once the service stores what was requested, updating again with the same summary and run does nothing |
| TestCases.AnnotationSurvivesTrim | src/main/java/de/blinklan/tools/ootl/TLTestCase.java:140-144 | trimming annotated notes keeps the whole version note and removes only leading blanks |
| TestCases.SubmittedNotes | src/main/java/de/blinklan/tools/ootl/TLTestCase.java:138-144 | when a different positive version is linked, the trimmed notes end with the version note; otherwise they are the trimmed notes |
| TestCases.Execute | src/main/java/de/blinklan/tools/ootl/TLTestCase.java:122-151 | no call and false without permission or for NOT_RUN; false after a failed link; otherwise link then submit, true exactly when the submission succeeds |
| TestCases.ExecuteSendsLinkThenSubmit | src/main/java/de/blinklan/tools/ootl/TLTestCase.java:135-146 | a successful execution sent exactly the link and the submission, and the submitted status reads back as the outcome |
| Builds.AddTestcaseToTestPlan | src/main/java/de/blinklan/tools/ootl/TLBuild.java:87-106 | 0 on success; the linked version for an already-linked refusal; -1 for any other failure; one call |
| Builds.ExecutionResult | src/main/java/de/blinklan/tools/ootl/TLExecution.java:44-46 | a not-executed handle throws (the null dereference) exactly when there is no execution; otherwise the local reading converts back to the recorded status |
| Builds.GetLastExecution | src/main/java/de/blinklan/tools/ootl/TLBuild.java:61-78 | no handle exactly when the query throws; an execution exactly when the latest one belongs to this build; otherwise a not-executed handle |
| Builds.LastExecutionReadsBack | src/main/java/de/blinklan/tools/ootl/TLBuild.java:61-72 | a result submitted in this build is read back as that result |
| TestSuites.GetTestSuites | src/main/java/de/blinklan/tools/ootl/TLTestSuite.java:106-114 | the first request lists the children with one call (new child suites in order, empty list on failure); later requests are served from the cache |
| TestSuites.ChildSuitesFetchedOnce | src/main/java/de/blinklan/tools/ootl/TLTestSuite.java:106-114 | two requests for the child suites cost at most one call |
| TestSuites.GetTestSuite | src/main/java/de/blinklan/tools/ootl/TLTestSuite.java:123-125 | the first child suite of that name, none exactly when no child has it; a failing listing propagates |
| TestSuites.CreateChildSuite | src/main/java/de/blinklan/tools/ootl/TLTestSuite.java:146-156 | one creation call; on success a new child with both lists fetched and empty is appended to the child list; a failure creates nothing |
| TestSuites.GetOrCreateTestSuite | src/main/java/de/blinklan/tools/ootl/TLTestSuite.java:134-157 | an existing child is returned; a missing one yields none without permission, and is created otherwise; any suite returned is a child of that name |
| TestSuites.FoundIsChild | src/main/java/de/blinklan/tools/ootl/TLTestSuite.java:123-125 | a child found by name is in the cached child list |
| TestSuites.GetTestCases | src/main/java/de/blinklan/tools/ootl/TLTestSuite.java:164-172 | the first request lists the cases with one call, later requests are served from the cache, a failure leaves an empty list |
| TestSuites.ChildCasesFetchedOnce | src/main/java/de/blinklan/tools/ootl/TLTestSuite.java:164-172 | two requests for the child cases cost at most one call |
| TestSuites.GetTestCase | src/main/java/de/blinklan/tools/ootl/TLTestSuite.java:181-184 | the first child case of that name, none exactly when no case has it |
| TestSuites.CreateTestCase | src/main/java/de/blinklan/tools/ootl/TLTestSuite.java:60-79 | a case is returned exactly when the creation succeeds with an id other than -1 and the list can be fetched; it is then appended to the case list; nothing is appended otherwise |
| TestSuites.CreateOrUpdateTestCase | src/main/java/de/blinklan/tools/ootl/TLTestSuite.java:197-214 | corrected reading (see Findings): an existing case is replaced by the update's result, the list keeping its length; a missing case yields none without permission and is created from the run's steps at version 1 otherwise |
| TestSuites.CreateOrUpdateTestCaseAsWritten | src/main/java/de/blinklan/tools/ootl/TLTestSuite.java:197-214 | the code as written: an existing case goes through the as-written update, so an out-of-date case after a successful run gets a new version even without update permission; the list keeps its length and the other cases are as in the corrected reading |
| TestSuites.CreateOrUpdateIgnoresPermission | src/main/java/de/blinklan/tools/ootl/TLTestCase.java:93-107 | without update permission, a changed summary after a successful run makes the as-written operation create a new version, while the corrected one makes no call beyond the lookup and returns the case found |
| TestSuites.CopyTestCaseAsWritten | src/main/java/de/blinklan/tools/ootl/TLTestSuite.java:226-236 | the code as written: an existing case is returned, otherwise the blueprint's summary and steps are created under the new name |
| TestSuites.CopyIgnoresPermission | src/main/java/de/blinklan/tools/ootl/TLTestSuite.java:226-236 | without case-creation permission the as-written copy still asks for a creation |
| TestSuites.CopyTestCase | src/main/java/de/blinklan/tools/ootl/TLTestSuite.java:216-236 | corrected reading (see Findings): an existing case is returned; a new name yields none with no call beyond the listing without permission, and a copy of the blueprint otherwise |
| TestProjects.GetFirstLevelTestSuites | src/main/java/de/blinklan/tools/ootl/TLTestProject.java:127-135 | listed with one call the first time and served from the cache afterwards |
| TestProjects.FetchFirstLevel | src/main/java/de/blinklan/tools/ootl/TLTestProject.java:128-133 | the first fetch adds one parentless suite per listed record, in order, or installs an empty list and propagates the failure |
| TestProjects.FirstLevelFetchedOnce | src/main/java/de/blinklan/tools/ootl/TLTestProject.java:127-135 | two requests for the first-level suites cost at most one call |
| TestProjects.GetFirstLevelTestSuite | src/main/java/de/blinklan/tools/ootl/TLTestProject.java:144-146 | the first first-level suite of that name, or none; its path is its name alone |
| TestProjects.WalkPath | src/main/java/de/blinklan/tools/ootl/TLTestProject.java:58-65 | an empty walk is the start; otherwise the first segment goes through one step (`getOrCreateTestSuite`, see `TestProjects.DescendIsGetOrCreate`), a none or a failure there is the walk's answer, and a child found continues the walk with the remaining segments; a suite reached has the start's path followed by the segments |
| TestProjects.WalkWithoutPermissionOnlyLists | src/main/java/de/blinklan/tools/ootl/TLTestProject.java:58-65 | without permission to create suites, a walk creates nothing: every call it makes is a child-suite listing, at most one per segment |
| TestProjects.Descend | src/main/java/de/blinklan/tools/ootl/TLTestProject.java:59-63 | one step of the walk yields a child whose path is the parent's path and the segment |
| TestProjects.DescendIsGetOrCreate | src/main/java/de/blinklan/tools/ootl/TLTestProject.java:59 | a step of the walk is find-or-create on the current suite |
| TestProjects.WalkListsNoFirstLevel | src/main/java/de/blinklan/tools/ootl/TLTestProject.java:58-65 | walking below the first level never lists the first-level suites |
| TestProjects.ResolveTestSuiteByPath | src/main/java/de/blinklan/tools/ootl/TLTestProject.java:45-66 | none for the empty path; the first segment is only looked up, never created; later segments are walked; a suite found has exactly the requested path |
| TestProjects.ResolveListing | src/main/java/de/blinklan/tools/ootl/TLTestProject.java:53-65 | resolving lists the first-level suites exactly when they were not fetched yet, and leaves them fetched |
| TestProjects.SingleSegmentNeverCreates | src/main/java/de/blinklan/tools/ootl/TLTestProject.java:53-57 | a one-segment path sends at most the first-level listing |
| TestProjects.GetTestSuiteByPath | src/main/java/de/blinklan/tools/ootl/TLTestProject.java:157-159 | a memoised path is answered with no call; otherwise the path is resolved and memoised only when a suite is found |
| TestProjects.ResolvedPathMemoised | src/main/java/de/blinklan/tools/ootl/TLTestProject.java:157-159 | a path that resolved is answered again with no call |
| TestProjects.FailedPathRetried | src/main/java/de/blinklan/tools/ootl/TLTestProject.java:157-159 | a path that did not resolve is resolved afresh next time |
| TestProjects.PathRequestListing | src/main/java/de/blinklan/tools/ootl/TLTestProject.java:127-135 | one path request lists the first-level suites at most once, never when they are fetched, and leaves them fetched |
| TestProjects.FirstLevelListedOnceAcrossPaths | src/test/java/de/blinklan/tools/ootl/TLTestProjectTest.java:65-92 | over two path requests the first-level suites are listed at most once |
| TestProjects.GetTestSuiteByPathText | src/main/java/de/blinklan/tools/ootl/TLTestProject.java:161-163 | a textual path is split on "/" and "\" and resolved; a suite found has the split path |
| TestProjects.PathTextRoundTrip | src/main/java/de/blinklan/tools/ootl/TLTestProject.java:161-163 | asking for names joined with "/" is asking for those names |
| TestProjects.FindBuild | src/main/java/de/blinklan/tools/ootl/TLTestProject.java:102 | a listed build of that name, or none exactly when no listed build has it |
| TestProjects.FetchBuild | src/main/java/de/blinklan/tools/ootl/TLTestProject.java:100-116 | following the service's answers: a throwing plan lookup or listing propagates its message; a listed build of that name is returned with its listed id after exactly those two calls; a missing build yields none without creation permission, and otherwise one creation call whose failure yields none and whose id makes the new build; only the trace changes |
| TestProjects.GetBuild | src/main/java/de/blinklan/tools/ootl/TLTestProject.java:92-120 | corrected reading (see Findings): a memoised build is returned with no call; otherwise the plan lookup and build listing propagate failures, a missing build is created only with permission, a failed or forbidden creation yields none, only builds returned are memoised, and each carries the requested name |
| TestProjects.Remember | src/main/java/de/blinklan/tools/ootl/TLTestProject.java:117-119 | memoising a build under its key keeps the state well formed |
| TestProjects.BuildMemoised | src/main/java/de/blinklan/tools/ootl/TLTestProject.java:93-95 | a build that was found or created is served again with no call |
| TestProjects.BuildKeyCollides | src/main/java/de/blinklan/tools/ootl/TLTestProject.java:93 | the colon-joined key is the same for plan "a:b" with build "c" and plan "a" with build "b:c" |
| TestProjects.GetBuildAsWritten | src/main/java/de/blinklan/tools/ootl/TLTestProject.java:92-120 | the code as written: a colon-joined key already memoised is answered with no call; otherwise the build is fetched and memoised under that key only when returned |
| TestProjects.BuildAsWrittenAnswersOtherRequest | src/main/java/de/blinklan/tools/ootl/TLTestProject.java:92-120 | as written, after plan "a:b" with build "c" is returned, the request for plan "a" and build "b:c" makes no call and gets the build named "c" |
| TestProjects.BuildKeyPairsDistinct | src/main/java/de/blinklan/tools/ootl/TLTestProject.java:93-95 | with the pair as key, a memoised build only answers a request for its own build name |
| TestLinks.LoadTestProject | src/main/java/de/blinklan/tools/ootl/TestLink.java:92-100 | one lookup; a failure yields none; a project found becomes a new handle with nothing fetched |
| TestLinks.GetTestProject | src/main/java/de/blinklan/tools/ootl/TestLink.java:105-107 | a memoised name is answered with no call; otherwise the project is loaded and memoised only when found |
| TestLinks.ProjectMemoised | src/main/java/de/blinklan/tools/ootl/TestLink.java:105-107 | asking for a loaded project again costs nothing and gives the same handle |
| TestLinks.FailedProjectRetried | src/main/java/de/blinklan/tools/ootl/TestLink.java:105-107 | a name whose lookup failed is looked up again |
| TestLinks.DistinctNamesDistinctHandles | src/test/java/de/blinklan/tools/ootl/TestLinkTest.java:33-45 | asking for one name, another, then the first again gives two handles, the first one twice, after exactly two lookups |

## Left out

- The TestLink constructors, which read `connection.properties`, parse the URL and build the network client. The connection's user name and permissions are parameters instead.
- The real `TestLinkAPI` client and its model classes. The service is an abstract oracle, and records keep only the fields the core reads.
- The regular-expression parsing of the "already linked" message. It is two abstract functions of the oracle: whether a message is that refusal, and which version it names.
- Builds.AddTestcaseToTestPlan: the version in an "already linked" message is assumed to parse. `Integer.parseInt` would throw on a malformed message, and that exception would escape the method.
- Logging, `dump`, `toString` and `getFormattedDuration`. They only format output.
- The getters and constructors of the handle classes. A handle is an index into the state.
- `java.time.Duration` and `java.util.Date` are natural numbers of milliseconds. The defensive copies of `Date` are not modelled.
- StepMerge.Absorb: counts and durations are unbounded. Java's `int` count would wrap after 2^31-1 merged repetitions.
- TestCases.UpdateRequest: version + 1 is unbounded. It would wrap in Java only at version 2^31-1.
- The library echoes requested names. A created suite or build, and a build found by name, are assumed to carry the requested name. The model keeps only the id the service returns.
- `findAny` on a sequential stream is modelled as the first match.
- The branch in `createOrUpdateTestCase` that fetches the case list when it is still `null` is not modelled. It cannot be reached, because `getTestCase` has just fetched that list.
- The exception classes and the duplicate `eu.qedv` revisions of `TestLinkConfig`, `TLExecution` and the exceptions are not modelled. So are the tests written against the later `Optional`-returning API.
- The exact "1 first-level listing and 5 child listings" count of the path-caching test. It depends on fixture data that is not part of this model. The per-node properties cover it: `TestProjects.FirstLevelListedOnceAcrossPaths`, `TestSuites.ChildSuitesFetchedOnce` and `TestProjects.ResolvedPathMemoised`.
- Concurrency: the library has none.
- Step trees are values, so shared step objects are not modelled. Java's `addStep` (TLTestStep.java:40-43) can add the same object twice, and then `mergeSteps` may let a step absorb itself and double its own count. The constructor's registration with its parent, and later mutations becoming visible through the parent, are not modelled either. `StepMerge.Collapse` and `StepMerge.CollapseKeepsTotals` hold for trees without sharing.
- TestResults.ExecutionTimeAtAnyDepth: the parent chain is built directly from the depth, because value trees have no parent links. The lemma covers the upward deferral, not how a Java step finds its parent.

## Findings

| source | as written | input that shows it | evidently intended | confidence | as-written member | corrected member |
|---|---|---|---|---|---|---|
| src/main/java/de/blinklan/tools/ootl/TLTestCase.java:93-95 | when updates are not permitted, `update` only logs "Not updating test case" and goes on to create the next version | a case whose summary changed, a successful run, and `updateTestCase == false` | return the unchanged case when updates are not permitted, as the log line says | likely; not executed | TestCases.UpdateAsWritten | TestCases.Update |
| src/main/java/de/blinklan/tools/ootl/TLTestProject.java:93 | builds are memoised under `plan + ":" + build` | plan "a:b" with build "c", then plan "a" with build "b:c": the second request gets the first build | memoise by the (plan, build) pair | certain for names containing ':'; not executed | TestProjects.GetBuildAsWritten | TestProjects.GetBuild |
| src/main/java/de/blinklan/tools/ootl/TLTestSuite.java:226-236 | `copyTestCase` creates the copy without consulting the case-creation permission | a new name with `createTestCase == false` | return null when creation is not permitted, as its documentation says | likely; not executed | TestSuites.CopyTestCaseAsWritten | TestSuites.CopyTestCase |
