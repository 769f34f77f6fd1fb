/** The handles' shared memory. Suite and project handles are mutable objects with
    caches in the library; here they are nodes of a state that every operation takes
    and returns, a handle being the node's index. Case and build handles never change
    once made, so they are plain values. The state also records every remote call in
    order (the call trace), which is what the caching statements are about. */
module Catalogue {
  import opened Common
  import opened Remote

  /** Index of a suite node in `State.suites`. */
  type SuiteRef = nat
  /** Index of a project node in `State.projectNodes`. */
  type ProjectRef = nat

  /** A lazily fetched child list: not fetched yet, or fetched (and extended in place
      by later creations). */
  datatype Cache<T> = Unloaded | Loaded(items: seq<T>)

  /** A case handle: an allocation number standing for object identity, the ids of the
      owning project and suite, and the remote case it wraps. */
  datatype CaseHandle = CaseHandle(ref: nat, projectId: int, suiteId: int, testcase: TestCase)

  /** A build handle: the owning project's id, the plan and the build. */
  datatype BuildHandle = BuildHandle(projectId: int, planId: int, planName: string, buildId: int, buildName: string)

  /** A suite handle: remote id and name, the owning project's id, the parent suite
      (none for a first-level suite) and the two child caches. */
  datatype SuiteNode = SuiteNode(
    id: int,
    name: string,
    projectId: int,
    parent: Option<SuiteRef>,
    childSuites: Cache<SuiteRef>,
    childCases: Cache<CaseHandle>)

  /** A project handle: remote id and name, the first-level suite cache, the memo of
      resolved suite paths and the memo of builds by (plan name, build name). */
  datatype ProjectNode = ProjectNode(
    id: int,
    name: string,
    firstLevel: Cache<SuiteRef>,
    paths: map<seq<string>, SuiteRef>,
    builds: map<(string, string), BuildHandle>)

  /** The connection's memory: the project memo by requested name, all project and
      suite nodes, the next case allocation number and the remote calls made so far. */
  datatype State = State(
    projects: map<string, ProjectRef>,
    projectNodes: seq<ProjectNode>,
    suites: seq<SuiteNode>,
    nextCase: nat,
    trace: seq<Call>)

  /** Result of an operation whose remote exceptions propagate to the caller. */
  datatype Reply<T> = Reply(st: State, out: Outcome<T>)

  /** Result of an operation that catches every remote exception itself. */
  datatype Answer<T> = Answer(st: State, value: T)

  const Empty := State(map[], [], [], 0, [])

  /** The oracle's clock: the number of remote calls made so far. */
  function Now(st: State): nat {
    |st.trace|
  }

  /** Records one more remote call. */
  function Record(st: State, call: Call): (st': State)
    ensures st'.trace == st.trace + [call]
    ensures st' == st.(trace := st'.trace)
  {
    st.(trace := st.trace + [call])
  }

  /** Recording a call keeps the state well formed and only grows it. */
  lemma RecordKeepsValid(st: State, call: Call)
    requires Valid(st)
    ensures Valid(Record(st, call)) && Extends(st, Record(st, call))
  {
  }

  /** Recording a call counts one more first-level listing exactly when it is one. */
  lemma RecordListings(st: State, call: Call)
    ensures FirstLevelListings(Record(st, call).trace) == FirstLevelListings(st.trace) + (if call.ListFirstLevelSuites? then 1 else 0)
  {
    assert (st.trace + [call])[..|st.trace|] == st.trace;
  }

  /** The number of first-level listings in a trace. */
  function FirstLevelListings(trace: seq<Call>): nat {
    if trace == [] then 0
    else FirstLevelListings(trace[..|trace| - 1]) + (if trace[|trace| - 1].ListFirstLevelSuites? then 1 else 0)
  }

  // ---------------------------------------------------------------------------
  // Well-formedness

  /** Every parent was allocated before its child, so walking up parents ends. */
  predicate ParentsFirst(suites: seq<SuiteNode>) {
    forall i :: 0 <= i < |suites| && suites[i].parent.Some? ==> suites[i].parent.value < i
  }

  /** Names from the first-level ancestor of `r` down to `r` itself. */
  function PathOf(suites: seq<SuiteNode>, r: SuiteRef): (path: seq<string>)
    requires ParentsFirst(suites) && r < |suites|
    ensures path != [] && path[|path| - 1] == suites[r].name
    decreases r
  {
    match suites[r].parent
    case None => [suites[r].name]
    case Some(p) => PathOf(suites, p) + [suites[r].name]
  }

  predicate RefsBelow(refs: seq<SuiteRef>, n: nat) {
    forall k :: 0 <= k < |refs| ==> refs[k] < n
  }

  /** Suite `i` is well formed: its fetched children exist and name it as parent. */
  predicate SuiteOk(suites: seq<SuiteNode>, i: nat)
    requires i < |suites|
  {
    var n := suites[i];
    n.childSuites.Loaded? ==>
      RefsBelow(n.childSuites.items, |suites|) &&
      forall k :: 0 <= k < |n.childSuites.items| ==> suites[n.childSuites.items[k]].parent == Some(i)
  }

  /** A project node is well formed: its first-level suites exist and have no parent,
      every memoised path leads to a suite whose ancestry spells that path, and every
      memoised build belongs to this project and carries the build name of its key. */
  predicate ProjectOk(suites: seq<SuiteNode>, p: ProjectNode)
    requires ParentsFirst(suites)
  {
    (p.firstLevel.Loaded? ==>
      RefsBelow(p.firstLevel.items, |suites|) &&
      forall k :: 0 <= k < |p.firstLevel.items| ==> suites[p.firstLevel.items[k]].parent.None?) &&
    (forall path :: path in p.paths ==> p.paths[path] < |suites| && PathOf(suites, p.paths[path]) == path) &&
    (forall key :: key in p.builds ==> p.builds[key].buildName == key.1 && p.builds[key].projectId == p.id)
  }

  predicate Valid(st: State) {
    ParentsFirst(st.suites) &&
    (forall i :: 0 <= i < |st.suites| ==> SuiteOk(st.suites, i)) &&
    (forall name :: name in st.projects ==> st.projects[name] < |st.projectNodes|) &&
    (forall j :: 0 <= j < |st.projectNodes| ==> ProjectOk(st.suites, st.projectNodes[j]))
  }

  // ---------------------------------------------------------------------------
  // Growth

  /** `b` is `a` after more work: calls were appended, nodes were added but never
      removed or renamed, fetched caches stay fetched, and memo entries stay. */
  predicate Extends(a: State, b: State) {
    a.trace <= b.trace &&
    |a.suites| <= |b.suites| &&
    |a.projectNodes| <= |b.projectNodes| &&
    a.nextCase <= b.nextCase &&
    Grows(a.suites, b.suites) &&
    (forall j :: 0 <= j < |a.projectNodes| ==> SameProject(a.projectNodes[j], b.projectNodes[j])) &&
    (forall name :: name in a.projects ==> name in b.projects && b.projects[name] == a.projects[name])
  }

  /** Every node of `a` is still in `b`, with the same identity and no cache unfetched. */
  predicate Grows(a: seq<SuiteNode>, b: seq<SuiteNode>) {
    |a| <= |b| && forall i :: 0 <= i < |a| ==> SameSuite(a[i], b[i])
  }

  predicate SameSuite(x: SuiteNode, y: SuiteNode) {
    x.id == y.id && x.name == y.name && x.projectId == y.projectId && x.parent == y.parent &&
    (x.childSuites.Loaded? ==> y.childSuites.Loaded?) &&
    (x.childCases.Loaded? ==> y.childCases.Loaded?)
  }

  predicate SameProject(x: ProjectNode, y: ProjectNode) {
    x.id == y.id && x.name == y.name &&
    (x.firstLevel.Loaded? ==> y.firstLevel.Loaded?) &&
    (forall path :: path in x.paths ==> path in y.paths && y.paths[path] == x.paths[path]) &&
    (forall key :: key in x.builds ==> key in y.builds && y.builds[key] == x.builds[key])
  }

  lemma ExtendsTransitive(a: State, b: State, c: State)
    requires Extends(a, b) && Extends(b, c)
    ensures Extends(a, c)
  {
  }

  /** The path of an existing suite never changes as the suites grow. */
  lemma {:induction false} PathOfStable(a: seq<SuiteNode>, b: seq<SuiteNode>, r: SuiteRef)
    requires Grows(a, b) && ParentsFirst(a) && ParentsFirst(b) && r < |a|
    ensures PathOf(b, r) == PathOf(a, r)
    decreases r
  {
    assert SameSuite(a[r], b[r]);
    if a[r].parent.Some? {
      PathOfStable(a, b, a[r].parent.value);
    }
  }

  /** Changing only the case lists of suites keeps the state well formed. */
  lemma CasesChangeKeepsValid(st: State, st': State)
    requires Valid(st)
    requires st'.projects == st.projects && st'.projectNodes == st.projectNodes
    requires |st'.suites| == |st.suites|
    requires forall i :: 0 <= i < |st.suites| ==> st'.suites[i] == st.suites[i].(childCases := st'.suites[i].childCases)
    ensures Valid(st')
  {
    assert forall i :: 0 <= i < |st.suites| ==> SameSuite(st.suites[i], st.suites[i].(childCases := Loaded([])));
    forall i | 0 <= i < |st'.suites|
      ensures SuiteOk(st'.suites, i)
    {
      assert SuiteOk(st.suites, i);
    }
    forall j | 0 <= j < |st'.projectNodes|
      ensures ProjectOk(st'.suites, st'.projectNodes[j])
    {
      var p := st.projectNodes[j];
      assert ProjectOk(st.suites, p);
      forall path | path in p.paths
        ensures PathOf(st'.suites, p.paths[path]) == path
      {
        PathOfEqual(st.suites, st'.suites, p.paths[path]);
      }
    }
  }

  /** Paths only depend on names and parents. */
  lemma {:induction false} PathOfEqual(a: seq<SuiteNode>, b: seq<SuiteNode>, r: SuiteRef)
    requires |a| == |b| && ParentsFirst(a) && r < |a|
    requires forall i :: 0 <= i < |a| ==> b[i].name == a[i].name && b[i].parent == a[i].parent
    ensures ParentsFirst(b) && PathOf(b, r) == PathOf(a, r)
    decreases r
  {
    if a[r].parent.Some? {
      PathOfEqual(a, b, a[r].parent.value);
    }
  }

  // ---------------------------------------------------------------------------
  // Allocation and in-place updates

  /** Fresh suite nodes for listed records, all caches unfetched. */
  function ListedNodes(recs: seq<SuiteRec>, projectId: int, parent: Option<SuiteRef>): (ns: seq<SuiteNode>)
    ensures |ns| == |recs|
    ensures forall k :: 0 <= k < |ns| ==>
      ns[k] == SuiteNode(recs[k].id, recs[k].name, projectId, parent, Unloaded, Unloaded)
  {
    seq(|recs|, k requires 0 <= k < |recs| => SuiteNode(recs[k].id, recs[k].name, projectId, parent, Unloaded, Unloaded))
  }

  /** The indices `from`, `from + 1`, ..., `from + n - 1`. */
  function Span(from: nat, n: nat): (refs: seq<SuiteRef>)
    ensures |refs| == n && forall k :: 0 <= k < n ==> refs[k] == from + k
  {
    seq(n, k requires 0 <= k < n => from + k)
  }

  /** Fresh case handles for listed cases, numbered from `st.nextCase` on. */
  function ListedCases(first: nat, cases: seq<TestCase>, projectId: int, suiteId: int): (hs: seq<CaseHandle>)
    ensures |hs| == |cases|
    ensures forall k :: 0 <= k < |hs| ==> hs[k] == CaseHandle(first + k, projectId, suiteId, cases[k])
  {
    seq(|cases|, k requires 0 <= k < |cases| => CaseHandle(first + k, projectId, suiteId, cases[k]))
  }

  function SetChildSuites(st: State, s: SuiteRef, refs: seq<SuiteRef>): (st': State)
    requires s < |st.suites|
    ensures |st'.suites| == |st.suites| && st'.suites[s] == st.suites[s].(childSuites := Loaded(refs))
    ensures forall i :: 0 <= i < |st.suites| && i != s ==> st'.suites[i] == st.suites[i]
    ensures st' == st.(suites := st'.suites)
  {
    st.(suites := st.suites[s := st.suites[s].(childSuites := Loaded(refs))])
  }

  function SetChildCases(st: State, s: SuiteRef, cases: seq<CaseHandle>): (st': State)
    requires s < |st.suites|
    ensures |st'.suites| == |st.suites| && st'.suites[s] == st.suites[s].(childCases := Loaded(cases))
    ensures forall i :: 0 <= i < |st.suites| && i != s ==> st'.suites[i] == st.suites[i]
    ensures st' == st.(suites := st'.suites)
  {
    st.(suites := st.suites[s := st.suites[s].(childCases := Loaded(cases))])
  }

  function SetProject(st: State, j: ProjectRef, p: ProjectNode): (st': State)
    requires j < |st.projectNodes|
    ensures |st'.projectNodes| == |st.projectNodes| && st'.projectNodes[j] == p
    ensures forall i :: 0 <= i < |st.projectNodes| && i != j ==> st'.projectNodes[i] == st.projectNodes[i]
    ensures st' == st.(projectNodes := st'.projectNodes)
  {
    st.(projectNodes := st.projectNodes[j := p])
  }

  /** The fetched items of a cache, or none. */
  function Items<T>(c: Cache<T>): seq<T> {
    match c
    case Unloaded => []
    case Loaded(items) => items
  }

  /** A node as it enters the state: its child-suite list unfetched, or fetched and
      empty (a suite just created). */
  predicate Newborn(n: SuiteNode) {
    n.childSuites.Unloaded? || n.childSuites == Loaded([])
  }

  /** Appends `nodes` to the suites and to the (now fetched) child list of `s`. */
  function Adopt(st: State, s: SuiteRef, nodes: seq<SuiteNode>): (st': State)
    requires s < |st.suites|
    ensures |st'.suites| == |st.suites| + |nodes|
    ensures st'.suites[s] == st.suites[s].(childSuites := Loaded(Items(st.suites[s].childSuites) + Span(|st.suites|, |nodes|)))
    ensures forall i :: 0 <= i < |st.suites| && i != s ==> st'.suites[i] == st.suites[i]
    ensures forall k :: 0 <= k < |nodes| ==> st'.suites[|st.suites| + k] == nodes[k]
    ensures st' == st.(suites := st'.suites)
  {
    var grown := st.(suites := st.suites + nodes);
    SetChildSuites(grown, s, Items(st.suites[s].childSuites) + Span(|st.suites|, |nodes|))
  }

  /** After adopting, the suites are the old ones, `s` updated, followed by `nodes`. */
  lemma AdoptAppends(st: State, s: SuiteRef, nodes: seq<SuiteNode>)
    requires s < |st.suites|
    ensures Adopt(st, s, nodes).suites == st.suites[s := Adopt(st, s, nodes).suites[s]] + nodes
  {
    var x := Adopt(st, s, nodes).suites[s];
    assert (st.suites + nodes)[s := x] == st.suites[s := x] + nodes;
  }

  /** Adopting the listed children of a suite whose list was unfetched: the list
      becomes exactly the new nodes, which follow the old ones in listing order. */
  lemma AdoptListed(st: State, s: SuiteRef, recs: seq<SuiteRec>, projectId: int)
    requires s < |st.suites| && st.suites[s].childSuites.Unloaded?
    ensures var st' := Adopt(st, s, ListedNodes(recs, projectId, Some(s)));
      st'.suites[s].childSuites == Loaded(Span(|st.suites|, |recs|)) &&
      st'.suites == st.suites[s := st'.suites[s]] + ListedNodes(recs, projectId, Some(s))
  {
    AdoptAppends(st, s, ListedNodes(recs, projectId, Some(s)));
    assert Items(st.suites[s].childSuites) == [];
    assert [] + Span(|st.suites|, |recs|) == Span(|st.suites|, |recs|);
  }

  /** Adopting new children of `s` keeps the state well formed and only grows it. */
  lemma AdoptKeepsValid(st: State, s: SuiteRef, nodes: seq<SuiteNode>)
    requires Valid(st) && s < |st.suites|
    requires forall k :: 0 <= k < |nodes| ==> nodes[k].parent == Some(s) && Newborn(nodes[k])
    ensures Valid(Adopt(st, s, nodes)) && Extends(st, Adopt(st, s, nodes))
  {
    var st' := Adopt(st, s, nodes);
    AdoptGrows(st, s, nodes);
    forall i | 0 <= i < |st'.suites|
      ensures SuiteOk(st'.suites, i)
    {
      AdoptSuiteOk(st, s, nodes, i);
    }
    forall j | 0 <= j < |st'.projectNodes|
      ensures ProjectOk(st'.suites, st'.projectNodes[j])
    {
      ProjectOkGrows(st.suites, st'.suites, st.projectNodes[j]);
    }
  }

  /** Adopted children come after their parent, and the old nodes stay as they were. */
  lemma AdoptGrows(st: State, s: SuiteRef, nodes: seq<SuiteNode>)
    requires ParentsFirst(st.suites) && s < |st.suites|
    requires forall k :: 0 <= k < |nodes| ==> nodes[k].parent == Some(s)
    ensures ParentsFirst(Adopt(st, s, nodes).suites) && Grows(st.suites, Adopt(st, s, nodes).suites)
  {
    var st' := Adopt(st, s, nodes);
    var n := |st.suites|;
    forall i | 0 <= i < |st'.suites| && st'.suites[i].parent.Some?
      ensures st'.suites[i].parent.value < i
    {
      if i >= n {
        assert st'.suites[i] == nodes[i - n];
      } else {
        assert SameSuite(st.suites[i], st'.suites[i]) by {
          AdoptKeepsOld(st, s, nodes, i);
        }
      }
    }
    forall i | 0 <= i < n
      ensures SameSuite(st.suites[i], st'.suites[i])
    {
      AdoptKeepsOld(st, s, nodes, i);
    }
  }

  /** An old node keeps its identity, and its caches stay fetched, when children are
      adopted. */
  lemma AdoptKeepsOld(st: State, s: SuiteRef, nodes: seq<SuiteNode>, i: nat)
    requires s < |st.suites| && i < |st.suites|
    ensures SameSuite(st.suites[i], Adopt(st, s, nodes).suites[i])
  {
  }

  /** After adopting, suite `i` is well formed. */
  lemma AdoptSuiteOk(st: State, s: SuiteRef, nodes: seq<SuiteNode>, i: nat)
    requires Valid(st) && s < |st.suites|
    requires forall k :: 0 <= k < |nodes| ==> nodes[k].parent == Some(s) && Newborn(nodes[k])
    requires Grows(st.suites, Adopt(st, s, nodes).suites)
    requires i < |Adopt(st, s, nodes).suites|
    ensures SuiteOk(Adopt(st, s, nodes).suites, i)
  {
    var st' := Adopt(st, s, nodes);
    var n := |st.suites|;
    if i >= n {
      assert st'.suites[i] == nodes[i - n];
    } else if i != s {
      assert SuiteOk(st.suites, i);
      var c := st.suites[i].childSuites;
      if c.Loaded? {
        forall k | 0 <= k < |c.items|
          ensures st'.suites[c.items[k]].parent == Some(i)
        {
          assert SameSuite(st.suites[c.items[k]], st'.suites[c.items[k]]);
        }
      }
    } else {
      assert SuiteOk(st.suites, s);
      var before := Items(st.suites[s].childSuites);
      var items := before + Span(n, |nodes|);
      forall k | 0 <= k < |items|
        ensures items[k] < |st'.suites| && st'.suites[items[k]].parent == Some(s)
      {
        if k < |before| {
          assert items[k] == before[k];
          assert SameSuite(st.suites[before[k]], st'.suites[before[k]]);
        } else {
          assert items[k] == n + (k - |before|);
          assert st'.suites[items[k]] == nodes[k - |before|];
        }
      }
    }
  }

  /** A project node stays well formed while the suites only grow. */
  lemma ProjectOkGrows(a: seq<SuiteNode>, b: seq<SuiteNode>, p: ProjectNode)
    requires ParentsFirst(a) && ParentsFirst(b) && Grows(a, b) && ProjectOk(a, p)
    ensures ProjectOk(b, p)
  {
    if p.firstLevel.Loaded? {
      forall k | 0 <= k < |p.firstLevel.items|
        ensures b[p.firstLevel.items[k]].parent.None?
      {
        assert SameSuite(a[p.firstLevel.items[k]], b[p.firstLevel.items[k]]);
      }
    }
    forall path | path in p.paths
      ensures PathOf(b, p.paths[path]) == path
    {
      PathOfStable(a, b, p.paths[path]);
    }
  }

  /** Appends `nodes` to the suites and to the (now fetched) first-level list of
      project `j`. */
  function AdoptFirstLevel(st: State, j: ProjectRef, nodes: seq<SuiteNode>): (st': State)
    requires j < |st.projectNodes|
    ensures |st'.suites| == |st.suites| + |nodes| && st'.suites == st.suites + nodes
    ensures |st'.projectNodes| == |st.projectNodes| && st'.projectNodes == st.projectNodes[j := st'.projectNodes[j]]
    ensures st'.projectNodes[j] == st.projectNodes[j].(firstLevel := Loaded(Items(st.projectNodes[j].firstLevel) + Span(|st.suites|, |nodes|)))
    ensures st' == st.(suites := st'.suites, projectNodes := st'.projectNodes)
  {
    var p := st.projectNodes[j];
    st.(suites := st.suites + nodes,
        projectNodes := st.projectNodes[j := p.(firstLevel := Loaded(Items(p.firstLevel) + Span(|st.suites|, |nodes|)))])
  }

  /** Appending parentless nodes keeps the suites well formed. */
  lemma AppendRootsKeepsSuitesOk(suites: seq<SuiteNode>, nodes: seq<SuiteNode>)
    requires ParentsFirst(suites) && forall i :: 0 <= i < |suites| ==> SuiteOk(suites, i)
    requires forall k :: 0 <= k < |nodes| ==> nodes[k].parent.None? && Newborn(nodes[k])
    ensures ParentsFirst(suites + nodes) && Grows(suites, suites + nodes)
    ensures forall i :: 0 <= i < |suites + nodes| ==> SuiteOk(suites + nodes, i)
  {
    var all := suites + nodes;
    var n := |suites|;
    forall i | 0 <= i < |all|
      ensures SuiteOk(all, i) && (all[i].parent.Some? ==> all[i].parent.value < i)
    {
      if i >= n {
        assert all[i] == nodes[i - n];
      } else {
        assert all[i] == suites[i];
        assert SuiteOk(suites, i);
      }
    }
  }

  /** Adopting new first-level suites keeps the state well formed and only grows it. */
  lemma AdoptFirstLevelKeepsValid(st: State, j: ProjectRef, nodes: seq<SuiteNode>)
    requires Valid(st) && j < |st.projectNodes|
    requires forall k :: 0 <= k < |nodes| ==> nodes[k].parent.None? && Newborn(nodes[k])
    ensures Valid(AdoptFirstLevel(st, j, nodes)) && Extends(st, AdoptFirstLevel(st, j, nodes))
  {
    var st' := AdoptFirstLevel(st, j, nodes);
    AppendRootsKeepsSuitesOk(st.suites, nodes);
    forall q | 0 <= q < |st'.projectNodes|
      ensures ProjectOk(st'.suites, st'.projectNodes[q])
    {
      ProjectOkGrows(st.suites, st'.suites, st.projectNodes[q]);
      if q == j {
        FirstLevelAppendOk(st.suites, nodes, st.projectNodes[j]);
      }
    }
  }

  /** The first-level list extended by appended parentless nodes is well formed. */
  lemma FirstLevelAppendOk(suites: seq<SuiteNode>, nodes: seq<SuiteNode>, p: ProjectNode)
    requires ParentsFirst(suites) && ParentsFirst(suites + nodes) && Grows(suites, suites + nodes)
    requires ProjectOk(suites + nodes, p)
    requires forall k :: 0 <= k < |nodes| ==> nodes[k].parent.None?
    ensures ProjectOk(suites + nodes, p.(firstLevel := Loaded(Items(p.firstLevel) + Span(|suites|, |nodes|))))
  {
    var all := suites + nodes;
    var n := |suites|;
    var before := Items(p.firstLevel);
    var items := before + Span(n, |nodes|);
    forall k | 0 <= k < |items|
      ensures items[k] < |all| && all[items[k]].parent.None?
    {
      if k < |before| {
        assert items[k] == before[k];
      } else {
        assert items[k] == n + (k - |before|);
        assert all[items[k]] == nodes[k - |before|];
      }
    }
  }

  /** Memoising a suite under its own path keeps the state well formed. */
  lemma RememberPathKeepsValid(st: State, j: ProjectRef, path: seq<string>, r: SuiteRef)
    requires Valid(st) && j < |st.projectNodes| && r < |st.suites| && PathOf(st.suites, r) == path
    requires path !in st.projectNodes[j].paths
    ensures var p := st.projectNodes[j];
      var st' := SetProject(st, j, p.(paths := p.paths[path := r]));
      Valid(st') && Extends(st, st')
  {
    var p := st.projectNodes[j];
    var p' := p.(paths := p.paths[path := r]);
    assert ProjectOk(st.suites, p);
    forall path' | path' in p'.paths
      ensures p'.paths[path'] < |st.suites| && PathOf(st.suites, p'.paths[path']) == path'
    {
      if path' != path {
        assert p'.paths[path'] == p.paths[path'];
      }
    }
    SetProjectKeepsValid(st, j, p');
    assert SameProject(p, p');
  }

  /** Replacing one well-formed project node keeps the state well formed. */
  lemma SetProjectKeepsValid(st: State, j: ProjectRef, p: ProjectNode)
    requires Valid(st) && j < |st.projectNodes| && ProjectOk(st.suites, p)
    ensures Valid(SetProject(st, j, p))
  {
    var st' := SetProject(st, j, p);
    forall q | 0 <= q < |st'.projectNodes|
      ensures ProjectOk(st'.suites, st'.projectNodes[q])
    {
      if q != j {
        assert st'.projectNodes[q] == st.projectNodes[q];
      }
    }
  }

  // ---------------------------------------------------------------------------
  // Lookup by name

  /** `refs[k]` is the first suite in `refs` named `name`. */
  predicate FirstSuiteNamed(suites: seq<SuiteNode>, refs: seq<SuiteRef>, name: string, k: int)
    requires RefsBelow(refs, |suites|)
  {
    0 <= k < |refs| && suites[refs[k]].name == name &&
    forall j :: 0 <= j < k ==> suites[refs[j]].name != name
  }

  /** `cases[k]` is the first case in `cases` named `name`. */
  predicate FirstCaseNamed(cases: seq<CaseHandle>, name: string, k: int) {
    0 <= k < |cases| && cases[k].testcase.name == name &&
    forall j :: 0 <= j < k ==> cases[j].testcase.name != name
  }

  /** Position of the first suite in `refs` named `name` (the `findAny` of `TLTestSuite.getTestSuite`
      over a sequential stream finds this one). */
  function FindSuite(suites: seq<SuiteNode>, refs: seq<SuiteRef>, name: string): (r: Option<SuiteRef>)
    requires RefsBelow(refs, |suites|)
    ensures r.Some? ==> exists k :: FirstSuiteNamed(suites, refs, name, k) && refs[k] == r.value
    ensures r.None? <==> forall k :: 0 <= k < |refs| ==> suites[refs[k]].name != name
  {
    match FirstMatch(refs, (x: SuiteRef) => x < |suites| && suites[x].name == name)
    case None => None
    case Some(k) => Some(refs[k])
  }

  /** The first case in `cases` named `name`. */
  function FindCase(cases: seq<CaseHandle>, name: string): (r: Option<CaseHandle>)
    ensures r.Some? ==> exists k :: FirstCaseNamed(cases, name, k) && cases[k] == r.value
    ensures r.None? <==> forall k :: 0 <= k < |cases| ==> cases[k].testcase.name != name
  {
    match FirstMatch(cases, (h: CaseHandle) => h.testcase.name == name)
    case None => None
    case Some(k) => Some(cases[k])
  }
}
