/** The plan engine: validation of a task DAG and its deterministic order.

    A plan keeps its nodes in a dictionary; `keys` is that dictionary's
    insertion order, `deps` and `summaries` its content.  Only the id, the
    summary and the dependencies of a node take part in what is modelled here.
*/
module PlanEngine {
  import opened Ordering
  import opened PlanGraph

  datatype TaskNode = TaskNode(id: Id, summary: string, dependencies: set<Id>)

  datatype Plan = Plan(keys: seq<Id>, deps: Deps, summaries: map<Id, string>) {
    ghost predicate WellFormed() {
      Distinct(keys) && (forall n :: n in keys <==> n in deps) && summaries.Keys == deps.Keys
    }
  }

  datatype PlanError =
    | GoalNotActive
    | EmptyPlan
    | DuplicateTask(id: Id)
    | UnknownDependency(task: Id, dependency: Id)
    | DependencyCycle(cycle: seq<Id>)
    | OrphanTasks(ids: seq<Id>)

  /** What `validate` accepts. */
  ghost predicate ValidGraph(g: Deps) {
    g.Keys != {} && Closed(g) && Acyclic(g)
  }

  // ------------------------------------------------------- three-colour search

  datatype Color = White | Gray | Black

  type Coloring = map<Id, Color>

  /** The gray tasks are the current path. */
  ghost predicate OnPath(g: Deps, color: Coloring, path: seq<Id>) {
    && color.Keys == g.Keys
    && (path == [] || IsWalk(g, path))
    && Distinct(path)
    && (forall n :: n in path ==> n in g && color[n] == Gray)
    && (forall n :: n in g && color[n] == Gray ==> n in path)
  }

  /** The black tasks are a listing, in finishing order. */
  ghost predicate Blackened(g: Deps, color: Coloring, finished: seq<Id>) {
    && color.Keys == g.Keys
    && Listing(g, finished)
    && (forall n :: n in finished ==> n in g && color[n] == Black)
    && (forall n :: n in g && color[n] == Black ==> n in finished)
  }

  ghost predicate Searching(g: Deps, color: Coloring, path: seq<Id>, finished: seq<Id>) {
    Closed(g) && OnPath(g, color, path) && Blackened(g, color, finished)
  }

  ghost function Whites(color: Coloring): set<Id> {
    set n | n in color && color[n] == White
  }

  /** No task that was already gray or black has changed. */
  ghost predicate Keeps(before: Coloring, after: Coloring) {
    && before.Keys == after.Keys
    && forall n :: n in before && before[n] != White ==> after[n] == before[n]
  }

  lemma EnterStep(g: Deps, color: Coloring, path: seq<Id>, finished: seq<Id>, nid: Id)
    requires Searching(g, color, path, finished) && nid in g && color[nid] == White
    requires path != [] ==> nid in g[path[|path| - 1]]
    ensures Searching(g, color[nid := Gray], path + [nid], finished)
    ensures Whites(color[nid := Gray]) < Whites(color)
    ensures Keeps(color, color[nid := Gray])
  {
    assert nid in Whites(color);
    assert nid !in path && nid !in finished;
    assert IsWalk(g, path + [nid]);
  }

  lemma PathShrinks(g: Deps, color: Coloring, path: seq<Id>, nid: Id)
    requires OnPath(g, color, path + [nid])
    ensures color[nid] == Gray && OnPath(g, color[nid := Black], path)
  {
    var long := path + [nid];
    assert long[|path|] == nid && nid in long;
    assert forall i :: 0 <= i < |path| ==> path[i] == long[i] && long[i] != long[|path|];
    assert path == [] || IsWalk(g, path) by {
      forall i | 0 <= i < |path| - 1
        ensures path[i + 1] in g[path[i]]
      {
        assert long[i + 1] in g[long[i]];
      }
    }
    assert forall n :: n in path ==> n in long;
    assert forall n :: n in long ==> n == nid || n in path;
  }

  lemma FinishedGrows(g: Deps, color: Coloring, finished: seq<Id>, nid: Id)
    requires Blackened(g, color, finished) && nid in g && color[nid] == Gray
    requires forall d :: d in g[nid] ==> d in g && color[d] == Black
    ensures Blackened(g, color[nid := Black], finished + [nid])
  {
    assert nid !in finished;
    assert Ready(g, finished, nid);
    ListingExtends(g, finished, nid);
  }

  lemma LeaveStep(g: Deps, color: Coloring, path: seq<Id>, finished: seq<Id>, nid: Id)
    requires Searching(g, color, path + [nid], finished)
    requires nid in g && forall d :: d in g[nid] ==> d in g && color[d] == Black
    ensures Searching(g, color[nid := Black], path, finished + [nid])
  {
    PathShrinks(g, color, path, nid);
    FinishedGrows(g, color, finished, nid);
  }

  lemma GrayDependencyClosesCycle(g: Deps, path: seq<Id>, i: nat)
    requires IsWalk(g, path) && i < |path| && path[i] in g[path[|path| - 1]]
    ensures IsCycle(g, path[i..])
  {
    var c := path[i..];
    forall p | 0 <= p < |c| - 1
      ensures c[p + 1] in g[c[p]]
    {
      assert path[(i + p) + 1] in g[path[i + p]];
    }
  }

  /** Entering and leaving `nid` around a search that keeps what is gray or black keeps it too. */
  lemma VisitKeeps(before: Coloring, searched: Coloring, nid: Id)
    requires nid in before && before[nid] == White && Keeps(before[nid := Gray], searched)
    requires Whites(searched) <= Whites(before[nid := Gray])
    ensures Keeps(before, searched[nid := Black])
    ensures Whites(searched[nid := Black]) < Whites(before)
  {
    assert nid in Whites(before) && nid !in Whites(searched);
    assert forall n :: n in Whites(before[nid := Gray]) ==> n in Whites(before);
  }

  /** The state that the nested function `visit` shares with `_find_cycle`. */
  class CycleSearch {
    const deps: Deps
    var color: Coloring
    var path: seq<Id>
    ghost var finished: seq<Id>  // the black tasks in the order they turned black

    constructor (g: Deps)
      requires Closed(g)
      ensures Searching(deps, color, path, finished) && deps == g && path == []
      ensures forall n :: n in g ==> color[n] == White
    {
      deps := g;
      color := map n | n in g :: White;
      path := [];
      finished := [];
    }

    method Visit(nid: Id) returns (cycle: Option<seq<Id>>)
      requires Searching(deps, color, path, finished) && nid in deps && color[nid] == White
      requires path != [] ==> nid in deps[path[|path| - 1]]
      modifies this
      ensures cycle.Some? ==> IsCycle(deps, cycle.value)
      ensures cycle.None? ==> Searching(deps, color, path, finished) && path == old(path)
      ensures cycle.None? ==> color[nid] == Black && Keeps(old(color), color)
      ensures cycle.None? ==> Whites(color) < Whites(old(color))
      decreases Whites(color), 0
    {
      EnterStep(deps, color, path, finished, nid);
      color := color[nid := Gray];
      path := path + [nid];
      cycle := VisitDependencies(nid);
      if cycle.Some? {
        return;
      }
      VisitKeeps(old(color), color, nid);
      LeaveStep(deps, color, old(path), finished, nid);
      path := path[..|path| - 1];
      color := color[nid := Black];
      finished := finished + [nid];
    }

    /** The loop of `visit`: `nid` is gray and the last element of the path. */
    method VisitDependencies(nid: Id) returns (cycle: Option<seq<Id>>)
      requires Searching(deps, color, path, finished)
      requires path != [] && path[|path| - 1] == nid
      modifies this
      ensures cycle.Some? ==> IsCycle(deps, cycle.value)
      ensures cycle.None? ==> Searching(deps, color, path, finished) && path == old(path)
      ensures cycle.None? ==> Keeps(old(color), color) && Whites(color) <= Whites(old(color))
      ensures cycle.None? ==> forall d :: d in deps[nid] ==> color[d] == Black
      decreases Whites(color), 1
    {
      var ordered := ListSorted(deps[nid]);
      for i := 0 to |ordered|
        invariant Searching(deps, color, path, finished) && path == old(path)
        invariant Keeps(old(color), color) && Whites(color) <= Whites(old(color))
        invariant forall j :: 0 <= j < i ==> color[ordered[j]] == Black
      {
        var dep := ordered[i];
        assert dep in deps[nid];
        if color[dep] == Gray {
          var idx := IndexOf(path, dep);
          GrayDependencyClosesCycle(deps, path, idx);
          return Some(path[idx..]);
        }
        if color[dep] == White {
          var found := Visit(dep);
          if found.Some? {
            return found;
          }
        }
      }
      cycle := None;
    }
  }

  method FindCycle(g: Deps) returns (cycle: Option<seq<Id>>)
    requires Closed(g)
    ensures cycle.None? <==> Acyclic(g)
    ensures cycle.Some? ==> IsCycle(g, cycle.value)
  {
    var search := new CycleSearch(g);
    var ordered := ListSorted(g.Keys);
    for i := 0 to |ordered|
      invariant search.deps == g && search.path == []
      invariant Searching(g, search.color, [], search.finished)
      invariant forall j :: 0 <= j < i ==> search.color[ordered[j]] == Black
    {
      var nid := ordered[i];
      assert nid in g.Keys;
      if search.color[nid] == White {
        cycle := search.Visit(nid);
        if cycle.Some? {
          return;
        }
      } else {
        assert nid !in search.path;
      }
    }
    assert FullListing(g, search.finished) by {
      forall n | n in g
        ensures n in search.finished
      {
        assert n in ordered;
        assert search.color[n] == Black;
      }
    }
    ListingRulesOutCycles(g, search.finished);
    cycle := None;
  }

  // ------------------------------------------------------- reachability from the roots

  /** `seen` was reached step by step: it is the element set of the listing `order`. */
  ghost predicate Reached(g: Deps, seen: set<Id>, order: seq<Id>) {
    && Listing(g, order)
    && (forall n :: n in order ==> n in seen)
    && (forall n :: n in seen ==> n in order && n in g)
  }

  lemma ReachedExtends(g: Deps, seen: set<Id>, order: seq<Id>, n: Id)
    requires Reached(g, seen, order) && n in g && n !in seen && g[n] <= seen
    ensures Reached(g, seen + {n}, order + [n])
  {
    assert Ready(g, order, n);
    ListingExtends(g, order, n);
  }

  /** The fixpoint of "all dependencies seen": it covers the graph iff there is no cycle. */
  method ReachableFromRoots(p: Plan) returns (seen: set<Id>)
    requires p.WellFormed()
    ensures seen <= p.deps.Keys
    ensures forall n :: n in p.deps && p.deps[n] <= seen ==> n in seen
    ensures Closed(p.deps) ==> (seen == p.deps.Keys <==> Acyclic(p.deps))
  {
    seen := {};
    ghost var order: seq<Id> := [];
    for i := 0 to |p.keys|
      invariant Reached(p.deps, seen, order)
      invariant forall j :: 0 <= j < i && p.deps[p.keys[j]] == {} ==> p.keys[j] in seen
      invariant forall n :: n in seen ==> n in p.keys[..i]
    {
      var n := p.keys[i];
      assert n !in p.keys[..i];
      if p.deps[n] == {} {
        ReachedExtends(p.deps, seen, order, n);
        seen := seen + {n};
        order := order + [n];
      }
    }
    var changed := true;
    while changed
      invariant Reached(p.deps, seen, order)
      invariant forall j :: 0 <= j < |p.keys| && p.deps[p.keys[j]] == {} ==> p.keys[j] in seen
      invariant !changed ==> forall j :: 0 <= j < |p.keys| && p.deps[p.keys[j]] <= seen ==> p.keys[j] in seen
      decreases p.deps.Keys - seen, changed
    {
      seen, changed, order := Sweep(p, seen, order);
    }
    forall n | n in p.deps && p.deps[n] <= seen
      ensures n in seen
    {
      assert n in p.keys;
    }
    if Closed(p.deps) {
      CoveredIffAcyclic(p.deps, seen, order);
    }
  }

  /** The body of the `while changed` loop. */
  method Sweep(p: Plan, start: set<Id>, ghost startOrder: seq<Id>)
    returns (seen: set<Id>, changed: bool, ghost order: seq<Id>)
    requires p.WellFormed() && Reached(p.deps, start, startOrder)
    requires forall j :: 0 <= j < |p.keys| && p.deps[p.keys[j]] == {} ==> p.keys[j] in start
    ensures Reached(p.deps, seen, order) && start <= seen
    ensures changed <==> start < seen
    ensures !changed ==> forall j :: 0 <= j < |p.keys| && p.deps[p.keys[j]] <= seen ==> p.keys[j] in seen
  {
    seen, changed, order := start, false, startOrder;
    for i := 0 to |p.keys|
      invariant Reached(p.deps, seen, order)
      invariant start <= seen && (changed <==> start < seen)
      invariant !changed ==> forall j :: 0 <= j < i && p.deps[p.keys[j]] <= seen ==> p.keys[j] in seen
    {
      var n := p.keys[i];
      if n in seen {
        continue;
      }
      if p.deps[n] != {} && p.deps[n] <= seen {
        ReachedExtends(p.deps, seen, order, n);
        seen := seen + {n};
        order := order + [n];
        changed := true;
      }
    }
  }

  lemma CoveredIffAcyclic(g: Deps, seen: set<Id>, order: seq<Id>)
    requires Closed(g) && Reached(g, seen, order)
    requires forall n :: n in g && g[n] <= seen ==> n in seen
    ensures seen == g.Keys <==> Acyclic(g)
  {
    if Acyclic(g) {
      if exists n :: n in g && n !in order {
        MissingMeansReady(g, order);
        assert false;
      }
    }
    if seen == g.Keys {
      ListingRulesOutCycles(g, order);
    }
  }

  // ------------------------------------------------------- validation

  /** `validate`: the first problem found, or none.  Orphans are never the problem. */
  method Validate(p: Plan) returns (problem: Option<PlanError>)
    requires p.WellFormed()
    ensures problem.None? <==> ValidGraph(p.deps)
    ensures problem == Some(EmptyPlan) <==> p.deps.Keys == {}
    ensures problem.Some? ==>
      !problem.value.OrphanTasks? && !problem.value.DuplicateTask? && !problem.value.GoalNotActive?
    ensures problem.Some? && problem.value.UnknownDependency? ==>
      var UnknownDependency(task, dependency) := problem.value;
      task in p.deps && dependency in p.deps[task] && dependency !in p.deps
    ensures problem.Some? && problem.value.DependencyCycle? ==>
      Closed(p.deps) && IsCycle(p.deps, problem.value.cycle)
  {
    if p.deps.Keys == {} {
      return Some(EmptyPlan);
    }
    assert exists n :: n in p.deps.Keys;
    for i := 0 to |p.keys|
      invariant forall n, d :: n in p.keys[..i] && d in p.deps[n] ==> d in p.deps
    {
      var n := p.keys[i];
      assert p.keys[..i + 1] == p.keys[..i] + [n];
      if d :| d in p.deps[n] && d !in p.deps {
        return Some(UnknownDependency(n, d));
      }
    }
    assert p.keys[..|p.keys|] == p.keys;
    var cycle := FindCycle(p.deps);
    if cycle.Some? {
      return Some(DependencyCycle(cycle.value));
    }
    var reachable := ReachableFromRoots(p);
    var orphans := SortedIds(p.deps.Keys - reachable);
    if orphans != [] {
      return Some(OrphanTasks(orphans));
    }
    problem := None;
  }

  ghost predicate DistinctIds(nodes: seq<TaskNode>) {
    forall i, j :: 0 <= i < j < |nodes| ==> nodes[i].id != nodes[j].id
  }

  /** The dictionary built from `nodes`; a later node would replace an earlier one with its id. */
  function GraphOf(nodes: seq<TaskNode>): (g: Deps)
    ensures forall i :: 0 <= i < |nodes| ==> nodes[i].id in g
    ensures forall n :: n in g ==> exists i :: 0 <= i < |nodes| && nodes[i].id == n
  {
    if nodes == [] then
      map[]
    else
      var last := nodes[|nodes| - 1];
      GraphOf(nodes[..|nodes| - 1])[last.id := last.dependencies]
  }

  lemma {:induction false} GraphOfDistinct(nodes: seq<TaskNode>, i: nat)
    requires DistinctIds(nodes) && i < |nodes|
    ensures GraphOf(nodes)[nodes[i].id] == nodes[i].dependencies
  {
    if i < |nodes| - 1 {
      GraphOfDistinct(nodes[..|nodes| - 1], i);
    }
  }

  /** The summaries in that dictionary. */
  function SummariesOf(nodes: seq<TaskNode>): (m: map<Id, string>)
    ensures m.Keys == GraphOf(nodes).Keys
  {
    if nodes == [] then
      map[]
    else
      var last := nodes[|nodes| - 1];
      SummariesOf(nodes[..|nodes| - 1])[last.id := last.summary]
  }

  lemma {:induction false} SummariesOfDistinct(nodes: seq<TaskNode>, i: nat)
    requires DistinctIds(nodes) && i < |nodes|
    ensures nodes[i].id in SummariesOf(nodes) && SummariesOf(nodes)[nodes[i].id] == nodes[i].summary
  {
    if i < |nodes| - 1 {
      SummariesOfDistinct(nodes[..|nodes| - 1], i);
    }
  }

  /** The plan that holds exactly these nodes. */
  ghost predicate Holds(p: Plan, nodes: seq<TaskNode>) {
    p.WellFormed() && p.keys == IdsOf(nodes) && p.deps == GraphOf(nodes) && p.summaries == SummariesOf(nodes)
  }

  /** `PlanEngine.create`: the goal must be active, ids must be new, and the plan must validate. */
  method Create(goalActive: bool, nodes: seq<TaskNode>) returns (r: Result<Plan, PlanError>)
    ensures r.Success? <==> goalActive && DistinctIds(nodes) && ValidGraph(GraphOf(nodes))
    ensures r == Failure(GoalNotActive) <==> !goalActive
    ensures r.Success? ==> Holds(r.value, nodes)
    ensures r.Failure? ==> !r.error.OrphanTasks?
    ensures r.Failure? && r.error.DuplicateTask? ==> !DistinctIds(nodes)
  {
    if !goalActive {
      return Failure(GoalNotActive);
    }
    if nodes == [] {
      return Failure(EmptyPlan);
    }
    var built := BuildMap(nodes);
    if built.Failure? {
      return built;
    }
    var problem := Validate(built.value);
    r := if problem.Some? then Failure(problem.value) else built;
  }

  function IdsOf(nodes: seq<TaskNode>): (ids: seq<Id>)
    ensures |ids| == |nodes| && forall i :: 0 <= i < |nodes| ==> ids[i] == nodes[i].id
  {
    if nodes == [] then [] else IdsOf(nodes[..|nodes| - 1]) + [nodes[|nodes| - 1].id]
  }

  /** The loop that fills `node_map`. */
  method BuildMap(nodes: seq<TaskNode>) returns (r: Result<Plan, PlanError>)
    ensures r.Success? <==> DistinctIds(nodes)
    ensures r.Success? ==> Holds(r.value, nodes)
    ensures r.Failure? ==> r.error.DuplicateTask?
  {
    var keys: seq<Id> := [];
    var deps: Deps := map[];
    var summaries: map<Id, string> := map[];
    for i := 0 to |nodes|
      invariant keys == IdsOf(nodes[..i]) && deps == GraphOf(nodes[..i]) && summaries == SummariesOf(nodes[..i])
      invariant DistinctIds(nodes[..i])
    {
      var node := nodes[i];
      NextId(nodes, i);
      NextMap(nodes, i);
      if node.id in deps {
        return Failure(DuplicateTask(node.id));
      }
      keys := keys + [node.id];
      deps := deps[node.id := node.dependencies];
      summaries := summaries[node.id := node.summary];
    }
    assert nodes[..|nodes|] == nodes;
    MapOfDistinctIds(nodes);
    r := Success(Plan(keys, deps, summaries));
  }

  lemma NextMap(nodes: seq<TaskNode>, i: nat)
    requires i < |nodes|
    ensures GraphOf(nodes[..i + 1]) == GraphOf(nodes[..i])[nodes[i].id := nodes[i].dependencies]
    ensures SummariesOf(nodes[..i + 1]) == SummariesOf(nodes[..i])[nodes[i].id := nodes[i].summary]
    ensures IdsOf(nodes[..i + 1]) == IdsOf(nodes[..i]) + [nodes[i].id]
  {
    assert nodes[..i + 1][..i] == nodes[..i] && nodes[..i + 1][i] == nodes[i];
  }

  lemma NextId(nodes: seq<TaskNode>, i: nat)
    requires i < |nodes| && DistinctIds(nodes[..i])
    ensures nodes[i].id in GraphOf(nodes[..i]) ==> !DistinctIds(nodes)
    ensures nodes[i].id !in GraphOf(nodes[..i]) ==> DistinctIds(nodes[..i + 1])
  {
    var before, g := nodes[..i], GraphOf(nodes[..i]);
    if nodes[i].id in g {
      var j :| 0 <= j < |before| && before[j].id == nodes[i].id;
      assert nodes[j].id == nodes[i].id;
    } else {
      forall j | 0 <= j < i
        ensures nodes[j].id != nodes[i].id
      {
        assert before[j].id in g;
      }
      OneMoreDistinct(nodes, i);
    }
  }

  lemma OneMoreDistinct(nodes: seq<TaskNode>, i: nat)
    requires i < |nodes| && DistinctIds(nodes[..i])
    requires forall j :: 0 <= j < i ==> nodes[j].id != nodes[i].id
    ensures DistinctIds(nodes[..i + 1])
  {
    var before, after := nodes[..i], nodes[..i + 1];
    assert forall j :: 0 <= j < i ==> after[j] == nodes[j] && before[j] == nodes[j];
  }

  lemma IdsAreKeys(nodes: seq<TaskNode>, n: Id)
    ensures n in IdsOf(nodes) <==> n in GraphOf(nodes)
  {
    if n in GraphOf(nodes) {
      var i :| 0 <= i < |nodes| && nodes[i].id == n;
      assert IdsOf(nodes)[i] == n;
    }
    if n in IdsOf(nodes) {
      var i :| 0 <= i < |nodes| && IdsOf(nodes)[i] == n;
      assert nodes[i].id == n;
    }
  }

  lemma IdsAreDistinct(nodes: seq<TaskNode>)
    requires DistinctIds(nodes)
    ensures Distinct(IdsOf(nodes))
  {
    var ids := IdsOf(nodes);
    forall i, j | 0 <= i < j < |ids|
      ensures ids[i] != ids[j]
    {
      assert nodes[i].id != nodes[j].id;
    }
  }

  lemma MapOfDistinctIds(nodes: seq<TaskNode>)
    requires DistinctIds(nodes)
    ensures Plan(IdsOf(nodes), GraphOf(nodes), SummariesOf(nodes)).WellFormed()
  {
    IdsAreDistinct(nodes);
    forall n
      ensures n in IdsOf(nodes) <==> n in GraphOf(nodes)
    {
      IdsAreKeys(nodes, n);
    }
  }

  // ------------------------------------------------------- Kahn's algorithm

  /** `topological_order`: refuses an invalid plan, otherwise returns the least listing. */
  method TopologicalOrder(p: Plan) returns (r: Result<seq<Id>, PlanError>)
    requires p.WellFormed()
    ensures r.Success? <==> ValidGraph(p.deps)
    ensures r.Success? ==> LeastListing(p.deps, r.value)
  {
    var problem := Validate(p);
    if problem.Some? {
      return Failure(problem.value);
    }
    var order := KahnOrder(p);
    r := Success(order);
  }

  /** The dependencies of `n` that are still outstanding. */
  ghost function Outstanding(g: Deps, done: set<Id>, n: Id): set<Id>
    requires n in g
  {
    g[n] - done
  }

  ghost predicate Counts(g: Deps, done: set<Id>, indegree: map<Id, int>) {
    indegree.Keys == g.Keys &&
    forall n :: n in g ==> indegree[n] == |Outstanding(g, done, n)|
  }

  /** The queue holds exactly the tasks that are ready. */
  ghost predicate ReadyQueue(g: Deps, done: set<Id>, queue: seq<Id>) {
    && Distinct(queue)
    && forall n :: n in queue <==> n in g && n !in done && Outstanding(g, done, n) == {}
  }

  ghost predicate DependentsOf(g: Deps, dependents: map<Id, seq<Id>>) {
    && dependents.Keys == g.Keys
    && forall d :: d in dependents ==>
         Distinct(dependents[d]) && forall n :: n in dependents[d] <==> n in g && d in g[n]
  }

  ghost predicate KahnState(g: Deps, order: seq<Id>, done: set<Id>, queue: seq<Id>, indegree: map<Id, int>) {
    && Greedy(g, order) && Reached(g, done, order)
    && Counts(g, done, indegree)
    && ReadyQueue(g, done, queue) && Ascending(StrLe, queue)
  }

  lemma NothingDone(g: Deps, n: Id)
    requires n in g
    ensures Outstanding(g, {}, n) == g[n] && (|Outstanding(g, {}, n)| == 0 <==> Outstanding(g, {}, n) == {})
  {
  }

  lemma StartCounts(g: Deps, indegree: map<Id, int>)
    requires indegree == map n | n in g :: |g[n]|
    ensures Counts(g, {}, indegree)
  {
    forall n | n in g
      ensures indegree[n] == |Outstanding(g, {}, n)|
    {
      NothingDone(g, n);
    }
  }

  lemma StartQueue(g: Deps, indegree: map<Id, int>, queue: seq<Id>)
    requires Counts(g, {}, indegree) && Distinct(queue)
    requires forall n :: n in queue <==> n in indegree && indegree[n] == 0
    ensures ReadyQueue(g, {}, queue)
  {
    forall n
      ensures n in queue <==> n in g && n !in {} && Outstanding(g, {}, n) == {}
    {
      if n in g {
        NothingDone(g, n);
      }
    }
  }

  lemma NothingReached(g: Deps)
    ensures Greedy(g, []) && Reached(g, {}, [])
  {
  }

  lemma KahnStart(g: Deps, indegree: map<Id, int>, queue: seq<Id>)
    requires indegree == map n | n in g :: |g[n]|
    requires Distinct(queue) && Ascending(StrLe, queue)
    requires forall n :: n in queue <==> n in indegree && indegree[n] == 0
    ensures KahnState(g, [], {}, queue, indegree)
  {
    NothingReached(g);
    StartCounts(g, indegree);
    StartQueue(g, indegree, queue);
  }

  method Dependents(p: Plan) returns (dependents: map<Id, seq<Id>>)
    requires p.WellFormed() && Closed(p.deps)
    ensures DependentsOf(p.deps, dependents)
  {
    dependents := map n | n in p.deps :: [];
    for i := 0 to |p.keys|
      invariant PartialDependents(p, i, dependents)
    {
      AddStep(p, i, dependents);
      dependents := AddDependent(dependents, p.keys[i], p.deps[p.keys[i]]);
    }
    assert p.keys[..|p.keys|] == p.keys;
  }

  ghost predicate PartialDependents(p: Plan, i: nat, dependents: map<Id, seq<Id>>)
    requires p.WellFormed() && i <= |p.keys|
  {
    && dependents.Keys == p.deps.Keys
    && forall d :: d in dependents ==>
         Distinct(dependents[d]) && forall n :: n in dependents[d] <==> n in p.keys[..i] && d in p.deps[n]
  }

  function WithDependent(dependents: map<Id, seq<Id>>, n: Id, dependencies: set<Id>): map<Id, seq<Id>> {
    map d | d in dependents :: if d in dependencies then dependents[d] + [n] else dependents[d]
  }

  lemma AddToOne(before: seq<Id>, n: Id, keys: seq<Id>, i: nat)
    requires Distinct(keys) && i < |keys| && n == keys[i] && Distinct(before)
    requires forall m :: m in before ==> m in keys[..i]
    ensures Distinct(before + [n]) && n !in keys[..i] && keys[..i + 1] == keys[..i] + [n]
  {
    assert n !in keys[..i];
    assert n !in before;
  }

  lemma AddStep(p: Plan, i: nat, dependents: map<Id, seq<Id>>)
    requires p.WellFormed() && i < |p.keys|
    requires PartialDependents(p, i, dependents)
    ensures PartialDependents(p, i + 1, WithDependent(dependents, p.keys[i], p.deps[p.keys[i]]))
  {
    var n := p.keys[i];
    var after := WithDependent(dependents, n, p.deps[n]);
    forall d | d in after
      ensures Distinct(after[d]) && forall m :: m in after[d] <==> m in p.keys[..i + 1] && d in p.deps[m]
    {
      AddToOne(dependents[d], n, p.keys, i);
    }
  }

  /** The inner loop over `node.dependencies`. */
  method AddDependent(start: map<Id, seq<Id>>, n: Id, dependencies: set<Id>)
    returns (dependents: map<Id, seq<Id>>)
    requires dependencies <= start.Keys
    ensures dependents == WithDependent(start, n, dependencies)
  {
    dependents := start;
    var rest := dependencies;
    while rest != {}
      invariant rest <= dependencies
      invariant dependents == WithDependent(start, n, dependencies - rest)
    {
      var d :| d in rest;
      dependents := dependents[d := dependents[d] + [n]];
      rest := rest - {d};
    }
  }

  method KahnOrder(p: Plan) returns (order: seq<Id>)
    requires p.WellFormed() && ValidGraph(p.deps)
    ensures LeastListing(p.deps, order)
  {
    var g := p.deps;
    var indegree := map n | n in g :: |g[n]|;
    var dependents := Dependents(p);
    var roots := set n | n in indegree && indegree[n] == 0;
    var queue := SortedIds(roots);
    SortedIdsAscending(roots);
    order := [];
    ghost var done: set<Id> := {};
    KahnStart(g, indegree, queue);
    while queue != []
      invariant KahnState(g, order, done, queue, indegree)
      decreases g.Keys - done
    {
      order, done, queue, indegree := KahnStep(g, dependents, order, done, queue, indegree);
    }
    AllListed(g, order, done);
    GreedyIsLeast(g, order);
  }

  /** The body of the `while queue` loop. */
  method KahnStep(
    g: Deps, dependents: map<Id, seq<Id>>,
    order: seq<Id>, ghost done: set<Id>, queue: seq<Id>, indegree: map<Id, int>)
    returns (order': seq<Id>, ghost done': set<Id>, queue': seq<Id>, indegree': map<Id, int>)
    requires DependentsOf(g, dependents) && queue != []
    requires KahnState(g, order, done, queue, indegree)
    ensures KahnState(g, order', done', queue', indegree')
    ensures order' == order + [queue[0]]
    ensures done' == done + {queue[0]} && queue[0] in g && queue[0] !in done
  {
    var current := queue[0];
    PlaceFront(g, order, done, queue);
    order' := order + [current];
    done' := done + {current};
    var newlyFree: seq<Id>;
    indegree', newlyFree := Decrement(indegree, dependents[current]);
    LoweredCounts(g, done, current, dependents[current], indegree);
    QueueAfter(g, done, queue, newlyFree);
    queue' := SortBy(StrLe, queue[1..] + newlyFree);
  }

  lemma FrontIsLeastReady(g: Deps, order: seq<Id>, done: set<Id>, queue: seq<Id>)
    requires queue != [] && Ascending(StrLe, queue)
    requires Reached(g, done, order) && ReadyQueue(g, done, queue)
    ensures Ready(g, order, queue[0])
    ensures queue[0] in g && queue[0] !in done && g[queue[0]] <= done
    ensures forall n :: Ready(g, order, n) ==> StrLe(queue[0], n)
  {
    var front := queue[0];
    assert front in queue;
    assert forall d :: d in g[front] ==> d in Outstanding(g, done, front) || d in done;
    StrLeTotal(front, front);
    forall n | Ready(g, order, n)
      ensures StrLe(front, n)
    {
      assert Outstanding(g, done, n) == {};
      var i :| 0 <= i < |queue| && queue[i] == n;
    }
  }

  lemma PlaceFront(g: Deps, order: seq<Id>, done: set<Id>, queue: seq<Id>)
    requires queue != [] && Ascending(StrLe, queue)
    requires Greedy(g, order) && Reached(g, done, order) && ReadyQueue(g, done, queue)
    ensures queue[0] in g && queue[0] !in done
    ensures Greedy(g, order + [queue[0]]) && Reached(g, done + {queue[0]}, order + [queue[0]])
    ensures forall d :: d in done ==> d in g && g[d] <= done
  {
    FrontIsLeastReady(g, order, done, queue);
    GreedyExtends(g, order, queue[0]);
    ReachedExtends(g, done, order, queue[0]);
    forall d | d in done
      ensures g[d] <= done
    {
      var i :| 0 <= i < |order| && order[i] == d;
      assert Ready(g, order[..i], order[i]);
    }
  }

  lemma QueueAfter(g: Deps, done: set<Id>, queue: seq<Id>, newlyFree: seq<Id>)
    requires queue != [] && ReadyQueue(g, done, queue)
    requires forall d :: d in done ==> d in g && g[d] <= done
    requires Distinct(newlyFree)
    requires forall n :: n in newlyFree <==>
      n in g && queue[0] in g[n] && Outstanding(g, done + {queue[0]}, n) == {}
    ensures ReadyQueue(g, done + {queue[0]}, SortBy(StrLe, queue[1..] + newlyFree))
    ensures Ascending(StrLe, SortBy(StrLe, queue[1..] + newlyFree))
  {
    var current, rest := queue[0], queue[1..];
    var after := done + {current};
    var merged := rest + newlyFree;
    assert queue == [current] + rest && current in queue;
    assert current !in done;
    forall n | n in g
      ensures n in rest ==> n !in newlyFree
      ensures n in merged <==> n !in after && Outstanding(g, after, n) == {}
    {
      assert n in rest <==> n in queue && n != current;
      assert Outstanding(g, done, n) <= Outstanding(g, after, n) + {current};
      assert Outstanding(g, after, n) <= Outstanding(g, done, n);
      assert current in g[n] <==> current in Outstanding(g, done, n);
      assert n in done ==> current !in g[n];
      assert n == current ==> current !in g[n];
    }
    forall i, j | 0 <= i < j < |merged|
      ensures merged[i] != merged[j]
    {
      if i < |rest| <= j {
        assert merged[i] in rest && newlyFree[j - |rest|] in newlyFree;
      }
    }
    StrLeIsTotalPreorder();
    SortByAscending(StrLe, merged);
    DistinctByMultiset(merged, SortBy(StrLe, merged));
    SameMultisetSameElements(SortBy(StrLe, merged), merged);
  }

  lemma AllListed(g: Deps, order: seq<Id>, done: set<Id>)
    requires Closed(g) && Acyclic(g)
    requires Reached(g, done, order) && ReadyQueue(g, done, [])
    ensures FullListing(g, order)
  {
    forall n
      ensures !Ready(g, order, n)
    {
      ReadyIsQueued(g, order, done, [], n);
    }
    if exists n :: n in g && n !in order {
      MissingMeansReady(g, order);
      assert false;
    }
  }

  lemma ReadyIsQueued(g: Deps, order: seq<Id>, done: set<Id>, queue: seq<Id>, n: Id)
    requires Reached(g, done, order) && ReadyQueue(g, done, queue)
    ensures Ready(g, order, n) ==> n in queue
  {
    if Ready(g, order, n) {
      assert Outstanding(g, done, n) == {};
    }
  }

  function Lowered(indegree: map<Id, int>, children: seq<Id>): map<Id, int> {
    map n | n in indegree :: indegree[n] - if n in children then 1 else 0
  }

  lemma OutstandingAfter(g: Deps, done: set<Id>, current: Id, n: Id)
    requires n in g && current !in done
    ensures |Outstanding(g, done, n)| == |Outstanding(g, done + {current}, n)| + if current in g[n] then 1 else 0
  {
    var before, after := Outstanding(g, done, n), Outstanding(g, done + {current}, n);
    assert before == if current in g[n] then after + {current} else after;
  }

  lemma LoweredCounts(g: Deps, done: set<Id>, current: Id, children: seq<Id>, indegree: map<Id, int>)
    requires Counts(g, done, indegree) && current !in done
    requires forall n :: n in children <==> n in g && current in g[n]
    ensures Counts(g, done + {current}, Lowered(indegree, children))
    ensures forall n :: n in children && Lowered(indegree, children)[n] == 0 <==>
      n in g && current in g[n] && Outstanding(g, done + {current}, n) == {}
  {
    var lowered, after := Lowered(indegree, children), done + {current};
    forall n | n in g
      ensures lowered[n] == |Outstanding(g, after, n)|
    {
      OutstandingAfter(g, done, current, n);
    }
  }

  /** The loop over `dependents[current]`. */
  method Decrement(start: map<Id, int>, children: seq<Id>)
    returns (indegree: map<Id, int>, newlyFree: seq<Id>)
    requires Distinct(children) && forall n :: n in children ==> n in start
    ensures indegree == Lowered(start, children)
    ensures Distinct(newlyFree)
    ensures forall n :: n in newlyFree <==> n in children && indegree[n] == 0
  {
    indegree := start;
    newlyFree := [];
    for j := 0 to |children|
      invariant indegree == Lowered(start, children[..j])
      invariant Distinct(newlyFree)
      invariant forall n :: n in newlyFree <==> n in children[..j] && start[n] == 1
    {
      var child := children[j];
      assert child !in children[..j];
      assert children[..j + 1] == children[..j] + [child];
      indegree := indegree[child := indegree[child] - 1];
      if indegree[child] == 0 {
        newlyFree := newlyFree + [child];
      }
    }
    assert children[..|children|] == children;
  }
}
