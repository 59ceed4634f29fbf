/** The orchestrator: layered execution of a plan with failure isolation.

    Admission and the agent runner are oracles: `runs[n]` is what happens to
    node `n` if the orchestrator tries to run it.  Before it does, it builds the
    contract of the run from the node's summary, and a blank summary makes that
    raise out of the whole execution.
*/
module Orchestration {
  import opened Ordering
  import opened Text
  import opened PlanGraph
  import opened PlanEngine
  import opened Layering

  datatype AgentResult = AgentResult(taskId: Id, status: string)

  datatype NodeRun =
    | AdmissionRefused
    | Returned(result: AgentResult)
    | TimedOut
    | Crashed

  /** One outcome per node of the plan. */
  type Runs = map<Id, NodeRun>

  datatype LayerReport = LayerReport(layer: nat, results: seq<AgentResult>)

  datatype Overall = COMPLETED | PARTIAL | FAILED

  datatype Report = Report(overall: Overall, layers: seq<LayerReport>, confidence: real)

  datatype ExecuteError =
    | InvalidPlan(error: PlanError)
    | ParallelizationRefused(decision: GateDecision)
    | BlankMission(task: Id)

  type Summaries = map<Id, string>

  /** `AgentContract` refuses the summary of `n` as a mission.  (A node's id is never blank.) */
  predicate BlankAt(summaries: Summaries, n: Id) {
    n in summaries && IsBlank(summaries[n])
  }

  /** Some node would be run although its contract cannot be built. */
  ghost predicate Raises(g: Deps, runs: Runs, summaries: Summaries) {
    exists n :: Runnable(g, runs, n) && BlankAt(summaries, n)
  }

  predicate IsCompleted(r: AgentResult) {
    r.status == "COMPLETED"
  }

  predicate IsIncomplete(r: AgentResult) {
    !IsCompleted(r)
  }

  /** `_run_one`. */
  function RunOne(n: Id, run: NodeRun): AgentResult {
    match run
    case AdmissionRefused => AgentResult(n, "FAILED")
    case Returned(result) => result
    case TimedOut => AgentResult(n, "TIMEOUT")
    case Crashed => AgentResult(n, "FAILED")
  }

  function BlockedResult(n: Id): AgentResult {
    AgentResult(n, "FAILED")
  }

  // ------------------------------------------------------- what a run of the plan means

  /** The runner was let in, came back, and said that the task is completed. */
  predicate Succeeds(run: NodeRun) {
    run.Returned? && run.result.status == "COMPLETED"
  }

  lemma FailedIsNotCompleted()
    ensures "FAILED" != "COMPLETED" && "TIMEOUT" != "COMPLETED"
  {
    assert "FAILED"[0] == 'F' && "TIMEOUT"[0] == 'T' && "COMPLETED"[0] == 'C';
  }

  /** A refused, timed-out or crashed run never counts as completed. */
  lemma RunOneCompletesIff(n: Id, run: NodeRun)
    ensures IsCompleted(RunOne(n, run)) <==> Succeeds(run)
    ensures !IsCompleted(BlockedResult(n))
  {
    FailedIsNotCompleted();
  }

  /** `n` and everything it transitively depends on succeed on their own. */
  ghost predicate Completes(g: Deps, runs: Runs, n: Id) {
    forall m :: DependsOn(g, n, m) ==> m in runs && Succeeds(runs[m])
  }

  ghost predicate Runnable(g: Deps, runs: Runs, n: Id) {
    n in g && forall d :: d in g[n] ==> Completes(g, runs, d)
  }

  /** The result that the report carries for node `n`. */
  ghost function NodeResult(g: Deps, runs: Runs, n: Id): AgentResult
    requires n in runs
  {
    if Runnable(g, runs, n) then RunOne(n, runs[n]) else BlockedResult(n)
  }

  lemma DependsOnUnfold(g: Deps, n: Id, m: Id)
    requires Closed(g) && n in g
    ensures DependsOn(g, n, m) <==> m == n || exists d :: d in g[n] && DependsOn(g, d, m)
  {
    assert IsWalk(g, [n]) && [n][0] == n;
    if DependsOn(g, n, m) && m != n {
      var w :| IsWalk(g, w) && w[0] == n && w[|w| - 1] == m;
      TailChain(g, n, w);
      assert DependsOn(g, w[1], m);
    }
    if d :| d in g[n] && DependsOn(g, d, m) {
      var w :| IsWalk(g, w) && w[0] == d && w[|w| - 1] == m;
      ConsChain(g, n, d, w);
      assert ([n] + w)[|w|] == m;
    }
  }

  lemma CompletesUnfold(g: Deps, runs: Runs, n: Id)
    requires Closed(g) && n in g && runs.Keys == g.Keys
    ensures Completes(g, runs, n) <==> Runnable(g, runs, n) && Succeeds(runs[n])
    ensures Completes(g, runs, n) <==> IsCompleted(NodeResult(g, runs, n))
  {
    DependsOnUnfold(g, n, n);
    if Completes(g, runs, n) {
      forall d, m | d in g[n] && DependsOn(g, d, m)
        ensures m in runs && Succeeds(runs[m])
      {
        DependsOnUnfold(g, n, m);
      }
    }
    if Runnable(g, runs, n) && Succeeds(runs[n]) {
      forall m | DependsOn(g, n, m)
        ensures m in runs && Succeeds(runs[m])
      {
        DependsOnUnfold(g, n, m);
      }
    }
    RunOneCompletesIff(n, runs[n]);
  }

  /** Failure isolation: the status of a node is decided by the node and what it depends on.
      Two plans that agree there may differ anywhere else, in nodes, edges and outcomes. */
  lemma Noninterference(g1: Deps, runs1: Runs, g2: Deps, runs2: Runs, n: Id)
    requires Closed(g1) && Closed(g2) && runs1.Keys == g1.Keys && runs2.Keys == g2.Keys
    requires n in g1 && n in g2
    requires forall m :: DependsOn(g1, n, m) ==> m in g2 && g1[m] == g2[m] && runs1[m] == runs2[m]
    ensures NodeResult(g1, runs1, n) == NodeResult(g2, runs2, n)
  {
    DependsOnUnfold(g1, n, n);
    forall m
      ensures DependsOn(g1, n, m) <==> DependsOn(g2, n, m)
    {
      if w :| IsWalk(g1, w) && w[0] == n && w[|w| - 1] == m {
        WalkTransfers(g1, g2, w);
      }
      if w :| IsWalk(g2, w) && w[0] == n && w[|w| - 1] == m {
        WalkTransfersBack(g1, g2, w);
      }
    }
    assert g1[n] == g2[n];
    forall d | d in g1[n]
      ensures Completes(g1, runs1, d) <==> Completes(g2, runs2, d)
    {
      forall m
        ensures DependsOn(g1, d, m) ==> DependsOn(g1, n, m)
        ensures DependsOn(g2, d, m) ==> DependsOn(g2, n, m)
        ensures DependsOn(g1, d, m) <==> DependsOn(g2, d, m)
      {
        DependsOnUnfold(g1, n, m);
        DependsOnUnfold(g2, n, m);
        AncestorsAgree(g1, g2, n, d, m);
      }
    }
  }

  ghost predicate AgreeBelow(g1: Deps, g2: Deps, n: Id) {
    forall m :: DependsOn(g1, n, m) ==> m in g1 && m in g2 && g1[m] == g2[m]
  }

  lemma WalkPrefix(g: Deps, w: seq<Id>, i: nat)
    requires IsWalk(g, w) && i < |w|
    ensures DependsOn(g, w[0], w[i])
  {
    var v := w[..i + 1];
    forall p | 0 <= p < |v| - 1
      ensures v[p + 1] in g[v[p]]
    {
      assert w[p + 1] in g[w[p]];
    }
    assert IsWalk(g, v) && v[0] == w[0] && v[|v| - 1] == w[i];
  }

  lemma WalkTransfers(g1: Deps, g2: Deps, w: seq<Id>)
    requires IsWalk(g1, w) && AgreeBelow(g1, g2, w[0])
    ensures IsWalk(g2, w)
  {
    forall i | 0 <= i < |w|
      ensures w[i] in g2 && g1[w[i]] == g2[w[i]]
    {
      WalkPrefix(g1, w, i);
    }
  }

  lemma {:induction false} WalkTransfersBack(g1: Deps, g2: Deps, w: seq<Id>)
    requires IsWalk(g2, w) && w[0] in g1 && Closed(g1) && AgreeBelow(g1, g2, w[0])
    ensures IsWalk(g1, w)
    decreases |w|
  {
    if |w| > 1 {
      DependsOnUnfold(g1, w[0], w[0]);
      TailChain(g2, w[0], w);
      forall m | DependsOn(g1, w[1], m)
        ensures DependsOn(g1, w[0], m)
      {
        DependsOnUnfold(g1, w[0], m);
      }
      WalkTransfersBack(g1, g2, w[1..]);
      ConsChain(g1, w[0], w[1], w[1..]);
      assert w == [w[0]] + w[1..];
    }
  }

  lemma AncestorsAgree(g1: Deps, g2: Deps, n: Id, d: Id, m: Id)
    requires Closed(g1) && n in g1 && d in g1[n] && AgreeBelow(g1, g2, n)
    ensures DependsOn(g1, d, m) <==> DependsOn(g2, d, m)
  {
    forall x | DependsOn(g1, d, x)
      ensures DependsOn(g1, n, x)
    {
      DependsOnUnfold(g1, n, x);
    }
    if w :| IsWalk(g1, w) && w[0] == d && w[|w| - 1] == m {
      WalkTransfers(g1, g2, w);
    }
    if w :| IsWalk(g2, w) && w[0] == d && w[|w| - 1] == m {
      WalkTransfersBack(g1, g2, w);
    }
  }

  // ------------------------------------------------------- the specification of a report

  function MapRuns(runs: Runs, ids: seq<Id>): (results: seq<AgentResult>)
    requires forall n :: n in ids ==> n in runs
  {
    if ids == [] then []
    else
      var k := |ids| - 1;
      MapRuns(runs, ids[..k]) + [RunOne(ids[k], runs[ids[k]])]
  }

  function MapBlocked(ids: seq<Id>): seq<AgentResult> {
    if ids == [] then [] else MapBlocked(ids[..|ids| - 1]) + [BlockedResult(ids[|ids| - 1])]
  }

  lemma MapRunsNext(runs: Runs, ids: seq<Id>, n: Id)
    requires n in runs && forall m :: m in ids ==> m in runs
    ensures MapRuns(runs, ids + [n]) == MapRuns(runs, ids) + [RunOne(n, runs[n])]
  {
    assert (ids + [n])[..|ids|] == ids;
  }

  lemma MapBlockedNext(ids: seq<Id>, n: Id)
    ensures MapBlocked(ids + [n]) == MapBlocked(ids) + [BlockedResult(n)]
  {
    assert (ids + [n])[..|ids|] == ids;
  }

  /** Run nodes first, in layer order, then the blocked ones. */
  ghost function ExpectedResults(g: Deps, runs: Runs, layer: seq<Id>): seq<AgentResult>
    requires forall n :: n in layer ==> n in runs
  {
    MapRuns(runs, RunnablePart(g, runs, layer)) + MapBlocked(BlockedPart(g, runs, layer))
  }

  /** All results of a report, layer by layer. */
  function AllResults(layers: seq<LayerReport>): seq<AgentResult> {
    if layers == [] then [] else AllResults(layers[..|layers| - 1]) + layers[|layers| - 1].results
  }

  function CompletedCount(layers: seq<LayerReport>): nat {
    |Filter(IsCompleted, AllResults(layers))|
  }

  /** `incomplete_task_ids`. */
  function IncompleteIds(layers: seq<LayerReport>): seq<Id> {
    TaskIds(Filter(IsIncomplete, AllResults(layers)))
  }

  function TaskIds(results: seq<AgentResult>): seq<Id> {
    seq(|results|, i requires 0 <= i < |results| => results[i].taskId)
  }

  // ------------------------------------------------------- executing one layer

  /** Before layer `i`, `completed` holds the completing nodes of the earlier layers. */
  ghost predicate CompletedBefore(g: Deps, runs: Runs, completed: set<Id>, i: nat)
    requires Closed(g) && Acyclic(g)
  {
    forall n :: n in completed <==> n in g && Depth(g, n) < i && Completes(g, runs, n)
  }

  lemma DependenciesDecide(g: Deps, runs: Runs, completed: set<Id>, i: nat, n: Id)
    requires Closed(g) && Acyclic(g) && CompletedBefore(g, runs, completed, i)
    requires AtDepth(g, n, i)
    ensures g[n] <= completed <==> Runnable(g, runs, n)
  {
    forall d | d in g[n]
      ensures Depth(g, d) < i
    {
      DependencyIsShallower(g, n, d);
    }
  }

  /** The first inner loop: which nodes of the layer may run. */
  method Classify(g: Deps, ghost runs: Runs, completed: set<Id>, layer: seq<Id>, ghost i: nat)
    returns (runnable: seq<Id>, blocked: seq<Id>)
    requires Closed(g) && Acyclic(g) && CompletedBefore(g, runs, completed, i)
    requires forall n :: n in layer ==> AtDepth(g, n, i)
    ensures runnable == RunnablePart(g, runs, layer) && blocked == BlockedPart(g, runs, layer)
  {
    runnable, blocked := [], [];
    ghost var keep, drop := (n: Id) => Runnable(g, runs, n), (n: Id) => !Runnable(g, runs, n);
    for j := 0 to |layer|
      invariant runnable == Filter(keep, layer[..j]) && blocked == Filter(drop, layer[..j])
    {
      var n := layer[j];
      assert n in layer;
      DependenciesDecide(g, runs, completed, i, n);
      FilterNext(keep, layer, j);
      FilterNext(drop, layer, j);
      if g[n] != {} && !(g[n] <= completed) {
        blocked := blocked + [n];
      } else {
        runnable := runnable + [n];
      }
    }
    assert layer[..|layer|] == layer;
  }

  lemma FilterNext<T(!new)>(keep: T -> bool, s: seq<T>, j: nat)
    requires j < |s|
    ensures Filter(keep, s[..j + 1]) == Filter(keep, s[..j]) + if keep(s[j]) then [s[j]] else []
  {
    assert s[..j + 1] == s[..j] + [s[j]];
    FilterAppend(keep, s[..j], [s[j]]);
    assert [s[j]][1..] == [];
  }

  function AdmittedPart(runs: Runs, ids: seq<Id>): seq<Id> {
    Filter(n => n in runs && runs[n] != AdmissionRefused, ids)
  }

  /** `asyncio.gather` over the runnable nodes and the bookkeeping of its results. */
  method RunLayer(runs: Runs, start: set<Id>, runnable: seq<Id>)
    returns (results: seq<AgentResult>, completed: set<Id>, calls: seq<Id>)
    requires forall n :: n in runnable ==> n in runs
    ensures results == MapRuns(runs, runnable)
    ensures forall n :: n in completed <==> n in start || (n in runnable && Succeeds(runs[n]))
    ensures calls == AdmittedPart(runs, runnable)
  {
    results, completed, calls := [], start, [];
    ghost var called := (n: Id) => n in runs && runs[n] != AdmissionRefused;
    for j := 0 to |runnable|
      invariant results == MapRuns(runs, runnable[..j])
      invariant forall n :: n in completed <==> n in start || (n in runnable[..j] && Succeeds(runs[n]))
      invariant calls == Filter(called, runnable[..j])
    {
      var n := runnable[j];
      assert n in runnable;
      assert runnable[..j + 1] == runnable[..j] + [n];
      FilterNext(called, runnable, j);
      MapRunsNext(runs, runnable[..j], n);
      if runs[n] != AdmissionRefused {
        calls := calls + [n];
      }
      var result := RunOne(n, runs[n]);
      RunOneCompletesIff(n, runs[n]);
      results := results + [result];
      if IsCompleted(result) {
        completed := completed + {n};
      }
    }
    assert runnable[..|runnable|] == runnable;
  }

  // ------------------------------------------------------- executing the plan

  ghost predicate CompletedAfter(g: Deps, runs: Runs, completed: set<Id>, i: nat, layer: seq<Id>)
    requires Closed(g) && Acyclic(g) && runs.Keys == g.Keys
  {
    forall n :: n in completed <==>
      n in g && ((Depth(g, n) < i && Completes(g, runs, n))
                 || (n in layer && Runnable(g, runs, n) && Succeeds(runs[n])))
  }

  lemma NextCompleted(g: Deps, runs: Runs, order: seq<Id>, completed: set<Id>, i: nat, layer: seq<Id>)
    requires Closed(g) && Acyclic(g) && runs.Keys == g.Keys
    requires forall n :: n in g ==> n in order
    requires layer == LayerAt(g, order, i)
    requires CompletedAfter(g, runs, completed, i, layer)
    ensures CompletedBefore(g, runs, completed, i + 1)
  {
    forall n | n in g
      ensures n in completed <==> Depth(g, n) < i + 1 && Completes(g, runs, n)
    {
      CompletesUnfold(g, runs, n);
      assert n in layer <==> AtDepth(g, n, i);
    }
  }

  ghost predicate Called(g: Deps, runs: Runs, n: Id) {
    Runnable(g, runs, n) && n in runs && runs[n] != AdmissionRefused
  }

  /** The runner has been called for exactly the callable nodes of the first `i` layers,
      each once and after all its dependencies. */
  ghost predicate CallsSoFar(g: Deps, runs: Runs, calls: seq<Id>, i: nat)
    requires Closed(g) && Acyclic(g)
  {
    && Listing(g, calls)
    && forall n :: n in calls <==> n in g && Depth(g, n) < i && Called(g, runs, n)
  }

  lemma {:induction false} AppendReady(g: Deps, done: seq<Id>, more: seq<Id>)
    requires Listing(g, done) && Distinct(more)
    requires forall n :: n in more ==> Ready(g, done, n)
    ensures Listing(g, done + more)
  {
    if more == [] {
      assert done + more == done;
    } else {
      var k := |more| - 1;
      var init, last := more[..k], more[k];
      AppendReady(g, done, init);
      assert last in more && last !in init;
      assert Ready(g, done + init, last);
      ListingExtends(g, done + init, last);
      assert done + more == (done + init) + [last];
    }
  }

  /** The nodes of a layer that are called: each once, and all their dependencies called before. */
  lemma LayerCalls(g: Deps, runs: Runs, order: seq<Id>, calls: seq<Id>, i: nat, layer: seq<Id>)
    requires Closed(g) && Acyclic(g) && runs.Keys == g.Keys
    requires FullListing(g, order) && layer == LayerAt(g, order, i)
    requires CallsSoFar(g, runs, calls, i)
    ensures var more := AdmittedPart(runs, RunnablePart(g, runs, layer));
      Distinct(more) && forall n :: n in more ==> Ready(g, calls, n)
  {
    var more := AdmittedPart(runs, RunnablePart(g, runs, layer));
    ListingDistinct(g, order);
    FilterDistinct(n => AtDepth(g, n, i), order);
    FilterDistinct(n => Runnable(g, runs, n), layer);
    FilterDistinct(n => n in runs && runs[n] != AdmissionRefused, RunnablePart(g, runs, layer));
    forall n | n in more
      ensures Ready(g, calls, n)
    {
      assert AtDepth(g, n, i);
      forall d | d in g[n]
        ensures d in calls
      {
        DependencyIsShallower(g, n, d);
        CompletesUnfold(g, runs, d);
      }
    }
  }

  lemma NextCalls(g: Deps, runs: Runs, order: seq<Id>, calls: seq<Id>, i: nat, layer: seq<Id>, more: seq<Id>)
    requires Closed(g) && Acyclic(g) && runs.Keys == g.Keys
    requires FullListing(g, order) && layer == LayerAt(g, order, i)
    requires CallsSoFar(g, runs, calls, i)
    requires more == AdmittedPart(runs, RunnablePart(g, runs, layer))
    ensures CallsSoFar(g, runs, calls + more, i + 1)
  {
    LayerCalls(g, runs, order, calls, i, layer);
    AppendReady(g, calls, more);
    forall n
      ensures n in calls + more <==> n in g && Depth(g, n) < i + 1 && Called(g, runs, n)
    {
      assert n in layer <==> n in order && AtDepth(g, n, i);
      assert n in more <==> n in layer && Called(g, runs, n);
    }
  }

  ghost predicate ReportedLayers(g: Deps, runs: Runs, layers: seq<seq<Id>>, reports: seq<LayerReport>)
    requires runs.Keys == g.Keys
  {
    && |reports| <= |layers|
    && forall i :: 0 <= i < |reports| ==>
         && (forall n :: n in layers[i] ==> n in g)
         && reports[i] == LayerReport(i, ExpectedResults(g, runs, layers[i]))
  }

  ghost function CompletingNodes(g: Deps, runs: Runs): set<Id> {
    set n | n in g && Completes(g, runs, n)
  }

  function Fraction(part: nat, whole: nat): real
    requires whole > 0
  {
    (part as real) / (whole as real)
  }

  /** Overall verdict and confidence from the number of completing nodes. */
  ghost predicate Graded(done: nat, total: nat, report: Report) {
    && total > 0
    && report.confidence == Fraction(done, total)
    && report.overall == (if done == total then COMPLETED else if done > 0 then PARTIAL else FAILED)
  }

  /** What `execute` reports for a plan with these layers. */
  ghost predicate IsReport(g: Deps, runs: Runs, layers: seq<seq<Id>>, report: Report)
    requires runs.Keys == g.Keys
  {
    && |report.layers| == |layers| && ReportedLayers(g, runs, layers, report.layers)
    && Graded(|CompletingNodes(g, runs)|, |g.Keys|, report)
  }

  /** The gate lets the plan pass, or is not asked. */
  ghost predicate PassesGate(g: Deps, layers: seq<seq<Id>>, forceSequential: bool) {
    forceSequential || 10 * |layers| <= 9 * |g.Keys|
  }

  /** `execute`, with the calls that it has made to the runner in the order of the layers.  When it raises for a
      blank mission, the layer of that node is under way and its calls are not among them. */
  method Execute(p: Plan, runs: Runs, forceSequential: bool)
    returns (r: Result<Report, ExecuteError>, calls: seq<Id>, ghost order: seq<Id>, ghost layers: seq<seq<Id>>)
    requires p.WellFormed() && runs.Keys == p.deps.Keys
    ensures r.Failure? && r.error.InvalidPlan? <==> !ValidGraph(p.deps)
    ensures ValidGraph(p.deps) ==> LayersOf(p.deps, order, layers)
    ensures r.Failure? && r.error.ParallelizationRefused? <==>
      ValidGraph(p.deps) && !PassesGate(p.deps, layers, forceSequential)
    ensures r.Failure? && r.error.ParallelizationRefused? ==> Decides(r.error.decision, |p.deps.Keys|, |layers|)
    ensures r.Failure? && r.error.BlankMission? <==>
      ValidGraph(p.deps) && PassesGate(p.deps, layers, forceSequential) && Raises(p.deps, runs, p.summaries)
    ensures r.Failure? && r.error.BlankMission? ==>
      Runnable(p.deps, runs, r.error.task) && BlankAt(p.summaries, r.error.task)
    ensures r.Failure? && !r.error.BlankMission? ==> calls == []
    ensures Listing(p.deps, calls) && forall n :: n in calls ==> Called(p.deps, runs, n)
    ensures r.Success? ==> IsReport(p.deps, runs, layers, r.value)
    ensures r.Success? ==> forall n :: n in calls <==> Called(p.deps, runs, n)
  {
    var g := p.deps;
    var layered;
    layered, order := DependencyLayers(p);
    calls, layers := [], [];
    if layered.Failure? {
      return Failure(InvalidPlan(layered.error)), calls, order, layers;
    }
    layers := layered.value;
    if !forceSequential {
      var decision := ConsultGate(g, order, layered.value);
      if !decision.allowed {
        return Failure(ParallelizationRefused(decision)), calls, order, layers;
      }
    }
    r, calls := ExecuteLayers(g, runs, p.summaries, order, layered.value);
  }

  /** `execute` after the gate. */
  method ExecuteLayers(g: Deps, runs: Runs, summaries: Summaries, ghost order: seq<Id>, layers: seq<seq<Id>>)
    returns (r: Result<Report, ExecuteError>, calls: seq<Id>)
    requires LayersOf(g, order, layers) && runs.Keys == g.Keys
    ensures r.Failure? ==>
      r.error.BlankMission? && Runnable(g, runs, r.error.task) && BlankAt(summaries, r.error.task)
    ensures r.Success? ==> IsReport(g, runs, layers, r.value) && !Raises(g, runs, summaries)
    ensures Listing(g, calls) && forall n :: n in calls ==> Called(g, runs, n)
    ensures r.Success? ==> forall n :: n in calls <==> Called(g, runs, n)
  {
    var reports, completed, raised;
    reports, completed, calls, raised := RunLayers(g, runs, summaries, order, layers);
    if raised.Some? {
      return Failure(BlankMission(raised.value)), calls;
    }
    var report := Summarise(|g.Keys|, |completed|, reports);
    r := Success(report);
  }

  method ConsultGate(g: Deps, ghost order: seq<Id>, layers: seq<seq<Id>>) returns (decision: GateDecision)
    requires LayersOf(g, order, layers)
    ensures Decides(decision, |g.Keys|, |layers|)
  {
    decision := EvaluateGate(Sizes(layers));
    LayersAreHeight(g, order, layers);
    LayersPartition(g, order, layers);
    GateTells(layers);
    assert |g| == |g.Keys|;
  }

  /** The closing lines of `execute`. */
  method Summarise(total: nat, done: nat, reports: seq<LayerReport>) returns (report: Report)
    requires total > 0
    ensures report.layers == reports && Graded(done, total, report)
  {
    FractionBounds(done, total);
    if done == total {
      report := Report(COMPLETED, reports, 1.0);
    } else if done > 0 {
      report := Report(PARTIAL, reports, Fraction(done, total));
    } else {
      report := Report(FAILED, reports, 0.0);
    }
  }

  /** No runnable node of the first `i` layers has a blank summary. */
  ghost predicate NoneRaisedBefore(g: Deps, runs: Runs, summaries: Summaries, i: nat)
    requires Closed(g) && Acyclic(g)
  {
    forall n :: n in g && Depth(g, n) < i && Runnable(g, runs, n) ==> !BlankAt(summaries, n)
  }

  lemma NextRaised(g: Deps, runs: Runs, summaries: Summaries, order: seq<Id>, i: nat, layer: seq<Id>)
    requires Closed(g) && Acyclic(g) && FullListing(g, order) && layer == LayerAt(g, order, i)
    requires NoneRaisedBefore(g, runs, summaries, i)
    requires forall n :: n in layer && Runnable(g, runs, n) ==> !BlankAt(summaries, n)
    ensures NoneRaisedBefore(g, runs, summaries, i + 1)
  {
    forall n | n in g && Depth(g, n) < i + 1 && Runnable(g, runs, n)
      ensures !BlankAt(summaries, n)
    {
      assert n in order;
      assert Depth(g, n) == i ==> AtDepth(g, n, i) && n in layer;
    }
  }

  /** The loop over the layers. */
  method RunLayers(g: Deps, runs: Runs, summaries: Summaries, ghost order: seq<Id>, layers: seq<seq<Id>>)
    returns (reports: seq<LayerReport>, completed: set<Id>, calls: seq<Id>, raised: Option<Id>)
    requires ValidGraph(g) && FullListing(g, order) && runs.Keys == g.Keys
    requires forall l :: 0 <= l < |layers| ==> layers[l] == LayerAt(g, order, l) && layers[l] != []
    requires forall n :: n in g ==> Depth(g, n) < |layers|
    ensures raised.Some? ==> Runnable(g, runs, raised.value) && BlankAt(summaries, raised.value)
    ensures raised.None? ==> |reports| == |layers| && ReportedLayers(g, runs, layers, reports)
    ensures raised.None? ==> completed == CompletingNodes(g, runs) && |g.Keys| > 0 && !Raises(g, runs, summaries)
    ensures Listing(g, calls) && forall n :: n in calls ==> Called(g, runs, n)
    ensures raised.None? ==> forall n :: n in calls <==> Called(g, runs, n)
  {
    completed, reports, calls := {}, [], [];
    for i := 0 to |layers|
      invariant CompletedBefore(g, runs, completed, i) && NoneRaisedBefore(g, runs, summaries, i)
      invariant CallsSoFar(g, runs, calls, i)
      invariant |reports| == i && ReportedLayers(g, runs, layers, reports)
    {
      var results, more;
      results, completed, more, raised := ExecuteLayer(g, runs, summaries, order, completed, layers[i], i);
      if raised.Some? {
        return;
      }
      NextRaised(g, runs, summaries, order, i, layers[i]);
      NextCalls(g, runs, order, calls, i, layers[i], more);
      ReportedNext(g, runs, layers, reports, results);
      reports := reports + [LayerReport(i, results)];
      calls := calls + more;
    }
    raised := None;
    AllCompleted(g, runs, completed, |layers|);
  }

  lemma ReportedNext(g: Deps, runs: Runs, layers: seq<seq<Id>>, reports: seq<LayerReport>, results: seq<AgentResult>)
    requires runs.Keys == g.Keys && |reports| < |layers| && ReportedLayers(g, runs, layers, reports)
    requires forall n :: n in layers[|reports|] ==> n in g
    requires results == ExpectedResults(g, runs, layers[|reports|])
    ensures ReportedLayers(g, runs, layers, reports + [LayerReport(|reports|, results)])
  {
  }

  lemma AllCompleted(g: Deps, runs: Runs, completed: set<Id>, height: nat)
    requires ValidGraph(g) && CompletedBefore(g, runs, completed, height)
    requires forall n :: n in g ==> Depth(g, n) < height
    ensures completed == CompletingNodes(g, runs)
    ensures |g.Keys| > 0
  {
    assert exists n :: n in g.Keys;
  }

  /** The first of `ids` whose contract cannot be built. */
  method FirstBlank(summaries: Summaries, ids: seq<Id>) returns (raised: Option<Id>)
    ensures raised.Some? ==> raised.value in ids && BlankAt(summaries, raised.value)
    ensures raised.None? ==> forall n :: n in ids ==> !BlankAt(summaries, n)
  {
    for j := 0 to |ids|
      invariant forall k :: 0 <= k < j ==> !BlankAt(summaries, ids[k])
    {
      if BlankAt(summaries, ids[j]) {
        return Some(ids[j]);
      }
    }
    raised := None;
  }

  /** The body of the loop over the layers: results, or the node for which `asyncio.gather` raises. */
  method ExecuteLayer(
    g: Deps, runs: Runs, summaries: Summaries, ghost order: seq<Id>, start: set<Id>, layer: seq<Id>, ghost i: nat)
    returns (results: seq<AgentResult>, completed: set<Id>, calls: seq<Id>, raised: Option<Id>)
    requires Closed(g) && Acyclic(g) && runs.Keys == g.Keys
    requires FullListing(g, order) && layer == LayerAt(g, order, i) && layer != []
    requires CompletedBefore(g, runs, start, i)
    ensures forall n :: n in layer ==> n in g
    ensures raised.Some? ==> raised.value in layer && Runnable(g, runs, raised.value) && BlankAt(summaries, raised.value)
    ensures raised.None? ==> forall n :: n in layer && Runnable(g, runs, n) ==> !BlankAt(summaries, n)
    ensures raised.None? ==> results == ExpectedResults(g, runs, layer)
    ensures raised.None? ==> CompletedBefore(g, runs, completed, i + 1)
    ensures raised.None? ==> calls == AdmittedPart(runs, RunnablePart(g, runs, layer))
  {
    assert forall n :: n in layer ==> AtDepth(g, n, i);
    var runnable, blocked := Classify(g, runs, start, layer, i);
    raised := FirstBlank(summaries, runnable);
    if raised.Some? {
      return [], start, [], raised;
    }
    if blocked != [] && runnable == [] {
      // everything blocked: the layer ends here
      results, completed, calls := MapBlocked(blocked), start, [];
      assert MapRuns(runs, []) + MapBlocked(blocked) == MapBlocked(blocked);
      assert forall n :: n in layer ==> n !in runnable;
    } else {
      results, completed, calls := RunLayer(runs, start, runnable);
      results := results + MapBlocked(blocked);
    }
    NextCompleted(g, runs, order, completed, i, layer);
  }

  // ------------------------------------------------------- when an execution raises

  /** If every node succeeds, every node is run. */
  lemma AllRun(g: Deps, n: Id)
    requires Closed(g) && n in g
    ensures Runnable(g, AllSucceed(g), n)
  {
    var runs := AllSucceed(g);
    forall d, m | d in g[n] && DependsOn(g, d, m)
      ensures m in runs && Succeeds(runs[m])
    {
      var w :| IsWalk(g, w) && w[0] == d && w[|w| - 1] == m;
    }
  }

  function AllSucceed(g: Deps): Runs {
    map n | n in g :: Returned(AgentResult(n, "COMPLETED"))
  }

  /** Past the gate a plan never raises, whatever its agents do, exactly when no node has a blank summary. */
  lemma NeverRaisesIff(g: Deps, summaries: Summaries)
    requires Closed(g) && summaries.Keys == g.Keys
    ensures (forall runs: Runs :: runs.Keys == g.Keys ==> !Raises(g, runs, summaries))
      <==> forall n :: n in g ==> !IsBlank(summaries[n])
  {
    if n :| n in g && IsBlank(summaries[n]) {
      AllRun(g, n);
      assert AllSucceed(g).Keys == g.Keys;
      assert Runnable(g, AllSucceed(g), n) && BlankAt(summaries, n);
      assert Raises(g, AllSucceed(g), summaries);
    }
  }

  /** The smallest case: one node, without dependencies, with an empty summary.  The plan is valid, and every
      execution of it past the gate raises instead of reporting a failed node. */
  lemma OneBlankNode(n: Id, runs: Runs)
    requires runs.Keys == {n}
    ensures ValidGraph(map[n := {}]) && Raises(map[n := {}], runs, map[n := ""])
  {
    var g: Deps := map[n := {}];
    assert n in g.Keys;
    forall c
      ensures !IsCycle(g, c)
    {
    }
    assert Runnable(g, runs, n) && BlankAt(map[n := ""], n);
  }

  // ------------------------------------------------------- what the report says

  ghost function NodeResults(g: Deps, runs: Runs, ids: seq<Id>): seq<AgentResult>
    requires forall n :: n in ids ==> n in runs
  {
    if ids == [] then []
    else
      var k := |ids| - 1;
      NodeResults(g, runs, ids[..k]) + [NodeResult(g, runs, ids[k])]
  }

  lemma {:induction false} LayerPermutesNodeResults(g: Deps, runs: Runs, layer: seq<Id>)
    requires forall n :: n in layer ==> n in runs
    ensures multiset(ExpectedResults(g, runs, layer)) == multiset(NodeResults(g, runs, layer))
  {
    if layer != [] {
      var k := |layer| - 1;
      LayerPermutesNodeResults(g, runs, layer[..k]);
      ExpectedResultsNext(g, runs, layer);
    }
  }

  ghost function RunnablePart(g: Deps, runs: Runs, layer: seq<Id>): seq<Id> {
    Filter(n => Runnable(g, runs, n), layer)
  }

  ghost function BlockedPart(g: Deps, runs: Runs, layer: seq<Id>): seq<Id> {
    Filter(n => !Runnable(g, runs, n), layer)
  }

  lemma PartsNext(g: Deps, runs: Runs, layer: seq<Id>)
    requires layer != []
    ensures var k := |layer| - 1; var n := layer[k];
      if Runnable(g, runs, n) then
        && RunnablePart(g, runs, layer) == RunnablePart(g, runs, layer[..k]) + [n]
        && BlockedPart(g, runs, layer) == BlockedPart(g, runs, layer[..k])
      else
        && RunnablePart(g, runs, layer) == RunnablePart(g, runs, layer[..k])
        && BlockedPart(g, runs, layer) == BlockedPart(g, runs, layer[..k]) + [n]
  {
    var k := |layer| - 1;
    assert layer[..k + 1] == layer;
    FilterNext(n => Runnable(g, runs, n), layer, k);
    FilterNext(n => !Runnable(g, runs, n), layer, k);
  }

  lemma ExpectedResultsNext(g: Deps, runs: Runs, layer: seq<Id>)
    requires layer != [] && forall n :: n in layer ==> n in runs
    ensures multiset(ExpectedResults(g, runs, layer)) ==
      multiset(ExpectedResults(g, runs, layer[..|layer| - 1])) + multiset{NodeResult(g, runs, layer[|layer| - 1])}
  {
    var k := |layer| - 1;
    var n := layer[k];
    PartsNext(g, runs, layer);
    var r, b := RunnablePart(g, runs, layer[..k]), BlockedPart(g, runs, layer[..k]);
    InsertInEither(MapRuns(runs, r), MapBlocked(b), NodeResult(g, runs, n));
    if Runnable(g, runs, n) {
      MapRunsNext(runs, r, n);
    } else {
      MapBlockedNext(b, n);
    }
  }

  lemma InsertInEither<T>(a: seq<T>, b: seq<T>, x: T)
    ensures multiset((a + [x]) + b) == multiset(a + b) + multiset{x}
    ensures multiset(a + (b + [x])) == multiset(a + b) + multiset{x}
  {
  }

  lemma {:induction false} NodeResultsConcat(g: Deps, runs: Runs, a: seq<Id>, b: seq<Id>)
    requires forall n :: n in a + b ==> n in runs
    ensures (forall n :: n in a ==> n in runs) && (forall n :: n in b ==> n in runs)
    ensures NodeResults(g, runs, a + b) == NodeResults(g, runs, a) + NodeResults(g, runs, b)
  {
    assert forall n :: n in a ==> n in a + b;
    assert forall n :: n in b ==> n in a + b;
    if b == [] {
      assert a + b == a;
    } else {
      var k := |b| - 1;
      assert (a + b)[..|a + b| - 1] == a + b[..k];
      NodeResultsConcat(g, runs, a, b[..k]);
    }
  }

  /** Every node has exactly one result, and it is the one that node and its ancestors determine. */
  lemma {:induction false} OneResultPerNode(g: Deps, runs: Runs, layers: seq<seq<Id>>, reports: seq<LayerReport>)
    requires runs.Keys == g.Keys && |reports| == |layers| && ReportedLayers(g, runs, layers, reports)
    ensures forall n :: n in Flatten(layers) ==> n in g
    ensures multiset(AllResults(reports)) == multiset(NodeResults(g, runs, Flatten(layers)))
  {
    if layers != [] {
      var k := |layers| - 1;
      OneResultPerNode(g, runs, layers[..k], reports[..k]);
      LayerPermutesNodeResults(g, runs, layers[k]);
      var flat := Flatten(layers[..k]);
      assert Flatten(layers) == flat + layers[k];
      NodeResultsConcat(g, runs, flat, layers[k]);
    }
  }

  /** What a result says of node `n`: blocked, refused and crashed nodes FAILED, timed-out ones TIMEOUT, and what
      the runner returned as it is. */
  predicate Tells(r: AgentResult, n: Id, runnable: bool, run: NodeRun) {
    && (!runnable || run.AdmissionRefused? || run.Crashed? ==> r == AgentResult(n, "FAILED"))
    && (runnable && run.TimedOut? ==> r == AgentResult(n, "TIMEOUT"))
    && (runnable && run.Returned? ==> r == run.result)
  }

  lemma {:induction false} MapRunsTells(runs: Runs, ids: seq<Id>)
    requires forall n :: n in ids ==> n in runs
    ensures |MapRuns(runs, ids)| == |ids|
    ensures forall j :: 0 <= j < |ids| ==> Tells(MapRuns(runs, ids)[j], ids[j], true, runs[ids[j]])
  {
    if ids != [] {
      MapRunsTells(runs, ids[..|ids| - 1]);
    }
  }

  lemma {:induction false} MapBlockedTells(runs: Runs, ids: seq<Id>)
    requires forall n :: n in ids ==> n in runs
    ensures |MapBlocked(ids)| == |ids|
    ensures forall j :: 0 <= j < |ids| ==> Tells(MapBlocked(ids)[j], ids[j], false, runs[ids[j]])
  {
    if ids != [] {
      MapBlockedTells(runs, ids[..|ids| - 1]);
    }
  }

  /** The results of a layer, one by one: its runnable nodes, then its blocked ones, both in the order of the
      layer. */
  lemma LayerTells(g: Deps, runs: Runs, layer: seq<Id>)
    requires forall n :: n in layer ==> n in runs
    ensures var results := ExpectedResults(g, runs, layer);
      var ready, blocked := RunnablePart(g, runs, layer), BlockedPart(g, runs, layer);
      && |results| == |ready| + |blocked|
      && (forall j :: 0 <= j < |ready| ==> Tells(results[j], ready[j], true, runs[ready[j]]))
      && (forall j :: 0 <= j < |blocked| ==> Tells(results[|ready| + j], blocked[j], false, runs[blocked[j]]))
  {
    MapRunsTells(runs, RunnablePart(g, runs, layer));
    MapBlockedTells(runs, BlockedPart(g, runs, layer));
  }

  lemma LayerHas(g: Deps, runs: Runs, layer: seq<Id>, n: Id) returns (r: AgentResult)
    requires (forall m :: m in layer ==> m in runs) && n in layer
    ensures r in ExpectedResults(g, runs, layer) && Tells(r, n, Runnable(g, runs, n), runs[n])
  {
    LayerTells(g, runs, layer);
    var results := ExpectedResults(g, runs, layer);
    var ready, blocked := RunnablePart(g, runs, layer), BlockedPart(g, runs, layer);
    if Runnable(g, runs, n) {
      var j :| 0 <= j < |ready| && ready[j] == n;
      r := results[j];
    } else {
      var j :| 0 <= j < |blocked| && blocked[j] == n;
      r := results[|ready| + j];
    }
  }

  /** Every node has its result in the report of its own layer, and it tells what happened to the node. */
  lemma ReportTells(
    g: Deps, runs: Runs, order: seq<Id>, layers: seq<seq<Id>>, report: Report, n: Id)
    requires runs.Keys == g.Keys && LayersOf(g, order, layers) && IsReport(g, runs, layers, report) && n in g
    ensures exists r :: r in report.layers[Depth(g, n)].results && Tells(r, n, Runnable(g, runs, n), runs[n])
  {
    var layer := layers[Depth(g, n)];
    assert n in order && AtDepth(g, n, Depth(g, n));
    var r := LayerHas(g, runs, layer, n);
  }

  lemma {:induction false} FilterComplement<T(!new)>(keep: T -> bool, drop: T -> bool, s: seq<T>)
    requires forall x :: drop(x) == !keep(x)
    ensures |Filter(keep, s)| + |Filter(drop, s)| == |s|
  {
    if s != [] {
      FilterComplement(keep, drop, s[1..]);
    }
  }

  lemma {:induction false} FilterSizeByMultiset<T(!new)>(keep: T -> bool, a: seq<T>, b: seq<T>)
    requires multiset(a) == multiset(b)
    ensures |Filter(keep, a)| == |Filter(keep, b)|
  {
    forall x
      ensures multiset(Filter(keep, a))[x] == multiset(Filter(keep, b))[x]
    {
      FilterMultiset(keep, a, x);
      FilterMultiset(keep, b, x);
    }
    SameMultisetSameElements(Filter(keep, a), Filter(keep, b));
  }

  ghost function CompletingAmong(g: Deps, runs: Runs, ids: seq<Id>): set<Id> {
    set n | n in ids && Completes(g, runs, n)
  }

  lemma CompletingNext(g: Deps, runs: Runs, ids: seq<Id>, n: Id)
    requires n !in ids
    ensures |CompletingAmong(g, runs, ids + [n])| ==
      |CompletingAmong(g, runs, ids)| + if Completes(g, runs, n) then 1 else 0
  {
    var before := CompletingAmong(g, runs, ids);
    assert n !in before;
    assert CompletingAmong(g, runs, ids + [n]) == before + if Completes(g, runs, n) then {n} else {};
  }

  lemma {:induction false} CountNodes(g: Deps, runs: Runs, ids: seq<Id>)
    requires Closed(g) && runs.Keys == g.Keys
    requires Distinct(ids) && forall n :: n in ids ==> n in g
    ensures |Filter(IsCompleted, NodeResults(g, runs, ids))| == |CompletingAmong(g, runs, ids)|
  {
    if ids == [] {
      assert CompletingAmong(g, runs, ids) == {};
    } else {
      var k := |ids| - 1;
      var init, n := ids[..k], ids[k];
      assert ids == init + [n];
      CountNodes(g, runs, init);
      CompletesUnfold(g, runs, n);
      CompletingNext(g, runs, init, n);
      FilterAppend(IsCompleted, NodeResults(g, runs, init), [NodeResult(g, runs, n)]);
      FilterOne(IsCompleted, NodeResult(g, runs, n));
    }
  }

  lemma FilterOne<T(!new)>(keep: T -> bool, x: T)
    ensures Filter(keep, [x]) == if keep(x) then [x] else []
  {
    assert [x][1..] == [];
  }

  /** The report's own counts agree with its confidence, and the three ways of saying
      "everything completed" are the same. */
  lemma ReportIsHonest(g: Deps, runs: Runs, order: seq<Id>, layers: seq<seq<Id>>, report: Report)
    requires runs.Keys == g.Keys && LayersOf(g, order, layers) && IsReport(g, runs, layers, report)
    ensures |AllResults(report.layers)| == |g.Keys|
    ensures CompletedCount(report.layers) == |CompletingNodes(g, runs)|
    ensures report.overall == COMPLETED <==> report.confidence == 1.0
    ensures report.overall == COMPLETED <==> IncompleteIds(report.layers) == []
    ensures report.overall == FAILED <==> CompletedCount(report.layers) == 0
    ensures 0.0 <= report.confidence <= 1.0
  {
    ReportCounts(g, runs, order, layers, report.layers);
    IncompleteCount(report.layers);
    FractionBounds(|CompletingNodes(g, runs)|, |g.Keys|);
  }

  lemma IncompleteCount(layers: seq<LayerReport>)
    ensures |IncompleteIds(layers)| == |AllResults(layers)| - CompletedCount(layers)
  {
    FilterComplement(IsCompleted, IsIncomplete, AllResults(layers));
  }

  lemma ReportCounts(g: Deps, runs: Runs, order: seq<Id>, layers: seq<seq<Id>>, reports: seq<LayerReport>)
    requires runs.Keys == g.Keys && LayersOf(g, order, layers)
    requires |reports| == |layers| && ReportedLayers(g, runs, layers, reports)
    ensures |AllResults(reports)| == |g.Keys|
    ensures CompletedCount(reports) == |CompletingNodes(g, runs)|
  {
    var flat := Flatten(layers);
    LayersPartition(g, order, layers);
    assert |g| == |g.Keys|;
    OneResultPerNode(g, runs, layers, reports);
    CountsOf(g, runs, flat, AllResults(reports));
  }

  lemma CountsOf(g: Deps, runs: Runs, flat: seq<Id>, results: seq<AgentResult>)
    requires Closed(g) && runs.Keys == g.Keys
    requires Distinct(flat) && forall n :: n in flat <==> n in g
    requires multiset(results) == multiset(NodeResults(g, runs, flat))
    ensures |results| == |flat|
    ensures |Filter(IsCompleted, results)| == |CompletingNodes(g, runs)|
  {
    var byNode := NodeResults(g, runs, flat);
    NodeResultsLength(g, runs, flat);
    SameMultisetSameLength(results, byNode);
    FilterSizeByMultiset(IsCompleted, results, byNode);
    CountNodes(g, runs, flat);
    assert CompletingNodes(g, runs) == CompletingAmong(g, runs, flat);
  }

  lemma {:induction false} NodeResultsLength(g: Deps, runs: Runs, ids: seq<Id>)
    requires forall n :: n in ids ==> n in runs
    ensures |NodeResults(g, runs, ids)| == |ids|
  {
    if ids != [] {
      NodeResultsLength(g, runs, ids[..|ids| - 1]);
    }
  }

  lemma DivisionBounds(a: real, b: real)
    requires a >= 0.0 && b > 0.0
    ensures a / b >= 0.0
    ensures a <= b ==> a / b <= 1.0
    ensures a / b == 1.0 <==> a == b
    ensures a / b == 0.0 <==> a == 0.0
  {
    assert (a / b) * b == a;
  }

  lemma FractionBounds(part: nat, whole: nat)
    requires whole > 0
    ensures Fraction(part, whole) >= 0.0
    ensures part <= whole ==> Fraction(part, whole) <= 1.0
    ensures Fraction(part, whole) == 1.0 <==> part == whole
    ensures Fraction(part, whole) == 0.0 <==> part == 0
  {
    DivisionBounds(part as real, whole as real);
  }
}
