# Xenopus runtime: a verified model

This project models the engines of the Xenopus agent runtime in Dafny and proves what they promise: the plan DAG and
its layered execution, the agent pool, evidence aggregation and synthesis, the durable task store, the two approval
ledgers and the tool gateway, context assembly, the pruned windows of the notification router and the webhook surface,
the reflection loop, the scheduler and the skill ladder.

Code that changes state step by step is modelled by classes and methods with loops. Each method is tied to a function
of its inputs and of the old state, and the promises over whole runs are lemmas about that function.

| file | models |
|---|---|
| `Ordering.dfy`, `Text.dfy` | sorting, filtering and string methods as the runtime uses them |
| `PlanGraph.dfy`, `Plan.dfy` | dependency graphs; validation, cycle search, Kahn's algorithm |
| `Layering.dfy`, `Orchestrator.dfy` | dependency layers, the cost gate, layered execution |
| `AgentPool.dfy`, `PoolRules.dfy`, `PoolPromises.dfy` | admission as a protocol of interleaved steps, what every interleaving keeps, when the documented limits hold |
| `Aggregator.dfy`, `Synthesizer.dfy`, `EvidenceRules.dfy` | claims, conflicts, verdicts, and what they mean for the raw claims |
| `Tasks.dfy` | task table, journal, kill switch, crash detection |
| `Approvals.dfy`, `Gateway.dfy` | in-memory ledger, durable store, their simulation, the tool gateway |
| `Context.dfy`, `ContextRules.dfy` | budgeted context assembly, and which choice it makes |
| `RateWindows.dfy`, `Webhooks.dfy`, `WebhookRules.dfy`, `Notifications.dfy` | pruned windows, nonce registry, webhook checks, notification routing |
| `Memory.dfy`, `Reflection.dfy`, `ReflectionRules.dfy`, `ReflectionGate.dfy` | memory store, reflection passes, what repeated passes achieve, and what a stricter gate does to them |
| `Schedule.dfy`, `Scheduler.dfy`, `SchedulerRules.dfy` | due times, the tick loop, runs of ticks |
| `Skills.dfy` | skill stages, gates and registry |

## How the system is represented

- Strings are compared by code point. The keys of a dictionary are a sequence in insertion order where the order
  matters, and a set where the proof shows that it does not.
- Times are integers in microseconds, in UTC; every clock is nondecreasing. Confidence, rates and cost ratios are exact
  reals or cross-multiplied integers.
- Fresh ids come from outside (task ids, run ids, skill ids) or are row positions (memory ids) or counters (approval
  ids).
- The action hash is injective: the model uses the hashed action itself. The webhook signature check is a boolean of
  the request.
- The semaphore of the pool is a counter of free permits. `TotalBound` and `ChildBound` let any suspended acquire get
  the next permit; `TotalPromiseIff` uses the first-in-first-out discipline of the real semaphore.
- A table is a sequence in row order. The task journal is attached. A row is written before its event is built, and an
  event with an empty correlation id cannot be built: the operation raises with the row already changed.
- A schedule is what its texts say; a non-empty text that is no time, which the constructor accepts, is a schedule
  without a due time (`Unreadable`).
- A webhook attempt is two steps, before and after its body arrives, and bodies arrive in any order. The clock is read
  in the first step only.
- Runners, tool handlers, sinks and admission outcomes are oracles: one outcome per node, invocation or event. A node's
  contract is built from its summary before that, and a blank summary makes the whole execution raise.
- Nested loops of the source are split into helper methods with the same effect.

## Where the code differs from its documentation

Each of these is a theorem below.

- "Session totals never exceed limits.max_total" (`src/xenopus/runtime/agent_pool.py:90-92`): the check comes before the
  wait for a permit and the count after it. The promise holds on every run if and only if `max_total` is at most
  `max_concurrent`, which the defaults 12 and 4 are not (`TotalPromiseIff`), and so does the child budget of a parent
  (`ChildPromiseIff`). The bound that always holds is `max_total - 1` plus the peak number of overlapping acquires, and
  it is reached (`TotalBound`, `TotalBoundIsTight`).
- "Flag runs whose heartbeat lapsed": a watchdog pass flags a run if and only if its heartbeat has lapsed and no pass
  since its admission has flagged it (`FlaggedIff`); a second lapse after a recovery is missed (`SecondLapseIsMissed`).
- Failure isolation ends at a blank summary: past the gate an execution raises instead of reporting a failed node if and
  only if a runnable node has a blank summary (`Execute`), so a caller is safe exactly with plans in which no node has
  one (`NeverRaisesIff`). Plan validation does not look at summaries.
- The nonce registry is swept by clock readings that can be out of order, because a webhook's body is awaited between the
  clock reading and the lookup. One source and nonce can create two tasks at once (`TwoTasksAtOnce`). Tasks are apart by
  the TTL less the bound on overtaking, and by no more (`ReplayedIff`, `WindowIff`).
- Reopening the durable approval store over its own table makes the first creations fail, one for each row
  (`RestartCollides`).
- "Every state change is journaled": a task's events replay to its state if and only if its correlation id is not empty
  (`JournaledIff`), because the row is committed first and the event of an empty id raises. A creation keeps a journal
  that tells the whole table if and only if it is refused or has a correlation id (`Create`). For a caller the condition
  is to create no task without one.
- The kill switch and crash detection complete if and only if no task of the window that they are for has an empty
  correlation id (`CancelAll`, `MarkInterrupted`). Otherwise they raise with exactly the tasks up to that one moved, and
  the later ones stay live (`KillSwitchStops`).
- They see only the 100 most recently updated tasks. One that completes reaches every task it is for if and only if all
  of these are in that window (`SweepCompleteIff`).
- Context assembly keeps the original order for every accepted budget if and only if equal segments stand next to each
  other (`OrderKeptIffContiguous`). At one budget its choice is the best if and only if no dropped segment would fit
  together with all that older segments of negative estimate give back (`BestAtIff`); for every accepted budget, if and
  only if the loop cannot come with nothing left to a segment that costs nothing or less, and cannot drop a segment
  while an older one gives something back (`AlwaysBestIff`). Without negative estimates this is `BestIff` and
  `FreeIsSafeIff`. Segments made from messages always satisfy it (`MessagesAreChosenBest`); beside protected segments
  that cost something, one droppable segment that costs nothing or less breaks it (`NothingPaidIsDropped`).
- `reap_expired` expires a grant at its deadline, `resolve` only after it, so a sweep changes an answer exactly for a
  matching resolve at the very deadline (`SweepMattersIff`). A grant is not used up by a call (`GrantsAreReusable`).
- Subscribers are treated as if each were alone if and only if no journal is attached, the correlation id is not empty,
  or there is at most one of them. Otherwise the routing raises after the first one (`RoutedAloneIff`).
- "CRITICAL: always deliver": the per-minute limit also holds back critical notifications (`CriticalDeliveredIff`).
- "Unchanged data -> no new proposals": from an empty scope the second reflection pass proposes nothing if and only if
  there are at most 10 insights and every subject is a single word (`IdempotentIff`). After enough passes the loop falls
  silent if and only if every subject is a single word and there are at most 500 insights; otherwise every pass
  proposes something (`FallsSilentIff`). An insight about "a b" suppresses one about "a" (`MakesKnownIff`).
- "A gate refusal is recorded, never retried": with single-word subjects an insight of one pass is proposed again by the
  next if and only if its confidence is below the gate (`ProposedAgainIff`).
- A schedule entry whose time text is no time is accepted, and every tick that comes to it with budget to spare raises
  (`TickFiresFirstReady`). Unless it was registered disabled, no entry behind it ever fires again (`JamIsForEver`).
- DAILY and WEEKLY entries never fire: their due time is always later than now (`DailyAndWeeklyNeverFire`). A ONCE entry
  fires again after every cooldown unless its limit is 1 (`OnceIsOneShotIff`). An INTERVAL entry keeps its interval only
  if the cooldown is at least as long or its limit is 1, and its due time is not "the first > now"
  (`IntervalIsKeptIff`, `IntervalDue`).
- A degraded skill can climb back to TRUSTED without any new evaluation if and only if its lifetime record still meets
  the threshold (`ReclimbsUnevaluatedIff`).
- A webhook whose event type is a list or an object raises instead of being refused (`AcceptedIff`).
- The orphan check of plan validation can never fire after the cycle check has passed (`Validate`).

## Model

| member | source | states |
|---|---|---|
| PlanGraph.AcyclicIffListing | src/xenopus/runtime/plan.py:114-137 | a graph with known dependencies has a topological listing of all its nodes iff it has no dependency cycle |
| PlanGraph.MissingMeansReady | src/xenopus/runtime/plan.py:126-137 | while a node of an acyclic graph is unlisted some node is ready, so Kahn's loop never stops early |
| PlanGraph.GreedyIsLeast | src/xenopus/runtime/plan.py:119-135 | always placing the smallest ready id gives the lexicographically least topological order |
| PlanGraph.LeastListingUnique | src/xenopus/runtime/plan.py:114-118 | the least order is unique, so it depends on the graph and not on dictionary order |
| PlanGraph.FullListingLength | src/xenopus/runtime/plan.py:114-118 | an order lists every node exactly once |
| PlanEngine.CycleSearch.Visit | src/xenopus/runtime/plan.py:147-158 | the nested search returns a real closed dependency path, or finishes its node with the path restored and finished nodes in dependency order |
| PlanEngine.CycleSearch.VisitDependencies | src/xenopus/runtime/plan.py:150-155 | a gray dependency closes a cycle; otherwise all dependencies of the node end up black |
| PlanEngine.FindCycle | src/xenopus/runtime/plan.py:141-163 | None exactly when the graph is acyclic, otherwise a real dependency cycle |
| PlanEngine.ReachableFromRoots | src/xenopus/runtime/plan.py:165-184 | the set is a fixpoint, and with known dependencies covers all nodes iff the graph is acyclic |
| PlanEngine.CoveredIffAcyclic | src/xenopus/runtime/plan.py:165-184 | any set closed under "all dependencies seen" and reached step by step is everything iff there is no cycle |
| PlanEngine.Validate | src/xenopus/runtime/plan.py:95-112 | accepts exactly the non-empty, closed, acyclic plans, and what it reports is really there; orphans are never reported |
| PlanEngine.Create | src/xenopus/runtime/plan.py:193-206 | succeeds exactly for an active goal, distinct ids and a valid graph, and then holds exactly those nodes |
| PlanEngine.SummariesOfDistinct | src/xenopus/runtime/plan.py:199-206 | with distinct ids every node keeps its own summary |
| PlanEngine.GraphOfDistinct | src/xenopus/runtime/plan.py:199-206 | with distinct ids every node keeps its own dependencies |
| Ordering.StrLeTells | src/xenopus/runtime/plan.py:126 | ids compare by their first different character, a prefix first |
| PlanEngine.TopologicalOrder | src/xenopus/runtime/plan.py:114-137 | succeeds exactly on valid plans, with the lexicographically least topological order |
| PlanEngine.KahnOrder | src/xenopus/runtime/plan.py:119-137 | Kahn's loop with a sorted frontier terminates with the least listing |
| PlanEngine.KahnStep | src/xenopus/runtime/plan.py:126-135 | one round places the smallest ready node and keeps the in-degrees equal to the outstanding dependencies |
| PlanEngine.LoweredCounts | src/xenopus/runtime/plan.py:129-133 | decrementing the dependents keeps every in-degree exact, and those at zero are the newly free nodes |
| Layering.DependencyLayers | src/xenopus/runtime/orchestrator.py:317-332 | the layers are the nodes by length of their longest dependency chain, each in topological order, none empty |
| Layering.DependencyIsShallower | src/xenopus/runtime/orchestrator.py:323-328 | dependencies lie in strictly earlier layers |
| Layering.LayersPartition | src/xenopus/runtime/orchestrator.py:317-332 | every node is in exactly one layer, once |
| Layering.FewestLayers | src/xenopus/runtime/orchestrator.py:317-332 | no assignment with dependencies strictly earlier uses fewer layers |
| Layering.LayersAreHeight | src/xenopus/runtime/orchestrator.py:317-332 | the number of layers is the length of the longest chain |
| Layering.GateOnLayers | src/xenopus/runtime/orchestrator.py:83-101 | on non-empty layers the gate allows exactly when 10 times the layers is at most 9 times the nodes |
| Layering.GateTells | src/xenopus/runtime/orchestrator.py:43-101 | on non-empty layers: overhead, benefit and ratio of the estimate, the decision, and which of the reasons it gives |
| Layering.NoFanOutMeansNoBenefit | src/xenopus/runtime/orchestrator.py:43-57 | the estimated benefit is zero exactly when no layer has two nodes |
| Layering.GateOnPlan | src/xenopus/runtime/orchestrator.py:83-101 | a plan of N nodes with longest chain L may run in parallel iff 10 L <= 9 N |
| Orchestration.CompletesUnfold | src/xenopus/runtime/orchestrator.py:213-250 | a node completes iff its own runner was admitted, returned and said COMPLETED, and the same holds of all its transitive dependencies |
| Orchestration.Noninterference | src/xenopus/runtime/orchestrator.py:213-250 | two runs, even of different plans, that agree on a node and its ancestors give it the same result |
| Orchestration.Classify | src/xenopus/runtime/orchestrator.py:213-232 | a layer's runnable nodes are those all of whose dependencies complete |
| Orchestration.RunLayer | src/xenopus/runtime/orchestrator.py:238-248 | over nodes whose contracts can be built: a node joins the completed set iff its own result is COMPLETED; the runner is called for the admitted ones |
| Orchestration.Execute | src/xenopus/runtime/orchestrator.py:195-284 | refuses exactly invalid plans and plans the gate refuses; past the gate raises without a report exactly when a runnable node has a blank summary; otherwise reports each layer and has called runners for exactly the runnable admitted nodes, dependencies first |
| Orchestration.NeverRaisesIff | src/xenopus/runtime/orchestrator.py:275-284 | past the gate a plan never raises, whatever its agents do, iff no node has a blank summary |
| Orchestration.OneBlankNode | src/xenopus/runtime/agent.py:88-94 | the one-node plan with an empty summary is valid and raises |
| Orchestration.ExecuteLayer | src/xenopus/runtime/orchestrator.py:213-250 | one layer raises exactly when a runnable node of it has a blank summary; otherwise it reports the expected results and completes exactly the completing nodes |
| Orchestration.OneResultPerNode | src/xenopus/runtime/orchestrator.py:195-263 | every report holds exactly one result for every node, the one its ancestors determine |
| Orchestration.RunOneCompletesIff | src/xenopus/runtime/orchestrator.py:276-310 | a refused, timed-out, crashed or blocked node never counts as completed, a returned one iff its result says COMPLETED |
| Orchestration.LayerTells | src/xenopus/runtime/orchestrator.py:213-250 | the results of a layer one by one: runnable nodes, then blocked ones, in layer order; blocked, refused and crashed ones FAILED, timed-out ones TIMEOUT, returned ones as they are |
| Orchestration.ReportTells | src/xenopus/runtime/orchestrator.py:195-263 | every node has such a result in the report of its own layer |
| Orchestration.ReportIsHonest | src/xenopus/runtime/orchestrator.py:138-151 | COMPLETED iff confidence is 1 iff no task is incomplete, FAILED iff none completed, and the counts agree |
| PoolRules.PermitsConserved | src/xenopus/runtime/agent_pool.py:145-183 | over every interleaving free permits plus live runs equal max_concurrent |
| PoolRules.ReleaseIsIdempotent | src/xenopus/runtime/agent_pool.py:176-183 | repeating a release changes nothing and returns no second permit |
| PoolRules.RefusedBecause | src/xenopus/runtime/agent_pool.py:145-158 | which of the three limits refuses an acquire; one within all of them waits for a permit |
| PoolRules.DepthBound | src/xenopus/runtime/agent_pool.py:145-147 | no run deeper than the limit or than its own profile's bound is ever admitted |
| PoolRules.TotalBound | src/xenopus/runtime/agent_pool.py:145-172 | total spawned is at most max_total - 1 plus the peak of overlapping acquires |
| PoolRules.ChildBound | src/xenopus/runtime/agent_pool.py:148-173 | the same bound for the children of every parent |
| PoolPromises.TotalBoundIsTight | src/xenopus/runtime/agent_pool.py:145-172 | with max_total > max_concurrent the bound is reached for every peak, by a first-in-first-out run |
| PoolPromises.TotalPromiseIff | src/xenopus/runtime/agent_pool.py:88-93 | the documented limit on totals holds on every run iff max_total <= max_concurrent |
| PoolPromises.ChildPromiseIff | src/xenopus/runtime/agent_pool.py:148-152 | the child budget of a parent holds on every run under the same condition; otherwise it gets any number of children |
| PoolRules.HealthyIffNeverFlagged | src/xenopus/runtime/agent_pool.py:185-216 | from its admission on a live run is HEALTHY iff no watchdog pass has flagged it |
| PoolRules.EventsTell | src/xenopus/runtime/agent_pool.py:185-216 | a run is live until its release; its last heartbeat is its latest one or its admission; it is HEALTHY iff no pass found it lapsed and RECOVERING iff a heartbeat came after such a pass |
| PoolRules.FlaggedIff | src/xenopus/runtime/agent_pool.py:185-216 | from the events alone: a pass flags a run iff it has not been released, its admission and its latest heartbeat lie more than the timeout back, and no earlier pass found that |
| PoolRules.SecondLapseIsMissed | src/xenopus/runtime/agent_pool.py:201-216 | a run that is flagged, recovers with a heartbeat and lapses again is missed |
| AgentPooling.AgentPool.BeginAcquire | src/xenopus/runtime/agent_pool.py:145-158 | acquire up to its await: refuses with the first violated limit or starts waiting |
| AgentPooling.AgentPool.FinishAcquire | src/xenopus/runtime/agent_pool.py:159-174 | acquire after its await: takes the permit, registers the run, counts it |
| AgentPooling.AgentPool.ReleaseRun | src/xenopus/runtime/agent_pool.py:176-183 | release is the release step of the protocol |
| AgentPooling.AgentPool.Watch | src/xenopus/runtime/agent_pool.py:201-216 | flags exactly the live HEALTHY runs whose heartbeat lapsed |
| Aggregation.DedupeByContent | src/xenopus/runtime/aggregator.py:257-267 | the seen-set loop keeps the first claim in rank of each content |
| Aggregation.GroupByKey | src/xenopus/runtime/aggregator.py:206-210 | the dictionary holds each key's claims in input order |
| Aggregation.Aggregate | src/xenopus/runtime/aggregator.py:199-254 | the loops compute the report of the claims |
| EvidenceRules.DedupeFacts | src/xenopus/runtime/aggregator.py:257-267 | de-duplication keeps distinct contents in rank order, each represented by a claim of at least its rank |
| EvidenceRules.DedupeIsBest | src/xenopus/runtime/aggregator.py:257-267 | with distinct ids a claim survives iff it is the best of its key and content |
| EvidenceRules.JudgeFacts | src/xenopus/runtime/aggregator.py:213-240 | a conflict is reported exactly when contents differ; it is SUPERSEDED, with the top claim as winner over all others, exactly when the top claim leads every rival in evidence, and otherwise CONFLICT without a winner |
| EvidenceRules.TopIsRankMaximum | src/xenopus/runtime/aggregator.py:211-240 | a key's top claim is the rank maximum of all its claims |
| EvidenceRules.TrustedIffSeparated | src/xenopus/runtime/synthesizer.py:135-193 | the pipeline trusts iff there are claims and on every key some claim has evidence, and more than every claim that says otherwise; it never rejects |
| EvidenceRules.ConfidenceInRange | src/xenopus/runtime/aggregator.py:169-172 | the aggregate of valid claims never trips the report constructor's check |
| EvidenceRules.ConfidenceIs | src/xenopus/runtime/aggregator.py:246-254 | the mean confidence of the top claims, one for each key, less 0.25 for every key that evidence does not settle, floored at 0 |
| EvidenceRules.TopIsMostEvidenced | src/xenopus/runtime/aggregator.py:126-138 | the top claim of a key has the most evidence, then the most confidence, then the smallest id |
| EvidenceRules.ReportDependsOnBest | src/xenopus/runtime/aggregator.py:199-254 | the report depends only on the best claim of each key and content |
| EvidenceRules.OrderDoesNotMatter | src/xenopus/runtime/aggregator.py:199-254 | every permutation of the claims gives the same report |
| EvidenceRules.RepetitionDoesNotMatter | src/xenopus/runtime/aggregator.py:199-254 | any number of lower-ranked repeats of existing content changes nothing |
| EvidenceRules.VotesDoNotWin | src/xenopus/runtime/aggregator.py:126-138 | no number of claims with less evidence displaces a top claim |
| Synthesis.Synthesize | src/xenopus/runtime/synthesizer.py:135-193 | the loop computes the synthesis of the report |
| Synthesis.VerdictMeaning | src/xenopus/runtime/synthesizer.py:135-193 | TRUSTED iff claims exist, all are evidenced and no conflict is unresolved; never REJECTED; trust leaves no uncertainty |
| Synthesis.FindingsTell | src/xenopus/runtime/synthesizer.py:149-163 | one finding for each top claim that repeats it, contested iff its key has an unresolved conflict and superseding iff it has a resolved one |
| Synthesis.DoubtsTell | src/xenopus/runtime/synthesizer.py:164-167 | a disagreement for exactly the contested keys of top claims, missing evidence for exactly the unevidenced ones |
| Synthesis.ChecksTell | src/xenopus/runtime/synthesizer.py:169-178 | the three checks by name and when each passes |
| TaskStorage.FinalStatesEndALife | src/xenopus/persistence/tasks.py:42-62 | nothing follows COMPLETED or CANCELLED in a life |
| TaskStorage.StatesTell | src/xenopus/persistence/tasks.py:42-62 | live means CANCELLED is a legal target; only RUNNING completes, only FAILED is queued again, in flight is RUNNING or WAITING |
| TaskStorage.CreateKeeps | src/xenopus/persistence/tasks.py:149-175 | a creation keeps every task with a correlation id replaying to its state, and every task without one untold |
| TaskStorage.JournaledIff | src/xenopus/runtime/events.py:85-88 | in every state of the store the journal tells a task exactly when its correlation id is not empty, and so the whole table exactly when none is empty |
| TaskStorage.MoveKeeps | src/xenopus/persistence/tasks.py:177-197 | so does a legal transition |
| TaskStorage.MarkerKeeps | src/xenopus/persistence/tasks.py:239-245 | interruption markers do not disturb the replay |
| TaskStorage.TaskStore.Create | src/xenopus/persistence/tasks.py:138-175 | refuses a bad title or bad attempts without effect; otherwise adds a QUEUED task at attempt 1, journals it, and raises instead of journaling exactly when the correlation id is empty; keeps a complete journal complete iff it does not so raise |
| TaskStorage.TaskStore.Transition | src/xenopus/persistence/tasks.py:177-197 | moves along the legal table or changes nothing; the row moves even when the empty correlation id makes its event raise |
| TaskStorage.TaskStore.Retry | src/xenopus/persistence/tasks.py:199-208 | re-queues exactly a FAILED task below its attempt budget, raising afterwards if its correlation id is empty; attempts stay within 1 and the maximum |
| TaskStorage.UpwardClosedUnique | src/xenopus/persistence/tasks.py:261-285 | two sets of newest rows of one size are equal, so the listing window is determined |
| TaskStorage.WindowFacts | src/xenopus/persistence/tasks.py:261-285 | the window is the newest min(100, all) rows |
| TaskStorage.TaskStore.CancelAll | src/xenopus/persistence/tasks.py:210-226 | completes iff no live task of the window has an empty correlation id, and then has cancelled exactly the live tasks of the window, journaled each and returns them in order; otherwise it has cancelled exactly those up to the first such one and journaled those before it |
| TaskStorage.TaskStore.MarkInterrupted | src/xenopus/persistence/tasks.py:228-246 | the same for the in-flight tasks of the window, which become RESUMABLE, with a move and a marker journaled for each |
| TaskStorage.KillSwitchStops | src/xenopus/persistence/tasks.py:293-297 | two creations, the newer one with an empty correlation id: the kill switch raises and leaves the older task live |
| TaskStorage.SweepKeepsWindow | src/xenopus/persistence/tasks.py:210-226 | the window holds the same tasks after a sweep that completes |
| TaskStorage.SweepIsIdempotent | src/xenopus/persistence/tasks.py:210-226 | a second sweep finds nothing to do after one that completes |
| TaskStorage.SweepCompleteIff | src/xenopus/persistence/tasks.py:210-226 | after a sweep that completes no live task remains iff all were in the window: always up to 100 tasks, never with more than 100 live ones |
| TaskStorage.SurvivorsBeyondAPage | src/xenopus/persistence/tasks.py:210-226 | after n > 100 creations the kill switch leaves a live task |
| Approvals.ApprovalLedger.CreateRequest | src/xenopus/runtime/approval.py:94-120 | creation refuses a validity that is not positive and otherwise numbers a PENDING request |
| Approvals.ApprovalLedger.Decide | src/xenopus/runtime/approval.py:126-136 | only a PENDING request is granted or denied |
| Approvals.ApprovalLedger.ResolveRequest | src/xenopus/runtime/approval.py:138-165 | status, then deadline (with the change to EXPIRED), then subject and hash |
| Approvals.ResolveTells | src/xenopus/runtime/approval.py:138-165 | the answer names the first thing wrong with a presented request: unknown, not granted, out of time (which expires it), another subject, another action |
| Approvals.ApprovalStore.ResolveRequest | src/xenopus/persistence/approvals_store.py:159-181 | the same over the table |
| Approvals.ApprovalStore.ReapExpired | src/xenopus/persistence/approvals_store.py:183-193 | the loop of updates expires exactly the granted rows at or past their deadline and returns them |
| Approvals.ReapTells | src/xenopus/persistence/approvals_store.py:183-193 | a sweep expires exactly the grants whose deadline has come, leaves every other row alone and returns those rows in order |
| Approvals.RestartCollides | src/xenopus/persistence/approvals_store.py:107-141 | reopened over n numbered rows the first n creations collide with the primary key and later ones succeed |
| Approvals.StepSimulates | src/xenopus/persistence/approvals_store.py:110-181 | ledger and store stay related through every command and answer alike, but for a swept resolve at the deadline |
| Approvals.SweepSimulates | src/xenopus/persistence/approvals_store.py:183-193 | a sweep keeps them related |
| Approvals.AnswersAgree | src/xenopus/persistence/approvals_store.py:110-193 | on every timed history with sweeps anywhere both accept and reject alike, except resolves exactly at the deadline |
| Approvals.SweepMattersIff | src/xenopus/persistence/approvals_store.py:183-193 | a sweep before a command changes its answer iff it is a matching resolve of a grant at its deadline |
| Approvals.RepliesEqualFromEmpty | src/xenopus/runtime/approval.py:94-195 | without sweeps every reply of the two is identical, errors included |
| ToolGateways.ToolGateway.Invoke | src/xenopus/tools/gateway.py:78-188 | the pipeline in its order: registry, permission, risk, approval, handler |
| ToolGateways.AlwaysAccounted | src/xenopus/runtime/approval.py:94-195 | in every reachable state the registry, the quarantine and each ledger record tell what the history did |
| ToolGateways.ResolveIffAuthorised | src/xenopus/runtime/approval.py:138-165 | a resolve succeeds iff the history created, first granted and did not outlive the request for this action |
| ToolGateways.HandledIff | src/xenopus/tools/gateway.py:93-188 | over every history a handler is called iff the tool is usable, nothing denies, and the call needs no approval or is authorised |
| ToolGateways.RefusedIff | src/xenopus/tools/gateway.py:93-188 | which refusal a call gets, from the history and the fields of the call |
| ToolGateways.OfferedIff | src/xenopus/tools/gateway.py:137-152 | exactly the calls to usable tools that need an approval and bring none are offered one, under an id never used before |
| ToolGateways.InvalidBecause | src/xenopus/tools/gateway.py:153-163 | why a presented request is not accepted: undecided, denied, out of time, or for another action |
| ToolGateways.LapsesOnce | src/xenopus/runtime/approval.py:152-156 | the first call past the deadline expires the request, every later one finds it expired |
| ToolGateways.ApprovalWorks | src/xenopus/tools/gateway.py:137-163 | a call that was offered an approval which is granted first is handled when it brings it back, exactly while the tool is usable and until the deadline |
| ToolGateways.GrantedAtOnce | src/xenopus/tools/gateway.py:137-163 | asked, granted at once and called again in time: handled |
| ToolGateways.NeverAuthorisesAgain | src/xenopus/runtime/approval.py:126-165 | a denied or expired request never authorises again, whatever follows |
| ToolGateways.GrantsAreReusable | src/xenopus/tools/gateway.py:139-163 | a grant is not consumed: after any further history the same call is handled exactly while the tool is usable and the deadline has not passed |
| ContextAssembly.Assemble | src/xenopus/runtime/context.py:72-101 | errors exactly for a bad budget or an oversized protected part, in this order; otherwise message i is the message of the i-th segment that is sent |
| ContextAssembly.SelectNewest | src/xenopus/runtime/context.py:88-97 | the backwards loop keeps what fits, newest first |
| ContextAssembly.AssembledIsChoice | src/xenopus/runtime/context.py:85-101 | what is sent is the newest-first choice, as a multiset, with every protected segment |
| ContextAssembly.WithinBudget | src/xenopus/runtime/context.py:72-101 | the total stays within the budget |
| ContextRules.BestAtIff | src/xenopus/runtime/context.py:88-97 | at one accepted budget, for any estimates: every other feasible choice loses at the newest segment where it differs iff no dropped segment would fit with all that older segments give back |
| ContextRules.AlwaysBestIff | src/xenopus/runtime/context.py:72-101 | the same for every accepted budget at once, for any estimates: iff nothing that costs nothing or less is reached with nothing left, and nothing is dropped while an older segment gives something back |
| ContextRules.BestIff | src/xenopus/runtime/context.py:88-97 | for lists without a negative droppable estimate: every other feasible choice loses at the newest segment where it differs, for every accepted budget, iff the budget can never be used up before a segment that costs nothing |
| ContextRules.FreeIsSafeIff | src/xenopus/runtime/context.py:91-93 | for lists without any negative estimate that means: no free droppable segment beside a paid protected one or a newer paid one |
| ContextRules.MessagesAreChosenBest | src/xenopus/runtime/context.py:51-57 | segments made from messages cost at least one token, so their choice is always the best |
| ContextAssembly.EstimateTells | src/xenopus/runtime/context.py:51-57 | an estimate is the number of whole groups of four characters, at least one |
| ContextRules.NegativeIsMisjudged | src/xenopus/runtime/context.py:35-48 | with a negative estimate, which the constructor accepts, the newest segment can be dropped although it would fit |
| ContextRules.NothingPaidIsDropped | src/xenopus/runtime/context.py:35-48 | beside protected segments that cost something, a droppable segment with a zero or negative estimate is dropped although it fits |
| ContextRules.FreeSegmentIsDropped | src/xenopus/runtime/context.py:91-93 | the smallest case of a free segment that is dropped although it fits |
| ContextRules.OrderKeptIffContiguous | src/xenopus/runtime/context.py:98-101 | the original order is kept for every accepted budget iff equal segments are contiguous |
| ContextRules.SentInOrder | src/xenopus/runtime/context.py:98-101 | where equal segments are contiguous the result is the messages of the chosen segments, oldest first |
| RateWindows.PrunedDecidesAsFull | src/xenopus/runtime/notifications.py:118-125 | the pruned limiter decides as the full history would |
| RateWindows.AtMostLimitPerWindow | src/xenopus/web/webhooks.py:81-89 | no sixty seconds hold more admissions than the limit |
| RateWindows.WindowCounter.Allow | src/xenopus/runtime/notifications.py:118-125 | prunes and records on admission, leaves the list alone on refusal |
| RateWindows.RateBucket.Allow | src/xenopus/web/webhooks.py:81-89 | prunes in both cases and records on admission |
| Webhooks.NonceRegistry.CheckFresh | src/xenopus/web/webhooks.py:62-71 | drops what is older than the TTL, then checks and records |
| Webhooks.WebhookHandlers.BeginAttempt | src/xenopus/web/webhooks.py:154-165 | the checks before the body: source and rate limit, at one clock reading |
| Webhooks.WebhookHandlers.FinishAttempt | src/xenopus/web/webhooks.py:165-189 | the checks after the body, with the nonce looked up under the earlier clock reading |
| WebhookRules.RateLimitedIff | src/xenopus/web/webhooks.py:154-166 | a known source is limited iff it got past the limit that often in the last minute, over the whole history |
| WebhookRules.BegunIff | src/xenopus/web/webhooks.py:154-165 | an attempt awaits its body iff its source is known and got past the limit less often in the last minute |
| WebhookRules.PassesPerMinute | src/xenopus/web/webhooks.py:154-166 | no source passes more often than the limit in any sixty seconds |
| WebhookRules.AlwaysRemembers | src/xenopus/web/webhooks.py:62-71 | in every history, bodies arriving in any order, the registry holds exactly the surviving record of a nonce |
| WebhookRules.ReplayedIff | src/xenopus/web/webhooks.py:62-71 | a nonce is a replay iff for some record of it no attempt of its source that finished since, this one included, began more than the TTL after it |
| WebhookRules.AcceptedIff | src/xenopus/web/webhooks.py:165-203 | over every history a finished attempt creates a task iff its body is small enough, signed, in time, of type task.create, with a nonempty nonce that is no replay and a title that is not blank; otherwise it is told the first of these that fails |
| WebhookRules.ScreeningTells | src/xenopus/web/webhooks.py:166-183 | the order of the checks between body and nonce, on the fields of the body |
| WebhookRules.TasksAreApart | src/xenopus/web/webhooks.py:154-189 | two tasks of one source and nonce are more than the TTL less the overtaking bound apart |
| WebhookRules.OneTaskPerWindow | src/xenopus/web/webhooks.py:154-189 | at most one task per TTL window if bodies arrive in the order of their attempts |
| WebhookRules.TwoTasksAtOnce | src/xenopus/web/webhooks.py:154-189 | a run of three attempts in which one nonce creates two tasks whose attempts began at the same instant |
| WebhookRules.WindowIff | src/xenopus/web/webhooks.py:154-189 | tasks of one nonce are more than w apart on every history with overtaking within d iff w is at most the TTL less d |
| Notifications.QuietIsCircular | src/xenopus/runtime/notifications.py:47-53 | quiet hours are the circular interval from start to end, across midnight or not |
| Notifications.NotificationRouter.RouteOne | src/xenopus/runtime/notifications.py:181-217 | silent, quiet hours, limit, digest, delivery, in this order |
| Notifications.NotificationRouter.RouteEvent | src/xenopus/runtime/notifications.py:170-218 | the loop over the subscribers and what it returns; raises exactly with a journal, a subscriber and an empty correlation id, and has then treated the first subscriber only |
| Notifications.RouteAllDesks | src/xenopus/runtime/notifications.py:170-218 | after k subscribers the first k have been treated as if each were alone and the others are untouched |
| Notifications.RoutedAloneIff | src/xenopus/runtime/notifications.py:248-260 | every subscriber is treated as if it were alone iff there is no journal, a correlation id, or at most one subscriber; otherwise the first one only |
| Notifications.DeliveredTells | src/xenopus/runtime/notifications.py:215-218 | a routing returns a copy for each subscriber it delivered to, under its name, in the order of subscription |
| Notifications.NotificationRouter.FlushDigest | src/xenopus/runtime/notifications.py:220-246 | hands over what is held, once, and touches no other subscriber |
| Notifications.DigestConserved | src/xenopus/runtime/notifications.py:170-246 | over every run, what was held has been flushed or is still held, in order of arrival |
| Notifications.RateIsKept | src/xenopus/runtime/notifications.py:200-207 | what passes outside quiet hours stays within the limit in any sixty seconds |
| Notifications.OutcomeIff | src/xenopus/runtime/notifications.py:181-217 | over every run, when a notification is silenced, held or dropped in quiet hours, limited, digested or delivered |
| Notifications.CriticalDeliveredIff | src/xenopus/runtime/notifications.py:181-217 | a critical notification is delivered iff fewer than the limit passed in the last minute |
| Notifications.OneCriticalTooMany | src/xenopus/runtime/notifications.py:181-217 | of limit + 1 critical notifications at one instant the last is held back |
| MemoryStorage.PageFacts | src/xenopus/memory/store.py:205-222 | the page holds every match up to the limit, and beyond that only matches ranked no lower than the rest |
| MemoryStorage.SearchFacts | src/xenopus/memory/store.py:205-225 | a search finds what the page holds of the kinds it asks for; the page is cut before the kinds are |
| MemoryStorage.MemoryStore.Create | src/xenopus/memory/store.py:99-116 | a sound draft becomes a CANDIDATE with the stripped content, the expiry of its lifetime, and the rest of its fields |
| MemoryStorage.MemoryStore.Promote | src/xenopus/memory/store.py:118-126 | becomes ACTIVE exactly when it is a CANDIDATE with evidence and enough confidence |
| MemoryStorage.DraftTells | src/xenopus/memory/store.py:99-116 | what a draft is refused for: its lifetime, then its content, then its confidence |
| MemoryStorage.MatchesIff | src/xenopus/memory/store.py:205-222 | which rows a query selects |
| Text.WordsOfStrip | src/xenopus/runtime/learning.py:105-117 | stripping does not change the words of a text |
| Text.StripTells | src/xenopus/memory/store.py:104 | stripping removes white space at both ends and nothing else |
| Reflection.RoundTripIff | src/xenopus/runtime/learning.py:55-117 | stored content leads back to its insight's fingerprint iff the subject is one word |
| Reflection.MakesKnownIff | src/xenopus/runtime/learning.py:105-117 | one insight makes another known iff they are of one kind and the other's subject is the first word of the one's |
| Reflection.ParsedIff | src/xenopus/runtime/learning.py:105-117 | stored text is taken for an insight iff its words begin with "tool w" or "agent role w" |
| ReflectionRules.SuppressedByForeign | src/xenopus/runtime/learning.py:158-229 | a row that such a foreign insight left keeps the genuine one from being proposed |
| Reflection.FingerprintInjective | src/xenopus/runtime/learning.py:100-102 | different insights have different fingerprints |
| Reflection.InsightsAreNotable | src/xenopus/runtime/learning.py:195-212 | the insights are exactly the subjects with 3 failures and a success rate below 0.9 |
| Reflection.NotableTells | src/xenopus/runtime/learning.py:195-212 | notable means at least 3 failures and a rate below 0.9 |
| Reflection.InsightsInOrder | src/xenopus/runtime/learning.py:195-212 | agents come before tools, and each kind by subject |
| Reflection.InsightsAreWellNamed | src/xenopus/runtime/learning.py:195-212 | they have pairwise different fingerprints |
| Reflection.DeriveInsights | src/xenopus/runtime/learning.py:195-212 | agents first, then tools, each by subject |
| Reflection.ReflectionLoop.KnownFingerprints | src/xenopus/runtime/learning.py:214-229 | the fingerprints of the found memories |
| Reflection.ReflectionLoop.Run | src/xenopus/runtime/learning.py:158-193 | writes exactly the first ten unknown insights, promotes what the gate lets pass, records refusals, touches nothing else |
| Reflection.RowTells | src/xenopus/runtime/learning.py:55-84 | the row of an insight field by field: kind, scope, confidence, evidence, expiry, and ACTIVE iff the gate lets it pass |
| ReflectionRules.ScopeGrows | src/xenopus/runtime/learning.py:158-193 | under the default gate everything a pass writes is promoted and findable |
| ReflectionRules.Catching | src/xenopus/runtime/learning.py:158-229 | from any start, k passes make the first 10 k unknown insights known |
| ReflectionRules.PassesPromoteInBatches | src/xenopus/runtime/learning.py:158-229 | from an empty scope k passes promote exactly min(10 k, n) distinct insights, then nothing |
| ReflectionRules.SpacedSubjectNeverKnown | src/xenopus/runtime/learning.py:105-117 | an insight about a subject with white space is never recognised, so the loop never falls silent |
| ReflectionRules.SilentIffWithinLimit | src/xenopus/runtime/learning.py:214-229 | with every insight stored a pass is silent iff there are at most 500 |
| ReflectionRules.IdempotentIff | src/xenopus/runtime/learning.py:132-138 | from an empty scope the second pass on unchanged data proposes nothing iff there are at most 10 insights and all subjects are single words |
| ReflectionRules.FallsSilentIff | src/xenopus/runtime/learning.py:158-229 | once the passes have had room for every insight the loop is silent iff all subjects are single words and there are at most 500 insights; otherwise no table makes it silent |
| ReflectionGate.ProposedAgainIff | src/xenopus/runtime/learning.py:158-193 | with any gate: what one pass proposes the next one proposes again iff its confidence is below the gate |
| Schedules.IntervalDue | src/xenopus/runtime/scheduler.py:123-133 | an interval entry is due at its latest elapsed slot, or at its first slot before that |
| Schedules.DailyDue | src/xenopus/runtime/scheduler.py:134-140 | the least instant after now with that time of day, within a day |
| Schedules.WeeklyDue | src/xenopus/runtime/scheduler.py:141-147 | the least instant after now with that weekday and time of day, within a week |
| Schedules.DueIff | src/xenopus/runtime/scheduler.py:229-231 | what a tick finds due, for entries that have a due time: ONCE and INTERVAL entries for ever after their first time, DAILY and WEEKLY never |
| Scheduling.CorrelationInjective | src/xenopus/runtime/scheduler.py:237 | schedule id and execution number are recovered from the correlation id |
| Scheduling.Scheduler.Register | src/xenopus/runtime/scheduler.py:199-208 | an entry is appended, whether or not its time text is a time, unless its id is taken, and nothing else changes |
| Scheduling.Scheduler.RunTick | src/xenopus/runtime/scheduler.py:218-271 | the loop with its budget performs the tick step and returns its fires; raises exactly when it comes to an enabled entry without a due time before the budget is spent |
| SchedulerRules.TickFiresFirstReady | src/xenopus/runtime/scheduler.py:218-260 | a tick fires exactly the first ready entries, up to the budget and before the first enabled entry without a due time, each once; it raises iff there is such an entry and those before it leave budget |
| SchedulerRules.JamIsForEver | src/xenopus/runtime/scheduler.py:134-147 | behind an enabled entry whose time text is no time every entry keeps its state in every run, and what is registered later never fires |
| SchedulerRules.RunKeeps | src/xenopus/runtime/scheduler.py:218-271 | every run keeps the entries and the fire log in accord |
| SchedulerRules.RunPromises | src/xenopus/runtime/scheduler.py:218-271 | over every run fires of an entry are a cooldown apart, never beyond its limit, and all correlation ids differ |
| SchedulerRules.DailyAndWeeklyNeverFire | src/xenopus/runtime/scheduler.py:134-147 | no daily or weekly entry, and none without a due time, fires in any run |
| SchedulerRules.OnceIsOneShotIff | src/xenopus/runtime/scheduler.py:119-121 | a ONCE entry fires at most once in every run iff its limit is 1 |
| SchedulerRules.IntervalIsKeptIff | src/xenopus/runtime/scheduler.py:229-236 | an INTERVAL entry keeps its interval in every run iff the cooldown is as long or its limit is 1 |
| Skills.StandsSomewhere | src/xenopus/skills/registry.py:113-132 | every stage a skill stands in was entered through the gate, and its trust date is unchanged since |
| Skills.TrustIsEarned | src/xenopus/skills/types.py:191-255 | a TRUSTED skill entered STAGED, EVALUATED and EXPERIMENTAL by the gate before, was promoted on 3 evaluations at a rate of 0.75, and stayed TRUSTED since |
| Skills.DegradedWasTrusted | src/xenopus/skills/types.py:237-253 | a DEGRADED skill had earned TRUSTED before, and was demoted for a rate of at most 0.4 over at least 2 evaluations since that promotion |
| Skills.EvaluationsGrow | src/xenopus/skills/registry.py:95-111 | evaluations are only appended |
| Skills.SupersededIsFinal | src/xenopus/skills/types.py:38-50 | SUPERSEDED is final |
| Skills.GateTells | src/xenopus/skills/types.py:191-255 | the gate allows exactly the moves of the ladder that have their evidence, and tells the two refusals apart |
| Skills.ThresholdsTell | src/xenopus/skills/types.py:191-255 | the three thresholds in terms of the success rate |
| Skills.ReclimbsUnevaluatedIff | src/xenopus/skills/types.py:207-236 | a degraded skill can regain trust without a new evaluation iff its lifetime record meets the threshold |
| Skills.DegradedYetTrustworthy | src/xenopus/skills/types.py:207-253 | a life in which that happens to a skill that ran since its promotion and failed every time |
| Skills.SkillRegistry.Register | src/xenopus/skills/registry.py:67-93 | a new skill is a CANDIDATE under an unused name |
| Skills.SkillRegistry.RecordEvaluation | src/xenopus/skills/registry.py:95-111 | appends one evaluation and nothing else |
| Skills.SkillRegistry.AdvanceStage | src/xenopus/skills/registry.py:113-132 | moves exactly when the gate allows and reports its refusal otherwise; the trust date changes only on promotion |
| Skills.SkillRegistry.Supersede | src/xenopus/skills/registry.py:134-146 | retires any skill that is not superseded yet |

## Left out

- Interfaces (CLI, TUI, web pages, chat and model adapters), providers and routing: plumbing over libraries that are not
  part of this model.
- SQLite, threads and crashes between a table commit and its journal event. The call stack is taken to be unbounded:
  the cycle search recurses along dependencies, and a chain of about a thousand nodes exceeds the default limit.
- Cryptography: the hash is injective and the signature is a boolean.
- Goals other than whether the plan's goal is active, and the fields of a plan node other than its id, summary and
  dependencies.
- Reliability recording and profiles in the orchestrator; the handler's own result in the gateway.
- Permission and risk engines: their answers are part of an invocation. Argument values are strings, and the path policy
  and the recycle bin only change the handler's arguments.
- Sort stability: evidence references count by their number only, and equal ranks need equal ids.
- Run: store failures that abort a pass, and the evaluation of staged skills, are not part of the model.
- Memory: rejection, supersession, expiry and counters. What a text pattern matches is part of the query. How the
  statistics are rendered inside an insight's content is a parameter, so the results hold for every rendering.
- RunTick: the maintenance jobs after the fires, which touch neither entries nor log and which a raise skips, are not
  part of the model.
- Scheduler: which texts are times, and the task created by a fire beyond its title and correlation id.
- Notifications: fresh ids, the text of a digest summary, and the two clock reads of one routing, which are one instant.
- Skills: the fields of a schema other than its name, search, and evaluations with negative counts.
- Webhooks: header and body parsing, secrets from the environment, the text of responses, and the HTTP answer when an
  event type that cannot be hashed raises.
- Session store, recycle bin, file and terminal tools, agent and goal state machines.
- Watch: returns the flagged runs as a set, because the order of the list has no effect.
- Execute: that the profile hook does not raise and that runners return results is assumed of these oracles; when an
  execution raises, which siblings of the blank node have been started is not stated.
