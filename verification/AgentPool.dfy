/** The agent pool as a protocol of interleaved steps.

    `acquire` has one suspension point: it checks the depth, child and total
    limits, awaits a permit, and only then registers the run and counts it.
    A step is either half of an acquire, a cancellation of a suspended acquire,
    a release, a heartbeat or a watchdog pass.  The semaphore is a counter of
    free permits; any suspended acquire may be the one that gets the next permit.
*/
module AgentPooling {
  import opened Ordering

  datatype Limits = Limits(maxConcurrent: nat, maxDepth: nat, maxChildren: nat, maxTotal: nat, heartbeatTimeout: int) {
    /** The checks of `PoolLimits.__post_init__`. */
    predicate Valid() {
      maxConcurrent >= 1 && maxDepth >= 1 && maxChildren >= 1 && maxTotal >= 1 && heartbeatTimeout > 0
    }
  }

  datatype Health = HEALTHY | STUCK | RECOVERING

  datatype Entry = Entry(taskId: Id, depth: int, profileMaxDepth: int, health: Health, lastHeartbeat: int)

  /** An acquire: what it asks for, and the depth bound of its own profile. */
  datatype Ticket = Ticket(taskId: Id, depth: int, profileMaxDepth: int, parent: Option<Id>)

  datatype Pool = Pool(
    permits: nat, live: map<Id, Entry>, totalSpawned: nat, children: map<Id, nat>, waiting: seq<Ticket>)

  datatype AdmissionError = TooDeep | ChildBudgetExhausted | TotalExhausted

  datatype Event =
    | Check(ticket: Ticket)
    | Admit(index: nat, runId: Id, now: int)
    | Cancel(index: nat)
    | Release(runId: Id)
    | Heartbeat(runId: Id, now: int)
    | DetectStuck(now: int)

  function ChildCount(s: Pool, parent: Id): nat {
    if parent in s.children then s.children[parent] else 0
  }

  /** The limit checks at the start of `acquire`. */
  function Refusal(l: Limits, s: Pool, t: Ticket): Option<AdmissionError> {
    if t.depth > l.maxDepth || t.depth > t.profileMaxDepth then Some(TooDeep)
    else if t.parent.Some? && ChildCount(s, t.parent.value) >= l.maxChildren then Some(ChildBudgetExhausted)
    else if s.totalSpawned >= l.maxTotal then Some(TotalExhausted)
    else None
  }

  predicate Silent(l: Limits, e: Entry, now: int) {
    now - e.lastHeartbeat > l.heartbeatTimeout && e.health == HEALTHY
  }

  /** The live runs after a watchdog pass. */
  function Watched(l: Limits, live: map<Id, Entry>, now: int): (r: map<Id, Entry>)
    ensures r.Keys == live.Keys && |r| == |live|
  {
    var r := map r | r in live :: if Silent(l, live[r], now) then live[r].(health := STUCK) else live[r];
    assert r.Keys == live.Keys && |r| == |r.Keys| && |live| == |live.Keys|;
    r
  }

  /** One step.  An event that cannot happen in `s` leaves it unchanged. */
  function Step(l: Limits, s: Pool, e: Event): Pool {
    match e
    case Check(t) =>
      if Refusal(l, s, t).Some? then s else s.(waiting := s.waiting + [t])
    case Admit(i, runId, now) =>
      if i < |s.waiting| && s.permits > 0 && runId !in s.live then
        var t := s.waiting[i];
        Pool(s.permits - 1,
             s.live[runId := Entry(t.taskId, t.depth, t.profileMaxDepth, HEALTHY, now)],
             s.totalSpawned + 1,
             if t.parent.Some? then s.children[t.parent.value := ChildCount(s, t.parent.value) + 1] else s.children,
             Without(s.waiting, i))
      else s
    case Cancel(i) =>
      if i < |s.waiting| then s.(waiting := Without(s.waiting, i)) else s
    case Release(runId) =>
      if runId in s.live then s.(permits := s.permits + 1, live := s.live - {runId}) else s
    case Heartbeat(runId, now) =>
      if runId in s.live then
        var entry := s.live[runId];
        s.(live := s.live[runId :=
          entry.(lastHeartbeat := now, health := if entry.health == STUCK then RECOVERING else entry.health)])
      else s
    case DetectStuck(now) =>
      s.(live := Watched(l, s.live, now))
  }

  function Initial(l: Limits): Pool {
    Pool(l.maxConcurrent, map[], 0, map[], [])
  }

  /** The runs that a watchdog pass at this point would flag. */
  function Flagged(l: Limits, s: Pool, now: int): set<Id> {
    set r | r in s.live && Silent(l, s.live[r], now)
  }

  // ------------------------------------------------------- the class

  class AgentPool {
    const limits: Limits
    var permits: nat
    var live: map<Id, Entry>
    var totalSpawned: nat
    var children: map<Id, nat>
    var waiting: seq<Ticket>  // the acquires suspended at the semaphore

    function State(): Pool
      reads this
    {
      Pool(permits, live, totalSpawned, children, waiting)
    }

    constructor (l: Limits)
      requires l.Valid()
      ensures limits == l && State() == Initial(l)
    {
      limits := l;
      permits := l.maxConcurrent;
      live, totalSpawned, children, waiting := map[], 0, map[], [];
    }

    /** `acquire` up to its `await`. */
    method BeginAcquire(t: Ticket) returns (refused: Option<AdmissionError>)
      modifies this
      ensures State() == Step(limits, old(State()), Check(t))
      ensures refused == Refusal(limits, old(State()), t)
    {
      if t.depth > limits.maxDepth || t.depth > t.profileMaxDepth {
        return Some(TooDeep);
      }
      if t.parent.Some? {
        var used := if t.parent.value in children then children[t.parent.value] else 0;
        if used >= limits.maxChildren {
          return Some(ChildBudgetExhausted);
        }
      }
      if totalSpawned >= limits.maxTotal {
        return Some(TotalExhausted);
      }
      waiting := waiting + [t];
      refused := None;
    }

    /** `acquire` after its `await`: the semaphore has let acquire `i` through. */
    method FinishAcquire(i: nat, runId: Id, now: int)
      requires i < |waiting| && permits > 0 && runId !in live
      modifies this
      ensures State() == Step(limits, old(State()), Admit(i, runId, now))
    {
      var t := waiting[i];
      waiting := Without(waiting, i);
      permits := permits - 1;
      live := live[runId := Entry(t.taskId, t.depth, t.profileMaxDepth, HEALTHY, now)];
      totalSpawned := totalSpawned + 1;
      if t.parent.Some? {
        var used := if t.parent.value in children then children[t.parent.value] else 0;
        children := children[t.parent.value := used + 1];
      }
    }

    /** The coroutine of acquire `i` is cancelled while it waits. */
    method CancelAcquire(i: nat)
      requires i < |waiting|
      modifies this
      ensures State() == Step(limits, old(State()), Cancel(i))
    {
      waiting := Without(waiting, i);
    }

    method ReleaseRun(runId: Id)
      modifies this
      ensures State() == Step(limits, old(State()), Release(runId))
    {
      if runId !in live {
        return;
      }
      live := live - {runId};
      permits := permits + 1;
    }

    method Beat(runId: Id, now: int)
      modifies this
      ensures State() == Step(limits, old(State()), Heartbeat(runId, now))
    {
      if runId in live {
        var entry := live[runId].(lastHeartbeat := now);
        if entry.health == STUCK {
          entry := entry.(health := RECOVERING);
        }
        live := live[runId := entry];
      }
    }

    method Watch(now: int) returns (stuck: set<Id>)
      modifies this
      ensures State() == Step(limits, old(State()), DetectStuck(now))
      ensures stuck == Flagged(limits, old(State()), now)
    {
      stuck := {};
      var rest := live.Keys;
      ghost var before := State();
      while rest != {}
        invariant rest <= before.live.Keys
        invariant State() == before.(live := live)
        invariant live == map r | r in before.live ::
          if r !in rest && Silent(limits, before.live[r], now) then before.live[r].(health := STUCK) else before.live[r]
        invariant stuck == set r | r in before.live && r !in rest && Silent(limits, before.live[r], now)
      {
        var r :| r in rest;
        if now - live[r].lastHeartbeat > limits.heartbeatTimeout && live[r].health == HEALTHY {
          live := live[r := live[r].(health := STUCK)];
          stuck := stuck + {r};
        }
        rest := rest - {r};
      }
    }
  }
}
