/** The durable task store and its journal.

    The table is a sequence in rowid order; every read of the wall clock
    returns a time that is not before the previous one.  A journal is attached.
    A row is written first and its event is journaled afterwards; an event with
    an empty correlation id cannot be built, so an operation on a task with such
    an id raises with the row written and nothing journaled.
*/
module TaskStorage {
  import opened Ordering
  import opened Text

  datatype TaskState = QUEUED | RUNNING | WAITING | PAUSED | RESUMABLE | COMPLETED | FAILED | CANCELLED

  /** `LEGAL_TASK_TRANSITIONS`. */
  function LegalTargets(state: TaskState): set<TaskState> {
    match state
    case QUEUED => {RUNNING, CANCELLED, FAILED}
    case RUNNING => {PAUSED, WAITING, COMPLETED, FAILED, CANCELLED, RESUMABLE}
    case WAITING => {RUNNING, PAUSED, CANCELLED, RESUMABLE}
    case PAUSED => {RUNNING, RESUMABLE, CANCELLED}
    case RESUMABLE => {RUNNING, CANCELLED, FAILED}
    case COMPLETED => {}
    case FAILED => {QUEUED}
    case CANCELLED => {}
  }

  datatype EventType =
    | TASK_CREATED | TASK_STARTED | TASK_WAITING | TASK_PAUSED | TASK_RESUMED
    | TASK_COMPLETED | TASK_FAILED | TASK_CANCELLED | TASK_INTERRUPTED

  /** `_state_event`. */
  function StateEvent(state: TaskState): EventType {
    match state
    case QUEUED => TASK_CREATED
    case RUNNING => TASK_STARTED
    case WAITING => TASK_WAITING
    case PAUSED => TASK_PAUSED
    case RESUMABLE => TASK_RESUMED
    case COMPLETED => TASK_COMPLETED
    case FAILED => TASK_FAILED
    case CANCELLED => TASK_CANCELLED
  }

  datatype JournalEvent = JournalEvent(eventType: EventType, correlationId: Id, taskId: Id)

  datatype TaskRecord = TaskRecord(
    rowid: nat, taskId: Id, title: string, state: TaskState, correlationId: Id,
    attempt: int, maxAttempts: int, createdAt: int, updatedAt: int)
  {
    function RetriesLeft(): int {
      if maxAttempts - attempt > 0 then maxAttempts - attempt else 0
    }
  }

  type Table = seq<TaskRecord>

  datatype TaskError =
    | EmptyTitle | BadMaxAttempts | UnknownTask(id: Id)
    | IllegalTransition(from: TaskState, to: TaskState) | NotFailed(state: TaskState) | RetryBudgetExhausted
    | EmptyCorrelation

  predicate IsLive(state: TaskState) {
    state == QUEUED || state == RUNNING || state == WAITING || state == PAUSED || state == RESUMABLE
  }

  predicate IsInFlight(state: TaskState) {
    state == RUNNING || state == WAITING
  }

  /** The live tasks are those that can be cancelled, the in-flight ones those that a crash can leave half done;
      only a running task completes, and only a failed one is queued again. */
  lemma StatesTell(state: TaskState)
    ensures IsLive(state) <==> CANCELLED in LegalTargets(state)
    ensures IsLive(state) <==> state != COMPLETED && state != FAILED && state != CANCELLED
    ensures IsInFlight(state) <==> state == RUNNING || state == WAITING
    ensures COMPLETED in LegalTargets(state) <==> state == RUNNING
    ensures QUEUED in LegalTargets(state) <==> state == FAILED
    ensures LegalTargets(state) == {} <==> state == COMPLETED || state == CANCELLED
    ensures IsInFlight(state) ==> RESUMABLE in LegalTargets(state)
    ensures RUNNING in LegalTargets(state) <==> IsLive(state) && state != RUNNING
    ensures WAITING in LegalTargets(state) <==> state == RUNNING
    ensures PAUSED in LegalTargets(state) <==> IsInFlight(state)
    ensures RESUMABLE in LegalTargets(state) <==> IsInFlight(state) || state == PAUSED
    ensures FAILED in LegalTargets(state) <==> state == QUEUED || state == RUNNING || state == RESUMABLE
  {
    match state
    case QUEUED => case RUNNING => case WAITING => case PAUSED => case RESUMABLE =>
    case COMPLETED => case FAILED => case CANCELLED =>
  }

  // ------------------------------------------------------- replaying the journal

  /** The inverse of `_state_event`; an interruption marker carries no state. */
  function EventState(e: EventType): Option<TaskState> {
    match e
    case TASK_CREATED => Some(QUEUED)
    case TASK_STARTED => Some(RUNNING)
    case TASK_WAITING => Some(WAITING)
    case TASK_PAUSED => Some(PAUSED)
    case TASK_RESUMED => Some(RESUMABLE)
    case TASK_COMPLETED => Some(COMPLETED)
    case TASK_FAILED => Some(FAILED)
    case TASK_CANCELLED => Some(CANCELLED)
    case TASK_INTERRUPTED => None
  }

  /** The states that one task's journal events describe, oldest first. */
  function Replay(journal: seq<JournalEvent>, taskId: Id): seq<TaskState> {
    if journal == [] then []
    else
      var init, last := journal[..|journal| - 1], journal[|journal| - 1];
      Replay(init, taskId)
      + (if last.taskId == taskId && EventState(last.eventType).Some? then [EventState(last.eventType).value] else [])
  }

  /** A life: starts QUEUED and moves only along the legal table. */
  predicate LegalLife(states: seq<TaskState>) {
    && states != [] && states[0] == QUEUED
    && forall i :: 0 < i < |states| ==> states[i] in LegalTargets(states[i - 1])
  }

  predicate Replays(journal: seq<JournalEvent>, r: TaskRecord) {
    var states := Replay(journal, r.taskId);
    LegalLife(states) && states[|states| - 1] == r.state
  }

  lemma ReplayAppend(journal: seq<JournalEvent>, e: JournalEvent, taskId: Id)
    ensures Replay(journal + [e], taskId) == Replay(journal, taskId)
      + if e.taskId == taskId && EventState(e.eventType).Some? then [EventState(e.eventType).value] else []
  {
    assert (journal + [e])[..|journal|] == journal;
  }

  /** COMPLETED and CANCELLED are final: nothing in a life follows them. */
  lemma FinalStatesEndALife(states: seq<TaskState>, i: nat)
    requires LegalLife(states) && i < |states| && (states[i] == COMPLETED || states[i] == CANCELLED)
    ensures i == |states| - 1
  {
    assert i + 1 < |states| ==> states[i + 1] in LegalTargets(states[(i + 1) - 1]);
  }

  // ------------------------------------------------------- the table

  predicate HasTask(rows: Table, id: Id) {
    exists i :: 0 <= i < |rows| && rows[i].taskId == id
  }

  ghost predicate Tabulated(rows: Table, now: int) {
    && (forall i :: 0 <= i < |rows| ==> rows[i].rowid == i && rows[i].updatedAt <= now)
    && (forall i, j :: 0 <= i < j < |rows| ==> rows[i].taskId != rows[j].taskId)
  }

  /** The journal tells the state of every task. */
  ghost predicate Journaled(rows: Table, journal: seq<JournalEvent>) {
    forall i :: 0 <= i < |rows| ==> Replays(journal, rows[i])
  }

  /** A task whose events cannot be built. */
  predicate Silent(r: TaskRecord) {
    r.correlationId == ""
  }

  /** What the journal tells of one task: its state, or nothing at all. */
  predicate Traced(journal: seq<JournalEvent>, r: TaskRecord) {
    if Silent(r) then Replay(journal, r.taskId) == [] else Replays(journal, r)
  }

  ghost predicate Recorded(rows: Table, journal: seq<JournalEvent>) {
    && (forall i :: 0 <= i < |rows| ==> Traced(journal, rows[i]))
    && (forall id :: !HasTask(rows, id) ==> Replay(journal, id) == [])
  }

  /** In every state that the store reaches, a task's events replay to its state exactly when its correlation id
      is not empty; so the journal tells the whole table exactly when no task has an empty one. */
  lemma JournaledIff(rows: Table, journal: seq<JournalEvent>)
    requires Recorded(rows, journal)
    ensures forall i :: 0 <= i < |rows| ==> (Replays(journal, rows[i]) <==> rows[i].correlationId != "")
    ensures Journaled(rows, journal) <==> forall i :: 0 <= i < |rows| ==> rows[i].correlationId != ""
  {
    forall i | 0 <= i < |rows|
      ensures Replays(journal, rows[i]) <==> rows[i].correlationId != ""
    {
      assert Traced(journal, rows[i]);
    }
  }

  /** `_emit`: the event is appended if it can be built. */
  function Emitted(journal: seq<JournalEvent>, e: JournalEvent): seq<JournalEvent> {
    if e.correlationId == "" then journal else journal + [e]
  }

  ghost predicate AttemptsWithinBudget(rows: Table) {
    forall i :: 0 <= i < |rows| ==> 1 <= rows[i].attempt <= rows[i].maxAttempts
  }

  function NewTask(rows: Table, id: Id, title: string, correlationId: Id, maxAttempts: int, at: int): TaskRecord {
    TaskRecord(|rows|, id, Strip(title), QUEUED, correlationId, 1, maxAttempts, at, at)
  }

  function Moved(r: TaskRecord, target: TaskState, bump: bool, at: int): TaskRecord {
    r.(state := target, attempt := if bump then r.attempt + 1 else r.attempt, updatedAt := at)
  }

  lemma TasksRemain(rows: Table, rows': Table, id: Id)
    requires |rows| <= |rows'| && forall i :: 0 <= i < |rows| ==> rows'[i].taskId == rows[i].taskId
    ensures HasTask(rows, id) ==> HasTask(rows', id)
  {
    if HasTask(rows, id) {
      var i :| 0 <= i < |rows| && rows[i].taskId == id;
      assert rows'[i].taskId == id;
    }
  }

  lemma EmittedToOthers(journal: seq<JournalEvent>, e: JournalEvent, id: Id)
    requires id != e.taskId
    ensures Replay(Emitted(journal, e), id) == Replay(journal, id)
  {
    ReplayAppend(journal, e, id);
  }

  lemma CreatedIsTraced(journal: seq<JournalEvent>, r: TaskRecord)
    requires Replay(journal, r.taskId) == [] && r.state == QUEUED
    ensures Traced(Emitted(journal, JournalEvent(TASK_CREATED, r.correlationId, r.taskId)), r)
  {
    ReplayAppend(journal, JournalEvent(TASK_CREATED, r.correlationId, r.taskId), r.taskId);
  }

  lemma CreateKeeps(rows: Table, journal: seq<JournalEvent>, r: TaskRecord, now: int, at: int)
    requires Tabulated(rows, now) && Recorded(rows, journal) && !HasTask(rows, r.taskId)
    requires r.rowid == |rows| && r.state == QUEUED && now <= at && r.updatedAt == at
    ensures Tabulated(rows + [r], at)
    ensures Recorded(rows + [r], Emitted(journal, JournalEvent(TASK_CREATED, r.correlationId, r.taskId)))
  {
    var e := JournalEvent(TASK_CREATED, r.correlationId, r.taskId);
    var rows' := rows + [r];
    CreatedIsTraced(journal, r);
    forall i | 0 <= i < |rows|
      ensures Traced(Emitted(journal, e), rows'[i])
    {
      assert Traced(journal, rows[i]);
      EmittedToOthers(journal, e, rows[i].taskId);
    }
    forall id | !HasTask(rows', id)
      ensures Replay(Emitted(journal, e), id) == []
    {
      TasksRemain(rows, rows', id);
      assert rows'[|rows|] == r;
      EmittedToOthers(journal, e, id);
    }
  }

  /** What a creation does to table and journal: the journal still tells the whole table exactly when the new task
      has a correlation id. */
  lemma CreationFacts(rows: Table, journal: seq<JournalEvent>, r: TaskRecord, now: int, at: int)
    requires Tabulated(rows, now) && Recorded(rows, journal) && !HasTask(rows, r.taskId)
    requires r.rowid == |rows| && r.state == QUEUED && now <= at && r.updatedAt == at
    requires r.attempt == 1 && r.maxAttempts >= 1
    ensures var rows', journal' := rows + [r], Emitted(journal, JournalEvent(TASK_CREATED, r.correlationId, r.taskId));
      && Tabulated(rows', at) && Recorded(rows', journal')
      && (Journaled(rows, journal) ==> (Journaled(rows', journal') <==> r.correlationId != ""))
      && (AttemptsWithinBudget(rows) ==> AttemptsWithinBudget(rows'))
  {
    var rows', journal' := rows + [r], Emitted(journal, JournalEvent(TASK_CREATED, r.correlationId, r.taskId));
    CreateKeeps(rows, journal, r, now, at);
    JournaledIff(rows, journal);
    JournaledIff(rows', journal');
    assert rows'[|rows|] == r && forall i :: 0 <= i < |rows| ==> rows'[i] == rows[i];
  }

  lemma MovedIsTraced(journal: seq<JournalEvent>, r: TaskRecord, target: TaskState, bump: bool, at: int)
    requires Traced(journal, r) && target in LegalTargets(r.state)
    ensures Traced(Emitted(journal, JournalEvent(StateEvent(target), r.correlationId, r.taskId)),
                   Moved(r, target, bump, at))
  {
    var e := JournalEvent(StateEvent(target), r.correlationId, r.taskId);
    ReplayAppend(journal, e, r.taskId);
    if !Silent(r) {
      assert Replay(journal + [e], r.taskId) == Replay(journal, r.taskId) + [target];
    }
  }

  lemma MoveKeeps(rows: Table, journal: seq<JournalEvent>, i: nat, target: TaskState, bump: bool, now: int, at: int)
    requires Tabulated(rows, now) && Recorded(rows, journal) && i < |rows| && now <= at
    requires target in LegalTargets(rows[i].state)
    ensures Tabulated(rows[i := Moved(rows[i], target, bump, at)], at)
    ensures Recorded(rows[i := Moved(rows[i], target, bump, at)],
      Emitted(journal, JournalEvent(StateEvent(target), rows[i].correlationId, rows[i].taskId)))
  {
    var e := JournalEvent(StateEvent(target), rows[i].correlationId, rows[i].taskId);
    var rows' := rows[i := Moved(rows[i], target, bump, at)];
    MovedIsTraced(journal, rows[i], target, bump, at);
    forall k | 0 <= k < |rows'|
      ensures Traced(Emitted(journal, e), rows'[k])
    {
      if k != i {
        assert Traced(journal, rows[k]);
        EmittedToOthers(journal, e, rows[k].taskId);
      }
    }
    forall id | !HasTask(rows', id)
      ensures Replay(Emitted(journal, e), id) == []
    {
      assert rows'[i].taskId == rows[i].taskId;
      TasksRemain(rows, rows', id);
      EmittedToOthers(journal, e, id);
    }
  }

  lemma MarkerKeeps(rows: Table, journal: seq<JournalEvent>, e: JournalEvent)
    requires Recorded(rows, journal) && e.eventType == TASK_INTERRUPTED
    ensures Recorded(rows, journal + [e])
  {
    forall id
      ensures Replay(journal + [e], id) == Replay(journal, id)
    {
      ReplayAppend(journal, e, id);
    }
    assert forall i :: 0 <= i < |rows| ==> Traced(journal, rows[i]);
  }

  // ------------------------------------------------------- the newest rows

  /** ORDER BY updated_at DESC, rowid DESC. */
  predicate NewerFirst(a: TaskRecord, b: TaskRecord) {
    a.updatedAt > b.updatedAt || (a.updatedAt == b.updatedAt && a.rowid >= b.rowid)
  }

  /** `list_tasks` without a state filter. */
  function ListTasks(rows: Table, limit: nat): seq<TaskRecord> {
    Take(SortBy(NewerFirst, rows), limit)
  }

  const DEFAULT_LIMIT: nat := 100

  ghost function Window(rows: Table): set<nat> {
    set r | r in ListTasks(rows, DEFAULT_LIMIT) :: r.rowid
  }

  ghost predicate UpwardClosed(rows: Table, w: set<nat>) {
    forall i, j :: i in w && 0 <= i < |rows| && 0 <= j < |rows| && NewerFirst(rows[j], rows[i]) ==> j in w
  }

  lemma ListingFacts(rows: Table, now: int)
    requires Tabulated(rows, now)
    ensures var listed := ListTasks(rows, DEFAULT_LIMIT);
      && Distinct(listed)
      && (forall r :: r in listed ==> r.rowid < |rows| && rows[r.rowid] == r)
      && |listed| == (if |rows| <= DEFAULT_LIMIT then |rows| else DEFAULT_LIMIT)
      && (forall r, s :: r in listed && s in rows && NewerFirst(s, r) ==> s in listed)
  {
    var sorted := SortBy(NewerFirst, rows);
    SortByAscending(NewerFirst, rows);
    SameMultisetSameElements(sorted, rows);
    DistinctByMultiset(rows, sorted);
    forall r | r in sorted
      ensures r.rowid < |rows| && rows[r.rowid] == r
    {
      assert r in rows;
      var i :| 0 <= i < |rows| && rows[i] == r;
    }
    var listed := ListTasks(rows, DEFAULT_LIMIT);
    forall r, s | r in listed && s in rows && NewerFirst(s, r)
      ensures s in listed
    {
      var p :| 0 <= p < |listed| && listed[p] == r;
      assert s in sorted;
      var q :| 0 <= q < |sorted| && sorted[q] == s;
      assert sorted[p] == r;
      assert q > p ==> NewerFirst(r, s);
      assert NewerFirst(r, s) ==> r.rowid == s.rowid;
      assert q <= p;
      assert listed[q] == s;
    }
  }

  lemma WindowFacts(rows: Table, now: int)
    requires Tabulated(rows, now)
    ensures forall i :: i in Window(rows) ==> i < |rows| && rows[i] in ListTasks(rows, DEFAULT_LIMIT)
    ensures forall i :: 0 <= i < |rows| ==> (i in Window(rows) <==> rows[i] in ListTasks(rows, DEFAULT_LIMIT))
    ensures UpwardClosed(rows, Window(rows))
    ensures |Window(rows)| == if |rows| <= DEFAULT_LIMIT then |rows| else DEFAULT_LIMIT
  {
    ListingFacts(rows, now);
    var listed := ListTasks(rows, DEFAULT_LIMIT);
    forall i | 0 <= i < |rows|
      ensures i in Window(rows) <==> rows[i] in listed
    {
      if rows[i] in listed {
        assert rows[i].rowid == i;
      }
    }
    forall i, j | i in Window(rows) && 0 <= i < |rows| && 0 <= j < |rows| && NewerFirst(rows[j], rows[i])
      ensures j in Window(rows)
    {
      assert rows[j] in rows && rows[i] in listed;
    }
    RowidsCount(listed);
  }

  lemma {:induction false} RowidsCount(listed: seq<TaskRecord>)
    requires forall r, s :: r in listed && s in listed && r.rowid == s.rowid ==> r == s
    requires Distinct(listed)
    ensures |set r | r in listed :: r.rowid| == |listed|
  {
    var ids := set r | r in listed :: r.rowid;
    if listed == [] {
      assert ids == {};
    } else {
      var rest := listed[1..];
      assert listed == [listed[0]] + rest;
      RowidsCount(rest);
      var restIds := set r | r in rest :: r.rowid;
      assert listed[0].rowid !in restIds by {
        assert listed[0] !in rest;
      }
      assert ids == restIds + {listed[0].rowid};
    }
  }

  lemma OneIsNewer(a: TaskRecord, b: TaskRecord)
    ensures NewerFirst(a, b) || NewerFirst(b, a)
  {
  }

  /** Two upward-closed sets of rows with the same size are the same. */
  lemma UpwardClosedUnique(rows: Table, a: set<nat>, b: set<nat>)
    requires forall i :: i in a ==> i < |rows|
    requires forall i :: i in b ==> i < |rows|
    requires UpwardClosed(rows, a) && UpwardClosed(rows, b) && |a| == |b|
    ensures a == b
  {
    forall i, j | i in a && j in b
      ensures j in a || i in b
    {
      OneIsNewer(rows[i], rows[j]);
    }
    ComparableSameSize(a, b);
  }

  lemma ComparableSameSize<T>(a: set<T>, b: set<T>)
    requires forall i, j :: i in a && j in b ==> j in a || i in b
    requires |a| == |b|
    ensures a == b
  {
    if a <= b {
      SubsetSameSize(a, b);
    } else {
      var i :| i in a && i !in b;
      assert b <= a;
      SubsetSameSize(b, a);
    }
  }

  lemma SubsetSameSize<T>(a: set<T>, b: set<T>)
    requires |a| == |b| && a <= b
    ensures a == b
  {
    assert b == a + (b - a);
  }

  // ------------------------------------------------------- sweeps over the window

  /** `rows` is `before` with the picked rows among `among` moved to `target` since `since`. */
  ghost predicate Swept(before: Table, rows: Table, among: set<nat>, pick: TaskState -> bool, target: TaskState, since: int) {
    && |rows| == |before|
    && forall i :: 0 <= i < |rows| ==>
         if i in among && pick(before[i].state) then
           rows[i] == before[i].(state := target, updatedAt := rows[i].updatedAt) && rows[i].updatedAt >= since
         else
           rows[i] == before[i]
  }

  /** A sweep of the window leaves the window's members the same: the moved rows only get newer. */
  lemma SweepKeepsWindow(before: Table, rows: Table, pick: TaskState -> bool, target: TaskState, since: int, now: int)
    requires Tabulated(before, since) && Tabulated(rows, now)
    requires Swept(before, rows, Window(before), pick, target, since)
    ensures Window(rows) == Window(before)
  {
    WindowFacts(before, since);
    WindowFacts(rows, now);
    var w := Window(before);
    forall i, j | i in w && 0 <= i < |rows| && 0 <= j < |rows| && j !in w
      ensures !NewerFirst(rows[j], rows[i])
    {
      assert !NewerFirst(before[j], before[i]);
      assert rows[j] == before[j] && rows[i].updatedAt >= before[i].updatedAt;
    }
    UpwardClosedUnique(rows, Window(rows), w);
  }

  /** After a sweep whose target is not picked, nothing in the new window is picked. */
  lemma SweepIsIdempotent(before: Table, rows: Table, pick: TaskState -> bool, target: TaskState, since: int, now: int)
    requires Tabulated(before, since) && Tabulated(rows, now) && !pick(target)
    requires Swept(before, rows, Window(before), pick, target, since)
    ensures forall i :: i in Window(rows) ==> i < |rows| && !pick(rows[i].state)
  {
    WindowFacts(before, since);
    SweepKeepsWindow(before, rows, pick, target, since, now);
  }

  ghost function Picked(rows: Table, pick: TaskState -> bool): set<nat> {
    set i | 0 <= i < |rows| && pick(rows[i].state)
  }

  lemma SweepRemainder(before: Table, rows: Table, pick: TaskState -> bool, target: TaskState, since: int)
    requires Swept(before, rows, Window(before), pick, target, since) && !pick(target)
    ensures Picked(rows, pick) == Picked(before, pick) - Window(before)
  {
    forall i | 0 <= i < |rows|
      ensures pick(rows[i].state) <==> pick(before[i].state) && i !in Window(before)
    {
    }
  }

  lemma ShortTableIsOnePage(rows: Table, now: int)
    requires Tabulated(rows, now) && |rows| <= DEFAULT_LIMIT
    ensures forall i :: 0 <= i < |rows| ==> i in Window(rows)
  {
    WindowFacts(rows, now);
    var sorted := SortBy(NewerFirst, rows);
    SameMultisetSameElements(sorted, rows);
    forall i | 0 <= i < |rows|
      ensures i in Window(rows)
    {
      assert rows[i] in rows;
    }
  }

  /** When does a sweep reach every picked row?  Exactly when they all were in the window: always
      in a table of at most a hundred rows, never with more than a hundred picked rows. */
  lemma SweepCompleteIff(before: Table, rows: Table, pick: TaskState -> bool, target: TaskState, since: int)
    requires Tabulated(before, since) && !pick(target)
    requires Swept(before, rows, Window(before), pick, target, since)
    ensures Picked(rows, pick) == {} <==> Picked(before, pick) <= Window(before)
    ensures |before| <= DEFAULT_LIMIT ==> Picked(rows, pick) == {}
    ensures |Picked(before, pick)| > DEFAULT_LIMIT ==> Picked(rows, pick) != {}
  {
    SweepRemainder(before, rows, pick, target, since);
    var picked, w := Picked(before, pick), Window(before);
    if picked - w == {} {
      forall i | i in picked
        ensures i in w
      {
        assert i !in picked - w;
      }
    }
    WindowSize(before, since);
    if |before| <= DEFAULT_LIMIT {
      ShortTableIsOnePage(before, since);
    }
    if picked <= w {
      SubsetSize(picked, w);
    }
  }

  lemma WindowSize(rows: Table, now: int)
    requires Tabulated(rows, now)
    ensures |Window(rows)| <= DEFAULT_LIMIT
  {
    WindowFacts(rows, now);
  }

  /** The records a sweep returns: the picked rows of the page, as they are afterwards. */
  function Affected(page: seq<TaskRecord>, rows: Table, pick: TaskState -> bool): seq<TaskRecord>
    requires forall r :: r in page ==> r.rowid < |rows|
  {
    if page == [] then []
    else
      var last := page[|page| - 1];
      Affected(page[..|page| - 1], rows, pick) + (if pick(last.state) then [rows[last.rowid]] else [])
  }

  lemma {:induction false} AffectedFrame(page: seq<TaskRecord>, rows: Table, pick: TaskState -> bool, i: nat, r: TaskRecord)
    requires i < |rows| && forall q :: q in page ==> q.rowid < |rows| && q.rowid != i
    ensures Affected(page, rows[i := r], pick) == Affected(page, rows, pick)
  {
    if page != [] {
      var last := page[|page| - 1];
      assert last in page;
      AffectedFrame(page[..|page| - 1], rows, pick, i, r);
    }
  }

  ghost function Rowids(listed: seq<TaskRecord>): set<nat> {
    set r | r in listed :: r.rowid
  }

  /** A page of distinct rows of the table. */
  ghost predicate PageOf(before: Table, page: seq<TaskRecord>) {
    && (forall p, q :: 0 <= p < q < |page| ==> page[p].rowid != page[q].rowid)
    && (forall r :: r in page ==> r.rowid < |before| && before[r.rowid] == r)
  }

  /** The loop invariant of a sweep: the first `k` rows of the page are done. */
  ghost predicate Sweeping(
    before: Table, rows: Table, page: seq<TaskRecord>, k: nat, pick: TaskState -> bool, target: TaskState, since: int)
  {
    && k <= |page| && PageOf(before, page)
    && Swept(before, rows, Rowids(page[..k]), pick, target, since)
  }

  lemma PageDistinct(before: Table, now: int)
    requires Tabulated(before, now)
    ensures PageOf(before, ListTasks(before, DEFAULT_LIMIT))
    ensures Rowids(ListTasks(before, DEFAULT_LIMIT)) == Window(before)
  {
    ListingFacts(before, now);
    var page := ListTasks(before, DEFAULT_LIMIT);
    forall p, q | 0 <= p < q < |page|
      ensures page[p].rowid != page[q].rowid
    {
      assert page[p] in page && page[q] in page;
    }
  }

  lemma NextRowid(before: Table, page: seq<TaskRecord>, k: nat)
    requires k < |page| && PageOf(before, page)
    ensures Rowids(page[..k + 1]) == Rowids(page[..k]) + {page[k].rowid}
    ensures page[k].rowid !in Rowids(page[..k])
    ensures page[k].rowid < |before| && before[page[k].rowid] == page[k]
  {
    assert page[k] in page;
    assert page[..k + 1] == page[..k] + [page[k]];
    assert forall r :: r in page[..k + 1] <==> r in page[..k] || r == page[k];
    forall i | i in Rowids(page[..k])
      ensures i in Rowids(page[..k + 1])
    {
      var r :| r in page[..k] && r.rowid == i;
      assert r in page[..k + 1];
    }
    assert page[k] in page[..k + 1];
  }

  /** Moving the next picked row of the page. */
  lemma SweepMoves(
    before: Table, rows: Table, page: seq<TaskRecord>, k: nat, pick: TaskState -> bool, target: TaskState,
    since: int, at: int)
    requires Sweeping(before, rows, page, k, pick, target, since) && k < |page| && since <= at
    requires pick(page[k].state)
    ensures page[k].rowid < |rows| && rows[page[k].rowid] == page[k]
    ensures Sweeping(before, rows[page[k].rowid := Moved(page[k], target, false, at)], page, k + 1, pick, target, since)
  {
    NextRowid(before, page, k);
  }

  lemma SweepSkips(
    before: Table, rows: Table, page: seq<TaskRecord>, k: nat, pick: TaskState -> bool, target: TaskState, since: int)
    requires Sweeping(before, rows, page, k, pick, target, since) && k < |page| && !pick(page[k].state)
    ensures Sweeping(before, rows, page, k + 1, pick, target, since)
  {
    NextRowid(before, page, k);
  }

  /** What a sweep journals for one task: the move, and a marker if it is an interruption. */
  function EventsFor(r: TaskRecord, target: TaskState, marked: bool): seq<JournalEvent> {
    [JournalEvent(StateEvent(target), r.correlationId, r.taskId)]
    + if marked then [JournalEvent(TASK_INTERRUPTED, r.correlationId, r.taskId)] else []
  }

  /** What a sweep journals: the events of the picked rows of the page, in its order. */
  function SweepEvents(page: seq<TaskRecord>, pick: TaskState -> bool, target: TaskState, marked: bool)
    : seq<JournalEvent>
  {
    if page == [] then []
    else
      var last := page[|page| - 1];
      var earlier := SweepEvents(page[..|page| - 1], pick, target, marked);
      if pick(last.state) then earlier + EventsFor(last, target, marked) else earlier
  }

  /** Where a sweep of the page stops: at its first picked task with an empty correlation id, if there is one. */
  function StopAt(page: seq<TaskRecord>, pick: TaskState -> bool): (k: nat)
    ensures k <= |page|
    ensures forall i :: 0 <= i < k ==> !(pick(page[i].state) && Silent(page[i]))
    ensures k < |page| ==> pick(page[k].state) && Silent(page[k])
  {
    if page == [] then 0
    else if pick(page[0].state) && Silent(page[0]) then 0
    else StopAt(page[1..], pick) + 1
  }

  lemma StopsHere(page: seq<TaskRecord>, pick: TaskState -> bool, k: nat)
    requires k <= |page| && forall i :: 0 <= i < k ==> !(pick(page[i].state) && Silent(page[i]))
    requires k < |page| ==> pick(page[k].state) && Silent(page[k])
    ensures StopAt(page, pick) == k
  {
  }

  /** A sweep under way: the rows it has moved, the events it has journaled and the records it will return. */
  ghost predicate SweepState(
    before: Table, rows: Table, page: seq<TaskRecord>, k: nat, pick: TaskState -> bool, target: TaskState,
    since: int, marked: bool, start: seq<JournalEvent>, journal: seq<JournalEvent>, returned: seq<TaskRecord>)
  {
    && Sweeping(before, rows, page, k, pick, target, since) && |rows| == |before|
    && journal == start + SweepEvents(page[..k], pick, target, marked)
    && Returned(rows, page, k, pick, returned)
  }

  ghost predicate Returned(
    rows: Table, page: seq<TaskRecord>, k: nat, pick: TaskState -> bool, returned: seq<TaskRecord>)
    requires k <= |page|
  {
    && (forall q :: q in page ==> q.rowid < |rows|)
    && (forall q :: q in page[..k] ==> q.rowid < |rows|)
    && returned == Affected(page[..k], rows, pick)
  }

  lemma SweepStarts(
    before: Table, page: seq<TaskRecord>, pick: TaskState -> bool, target: TaskState, since: int, marked: bool,
    start: seq<JournalEvent>)
    requires PageOf(before, page)
    ensures SweepState(before, before, page, 0, pick, target, since, marked, start, start, [])
  {
  }

  lemma EventsNext(page: seq<TaskRecord>, k: nat, pick: TaskState -> bool, target: TaskState, marked: bool)
    requires k < |page|
    ensures SweepEvents(page[..k + 1], pick, target, marked) ==
      if pick(page[k].state) then SweepEvents(page[..k], pick, target, marked) + EventsFor(page[k], target, marked)
      else SweepEvents(page[..k], pick, target, marked)
  {
    assert page[..k + 1][..k] == page[..k];
  }

  /** The next row of the page is none of those already seen. */
  lemma NextIsOther(before: Table, page: seq<TaskRecord>, k: nat, q: TaskRecord)
    requires PageOf(before, page) && k < |page| && q in page[..k]
    ensures q.rowid < |before| && q.rowid != page[k].rowid
  {
    var i :| 0 <= i < k && page[..k][i] == q;
    assert page[i] == q && q in page;
  }

  lemma AffectedNext(page: seq<TaskRecord>, rows: Table, k: nat, pick: TaskState -> bool)
    requires k < |page| && forall q :: q in page[..k + 1] ==> q.rowid < |rows|
    ensures (forall q :: q in page[..k] ==> q.rowid < |rows|) && page[k].rowid < |rows|
    ensures Affected(page[..k + 1], rows, pick) ==
      if pick(page[k].state) then Affected(page[..k], rows, pick) + [rows[page[k].rowid]]
      else Affected(page[..k], rows, pick)
  {
    assert page[..k + 1][..k] == page[..k];
    assert page[..k + 1][k] == page[k];
    assert forall q :: q in page[..k] ==> q in page[..k + 1];
  }

  lemma SweepStateSkips(
    before: Table, rows: Table, page: seq<TaskRecord>, k: nat, pick: TaskState -> bool, target: TaskState,
    since: int, marked: bool, start: seq<JournalEvent>, journal: seq<JournalEvent>, returned: seq<TaskRecord>)
    requires SweepState(before, rows, page, k, pick, target, since, marked, start, journal, returned)
    requires k < |page| && !pick(page[k].state)
    ensures SweepState(before, rows, page, k + 1, pick, target, since, marked, start, journal, returned)
  {
    SweepSkips(before, rows, page, k, pick, target, since);
    EventsNext(page, k, pick, target, marked);
    assert forall q :: q in page[..k + 1] ==> q in page;
    AffectedNext(page, rows, k, pick);
  }

  /** The next row of the page has not been touched yet. */
  lemma NextIsUntouched(
    before: Table, rows: Table, page: seq<TaskRecord>, k: nat, pick: TaskState -> bool, target: TaskState,
    since: int, marked: bool, start: seq<JournalEvent>, journal: seq<JournalEvent>, returned: seq<TaskRecord>)
    requires SweepState(before, rows, page, k, pick, target, since, marked, start, journal, returned) && k < |page|
    ensures page[k].rowid < |rows| && rows[page[k].rowid] == page[k]
  {
    NextRowid(before, page, k);
  }

  lemma AffectedMoves(
    before: Table, rows: Table, page: seq<TaskRecord>, k: nat, pick: TaskState -> bool, returned: seq<TaskRecord>,
    record: TaskRecord)
    requires PageOf(before, page) && k < |page| && |rows| == |before| && pick(page[k].state)
    requires Returned(rows, page, k, pick, returned)
    ensures page[k].rowid < |rows|
    ensures var rows' := rows[page[k].rowid := record];
      Returned(rows', page, k + 1, pick, returned + [record])
  {
    NextRowid(before, page, k);
    assert forall q :: q in page[..k + 1] ==> q in page;
    AffectedNext(page, rows[page[k].rowid := record], k, pick);
    forall q | q in page[..k]
      ensures q.rowid < |rows| && q.rowid != page[k].rowid
    {
      NextIsOther(before, page, k, q);
    }
    AffectedFrame(page[..k], rows, pick, page[k].rowid, record);
  }

  lemma SweepStateMoves(
    before: Table, rows: Table, page: seq<TaskRecord>, k: nat, pick: TaskState -> bool, target: TaskState,
    since: int, marked: bool, start: seq<JournalEvent>, journal: seq<JournalEvent>, returned: seq<TaskRecord>,
    record: TaskRecord, at: int)
    requires SweepState(before, rows, page, k, pick, target, since, marked, start, journal, returned)
    requires k < |page| && pick(page[k].state) && since <= at && record == Moved(page[k], target, false, at)
    ensures page[k].rowid < |rows|
    ensures SweepState(before, rows[page[k].rowid := record], page, k + 1, pick, target, since, marked,
                       start, journal + EventsFor(page[k], target, marked), returned + [record])
  {
    SweepMoves(before, rows, page, k, pick, target, since, at);
    EventsNext(page, k, pick, target, marked);
    JournalGrows(start, SweepEvents(page[..k], pick, target, marked), EventsFor(page[k], target, marked));
    AffectedMoves(before, rows, page, k, pick, returned, record);
  }

  /** The rows that a sweep has moved when it stops at the picked row `k`: those before it and that one. */
  lemma SweepStops(
    before: Table, rows: Table, page: seq<TaskRecord>, k: nat, pick: TaskState -> bool, target: TaskState,
    since: int, marked: bool, start: seq<JournalEvent>, journal: seq<JournalEvent>, returned: seq<TaskRecord>, at: int)
    requires SweepState(before, rows, page, k, pick, target, since, marked, start, journal, returned)
    requires k < |page| && pick(page[k].state) && since <= at
    ensures page[k].rowid < |rows|
    ensures Swept(before, rows[page[k].rowid := Moved(page[k], target, false, at)], Rowids(page[..k + 1]), pick, target, since)
    ensures journal == start + SweepEvents(page[..k], pick, target, marked)
  {
    SweepMoves(before, rows, page, k, pick, target, since, at);
  }

  lemma JournalGrows(a: seq<JournalEvent>, b: seq<JournalEvent>, c: seq<JournalEvent>)
    ensures (a + b) + c == a + (b + c)
  {
  }

  ghost predicate SweptWindow(before: Table, rows: Table, pick: TaskState -> bool, target: TaskState, since: int) {
    && Swept(before, rows, Window(before), pick, target, since)
    && (forall i :: i in Window(rows) ==> i < |rows| && !pick(rows[i].state))
    && (Picked(rows, pick) == {} <==> Picked(before, pick) <= Window(before))
  }

  /** None of the first `k` rows of the page stops the sweep. */
  ghost predicate NoneSilent(page: seq<TaskRecord>, k: nat, pick: TaskState -> bool)
  {
    k <= |page| && forall i :: 0 <= i < k ==> !(pick(page[i].state) && Silent(page[i]))
  }

  /** What a sweep leaves.  It completes exactly when no picked task of the window has an empty correlation id.
      Otherwise it has moved exactly the picked rows of the page up to the first such one, that one included, and
      journaled those before it. */
  ghost predicate SweepOutcome(
    before: Table, rows: Table, told: seq<JournalEvent>, journal: seq<JournalEvent>, pick: TaskState -> bool,
    target: TaskState, since: int, marked: bool, r: Result<seq<TaskRecord>, TaskError>)
  {
    var page := ListTasks(before, DEFAULT_LIMIT);
    var stop := StopAt(page, pick);
    && (r.Success? <==> forall q :: q in page && pick(q.state) ==> !Silent(q))
    && journal == told + SweepEvents(page[..stop], pick, target, marked)
    && (r.Success? ==>
          && stop == |page| && SweptWindow(before, rows, pick, target, since)
          && (forall q :: q in page ==> q.rowid < |rows|) && r.value == Affected(page, rows, pick))
    && (r.Failure? ==>
          && r.error == EmptyCorrelation && stop < |page|
          && Swept(before, rows, Rowids(page[..stop + 1]), pick, target, since))
  }

  lemma SweepDone(
    before: Table, rows: Table, page: seq<TaskRecord>, pick: TaskState -> bool, target: TaskState, since: int,
    marked: bool, start: seq<JournalEvent>, journal: seq<JournalEvent>, returned: seq<TaskRecord>, now: int)
    requires Tabulated(before, since) && Tabulated(rows, now) && !pick(target)
    requires page == ListTasks(before, DEFAULT_LIMIT) && NoneSilent(page, |page|, pick)
    requires SweepState(before, rows, page, |page|, pick, target, since, marked, start, journal, returned)
    ensures SweepOutcome(before, rows, start, journal, pick, target, since, marked, Success(returned))
  {
    assert page[..|page|] == page;
    StopsHere(page, pick, |page|);
    PageDistinct(before, since);
    SweepIsIdempotent(before, rows, pick, target, since, now);
    SweepCompleteIff(before, rows, pick, target, since);
  }

  lemma SweepFails(
    before: Table, earlier: Table, rows: Table, page: seq<TaskRecord>, k: nat, pick: TaskState -> bool,
    target: TaskState, since: int, marked: bool, start: seq<JournalEvent>, journal: seq<JournalEvent>,
    returned: seq<TaskRecord>, at: int)
    requires SweepState(before, earlier, page, k, pick, target, since, marked, start, journal, returned)
    requires page == ListTasks(before, DEFAULT_LIMIT) && NoneSilent(page, k, pick)
    requires k < |page| && pick(page[k].state) && Silent(page[k]) && since <= at
    requires page[k].rowid < |earlier| && rows == earlier[page[k].rowid := Moved(page[k], target, false, at)]
    ensures SweepOutcome(before, rows, start, journal, pick, target, since, marked, Failure(EmptyCorrelation))
  {
    StopsHere(page, pick, k);
    SweepStops(before, earlier, page, k, pick, target, since, marked, start, journal, returned, at);
    assert page[k] in page;
  }

  // ------------------------------------------------------- more live tasks than a page holds

  function Tag(n: nat): (id: Id)
    ensures |id| == n
  {
    if n == 0 then [] else Tag(n - 1) + ['t']
  }

  /** The table and the journal after `n` creations at time 0. */
  function Created(n: nat): (Table, seq<JournalEvent>) {
    if n == 0 then ([], [])
    else
      var (rows, journal) := Created(n - 1);
      CreatedNext(rows, journal, Tag(n - 1), "c", 0)
  }

  function CreatedNext(rows: Table, journal: seq<JournalEvent>, id: Id, correlationId: Id, at: int)
    : (Table, seq<JournalEvent>)
  {
    (rows + [NewTask(rows, id, "t", correlationId, 1, at)],
     Emitted(journal, JournalEvent(TASK_CREATED, correlationId, id)))
  }

  lemma CreatedNextKeeps(rows: Table, journal: seq<JournalEvent>, id: Id, correlationId: Id, now: int, at: int)
    requires Tabulated(rows, now) && Recorded(rows, journal) && !HasTask(rows, id) && now <= at
    ensures var (rows', journal') := CreatedNext(rows, journal, id, correlationId, at);
      Tabulated(rows', at) && Recorded(rows', journal')
  {
    CreateKeeps(rows, journal, NewTask(rows, id, "t", correlationId, 1, at), now, at);
  }

  ghost predicate QueuedOnly(rows: Table, n: nat) {
    |rows| == n && forall i :: 0 <= i < n ==> rows[i].state == QUEUED && |rows[i].taskId| == i
  }

  lemma {:induction false} CreatedFacts(n: nat)
    ensures var (rows, journal) := Created(n); Tabulated(rows, 0) && Recorded(rows, journal) && QueuedOnly(rows, n)
  {
    if n > 0 {
      CreatedFacts(n - 1);
      var (rows, journal) := Created(n - 1);
      assert !HasTask(rows, Tag(n - 1));
      CreatedNextKeeps(rows, journal, Tag(n - 1), "c", 0, 0);
    }
  }

  function Indices(n: nat): (s: set<nat>)
    ensures |s| == n && forall i :: i in s <==> 0 <= i < n
  {
    if n == 0 then {} else Indices(n - 1) + {n - 1}
  }

  lemma AllLive(n: nat)
    ensures |Picked(Created(n).0, IsLive)| == n
  {
    CreatedFacts(n);
    assert Picked(Created(n).0, IsLive) == Indices(n);
  }

  /** The kill switch on the store after `n` creations leaves a live task for every `n` beyond a page. */
  lemma SurvivorsBeyondAPage(n: nat, rows: Table)
    requires n > DEFAULT_LIMIT && SweptWindow(Created(n).0, rows, IsLive, CANCELLED, 0)
    ensures Picked(rows, IsLive) != {}
  {
    CreatedFacts(n);
    AllLive(n);
    SweepCompleteIff(Created(n).0, rows, IsLive, CANCELLED, 0);
  }

  // ------------------------------------------------------- a task with an empty correlation id

  /** A task is created at time 0, and another one with an empty correlation id at time 1. */
  function TwoCreated(first: Id, second: Id, correlationId: Id): (Table, seq<JournalEvent>) {
    var (rows, journal) := CreatedNext([], [], first, correlationId, 0);
    CreatedNext(rows, journal, second, "", 1)
  }

  /** Two live tasks, of which the newer one has an empty correlation id. */
  predicate NewerIsSilent(rows: Table) {
    && |rows| == 2 && rows[0].rowid == 0 && rows[1].rowid == 1
    && IsLive(rows[0].state) && IsLive(rows[1].state)
    && !Silent(rows[0]) && Silent(rows[1]) && rows[0].updatedAt < rows[1].updatedAt
  }

  lemma OneCreated(first: Id, second: Id, correlationId: Id)
    requires first != second && correlationId != ""
    ensures var (rows, journal) := CreatedNext([], [], first, correlationId, 0);
      && Tabulated(rows, 0) && Recorded(rows, journal) && !HasTask(rows, second)
      && |rows| == 1 && rows[0].rowid == 0 && rows[0].state == QUEUED && rows[0].updatedAt == 0 && !Silent(rows[0])
  {
    CreatedNextKeeps([], [], first, correlationId, 0, 0);
  }

  lemma TwoCreatedFacts(first: Id, second: Id, correlationId: Id)
    requires first != second && correlationId != ""
    ensures var (rows, journal) := TwoCreated(first, second, correlationId);
      Tabulated(rows, 1) && Recorded(rows, journal) && NewerIsSilent(rows)
  {
    var (rows, journal) := CreatedNext([], [], first, correlationId, 0);
    OneCreated(first, second, correlationId);
    CreatedNextKeeps(rows, journal, second, "", 0, 1);
  }

  lemma NewestFirst(a: TaskRecord, b: TaskRecord)
    requires !NewerFirst(a, b)
    ensures ListTasks([a, b], DEFAULT_LIMIT) == [b, a]
  {
    assert [a, b][1..] == [b] && [b][1..] == [];
    assert SortBy(NewerFirst, [b]) == [b];
  }

  lemma StopsAtNewer(rows: Table)
    requires NewerIsSilent(rows)
    ensures var page := ListTasks(rows, DEFAULT_LIMIT);
      page == [rows[1], rows[0]] && StopAt(page, IsLive) == 0 && Rowids(page[..1]) == {1}
  {
    assert rows == [rows[0], rows[1]];
    NewestFirst(rows[0], rows[1]);
    var page := [rows[1], rows[0]];
    StopsHere(page, IsLive, 0);
    assert page[..1] == [rows[1]];
  }

  /** The kill switch stops at the newer task and leaves the older one live. */
  lemma OlderStaysLive(
    before: Table, told: seq<JournalEvent>, since: int, rows: Table, journal: seq<JournalEvent>,
    r: Result<seq<TaskRecord>, TaskError>)
    requires NewerIsSilent(before)
    requires SweepOutcome(before, rows, told, journal, IsLive, CANCELLED, since, false, r)
    ensures r == Failure(EmptyCorrelation) && journal == told
    ensures |rows| == 2 && rows[0] == before[0] && rows[1].state == CANCELLED
  {
    var page := ListTasks(before, DEFAULT_LIMIT);
    StopsAtNewer(before);
    assert before[1] in page && page[..0] == [];
  }

  /** The smallest case: the journal does not tell the table after those two creations, and the kill switch
      raises with the first task still live. */
  lemma KillSwitchStops(
    first: Id, second: Id, correlationId: Id, rows: Table, journal: seq<JournalEvent>,
    r: Result<seq<TaskRecord>, TaskError>)
    requires first != second && correlationId != ""
    requires var (before, told) := TwoCreated(first, second, correlationId);
      SweepOutcome(before, rows, told, journal, IsLive, CANCELLED, 1, false, r)
    ensures !Journaled(TwoCreated(first, second, correlationId).0, TwoCreated(first, second, correlationId).1)
    ensures r == Failure(EmptyCorrelation) && |rows| == 2 && IsLive(rows[0].state) && rows[1].state == CANCELLED
  {
    var (before, told) := TwoCreated(first, second, correlationId);
    TwoCreatedFacts(first, second, correlationId);
    JournaledIff(before, told);
    OlderStaysLive(before, told, 1, rows, journal, r);
  }

  // ------------------------------------------------------- the store

  class TaskStore {
    var rows: Table
    var journal: seq<JournalEvent>
    var clock: int

    ghost predicate Valid()
      reads this
    {
      Tabulated(rows, clock) && Recorded(rows, journal)
    }

    constructor (start: int)
      ensures Valid() && rows == [] && journal == []
    {
      rows, journal, clock := [], [], start;
    }

    /** `datetime.now(UTC)`. */
    method Now() returns (t: int)
      modifies this`clock
      ensures t == clock && clock >= old(clock)
    {
      t :| t >= clock;
      clock := t;
    }

    function Find(id: Id): (found: Option<nat>)
      reads this
      ensures found.None? <==> !HasTask(rows, id)
      ensures found.Some? ==> found.value < |rows| && rows[found.value].taskId == id
    {
      if HasTask(rows, id) then
        FindFrom(rows, id, 0)
      else
        None
    }

    /** `create`: the row is there even when its event cannot be built. */
    method Create(id: Id, title: string, correlationId: Id, maxAttempts: int)
      returns (r: Result<TaskRecord, TaskError>)
      requires Valid() && !HasTask(rows, id)
      modifies this
      ensures Valid() && clock >= old(clock)
      ensures if IsBlank(title) || maxAttempts < 1 then
          && r == Failure(if IsBlank(title) then EmptyTitle else BadMaxAttempts)
          && rows == old(rows) && journal == old(journal)
        else
          var record := TaskRecord(|old(rows)|, id, Strip(title), QUEUED, correlationId, 1, maxAttempts, clock, clock);
          && rows == old(rows) + [record]
          && journal == Emitted(old(journal), JournalEvent(TASK_CREATED, correlationId, id))
          && r == if correlationId == "" then Failure(EmptyCorrelation) else Success(record)
      ensures old(Journaled(rows, journal)) ==>
        (Journaled(rows, journal) <==> r != Failure(EmptyCorrelation))
      ensures old(AttemptsWithinBudget(rows)) ==> AttemptsWithinBudget(rows)
    {
      if IsBlank(title) {
        return Failure(EmptyTitle);
      }
      if maxAttempts < 1 {
        return Failure(BadMaxAttempts);
      }
      var at := Now();
      var record := NewTask(rows, id, title, correlationId, maxAttempts, at);
      CreationFacts(rows, journal, record, old(clock), at);
      rows := rows + [record];
      journal := Emitted(journal, JournalEvent(TASK_CREATED, correlationId, id));
      r := if correlationId == "" then Failure(EmptyCorrelation) else Success(record);
    }

    /** `transition`: along the legal table or not at all; the row is moved even when its event cannot be built. */
    method Transition(id: Id, target: TaskState, bump: bool) returns (r: Result<TaskRecord, TaskError>)
      requires Valid()
      modifies this
      ensures Valid() && clock >= old(clock)
      ensures old(Find(id)).None? ==> r == Failure(UnknownTask(id)) && rows == old(rows) && journal == old(journal)
      ensures old(Find(id)).Some? ==>
        var i := old(Find(id)).value;
        if target in LegalTargets(old(rows)[i].state) then
          var attempt := old(rows)[i].attempt + if bump then 1 else 0;
          var moved := old(rows)[i].(state := target, attempt := attempt, updatedAt := clock);
          && rows == old(rows)[i := moved]
          && journal == Emitted(old(journal), JournalEvent(StateEvent(target), moved.correlationId, id))
          && r == if Silent(moved) then Failure(EmptyCorrelation) else Success(moved)
        else
          && r == Failure(IllegalTransition(old(rows)[i].state, target))
          && rows == old(rows) && journal == old(journal)
      ensures !bump && old(AttemptsWithinBudget(rows)) ==> AttemptsWithinBudget(rows)
    {
      var found := Find(id);
      if found.None? {
        return Failure(UnknownTask(id));
      }
      var i := found.value;
      var record := rows[i];
      if target !in LegalTargets(record.state) {
        return Failure(IllegalTransition(record.state, target));
      }
      var at := Now();
      MoveKeeps(rows, journal, i, target, bump, old(clock), at);
      rows := rows[i := Moved(record, target, bump, at)];
      journal := Emitted(journal, JournalEvent(StateEvent(target), record.correlationId, id));
      r := if Silent(record) then Failure(EmptyCorrelation) else Success(rows[i]);
    }

    /** `retry`: the one operation that starts a new attempt, and never beyond the budget. */
    method Retry(id: Id) returns (r: Result<TaskRecord, TaskError>)
      requires Valid()
      modifies this
      ensures Valid() && clock >= old(clock)
      ensures var found := old(Find(id));
        if found.Some? && old(rows)[found.value].state == FAILED
           && old(rows)[found.value].attempt < old(rows)[found.value].maxAttempts then
          var attempt := old(rows)[found.value].attempt + 1;
          var moved := old(rows)[found.value].(state := QUEUED, attempt := attempt, updatedAt := clock);
          && rows == old(rows)[found.value := moved]
          && journal == Emitted(old(journal), JournalEvent(TASK_CREATED, moved.correlationId, id))
          && r == if Silent(moved) then Failure(EmptyCorrelation) else Success(moved)
        else
          && r == Failure(if found.None? then UnknownTask(id)
                          else if old(rows)[found.value].state != FAILED then NotFailed(old(rows)[found.value].state)
                          else RetryBudgetExhausted)
          && rows == old(rows) && journal == old(journal)
      ensures old(AttemptsWithinBudget(rows)) ==> AttemptsWithinBudget(rows)
    {
      var found := Find(id);
      if found.None? {
        return Failure(UnknownTask(id));
      }
      var record := rows[found.value];
      if record.state != FAILED {
        return Failure(NotFailed(record.state));
      }
      if record.RetriesLeft() < 1 {
        return Failure(RetryBudgetExhausted);
      }
      r := Transition(id, QUEUED, true);
    }

    /** One transition of a sweep. */
    method SweepOne(row: TaskRecord, target: TaskState) returns (r: Result<TaskRecord, TaskError>)
      requires Valid() && row.rowid < |rows| && rows[row.rowid] == row && target in LegalTargets(row.state)
      modifies this
      ensures Valid() && clock >= old(clock)
      ensures rows == old(rows)[row.rowid := Moved(row, target, false, clock)]
      ensures r == if Silent(row) then Failure(EmptyCorrelation) else Success(Moved(row, target, false, clock))
      ensures journal == if Silent(row) then old(journal) else old(journal) + EventsFor(row, target, false)
      ensures old(AttemptsWithinBudget(rows)) ==> AttemptsWithinBudget(rows)
    {
      FindById(rows, row.rowid);
      r := Transition(row.taskId, target, false);
    }

    /** One cancellation. */
    method CancelOne(row: TaskRecord) returns (r: Result<TaskRecord, TaskError>)
      requires Valid() && row.rowid < |rows| && rows[row.rowid] == row && IsLive(row.state)
      modifies this
      ensures Valid() && clock >= old(clock)
      ensures rows == old(rows)[row.rowid := Moved(row, CANCELLED, false, clock)]
      ensures r == if Silent(row) then Failure(EmptyCorrelation) else Success(Moved(row, CANCELLED, false, clock))
      ensures journal == if Silent(row) then old(journal) else old(journal) + EventsFor(row, CANCELLED, false)
      ensures old(AttemptsWithinBudget(rows)) ==> AttemptsWithinBudget(rows)
    {
      r := SweepOne(row, CANCELLED);
    }

    /** The kill switch, over the default page of `list_tasks`.  It raises at the first live task of the page
        whose correlation id is empty, with that task and those before it cancelled and the others untouched. */
    method CancelAll() returns (r: Result<seq<TaskRecord>, TaskError>)
      requires Valid()
      modifies this
      ensures Valid() && clock >= old(clock)
      ensures SweepOutcome(old(rows), rows, old(journal), journal, IsLive, CANCELLED, old(clock), false, r)
      ensures old(AttemptsWithinBudget(rows)) ==> AttemptsWithinBudget(rows)
    {
      var page := ListTasks(rows, DEFAULT_LIMIT);
      var cancelled: seq<TaskRecord> := [];
      ghost var before, since, start := rows, clock, journal;
      PageDistinct(rows, clock);
      SweepStarts(rows, page, IsLive, CANCELLED, since, false, start);
      for k := 0 to |page|
        invariant Valid() && clock >= since
        invariant SweepState(before, rows, page, k, IsLive, CANCELLED, since, false, start, journal, cancelled)
        invariant NoneSilent(page, k, IsLive)
        invariant AttemptsWithinBudget(before) ==> AttemptsWithinBudget(rows)
      {
        if IsLive(page[k].state) {
          ghost var earlier, told := rows, journal;
          NextIsUntouched(before, rows, page, k, IsLive, CANCELLED, since, false, start, journal, cancelled);
          var moved := CancelOne(page[k]);
          if moved.Failure? {
            SweepFails(before, earlier, rows, page, k, IsLive, CANCELLED, since, false, start, told, cancelled, clock);
            return Failure(moved.error);
          }
          SweepStateMoves(before, earlier, page, k, IsLive, CANCELLED, since, false, start, told, cancelled, moved.value, clock);
          cancelled := cancelled + [moved.value];
        } else {
          SweepStateSkips(before, rows, page, k, IsLive, CANCELLED, since, false, start, journal, cancelled);
        }
      }
      SweepDone(before, rows, page, IsLive, CANCELLED, since, false, start, journal, cancelled, clock);
      r := Success(cancelled);
    }

    /** One RESUMABLE transition and its TASK_INTERRUPTED marker. */
    method InterruptOne(row: TaskRecord) returns (r: Result<TaskRecord, TaskError>)
      requires Valid() && row.rowid < |rows| && rows[row.rowid] == row && IsInFlight(row.state)
      modifies this
      ensures Valid() && clock >= old(clock)
      ensures rows == old(rows)[row.rowid := Moved(row, RESUMABLE, false, clock)]
      ensures r == if Silent(row) then Failure(EmptyCorrelation) else Success(Moved(row, RESUMABLE, false, clock))
      ensures journal == if Silent(row) then old(journal) else old(journal) + EventsFor(row, RESUMABLE, true)
      ensures old(AttemptsWithinBudget(rows)) ==> AttemptsWithinBudget(rows)
    {
      r := SweepOne(row, RESUMABLE);
      if r.Success? {
        var marker := JournalEvent(TASK_INTERRUPTED, row.correlationId, row.taskId);
        MarkerKeeps(rows, journal, marker);
        MarkerCompletes(old(journal), row);
        journal := journal + [marker];
      }
    }

    /** Crash detection, over the same page and with the same way to fail. */
    method MarkInterrupted() returns (r: Result<seq<TaskRecord>, TaskError>)
      requires Valid()
      modifies this
      ensures Valid() && clock >= old(clock)
      ensures SweepOutcome(old(rows), rows, old(journal), journal, IsInFlight, RESUMABLE, old(clock), true, r)
      ensures old(AttemptsWithinBudget(rows)) ==> AttemptsWithinBudget(rows)
    {
      var page := ListTasks(rows, DEFAULT_LIMIT);
      var interrupted: seq<TaskRecord> := [];
      ghost var before, since, start := rows, clock, journal;
      PageDistinct(rows, clock);
      SweepStarts(rows, page, IsInFlight, RESUMABLE, since, true, start);
      for k := 0 to |page|
        invariant Valid() && clock >= since
        invariant SweepState(before, rows, page, k, IsInFlight, RESUMABLE, since, true, start, journal, interrupted)
        invariant NoneSilent(page, k, IsInFlight)
        invariant AttemptsWithinBudget(before) ==> AttemptsWithinBudget(rows)
      {
        if IsInFlight(page[k].state) {
          ghost var earlier, told := rows, journal;
          NextIsUntouched(before, rows, page, k, IsInFlight, RESUMABLE, since, true, start, journal, interrupted);
          var moved := InterruptOne(page[k]);
          if moved.Failure? {
            SweepFails(before, earlier, rows, page, k, IsInFlight, RESUMABLE, since, true, start, told, interrupted, clock);
            return Failure(moved.error);
          }
          SweepStateMoves(before, earlier, page, k, IsInFlight, RESUMABLE, since, true, start, told, interrupted, moved.value, clock);
          interrupted := interrupted + [moved.value];
        } else {
          SweepStateSkips(before, rows, page, k, IsInFlight, RESUMABLE, since, true, start, journal, interrupted);
        }
      }
      SweepDone(before, rows, page, IsInFlight, RESUMABLE, since, true, start, journal, interrupted, clock);
      r := Success(interrupted);
    }
  }

  lemma MarkerCompletes(journal: seq<JournalEvent>, row: TaskRecord)
    ensures (journal + EventsFor(row, RESUMABLE, false)) + [JournalEvent(TASK_INTERRUPTED, row.correlationId, row.taskId)]
      == journal + EventsFor(row, RESUMABLE, true)
  {
  }

  function FindFrom(rows: Table, id: Id, k: nat): (found: Option<nat>)
    requires k <= |rows|
    requires forall i :: 0 <= i < k ==> rows[i].taskId != id
    ensures found.None? <==> !HasTask(rows, id)
    ensures found.Some? ==> found.value < |rows| && rows[found.value].taskId == id
    decreases |rows| - k
  {
    if k == |rows| then None
    else if rows[k].taskId == id then Some(k)
    else FindFrom(rows, id, k + 1)
  }

  lemma FindById(rows: Table, i: nat)
    requires i < |rows| && forall p, q :: 0 <= p < q < |rows| ==> rows[p].taskId != rows[q].taskId
    ensures FindFrom(rows, rows[i].taskId, 0) == Some(i)
  {
    var found := FindFrom(rows, rows[i].taskId, 0);
    assert HasTask(rows, rows[i].taskId);
  }
}
