/** What holds over whole runs of the scheduler. */
module SchedulerRules {
  import opened Ordering
  import opened Text
  import opened Schedules
  import opened Scheduling

  function Run(cfg: Config, s: State, events: seq<Event>): State
    requires EntriesValid(s.entries) && forall e :: e in events && e.Add? ==> e.entry.Valid()
    decreases |events|
  {
    if events == [] then s else Run(cfg, Step(cfg, s, events[0]), events[1..])
  }

  /** The clock does not run backwards. */
  ghost predicate Ordered(events: seq<Event>, from: int) {
    && (forall i :: 0 <= i < |events| && events[i].Tick? ==> from <= events[i].now)
    && (forall i, j :: 0 <= i < j < |events| && events[i].Tick? && events[j].Tick? ==> events[i].now <= events[j].now)
  }

  // ------------------------------------------------------- the invariant

  /** Within its limit, and disabled as soon as that is reached. */
  predicate WithinLimit(st: EntryState) {
    st.entry.maxExecutions.Some? ==>
      && st.executions <= st.entry.maxExecutions.value
      && (st.executions == st.entry.maxExecutions.value ==> !st.entry.enabled)
  }

  /** What one fire in the log says about the entry that fired. */
  predicate Recorded(st: EntryState, f: Fire) {
    f.scheduleId == st.entry.scheduleId ==>
      1 <= f.number <= st.executions && st.lastFired.Some? && f.at <= st.lastFired.value && DueBy(st.entry, f.at)
  }

  /** Two fires of one entry carry increasing numbers and are a cooldown apart. */
  predicate Spaced(cfg: Config, f: Fire, later: Fire) {
    f.scheduleId == later.scheduleId ==> f.number < later.number && later.at - f.at >= cfg.cooldown
  }

  ghost predicate UniqueIds(entries: seq<EntryState>) {
    forall j, k :: 0 <= j < k < |entries| ==> entries[j].entry.scheduleId != entries[k].entry.scheduleId
  }

  ghost predicate EntriesKept(entries: seq<EntryState>, now: int) {
    && EntriesValid(entries) && UniqueIds(entries)
    && (forall k :: 0 <= k < |entries| ==>
          WithinLimit(entries[k]) && (entries[k].lastFired.Some? ==> entries[k].lastFired.value <= now))
  }

  ghost predicate LogKept(cfg: Config, entries: seq<EntryState>, log: seq<Fire>) {
    && (forall i :: 0 <= i < |log| ==> Registered(entries, log[i].scheduleId))
    && (forall i, k :: 0 <= i < |log| && 0 <= k < |entries| ==> Recorded(entries[k], log[i]))
    && (forall i, j :: 0 <= i < j < |log| ==> Spaced(cfg, log[i], log[j]))
  }

  ghost predicate Kept(cfg: Config, s: State, now: int) {
    EntriesKept(s.entries, now) && LogKept(cfg, s.entries, s.log)
  }

  function CountFor(log: seq<Fire>, id: Id): nat {
    if log == [] then 0
    else CountFor(log[..|log| - 1], id) + (if log[|log| - 1].scheduleId == id then 1 else 0)
  }

  ghost predicate Counted(s: State) {
    forall k :: 0 <= k < |s.entries| ==> s.entries[k].executions == CountFor(s.log, s.entries[k].entry.scheduleId)
  }

  // ------------------------------------------------------- every step keeps it

  lemma FireKeepsEntries(cfg: Config, entries: seq<EntryState>, k: nat, now: int)
    requires cfg.Valid() && EntriesKept(entries, now) && k < |entries| && Fires(cfg, entries[k], now)
    ensures EntriesKept(entries[k := AfterFire(entries[k], now)], now)
  {
    assert WithinLimit(entries[k]);
    var after := entries[k := AfterFire(entries[k], now)];
    assert forall j :: 0 <= j < |entries| ==> after[j].entry.scheduleId == entries[j].entry.scheduleId;
  }

  lemma RegisteredStays(entries: seq<EntryState>, k: nat, now: int, id: Id)
    requires k < |entries| && Registered(entries, id)
    ensures Registered(entries[k := AfterFire(entries[k], now)], id)
  {
    var j :| 0 <= j < |entries| && entries[j].entry.scheduleId == id;
    assert entries[k := AfterFire(entries[k], now)][j].entry.scheduleId == id;
  }

  lemma FireKeepsLog(cfg: Config, s: State, k: nat, now: int)
    requires cfg.Valid() && Kept(cfg, s, now) && k < |s.entries| && Fires(cfg, s.entries[k], now)
    ensures LogKept(cfg, FireAt(s, k, now).entries, FireAt(s, k, now).log)
  {
    var st, f := s.entries[k], FireOf(s.entries[k], now);
    var after, log := FireAt(s, k, now).entries, FireAt(s, k, now).log;
    DueIff(st.entry, now);
    forall i | 0 <= i < |log|
      ensures Registered(after, log[i].scheduleId)
    {
      if i < |s.log| {
        RegisteredStays(s.entries, k, now, s.log[i].scheduleId);
      } else {
        assert after[k].entry.scheduleId == log[i].scheduleId;
      }
    }
    forall i, j | 0 <= i < |log| && 0 <= j < |after|
      ensures Recorded(after[j], log[i])
    {
      assert i < |s.log| ==> Recorded(s.entries[j], s.log[i]);
      assert j != k ==> s.entries[j].entry.scheduleId != st.entry.scheduleId;
    }
    forall i, j | 0 <= i < j < |log|
      ensures Spaced(cfg, log[i], log[j])
    {
      assert j < |s.log| ==> Spaced(cfg, s.log[i], s.log[j]);
      assert Recorded(st, s.log[i]);
    }
  }

  lemma CountNext(log: seq<Fire>, f: Fire, id: Id)
    ensures CountFor(log + [f], id) == CountFor(log, id) + if f.scheduleId == id then 1 else 0
  {
    assert (log + [f])[..|log|] == log;
  }

  lemma FireKeepsCount(s: State, k: nat, now: int)
    requires UniqueIds(s.entries) && Counted(s) && k < |s.entries|
    ensures Counted(FireAt(s, k, now))
  {
    var after := FireAt(s, k, now);
    forall j | 0 <= j < |after.entries|
      ensures after.entries[j].executions == CountFor(after.log, after.entries[j].entry.scheduleId)
    {
      CountNext(s.log, FireOf(s.entries[k], now), s.entries[j].entry.scheduleId);
      assert s.entries[j].executions == CountFor(s.log, s.entries[j].entry.scheduleId);
      assert j != k ==> s.entries[j].entry.scheduleId != s.entries[k].entry.scheduleId;
    }
  }

  lemma FireKeeps(cfg: Config, s: State, k: nat, now: int)
    requires cfg.Valid() && Kept(cfg, s, now) && Counted(s) && k < |s.entries| && Fires(cfg, s.entries[k], now)
    ensures Kept(cfg, FireAt(s, k, now), now) && Counted(FireAt(s, k, now))
  {
    FireKeepsEntries(cfg, s.entries, k, now);
    FireKeepsLog(cfg, s, k, now);
    FireKeepsCount(s, k, now);
  }

  ghost predicate Sound(cfg: Config, s: State, now: int) {
    Kept(cfg, s, now) && Counted(s)
  }

  /** One round of the tick loop. */
  lemma RoundKeeps(cfg: Config, s: State, k: nat, now: int)
    requires cfg.Valid() && EntriesValid(s.entries) && k < |s.entries| && Sound(cfg, TickUpTo(cfg, s, k, now), now)
    ensures Sound(cfg, TickUpTo(cfg, s, k + 1, now), now)
  {
    var before := TickUpTo(cfg, s, k, now);
    if TickUpTo(cfg, s, k + 1, now) != before {
      FireKeeps(cfg, before, k, now);
    }
  }

  lemma TickStarts(cfg: Config, s: State, now: int)
    requires EntriesValid(s.entries)
    ensures TickUpTo(cfg, s, 0, now) == s
  {
  }

  lemma {:induction false} TickKeeps(cfg: Config, s: State, k: nat, now: int)
    requires cfg.Valid() && EntriesValid(s.entries) && Sound(cfg, s, now) && k <= |s.entries|
    ensures Sound(cfg, TickUpTo(cfg, s, k, now), now)
    decreases k
  {
    if k == 0 {
      TickStarts(cfg, s, now);
    } else {
      var j: nat := k - 1;
      TickKeeps(cfg, s, j, now);
      RoundKeeps(cfg, s, j, now);
    }
  }

  lemma {:induction false} CountMissing(log: seq<Fire>, id: Id)
    requires forall i :: 0 <= i < |log| ==> log[i].scheduleId != id
    ensures CountFor(log, id) == 0
  {
    if log != [] {
      CountMissing(log[..|log| - 1], id);
    }
  }

  lemma AddKeepsLog(cfg: Config, s: State, st: EntryState)
    requires LogKept(cfg, s.entries, s.log) && !Registered(s.entries, st.entry.scheduleId)
    ensures LogKept(cfg, s.entries + [st], s.log)
    ensures forall i :: 0 <= i < |s.log| ==> s.log[i].scheduleId != st.entry.scheduleId
  {
    var after := s.entries + [st];
    forall i | 0 <= i < |s.log|
      ensures s.log[i].scheduleId != st.entry.scheduleId && Registered(after, s.log[i].scheduleId)
    {
      assert Registered(s.entries, s.log[i].scheduleId);
      var j :| 0 <= j < |s.entries| && s.entries[j].entry.scheduleId == s.log[i].scheduleId;
      assert after[j].entry.scheduleId == s.log[i].scheduleId;
    }
  }

  lemma AddKeepsEntries(entries: seq<EntryState>, st: EntryState, now: int)
    requires EntriesKept(entries, now) && !Registered(entries, st.entry.scheduleId)
    requires st.entry.Valid() && WithinLimit(st) && st.lastFired.None?
    ensures EntriesKept(entries + [st], now)
  {
    assert forall j :: 0 <= j < |entries| ==> entries[j].entry.scheduleId != st.entry.scheduleId;
  }

  lemma AddKeeps(cfg: Config, s: State, entry: Entry, now: int)
    requires Kept(cfg, s, now) && Counted(s) && entry.Valid() && !Registered(s.entries, entry.scheduleId)
    ensures var after := s.(entries := s.entries + [EntryState(entry, 0, None)]); Kept(cfg, after, now) && Counted(after)
  {
    AddKeepsLog(cfg, s, EntryState(entry, 0, None));
    AddKeepsEntries(s.entries, EntryState(entry, 0, None), now);
    CountMissing(s.log, entry.scheduleId);
  }

  ghost predicate Proper(events: seq<Event>, from: int) {
    Ordered(events, from) && forall e :: e in events && e.Add? ==> e.entry.Valid()
  }

  /** Every run keeps the invariant. */
  lemma {:induction false} RunKeeps(cfg: Config, s: State, events: seq<Event>, from: int) returns (to: int)
    requires cfg.Valid() && Kept(cfg, s, from) && Counted(s) && Proper(events, from)
    ensures Kept(cfg, Run(cfg, s, events), to) && Counted(Run(cfg, s, events))
    decreases |events|
  {
    to := from;
    if events != [] {
      assert events[0] in events;
      var next := Step(cfg, s, events[0]);
      match events[0] {
        case Tick(now) =>
          KeptLater(cfg, s, from, now);
          TickKeeps(cfg, s, FirstJam(s.entries), now);
          to := now;
        case Add(entry) =>
          if !Registered(s.entries, entry.scheduleId) {
            AddKeeps(cfg, s, entry, from);
          }
      }
      assert forall i :: 0 <= i < |events| - 1 ==> events[1..][i] == events[i + 1];
      to := RunKeeps(cfg, next, events[1..], to);
    }
  }

  lemma KeptLater(cfg: Config, s: State, now: int, later: int)
    requires Kept(cfg, s, now) && now <= later
    ensures Kept(cfg, s, later)
  {
  }

  // ------------------------------------------------------- the promises

  const IDLE := State([], [])

  /** Over every run with a clock that does not run backwards: the fires of an entry are at least a cooldown
      apart, so none fires twice in a tick; an entry fires as often as it counts and never beyond its limit;
      all tasks have different correlation ids. */
  lemma RunPromises(cfg: Config, events: seq<Event>, from: int)
    requires cfg.Valid() && Proper(events, from)
    ensures var s := Run(cfg, IDLE, events);
      && (forall i, j :: 0 <= i < j < |s.log| && s.log[i].scheduleId == s.log[j].scheduleId ==>
            s.log[j].at - s.log[i].at >= cfg.cooldown)
      && (forall i, j :: 0 <= i < j < |s.log| ==> s.log[i].CorrelationId() != s.log[j].CorrelationId())
      && (forall k :: 0 <= k < |s.entries| ==>
            var st := s.entries[k];
            CountFor(s.log, st.entry.scheduleId) == st.executions
            && (st.entry.maxExecutions.Some? ==> st.executions <= st.entry.maxExecutions.value))
  {
    var to := RunKeeps(cfg, IDLE, events, from);
    var s := Run(cfg, IDLE, events);
    forall i, j | 0 <= i < j < |s.log|
      ensures s.log[i].CorrelationId() != s.log[j].CorrelationId()
      ensures s.log[i].scheduleId == s.log[j].scheduleId ==> s.log[j].at - s.log[i].at >= cfg.cooldown
    {
      assert Spaced(cfg, s.log[i], s.log[j]);
      if s.log[i].CorrelationId() == s.log[j].CorrelationId() {
        CorrelationInjective(s.log[i].scheduleId, s.log[i].number, s.log[j].scheduleId, s.log[j].number);
      }
    }
    forall k | 0 <= k < |s.entries|
      ensures WithinLimit(s.entries[k])
    {
    }
  }

  /** A daily, weekly or unreadable entry never fires, whatever the run. */
  lemma DailyAndWeeklyNeverFire(cfg: Config, events: seq<Event>, from: int, k: nat)
    requires cfg.Valid() && Proper(events, from) && k < |Run(cfg, IDLE, events).entries|
    requires var schedule := Run(cfg, IDLE, events).entries[k].entry.schedule; schedule.Daily? || schedule.Weekly? || schedule.Unreadable?
    ensures Run(cfg, IDLE, events).entries[k].executions == 0
  {
    var to := RunKeeps(cfg, IDLE, events, from);
    var s := Run(cfg, IDLE, events);
    forall i | 0 <= i < |s.log|
      ensures s.log[i].scheduleId != s.entries[k].entry.scheduleId
    {
      assert Recorded(s.entries[k], s.log[i]);
    }
    CountMissing(s.log, s.entries[k].entry.scheduleId);
  }

  // ------------------------------------------------------- one tick, exactly

  /** The fires of all entries that are ready, in registration order. */
  function AllReady(cfg: Config, entries: seq<EntryState>, now: int): seq<Fire>
    requires EntriesValid(entries)
  {
    if entries == [] then []
    else
      var k := |entries| - 1;
      var earlier := AllReady(cfg, entries[..k], now);
      if Fires(cfg, entries[k], now) then earlier + [FireOf(entries[k], now)] else earlier
  }

  lemma {:induction false} TickUpToFires(cfg: Config, s: State, k: nat, now: int)
    requires cfg.Valid() && EntriesValid(s.entries) && k <= |s.entries|
    ensures TickUpTo(cfg, s, k, now).log == s.log + Take(AllReady(cfg, s.entries[..k], now), cfg.maxPerTick)
  {
    if k > 0 {
      TickUpToFires(cfg, s, k - 1, now);
      assert s.entries[..k][..k - 1] == s.entries[..k - 1];
    }
  }

  /** A tick fires exactly the first `maxPerTick` ready entries before the one that raises, each once. */
  lemma TickFiresFirstReady(cfg: Config, s: State, now: int)
    requires cfg.Valid() && EntriesValid(s.entries)
    ensures var ready := AllReady(cfg, s.entries[..FirstJam(s.entries)], now);
      && Step(cfg, s, Tick(now)).log == s.log + Take(ready, cfg.maxPerTick)
      && (Raises(cfg, s, now) <==> FirstJam(s.entries) < |s.entries| && |ready| < cfg.maxPerTick)
  {
    TickUpToFires(cfg, s, FirstJam(s.entries), now);
  }

  // ------------------------------------------------------- an entry that raises

  /** Entry `g` raises, everything behind it is as it was, and nothing behind it has fired. */
  ghost predicate Jammed(s: State, from: State, g: nat) {
    && g < |from.entries| <= |s.entries| && Jams(from.entries[g])
    && s.entries[g..|from.entries|] == from.entries[g..]
    && (forall k :: |from.entries| <= k < |s.entries| ==> s.entries[k].executions == 0)
  }

  lemma StepKeepsJam(cfg: Config, s: State, e: Event, from: State, g: nat)
    requires EntriesValid(s.entries) && (e.Add? ==> e.entry.Valid()) && Jammed(s, from, g)
    ensures Jammed(Step(cfg, s, e), from, g)
  {
    var next := Step(cfg, s, e);
    assert s.entries[g] == s.entries[g..|from.entries|][0] == from.entries[g..][0];
    assert FirstJam(s.entries) <= g;
    assert forall j :: g <= j < |s.entries| ==> next.entries[j] == s.entries[j];
    assert next.entries[g..|from.entries|] == s.entries[g..|from.entries|];
  }

  lemma {:induction false} RunKeepsJam(cfg: Config, s: State, events: seq<Event>, from: State, g: nat)
    requires EntriesValid(s.entries) && (forall e :: e in events && e.Add? ==> e.entry.Valid())
    requires Jammed(s, from, g)
    ensures Jammed(Run(cfg, s, events), from, g)
    decreases |events|
  {
    if events != [] {
      assert events[0] in events;
      StepKeepsJam(cfg, s, events[0], from, g);
      RunKeepsJam(cfg, Step(cfg, s, events[0]), events[1..], from, g);
    }
  }

  /** One enabled entry with a text that is no time stops every entry behind it, in every run: they keep their
      state, and whatever is registered later never fires. */
  lemma JamIsForEver(cfg: Config, s: State, events: seq<Event>, g: nat)
    requires EntriesValid(s.entries) && (forall e :: e in events && e.Add? ==> e.entry.Valid())
    requires g < |s.entries| && Jams(s.entries[g])
    ensures var after := Run(cfg, s, events).entries;
      && |after| >= |s.entries| && after[g..|s.entries|] == s.entries[g..]
      && (forall k :: |s.entries| <= k < |after| ==> after[k].executions == 0)
  {
    RunKeepsJam(cfg, s, events, s, g);
  }

  // ------------------------------------------------------- what a lone entry does

  function Lone(e: Entry): State {
    State([EntryState(e, 0, None)], [])
  }

  function FirstDue(e: Entry): int
    requires e.schedule.Once? || e.schedule.Every?
  {
    if e.schedule.Once? then e.schedule.at else e.createdAt + e.schedule.interval
  }

  lemma LoneTick(cfg: Config, st: EntryState, log: seq<Fire>, now: int)
    requires cfg.Valid() && st.entry.Valid() && st.entry.enabled && DueBy(st.entry, now)
    requires st.lastFired.Some? ==> now - st.lastFired.value >= cfg.cooldown
    ensures Step(cfg, State([st], log), Tick(now)) == State([AfterFire(st, now)], log + [FireOf(st, now)])
  {
    DueIff(st.entry, now);
    var s := State([st], log);
    assert TickUpTo(cfg, s, 0, now) == s;
  }

  lemma TwoTicks(cfg: Config, s: State, first: int, second: int)
    requires EntriesValid(s.entries)
    ensures Run(cfg, s, [Tick(first), Tick(second)]) == Step(cfg, Step(cfg, s, Tick(first)), Tick(second))
  {
    var s1 := Step(cfg, s, Tick(first));
    var s2 := Step(cfg, s1, Tick(second));
    assert [Tick(first), Tick(second)][1..] == [Tick(second)] && [Tick(second)][1..] == [];
    assert Run(cfg, s2, []) == s2 && Run(cfg, s1, [Tick(second)]) == s2;
  }

  /** A due entry that may fire more than once fires again one cooldown later, whatever its interval. */
  lemma FiresTwice(cfg: Config, e: Entry)
    requires cfg.Valid() && e.Valid() && e.enabled && (e.schedule.Once? || e.schedule.Every?)
    requires e.maxExecutions != Some(1)
    ensures var start := FirstDue(e);
      Run(cfg, Lone(e), [Tick(start), Tick(start + cfg.cooldown)]).log ==
      [FireOf(EntryState(e, 0, None), start), FireOf(EntryState(e, 1, Some(start)), start + cfg.cooldown)]
  {
    var start := FirstDue(e);
    var st0, st1 := EntryState(e, 0, None), EntryState(e, 1, Some(start));
    LoneTick(cfg, st0, [], start);
    assert AfterFire(st0, start) == st1 && [] + [FireOf(st0, start)] == [FireOf(st0, start)];
    LoneTick(cfg, st1, [FireOf(st0, start)], start + cfg.cooldown);
    TwoTicks(cfg, Lone(e), start, start + cfg.cooldown);
  }

  /** In every run that starts with the entry alone, its fires are at least `gap` apart. */
  ghost predicate AlwaysApart(cfg: Config, e: Entry, gap: int)
    requires e.Valid()
  {
    forall events, from :: Proper(events, from) ==> Apart(Run(cfg, Lone(e), events).log, e.scheduleId, gap)
  }

  ghost predicate Apart(log: seq<Fire>, id: Id, gap: int) {
    forall i, j :: 0 <= i < j < |log| && log[i].scheduleId == log[j].scheduleId == id ==> log[j].at - log[i].at >= gap
  }

  ghost predicate AtMostOne(log: seq<Fire>, id: Id) {
    forall i, j :: 0 <= i < j < |log| ==> !(log[i].scheduleId == log[j].scheduleId == id)
  }

  lemma {:induction false} RunKeepsLimit(cfg: Config, s: State, events: seq<Event>, k: nat)
    requires EntriesValid(s.entries) && forall e :: e in events && e.Add? ==> e.entry.Valid()
    requires k < |s.entries|
    ensures var after := Run(cfg, s, events).entries;
      k < |after| && after[k].entry.scheduleId == s.entries[k].entry.scheduleId
      && after[k].entry.maxExecutions == s.entries[k].entry.maxExecutions
    decreases |events|
  {
    if events != [] {
      assert events[0] in events;
      if events[0].Tick? {
        TickKeepsLimit(cfg, s, FirstJam(s.entries), events[0].now, k);
      }
      RunKeepsLimit(cfg, Step(cfg, s, events[0]), events[1..], k);
    }
  }

  lemma {:induction false} TickKeepsLimit(cfg: Config, s: State, n: nat, now: int, k: nat)
    requires EntriesValid(s.entries) && n <= |s.entries| && k < |s.entries|
    ensures var after := TickUpTo(cfg, s, n, now).entries[k].entry;
      after.scheduleId == s.entries[k].entry.scheduleId && after.maxExecutions == s.entries[k].entry.maxExecutions
  {
    if n > 0 {
      TickKeepsLimit(cfg, s, n - 1, now, k);
    }
  }

  lemma LoneRun(cfg: Config, e: Entry, events: seq<Event>, from: int) returns (to: int)
    requires cfg.Valid() && e.Valid() && Proper(events, from)
    ensures Kept(cfg, Run(cfg, Lone(e), events), to)
    ensures e.maxExecutions == Some(1) ==> AtMostOne(Run(cfg, Lone(e), events).log, e.scheduleId)
  {
    to := RunKeeps(cfg, Lone(e), events, from);
    var s := Run(cfg, Lone(e), events);
    RunKeepsLimit(cfg, Lone(e), events, 0);
    assert WithinLimit(s.entries[0]);
    forall i, j | 0 <= i < j < |s.log| && e.maxExecutions == Some(1)
      ensures !(s.log[i].scheduleId == s.log[j].scheduleId == e.scheduleId)
    {
      assert Spaced(cfg, s.log[i], s.log[j]);
      assert Recorded(s.entries[0], s.log[i]) && Recorded(s.entries[0], s.log[j]);
    }
  }

  lemma TwoTicksAreProper(start: int, later: int)
    requires start <= later
    ensures Proper([Tick(start), Tick(later)], start)
  {
  }

  /** A ONCE entry fires at most once in every run exactly when its limit is 1: otherwise it stays due and
      fires again after every cooldown. */
  lemma OnceIsOneShotIff(cfg: Config, e: Entry)
    requires cfg.Valid() && e.Valid() && e.enabled && e.schedule.Once?
    ensures (forall events, from :: Proper(events, from) ==> AtMostOne(Run(cfg, Lone(e), events).log, e.scheduleId))
      <==> e.maxExecutions == Some(1)
  {
    if e.maxExecutions == Some(1) {
      forall events, from | Proper(events, from)
        ensures AtMostOne(Run(cfg, Lone(e), events).log, e.scheduleId)
      {
        var to := LoneRun(cfg, e, events, from);
      }
    } else {
      var start := FirstDue(e);
      var events := [Tick(start), Tick(start + cfg.cooldown)];
      TwoTicksAreProper(start, start + cfg.cooldown);
      FiresTwice(cfg, e);
      var log := Run(cfg, Lone(e), events).log;
      assert log[0].scheduleId == log[1].scheduleId == e.scheduleId;
      assert !AtMostOne(log, e.scheduleId);
    }
  }

  /** The fires of an INTERVAL entry are an interval apart in every run exactly when the cooldown is no shorter
      than the interval, or the entry may fire only once: the due time ignores the last fire. */
  lemma IntervalIsKeptIff(cfg: Config, e: Entry)
    requires cfg.Valid() && e.Valid() && e.enabled && e.schedule.Every?
    ensures AlwaysApart(cfg, e, e.schedule.interval) <==> cfg.cooldown >= e.schedule.interval || e.maxExecutions == Some(1)
  {
    if cfg.cooldown >= e.schedule.interval || e.maxExecutions == Some(1) {
      forall events, from | Proper(events, from)
        ensures Apart(Run(cfg, Lone(e), events).log, e.scheduleId, e.schedule.interval)
      {
        var to := LoneRun(cfg, e, events, from);
        var log := Run(cfg, Lone(e), events).log;
        forall i, j | 0 <= i < j < |log| && log[i].scheduleId == log[j].scheduleId == e.scheduleId
          ensures log[j].at - log[i].at >= e.schedule.interval
        {
          assert Spaced(cfg, log[i], log[j]);
        }
      }
    } else {
      var start := FirstDue(e);
      var events := [Tick(start), Tick(start + cfg.cooldown)];
      TwoTicksAreProper(start, start + cfg.cooldown);
      FiresTwice(cfg, e);
      var log := Run(cfg, Lone(e), events).log;
      assert log[0].scheduleId == log[1].scheduleId == e.scheduleId && log[1].at - log[0].at == cfg.cooldown;
      assert !Apart(log, e.scheduleId, e.schedule.interval);
    }
  }
}
