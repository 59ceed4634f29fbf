/** The scheduler's tick loop over registered entries. */
module Scheduling {
  import opened Ordering
  import opened Text
  import opened Schedules

  const MIN_COOLDOWN: int := 1_000_000

  datatype Config = Config(cooldown: int, maxPerTick: int) {
    predicate Valid() {
      cooldown >= MIN_COOLDOWN && maxPerTick >= 1
    }
  }

  datatype EntryState = EntryState(entry: Entry, executions: nat, lastFired: Option<int>)

  /** One fire: the `number`-th of its entry. */
  datatype Fire = Fire(scheduleId: Id, number: nat, at: int, title: string) {
    function CorrelationId(): string {
      Correlation(scheduleId, number)
    }
  }

  /** The entries in registration order, and every fire so far, each with the task it created. */
  datatype State = State(entries: seq<EntryState>, log: seq<Fire>)

  datatype Event = Add(entry: Entry) | Tick(now: int)

  datatype SchedulerError = AlreadyRegistered

  // ------------------------------------------------------- correlation ids

  function Digit(d: nat): char
    requires d < 10
  {
    ('0' as int + d) as char
  }

  /** Decimal notation. */
  function Decimal(n: nat): string {
    if n < 10 then [Digit(n)] else Decimal(n / 10) + [Digit(n % 10)]
  }

  function Correlation(scheduleId: Id, number: nat): string {
    "sched-" + scheduleId + ("-" + Decimal(number))
  }

  function Value(s: string): int {
    if s == [] then 0 else 10 * Value(s[..|s| - 1]) + (s[|s| - 1] as int - '0' as int)
  }

  lemma {:induction false} DecimalValue(n: nat)
    ensures Value(Decimal(n)) == n
    ensures forall i :: 0 <= i < |Decimal(n)| ==> Decimal(n)[i] != '-'
  {
    if n < 10 {
      assert [Digit(n)][..0] == [];
    } else {
      DecimalValue(n / 10);
      assert Decimal(n)[..|Decimal(n)| - 1] == Decimal(n / 10);
    }
  }

  ghost predicate LastDashAt(s: string, p: nat) {
    p < |s| && s[p] == '-' && forall i :: p < i < |s| ==> s[i] != '-'
  }

  lemma LastDashIs(a: string, b: string)
    requires forall i :: 0 <= i < |b| ==> b[i] != '-'
    ensures LastDashAt(a + ("-" + b), |a|)
    ensures (a + ("-" + b))[..|a|] == a && (a + ("-" + b))[|a| + 1..] == b
  {
  }

  /** A text is split uniquely at its last dash. */
  lemma LastDash(a: string, b: string, c: string, d: string)
    requires a + ("-" + b) == c + ("-" + d)
    requires forall i :: 0 <= i < |b| ==> b[i] != '-'
    requires forall i :: 0 <= i < |d| ==> d[i] != '-'
    ensures a == c && b == d
  {
    LastDashIs(a, b);
    LastDashIs(c, d);
    assert |a| == |c|;
  }

  /** Different fires have different correlation ids, even if schedule ids contain dashes and digits. */
  lemma CorrelationInjective(id: Id, n: nat, id': Id, n': nat)
    requires Correlation(id, n) == Correlation(id', n')
    ensures id == id' && n == n'
  {
    DecimalValue(n);
    DecimalValue(n');
    LastDash("sched-" + id, Decimal(n), "sched-" + id', Decimal(n'));
    assert ("sched-" + id)[6..] == id && ("sched-" + id')[6..] == id';
  }

  // ------------------------------------------------------- one tick

  predicate Registered(entries: seq<EntryState>, id: Id) {
    exists k :: 0 <= k < |entries| && entries[k].entry.scheduleId == id
  }

  /** The due time of the entry is asked for, and it has none. */
  predicate Jams(st: EntryState) {
    st.entry.enabled && st.entry.schedule.Unreadable?
  }

  /** Where a tick with budget to spare raises: the first enabled entry without a due time, or the end. */
  function FirstJam(entries: seq<EntryState>): (k: nat)
    ensures k <= |entries| && (k < |entries| ==> Jams(entries[k]))
    ensures forall j :: 0 <= j < k ==> !Jams(entries[j])
  {
    if entries == [] then 0
    else
      var k := |entries| - 1;
      var earlier := FirstJam(entries[..k]);
      if earlier < k || Jams(entries[k]) then earlier else earlier + 1
  }

  /** The entry is enabled, due and past its cooldown. */
  predicate Fires(cfg: Config, st: EntryState, now: int)
    requires st.entry.Valid()
  {
    && st.entry.enabled && !st.entry.schedule.Unreadable? && NextDue(st.entry, now) <= now
    && !(st.lastFired.Some? && now - st.lastFired.value < cfg.cooldown)
  }

  function AfterFire(st: EntryState, now: int): EntryState {
    var executions := st.executions + 1;
    var exhausted := st.entry.maxExecutions.Some? && executions >= st.entry.maxExecutions.value;
    EntryState(if exhausted then st.entry.(enabled := false) else st.entry, executions, Some(now))
  }

  function FireOf(st: EntryState, now: int): Fire {
    Fire(st.entry.scheduleId, st.executions + 1, now, "scheduled: " + st.entry.name)
  }

  function FireAt(s: State, k: nat, now: int): State
    requires k < |s.entries|
  {
    State(s.entries[k := AfterFire(s.entries[k], now)], s.log + [FireOf(s.entries[k], now)])
  }

  ghost predicate EntriesValid(entries: seq<EntryState>) {
    forall k :: 0 <= k < |entries| ==> entries[k].entry.Valid()
  }

  /** The tick after its first `k` entries. */
  function TickUpTo(cfg: Config, s: State, k: nat, now: int): (r: State)
    requires k <= |s.entries| && EntriesValid(s.entries)
    ensures |r.entries| == |s.entries| && EntriesValid(r.entries)
    ensures forall j :: k <= j < |s.entries| ==> r.entries[j] == s.entries[j]
  {
    if k == 0 then s
    else
      var before := TickUpTo(cfg, s, k - 1, now);
      if |before.log| - |s.log| >= cfg.maxPerTick || !Fires(cfg, s.entries[k - 1], now) then before
      else FireAt(before, k - 1, now)
  }

  /** A tick only adds to the log, and no more than its budget. */
  lemma {:induction false} TickKeepsBudget(cfg: Config, s: State, k: nat, now: int)
    requires cfg.Valid() && k <= |s.entries| && EntriesValid(s.entries)
    ensures var r := TickUpTo(cfg, s, k, now);
      |s.log| <= |r.log| <= |s.log| + cfg.maxPerTick && r.log[..|s.log|] == s.log
  {
    if k > 0 {
      TickKeepsBudget(cfg, s, k - 1, now);
    }
  }

  function Step(cfg: Config, s: State, e: Event): State
    requires EntriesValid(s.entries)
    requires e.Add? ==> e.entry.Valid()
  {
    match e
    case Add(entry) =>
      if Registered(s.entries, entry.scheduleId) then s else s.(entries := s.entries + [EntryState(entry, 0, None)])
    case Tick(now) => TickUpTo(cfg, s, FirstJam(s.entries), now)
  }

  /** The tick comes to an entry without a due time before its budget is spent. */
  predicate Raises(cfg: Config, s: State, now: int)
    requires EntriesValid(s.entries)
  {
    var k := FirstJam(s.entries);
    k < |s.entries| && |TickUpTo(cfg, s, k, now).log| - |s.log| < cfg.maxPerTick
  }

  class Scheduler {
    const cfg: Config
    var entries: seq<EntryState>
    var log: seq<Fire>

    function Content(): State
      reads this
    {
      State(entries, log)
    }

    ghost predicate Valid()
      reads this
    {
      cfg.Valid() && EntriesValid(entries)
    }

    constructor (cfg: Config)
      requires cfg.Valid()
      ensures Valid() && this.cfg == cfg && Content() == State([], [])
    {
      this.cfg := cfg;
      entries, log := [], [];
    }

    /** `add`. */
    method Register(entry: Entry) returns (r: Result<(), SchedulerError>)
      requires Valid() && entry.Valid()
      modifies this
      ensures Valid() && Content() == Step(cfg, old(Content()), Add(entry))
      ensures r.Failure? <==> exists k :: 0 <= k < |old(entries)| && old(entries)[k].entry.scheduleId == entry.scheduleId
      ensures log == old(log) && entries == if r.Success? then old(entries) + [EntryState(entry, 0, None)] else old(entries)
    {
      if Registered(entries, entry.scheduleId) {
        return Failure(AlreadyRegistered);
      }
      entries := entries + [EntryState(entry, 0, None)];
      r := Success(());
    }

    /** `tick`, up to the maintenance jobs.  What fired before an entry raises stays fired. */
    method RunTick(now: int) returns (fired: seq<Fire>, raised: bool)
      requires Valid()
      modifies this
      ensures Valid() && Content() == Step(cfg, old(Content()), Tick(now))
      ensures log == old(log) + fired
      ensures raised <==> Raises(cfg, old(Content()), now)
    {
      fired := [];
      ghost var before := Content();
      var k := 0;
      while k < |entries| && |fired| < cfg.maxPerTick && !Jams(entries[k])
        invariant Running(before, k, now) && log == before.log + fired
      {
        RoundNext(cfg, before, k, now);
        var st := entries[k];
        if Fires(cfg, st, now) {
          fired := fired + [FireOf(st, now)];
          log := log + [FireOf(st, now)];
          entries := entries[k := AfterFire(st, now)];
        }
        k := k + 1;
      }
      raised := k < |entries| && |fired| < cfg.maxPerTick;
      LoopEnds(cfg, before, k, now);
    }

    /** The loop of a tick after `k` entries. */
    ghost predicate Running(before: State, k: int, now: int)
      reads this
    {
      && Valid() && EntriesValid(before.entries) && 0 <= k <= FirstJam(before.entries)
      && Content() == TickUpTo(cfg, before, k, now)
    }
  }

  lemma RoundNext(cfg: Config, s: State, k: nat, now: int)
    requires cfg.Valid() && EntriesValid(s.entries) && k < |s.entries| && k <= FirstJam(s.entries)
    requires |TickUpTo(cfg, s, k, now).log| - |s.log| < cfg.maxPerTick && !Jams(s.entries[k])
    ensures k < FirstJam(s.entries)
    ensures var before := TickUpTo(cfg, s, k, now);
      && before.entries[k] == s.entries[k]
      && TickUpTo(cfg, s, k + 1, now) == if Fires(cfg, s.entries[k], now) then FireAt(before, k, now) else before
  {
  }

  /** The loop ends where no later entry can fire. */
  lemma LoopEnds(cfg: Config, s: State, k: nat, now: int)
    requires cfg.Valid() && EntriesValid(s.entries) && k <= FirstJam(s.entries)
    requires var r := TickUpTo(cfg, s, k, now);
      k == |s.entries| || |r.log| - |s.log| >= cfg.maxPerTick || Jams(r.entries[k])
    ensures TickUpTo(cfg, s, k, now) == Step(cfg, s, Tick(now))
    ensures Raises(cfg, s, now) <==> k < |s.entries| && |TickUpTo(cfg, s, k, now).log| - |s.log| < cfg.maxPerTick
  {
    BudgetSpent(cfg, s, k, FirstJam(s.entries), now);
  }

  lemma {:induction false} BudgetSpent(cfg: Config, s: State, k: nat, n: nat, now: int)
    requires k <= n <= |s.entries| && EntriesValid(s.entries)
    requires k == n || |TickUpTo(cfg, s, k, now).log| - |s.log| >= cfg.maxPerTick
    ensures TickUpTo(cfg, s, n, now) == TickUpTo(cfg, s, k, now)
  {
    if k < n {
      BudgetSpent(cfg, s, k, n - 1, now);
    }
  }
}
