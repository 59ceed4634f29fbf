/** When the documented limits of the pool hold, under the discipline of the real semaphore. */
module PoolPromises {
  import opened Ordering
  import opened AgentPooling
  import opened PoolRules

  /** The semaphore's own discipline: an acquire suspends only while no permit is free or others wait, and the
      one that has waited longest goes first.  An acquire that need not wait is admitted with its check. */
  ghost predicate Disciplined(l: Limits, s: Pool, events: seq<Event>)
    decreases |events|
  {
    events == [] || (
      && (events[0].Admit? ==> events[0].index == 0)
      && (NeedNotWait(l, s, events[0]) ==> AdmitsFirst(s, events[1..]))
      && Disciplined(l, Step(l, s, events[0]), events[1..]))
  }

  predicate NeedNotWait(l: Limits, s: Pool, e: Event) {
    e.Check? && Refusal(l, s, e.ticket).None? && s.permits > 0 && s.waiting == []
  }

  ghost predicate AdmitsFirst(s: Pool, rest: seq<Event>) {
    rest != [] && rest[0].Admit? && rest[0].index == 0 && rest[0].runId !in s.live
  }

  lemma {:induction false} DisciplinedAppend(l: Limits, s: Pool, a: seq<Event>, b: seq<Event>)
    requires Disciplined(l, s, a) && Disciplined(l, Run(l, s, a), b)
    ensures Disciplined(l, s, a + b)
    decreases |a|
  {
    if a == [] {
      assert a + b == b;
    } else {
      assert (a + b)[1..] == a[1..] + b && (a + b)[0] == a[0];
      DisciplinedAppend(l, Step(l, s, a[0]), a[1..], b);
    }
  }

  /** Nobody waits, and both limits are kept. */
  ghost predicate Unhurried(l: Limits, s: Pool, parent: Id) {
    && s.waiting == [] && s.permits + |s.live| == l.maxConcurrent && |s.live| <= s.totalSpawned <= l.maxTotal
    && ChildCount(s, parent) <= l.maxChildren
  }

  /** An acquire that passes its checks is admitted at once. */
  lemma AdmittedAtOnce(l: Limits, s: Pool, check: Event, admit: Event, parent: Id)
    requires l.Valid() && Unhurried(l, s, parent) && NeedNotWait(l, s, check)
    requires admit.Admit? && admit.index == 0 && admit.runId !in s.live
    ensures Unhurried(l, Step(l, Step(l, s, check), admit), parent)
  {
    var next := Step(l, s, check);
    assert next.waiting == [check.ticket] && Without([check.ticket], 0) == [];
    StepKeepsPermits(l, s, check);
    StepKeepsPermits(l, next, admit);
    assert |Step(l, next, admit).live.Keys| == |s.live.Keys| + 1;
  }

  lemma OtherwiseNobodyWaits(l: Limits, s: Pool, e: Event, parent: Id)
    requires l.Valid() && l.maxTotal <= l.maxConcurrent && Unhurried(l, s, parent) && !NeedNotWait(l, s, e)
    ensures Unhurried(l, Step(l, s, e), parent)
  {
    StepKeepsPermits(l, s, e);
    LiveShrinks(l, s, e);
  }

  /** With no more spawns than permits nobody ever waits, and the documented limits are kept. */
  lemma {:induction false} NobodyWaits(l: Limits, s: Pool, events: seq<Event>, parent: Id)
    requires l.Valid() && l.maxTotal <= l.maxConcurrent && Unhurried(l, s, parent) && Disciplined(l, s, events)
    ensures Run(l, s, events).totalSpawned <= l.maxTotal
    ensures ChildCount(Run(l, s, events), parent) <= l.maxChildren
    decreases |events|
  {
    if events != [] {
      var next := Step(l, s, events[0]);
      if NeedNotWait(l, s, events[0]) {
        AdmittedAtOnce(l, s, events[0], events[1], parent);
        assert events[1..][0] == events[1] && events[1..][1..] == events[2..];
        NobodyWaits(l, Step(l, next, events[1]), events[2..], parent);
      } else {
        OtherwiseNobodyWaits(l, s, events[0], parent);
        NobodyWaits(l, next, events[1..], parent);
      }
    }
  }

  lemma LiveShrinks(l: Limits, s: Pool, e: Event)
    requires s.waiting == [] && Step(l, s, e).waiting == []
    ensures |Step(l, s, e).live| <= |s.live| && Step(l, s, e).totalSpawned == s.totalSpawned
  {
    if e.Release? && e.runId in s.live {
      SizeWithout(s.live, e.runId);
    }
    if e.Heartbeat? && e.runId in s.live {
      assert Step(l, s, e).live.Keys == s.live.Keys;
      assert |Step(l, s, e).live.Keys| == |s.live.Keys|;
    }
  }

  const FIRST_RUN: Id := []
  const ANY_ENTRY := Entry([], 0, 0, HEALTHY, 0)

  /** An acquire at depth 0, for a parent or for none. */
  function Asking(parent: Option<Id>): Ticket {
    Ticket([], 0, 0, parent)
  }

  function Name(n: nat): Id {
    if n == 0 then [] else Name(n - 1) + ['r']
  }

  lemma {:induction false} NameLength(n: nat)
    ensures |Name(n)| == n
  {
    if n > 0 {
      NameLength(n - 1);
    }
  }

  /** `n` live runs. */
  function LiveOf(n: nat): (live: map<Id, Entry>) {
    if n == 0 then map[] else LiveOf(n - 1)[Name(n - 1) := ANY_ENTRY]
  }

  lemma {:induction false} LiveOfFacts(n: nat)
    ensures forall id :: id in LiveOf(n) ==> |id| < n && LiveOf(n)[id] == ANY_ENTRY
    ensures n > 0 ==> FIRST_RUN in LiveOf(n)
  {
    if n > 0 {
      NameLength(n - 1);
      LiveOfFacts(n - 1);
    }
  }

  function Waiters(parent: Option<Id>, k: nat): seq<Ticket> {
    if k == 0 then [] else Waiters(parent, k - 1) + [Asking(parent)]
  }

  lemma {:induction false} WaitersFront(parent: Option<Id>, k: nat)
    requires k > 0
    ensures var w := Waiters(parent, k); |w| == k && w[0] == Asking(parent) && w[1..] == Waiters(parent, k - 1)
  {
    if k > 1 {
      WaitersFront(parent, k - 1);
      assert Waiters(parent, k)[1..] == Waiters(parent, k - 1)[1..] + [Asking(parent)];
    } else {
      assert Waiters(parent, 1) == [Asking(parent)];
    }
  }

  /** A run of the protocol from one state to another, with at most `peak` acquires waiting at any time. */
  ghost predicate Reaches(l: Limits, s: Pool, events: seq<Event>, t: Pool, peak: nat) {
    Run(l, s, events) == t && Disciplined(l, s, events) && Peak(l, s, events) <= peak
  }

  lemma ReachesTrans(l: Limits, s: Pool, a: seq<Event>, t: Pool, b: seq<Event>, u: Pool, peak: nat)
    requires Reaches(l, s, a, t, peak) && Reaches(l, t, b, u, peak)
    ensures Reaches(l, s, a + b, u, peak)
  {
    RunAppend(l, s, a, b);
    DisciplinedAppend(l, s, a, b);
  }

  lemma Acquiring(l: Limits, s: Pool, runId: Id)
    requires l.Valid() && s.totalSpawned < l.maxTotal && s.permits > 0 && s.waiting == [] && runId !in s.live
    ensures Reaches(l, s, [Check(Asking(None)), Admit(0, runId, 0)],
      Pool(s.permits - 1, s.live[runId := ANY_ENTRY], s.totalSpawned + 1, s.children, []), 1)
  {
    var events := [Check(Asking(None)), Admit(0, runId, 0)];
    assert events[1..] == [Admit(0, runId, 0)] && events[1..][1..] == [];
    var s1 := Step(l, s, events[0]);
    assert s1.waiting == [Asking(None)] && Without([Asking(None)], 0) == [];
    var s2 := Step(l, s1, events[1]);
    assert Run(l, s2, []) == s2 && Run(l, s1, events[1..]) == s2;
    assert Disciplined(l, s2, []) && Disciplined(l, s1, events[1..]);
    assert Peak(l, s2, []) == 0 && Peak(l, s1, events[1..]) == 1;
  }

  /** `n` runs are live, `total` have been spawned, and the acquires in `waiting` are suspended. */
  function Busy(l: Limits, n: nat, total: nat, children: map<Id, nat>, waiting: seq<Ticket>): Pool
    requires n <= l.maxConcurrent
  {
    Pool(l.maxConcurrent - n, LiveOf(n), total, children, waiting)
  }

  /** The permits fill up. */
  lemma {:induction false} FillUp(l: Limits, n: nat) returns (events: seq<Event>)
    requires l.Valid() && n <= l.maxConcurrent && n < l.maxTotal
    ensures Reaches(l, Initial(l), events, Busy(l, n, n, map[], []), 1)
  {
    events := [];
    if n > 0 {
      var before := FillUp(l, n - 1);
      LiveOfFacts(n - 1);
      NameLength(n - 1);
      Acquiring(l, Busy(l, n - 1, n - 1, map[], []), Name(n - 1));
      var more := [Check(Asking(None)), Admit(0, Name(n - 1), 0)];
      ReachesTrans(l, Initial(l), before, Busy(l, n - 1, n - 1, map[], []), more, Busy(l, n, n, map[], []), 1);
      events := before + more;
    }
  }

  lemma OneStep(l: Limits, s: Pool, e: Event, peak: nat)
    requires (e.Admit? ==> e.index == 0) && !NeedNotWait(l, s, e)
    requires |s.waiting| <= peak && |Step(l, s, e).waiting| <= peak
    ensures Reaches(l, s, [e], Step(l, s, e), peak)
  {
    var t := Step(l, s, e);
    assert [e][1..] == [];
    assert Run(l, t, []) == t && Disciplined(l, t, []) && Peak(l, t, []) == |t.waiting|;
  }

  /** With all permits taken, runs come and go until `total` have been spawned. */
  lemma {:induction false} Churn(l: Limits, total: nat) returns (events: seq<Event>)
    requires l.Valid() && l.maxConcurrent <= total < l.maxTotal
    ensures Reaches(l, Initial(l), events, Busy(l, l.maxConcurrent, total, map[], []), 1)
    decreases total
  {
    if total == l.maxConcurrent {
      events := FillUp(l, total);
    } else {
      var before := Churn(l, total - 1);
      var s := Busy(l, l.maxConcurrent, total - 1, map[], []);
      LiveOfFacts(l.maxConcurrent);
      OneStep(l, s, Release(FIRST_RUN), 1);
      var gap := Pool(1, s.live - {FIRST_RUN}, total - 1, map[], []);
      Acquiring(l, gap, FIRST_RUN);
      Replaced(l.maxConcurrent);
      var more := [Check(Asking(None)), Admit(0, FIRST_RUN, 0)];
      ReachesTrans(l, s, [Release(FIRST_RUN)], gap, more, Busy(l, l.maxConcurrent, total, map[], []), 1);
      ReachesTrans(l, Initial(l), before, s, [Release(FIRST_RUN)] + more, Busy(l, l.maxConcurrent, total, map[], []), 1);
      events := before + ([Release(FIRST_RUN)] + more);
    }
  }

  /** Acquires pile up: each passes its checks, and none is counted yet. */
  lemma {:induction false} PileUp(l: Limits, total: nat, parent: Option<Id>, k: nat) returns (events: seq<Event>)
    requires l.Valid() && total < l.maxTotal
    ensures Reaches(l, Busy(l, l.maxConcurrent, total, map[], []), events,
      Busy(l, l.maxConcurrent, total, map[], Waiters(parent, k)), k)
  {
    events := [];
    if k > 0 {
      var before := PileUp(l, total, parent, k - 1);
      var s := Busy(l, l.maxConcurrent, total, map[], Waiters(parent, k - 1));
      var t := Busy(l, l.maxConcurrent, total, map[], Waiters(parent, k));
      WaitersFront(parent, k);
      assert |Waiters(parent, k - 1)| <= k;
      OneStep(l, s, Check(Asking(parent)), k);
      ReachesTrans(l, Busy(l, l.maxConcurrent, total, map[], []), before, s, [Check(Asking(parent))], t, k);
      events := before + [Check(Asking(parent))];
    }
  }

  /** The child counts after `k` more admissions for `parent`. */
  function Grown(children: map<Id, nat>, parent: Option<Id>, k: nat): map<Id, nat> {
    if parent.None? || k == 0 then children
    else children[parent.value := (if parent.value in children then children[parent.value] else 0) + k]
  }

  /** Every release lets one of them in. */
  lemma {:induction false} DrainAll(
    l: Limits, total: nat, children: map<Id, nat>, parent: Option<Id>, k: nat, peak: nat)
    returns (events: seq<Event>)
    requires l.Valid() && k <= peak
    ensures Reaches(l, Busy(l, l.maxConcurrent, total, children, Waiters(parent, k)), events,
      Busy(l, l.maxConcurrent, total + k, Grown(children, parent, k), []), peak)
    decreases k
  {
    events := [];
    if k > 0 {
      var grown := Grown(children, parent, 1);
      var rest := DrainAll(l, total + 1, grown, parent, k - 1, peak);
      assert Grown(grown, parent, k - 1) == Grown(children, parent, k);
      DrainOne(l, total, children, parent, k, peak);
      var more := [Release(FIRST_RUN)] + [Admit(0, FIRST_RUN, 0)];
      ReachesTrans(l, Busy(l, l.maxConcurrent, total, children, Waiters(parent, k)), more,
        Busy(l, l.maxConcurrent, total + 1, grown, Waiters(parent, k - 1)), rest,
        Busy(l, l.maxConcurrent, total + k, Grown(children, parent, k), []), peak);
      events := more + rest;
    }
  }

  lemma Replaced(n: nat)
    requires n > 0
    ensures (LiveOf(n) - {FIRST_RUN})[FIRST_RUN := ANY_ENTRY] == LiveOf(n)
  {
    LiveOfFacts(n);
  }

  lemma DrainOne(l: Limits, total: nat, children: map<Id, nat>, parent: Option<Id>, k: nat, peak: nat)
    requires l.Valid() && 0 < k <= peak
    ensures Reaches(l, Busy(l, l.maxConcurrent, total, children, Waiters(parent, k)),
      [Release(FIRST_RUN)] + [Admit(0, FIRST_RUN, 0)],
      Busy(l, l.maxConcurrent, total + 1, Grown(children, parent, 1), Waiters(parent, k - 1)), peak)
  {
    var s := Busy(l, l.maxConcurrent, total, children, Waiters(parent, k));
    var t := Busy(l, l.maxConcurrent, total + 1, Grown(children, parent, 1), Waiters(parent, k - 1));
    var gap := Pool(1, s.live - {FIRST_RUN}, total, children, Waiters(parent, k));
    LiveOfFacts(l.maxConcurrent);
    WaitersFront(parent, k);
    OneStep(l, s, Release(FIRST_RUN), peak);
    AdmitsFront(l, gap, parent, k);
    OneStep(l, gap, Admit(0, FIRST_RUN, 0), peak);
    Replaced(l.maxConcurrent);
    ReachesTrans(l, s, [Release(FIRST_RUN)], gap, [Admit(0, FIRST_RUN, 0)], t, peak);
  }

  lemma AdmitsFront(l: Limits, s: Pool, parent: Option<Id>, k: nat)
    requires s.permits > 0 && FIRST_RUN !in s.live && k > 0 && s.waiting == Waiters(parent, k)
    ensures Step(l, s, Admit(0, FIRST_RUN, 0)) ==
      Pool(s.permits - 1, s.live[FIRST_RUN := ANY_ENTRY], s.totalSpawned + 1, Grown(s.children, parent, 1),
           Waiters(parent, k - 1))
    ensures |Waiters(parent, k - 1)| == k - 1
  {
    WaitersFront(parent, k);
    assert Without(Waiters(parent, k), 0) == Waiters(parent, k - 1);
  }

  /** While the permits are all taken, any number of acquires can pass the checks, and each of them adds one to
      the total and to the children of its parent. */
  lemma Overshoot(l: Limits, parent: Option<Id>, k: nat) returns (events: seq<Event>)
    requires l.Valid() && l.maxTotal > l.maxConcurrent && k >= 1
    ensures Disciplined(l, Initial(l), events) && Peak(l, Initial(l), events) <= k
    ensures Run(l, Initial(l), events).totalSpawned == l.maxTotal - 1 + k
    ensures parent.Some? ==> ChildCount(Run(l, Initial(l), events), parent.value) == k
  {
    var total := l.maxTotal - 1;
    var first := Churn(l, total);
    var second := PileUp(l, total, parent, k);
    var third := DrainAll(l, total, map[], parent, k, k);
    var full := Busy(l, l.maxConcurrent, total, map[], []);
    var piled := Busy(l, l.maxConcurrent, total, map[], Waiters(parent, k));
    var drained := Busy(l, l.maxConcurrent, total + k, Grown(map[], parent, k), []);
    ReachesTrans(l, Initial(l), first, full, second, piled, k);
    ReachesTrans(l, Initial(l), first + second, piled, third, drained, k);
    events := first + second + third;
  }

  /** The bound on the total is reached for every peak. */
  lemma TotalBoundIsTight(l: Limits, k: nat) returns (events: seq<Event>)
    requires l.Valid() && l.maxTotal > l.maxConcurrent && k >= 1
    ensures Disciplined(l, Initial(l), events) && Peak(l, Initial(l), events) == k
    ensures Run(l, Initial(l), events).totalSpawned == l.maxTotal - 1 + k
  {
    events := Overshoot(l, None, k);
    TotalBound(l, events);
  }

  /** The documented promise "totals never exceed max_total" holds on every run exactly when no more agents may
      be spawned in all than may live at once. */
  lemma TotalPromiseIff(l: Limits)
    requires l.Valid()
    ensures (forall events :: Disciplined(l, Initial(l), events) ==> Run(l, Initial(l), events).totalSpawned <= l.maxTotal)
      <==> l.maxTotal <= l.maxConcurrent
  {
    if l.maxTotal <= l.maxConcurrent {
      forall events | Disciplined(l, Initial(l), events)
        ensures Run(l, Initial(l), events).totalSpawned <= l.maxTotal
      {
        NobodyWaits(l, Initial(l), events, FIRST_RUN);
      }
    } else {
      var events := TotalBoundIsTight(l, 2);
      assert Run(l, Initial(l), events).totalSpawned > l.maxTotal;
    }
  }

  /** The child budget of a parent holds on every run under the very same condition; otherwise a parent can get
      any number of children. */
  lemma ChildPromiseIff(l: Limits, parent: Id)
    requires l.Valid()
    ensures (forall events :: Disciplined(l, Initial(l), events) ==>
              ChildCount(Run(l, Initial(l), events), parent) <= l.maxChildren)
      <==> l.maxTotal <= l.maxConcurrent
  {
    if l.maxTotal <= l.maxConcurrent {
      forall events | Disciplined(l, Initial(l), events)
        ensures ChildCount(Run(l, Initial(l), events), parent) <= l.maxChildren
      {
        NobodyWaits(l, Initial(l), events, parent);
      }
    } else {
      var events := Overshoot(l, Some(parent), l.maxChildren + 1);
      assert ChildCount(Run(l, Initial(l), events), parent) > l.maxChildren;
    }
  }
}
