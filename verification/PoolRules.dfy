/** What the admission protocol keeps over every interleaving. */
module PoolRules {
  import opened Ordering
  import opened AgentPooling

  function Run(l: Limits, s: Pool, events: seq<Event>): Pool
    decreases |events|
  {
    if events == [] then s else Run(l, Step(l, s, events[0]), events[1..])
  }

  function Max(a: nat, b: nat): nat {
    if a >= b then a else b
  }

  /** The largest number of acquires ever between check and admission. */
  function Peak(l: Limits, s: Pool, events: seq<Event>): nat
    decreases |events|
  {
    if events == [] then |s.waiting| else Max(|s.waiting|, Peak(l, Step(l, s, events[0]), events[1..]))
  }

  function WaitingFor(waiting: seq<Ticket>, parent: Id): nat {
    if waiting == [] then 0
    else (if waiting[0].parent == Some(parent) then 1 else 0) + WaitingFor(waiting[1..], parent)
  }

  function PeakFor(l: Limits, s: Pool, events: seq<Event>, parent: Id): nat
    decreases |events|
  {
    var here := WaitingFor(s.waiting, parent);
    if events == [] then here else Max(here, PeakFor(l, Step(l, s, events[0]), events[1..], parent))
  }

  // ------------------------------------------------------- permits

  lemma SizeWithout(live: map<Id, Entry>, runId: Id)
    requires runId in live
    ensures |live - {runId}| == |live| - 1
  {
    assert live.Keys == (live - {runId}).Keys + {runId};
    assert |live.Keys| == |(live - {runId}).Keys| + 1;
  }

  lemma StepKeepsPermits(l: Limits, s: Pool, e: Event)
    ensures Step(l, s, e).permits + |Step(l, s, e).live| == s.permits + |s.live|
  {
    if e.Release? && e.runId in s.live {
      SizeWithout(s.live, e.runId);
    }
  }

  /** Over every interleaving a slot is either free or held by exactly one live run. */
  lemma {:induction false} PermitsConserved(l: Limits, s: Pool, events: seq<Event>)
    requires s.permits + |s.live| == l.maxConcurrent
    ensures Run(l, s, events).permits + |Run(l, s, events).live| == l.maxConcurrent
    decreases |events|
  {
    if events != [] {
      StepKeepsPermits(l, s, events[0]);
      PermitsConserved(l, Step(l, s, events[0]), events[1..]);
    }
  }

  /** Releasing a run that is no longer live changes nothing, however often it is repeated. */
  lemma ReleaseIsIdempotent(l: Limits, s: Pool, runId: Id)
    ensures var once := Step(l, s, Release(runId));
      Step(l, once, Release(runId)) == once && once.permits - s.permits == (if runId in s.live then 1 else 0)
  {
  }

  predicate Shallow(l: Limits, s: Pool) {
    && (forall i :: 0 <= i < |s.waiting| ==>
          s.waiting[i].depth <= l.maxDepth && s.waiting[i].depth <= s.waiting[i].profileMaxDepth)
    && (forall r :: r in s.live ==> s.live[r].depth <= l.maxDepth && s.live[r].depth <= s.live[r].profileMaxDepth)
  }

  /** No run deeper than the session's limit or its own profile's is ever admitted. */
  lemma {:induction false} DepthBound(l: Limits, s: Pool, events: seq<Event>)
    requires Shallow(l, s)
    ensures Shallow(l, Run(l, s, events))
    decreases |events|
  {
    if events != [] {
      StepKeepsShallow(l, s, events[0]);
      DepthBound(l, Step(l, s, events[0]), events[1..]);
    }
  }

  lemma StepKeepsShallow(l: Limits, s: Pool, e: Event)
    requires Shallow(l, s)
    ensures Shallow(l, Step(l, s, e))
  {
  }

  // ------------------------------------------------------- what is refused

  /** Neither the session's limit nor the profile's own is passed. */
  predicate DepthFits(l: Limits, t: Ticket) {
    t.depth <= l.maxDepth && t.depth <= t.profileMaxDepth
  }

  predicate ChildFits(l: Limits, s: Pool, t: Ticket) {
    t.parent.None? || ChildCount(s, t.parent.value) < l.maxChildren
  }

  /** An acquire waits for a permit exactly when it is within all three limits; otherwise the first limit that it
      passes is named and nothing changes. */
  lemma RefusedBecause(l: Limits, s: Pool, t: Ticket)
    ensures var r := Refusal(l, s, t);
      && (r == Some(TooDeep) <==> !DepthFits(l, t))
      && (r == Some(ChildBudgetExhausted) <==> DepthFits(l, t) && !ChildFits(l, s, t))
      && (r == Some(TotalExhausted) <==> DepthFits(l, t) && ChildFits(l, s, t) && s.totalSpawned >= l.maxTotal)
    ensures Step(l, s, Check(t)) ==
      if DepthFits(l, t) && ChildFits(l, s, t) && s.totalSpawned < l.maxTotal then s.(waiting := s.waiting + [t]) else s
  {
  }

  // ------------------------------------------------------- totals

  /** Admissions and pending acquires together stay within the limit plus the overlap. */
  lemma {:induction false} TotalBoundFrom(l: Limits, s: Pool, events: seq<Event>, peak: nat)
    requires l.Valid() && s.totalSpawned + |s.waiting| <= l.maxTotal - 1 + peak
    requires peak >= Peak(l, s, events)
    ensures Run(l, s, events).totalSpawned <= l.maxTotal - 1 + peak
    decreases |events|
  {
    if events != [] {
      var next := Step(l, s, events[0]);
      assert |next.waiting| <= Peak(l, next, events[1..]) <= peak;
      TotalBoundFrom(l, next, events[1..], peak);
    }
  }

  /** The bound that the code keeps on session totals: overlapping acquires can each add one. */
  lemma TotalBound(l: Limits, events: seq<Event>)
    requires l.Valid()
    ensures Run(l, Initial(l), events).totalSpawned <= l.maxTotal - 1 + Peak(l, Initial(l), events)
    ensures Peak(l, Initial(l), events) <= 1 ==> Run(l, Initial(l), events).totalSpawned <= l.maxTotal
  {
    TotalBoundFrom(l, Initial(l), events, Peak(l, Initial(l), events));
  }

  // ------------------------------------------------------- children

  lemma {:induction false} WaitingForSplit(a: seq<Ticket>, b: seq<Ticket>, parent: Id)
    ensures WaitingFor(a + b, parent) == WaitingFor(a, parent) + WaitingFor(b, parent)
  {
    if a == [] {
      assert a + b == b;
    } else {
      assert (a + b)[1..] == a[1..] + b;
      WaitingForSplit(a[1..], b, parent);
    }
  }

  lemma WaitingForWithout(waiting: seq<Ticket>, i: nat, parent: Id)
    requires i < |waiting|
    ensures WaitingFor(waiting, parent) ==
      WaitingFor(Without(waiting, i), parent) + if waiting[i].parent == Some(parent) then 1 else 0
  {
    assert waiting == waiting[..i] + waiting[i..];
    assert waiting[i..][1..] == waiting[i + 1..];
    WaitingForSplit(waiting[..i], waiting[i..], parent);
    WaitingForSplit(waiting[..i], waiting[i + 1..], parent);
  }

  lemma ChildStep(l: Limits, s: Pool, e: Event, parent: Id, peak: nat)
    requires l.Valid() && ChildCount(s, parent) + WaitingFor(s.waiting, parent) <= l.maxChildren - 1 + peak
    requires WaitingFor(Step(l, s, e).waiting, parent) <= peak
    ensures var next := Step(l, s, e);
      ChildCount(next, parent) + WaitingFor(next.waiting, parent) <= l.maxChildren - 1 + peak
  {
    match e
    case Check(t) =>
      WaitingForSplit(s.waiting, [t], parent);
      assert [t][1..] == [];
    case Admit(i, runId, now) =>
      if i < |s.waiting| {
        WaitingForWithout(s.waiting, i, parent);
      }
    case Cancel(i) =>
      if i < |s.waiting| {
        WaitingForWithout(s.waiting, i, parent);
      }
    case _ =>
  }

  lemma {:induction false} ChildBoundFrom(l: Limits, s: Pool, events: seq<Event>, parent: Id, peak: nat)
    requires l.Valid() && ChildCount(s, parent) + WaitingFor(s.waiting, parent) <= l.maxChildren - 1 + peak
    requires peak >= PeakFor(l, s, events, parent)
    ensures ChildCount(Run(l, s, events), parent) <= l.maxChildren - 1 + peak
    decreases |events|
  {
    if events != [] {
      var next := Step(l, s, events[0]);
      assert WaitingFor(next.waiting, parent) <= PeakFor(l, next, events[1..], parent) <= peak;
      ChildStep(l, s, events[0], parent, peak);
      ChildBoundFrom(l, next, events[1..], parent, peak);
    }
  }

  lemma ChildBound(l: Limits, events: seq<Event>, parent: Id)
    requires l.Valid()
    ensures ChildCount(Run(l, Initial(l), events), parent)
      <= l.maxChildren - 1 + PeakFor(l, Initial(l), events, parent)
  {
    ChildBoundFrom(l, Initial(l), events, parent, PeakFor(l, Initial(l), events, parent));
  }

  lemma {:induction false} RunAppend(l: Limits, s: Pool, a: seq<Event>, b: seq<Event>)
    ensures Run(l, s, a + b) == Run(l, Run(l, s, a), b)
    ensures Peak(l, s, a + b) == Max(Peak(l, s, a), Peak(l, Run(l, s, a), b))
    decreases |a|
  {
    if a == [] {
      assert a + b == b;
      assert |s.waiting| <= Peak(l, s, b);
    } else {
      assert (a + b)[1..] == a[1..] + b && (a + b)[0] == a[0];
      RunAppend(l, Step(l, s, a[0]), a[1..], b);
    }
  }

  // ------------------------------------------------------- the watchdog

  predicate AdmitsId(e: Event, runId: Id) {
    e.Admit? && e.runId == runId
  }

  /** A run id is drawn afresh, so no later admission uses it again. */
  ghost predicate NotReused(events: seq<Event>, runId: Id) {
    forall e :: e in events ==> !AdmitsId(e, runId)
  }

  /** Some watchdog pass among the events flags the run. */
  predicate WasFlagged(l: Limits, s: Pool, events: seq<Event>, runId: Id)
    decreases |events|
  {
    events != []
    && ((events[0].DetectStuck? && runId in Flagged(l, s, events[0].now))
        || WasFlagged(l, Step(l, s, events[0]), events[1..], runId))
  }

  lemma {:induction false} StaysGone(l: Limits, s: Pool, events: seq<Event>, runId: Id)
    requires runId !in s.live && NotReused(events, runId)
    ensures runId !in Run(l, s, events).live
    decreases |events|
  {
    if events != [] {
      assert events[0] in events;
      StaysGone(l, Step(l, s, events[0]), events[1..], runId);
    }
  }

  lemma {:induction false} NeverHealthyAgain(l: Limits, s: Pool, events: seq<Event>, runId: Id)
    requires runId in s.live && s.live[runId].health != HEALTHY && NotReused(events, runId)
    ensures runId in Run(l, s, events).live ==> Run(l, s, events).live[runId].health != HEALTHY
    decreases |events|
  {
    if events != [] {
      var next := Step(l, s, events[0]);
      assert events[0] in events;
      if runId in next.live {
        NeverHealthyAgain(l, next, events[1..], runId);
      } else {
        StaysGone(l, next, events[1..], runId);
      }
    }
  }

  /** From its admission on, a run that is still live is HEALTHY exactly when no watchdog pass has flagged it. */
  lemma {:induction false} HealthyIffNeverFlagged(l: Limits, s: Pool, events: seq<Event>, runId: Id)
    requires runId in s.live && s.live[runId].health == HEALTHY && NotReused(events, runId)
    ensures runId in Run(l, s, events).live ==>
      (Run(l, s, events).live[runId].health == HEALTHY <==> !WasFlagged(l, s, events, runId))
    decreases |events|
  {
    if events != [] {
      var e, next := events[0], Step(l, s, events[0]);
      assert e in events;
      if runId !in next.live {
        StaysGone(l, next, events[1..], runId);
      } else if next.live[runId].health == HEALTHY {
        HealthyIffNeverFlagged(l, next, events[1..], runId);
      } else {
        NeverHealthyAgain(l, next, events[1..], runId);
      }
    }
  }

  /** The last sign of life of a run that was admitted at `admitted`: its latest heartbeat among the events. */
  function LastSign(events: seq<Event>, runId: Id, admitted: int): int {
    if events == [] then admitted
    else
      var k := |events| - 1;
      if events[k].Heartbeat? && events[k].runId == runId then events[k].now
      else LastSign(events[..k], runId, admitted)
  }

  /** At time `now`, after the events, the last sign of life lies more than the timeout back. */
  predicate Lapsed(l: Limits, events: seq<Event>, runId: Id, admitted: int, now: int) {
    now - LastSign(events, runId, admitted) > l.heartbeatTimeout
  }

  /** Event `i` is a watchdog pass that finds the heartbeat of the run lapsed. */
  predicate LapsedAtPass(l: Limits, events: seq<Event>, i: nat, runId: Id, admitted: int) {
    i < |events| && events[i].DetectStuck? && Lapsed(l, events[..i], runId, admitted, events[i].now)
  }

  ghost predicate LapsedAtSomePass(l: Limits, events: seq<Event>, runId: Id, admitted: int) {
    exists i: nat :: LapsedAtPass(l, events, i, runId, admitted)
  }

  /** Event `j` is a heartbeat of the run, after pass `i` has found it lapsed. */
  predicate ComesBackAt(l: Limits, events: seq<Event>, i: nat, j: nat, runId: Id, admitted: int) {
    && i < j < |events| && LapsedAtPass(l, events, i, runId, admitted)
    && events[j].Heartbeat? && events[j].runId == runId
  }

  ghost predicate CameBack(l: Limits, events: seq<Event>, runId: Id, admitted: int) {
    exists i: nat, j: nat :: ComesBackAt(l, events, i, j, runId, admitted)
  }

  lemma LapsedNext(l: Limits, events: seq<Event>, e: Event, runId: Id, admitted: int)
    ensures LapsedAtSomePass(l, events + [e], runId, admitted) <==>
      || LapsedAtSomePass(l, events, runId, admitted)
      || (e.DetectStuck? && Lapsed(l, events, runId, admitted, e.now))
    ensures CameBack(l, events + [e], runId, admitted) <==>
      || CameBack(l, events, runId, admitted)
      || (e.Heartbeat? && e.runId == runId && LapsedAtSomePass(l, events, runId, admitted))
  {
    var all := events + [e];
    assert all[..|events|] == events;
    forall i: nat | i < |events|
      ensures LapsedAtPass(l, all, i, runId, admitted) <==> LapsedAtPass(l, events, i, runId, admitted)
    {
      assert all[..i] == events[..i];
    }
    if e.DetectStuck? && Lapsed(l, events, runId, admitted, e.now) {
      assert LapsedAtPass(l, all, |events|, runId, admitted);
    }
    if i: nat, j: nat :| ComesBackAt(l, events, i, j, runId, admitted) {
      assert ComesBackAt(l, all, i, j, runId, admitted);
    }
    if i: nat :| e.Heartbeat? && e.runId == runId && LapsedAtPass(l, events, i, runId, admitted) {
      assert ComesBackAt(l, all, i, |events|, runId, admitted);
    }
    if i: nat, j: nat :| ComesBackAt(l, all, i, j, runId, admitted) {
      assert j < |events| ==> ComesBackAt(l, events, i, j, runId, admitted);
    }
  }

  /** What the pool knows of a live run, from the events since its admission alone. */
  ghost predicate Known(l: Limits, s: Pool, events: seq<Event>, runId: Id, admitted: int)
    requires runId in s.live
  {
    var entry := s.live[runId];
    && entry.lastHeartbeat == LastSign(events, runId, admitted)
    && (entry.health == HEALTHY <==> !LapsedAtSomePass(l, events, runId, admitted))
    && (entry.health == RECOVERING <==> CameBack(l, events, runId, admitted))
  }

  lemma StepKnown(l: Limits, s: Pool, events: seq<Event>, e: Event, runId: Id, admitted: int)
    requires runId in s.live && Known(l, s, events, runId, admitted) && !AdmitsId(e, runId) && e != Release(runId)
    ensures runId in Step(l, s, e).live && Known(l, Step(l, s, e), events + [e], runId, admitted)
  {
    LapsedNext(l, events, e, runId, admitted);
    assert (events + [e])[..|events|] == events;
  }

  lemma RunNext(l: Limits, s: Pool, events: seq<Event>)
    requires events != []
    ensures Run(l, s, events) == Step(l, Run(l, s, events[..|events| - 1]), events[|events| - 1])
  {
    var k := |events| - 1;
    RunAppend(l, s, events[..k], [events[k]]);
    assert events == events[..k] + [events[k]] && [events[k]][1..] == [];
    var before := Run(l, s, events[..k]);
    assert Run(l, Step(l, before, events[k]), []) == Step(l, before, events[k]);
  }

  /** After its admission a run is live until it is released; its health and its last heartbeat are what the
      events say. */
  lemma {:induction false} EventsTell(l: Limits, s: Pool, admission: Event, events: seq<Event>, runId: Id)
    requires AdmitsId(admission, runId) && runId !in s.live && runId in Step(l, s, admission).live
    requires NotReused(events, runId)
    ensures var after := Run(l, Step(l, s, admission), events);
      && (runId in after.live <==> Release(runId) !in events)
      && (runId in after.live ==> Known(l, after, events, runId, admission.now))
  {
    var start := Step(l, s, admission);
    if events != [] {
      var k := |events| - 1;
      var init, e := events[..k], events[k];
      EventsTell(l, s, admission, init, runId);
      RunNext(l, start, events);
      assert events == init + [e] && e in events;
      var before := Run(l, start, init);
      if runId in before.live && e != Release(runId) {
        StepKnown(l, before, init, e, runId, admission.now);
      }
    }
  }

  /** "Flag runs whose heartbeat lapsed", exactly, and from the events alone: a pass flags a run iff the run has
      not been released, its last sign of life lies more than the timeout back, and no earlier pass found that. */
  lemma FlaggedIff(
    l: Limits, s: Pool, admission: Event, events: seq<Event>, runId: Id, now: int)
    requires AdmitsId(admission, runId) && runId !in s.live && runId in Step(l, s, admission).live
    requires NotReused(events, runId)
    ensures runId in Flagged(l, Run(l, Step(l, s, admission), events), now) <==>
      && Release(runId) !in events
      && Lapsed(l, events, runId, admission.now, now)
      && !LapsedAtSomePass(l, events, runId, admission.now)
  {
    EventsTell(l, s, admission, events, runId);
  }

  /** What is missed: a run that was flagged, recovers with a heartbeat and lapses once more. */
  lemma SecondLapseIsMissed(l: Limits, s: Pool, admission: Event, runId: Id)
    requires l.Valid() && AdmitsId(admission, runId) && runId !in s.live && runId in Step(l, s, admission).live
    ensures var t := admission.now + l.heartbeatTimeout + 1;
      var later := t + l.heartbeatTimeout + 1;
      var events := [DetectStuck(t), Heartbeat(runId, t)];
      && runId in Flagged(l, Step(l, s, admission), t)
      && Lapsed(l, events, runId, admission.now, later)
      && runId !in Flagged(l, Run(l, Step(l, s, admission), events), later)
  {
    var t := admission.now + l.heartbeatTimeout + 1;
    var events := [DetectStuck(t), Heartbeat(runId, t)];
    FlaggedIff(l, s, admission, [], runId, t);
    assert Run(l, Step(l, s, admission), []) == Step(l, s, admission);
    assert LastSign([], runId, admission.now) == admission.now && events[..0] == [];
    assert LapsedAtPass(l, events, 0, runId, admission.now);
    FlaggedIff(l, s, admission, events, runId, t + l.heartbeatTimeout + 1);
  }
}
