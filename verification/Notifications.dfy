/** The notification router: priorities, quiet hours, digests and the per-minute limit.

    Times are microseconds on the router's wall clock.  Sinks are outside; what
    reaches one is what `RouteEvent` and `FlushDigest` return.  With a journal
    attached every outcome is journaled after its effect, and an event with an
    empty correlation id cannot be built, which ends the routing there.
*/
module Notifications {
  import opened Ordering
  import opened RateWindows
  import Schedules

  datatype Priority = SILENT | NORMAL | CRITICAL

  datatype QuietHours = QuietHours(start: int, end: int) {
    /** The window may cross midnight. */
    predicate IsQuiet(at: int) {
      var moment := at % Schedules.DAY;
      if start <= end then start <= moment < end else moment >= start || moment < end
    }
  }

  /** Quiet hours are the circular interval from start to end, across midnight or not. */
  lemma QuietIsCircular(q: QuietHours, at: int)
    requires 0 <= q.start < Schedules.DAY && 0 <= q.end < Schedules.DAY
    ensures q.IsQuiet(at) <==> (at - q.start) % Schedules.DAY < (q.end - q.start) % Schedules.DAY
  {
  }

  datatype Policy = Policy(subscriber: Id, rateLimit: int, quiet: Option<QuietHours>, digest: bool)

  datatype Notification = Notification(
    subscriber: Id, priority: Priority, message: string, eventType: Id, correlationId: Id, createdAt: int)

  datatype Outcome = Silenced | HeldInQuiet | DroppedInQuiet | RateLimited | Digested | Delivered

  datatype RouterError = AlreadySubscribed | UnknownSubscriber | EmptyCorrelation

  /** What the router keeps for one subscriber. */
  datatype Desk = Desk(hits: seq<int>, held: seq<Notification>)

  predicate QuietFor(p: Policy, n: Notification) {
    n.priority == NORMAL && p.quiet.Some? && p.quiet.value.IsQuiet(n.createdAt)
  }

  /** `route` for one subscriber. */
  function RouteTo(p: Policy, d: Desk, n: Notification): (Desk, Outcome) {
    if n.priority == SILENT then (d, Silenced)
    else if QuietFor(p, n) then
      if p.digest then (d.(held := d.held + [n]), HeldInQuiet) else (d, DroppedInQuiet)
    else
      var (allowed, hits) := PrunedAllow(false, d.hits, n.createdAt, p.rateLimit);
      if !allowed then (d, RateLimited)
      else if p.digest && n.priority == NORMAL then (Desk(hits, d.held + [n]), Digested)
      else (d.(hits := hits), Delivered)
  }

  predicate IsHeld(o: Outcome) {
    o == HeldInQuiet || o == Digested
  }

  // ------------------------------------------------------- the router

  ghost predicate DistinctSubscribers(ps: seq<Policy>) {
    forall i, j :: 0 <= i < j < |ps| ==> ps[i].subscriber != ps[j].subscriber
  }

  function NoteFor(p: Policy, n: Notification): Notification {
    n.(subscriber := p.subscriber)
  }

  /** The notifications whose outcome is Delivered, in the order of subscription. */
  function DeliveredOf(ps: seq<Policy>, n: Notification, outcomes: seq<Outcome>): seq<Notification>
    requires |outcomes| <= |ps|
  {
    if outcomes == [] then []
    else
      var k := |outcomes| - 1;
      var earlier := DeliveredOf(ps, n, outcomes[..k]);
      if outcomes[k] == Delivered then earlier + [NoteFor(ps[k], n)] else earlier
  }

  /** The counter's and the digests' dictionaries. */
  datatype Books = Books(hits: map<Id, seq<int>>, digests: map<Id, seq<Notification>>)

  function DeskIn(b: Books, subscriber: Id): Desk {
    Desk(if subscriber in b.hits then b.hits[subscriber] else [],
         if subscriber in b.digests then b.digests[subscriber] else [])
  }

  function RouteStep(b: Books, p: Policy, n: Notification): (Books, Outcome) {
    var (d, outcome) := RouteTo(p, DeskIn(b, p.subscriber), n);
    (Books(if outcome == Delivered || outcome == Digested then b.hits[p.subscriber := d.hits] else b.hits,
           if IsHeld(outcome) then b.digests[p.subscriber := d.held] else b.digests),
     outcome)
  }

  /** `route` for the first `k` subscribers. */
  function RouteAll(b: Books, ps: seq<Policy>, n: Notification, k: nat): (r: (Books, seq<Outcome>))
    requires k <= |ps|
    ensures |r.1| == k
  {
    if k == 0 then (b, [])
    else
      var (earlier, outcomes) := RouteAll(b, ps, n, k - 1);
      var (next, outcome) := RouteStep(earlier, ps[k - 1], NoteFor(ps[k - 1], n));
      (next, outcomes + [outcome])
  }

  /** After `k` subscribers, subscriber `i` has been treated as if it were alone, or is untouched. */
  predicate TreatedAlone(b: Books, ps: seq<Policy>, n: Notification, k: nat, i: nat)
    requires k <= |ps| && i < |ps|
  {
    var (after, outcomes) := RouteAll(b, ps, n, k);
    if i < k then
      (DeskIn(after, ps[i].subscriber), outcomes[i]) ==
        RouteTo(ps[i], DeskIn(b, ps[i].subscriber), n.(subscriber := ps[i].subscriber))
    else DeskIn(after, ps[i].subscriber) == DeskIn(b, ps[i].subscriber)
  }

  lemma RouteNextDesk(b: Books, ps: seq<Policy>, n: Notification, k: nat, i: nat)
    requires DistinctSubscribers(ps) && k < |ps| && i < |ps| && TreatedAlone(b, ps, n, k, i)
    ensures TreatedAlone(b, ps, n, k + 1, i)
  {
    RouteStepDesk(RouteAll(b, ps, n, k).0, ps[k], NoteFor(ps[k], n));
    assert i != k ==> ps[i].subscriber != ps[k].subscriber;
  }

  /** Every subscriber is treated as if it were alone. */
  lemma {:induction false} RouteAllDesks(b: Books, ps: seq<Policy>, n: Notification, k: nat)
    requires DistinctSubscribers(ps) && k <= |ps|
    ensures forall i :: 0 <= i < |ps| ==> TreatedAlone(b, ps, n, k, i)
  {
    if k > 0 {
      RouteAllDesks(b, ps, n, k - 1);
      forall i | 0 <= i < |ps|
        ensures TreatedAlone(b, ps, n, k, i)
      {
        RouteNextDesk(b, ps, n, k - 1, i);
      }
    }
  }

  /** What a routing returns: a copy for each subscriber whose outcome is Delivered, in the order of
      subscription. */
  lemma {:induction false} DeliveredTells(ps: seq<Policy>, n: Notification, outcomes: seq<Outcome>) returns (at: seq<nat>)
    requires |outcomes| <= |ps|
    ensures |at| == |DeliveredOf(ps, n, outcomes)|
    ensures forall i, j :: 0 <= i < j < |at| ==> at[i] < at[j]
    ensures forall j :: 0 <= j < |at| ==> at[j] < |outcomes| && outcomes[at[j]] == Delivered
    ensures forall k: nat :: k < |outcomes| && outcomes[k] == Delivered ==> k in at
    ensures forall j :: 0 <= j < |at| ==> at[j] < |ps| && DeliveredOf(ps, n, outcomes)[j] == n.(subscriber := ps[at[j]].subscriber)
  {
    at := [];
    if outcomes != [] {
      var k := |outcomes| - 1;
      at := DeliveredTells(ps, n, outcomes[..k]);
      if outcomes[k] == Delivered {
        at := at + [k];
      }
    }
  }

  /** Journaling the outcome of the first subscriber raises. */
  predicate Raises(journaled: bool, ps: seq<Policy>, n: Notification) {
    journaled && n.correlationId == "" && ps != []
  }

  /** How many subscribers a routing comes to. */
  function Reached(journaled: bool, ps: seq<Policy>, n: Notification): nat {
    if Raises(journaled, ps, n) then 1 else |ps|
  }

  /** Every subscriber is treated as if it were alone exactly when no journal is attached, the correlation id is
      not empty, or there is at most one subscriber.  Otherwise this holds of the first one, and the others are
      left untouched. */
  lemma RoutedAloneIff(journaled: bool, b: Books, ps: seq<Policy>, n: Notification)
    requires DistinctSubscribers(ps)
    ensures var reached := Reached(journaled, ps, n);
      && (reached == |ps| <==> !journaled || n.correlationId != "" || |ps| <= 1)
      && forall i :: 0 <= i < |ps| ==> TreatedAlone(b, ps, n, reached, i)
  {
    RouteAllDesks(b, ps, n, Reached(journaled, ps, n));
  }

  lemma RouteStepDesk(b: Books, p: Policy, n: Notification)
    ensures var (after, outcome) := RouteStep(b, p, n);
      && (DeskIn(after, p.subscriber), outcome) == RouteTo(p, DeskIn(b, p.subscriber), n)
      && forall s :: s != p.subscriber ==> DeskIn(after, s) == DeskIn(b, s)
  {
  }

  ghost predicate RoutedSoFar(
    before: Books, ps: seq<Policy>, n: Notification, k: nat, after: Books, outcomes: seq<Outcome>,
    delivered: seq<Notification>)
  {
    k <= |ps| && (after, outcomes) == RouteAll(before, ps, n, k) && delivered == DeliveredOf(ps, n, outcomes)
  }

  lemma RoutedNext(
    before: Books, ps: seq<Policy>, n: Notification, k: nat, after: Books, outcomes: seq<Outcome>,
    delivered: seq<Notification>, outcome: Outcome)
    requires k < |ps| && |outcomes| == k && delivered == DeliveredOf(ps, n, outcomes)
    requires (after, outcome) == RouteStep(RouteAll(before, ps, n, k).0, ps[k], NoteFor(ps[k], n))
    requires outcomes == RouteAll(before, ps, n, k).1
    ensures RoutedSoFar(before, ps, n, k + 1, after, outcomes + [outcome],
                        if outcome == Delivered then delivered + [NoteFor(ps[k], n)] else delivered)
  {
    assert (outcomes + [outcome])[..k] == outcomes;
  }

  class NotificationRouter {
    var subscribers: seq<Policy>
    var digests: map<Id, seq<Notification>>
    const counter: WindowCounter
    const journaled: bool

    ghost predicate Valid()
      reads this
    {
      DistinctSubscribers(subscribers)
    }

    function Content(): Books
      reads this, counter
    {
      Books(counter.hits, digests)
    }

    constructor (journaled: bool)
      ensures Valid() && subscribers == [] && fresh(counter) && Content() == Books(map[], map[])
      ensures this.journaled == journaled
    {
      this.journaled := journaled;
      subscribers, digests := [], map[];
      counter := new WindowCounter();
    }

    predicate Knows(subscriber: Id)
      reads this`subscribers
    {
      exists i :: 0 <= i < |subscribers| && subscribers[i].subscriber == subscriber
    }

    method Subscribe(p: Policy) returns (r: Result<(), RouterError>)
      requires Valid()
      modifies this
      ensures Valid() && digests == old(digests)
      ensures r.Failure? <==> exists i :: 0 <= i < |old(subscribers)| && old(subscribers)[i].subscriber == p.subscriber
      ensures r.Failure? ==> r.error == AlreadySubscribed
      ensures subscribers == if r.Failure? then old(subscribers) else old(subscribers) + [p]
    {
      if Knows(p.subscriber) {
        return Failure(AlreadySubscribed);
      }
      subscribers := subscribers + [p];
      r := Success(());
    }

    /** One round of the loop of `route`. */
    method RouteOne(p: Policy, n: Notification) returns (outcome: Outcome)
      modifies this`digests, counter
      ensures (Content(), outcome) == RouteStep(old(Content()), p, n)
    {
      if n.priority == SILENT {
        return Silenced;
      }
      var held := if p.subscriber in digests then digests[p.subscriber] else [];
      if QuietFor(p, n) {
        if p.digest {
          digests := digests[p.subscriber := held + [n]];
          return HeldInQuiet;
        }
        return DroppedInQuiet;
      }
      var allowed := counter.Allow(p.subscriber, n.createdAt, p.rateLimit);
      if !allowed {
        return RateLimited;
      }
      if p.digest && n.priority == NORMAL {
        digests := digests[p.subscriber := held + [n]];
        return Digested;
      }
      outcome := Delivered;
    }

    /** `route`: `n` is what every subscriber is told; the outcomes are what the journal gets.  When the journal
        cannot take the first of them, the first subscriber has been served and the others have not. */
    method RouteEvent(n: Notification) returns (r: Result<(seq<Notification>, seq<Outcome>), RouterError>)
      requires Valid()
      modifies this`digests, counter
      ensures Content() == RouteAll(old(Content()), subscribers, n, Reached(journaled, subscribers, n)).0
      ensures r.Failure? <==> Raises(journaled, subscribers, n)
      ensures r.Failure? ==> r.error == EmptyCorrelation
      ensures r.Success? ==>
        var outcomes := RouteAll(old(Content()), subscribers, n, |subscribers|).1;
        r.value == (DeliveredOf(subscribers, n, outcomes), outcomes)
    {
      var delivered: seq<Notification>, outcomes: seq<Outcome> := [], [];
      ghost var before := Content();
      var ps := subscribers;
      for k := 0 to |ps|
        invariant subscribers == ps && RoutedSoFar(before, ps, n, k, Content(), outcomes, delivered)
        invariant k > 0 ==> !Raises(journaled, ps, n)
      {
        var outcome := RouteOne(ps[k], NoteFor(ps[k], n));
        RoutedNext(before, ps, n, k, Content(), outcomes, delivered, outcome);
        outcomes := outcomes + [outcome];
        if outcome == Delivered {
          delivered := delivered + [NoteFor(ps[k], n)];
        }
        if journaled && n.correlationId == "" {
          return Failure(EmptyCorrelation);
        }
      }
      r := Success((delivered, outcomes));
    }

    /** `flush_digest`: what was held, once. */
    method FlushDigest(subscriber: Id) returns (r: Result<seq<Notification>, RouterError>)
      modifies this`digests
      ensures r.Success? <==> exists i :: 0 <= i < |subscribers| && subscribers[i].subscriber == subscriber
      ensures r.Failure? ==> r.error == UnknownSubscriber && digests == old(digests)
      ensures r.Success? ==>
        && r.value == DeskIn(old(Content()), subscriber).held
        && DeskIn(Content(), subscriber) == DeskIn(old(Content()), subscriber).(held := [])
      ensures forall s :: s != subscriber ==> DeskIn(Content(), s) == DeskIn(old(Content()), s)
    {
      if !Knows(subscriber) {
        return Failure(UnknownSubscriber);
      }
      var held := if subscriber in digests then digests[subscriber] else [];
      if held == [] {
        return Success([]);
      }
      digests := digests[subscriber := []];
      r := Success(held);
    }
  }

  // ------------------------------------------------------- one subscriber over a run

  datatype Event = Notify(note: Notification) | Flush

  function DeskNext(p: Policy, d: Desk, e: Event): Desk {
    match e
    case Notify(n) => RouteTo(p, d, n).0
    case Flush => d.(held := [])
  }

  function After(p: Policy, h: seq<Event>): Desk {
    if h == [] then Desk([], []) else DeskNext(p, After(p, h[..|h| - 1]), h[|h| - 1])
  }

  function OutcomeOf(p: Policy, h: seq<Event>, n: Notification): Outcome {
    RouteTo(p, After(p, h), n).1
  }

  /** The times at which the per-minute counter is asked. */
  function AskedTimes(p: Policy, h: seq<Event>): seq<int> {
    if h == [] then []
    else
      var before, e := AskedTimes(p, h[..|h| - 1]), h[|h| - 1];
      if e.Notify? && e.note.priority != SILENT && !QuietFor(p, e.note) then before + [e.note.createdAt] else before
  }

  /** The times of what was delivered at once or taken into the digest outside quiet hours. */
  function PassedTimes(p: Policy, h: seq<Event>): seq<int> {
    if h == [] then []
    else
      var init, e := h[..|h| - 1], h[|h| - 1];
      var before := PassedTimes(p, init);
      if e.Notify? && (OutcomeOf(p, init, e.note) == Delivered || OutcomeOf(p, init, e.note) == Digested)
      then before + [e.note.createdAt] else before
  }

  /** Everything that was held, in order of arrival. */
  function HeldSoFar(p: Policy, h: seq<Event>): seq<Notification> {
    if h == [] then []
    else
      var init, e := h[..|h| - 1], h[|h| - 1];
      if e.Notify? && IsHeld(OutcomeOf(p, init, e.note)) then HeldSoFar(p, init) + [e.note] else HeldSoFar(p, init)
  }

  /** Everything that flushes handed to the sink, in order. */
  function FlushedSoFar(p: Policy, h: seq<Event>): seq<Notification> {
    if h == [] then []
    else
      var init, e := h[..|h| - 1], h[|h| - 1];
      if e.Flush? then FlushedSoFar(p, init) + After(p, init).held else FlushedSoFar(p, init)
  }

  lemma HeldNext(p: Policy, h: seq<Event>, e: Event)
    ensures HeldSoFar(p, h + [e]) ==
      if e.Notify? && IsHeld(OutcomeOf(p, h, e.note)) then HeldSoFar(p, h) + [e.note] else HeldSoFar(p, h)
    ensures FlushedSoFar(p, h + [e]) ==
      if e.Flush? then FlushedSoFar(p, h) + After(p, h).held else FlushedSoFar(p, h)
    ensures After(p, h + [e]) == DeskNext(p, After(p, h), e)
  {
    assert (h + [e])[..|h|] == h;
  }

  lemma DeskHolds(p: Policy, d: Desk, n: Notification)
    ensures RouteTo(p, d, n).0.held == if IsHeld(RouteTo(p, d, n).1) then d.held + [n] else d.held
  {
  }

  /** Nothing that is held gets lost, repeated or reordered: it has been flushed, or is still held. */
  lemma {:induction false} DigestConserved(p: Policy, h: seq<Event>)
    ensures FlushedSoFar(p, h) + After(p, h).held == HeldSoFar(p, h)
  {
    if h != [] {
      var init, e := h[..|h| - 1], h[|h| - 1];
      assert h == init + [e];
      DigestConserved(p, init);
      HeldNext(p, init, e);
      if e.Notify? {
        DeskHolds(p, After(p, init), e.note);
      }
    }
  }

  ghost predicate InOrder(h: seq<Event>, now: int) {
    && (forall i :: 0 <= i < |h| && h[i].Notify? ==> h[i].note.createdAt <= now)
    && (forall i, j :: 0 <= i < j < |h| && h[i].Notify? && h[j].Notify? ==> h[i].note.createdAt <= h[j].note.createdAt)
  }

  lemma {:induction false} AskedInOrder(p: Policy, h: seq<Event>, now: int)
    requires InOrder(h, now)
    ensures Nondecreasing(AskedTimes(p, h)) && forall i :: 0 <= i < |AskedTimes(p, h)| ==> AskedTimes(p, h)[i] <= now
  {
    if h != [] {
      var e := h[|h| - 1];
      AskedInOrder(p, h[..|h| - 1], if e.Notify? then e.note.createdAt else now);
    }
  }

  lemma {:induction false} HitsFromTimes(p: Policy, h: seq<Event>)
    ensures After(p, h).hits == Hits(false, AskedTimes(p, h), p.rateLimit)
  {
    if h != [] {
      var init, e := h[..|h| - 1], h[|h| - 1];
      HitsFromTimes(p, init);
      if e.Notify? && e.note.priority != SILENT && !QuietFor(p, e.note) {
        HitsNext(false, AskedTimes(p, init), e.note.createdAt, p.rateLimit);
      }
    }
  }

  lemma PassesIffFew(p: Policy, h: seq<Event>, n: Notification)
    requires InOrder(h, n.createdAt) && n.priority != SILENT && !QuietFor(p, n)
    ensures OutcomeOf(p, h, n) == Delivered || OutcomeOf(p, h, n) == Digested || OutcomeOf(p, h, n) == RateLimited
    ensures OutcomeOf(p, h, n) != RateLimited <==>
      |Recent(Admitted(AskedTimes(p, h), p.rateLimit), n.createdAt)| < p.rateLimit
    ensures n.priority == CRITICAL ==> OutcomeOf(p, h, n) != Digested
  {
    HitsFromTimes(p, h);
    AskedInOrder(p, h, n.createdAt);
    PrunedDecidesAsFull(false, AskedTimes(p, h), p.rateLimit, n.createdAt);
  }

  lemma {:induction false} PassedAreAdmitted(p: Policy, h: seq<Event>, now: int)
    requires InOrder(h, now)
    ensures PassedTimes(p, h) == Admitted(AskedTimes(p, h), p.rateLimit)
  {
    if h != [] {
      var init, e := h[..|h| - 1], h[|h| - 1];
      PassedAreAdmitted(p, init, if e.Notify? then e.note.createdAt else now);
      if e.Notify? && e.note.priority != SILENT && !QuietFor(p, e.note) {
        PassesIffFew(p, init, e.note);
        HitsNext(false, AskedTimes(p, init), e.note.createdAt, p.rateLimit);
      }
    }
  }

  /** In every run, whatever is delivered at once or digested outside quiet hours stays within the limit in any
      sixty seconds. */
  lemma RateIsKept(p: Policy, h: seq<Event>, now: int, start: int)
    requires InOrder(h, now) && p.rateLimit >= 0
    ensures |InWindow(start, PassedTimes(p, h))| <= p.rateLimit
  {
    PassedAreAdmitted(p, h, now);
    AtMostLimitPerWindow(AskedTimes(p, h), p.rateLimit, start);
  }

  /** "CRITICAL: always deliver" holds against quiet hours and digests but not against the limit: a critical
      notification is delivered exactly when fewer than the limit have passed in the last minute. */
  lemma CriticalDeliveredIff(p: Policy, h: seq<Event>, n: Notification)
    requires InOrder(h, n.createdAt) && n.priority == CRITICAL
    ensures OutcomeOf(p, h, n) == Delivered <==> |Recent(PassedTimes(p, h), n.createdAt)| < p.rateLimit
    ensures OutcomeOf(p, h, n) != Delivered ==> OutcomeOf(p, h, n) == RateLimited
  {
    PassedAreAdmitted(p, h, n.createdAt);
    PassesIffFew(p, h, n);
  }

  /** It falls into the subscriber's quiet hours; critical ones never do. */
  predicate IsQuieted(p: Policy, n: Notification) {
    n.priority == NORMAL && p.quiet.Some? && p.quiet.value.IsQuiet(n.createdAt)
  }

  /** Fewer than the limit have passed in the last minute. */
  predicate HasRoom(p: Policy, h: seq<Event>, now: int) {
    |Recent(PassedTimes(p, h), now)| < p.rateLimit
  }

  /** Over every run, when a notification gets which outcome. */
  lemma OutcomeIff(p: Policy, h: seq<Event>, n: Notification)
    requires InOrder(h, n.createdAt)
    ensures var o := OutcomeOf(p, h, n);
      && (o == Silenced <==> n.priority == SILENT)
      && (o == HeldInQuiet <==> IsQuieted(p, n) && p.digest)
      && (o == DroppedInQuiet <==> IsQuieted(p, n) && !p.digest)
      && (o == RateLimited <==> n.priority != SILENT && !IsQuieted(p, n) && !HasRoom(p, h, n.createdAt))
      && (o == Digested <==> n.priority == NORMAL && !IsQuieted(p, n) && HasRoom(p, h, n.createdAt) && p.digest)
      && (o == Delivered <==>
            (n.priority == CRITICAL || (n.priority == NORMAL && !IsQuieted(p, n) && !p.digest))
            && HasRoom(p, h, n.createdAt))
  {
    if n.priority != SILENT && !IsQuieted(p, n) {
      PassedAreAdmitted(p, h, n.createdAt);
      PassesIffFew(p, h, n);
    }
  }

  /** `n` copies of one notification. */
  function Repeat(n: nat, note: Notification): seq<Event> {
    if n == 0 then [] else Repeat(n - 1, note) + [Notify(note)]
  }

  lemma {:induction false} RepeatFacts(n: nat, note: Notification)
    ensures InOrder(Repeat(n, note), note.createdAt)
    ensures forall e :: e in Repeat(n, note) ==> e == Notify(note)
  {
    if n > 0 {
      RepeatFacts(n - 1, note);
    }
  }

  lemma PassedNext(p: Policy, h: seq<Event>, note: Notification)
    ensures PassedTimes(p, h + [Notify(note)]) ==
      if OutcomeOf(p, h, note) == Delivered || OutcomeOf(p, h, note) == Digested
      then PassedTimes(p, h) + [note.createdAt] else PassedTimes(p, h)
  {
    assert (h + [Notify(note)])[..|h|] == h;
  }

  lemma {:induction false} RepeatPasses(p: Policy, n: nat, note: Notification)
    requires note.priority == CRITICAL && n <= p.rateLimit
    ensures |Recent(PassedTimes(p, Repeat(n, note)), note.createdAt)| == n
  {
    if n > 0 {
      var h := Repeat(n - 1, note);
      RepeatPasses(p, n - 1, note);
      RepeatFacts(n - 1, note);
      CriticalDeliveredIff(p, h, note);
      PassedNext(p, h, note);
      RecentAppend(PassedTimes(p, h), note.createdAt, note.createdAt);
    }
  }

  /** It happens: of limit + 1 critical notifications at one instant the last one is held back. */
  lemma OneCriticalTooMany(p: Policy, note: Notification)
    requires note.priority == CRITICAL && p.rateLimit >= 0
    ensures OutcomeOf(p, Repeat(p.rateLimit, note), note) == RateLimited
  {
    RepeatFacts(p.rateLimit, note);
    RepeatPasses(p, p.rateLimit, note);
    CriticalDeliveredIff(p, Repeat(p.rateLimit, note), note);
  }
}
