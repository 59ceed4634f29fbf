/** What the webhook surface promises over whole histories, whatever the order in which bodies arrive. */
module WebhookRules {
  import opened Ordering
  import opened Text
  import opened RateWindows
  import opened Webhooks

  type History = seq<Event>

  function After(cfg: Config, h: History): State {
    if h == [] then State(map[], map[], []) else Step(cfg, After(cfg, h[..|h| - 1]), h[|h| - 1]).0
  }

  function VerdictAt(cfg: Config, h: History, i: nat): Verdict
    requires i < |h|
  {
    Step(cfg, After(cfg, h[..i]), h[i]).1
  }

  /** The clock does not run backwards; it is read when an attempt begins. */
  predicate Ordered(h: History) {
    forall i, j :: 0 <= i < j < |h| && h[i].Begin? && h[j].Begin? ==> h[i].now <= h[j].now
  }

  predicate NotAfter(h: History, now: int) {
    forall i :: 0 <= i < |h| && h[i].Begin? ==> h[i].now <= now
  }

  lemma AfterNext(cfg: Config, h: History, e: Event)
    ensures After(cfg, h + [e]) == Step(cfg, After(cfg, h), e).0
    ensures VerdictAt(cfg, h + [e], |h|) == Step(cfg, After(cfg, h), e).1
  {
    assert (h + [e])[..|h|] == h;
  }

  // ------------------------------------------------------- what is checked of a body

  /** The time stamp lies no further than the allowed skew from the start of the attempt. */
  predicate InTime(cfg: Config, start: int, b: Body) {
    b.stamp.Some? && b.stamp.value - cfg.skew <= start <= b.stamp.value + cfg.skew
  }

  predicate HasEventType(b: Body) {
    b.payload.Fields? && b.payload.eventType == Some("task.create")
  }

  predicate HasNonce(b: Body) {
    b.payload.Fields? && b.payload.nonce.Some? && |b.payload.nonce.value| > 0
  }

  /** A title with something other than white space. */
  ghost predicate HasTitle(b: Body) {
    && b.payload.Fields? && b.payload.title.Some?
    && exists k :: 0 <= k < |b.payload.title.value| && !IsSpace(b.payload.title.value[k])
  }

  /** Small enough, signed and in time. */
  predicate Authentic(cfg: Config, start: int, b: Body) {
    !b.tooLarge && b.signatureOk && InTime(cfg, start, b)
  }

  /** The body's nonce gets looked up. */
  predicate Screened(cfg: Config, start: int, b: Body) {
    Authentic(cfg, start, b) && HasEventType(b) && HasNonce(b)
  }

  /** `v` is the answer to the first check that the body fails. */
  predicate FirstFailure(cfg: Config, start: int, b: Body, v: Verdict) {
    && (v == BodyTooLarge <==> b.tooLarge)
    && (v == BadSignature <==> !b.tooLarge && !b.signatureOk)
    && (v == StaleTimestamp <==> !b.tooLarge && b.signatureOk && !InTime(cfg, start, b))
    && (v == NonJson <==> Authentic(cfg, start, b) && b.payload == NonJsonBody)
    && (v == EventTypeRaises <==> Authentic(cfg, start, b) && b.payload == UnhashableType)
    && (v == EventTypeNotAllowed <==> Authentic(cfg, start, b) && b.payload.Fields? && !HasEventType(b))
    && (v == MissingNonce <==> Authentic(cfg, start, b) && HasEventType(b) && !HasNonce(b))
  }

  /** What passes the checks and what the others are told. */
  lemma ScreeningTells(cfg: Config, start: int, b: Body)
    ensures Screening(cfg, start, b).None? <==> Screened(cfg, start, b)
    ensures Screening(cfg, start, b).Some? ==> FirstFailure(cfg, start, b, Screening(cfg, start, b).value)
  {
    assert forall x :: x in ALLOWED_EVENT_TYPES <==> x == "task.create";
  }

  // ------------------------------------------------------- the rate limit

  /** The times of the attempts by `source`, in order. */
  function TimesOf(cfg: Config, h: History, source: Id): seq<int> {
    if h == [] then []
    else
      var e := h[|h| - 1];
      var before := TimesOf(cfg, h[..|h| - 1], source);
      if e.Begin? && e.source == source && source in cfg.secrets then before + [e.now] else before
  }

  /** The times at which `source` got past the rate limit. */
  function PassedTimes(cfg: Config, h: History, source: Id): seq<int> {
    if h == [] then []
    else
      var k := |h| - 1;
      var before := PassedTimes(cfg, h[..k], source);
      if h[k].Begin? && h[k].source == source && VerdictAt(cfg, h, k) == Pending then before + [h[k].now] else before
  }

  lemma HitsStep(cfg: Config, st: State, e: Event, source: Id)
    ensures var (st', v) := Step(cfg, st, e);
      if e.Begin? && e.source == source && source in cfg.secrets then
        var (allowed, hits) := PrunedAllow(true, HitsOf(st, source), e.now, cfg.limit);
        HitsOf(st', source) == hits && (v == Pending <==> allowed) && (v == RateLimited <==> !allowed)
      else
        HitsOf(st', source) == HitsOf(st, source)
        && (e.Begin? && e.source == source ==> v == UnknownSource)
  {
  }

  lemma {:induction false} HitsFromTimes(cfg: Config, h: History, source: Id)
    ensures HitsOf(After(cfg, h), source) == Hits(true, TimesOf(cfg, h, source), cfg.limit)
  {
    if h != [] {
      var k := |h| - 1;
      HitsFromTimes(cfg, h[..k], source);
      HitsStep(cfg, After(cfg, h[..k]), h[k], source);
      if h[k].Begin? {
        HitsNext(true, TimesOf(cfg, h[..k], source), h[k].now, cfg.limit);
      }
    }
  }

  lemma {:induction false} TimesOrdered(cfg: Config, h: History, source: Id, now: int)
    requires Ordered(h) && NotAfter(h, now)
    ensures Nondecreasing(TimesOf(cfg, h, source))
    ensures forall i :: 0 <= i < |TimesOf(cfg, h, source)| ==> TimesOf(cfg, h, source)[i] <= now
  {
    if h != [] {
      var k := |h| - 1;
      TimesOrdered(cfg, h[..k], source, if h[k].Begin? then h[k].now else now);
    }
  }

  /** The pruned decision for `source`, on the history of its attempts. */
  lemma LimitDecision(cfg: Config, h: History, now: int, source: Id)
    requires Ordered(h) && NotAfter(h, now)
    ensures PrunedAllow(true, HitsOf(After(cfg, h), source), now, cfg.limit).0 <==>
      |Recent(Admitted(TimesOf(cfg, h, source), cfg.limit), now)| < cfg.limit
  {
    HitsFromTimes(cfg, h, source);
    TimesOrdered(cfg, h, source, now);
    PrunedDecidesAsFull(true, TimesOf(cfg, h, source), cfg.limit, now);
  }

  lemma {:induction false} PassedIsAdmitted(cfg: Config, h: History, source: Id)
    requires Ordered(h)
    ensures PassedTimes(cfg, h, source) == Admitted(TimesOf(cfg, h, source), cfg.limit)
  {
    if h != [] {
      var k := |h| - 1;
      PassedIsAdmitted(cfg, h[..k], source);
      HitsStep(cfg, After(cfg, h[..k]), h[k], source);
      if h[k].Begin? {
        LimitDecision(cfg, h[..k], h[k].now, source);
        HitsNext(true, TimesOf(cfg, h[..k], source), h[k].now, cfg.limit);
      }
    }
  }

  /** An attempt goes on to its body exactly when its source is known and not over the limit. */
  lemma BegunIff(cfg: Config, h: History, now: int, source: Id)
    requires Ordered(h) && NotAfter(h, now)
    ensures var v := Step(cfg, After(cfg, h), Begin(source, now)).1;
      && (v == UnknownSource <==> source !in cfg.secrets)
      && (v == Pending <==> source in cfg.secrets && |Recent(PassedTimes(cfg, h, source), now)| < cfg.limit)
  {
    HitsStep(cfg, After(cfg, h), Begin(source, now), source);
    RateLimitedIff(cfg, h, now, source);
  }

  /** A known source is turned away exactly when it already got past the limit `limit` times in the
      last minute, counting over everything that ever happened. */
  lemma RateLimitedIff(cfg: Config, h: History, now: int, source: Id)
    requires Ordered(h) && NotAfter(h, now)
    ensures Step(cfg, After(cfg, h), Begin(source, now)).1 == RateLimited <==>
      source in cfg.secrets && |Recent(PassedTimes(cfg, h, source), now)| >= cfg.limit
  {
    HitsStep(cfg, After(cfg, h), Begin(source, now), source);
    LimitDecision(cfg, h, now, source);
    PassedIsAdmitted(cfg, h, source);
  }

  /** No source gets past the rate limit, let alone creates a task, more than `limit` times a minute. */
  lemma PassesPerMinute(cfg: Config, h: History, source: Id, start: int)
    requires Ordered(h) && cfg.limit >= 0
    ensures |InWindow(start, PassedTimes(cfg, h, source))| <= cfg.limit
  {
    PassedIsAdmitted(cfg, h, source);
    AtMostLimitPerWindow(TimesOf(cfg, h, source), cfg.limit, start);
  }

  // ------------------------------------------------------- the nonces, exactly

  /** Event `i` finishes an attempt. */
  predicate Finishes(cfg: Config, h: History, i: nat) {
    i < |h| && h[i].Finish? && h[i].index < |After(cfg, h[..i]).pending|
  }

  /** The attempt that event `i` finishes. */
  function TicketAt(cfg: Config, h: History, i: nat): Ticket
    requires Finishes(cfg, h, i)
  {
    After(cfg, h[..i]).pending[h[i].index]
  }

  /** The attempt that event `i` finishes gets as far as the nonce registry of `source`, and sweeps it. */
  predicate LooksUp(cfg: Config, h: History, i: nat, source: Id) {
    Finishes(cfg, h, i) && TicketAt(cfg, h, i).source == source && Screened(cfg, TicketAt(cfg, h, i).now, h[i].body)
  }

  /** When the attempt began. */
  function StartOf(cfg: Config, h: History, i: nat): int
    requires Finishes(cfg, h, i)
  {
    TicketAt(cfg, h, i).now
  }

  predicate Carries(b: Body, nonce: string) {
    b.payload.Fields? && b.payload.nonce == Some(nonce)
  }

  /** Event `i` looks this nonce up. */
  predicate Asks(cfg: Config, h: History, i: nat, source: Id, nonce: string) {
    LooksUp(cfg, h, i, source) && Carries(h[i].body, nonce)
  }

  /** Event `i` records this nonce as first seen. */
  predicate Records(cfg: Config, h: History, i: nat, source: Id, nonce: string) {
    Asks(cfg, h, i, source, nonce) && VerdictAt(cfg, h, i) != ReplayedNonce
  }

  /** No attempt of `source` that finished after the record of event `i` began more than the TTL after it. */
  ghost predicate Survives(cfg: Config, h: History, i: nat, source: Id, nonce: string) {
    && Records(cfg, h, i, source, nonce)
    && forall k: nat :: i < k && LooksUp(cfg, h, k, source) ==> StartOf(cfg, h, k) - StartOf(cfg, h, i) <= cfg.ttl
  }

  /** The registry holds exactly the surviving record of a nonce. */
  ghost predicate Remembers(cfg: Config, h: History, source: Id, nonce: string, seen: Nonces) {
    && (nonce in seen ==> exists i: nat :: Survives(cfg, h, i, source, nonce))
    && (forall i: nat :: Survives(cfg, h, i, source, nonce) ==> nonce in seen && seen[nonce] == StartOf(cfg, h, i))
  }

  lemma EventStable(cfg: Config, h: History, e: Event, i: nat)
    requires i < |h|
    ensures Finishes(cfg, h + [e], i) <==> Finishes(cfg, h, i)
    ensures Finishes(cfg, h, i) ==> TicketAt(cfg, h + [e], i) == TicketAt(cfg, h, i)
    ensures (h + [e])[i] == h[i] && VerdictAt(cfg, h + [e], i) == VerdictAt(cfg, h, i)
  {
    assert (h + [e])[..i] == h[..i];
  }

  lemma RecordsStable(cfg: Config, h: History, e: Event, i: nat, source: Id, nonce: string)
    requires i < |h|
    ensures LooksUp(cfg, h + [e], i, source) <==> LooksUp(cfg, h, i, source)
    ensures LooksUp(cfg, h, i, source) ==> StartOf(cfg, h + [e], i) == StartOf(cfg, h, i)
    ensures Records(cfg, h + [e], i, source, nonce) <==> Records(cfg, h, i, source, nonce)
  {
    EventStable(cfg, h, e, i);
  }

  /** One lookup at time `now`: what becomes of a nonce that is asked for, or that is merely swept. */
  lemma FreshFacts(seen: Nonces, asked: string, now: int, ttl: int, nonce: string)
    ensures var (isFresh, seen') := Fresh(seen, asked, now, ttl);
      var kept := nonce in seen && now - seen[nonce] <= ttl;
      if asked == nonce then
        (isFresh <==> !kept) && nonce in seen' && seen'[nonce] == if kept then seen[nonce] else now
      else
        (nonce in seen' <==> kept) && (kept ==> seen'[nonce] == seen[nonce])
  {
  }

  lemma FinishFacts(cfg: Config, st: State, t: Ticket, b: Body, source: Id)
    ensures var (st', v) := FinishStep(cfg, st, t, b);
      if t.source == source && Screened(cfg, t.now, b) then
        var (isFresh, seen') := Fresh(SeenBy(st, source), b.payload.nonce.value, t.now, cfg.ttl);
        SeenBy(st', source) == seen' && (v == ReplayedNonce <==> !isFresh)
      else
        SeenBy(st', source) == SeenBy(st, source)
  {
    ScreeningTells(cfg, t.now, b);
  }

  /** The event looks a nonce of `source` up. */
  predicate Sweeps(cfg: Config, st: State, e: Event, source: Id) {
    e.Finish? && e.index < |st.pending| && st.pending[e.index].source == source
    && Screened(cfg, st.pending[e.index].now, e.body)
  }

  /** What becomes of a nonce in one lookup at time `t` that asks for it or not. */
  predicate SeenBecomes(seen: Nonces, seen': Nonces, asked: bool, replayed: bool, t: int, ttl: int, nonce: string) {
    var kept := nonce in seen && t - seen[nonce] <= ttl;
    if asked then
      (replayed <==> kept) && nonce in seen' && seen'[nonce] == if kept then seen[nonce] else t
    else
      (nonce in seen' <==> kept) && (kept ==> seen'[nonce] == seen[nonce])
  }

  lemma StepSeen(cfg: Config, st: State, e: Event, source: Id, nonce: string)
    ensures var (st', v) := Step(cfg, st, e);
      if Sweeps(cfg, st, e, source) then
        SeenBecomes(SeenBy(st, source), SeenBy(st', source), Carries(e.body, nonce), v == ReplayedNonce,
                    st.pending[e.index].now, cfg.ttl, nonce)
      else
        SeenBy(st', source) == SeenBy(st, source)
  {
    if e.Finish? && e.index < |st.pending| {
      var t := st.pending[e.index];
      FinishFacts(cfg, st.(pending := Without(st.pending, e.index)), t, e.body, source);
      if Screened(cfg, t.now, e.body) {
        FreshFacts(SeenBy(st, source), e.body.payload.nonce.value, t.now, cfg.ttl, nonce);
      }
    }
  }

  lemma LastEvent(cfg: Config, h: History, e: Event, source: Id)
    ensures LooksUp(cfg, h + [e], |h|, source) <==> Sweeps(cfg, After(cfg, h), e, source)
    ensures LooksUp(cfg, h + [e], |h|, source) ==>
      StartOf(cfg, h + [e], |h|) == After(cfg, h).pending[e.index].now
  {
    assert (h + [e])[..|h|] == h;
  }

  /** What one event does to the nonces of `source`. */
  lemma SeenStep(cfg: Config, h: History, e: Event, source: Id, nonce: string)
    ensures var h' := h + [e];
      var seen, seen' := SeenBy(After(cfg, h), source), SeenBy(After(cfg, h'), source);
      if LooksUp(cfg, h', |h|, source) then
        SeenBecomes(seen, seen', Carries(e.body, nonce), VerdictAt(cfg, h', |h|) == ReplayedNonce,
                    StartOf(cfg, h', |h|), cfg.ttl, nonce)
      else
        seen' == seen
  {
    AfterNext(cfg, h, e);
    LastEvent(cfg, h, e, source);
    StepSeen(cfg, After(cfg, h), e, source, nonce);
  }

  lemma SurvivesNext(cfg: Config, h: History, e: Event, i: nat, source: Id, nonce: string)
    requires i < |h|
    ensures var h' := h + [e];
      Survives(cfg, h', i, source, nonce) <==>
        Survives(cfg, h, i, source, nonce)
        && (LooksUp(cfg, h', |h|, source) ==> StartOf(cfg, h', |h|) - StartOf(cfg, h, i) <= cfg.ttl)
  {
    var h' := h + [e];
    RecordsStable(cfg, h, e, i, source, nonce);
    forall k: nat | k < |h|
      ensures LooksUp(cfg, h', k, source) <==> LooksUp(cfg, h, k, source)
      ensures LooksUp(cfg, h, k, source) ==> StartOf(cfg, h', k) == StartOf(cfg, h, k)
    {
      RecordsStable(cfg, h, e, k, source, nonce);
    }
    if Survives(cfg, h', i, source, nonce) {
      forall k: nat | i < k && LooksUp(cfg, h, k, source)
        ensures StartOf(cfg, h, k) - StartOf(cfg, h, i) <= cfg.ttl
      {
        assert LooksUp(cfg, h', k, source);
      }
    }
  }

  lemma RemembersNext(cfg: Config, h: History, e: Event, source: Id, nonce: string)
    requires Remembers(cfg, h, source, nonce, SeenBy(After(cfg, h), source))
    ensures Remembers(cfg, h + [e], source, nonce, SeenBy(After(cfg, h + [e]), source))
  {
    var h' := h + [e];
    var seen, seen' := SeenBy(After(cfg, h), source), SeenBy(After(cfg, h'), source);
    SeenStep(cfg, h, e, source, nonce);
    if nonce in seen {
      var i: nat :| Survives(cfg, h, i, source, nonce);
      SurvivesNext(cfg, h, e, i, source, nonce);
    }
    if nonce in seen' && Records(cfg, h', |h|, source, nonce) {
      assert Survives(cfg, h', |h|, source, nonce);
    }
    forall i: nat | Survives(cfg, h', i, source, nonce)
      ensures nonce in seen' && seen'[nonce] == StartOf(cfg, h', i)
    {
      if i < |h| {
        SurvivesNext(cfg, h, e, i, source, nonce);
        RecordsStable(cfg, h, e, i, source, nonce);
      }
    }
  }

  lemma {:induction false} AlwaysRemembers(cfg: Config, h: History, source: Id, nonce: string)
    ensures Remembers(cfg, h, source, nonce, SeenBy(After(cfg, h), source))
  {
    if h != [] {
      var k := |h| - 1;
      assert h[..k] + [h[k]] == h;
      AlwaysRemembers(cfg, h[..k], source, nonce);
      RemembersNext(cfg, h[..k], h[k], source, nonce);
    }
  }

  /** In every history, with bodies arriving in any order: a nonce that is looked up is called a replay exactly
      when some record of it survives, that is, when no attempt of its source that finished after that record,
      this one included, began more than the TTL after it. */
  lemma ReplayedIff(cfg: Config, h: History, e: Event, source: Id, nonce: string)
    requires Asks(cfg, h + [e], |h|, source, nonce)
    ensures VerdictAt(cfg, h + [e], |h|) == ReplayedNonce <==>
      exists i: nat :: i < |h| && Survives(cfg, h + [e], i, source, nonce)
  {
    var h' := h + [e];
    var seen := SeenBy(After(cfg, h), source);
    AlwaysRemembers(cfg, h, source, nonce);
    SeenStep(cfg, h, e, source, nonce);
    if VerdictAt(cfg, h', |h|) == ReplayedNonce {
      var i: nat :| Survives(cfg, h, i, source, nonce);
      SurvivesNext(cfg, h, e, i, source, nonce);
    }
    if i: nat :| i < |h| && Survives(cfg, h', i, source, nonce) {
      SurvivesNext(cfg, h, e, i, source, nonce);
    }
  }

  /** The nonce of event `i` is still remembered from an earlier attempt of its source. */
  ghost predicate IsReplay(cfg: Config, h: History, i: nat)
    requires Finishes(cfg, h, i) && HasNonce(h[i].body)
  {
    exists j: nat :: HeldFrom(cfg, h, i, j, TicketAt(cfg, h, i).source, h[i].body.payload.nonce.value)
  }

  /** The record of event `j` survives up to event `i`. */
  ghost predicate HeldFrom(cfg: Config, h: History, i: nat, j: nat, source: Id, nonce: string)
    requires i < |h|
  {
    j < i && Survives(cfg, h[..i + 1], j, source, nonce)
  }

  lemma FinishVerdict(cfg: Config, st: State, t: Ticket, b: Body)
    ensures var v := FinishStep(cfg, st, t, b).1;
      && (!Screened(cfg, t.now, b) ==> FirstFailure(cfg, t.now, b, v) && v != ReplayedNonce && v != Accepted)
      && (Screened(cfg, t.now, b) && v != ReplayedNonce ==> v == if HasTitle(b) then Accepted else InvalidPayload)
  {
    ScreeningTells(cfg, t.now, b);
  }

  /** In every history, what a finished attempt is answered, from its body and the surviving records: it creates a
      task iff the body is small enough, signed, in time, of the allowed type, with a nonce that is no replay and a
      title; otherwise it is told the first of these that fails. */
  lemma AcceptedIff(cfg: Config, h: History, e: Event)
    requires Finishes(cfg, h + [e], |h|)
    ensures var h' := h + [e];
      var v, start := VerdictAt(cfg, h', |h|), StartOf(cfg, h', |h|);
      if !Screened(cfg, start, e.body) then FirstFailure(cfg, start, e.body, v) && v != Accepted
      else if IsReplay(cfg, h', |h|) then v == ReplayedNonce
      else v == if HasTitle(e.body) then Accepted else InvalidPayload
  {
    var h' := h + [e];
    assert h'[..|h|] == h && h'[..|h| + 1] == h';
    var t := TicketAt(cfg, h', |h|);
    FinishVerdict(cfg, After(cfg, h).(pending := Without(After(cfg, h).pending, e.index)), t, e.body);
    if Screened(cfg, t.now, e.body) {
      var nonce := e.body.payload.nonce.value;
      ReplayedIff(cfg, h, e, t.source, nonce);
      assert forall j: nat :: HeldFrom(cfg, h', |h|, j, t.source, nonce) <==> j < |h| && Survives(cfg, h', j, t.source, nonce);
    }
  }

  // ------------------------------------------------------- how far apart two tasks are

  /** No attempt is overtaken, on its way to the registry, by one that began more than `d` after it. */
  ghost predicate OvertakingWithin(cfg: Config, h: History, d: int) {
    forall source, k: nat, j: nat :: k < j && LooksUp(cfg, h, k, source) && LooksUp(cfg, h, j, source) ==>
      StartOf(cfg, h, k) - StartOf(cfg, h, j) <= d
  }

  /** Event `i` creates a task for this nonce. */
  predicate CreatesTask(cfg: Config, h: History, i: nat, source: Id, nonce: string) {
    Asks(cfg, h, i, source, nonce) && VerdictAt(cfg, h, i) == Accepted
  }

  /** Any two tasks of one source and nonce began more than `window` apart. */
  ghost predicate TasksApart(cfg: Config, h: History, window: int) {
    forall source, nonce, i: nat, j: nat ::
      i < j && CreatesTask(cfg, h, i, source, nonce) && CreatesTask(cfg, h, j, source, nonce) ==>
        StartOf(cfg, h, j) - StartOf(cfg, h, i) > window
  }

  lemma PrefixStable(cfg: Config, h: History, n: nat, i: nat, source: Id, nonce: string)
    requires i < n <= |h|
    ensures LooksUp(cfg, h[..n], i, source) <==> LooksUp(cfg, h, i, source)
    ensures LooksUp(cfg, h, i, source) ==> StartOf(cfg, h[..n], i) == StartOf(cfg, h, i)
    ensures Records(cfg, h[..n], i, source, nonce) <==> Records(cfg, h, i, source, nonce)
    ensures Asks(cfg, h[..n], i, source, nonce) <==> Asks(cfg, h, i, source, nonce)
    ensures VerdictAt(cfg, h[..n], i) == VerdictAt(cfg, h, i)
  {
    assert h[..n][..i] == h[..i];
  }

  lemma RecordedAgain(cfg: Config, h: History, i: nat, j: nat, source: Id, nonce: string)
    requires i < j && Records(cfg, h, i, source, nonce) && Records(cfg, h, j, source, nonce)
    ensures Records(cfg, h[..j + 1], i, source, nonce) && !Survives(cfg, h[..j + 1], i, source, nonce)
  {
    assert h[..j + 1] == h[..j] + [h[j]];
    PrefixStable(cfg, h, j + 1, i, source, nonce);
    PrefixStable(cfg, h, j + 1, j, source, nonce);
    ReplayedIff(cfg, h[..j], h[j], source, nonce);
  }

  lemma SweeperOf(cfg: Config, h: History, i: nat, source: Id, nonce: string) returns (k: nat)
    requires Records(cfg, h, i, source, nonce) && !Survives(cfg, h, i, source, nonce)
    ensures i < k < |h| && LooksUp(cfg, h, k, source) && StartOf(cfg, h, k) - StartOf(cfg, h, i) > cfg.ttl
  {
    k :| i < k && LooksUp(cfg, h, k, source) && StartOf(cfg, h, k) - StartOf(cfg, h, i) > cfg.ttl;
  }

  lemma SameStart(cfg: Config, h: History, n: nat, i: nat, source: Id)
    requires i < n <= |h| && LooksUp(cfg, h[..n], i, source)
    ensures LooksUp(cfg, h, i, source) && StartOf(cfg, h[..n], i) == StartOf(cfg, h, i)
  {
    PrefixStable(cfg, h, n, i, source, "");
  }

  /** A record that is made again has been swept by an attempt that began more than the TTL after it. */
  lemma SweptBetween(cfg: Config, h: History, i: nat, j: nat, source: Id, nonce: string) returns (k: nat)
    requires i < j && Records(cfg, h, i, source, nonce) && Records(cfg, h, j, source, nonce)
    ensures i < k <= j && LooksUp(cfg, h, k, source) && StartOf(cfg, h, k) - StartOf(cfg, h, i) > cfg.ttl
  {
    RecordedAgain(cfg, h, i, j, source, nonce);
    k := SweeperOf(cfg, h[..j + 1], i, source, nonce);
    SameStart(cfg, h, j + 1, i, source);
    SameStart(cfg, h, j + 1, k, source);
  }

  /** Two tasks of one source and nonce are more than the TTL apart, less the bound on overtaking. */
  lemma TasksAreApart(cfg: Config, h: History, d: int)
    requires d >= 0 && OvertakingWithin(cfg, h, d)
    ensures TasksApart(cfg, h, cfg.ttl - d)
  {
    forall source, nonce, i: nat, j: nat
      | i < j && CreatesTask(cfg, h, i, source, nonce) && CreatesTask(cfg, h, j, source, nonce)
      ensures StartOf(cfg, h, j) - StartOf(cfg, h, i) > cfg.ttl - d
    {
      var k := SweptBetween(cfg, h, i, j, source, nonce);
    }
  }

  /** Any (source, nonce) creates at most one task per TTL window, if bodies arrive in the order in which their
      attempts began. */
  lemma OneTaskPerWindow(cfg: Config, h: History)
    requires OvertakingWithin(cfg, h, 0)
    ensures TasksApart(cfg, h, cfg.ttl)
  {
    TasksAreApart(cfg, h, 0);
  }

  // ------------------------------------------------------- the run in which one overtakes

  function GoodBody(start: int, nonce: string): Body {
    Body(false, true, Some(start), Fields(Some("task.create"), Some(nonce), Some("t")))
  }

  /** A and B carry one nonce and C another.  They begin in the order A, B, C; C's body overtakes B's. */
  function OvertakingRun(source: Id, b: int, c: int): History {
    [Begin(source, 0), Begin(source, b), Begin(source, c)]
    + [Finish(0, GoodBody(0, "n")), Finish(1, GoodBody(c, "m")), Finish(0, GoodBody(b, "n"))]
  }

  lemma BeginPasses(cfg: Config, st: State, source: Id, now: int)
    requires source in cfg.secrets && |HitsOf(st, source)| < cfg.limit
    ensures var (st', v) := Step(cfg, st, Begin(source, now));
      v == Pending && st'.pending == st.pending + [Ticket(source, now)] && st'.seen == st.seen
      && |HitsOf(st', source)| <= |HitsOf(st, source)| + 1
  {
  }

  lemma BeginsNext(cfg: Config, h: History, k: nat, source: Id)
    requires source in cfg.secrets && k < |h| && h[k].Begin? && h[k].source == source
    requires |HitsOf(After(cfg, h[..k]), source)| < cfg.limit
    ensures var st, st' := After(cfg, h[..k]), After(cfg, h[..k + 1]);
      st'.pending == st.pending + [Ticket(source, h[k].now)] && st'.seen == st.seen
      && |HitsOf(st', source)| <= |HitsOf(st, source)| + 1
  {
    assert h[..k + 1] == h[..k] + [h[k]];
    AfterNext(cfg, h[..k], h[k]);
    BeginPasses(cfg, After(cfg, h[..k]), source, h[k].now);
  }

  /** The state after the three beginnings. */
  lemma ThreeBegin(cfg: Config, source: Id, b: int, c: int)
    requires source in cfg.secrets && cfg.limit >= 3
    ensures var st := After(cfg, OvertakingRun(source, b, c)[..3]);
      st.pending == [Ticket(source, 0), Ticket(source, b), Ticket(source, c)] && st.seen == map[]
  {
    var h := OvertakingRun(source, b, c);
    assert h[..0] == [];
    BeginsNext(cfg, h, 0, source);
    BeginsNext(cfg, h, 1, source);
    BeginsNext(cfg, h, 2, source);
  }

  lemma GoodBodyIsScreened(cfg: Config, start: int, nonce: string)
    requires cfg.skew >= 0 && nonce != ""
    ensures Screened(cfg, start, GoodBody(start, nonce)) && HasTitle(GoodBody(start, nonce))
  {
    assert InTime(cfg, start, GoodBody(start, nonce));
    assert !IsSpace("t"[0]);
  }

  /** A good body with a nonce that the registry does not hold, or holds no longer, creates a task. */
  lemma FinishPasses(cfg: Config, st: State, i: nat, nonce: string)
    requires cfg.skew >= 0 && i < |st.pending| && nonce != ""
    requires var t := st.pending[i];
      nonce in SeenBy(st, t.source) ==> t.now - SeenBy(st, t.source)[nonce] > cfg.ttl
    ensures var t := st.pending[i];
      var (st', v) := Step(cfg, st, Finish(i, GoodBody(t.now, nonce)));
      && Screened(cfg, t.now, GoodBody(t.now, nonce)) && v == Accepted
      && st'.pending == Without(st.pending, i)
      && SeenBy(st', t.source) == Fresh(SeenBy(st, t.source), nonce, t.now, cfg.ttl).1
  {
    var t := st.pending[i];
    GoodBodyIsScreened(cfg, t.now, nonce);
    FinishVerdict(cfg, st.(pending := Without(st.pending, i)), t, GoodBody(t.now, nonce));
    ScreeningTells(cfg, t.now, GoodBody(t.now, nonce));
  }

  /** Event `k` of a history finishes waiting attempt `i` with a good body, and creates a task. */
  lemma CreatesNext(cfg: Config, h: History, k: nat, i: nat, nonce: string)
    requires cfg.skew >= 0 && k < |h| && i < |After(cfg, h[..k]).pending| && nonce != ""
    requires var st := After(cfg, h[..k]); var t := st.pending[i];
      && h[k] == Finish(i, GoodBody(t.now, nonce))
      && (nonce in SeenBy(st, t.source) ==> t.now - SeenBy(st, t.source)[nonce] > cfg.ttl)
    ensures var st := After(cfg, h[..k]); var t := st.pending[i];
      && CreatesTask(cfg, h, k, t.source, nonce) && StartOf(cfg, h, k) == t.now
      && After(cfg, h[..k + 1]).pending == Without(st.pending, i)
      && SeenBy(After(cfg, h[..k + 1]), t.source) == Fresh(SeenBy(st, t.source), nonce, t.now, cfg.ttl).1
  {
    assert h[..k + 1] == h[..k] + [h[k]];
    AfterNext(cfg, h[..k], h[k]);
    FinishPasses(cfg, After(cfg, h[..k]), i, nonce);
  }

  lemma SecondForgetsFirst(a: string, b: string, c: int, ttl: int)
    requires c > ttl >= 0
    ensures Fresh(map[], a, 0, ttl).1 == map[a := 0]
    ensures Fresh(map[a := 0], b, c, ttl).1 == map[b := c]
  {
  }

  lemma AtStart(cfg: Config, source: Id, b: int, c: int)
    requires source in cfg.secrets && cfg.limit >= 3
    ensures var h := OvertakingRun(source, b, c); var st := After(cfg, h[..3]);
      && |st.pending| > 0 && st.pending[0] == Ticket(source, 0)
      && Without(st.pending, 0) == [Ticket(source, b), Ticket(source, c)]
      && SeenBy(st, source) == map[] && h[3] == Finish(0, GoodBody(0, "n"))
  {
    ThreeBegin(cfg, source, b, c);
  }

  lemma OneFinishes(cfg: Config, source: Id, b: int, c: int)
    requires source in cfg.secrets && cfg.limit >= 3 && cfg.skew >= 0 && 0 <= cfg.ttl < c && b <= c
    ensures var h := OvertakingRun(source, b, c);
      && CreatesTask(cfg, h, 3, source, "n") && StartOf(cfg, h, 3) == 0
      && After(cfg, h[..4]).pending == [Ticket(source, b), Ticket(source, c)]
      && SeenBy(After(cfg, h[..4]), source) == map["n" := 0]
  {
    AtStart(cfg, source, b, c);
    SecondForgetsFirst("n", "m", c, cfg.ttl);
    CreatesNext(cfg, OvertakingRun(source, b, c), 3, 0, "n");
  }

  lemma NoncesDiffer()
    ensures "m" != "n"
  {
    assert "m"[0] != "n"[0];
  }

  lemma TwoFinish(cfg: Config, source: Id, b: int, c: int)
    requires source in cfg.secrets && cfg.limit >= 3 && cfg.skew >= 0 && 0 <= cfg.ttl < c && b <= c
    ensures var h := OvertakingRun(source, b, c);
      && CreatesTask(cfg, h, 4, source, "m") && StartOf(cfg, h, 4) == c
      && After(cfg, h[..5]).pending == [Ticket(source, b)] && SeenBy(After(cfg, h[..5]), source) == map["m" := c]
  {
    OneFinishes(cfg, source, b, c);
    NoncesDiffer();
    SecondForgetsFirst("n", "m", c, cfg.ttl);
    CreatesNext(cfg, OvertakingRun(source, b, c), 4, 1, "m");
  }

  lemma ThreeFinish(cfg: Config, source: Id, b: int, c: int)
    requires source in cfg.secrets && cfg.limit >= 3 && cfg.skew >= 0 && 0 <= cfg.ttl < c && b <= c
    ensures var h := OvertakingRun(source, b, c);
      && CreatesTask(cfg, h, 3, source, "n") && StartOf(cfg, h, 3) == 0
      && CreatesTask(cfg, h, 4, source, "m") && StartOf(cfg, h, 4) == c
      && CreatesTask(cfg, h, 5, source, "n") && StartOf(cfg, h, 5) == b
  {
    OneFinishes(cfg, source, b, c);
    TwoFinish(cfg, source, b, c);
    NoncesDiffer();
    CreatesNext(cfg, OvertakingRun(source, b, c), 5, 0, "n");
  }

  lemma OnlyFinishesLookUp(cfg: Config, source: Id, b: int, c: int, k: nat, any: Id)
    requires LooksUp(cfg, OvertakingRun(source, b, c), k, any)
    ensures k == 3 || k == 4 || k == 5
  {
  }

  lemma OvertakingRunIsOrdered(source: Id, b: int, c: int)
    requires 0 <= b <= c
    ensures Ordered(OvertakingRun(source, b, c))
  {
  }

  lemma OvertakingRunFacts(cfg: Config, source: Id, b: int, c: int)
    requires source in cfg.secrets && cfg.limit >= 3 && cfg.skew >= 0 && 0 <= cfg.ttl < c && 0 <= b <= c
    ensures Ordered(OvertakingRun(source, b, c)) && OvertakingWithin(cfg, OvertakingRun(source, b, c), c - b)
  {
    var h := OvertakingRun(source, b, c);
    OvertakingRunIsOrdered(source, b, c);
    ThreeFinish(cfg, source, b, c);
    forall any, k: nat, j: nat | k < j && LooksUp(cfg, h, k, any) && LooksUp(cfg, h, j, any)
      ensures StartOf(cfg, h, k) - StartOf(cfg, h, j) <= c - b
    {
      OnlyFinishesLookUp(cfg, source, b, c, k, any);
      OnlyFinishesLookUp(cfg, source, b, c, j, any);
    }
  }

  /** One nonce, two tasks whose attempts began at the same instant: a third attempt, begun when the record had
      expired, sweeps it before the second body arrives. */
  lemma TwoTasksAtOnce(cfg: Config, source: Id)
    requires source in cfg.secrets && cfg.limit >= 3 && cfg.skew >= 0 && cfg.ttl >= 0
    ensures var h := OvertakingRun(source, 0, cfg.ttl + 1);
      && Ordered(h) && CreatesTask(cfg, h, 3, source, "n") && CreatesTask(cfg, h, 5, source, "n")
      && StartOf(cfg, h, 3) == StartOf(cfg, h, 5) == 0
  {
    ThreeFinish(cfg, source, 0, cfg.ttl + 1);
    OvertakingRunFacts(cfg, source, 0, cfg.ttl + 1);
  }

  /** Tasks of one nonce are more than `window` apart in every history with overtaking within `d` exactly when
      `window` is at most the TTL less `d`; so one task per TTL window needs bodies that arrive in order. */
  lemma WindowIff(cfg: Config, source: Id, d: int, window: int)
    requires source in cfg.secrets && cfg.limit >= 3 && cfg.skew >= 0 && cfg.ttl >= 0 && 0 <= d <= cfg.ttl + 1
    ensures (forall h :: Ordered(h) && OvertakingWithin(cfg, h, d) ==> TasksApart(cfg, h, window))
      <==> window <= cfg.ttl - d
  {
    if window <= cfg.ttl - d {
      forall h | Ordered(h) && OvertakingWithin(cfg, h, d)
        ensures TasksApart(cfg, h, window)
      {
        TasksAreApart(cfg, h, d);
      }
    } else {
      var b, c := cfg.ttl + 1 - d, cfg.ttl + 1;
      ThreeFinish(cfg, source, b, c);
      OvertakingRunFacts(cfg, source, b, c);
      assert !TasksApart(cfg, OvertakingRun(source, b, c), window);
    }
  }
}
