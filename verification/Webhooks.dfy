/** The webhook surface: the check sequence, the rate bucket and the nonce registry.

    Adjudication has one suspension point: it reads the clock and asks the rate
    bucket, awaits the request's body, and only then checks the body and asks the
    nonce registry, still with the first clock reading.  A step is either half of
    an attempt, so bodies may arrive in any order.  HMAC verification is the
    boolean `signatureOk`; header and body parsing are the fields of `Body`.
    Times are microseconds.
*/
module Webhooks {
  import opened Ordering
  import opened Text
  import opened RateWindows

  datatype Payload =
    | NonJsonBody
    | UnhashableType  // an event type that is a list or an object: looking it up raises
    | Fields(eventType: Option<string>, nonce: Option<string>, title: Option<string>)

  /** What arrives with the body: its size, its signature, the time stamp and the payload. */
  datatype Body = Body(tooLarge: bool, signatureOk: bool, stamp: Option<int>, payload: Payload)

  datatype Config = Config(secrets: set<Id>, limit: int, skew: int, ttl: int)

  type Nonces = map<string, int>

  /** An attempt that has passed the rate limit and awaits its body. */
  datatype Ticket = Ticket(source: Id, now: int)

  datatype State = State(hits: map<Id, seq<int>>, seen: map<Id, Nonces>, pending: seq<Ticket>)

  /** Pending: the attempt goes on to await its body.  NoAttempt: no such attempt is waiting. */
  datatype Verdict =
    | UnknownSource | RateLimited | Pending | NoAttempt
    | BodyTooLarge | BadSignature | StaleTimestamp | NonJson
    | EventTypeRaises | EventTypeNotAllowed | MissingNonce | ReplayedNonce | InvalidPayload | Accepted

  datatype Event = Begin(source: Id, now: int) | Finish(index: nat, body: Body)

  const ALLOWED_EVENT_TYPES: set<string> := {"task.create"}

  function HitsOf(st: State, source: Id): seq<int> {
    if source in st.hits then st.hits[source] else []
  }

  function SeenBy(st: State, source: Id): Nonces {
    if source in st.seen then st.seen[source] else map[]
  }

  /** `_NonceRegistry.fresh`: drop what is older than the TTL, then check and record. */
  function Fresh(seen: Nonces, nonce: string, now: int, ttl: int): (bool, Nonces) {
    var kept := map n | n in seen && now - seen[n] <= ttl :: seen[n];
    if nonce in kept then (false, kept) else (true, kept[nonce := now])
  }

  class NonceRegistry {
    const ttl: int
    var seen: map<Id, Nonces>

    function Seen(source: Id): Nonces
      reads this
    {
      if source in seen then seen[source] else map[]
    }

    constructor (ttl: int)
      ensures this.ttl == ttl && seen == map[]
    {
      this.ttl := ttl;
      seen := map[];
    }

    method CheckFresh(source: Id, nonce: string, now: int) returns (fresh_: bool)
      modifies this`seen
      ensures var (ok, kept) := Fresh(old(Seen(source)), nonce, now, ttl);
        fresh_ == ok && seen == old(seen)[source := kept]
    {
      var kept := Seen(source);
      var stale := set n | n in kept && now - kept[n] > ttl;
      ghost var all, rest0 := kept, stale;
      while stale != {}
        invariant stale <= rest0
        invariant kept == map n | n in all && !(n in rest0 && n !in stale) :: all[n]
      {
        var n :| n in stale;
        kept := kept - {n};
        stale := stale - {n};
      }
      assert kept == map n | n in all && now - all[n] <= ttl :: all[n];
      if nonce in kept {
        seen := seen[source := kept];
        return false;
      }
      seen := seen[source := kept[nonce := now]];
      fresh_ := true;
    }
  }

  predicate StampOk(cfg: Config, now: int, stamp: Option<int>) {
    stamp.Some? && -cfg.skew <= now - stamp.value <= cfg.skew
  }

  /** The checks between the body and the nonce registry, in their order. */
  function Screening(cfg: Config, now: int, b: Body): Option<Verdict> {
    if b.tooLarge then Some(BodyTooLarge)
    else if !b.signatureOk then Some(BadSignature)
    else if !StampOk(cfg, now, b.stamp) then Some(StaleTimestamp)
    else if b.payload.NonJsonBody? then Some(NonJson)
    else if b.payload.UnhashableType? then Some(EventTypeRaises)
    else if b.payload.eventType.None? || b.payload.eventType.value !in ALLOWED_EVENT_TYPES then Some(EventTypeNotAllowed)
    else if b.payload.nonce.None? || b.payload.nonce.value == "" then Some(MissingNonce)
    else None
  }

  predicate TitleOk(b: Body) {
    b.payload.Fields? && b.payload.title.Some? && !IsBlank(b.payload.title.value)
  }

  /** `_adjudicate` up to its `await`. */
  function BeginStep(cfg: Config, st: State, source: Id, now: int): (State, Verdict) {
    if source !in cfg.secrets then (st, UnknownSource)
    else
      var (allowed, hits) := PrunedAllow(true, HitsOf(st, source), now, cfg.limit);
      var st1 := st.(hits := st.hits[source := hits]);
      if allowed then (st1.(pending := st1.pending + [Ticket(source, now)]), Pending) else (st1, RateLimited)
  }

  /** `_adjudicate` after its `await`, for the body of attempt `t`. */
  function FinishStep(cfg: Config, st: State, t: Ticket, b: Body): (State, Verdict) {
    if Screening(cfg, t.now, b).Some? then (st, Screening(cfg, t.now, b).value)
    else
      var (isFresh, seen) := Fresh(SeenBy(st, t.source), b.payload.nonce.value, t.now, cfg.ttl);
      (st.(seen := st.seen[t.source := seen]),
       if !isFresh then ReplayedNonce else if TitleOk(b) then Accepted else InvalidPayload)
  }

  function Step(cfg: Config, st: State, e: Event): (State, Verdict) {
    match e
    case Begin(source, now) => BeginStep(cfg, st, source, now)
    case Finish(i, b) =>
      if i >= |st.pending| then (st, NoAttempt)
      else FinishStep(cfg, st.(pending := Without(st.pending, i)), st.pending[i], b)
  }

  class WebhookHandlers {
    const cfg: Config
    const bucket: RateBucket
    const nonces: NonceRegistry
    var pending: seq<Ticket>  // the attempts suspended at their bodies

    function Content(): State
      reads this, bucket, nonces
    {
      State(bucket.hits, nonces.seen, pending)
    }

    predicate Valid() {
      bucket.limit == cfg.limit && nonces.ttl == cfg.ttl
    }

    constructor (cfg: Config)
      ensures Valid() && this.cfg == cfg && fresh(bucket) && fresh(nonces)
      ensures Content() == State(map[], map[], [])
    {
      this.cfg := cfg;
      bucket := new RateBucket(cfg.limit);
      nonces := new NonceRegistry(cfg.ttl);
      pending := [];
    }

    /** `_adjudicate` up to `await request.body()`. */
    method BeginAttempt(source: Id, now: int) returns (verdict: Verdict)
      requires Valid()
      modifies this, bucket
      ensures (Content(), verdict) == Step(cfg, old(Content()), Begin(source, now))
    {
      if source !in cfg.secrets {
        return UnknownSource;
      }
      var allowed := bucket.Allow(source, now);
      if !allowed {
        return RateLimited;
      }
      pending := pending + [Ticket(source, now)];
      verdict := Pending;
    }

    /** `_adjudicate` after the body of waiting attempt `i` has arrived. */
    method FinishAttempt(i: nat, b: Body) returns (verdict: Verdict)
      requires Valid() && i < |pending|
      modifies this, nonces
      ensures (Content(), verdict) == Step(cfg, old(Content()), Finish(i, b))
    {
      var t := pending[i];
      pending := Without(pending, i);
      var refused := Screening(cfg, t.now, b);
      if refused.Some? {
        return refused.value;
      }
      var isFresh := nonces.CheckFresh(t.source, b.payload.nonce.value, t.now);
      if !isFresh {
        return ReplayedNonce;
      }
      verdict := if TitleOk(b) then Accepted else InvalidPayload;
    }
  }
}
