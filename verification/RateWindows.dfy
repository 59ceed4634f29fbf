/** Sliding one-minute windows that throw old hits away. */
module RateWindows {
  import opened Ordering

  /** One minute, in microseconds. */
  const WINDOW: int := 60_000_000

  function Recent(hits: seq<int>, at: int): seq<int> {
    Filter((t: int) => at - t < WINDOW, hits)
  }

  /** One decision over a pruned list.  The webhook bucket also stores the pruned list when it
      refuses; the notification counter then leaves its list alone. */
  function PrunedAllow(pruneOnRefusal: bool, hits: seq<int>, at: int, limit: int): (bool, seq<int>) {
    var recent := Recent(hits, at);
    if |recent| >= limit then (false, if pruneOnRefusal then recent else hits) else (true, recent + [at])
  }

  /** `_WindowCounter` of the notification router. */
  class WindowCounter {
    var hits: map<Id, seq<int>>

    function HitsOf(subscriber: Id): seq<int>
      reads this
    {
      if subscriber in hits then hits[subscriber] else []
    }

    constructor ()
      ensures hits == map[]
    {
      hits := map[];
    }

    method Allow(subscriber: Id, at: int, limit: int) returns (allowed: bool)
      modifies this
      ensures var (ok, kept) := PrunedAllow(false, old(HitsOf(subscriber)), at, limit);
        allowed == ok && hits == if ok then old(hits)[subscriber := kept] else old(hits)
    {
      var recent := Recent(HitsOf(subscriber), at);
      if |recent| >= limit {
        return false;
      }
      hits := hits[subscriber := recent + [at]];
      allowed := true;
    }
  }

  /** `_RateBucket` of the webhook surface. */
  class RateBucket {
    const limit: int
    var hits: map<Id, seq<int>>

    function HitsOf(source: Id): seq<int>
      reads this
    {
      if source in hits then hits[source] else []
    }

    constructor (limit: int)
      ensures this.limit == limit && hits == map[]
    {
      this.limit := limit;
      hits := map[];
    }

    method Allow(source: Id, now: int) returns (allowed: bool)
      modifies this`hits
      ensures var (ok, kept) := PrunedAllow(true, old(HitsOf(source)), now, limit);
        allowed == ok && hits == old(hits)[source := kept]
    {
      var recent := Recent(HitsOf(source), now);
      if |recent| >= limit {
        hits := hits[source := recent];
        return false;
      }
      hits := hits[source := recent + [now]];
      allowed := true;
    }
  }

  // ------------------------------------------------------- the full history

  /** What would be admitted if no hit were ever thrown away. */
  function Admitted(times: seq<int>, limit: int): seq<int> {
    if times == [] then []
    else
      var before, at := Admitted(times[..|times| - 1], limit), times[|times| - 1];
      if |Recent(before, at)| < limit then before + [at] else before
  }

  /** The pruned list after the same attempts. */
  function Hits(pruneOnRefusal: bool, times: seq<int>, limit: int): seq<int> {
    if times == [] then []
    else PrunedAllow(pruneOnRefusal, Hits(pruneOnRefusal, times[..|times| - 1], limit), times[|times| - 1], limit).1
  }

  lemma HitsNext(pruneOnRefusal: bool, times: seq<int>, now: int, limit: int)
    ensures Hits(pruneOnRefusal, times + [now], limit) ==
      PrunedAllow(pruneOnRefusal, Hits(pruneOnRefusal, times, limit), now, limit).1
    ensures Admitted(times + [now], limit) ==
      if |Recent(Admitted(times, limit), now)| < limit then Admitted(times, limit) + [now] else Admitted(times, limit)
  {
    assert (times + [now])[..|times|] == times;
  }

  predicate Nondecreasing(times: seq<int>) {
    forall i, j :: 0 <= i < j < |times| ==> times[i] <= times[j]
  }

  lemma RecentOfRecent(hits: seq<int>, at: int, later: int)
    requires at <= later
    ensures Recent(Recent(hits, at), later) == Recent(hits, later)
  {
    FilterFilter((t: int) => at - t < WINDOW, (t: int) => later - t < WINDOW, hits);
  }

  lemma RecentAppend(hits: seq<int>, t: int, at: int)
    ensures Recent(hits + [t], at) == if at - t < WINDOW then Recent(hits, at) + [t] else Recent(hits, at)
  {
    FilterAppend((u: int) => at - u < WINDOW, hits, [t]);
    assert [t][1..] == [];
  }

  lemma {:induction false} PrunedLooksFull(pruneOnRefusal: bool, times: seq<int>, limit: int, now: int)
    requires Nondecreasing(times) && (times != [] ==> times[|times| - 1] <= now)
    ensures Recent(Hits(pruneOnRefusal, times, limit), now) == Recent(Admitted(times, limit), now)
  {
    if times != [] {
      var init, at := times[..|times| - 1], times[|times| - 1];
      PrunedLooksFull(pruneOnRefusal, init, limit, at);
      PrunedLooksFull(pruneOnRefusal, init, limit, now);
      var hits, before := Hits(pruneOnRefusal, init, limit), Admitted(init, limit);
      RecentOfRecent(hits, at, now);
      RecentAppend(Recent(hits, at), at, now);
      RecentAppend(before, at, now);
    }
  }

  /** With times that do not run backwards, either pruned limiter decides as the full history would. */
  lemma PrunedDecidesAsFull(pruneOnRefusal: bool, times: seq<int>, limit: int, now: int)
    requires Nondecreasing(times) && (times != [] ==> times[|times| - 1] <= now)
    ensures PrunedAllow(pruneOnRefusal, Hits(pruneOnRefusal, times, limit), now, limit).0 <==>
      |Recent(Admitted(times, limit), now)| < limit
  {
    PrunedLooksFull(pruneOnRefusal, times, limit, now);
  }

  function InWindow(start: int, hits: seq<int>): seq<int> {
    Filter((t: int) => start <= t < start + WINDOW, hits)
  }

  lemma {:induction false} WindowWithinRecent(start: int, hits: seq<int>, at: int)
    requires start <= at < start + WINDOW
    ensures |InWindow(start, hits)| <= |Recent(hits, at)|
  {
    if hits != [] {
      WindowWithinRecent(start, hits[1..], at);
    }
  }

  /** No window of sixty seconds, wherever it starts, ever holds more admissions than the limit. */
  lemma {:induction false} AtMostLimitPerWindow(times: seq<int>, limit: int, start: int)
    requires limit >= 0
    ensures |InWindow(start, Admitted(times, limit))| <= limit
  {
    if times != [] {
      var init, at := times[..|times| - 1], times[|times| - 1];
      AtMostLimitPerWindow(init, limit, start);
      FilterAppend((t: int) => start <= t < start + WINDOW, Admitted(init, limit), [at]);
      assert [at][1..] == [];
      if start <= at < start + WINDOW {
        WindowWithinRecent(start, Admitted(init, limit), at);
      }
    }
  }
}
