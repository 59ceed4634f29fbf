/** What repeated reflection passes achieve. */
module ReflectionRules {
  import opened Ordering
  import opened Text
  import opened MemoryStorage
  import opened Reflection

  function Fingerprints(insights: seq<Insight>): set<string> {
    set i | i in insights :: FingerprintOf(i)
  }

  lemma {:induction false} FilterAll<T(!new)>(keep: T -> bool, s: seq<T>)
    requires forall x :: x in s ==> keep(x)
    ensures Filter(keep, s) == s
  {
    if s != [] {
      FilterAll(keep, s[1..]);
    }
  }

  lemma {:induction false} FilterNone<T(!new)>(keep: T -> bool, s: seq<T>)
    requires forall x :: x in s ==> !keep(x)
    ensures Filter(keep, s) == []
  {
    if s != [] {
      FilterNone(keep, s[1..]);
    }
  }

  // ------------------------------------------------------- one pass under the default gate

  /** A pass through the default promotion gate. */
  datatype Pass = Pass(before: Table, after: Table, correlationId: string)

  ghost predicate IsPass(log: seq<Outcome>, render: Renderer, p: Pass) {
    Wrote(p.before, p.after, Proposals(log, p.before), render, p.correlationId, PROMOTION_MIN_CONFIDENCE)
  }

  lemma WrittenMatches(item: Item, id: nat, i: Insight, render: Renderer, correlationId: string)
    requires WrittenAs(item, id, DraftOf(i, render, correlationId), PROMOTION_MIN_CONFIDENCE)
    ensures Matches(REFLECTION_QUERY, item) && item.status == ACTIVE && item.content == Strip(Content(i, render))
  {
    assert 0.5 <= Confidence(i.stats) <= 0.9;
  }

  /** The rows of the scope grow by exactly what was written, all of it promoted and findable. */
  lemma ScopeGrows(before: Table, after: Table, written: seq<Insight>, render: Renderer, correlationId: string)
    requires Wrote(before, after, written, render, correlationId, PROMOTION_MIN_CONFIDENCE)
    ensures var added := after[|before|..];
      && Scoped(after) == Scoped(before) + added && |added| == |written|
      && forall j :: 0 <= j < |added| ==> added[j].status == ACTIVE && added[j].content == Strip(Content(written[j], render))
  {
    var added := after[|before|..];
    forall j | 0 <= j < |added|
      ensures Matches(REFLECTION_QUERY, added[j]) && added[j].status == ACTIVE
      ensures added[j].content == Strip(Content(written[j], render))
    {
      WrittenMatches(added[j], |before| + j, written[j], render, correlationId);
    }
    ScopedAppend(before, after);
  }

  lemma ScopedAppend(before: Table, after: Table)
    requires |before| <= |after| && after[..|before|] == before
    requires forall item :: item in after[|before|..] ==> Matches(REFLECTION_QUERY, item)
    ensures Scoped(after) == Scoped(before) + after[|before|..]
  {
    assert after == before + after[|before|..];
    FilterAppend(Matching(REFLECTION_QUERY), before, after[|before|..]);
    FilterAll(Matching(REFLECTION_QUERY), after[|before|..]);
  }

  lemma AddedIsKnown(written: seq<Insight>, added: seq<Item>, render: Renderer)
    requires |added| == |written|
    requires forall i :: i in written ==> KnownKind(i.kind) && IsWord(i.subject)
    requires forall j :: 0 <= j < |added| ==> added[j].content == Strip(Content(written[j], render))
    ensures Known(added) == Fingerprints(written)
  {
    forall j | 0 <= j < |added|
      ensures FingerprintOfContent(added[j].content) == Some(FingerprintOf(written[j]))
    {
      assert written[j] in written;
      RoundTripIff(written[j], render);
    }
    forall f | f in Fingerprints(written)
      ensures f in Known(added)
    {
      var j :| 0 <= j < |written| && FingerprintOf(written[j]) == f;
      assert added[j] in added;
    }
    forall f | f in Known(added)
      ensures f in Fingerprints(written)
    {
      var j :| 0 <= j < |added| && FingerprintOfContent(added[j].content) == Some(f);
      assert written[j] in written;
    }
  }

  lemma KnownAppend(a: seq<Item>, b: seq<Item>)
    ensures Known(a + b) == Known(a) + Known(b)
  {
  }

  lemma KnownBySearch(rows: Table)
    requires |Scoped(rows)| <= SEARCH_LIMIT
    ensures Known(Search(rows, REFLECTION_QUERY)) == Known(Scoped(rows))
  {
    SearchFacts(rows, REFLECTION_QUERY);
  }

  // ------------------------------------------------------- what is left after some passes

  function Low(n: nat, bound: nat): nat {
    if n <= bound then n else bound
  }

  lemma FingerprintsUpTo(all: seq<Insight>, c: nat, f: string)
    requires c <= |all|
    ensures f in Fingerprints(all[..c]) <==> exists j :: 0 <= j < c && FingerprintOf(all[j]) == f
  {
  }

  lemma {:induction false} UnknownWellNamed(insights: seq<Insight>, known: set<string>)
    requires WellNamed(insights)
    ensures WellNamed(Unknown(insights, known))
  {
    if insights != [] {
      var rest := insights[1..];
      assert forall j :: 0 <= j < |rest| ==> rest[j] == insights[j + 1];
      UnknownWellNamed(rest, known);
      var left := Unknown(rest, known);
      forall k | 0 <= k < |left|
        ensures FingerprintOf(left[k]) != FingerprintOf(insights[0])
      {
        assert left[k] in rest;
        var m :| 0 <= m < |rest| && rest[m] == left[k];
      }
    }
  }

  /** Of insights that are all unknown, those after the first `c` stay so once those become known. */
  lemma UnknownPart(all: seq<Insight>, known: set<string>, c: nat)
    requires WellNamed(all) && c <= |all| && forall i :: i in all ==> FingerprintOf(i) !in known
    ensures Unknown(all, known + Fingerprints(all[..c])) == all[c..]
  {
    var keep := IsUnknown(known + Fingerprints(all[..c]));
    forall i | i in all[c..]
      ensures keep(i)
    {
      var m :| c <= m < |all| && all[m] == i;
      FingerprintsUpTo(all, c, FingerprintOf(i));
      assert i in all;
    }
    assert all == all[..c] + all[c..];
    FilterAppend(keep, all[..c], all[c..]);
    FilterNone(keep, all[..c]);
    FilterAll(keep, all[c..]);
  }

  /** Once the first `c` unknown insights have become known, the others are left, in the same order. */
  lemma UnknownLeft(insights: seq<Insight>, known: set<string>, c: nat)
    requires WellNamed(insights) && c <= |Unknown(insights, known)|
    ensures var all := Unknown(insights, known);
      Unknown(insights, known + Fingerprints(all[..c])) == all[c..]
  {
    var all := Unknown(insights, known);
    UnknownWellNamed(insights, known);
    FilterFilter(IsUnknown(known), IsUnknown(known + Fingerprints(all[..c])), insights);
    UnknownPart(all, known, c);
  }

  /** Passes over unchanged statistics; between two passes the rest of the table may change freely. */
  ghost predicate Passes(log: seq<Outcome>, render: Renderer, ps: seq<Pass>) {
    && (forall j :: 0 <= j < |ps| ==> IsPass(log, render, ps[j]))
    && (forall j :: 0 < j < |ps| ==> Scoped(ps[j].before) == Scoped(ps[j - 1].after))
  }

  /** Of the insights `all`, unknown at the start, the first `10 * k` are known now. */
  ghost predicate Caught(all: seq<Insight>, start: seq<Item>, now: seq<Item>, k: nat) {
    var c := Low(BATCH * k, |all|);
    |now| == |start| + c && Known(now) == Known(start) + Fingerprints(all[..c])
  }

  function BatchOf(all: seq<Insight>, k: nat): seq<Insight> {
    all[Low(BATCH * k, |all|)..Low(BATCH * (k + 1), |all|)]
  }

  function UnknownAt(log: seq<Outcome>, start: seq<Item>): seq<Insight> {
    Unknown(Insights(log), Known(start))
  }

  lemma TakeBatch(all: seq<Insight>, k: nat)
    ensures Take(all[Low(BATCH * k, |all|)..], BATCH) == BatchOf(all, k)
  {
  }

  lemma PassProposes(log: seq<Outcome>, start: seq<Item>, rows: Table, k: nat)
    requires Caught(UnknownAt(log, start), start, Scoped(rows), k)
    requires |start| + |UnknownAt(log, start)| <= SEARCH_LIMIT
    ensures Proposals(log, rows) == BatchOf(UnknownAt(log, start), k)
  {
    var all := UnknownAt(log, start);
    KnownBySearch(rows);
    InsightsAreWellNamed(log);
    UnknownLeft(Insights(log), Known(start), Low(BATCH * k, |all|));
    TakeBatch(all, k);
  }

  lemma BatchIsKnown(log: seq<Outcome>, render: Renderer, p: Pass)
    requires IsPass(log, render, p)
    requires forall i :: i in Proposals(log, p.before) ==> KnownKind(i.kind) && IsWord(i.subject)
    ensures |Scoped(p.after)| == |Scoped(p.before)| + |Proposals(log, p.before)|
    ensures Known(Scoped(p.after)) == Known(Scoped(p.before)) + Fingerprints(Proposals(log, p.before))
  {
    var added := p.after[|p.before|..];
    ScopeGrows(p.before, p.after, Proposals(log, p.before), render, p.correlationId);
    AddedIsKnown(Proposals(log, p.before), added, render);
    KnownAppend(Scoped(p.before), added);
  }

  lemma BatchSplit(all: seq<Insight>, k: nat)
    ensures var c, d := Low(BATCH * k, |all|), Low(BATCH * (k + 1), |all|);
      |BatchOf(all, k)| == d - c && all[..c] + BatchOf(all, k) == all[..d]
  {
  }

  lemma CaughtNext(all: seq<Insight>, start: seq<Item>, now: seq<Item>, next: seq<Item>, k: nat)
    requires Caught(all, start, now, k)
    requires |next| == |now| + |BatchOf(all, k)| && Known(next) == Known(now) + Fingerprints(BatchOf(all, k))
    ensures Caught(all, start, next, k + 1)
  {
    BatchSplit(all, k);
    FingerprintsAppend(all[..Low(BATCH * k, |all|)], BatchOf(all, k));
  }

  /** Every insight that is unknown at the start has a single-word subject, and the search can show it all. */
  ghost predicate Manageable(log: seq<Outcome>, start: seq<Item>) {
    |start| + |UnknownAt(log, start)| <= SEARCH_LIMIT && forall i :: i in UnknownAt(log, start) ==> IsWord(i.subject)
  }

  lemma BatchMembers(log: seq<Outcome>, start: seq<Item>, k: nat)
    ensures forall i :: i in BatchOf(UnknownAt(log, start), k) ==> i in UnknownAt(log, start) && KnownKind(i.kind)
  {
    InsightsAreNotable(log);
  }

  lemma PassCatches(log: seq<Outcome>, render: Renderer, start: seq<Item>, p: Pass, k: nat)
    requires IsPass(log, render, p) && Manageable(log, start)
    requires Caught(UnknownAt(log, start), start, Scoped(p.before), k)
    ensures Caught(UnknownAt(log, start), start, Scoped(p.after), k + 1)
  {
    PassProposes(log, start, p.before, k);
    BatchMembers(log, start, k);
    BatchIsKnown(log, render, p);
    CaughtNext(UnknownAt(log, start), start, Scoped(p.before), Scoped(p.after), k);
  }

  lemma FingerprintsAppend(a: seq<Insight>, b: seq<Insight>)
    ensures Fingerprints(a + b) == Fingerprints(a) + Fingerprints(b)
  {
  }

  lemma {:induction false} Catching(log: seq<Outcome>, render: Renderer, ps: seq<Pass>, k: nat)
    requires k < |ps| && Passes(log, render, ps) && Manageable(log, Scoped(ps[0].before))
    ensures Caught(UnknownAt(log, Scoped(ps[0].before)), Scoped(ps[0].before), Scoped(ps[k].before), k)
  {
    var start := Scoped(ps[0].before);
    if k == 0 {
      assert Fingerprints(UnknownAt(log, start)[..0]) == {};
    } else {
      Catching(log, render, ps, k - 1);
      PassCatches(log, render, start, ps[k - 1], k - 1);
    }
  }

  /** What has been promoted after `d` insights were caught, starting from nothing. */
  ghost predicate Promoted(all: seq<Insight>, scope: seq<Item>, d: nat) {
    d <= |all| && |scope| == d && Known(scope) == Fingerprints(all[..d]) && |Fingerprints(all[..d])| == d
  }

  lemma CaughtFromNothing(all: seq<Insight>, now: seq<Item>, k: nat)
    requires WellNamed(all) && Caught(all, [], now, k)
    ensures Promoted(all, now, Low(BATCH * k, |all|))
  {
    FingerprintCount(all, Low(BATCH * k, |all|));
    assert Known([]) == {};
  }

  lemma AllUnknownAtFirst(log: seq<Outcome>)
    ensures UnknownAt(log, []) == Insights(log)
  {
    assert Known([]) == {};
    FilterAll(IsUnknown({}), Insights(log));
  }

  /** From an empty scope with n <= 500 single-word insights, pass k promotes the k-th batch of ten and
      nothing else: k passes promote exactly min(10 * k, n) distinct insights, and later ones propose nothing. */
  lemma PassesPromoteInBatches(log: seq<Outcome>, render: Renderer, ps: seq<Pass>, k: nat)
    requires k < |ps| && Passes(log, render, ps) && Scoped(ps[0].before) == []
    requires |Insights(log)| <= SEARCH_LIMIT && forall i :: i in Insights(log) ==> IsWord(i.subject)
    ensures Proposals(log, ps[k].before) == BatchOf(Insights(log), k)
    ensures Promoted(Insights(log), Scoped(ps[k].after), Low(BATCH * (k + 1), |Insights(log)|))
    ensures BATCH * k >= |Insights(log)| ==> ps[k].after == ps[k].before
  {
    AllUnknownAtFirst(log);
    Catching(log, render, ps, k);
    PassProposes(log, [], ps[k].before, k);
    PassCatches(log, render, [], ps[k], k);
    InsightsAreWellNamed(log);
    CaughtFromNothing(Insights(log), Scoped(ps[k].after), k + 1);
  }

  lemma FingerprintsNext(all: seq<Insight>, d: nat)
    requires d < |all|
    ensures Fingerprints(all[..d + 1]) == Fingerprints(all[..d]) + {FingerprintOf(all[d])}
  {
    assert all[..d + 1] == all[..d] + [all[d]];
    FingerprintsAppend(all[..d], [all[d]]);
    assert Fingerprints([all[d]]) == {FingerprintOf(all[d])};
  }

  lemma FingerprintIsNew(all: seq<Insight>, d: nat)
    requires d < |all| && WellNamed(all)
    ensures FingerprintOf(all[d]) !in Fingerprints(all[..d])
  {
    FingerprintsUpTo(all, d, FingerprintOf(all[d]));
  }

  lemma FingerprintCountNext(all: seq<Insight>, d: nat)
    requires d < |all| && WellNamed(all)
    ensures |Fingerprints(all[..d + 1])| == |Fingerprints(all[..d])| + 1
  {
    FingerprintIsNew(all, d);
    FingerprintsNext(all, d);
  }

  lemma {:induction false} FingerprintCount(all: seq<Insight>, d: nat)
    requires d <= |all| && WellNamed(all)
    ensures |Fingerprints(all[..d])| == d
  {
    if d > 0 {
      FingerprintCount(all, d - 1);
      FingerprintCountNext(all, d - 1);
    }
  }

  // ------------------------------------------------------- where the promise ends

  /** An insight about a subject with white space is never recognised again, whatever the table holds, so the
      loop never falls silent. */
  lemma SpacedSubjectNeverKnown(log: seq<Outcome>, rows: Table, i: Insight)
    requires i in Insights(log) && !IsWord(i.subject)
    ensures i in Unknown(Insights(log), Known(Search(rows, REFLECTION_QUERY)))
    ensures Proposals(log, rows) != []
  {
    var found := Search(rows, REFLECTION_QUERY);
    InsightsAreNotable(log);
    forall item | item in found
      ensures FingerprintOfContent(item.content) != Some(FingerprintOf(i))
    {
      FingerprintsAreOfWords(item.content);
      if FingerprintOfContent(item.content).Some? {
        var kind, w :| KnownKind(kind) && IsWord(w) && FingerprintOfContent(item.content) == Some(Fingerprint(kind, w));
        FingerprintsDiffer(Insight(w, kind, i.stats), i);
      }
    }
  }

  /** A row that a foreign insight left suppresses a genuine one: it is not proposed while the search shows the
      row. */
  lemma SuppressedByForeign(log: seq<Outcome>, rows: Table, item: Item, i: Insight, j: Insight, render: Renderer)
    requires item in Search(rows, REFLECTION_QUERY) && item.content == Strip(Content(i, render))
    requires KnownKind(i.kind) && KnownKind(j.kind) && !IsBlank(i.subject)
    requires j.kind == i.kind && Words(i.subject) != [] && j.subject == Words(i.subject)[0]
    ensures j !in Proposals(log, rows)
  {
    MakesKnownIff(i, j, render);
    var known := Known(Search(rows, REFLECTION_QUERY));
    assert FingerprintOf(j) in known;
    assert j !in Unknown(Insights(log), known);
  }

  lemma {:induction false} KnownSize(items: seq<Item>)
    ensures |Known(items)| <= |items|
  {
    if items != [] {
      var k := |items| - 1;
      assert items[..k + 1] == items;
      KnownNext(items, k);
      KnownSize(items[..k]);
    }
  }

  lemma SomeUnknown(insights: seq<Insight>, known: set<string>)
    requires WellNamed(insights) && |known| < |insights|
    ensures Unknown(insights, known) != []
  {
    FingerprintCount(insights, |insights|);
    assert insights[..|insights|] == insights;
    SubsetSize(Fingerprints(insights), known);
    var f :| f in Fingerprints(insights) && f !in known;
    var i :| i in insights && FingerprintOf(i) == f;
    assert i in Unknown(insights, known);
  }

  lemma OverTheLimitRepeats(log: seq<Outcome>, rows: Table)
    requires |Insights(log)| > SEARCH_LIMIT
    ensures Proposals(log, rows) != []
  {
    SearchFacts(rows, REFLECTION_QUERY);
    KnownSize(Search(rows, REFLECTION_QUERY));
    InsightsAreWellNamed(log);
    SomeUnknown(Insights(log), Known(Search(rows, REFLECTION_QUERY)));
  }

  /** When every insight has its row in the scope, a further pass is silent exactly when there are at most
      500 of them: beyond that the search cannot show all of them, and one is written again. */
  lemma SilentIffWithinLimit(log: seq<Outcome>, rows: Table)
    requires |Scoped(rows)| == |Insights(log)| && Known(Scoped(rows)) == Fingerprints(Insights(log))
    ensures Proposals(log, rows) == [] <==> |Insights(log)| <= SEARCH_LIMIT
  {
    if |Insights(log)| <= SEARCH_LIMIT {
      KnownBySearch(rows);
      FilterNone(IsUnknown(Known(Search(rows, REFLECTION_QUERY))), Insights(log));
    } else {
      OverTheLimitRepeats(log, rows);
    }
  }

  // ------------------------------------------------------- idempotence

  ghost predicate AllWords(log: seq<Outcome>) {
    forall i :: i in Insights(log) ==> IsWord(i.subject)
  }

  /** Outside these conditions no pass over any table is silent. */
  lemma NeverSilent(log: seq<Outcome>, rows: Table)
    requires !AllWords(log) || |Insights(log)| > SEARCH_LIMIT
    ensures Proposals(log, rows) != []
  {
    if !AllWords(log) {
      var i :| i in Insights(log) && !IsWord(i.subject);
      SpacedSubjectNeverKnown(log, rows, i);
    } else {
      OverTheLimitRepeats(log, rows);
    }
  }

  /** "Unchanged data -> no new proposals", exactly: the pass after the first one, from an empty scope, proposes
      nothing iff there are at most ten insights and all their subjects are single words. */
  lemma IdempotentIff(log: seq<Outcome>, render: Renderer, p: Pass)
    requires IsPass(log, render, p) && Scoped(p.before) == []
    ensures Proposals(log, p.after) == [] <==> |Insights(log)| <= BATCH && AllWords(log)
  {
    if !AllWords(log) || |Insights(log)| > SEARCH_LIMIT {
      NeverSilent(log, p.after);
    } else {
      AllUnknownAtFirst(log);
      Catching(log, render, [p], 0);
      PassCatches(log, render, [], p, 0);
      PassProposes(log, [], p.after, 1);
      BatchSplit(Insights(log), 1);
    }
  }

  /** The loop falls silent, after a pass for every ten insights, iff all subjects are single words and there are
      at most 500 insights; otherwise it proposes something on every pass for ever. */
  lemma FallsSilentIff(log: seq<Outcome>, render: Renderer, ps: seq<Pass>, k: nat)
    requires k < |ps| && Passes(log, render, ps) && Scoped(ps[0].before) == []
    requires BATCH * k >= |Insights(log)|
    ensures Proposals(log, ps[k].before) == [] <==> AllWords(log) && |Insights(log)| <= SEARCH_LIMIT
    ensures !(AllWords(log) && |Insights(log)| <= SEARCH_LIMIT) ==> forall rows :: Proposals(log, rows) != []
  {
    if AllWords(log) && |Insights(log)| <= SEARCH_LIMIT {
      PassesPromoteInBatches(log, render, ps, k);
      BatchSplit(Insights(log), k);
    } else {
      forall rows
        ensures Proposals(log, rows) != []
      {
        NeverSilent(log, rows);
      }
    }
  }
}
