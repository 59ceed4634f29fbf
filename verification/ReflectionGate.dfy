/** What a stricter promotion gate does to the reflection loop. */
module ReflectionGate {
  import opened Ordering
  import opened Text
  import opened MemoryStorage
  import opened Reflection
  import opened ReflectionRules

  /** A pass through a gate with some threshold. */
  ghost predicate GatedPass(log: seq<Outcome>, render: Renderer, p: Pass, minConfidence: real) {
    Wrote(p.before, p.after, Proposals(log, p.before), render, p.correlationId, minConfidence)
  }

  /** A written row is findable exactly when the gate let it pass. */
  lemma WrittenFoundIff(item: Item, id: nat, i: Insight, render: Renderer, correlationId: string, minConfidence: real)
    requires WrittenAs(item, id, DraftOf(i, render, correlationId), minConfidence)
    ensures Matches(REFLECTION_QUERY, item) <==> Confidence(i.stats) >= minConfidence
    ensures item.content == Strip(Content(i, render))
  {
    assert 0.5 <= Confidence(i.stats) <= 0.9;
  }

  lemma WrittenParses(i: Insight, item: Item, render: Renderer)
    requires KnownKind(i.kind) && IsWord(i.subject) && item.content == Strip(Content(i, render))
    ensures FingerprintOfContent(item.content) == Some(FingerprintOf(i))
  {
    RoundTripIff(i, render);
  }

  lemma ScopedSplit(before: Table, after: Table)
    requires |before| <= |after| && after[..|before|] == before
    ensures Scoped(after) == Scoped(before) + Scoped(after[|before|..])
  {
    assert after == before + after[|before|..];
    FilterAppend(Matching(REFLECTION_QUERY), before, after[|before|..]);
  }

  lemma WrittenFacts(
    before: Table, after: Table, written: seq<Insight>, render: Renderer, correlationId: string, minConfidence: real,
    m: nat)
    requires Wrote(before, after, written, render, correlationId, minConfidence) && m < |written|
    requires KnownKind(written[m].kind) && IsWord(written[m].subject)
    ensures var item := after[|before|..][m];
      && (item in Scoped(after[|before|..]) <==> Confidence(written[m].stats) >= minConfidence)
      && FingerprintOfContent(item.content) == Some(FingerprintOf(written[m]))
  {
    var item := after[|before|..][m];
    assert item in after[|before|..];
    WrittenFoundIff(item, |before| + m, written[m], render, correlationId, minConfidence);
    WrittenParses(written[m], item, render);
  }

  lemma SameFingerprintSameIndex(insights: seq<Insight>, j: nat, k: nat)
    requires WellNamed(insights) && j < |insights| && k < |insights|
    requires FingerprintOf(insights[j]) == FingerprintOf(insights[k])
    ensures j == k
  {
  }

  /** Of what one pass wrote, the promoted part is known and nothing else. */
  lemma WrittenKnownIff(
    before: Table, after: Table, written: seq<Insight>, render: Renderer, correlationId: string, minConfidence: real,
    j: nat)
    requires Wrote(before, after, written, render, correlationId, minConfidence) && WellNamed(written)
    requires forall m :: 0 <= m < |written| ==> IsWord(written[m].subject)
    requires j < |written|
    ensures FingerprintOf(written[j]) in Known(Scoped(after[|before|..])) <==> Confidence(written[j].stats) >= minConfidence
  {
    var added := after[|before|..];
    WrittenFacts(before, after, written, render, correlationId, minConfidence, j);
    if FingerprintOf(written[j]) in Known(Scoped(added)) {
      var item :| item in Scoped(added) && FingerprintOfContent(item.content) == Some(FingerprintOf(written[j]));
      var m :| 0 <= m < |added| && added[m] == item;
      WrittenFacts(before, after, written, render, correlationId, minConfidence, m);
      SameFingerprintSameIndex(written, m, j);
    }
  }

  lemma TakeWellNamed(insights: seq<Insight>, n: nat)
    requires WellNamed(insights)
    ensures WellNamed(Take(insights, n))
  {
    var t := Take(insights, n);
    assert forall j :: 0 <= j < |t| ==> t[j] == insights[j] && KnownKind(insights[j].kind);
    forall j, k | 0 <= j < k < |t|
      ensures FingerprintOf(t[j]) != FingerprintOf(t[k])
    {
      assert FingerprintOf(insights[j]) != FingerprintOf(insights[k]);
    }
  }

  lemma TakeFront(a: seq<Insight>, b: seq<Insight>, n: nat, x: Insight)
    requires x in a && |a| <= n
    ensures x in Take(a + b, n)
  {
    var j :| 0 <= j < |a| && a[j] == x;
    assert Take(a + b, n)[j] == x;
  }

  /** What was among the first ten unknown insights and stays unknown is among the first ten again. */
  lemma StaysInFront(insights: seq<Insight>, known: set<string>, known': set<string>, i: Insight)
    requires known <= known' && i in Take(Unknown(insights, known), BATCH) && FingerprintOf(i) !in known'
    ensures i in Take(Unknown(insights, known'), BATCH)
  {
    var all := Unknown(insights, known);
    var front, back := Take(all, BATCH), all[|Take(all, BATCH)|..];
    FilterFilter(IsUnknown(known), IsUnknown(known'), insights);
    assert all == front + back;
    FilterAppend(IsUnknown(known'), front, back);
    TakeFront(Unknown(front, known'), Unknown(back, known'), BATCH, i);
  }

  lemma StillUnknownIff(
    log: seq<Outcome>, render: Renderer, p: Pass, minConfidence: real, i: Insight)
    requires GatedPass(log, render, p, minConfidence) && AllWords(log)
    requires i in Proposals(log, p.before) && |Scoped(p.after)| <= SEARCH_LIMIT
    ensures FingerprintOf(i) in Known(Search(p.after, REFLECTION_QUERY)) <==> Confidence(i.stats) >= minConfidence
    ensures Known(Search(p.before, REFLECTION_QUERY)) <= Known(Search(p.after, REFLECTION_QUERY))
    ensures FingerprintOf(i) !in Known(Search(p.before, REFLECTION_QUERY))
  {
    var written := Proposals(log, p.before);
    var known := Known(Search(p.before, REFLECTION_QUERY));
    ScopedSplit(p.before, p.after);
    KnownAppend(Scoped(p.before), Scoped(p.after[|p.before|..]));
    KnownBySearch(p.before);
    KnownBySearch(p.after);
    InsightsAreWellNamed(log);
    UnknownWellNamed(Insights(log), known);
    TakeWellNamed(Unknown(Insights(log), known), BATCH);
    assert i in Unknown(Insights(log), known);
    var j :| 0 <= j < |written| && written[j] == i;
    forall m | 0 <= m < |written|
      ensures IsWord(written[m].subject)
    {
      assert written[m] in Unknown(Insights(log), known) && written[m] in Insights(log);
    }
    WrittenKnownIff(p.before, p.after, written, render, p.correlationId, minConfidence, j);
  }

  /** "A gate refusal is recorded, never retried": the refused row is not, but its insight is proposed again on the
      next pass, exactly when the gate asks for more confidence than its statistics give. */
  lemma ProposedAgainIff(log: seq<Outcome>, render: Renderer, p: Pass, minConfidence: real, i: Insight)
    requires GatedPass(log, render, p, minConfidence) && AllWords(log)
    requires i in Proposals(log, p.before) && |Scoped(p.after)| <= SEARCH_LIMIT
    ensures i in Proposals(log, p.after) <==> Confidence(i.stats) < minConfidence
  {
    StillUnknownIff(log, render, p, minConfidence, i);
    var known, known' := Known(Search(p.before, REFLECTION_QUERY)), Known(Search(p.after, REFLECTION_QUERY));
    if Confidence(i.stats) < minConfidence {
      StaysInFront(Insights(log), known, known', i);
    } else {
      assert i !in Unknown(Insights(log), known');
    }
  }
}
