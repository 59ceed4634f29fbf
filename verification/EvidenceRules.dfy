/** What aggregation and synthesis decide, stated on the raw claims. */
module EvidenceRules {
  import opened Ordering
  import opened Aggregation
  import opened Synthesis

  ghost predicate DistinctClaimIds(claims: seq<Claim>) {
    forall i, j :: 0 <= i < j < |claims| ==> claims[i].claimId != claims[j].claimId
  }

  predicate Rivals(a: Claim, b: Claim) {
    a.key == b.key && a.content == b.content
  }

  /** `c` is listed and ranks before every claim with its key and content. */
  ghost predicate Best(claims: seq<Claim>, c: Claim) {
    c in claims && forall d :: d in claims && Rivals(c, d) ==> RankLe(c, d)
  }

  /** `c` is listed and ranks before every claim on its key. */
  ghost predicate TopOfKey(claims: seq<Claim>, key: Id, c: Claim) {
    c in claims && c.key == key && forall d :: d in claims && d.key == key ==> RankLe(c, d)
  }

  // ------------------------------------------------------- de-duplication keeps the best

  ghost predicate Covers(le: (Claim, Claim) -> bool, kept: seq<Claim>, all: seq<Claim>) {
    forall c :: c in all ==> CoveredBy(le, kept, c)
  }

  ghost predicate CoveredBy(le: (Claim, Claim) -> bool, kept: seq<Claim>, c: Claim) {
    exists x :: x in kept && x.content == c.content && le(x, c)
  }

  ghost predicate DistinctContents(claims: seq<Claim>) {
    forall i, j :: 0 <= i < j < |claims| ==> claims[i].content != claims[j].content
  }

  lemma {:induction false} FirstPerContentMembers(s: seq<Claim>)
    ensures forall x :: x in FirstPerContent(s) ==> x in s
    ensures DistinctContents(FirstPerContent(s))
  {
    if s != [] {
      var init, last := s[..|s| - 1], s[|s| - 1];
      FirstPerContentMembers(init);
      assert s == init + [last];
      forall x | x in FirstPerContent(init) && !HasContent(init, last.content)
        ensures x.content != last.content
      {
        var i :| 0 <= i < |init| && init[i] == x;
      }
    }
  }

  lemma {:induction false} FirstPerContentAscending(le: (Claim, Claim) -> bool, s: seq<Claim>)
    requires Ascending(le, s)
    ensures Ascending(le, FirstPerContent(s))
  {
    if s != [] {
      var init, last := s[..|s| - 1], s[|s| - 1];
      FirstPerContentAscending(le, init);
      FirstPerContentMembers(init);
      forall x | x in FirstPerContent(init)
        ensures le(x, last)
      {
        var i :| 0 <= i < |init| && init[i] == x;
        assert le(s[i], s[|s| - 1]);
      }
    }
  }

  lemma {:induction false} FirstPerContentCovers(le: (Claim, Claim) -> bool, s: seq<Claim>)
    requires Ascending(le, s) && TotalPreorder(le)
    ensures Covers(le, FirstPerContent(s), s)
  {
    if s != [] {
      var init, last := s[..|s| - 1], s[|s| - 1];
      FirstPerContentCovers(le, init);
      var kept, all := FirstPerContent(init), FirstPerContent(s);
      assert forall x :: x in kept ==> x in all;
      assert CoveredBy(le, all, last) by {
        if HasContent(init, last.content) {
          var i :| 0 <= i < |init| && init[i].content == last.content;
          assert CoveredBy(le, kept, init[i]);
          var x :| x in kept && x.content == init[i].content && le(x, init[i]);
          assert le(s[i], s[|s| - 1]);
          assert x in all && le(x, last);
        } else {
          assert last in all && le(last, last);
        }
      }
      forall c | c in s
        ensures CoveredBy(le, all, c)
      {
        if c in init {
          assert CoveredBy(le, kept, c);
        } else {
          assert c == last;
        }
      }
    }
  }

  lemma DedupeFacts(group: seq<Claim>)
    ensures forall x :: x in Dedupe(group) ==> x in group
    ensures Ascending(RankLe, Dedupe(group)) && DistinctContents(Dedupe(group))
    ensures Covers(RankLe, Dedupe(group), group)
  {
    RankLeIsTotalPreorder();
    SortByAscending(RankLe, group);
    SameMultisetSameElements(RankClaims(group), group);
    FirstPerContentMembers(RankClaims(group));
    FirstPerContentAscending(RankLe, RankClaims(group));
    FirstPerContentCovers(RankLe, RankClaims(group));
  }

  // ------------------------------------------------------- one key

  lemma {:induction false} GapMeaning(winner: Claim, losers: seq<Claim>)
    requires losers != []
    ensures Gap(winner, losers) >= EVIDENCE_DOMINANCE_THRESHOLD <==>
      forall c :: c in losers ==> |c.evidence| < |winner.evidence|
  {
    var init, last := losers[..|losers| - 1], losers[|losers| - 1];
    assert losers == init + [last];
    if init != [] {
      GapMeaning(winner, init);
      assert forall c :: c in losers <==> c in init || c == last;
    } else {
      assert forall c :: c in losers <==> c == last;
    }
  }

  /** Every claim that says something else than `top` has less evidence. */
  predicate Leads(top: Claim, distinct: seq<Claim>) {
    forall c :: c in distinct && c.content != top.content ==> |c.evidence| < |top.evidence|
  }

  /** The judged outcome: the first claim in rank is the top, and there is a conflict exactly when contents
      differ.  It is superseded exactly when the top claim leads, and then names it the winner over all the
      others; otherwise it is unresolved, without a winner and with all claims as losers.  Losers are in rank
      order. */
  lemma JudgeFacts(key: Id, distinct: seq<Claim>)
    requires distinct != [] && DistinctContents(distinct)
    ensures var o := Judge(key, distinct);
      && o.top in distinct
      && (forall c :: c in distinct ==> RankLe(o.top, c))
      && (o.conflict.None? <==> |distinct| == 1)
      && (o.conflict.Some? ==> Describes(o.conflict.value, key, o.top, distinct))
  {
    if |distinct| == 1 {
      RankLeIsTotalPreorder();
      assert distinct == [distinct[0]];
    } else {
      TopRanksFirst(key, distinct);
      ConflictDescribes(key, distinct);
    }
  }

  lemma TopRanksFirst(key: Id, distinct: seq<Claim>)
    requires |distinct| > 1
    ensures Judge(key, distinct).top in distinct
    ensures forall c :: c in distinct ==> RankLe(Judge(key, distinct).top, c)
  {
    var ranked := RankClaims(distinct);
    RankLeIsTotalPreorder();
    SortByAscending(RankLe, distinct);
    SameMultisetSameElements(ranked, distinct);
    HeadRanksFirst(RankLe, ranked);
  }

  /** The part of this that the verdict depends on. */
  lemma JudgeTop(key: Id, distinct: seq<Claim>)
    requires distinct != [] && DistinctContents(distinct)
    ensures var o := Judge(key, distinct);
      && o.top in distinct
      && (forall c :: c in distinct ==> RankLe(o.top, c))
      && (o.conflict.Some? && o.conflict.value.resolution == CONFLICT <==> !Leads(o.top, distinct))
  {
    JudgeFacts(key, distinct);
    if |distinct| == 1 {
      assert forall c :: c in distinct ==> c == distinct[0];
    }
  }

  ghost predicate Describes(c: Conflict, key: Id, top: Claim, distinct: seq<Claim>) {
    && c.key == key && Ascending(RankLe, c.losers)
    && (c.resolution == SUPERSEDED <==> Leads(top, distinct))
    && (c.resolution == CONFLICT <==> !Leads(top, distinct))
    && (c.resolution == SUPERSEDED ==> c.winner == Some(top) && multiset(c.losers) == multiset(distinct) - multiset{top})
    && (c.resolution == CONFLICT ==> c.winner == None && multiset(c.losers) == multiset(distinct))
  }

  lemma RankedAscends(distinct: seq<Claim>)
    ensures Ascending(RankLe, RankClaims(distinct)) && |RankClaims(distinct)| == |distinct|
  {
    RankLeIsTotalPreorder();
    SortByAscending(RankLe, distinct);
    SameMultisetSameElements(RankClaims(distinct), distinct);
  }

  lemma ConflictDescribes(key: Id, distinct: seq<Claim>)
    requires |distinct| > 1 && DistinctContents(distinct)
    ensures var o := Judge(key, distinct); o.conflict.Some? && Describes(o.conflict.value, key, o.top, distinct)
  {
    var ranked := RankClaims(distinct);
    RankedAscends(distinct);
    SplitOffWinner(distinct, ranked);
    GapMeaning(ranked[0], ranked[1..]);
    assert ranked == [ranked[0]] + ranked[1..];
    TailAscends(ranked);
  }

  lemma TailAscends(ranked: seq<Claim>)
    requires ranked != [] && Ascending(RankLe, ranked)
    ensures Ascending(RankLe, ranked[1..])
  {
  }

  lemma HeadRanksFirst(le: (Claim, Claim) -> bool, ranked: seq<Claim>)
    requires ranked != [] && Ascending(le, ranked) && TotalPreorder(le)
    ensures forall c :: c in ranked ==> le(ranked[0], c)
  {
    assert le(ranked[0], ranked[0]);
  }

  lemma SplitOffWinner(distinct: seq<Claim>, ranked: seq<Claim>)
    requires distinct != [] && DistinctContents(distinct) && multiset(ranked) == multiset(distinct)
    ensures |ranked| == |distinct| && ranked[0] in distinct
    ensures forall c :: c in ranked[1..] <==> c in distinct && c.content != ranked[0].content
  {
    SameMultisetSameElements(ranked, distinct);
    assert Distinct(distinct);
    DistinctByMultiset(distinct, ranked);
    var winner, losers := ranked[0], ranked[1..];
    assert ranked == [winner] + losers;
    assert winner in ranked;
    forall c
      ensures c in losers <==> c in distinct && c.content != winner.content
    {
      assert c in losers <==> c in ranked && c != winner;
      if c in distinct {
        var i :| 0 <= i < |distinct| && distinct[i] == c;
        var j :| 0 <= j < |distinct| && distinct[j] == winner;
        assert c.content == winner.content <==> i == j;
      }
    }
  }

  /** The top claim of a key is the rank maximum of all its claims, de-duplicated or not. */
  lemma TopIsRankMaximum(claims: seq<Claim>, key: Id)
    requires key in Keys(claims)
    ensures TopOfKey(claims, key, OutcomeFor(claims, key).top)
  {
    var group := Group(claims, key);
    GroupNonEmpty(claims, key);
    DedupeFacts(group);
    JudgeTop(key, Dedupe(group));
    RankLeIsTotalPreorder();
    var top := OutcomeFor(claims, key).top;
    forall d | d in claims && d.key == key
      ensures RankLe(top, d)
    {
      assert d in group;
      assert CoveredBy(RankLe, Dedupe(group), d);
      var x :| x in Dedupe(group) && x.content == d.content && RankLe(x, d);
    }
  }

  /** Some claim on the key has evidence, and more of it than every claim that says otherwise. */
  ghost predicate Separated(claims: seq<Claim>, key: Id) {
    exists w :: w in claims && w.key == key && Dominates(claims, w)
  }

  ghost predicate Dominates(claims: seq<Claim>, w: Claim) {
    |w.evidence| > 0 &&
    forall c :: c in claims && c.key == w.key && c.content != w.content ==> |c.evidence| < |w.evidence|
  }

  predicate Clear(o: KeyOutcome) {
    o.top.evidence != [] && (o.conflict.Some? ==> o.conflict.value.resolution != CONFLICT)
  }

  /** What leads the de-duplicated claims of its key leads all of them. */
  lemma LeadsAll(claims: seq<Claim>, key: Id, top: Claim)
    requires top in Dedupe(Group(claims, key)) && Leads(top, Dedupe(Group(claims, key)))
    ensures top in claims && top.key == key
    ensures forall c :: c in claims && c.key == key && c.content != top.content ==> |c.evidence| < |top.evidence|
  {
    var group := Group(claims, key);
    DedupeFacts(group);
    assert top in group;
    forall c | c in claims && c.key == key && c.content != top.content
      ensures |c.evidence| < |top.evidence|
    {
      assert c in group;
      assert CoveredBy(RankLe, Dedupe(group), c);
      var x :| x in Dedupe(group) && x.content == c.content && RankLe(x, c);
    }
  }

  lemma ClearMeansSeparated(claims: seq<Claim>, key: Id)
    requires key in Keys(claims) && Clear(OutcomeFor(claims, key))
    ensures Separated(claims, key)
  {
    var group := Group(claims, key);
    GroupNonEmpty(claims, key);
    DedupeFacts(group);
    JudgeTop(key, Dedupe(group));
    var top := OutcomeFor(claims, key).top;
    LeadsAll(claims, key, top);
    assert Dominates(claims, top);
  }

  lemma SeparatedMeansClear(claims: seq<Claim>, key: Id)
    requires key in Keys(claims) && Separated(claims, key)
    ensures Clear(OutcomeFor(claims, key))
  {
    var group := Group(claims, key);
    GroupNonEmpty(claims, key);
    DedupeFacts(group);
    JudgeTop(key, Dedupe(group));
    TopIsRankMaximum(claims, key);
    var top := OutcomeFor(claims, key).top;
    var w :| w in claims && w.key == key && Dominates(claims, w);
    assert RankLe(top, w);
    assert top.content == w.content;
    forall c | c in Dedupe(group) && c.content != top.content
      ensures |c.evidence| < |top.evidence|
    {
      assert c in group;
    }
  }

  // ------------------------------------------------------- all keys

  /** Every top claim has evidence and no conflict is unresolved. */
  predicate AllClear(outcomes: seq<KeyOutcome>) {
    (forall c :: c in Tops(outcomes) ==> c.evidence != [])
    && (forall c :: c in Conflicts(outcomes) ==> c.resolution != CONFLICT)
  }

  lemma AllClearNext(outcomes: seq<KeyOutcome>, o: KeyOutcome)
    ensures AllClear(outcomes + [o]) <==> AllClear(outcomes) && Clear(o)
    ensures |Tops(outcomes + [o])| == |Tops(outcomes)| + 1
  {
    assert (outcomes + [o])[..|outcomes|] == outcomes;
    AppendOutcome(outcomes, o);
    assert o.top in Tops(outcomes + [o]);
    assert o.conflict.Some? ==> o.conflict.value in Conflicts(outcomes + [o]);
    assert forall c :: c in Tops(outcomes) ==> c in Tops(outcomes + [o]);
    assert forall c :: c in Conflicts(outcomes) ==> c in Conflicts(outcomes + [o]);
  }

  lemma {:induction false} OutcomesFacts(claims: seq<Claim>, keys: seq<Id>)
    requires forall k :: k in keys ==> k in Keys(claims)
    ensures |Tops(Outcomes(claims, keys))| == |keys|
    ensures AllClear(Outcomes(claims, keys)) <==> forall k :: k in keys ==> Clear(OutcomeFor(claims, k))
  {
    if keys != [] {
      var init, last := keys[..|keys| - 1], keys[|keys| - 1];
      assert keys == init + [last];
      OutcomesFacts(claims, init);
      AllClearNext(Outcomes(claims, init), OutcomeFor(claims, last));
    }
  }

  lemma ClearIffSeparated(claims: seq<Claim>, key: Id)
    requires key in Keys(claims)
    ensures Clear(OutcomeFor(claims, key)) <==> Separated(claims, key)
  {
    if Clear(OutcomeFor(claims, key)) {
      ClearMeansSeparated(claims, key);
    }
    if Separated(claims, key) {
      SeparatedMeansClear(claims, key);
    }
  }

  lemma SomeClaimSomeKey(claims: seq<Claim>)
    ensures |SortedIds(Keys(claims))| > 0 <==> claims != []
  {
    if claims != [] {
      assert claims[0].key in Keys(claims);
    } else {
      assert Keys(claims) == {};
    }
  }

  lemma UndoubtedIffAllClear(claims: seq<Claim>, keys: seq<Id>)
    requires keys == SortedIds(Keys(claims))
    ensures Undoubted(ReportOf(claims)) <==>
      Tops(Outcomes(claims, keys)) != [] && AllClear(Outcomes(claims, keys))
  {
  }

  /** Nothing in the report is in doubt exactly when some claim was made and every key is clear. */
  lemma UndoubtedIffClear(claims: seq<Claim>)
    ensures Undoubted(ReportOf(claims)) <==>
      claims != [] && forall k :: k in Keys(claims) ==> Clear(OutcomeFor(claims, k))
  {
    var keys := SortedIds(Keys(claims));
    SomeClaimSomeKey(claims);
    OutcomesFacts(claims, keys);
    UndoubtedIffAllClear(claims, keys);
  }

  /** The pipeline trusts a claim set exactly when there is one and every key is separated by evidence. */
  lemma TrustedIffSeparated(claims: seq<Claim>)
    ensures SynthesisOf(ReportOf(claims)).verdict == TRUSTED <==>
      claims != [] && forall k :: k in Keys(claims) ==> Separated(claims, k)
    ensures SynthesisOf(ReportOf(claims)).verdict != REJECTED
  {
    VerdictMeaning(ReportOf(claims));
    UndoubtedIffClear(claims);
    forall k | k in Keys(claims)
      ensures Clear(OutcomeFor(claims, k)) <==> Separated(claims, k)
    {
      ClearIffSeparated(claims, k);
    }
  }

  // ------------------------------------------------------- confidence stays in range

  lemma {:induction false} SumConfidenceRange(claims: seq<Claim>)
    requires forall c :: c in claims ==> c.Valid()
    ensures 0.0 <= SumConfidence(claims) <= |claims| as real
  {
    if claims != [] {
      var init := claims[..|claims| - 1];
      assert forall c :: c in init ==> c in claims;
      SumConfidenceRange(init);
      assert claims[|claims| - 1] in claims;
    }
  }

  lemma {:induction false} TopsAreClaims(claims: seq<Claim>, keys: seq<Id>)
    requires forall k :: k in keys ==> k in Keys(claims)
    ensures forall c :: c in Tops(Outcomes(claims, keys)) ==> c in claims
  {
    if keys != [] {
      var init, last := keys[..|keys| - 1], keys[|keys| - 1];
      TopsAreClaims(claims, init);
      TopIsRankMaximum(claims, last);
      var outcomes := Outcomes(claims, keys);
      assert outcomes[..|outcomes| - 1] == Outcomes(claims, init);
    }
  }

  /** The constructor of the aggregation report accepts every aggregate of valid claims. */
  lemma ConfidenceInRange(claims: seq<Claim>)
    requires forall c :: c in claims ==> c.Valid()
    ensures 0.0 <= ReportOf(claims).confidence <= 1.0
  {
    var keys := SortedIds(Keys(claims));
    var report := ReportOf(claims);
    TopsAreClaims(claims, keys);
    SumConfidenceRange(report.topClaims);
    if report.topClaims != [] {
      MeanAtMostOne(SumConfidence(report.topClaims), |report.topClaims|);
    }
  }

  lemma MeanAtMostOne(sum: real, n: nat)
    requires n > 0 && sum <= n as real
    ensures sum / (n as real) <= 1.0
  {
  }

  // ------------------------------------------------------- the confidence, exactly

  /** The sum of their confidences, from the front. */
  function SumOf(claims: seq<Claim>): real {
    if claims == [] then 0.0 else claims[0].confidence + SumOf(claims[1..])
  }

  lemma {:induction false} SumConfidenceNext(c: Claim, claims: seq<Claim>)
    ensures SumConfidence([c] + claims) == c.confidence + SumConfidence(claims)
  {
    var all := [c] + claims;
    if claims == [] {
      assert all[..0] == [];
    } else {
      SumConfidenceNext(c, claims[..|claims| - 1]);
      assert all[..|all| - 1] == [c] + claims[..|claims| - 1];
    }
  }

  lemma {:induction false} SumConfidenceIs(claims: seq<Claim>)
    ensures SumConfidence(claims) == SumOf(claims)
  {
    if claims != [] {
      SumConfidenceIs(claims[1..]);
      SumConfidenceNext(claims[0], claims[1..]);
      assert claims == [claims[0]] + claims[1..];
    }
  }

  /** Some claim on the key has more evidence than every claim that says otherwise. */
  ghost predicate Settled(claims: seq<Claim>, key: Id) {
    exists w :: w in claims && w.key == key && LeadsKey(claims, w)
  }

  ghost predicate LeadsKey(claims: seq<Claim>, w: Claim) {
    forall c :: c in claims && c.key == w.key && c.content != w.content ==> |c.evidence| < |w.evidence|
  }

  predicate IsUnresolved(o: KeyOutcome) {
    o.conflict.Some? && o.conflict.value.resolution == CONFLICT
  }

  lemma UnresolvedIff(claims: seq<Claim>, key: Id)
    requires key in Keys(claims)
    ensures IsUnresolved(OutcomeFor(claims, key)) <==> !Settled(claims, key)
  {
    var group := Group(claims, key);
    var top := OutcomeFor(claims, key).top;
    GroupNonEmpty(claims, key);
    DedupeFacts(group);
    JudgeTop(key, Dedupe(group));
    if Leads(top, Dedupe(group)) {
      LeadsAll(claims, key, top);
      assert LeadsKey(claims, top);
    }
    if w :| w in claims && w.key == key && LeadsKey(claims, w) {
      TopIsRankMaximum(claims, key);
      assert top.content == w.content;
      assert forall c :: c in Dedupe(group) ==> c in group;
    }
  }

  ghost function UnsettledAmong(claims: seq<Claim>, keys: seq<Id>): set<Id> {
    set k | k in keys && !Settled(claims, k)
  }

  lemma UnsettledNext(claims: seq<Claim>, keys: seq<Id>, key: Id)
    requires key !in keys
    ensures |UnsettledAmong(claims, keys + [key])| ==
      |UnsettledAmong(claims, keys)| + if Settled(claims, key) then 0 else 1
  {
    var before := UnsettledAmong(claims, keys);
    assert UnsettledAmong(claims, keys + [key]) == before + if Settled(claims, key) then {} else {key};
  }

  lemma UnresolvedNext(conflicts: seq<Conflict>, o: KeyOutcome)
    ensures Unresolved(conflicts + if o.conflict.Some? then [o.conflict.value] else []) ==
      Unresolved(conflicts) + if IsUnresolved(o) then 1 else 0
  {
    var isUnresolved := (c: Conflict) => c.resolution == CONFLICT;
    if o.conflict.Some? {
      var last := [o.conflict.value];
      FilterAppend(isUnresolved, conflicts, last);
      assert last[1..] == [];
      assert Filter(isUnresolved, last) == if isUnresolved(last[0]) then last else [];
    } else {
      assert conflicts + [] == conflicts;
    }
  }

  lemma UnresolvedStep(claims: seq<Claim>, init: seq<Id>, last: Id)
    requires (forall k :: k in init ==> k in Keys(claims)) && last in Keys(claims) && last !in init
    requires Unresolved(Conflicts(Outcomes(claims, init))) == |UnsettledAmong(claims, init)|
    ensures forall k :: k in init + [last] ==> k in Keys(claims)
    ensures Unresolved(Conflicts(Outcomes(claims, init + [last]))) == |UnsettledAmong(claims, init + [last])|
  {
    UnresolvedLast(claims, init, last);
    UnresolvedIff(claims, last);
    UnsettledNext(claims, init, last);
  }

  lemma {:induction false} UnresolvedCount(claims: seq<Claim>, keys: seq<Id>)
    requires Distinct(keys) && forall k :: k in keys ==> k in Keys(claims)
    ensures Unresolved(Conflicts(Outcomes(claims, keys))) == |UnsettledAmong(claims, keys)|
  {
    if keys == [] {
      assert UnsettledAmong(claims, keys) == {};
    } else {
      var init, last := keys[..|keys| - 1], keys[|keys| - 1];
      assert keys == init + [last];
      UnresolvedCount(claims, init);
      UnresolvedStep(claims, init, last);
    }
  }

  lemma UnresolvedLast(claims: seq<Claim>, init: seq<Id>, last: Id)
    requires (forall k :: k in init ==> k in Keys(claims)) && last in Keys(claims)
    ensures Unresolved(Conflicts(Outcomes(claims, init + [last]))) ==
      Unresolved(Conflicts(Outcomes(claims, init))) + if IsUnresolved(OutcomeFor(claims, last)) then 1 else 0
  {
    assert (init + [last])[..|init|] == init;
    AppendOutcome(Outcomes(claims, init), OutcomeFor(claims, last));
    UnresolvedNext(Conflicts(Outcomes(claims, init)), OutcomeFor(claims, last));
  }

  /** One top claim for each key, in the order of the keys. */
  ghost predicate TopsOf(claims: seq<Claim>, keys: seq<Id>, tops: seq<Claim>) {
    |tops| == |keys| && forall i :: 0 <= i < |keys| ==> TopOfKey(claims, keys[i], tops[i])
  }

  lemma TopsNext(claims: seq<Claim>, keys: seq<Id>, tops: seq<Claim>, key: Id, top: Claim)
    requires TopsOf(claims, keys, tops) && TopOfKey(claims, key, top)
    ensures TopsOf(claims, keys + [key], tops + [top])
  {
  }

  lemma OutcomesLast(claims: seq<Claim>, init: seq<Id>, last: Id)
    requires (forall k :: k in init ==> k in Keys(claims)) && last in Keys(claims)
    ensures forall k :: k in init + [last] ==> k in Keys(claims)
    ensures Tops(Outcomes(claims, init + [last])) == Tops(Outcomes(claims, init)) + [OutcomeFor(claims, last).top]
  {
    assert (init + [last])[..|init|] == init;
    AppendOutcome(Outcomes(claims, init), OutcomeFor(claims, last));
  }

  lemma TopsStep(claims: seq<Claim>, init: seq<Id>, last: Id)
    requires (forall k :: k in init ==> k in Keys(claims)) && last in Keys(claims)
    requires TopsOf(claims, init, Tops(Outcomes(claims, init)))
    ensures forall k :: k in init + [last] ==> k in Keys(claims)
    ensures TopsOf(claims, init + [last], Tops(Outcomes(claims, init + [last])))
  {
    OutcomesLast(claims, init, last);
    TopIsRankMaximum(claims, last);
    TopsNext(claims, init, Tops(Outcomes(claims, init)), last, OutcomeFor(claims, last).top);
  }

  lemma {:induction false} TopsByKey(claims: seq<Claim>, keys: seq<Id>)
    requires forall k :: k in keys ==> k in Keys(claims)
    ensures TopsOf(claims, keys, Tops(Outcomes(claims, keys)))
  {
    if keys != [] {
      var init, last := keys[..|keys| - 1], keys[|keys| - 1];
      assert keys == init + [last];
      TopsByKey(claims, init);
      TopsStep(claims, init, last);
    }
  }

  lemma ConfidenceValue(report: AggregationReport)
    ensures Confidence(report.topClaims, report.conflicts) ==
      var base := if report.topClaims == [] then 0.0 else SumOf(report.topClaims) / (|report.topClaims| as real);
      var degraded := base - 0.25 * (Unresolved(report.conflicts) as real);
      if degraded > 0.0 then degraded else 0.0
  {
    SumConfidenceIs(report.topClaims);
  }

  lemma DegradedConfidence(claims: seq<Claim>)
    ensures var report := ReportOf(claims); var keys := SortedIds(Keys(claims));
      |report.topClaims| == |keys| && Unresolved(report.conflicts) == |UnsettledAmong(claims, keys)|
  {
    TopsByKey(claims, SortedIds(Keys(claims)));
    UnresolvedCount(claims, SortedIds(Keys(claims)));
  }

  lemma TopsOfReport(claims: seq<Claim>)
    ensures TopsOf(claims, SortedIds(Keys(claims)), ReportOf(claims).topClaims)
  {
    TopsByKey(claims, SortedIds(Keys(claims)));
  }

  /** The confidence of a report: the mean confidence of its top claims, which are one for each key, less a quarter
      for every key that evidence does not settle, and never below zero. */
  lemma ConfidenceIs(claims: seq<Claim>)
    ensures var report := ReportOf(claims); var keys := SortedIds(Keys(claims));
      && TopsOf(claims, keys, report.topClaims)
      && (claims == [] ==> report.confidence == 0.0)
      && (claims != [] ==>
            && |keys| > 0
            && var degraded := SumOf(report.topClaims) / (|keys| as real) - 0.25 * (|UnsettledAmong(claims, keys)| as real);
               report.confidence == if degraded > 0.0 then degraded else 0.0)
  {
    TopsOfReport(claims);
    DegradedConfidence(claims);
    SomeClaimSomeKey(claims);
    ConfidenceValue(ReportOf(claims));
  }

  // ------------------------------------------------------- what ranks first

  /** The top claim of a key has the most evidence; among those with as much, the most confidence; and among those
      with as much of both, the smallest id. */
  lemma TopIsMostEvidenced(claims: seq<Claim>, key: Id, d: Claim)
    requires key in Keys(claims) && d in claims && d.key == key
    ensures var top := OutcomeFor(claims, key).top;
      && top in claims && top.key == key && |d.evidence| <= |top.evidence|
      && (|d.evidence| == |top.evidence| ==> d.confidence <= top.confidence)
      && (|d.evidence| == |top.evidence| && d.confidence == top.confidence ==> StrLe(top.claimId, d.claimId))
  {
    TopIsRankMaximum(claims, key);
  }

  // ------------------------------------------------------- order and repetition do not matter

  lemma SameIdSameClaim(claims: seq<Claim>, x: Claim, y: Claim)
    requires DistinctClaimIds(claims) && x in claims && y in claims
    requires RankLe(x, y) && RankLe(y, x)
    ensures x == y
  {
    StrLeAntisymmetric(x.claimId, y.claimId);
    var i :| 0 <= i < |claims| && claims[i] == x;
    var j :| 0 <= j < |claims| && claims[j] == y;
  }

  lemma KeptIsBest(claims: seq<Claim>, key: Id, x: Claim)
    requires x in Dedupe(Group(claims, key))
    ensures Best(claims, x) && x.key == key
  {
    var group := Group(claims, key);
    DedupeFacts(group);
    var kept := Dedupe(group);
    forall d | d in claims && Rivals(x, d)
      ensures RankLe(x, d)
    {
      assert d in group;
      assert CoveredBy(RankLe, kept, d);
      CoverIsUnique(RankLe, kept, x, d);
    }
  }

  /** Where contents are distinct, what covers a claim is the only one with its content. */
  lemma CoverIsUnique(le: (Claim, Claim) -> bool, kept: seq<Claim>, x: Claim, d: Claim)
    requires DistinctContents(kept) && CoveredBy(le, kept, d) && x in kept && x.content == d.content
    ensures le(x, d)
  {
    var y :| y in kept && y.content == d.content && le(y, d);
    var i :| 0 <= i < |kept| && kept[i] == x;
    var j :| 0 <= j < |kept| && kept[j] == y;
    assert i == j;
  }

  lemma BestIsKept(claims: seq<Claim>, key: Id, x: Claim)
    requires DistinctClaimIds(claims) && Best(claims, x) && x.key == key
    ensures x in Dedupe(Group(claims, key))
  {
    var group := Group(claims, key);
    DedupeFacts(group);
    assert x in group;
    assert CoveredBy(RankLe, Dedupe(group), x);
    var y :| y in Dedupe(group) && y.content == x.content && RankLe(y, x);
    assert y in group && Rivals(x, y);
    SameIdSameClaim(claims, x, y);
  }

  lemma DedupeIsBest(claims: seq<Claim>, key: Id, x: Claim)
    requires DistinctClaimIds(claims)
    ensures x in Dedupe(Group(claims, key)) <==> Best(claims, x) && x.key == key
  {
    if x in Dedupe(Group(claims, key)) {
      KeptIsBest(claims, key, x);
    }
    if Best(claims, x) && x.key == key {
      BestIsKept(claims, key, x);
    }
  }

  lemma SameDedupe(a: seq<Claim>, b: seq<Claim>, key: Id)
    requires DistinctClaimIds(a) && DistinctClaimIds(b)
    requires forall c :: Best(a, c) <==> Best(b, c)
    ensures Dedupe(Group(a, key)) == Dedupe(Group(b, key))
  {
    var left, right := Dedupe(Group(a, key)), Dedupe(Group(b, key));
    DedupeFacts(Group(a, key));
    DedupeFacts(Group(b, key));
    forall x
      ensures x in left <==> x in right
    {
      DedupeIsBest(a, key, x);
      DedupeIsBest(b, key, x);
    }
    forall x, y | x in left && y in left && RankLe(x, y) && RankLe(y, x)
      ensures x == y
    {
      SameIdSameClaim(a, x, y);
    }
    AscendingDetermined(RankLe, left, right);
  }

  lemma BestOnEveryKey(claims: seq<Claim>, key: Id) returns (c: Claim)
    requires key in Keys(claims)
    ensures Best(claims, c) && c.key == key
  {
    TopIsRankMaximum(claims, key);
    c := OutcomeFor(claims, key).top;
  }

  lemma SameKeys(a: seq<Claim>, b: seq<Claim>)
    requires forall c :: Best(a, c) <==> Best(b, c)
    ensures Keys(a) == Keys(b)
  {
    forall k
      ensures k in Keys(a) <==> k in Keys(b)
    {
      if k in Keys(a) {
        var c := BestOnEveryKey(a, k);
        assert Best(b, c);
      }
      if k in Keys(b) {
        var c := BestOnEveryKey(b, k);
        assert Best(a, c);
      }
    }
  }

  lemma {:induction false} SameOutcomes(a: seq<Claim>, b: seq<Claim>, keys: seq<Id>)
    requires DistinctClaimIds(a) && DistinctClaimIds(b)
    requires forall c :: Best(a, c) <==> Best(b, c)
    requires forall k :: k in keys ==> k in Keys(a) && k in Keys(b)
    ensures Outcomes(a, keys) == Outcomes(b, keys)
  {
    if keys != [] {
      SameOutcomes(a, b, keys[..|keys| - 1]);
      SameDedupe(a, b, keys[|keys| - 1]);
    }
  }

  /** The report is decided by the best claim of each key and content. */
  lemma ReportDependsOnBest(a: seq<Claim>, b: seq<Claim>)
    requires DistinctClaimIds(a) && DistinctClaimIds(b)
    requires forall c :: Best(a, c) <==> Best(b, c)
    ensures ReportOf(a) == ReportOf(b)
  {
    SameKeys(a, b);
    SameOutcomes(a, b, SortedIds(Keys(a)));
  }

  /** Any permutation of the claims gives the same report. */
  lemma OrderDoesNotMatter(a: seq<Claim>, b: seq<Claim>)
    requires DistinctClaimIds(a) && multiset(a) == multiset(b)
    ensures ReportOf(a) == ReportOf(b)
  {
    SameMultisetSameElements(a, b);
    DistinctIdsPermute(a, b);
    ReportDependsOnBest(a, b);
  }

  lemma DistinctIdsPermute(a: seq<Claim>, b: seq<Claim>)
    requires DistinctClaimIds(a) && multiset(a) == multiset(b)
    ensures DistinctClaimIds(b)
  {
    SameMultisetSameElements(a, b);
    assert Distinct(a);
    DistinctByMultiset(a, b);
    forall i, j | 0 <= i < j < |b|
      ensures b[i].claimId != b[j].claimId
    {
      assert b[i] in a && b[j] in a;
      var p :| 0 <= p < |a| && a[p] == b[i];
      var q :| 0 <= q < |a| && a[q] == b[j];
    }
  }

  /** Repeating content that is already claimed with a better rank adds nothing, however often. */
  lemma RepetitionDoesNotMatter(a: seq<Claim>, extra: seq<Claim>)
    requires DistinctClaimIds(a + extra)
    requires forall e :: e in extra ==> exists c :: c in a && Rivals(c, e) && RankLe(c, e)
    ensures ReportOf(a + extra) == ReportOf(a)
  {
    var b := a + extra;
    RankLeIsTotalPreorder();
    forall i, j | 0 <= i < j < |a|
      ensures a[i].claimId != a[j].claimId
    {
      assert b[i] == a[i] && b[j] == a[j];
    }
    forall x
      ensures Best(a, x) <==> Best(b, x)
    {
      if Best(a, x) {
        forall d | d in b && Rivals(x, d)
          ensures RankLe(x, d)
        {
          if d !in a {
            assert d in extra;
            var c :| c in a && Rivals(c, d) && RankLe(c, d);
          }
        }
      }
      if Best(b, x) {
        if x in extra {
          var c :| c in a && Rivals(c, x) && RankLe(c, x);
          SameIdSameClaim(b, c, x);
        }
        assert forall d :: d in a ==> d in b;
      }
    }
    ReportDependsOnBest(a, b);
  }

  /** Evidence, not votes: claims with less evidence than a key's top claim never displace it. */
  lemma VotesDoNotWin(a: seq<Claim>, extra: seq<Claim>, key: Id)
    requires DistinctClaimIds(a + extra) && key in Keys(a)
    requires forall e :: e in extra && e.key == key ==> |e.evidence| < |OutcomeFor(a, key).top.evidence|
    ensures key in Keys(a + extra) && OutcomeFor(a + extra, key).top == OutcomeFor(a, key).top
  {
    var b := a + extra;
    var top := OutcomeFor(a, key).top;
    TopIsRankMaximum(a, key);
    assert top in b;
    TopIsRankMaximum(b, key);
    var other := OutcomeFor(b, key).top;
    assert RankLe(other, top);
    forall d | d in b && d.key == key
      ensures RankLe(top, d)
    {
      assert d in a || d in extra;
    }
    SameIdSameClaim(b, top, other);
  }
}
