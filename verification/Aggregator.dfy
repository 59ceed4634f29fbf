/** The result aggregator: rank, de-duplicate, and compare the claims on each key. */
module Aggregation {
  import opened Ordering

  datatype Claim = Claim(
    claimId: Id, taskId: Id, role: string, key: Id, content: string, evidence: seq<string>, confidence: real)
  {
    predicate Valid() {
      0.0 <= confidence <= 1.0
    }
  }

  datatype Resolution = SUPERSEDED | COEXIST | CONFLICT

  datatype Conflict = Conflict(key: Id, resolution: Resolution, winner: Option<Claim>, losers: seq<Claim>)

  datatype AggregationReport = AggregationReport(topClaims: seq<Claim>, conflicts: seq<Conflict>, confidence: real)

  const EVIDENCE_DOMINANCE_THRESHOLD: int := 1
  const CONFLICT_PENALTY: real := 0.25

  // ------------------------------------------------------- ranking

  /** The order of the sort key (-len(evidence), -confidence, claim_id). */
  predicate RankLe(a: Claim, b: Claim) {
    || |a.evidence| > |b.evidence|
    || (|a.evidence| == |b.evidence|
        && (a.confidence > b.confidence || (a.confidence == b.confidence && StrLe(a.claimId, b.claimId))))
  }

  lemma RankLeIsTotalPreorder()
    ensures TotalPreorder(RankLe)
  {
    forall x: Claim, y: Claim
      ensures RankLe(x, y) || RankLe(y, x)
    {
      StrLeTotal(x.claimId, y.claimId);
    }
    forall x: Claim, y: Claim, z: Claim | RankLe(x, y) && RankLe(y, z)
      ensures RankLe(x, z)
    {
      if StrLe(x.claimId, y.claimId) && StrLe(y.claimId, z.claimId) {
        StrLeTransitive(x.claimId, y.claimId, z.claimId);
      }
    }
  }

  function RankClaims(claims: seq<Claim>): seq<Claim> {
    SortBy(RankLe, claims)
  }

  // ------------------------------------------------------- de-duplication

  predicate HasContent(claims: seq<Claim>, content: string) {
    exists i :: 0 <= i < |claims| && claims[i].content == content
  }

  /** Of a list, the first claim with each content. */
  function FirstPerContent(claims: seq<Claim>): seq<Claim> {
    if claims == [] then []
    else
      var init, last := claims[..|claims| - 1], claims[|claims| - 1];
      if HasContent(init, last.content) then FirstPerContent(init) else FirstPerContent(init) + [last]
  }

  /** `_dedupe_by_content`. */
  function Dedupe(group: seq<Claim>): seq<Claim> {
    FirstPerContent(RankClaims(group))
  }

  method DedupeByContent(group: seq<Claim>) returns (distinct: seq<Claim>)
    ensures distinct == Dedupe(group)
  {
    var ranked := RankClaims(group);
    var seen: set<string> := {};
    distinct := [];
    for i := 0 to |ranked|
      invariant distinct == FirstPerContent(ranked[..i])
      invariant forall c :: c in seen <==> HasContent(ranked[..i], c)
    {
      var claim := ranked[i];
      assert ranked[..i + 1][..i] == ranked[..i] && ranked[..i + 1][i] == claim;
      HasContentNext(ranked, i);
      if claim.content in seen {
        continue;
      }
      seen := seen + {claim.content};
      distinct := distinct + [claim];
    }
    assert ranked[..|ranked|] == ranked;
  }

  lemma HasContentNext(claims: seq<Claim>, i: nat)
    requires i < |claims|
    ensures forall c :: HasContent(claims[..i + 1], c) <==> HasContent(claims[..i], c) || c == claims[i].content
  {
    forall c
      ensures HasContent(claims[..i + 1], c) <==> HasContent(claims[..i], c) || c == claims[i].content
    {
      if HasContent(claims[..i], c) {
        var j :| 0 <= j < i && claims[..i][j].content == c;
        assert claims[..i + 1][j].content == c;
      }
      assert claims[..i + 1][i] == claims[i];
      if HasContent(claims[..i + 1], c) && c != claims[i].content {
        var j :| 0 <= j < i + 1 && claims[..i + 1][j].content == c;
        assert claims[..i][j].content == c;
      }
    }
  }

  // ------------------------------------------------------- one key

  /** The evidence lead of the winner over the strongest loser. */
  function Gap(winner: Claim, losers: seq<Claim>): int
    requires losers != []
  {
    var here := |winner.evidence| - |losers[|losers| - 1].evidence|;
    if |losers| == 1 then here
    else
      var before := Gap(winner, losers[..|losers| - 1]);
      if here < before then here else before
  }

  datatype KeyOutcome = KeyOutcome(top: Claim, conflict: Option<Conflict>)

  /** What the loop body adds for one key, from its de-duplicated claims. */
  function Judge(key: Id, distinct: seq<Claim>): KeyOutcome
    requires distinct != []
  {
    if |distinct| == 1 then
      KeyOutcome(distinct[0], None)
    else
      var ranked := RankClaims(distinct);
      SameMultisetSameElements(ranked, distinct);
      var winner, losers := ranked[0], ranked[1..];
      if Gap(winner, losers) >= EVIDENCE_DOMINANCE_THRESHOLD then
        KeyOutcome(winner, Some(Conflict(key, SUPERSEDED, Some(winner), losers)))
      else
        KeyOutcome(winner, Some(Conflict(key, CONFLICT, None, ranked)))
  }

  // ------------------------------------------------------- the whole report

  function Keys(claims: seq<Claim>): set<Id> {
    set c | c in claims :: c.key
  }

  function Group(claims: seq<Claim>, key: Id): seq<Claim> {
    Filter((c: Claim) => c.key == key, claims)
  }

  lemma {:induction false} DedupeNonEmpty(group: seq<Claim>)
    requires group != []
    ensures Dedupe(group) != []
  {
    SameMultisetSameElements(RankClaims(group), group);
    FirstPerContentNonEmpty(RankClaims(group));
  }

  lemma {:induction false} FirstPerContentNonEmpty(claims: seq<Claim>)
    requires claims != []
    ensures FirstPerContent(claims) != []
  {
    if |claims| > 1 {
      FirstPerContentNonEmpty(claims[..|claims| - 1]);
    }
  }

  lemma GroupNonEmpty(claims: seq<Claim>, key: Id)
    requires key in Keys(claims)
    ensures Group(claims, key) != [] && Dedupe(Group(claims, key)) != []
  {
    var c :| c in claims && c.key == key;
    assert c in Group(claims, key);
    DedupeNonEmpty(Group(claims, key));
  }

  function OutcomeFor(claims: seq<Claim>, key: Id): KeyOutcome
    requires key in Keys(claims)
  {
    GroupNonEmpty(claims, key);
    Judge(key, Dedupe(Group(claims, key)))
  }

  function Outcomes(claims: seq<Claim>, keys: seq<Id>): seq<KeyOutcome>
    requires forall k :: k in keys ==> k in Keys(claims)
  {
    if keys == [] then []
    else Outcomes(claims, keys[..|keys| - 1]) + [OutcomeFor(claims, keys[|keys| - 1])]
  }

  function Tops(outcomes: seq<KeyOutcome>): seq<Claim> {
    if outcomes == [] then [] else Tops(outcomes[..|outcomes| - 1]) + [outcomes[|outcomes| - 1].top]
  }

  function Conflicts(outcomes: seq<KeyOutcome>): seq<Conflict> {
    if outcomes == [] then []
    else
      var last := outcomes[|outcomes| - 1];
      Conflicts(outcomes[..|outcomes| - 1]) + (if last.conflict.Some? then [last.conflict.value] else [])
  }

  function SumConfidence(claims: seq<Claim>): real {
    if claims == [] then 0.0 else SumConfidence(claims[..|claims| - 1]) + claims[|claims| - 1].confidence
  }

  function Unresolved(conflicts: seq<Conflict>): nat {
    |Filter((c: Conflict) => c.resolution == CONFLICT, conflicts)|
  }

  function Confidence(tops: seq<Claim>, conflicts: seq<Conflict>): real {
    var base := if tops != [] then SumConfidence(tops) / (|tops| as real) else 0.0;
    var degraded := base - CONFLICT_PENALTY * (Unresolved(conflicts) as real);
    if degraded > 0.0 then degraded else 0.0
  }

  /** The report as a function of the claims. */
  function ReportOf(claims: seq<Claim>): AggregationReport {
    var outcomes := Outcomes(claims, SortedIds(Keys(claims)));
    var tops, conflicts := Tops(outcomes), Conflicts(outcomes);
    AggregationReport(tops, conflicts, Confidence(tops, conflicts))
  }

  // ------------------------------------------------------- the aggregation loop

  /** The first loop of `aggregate`: claims by key, in input order. */
  method GroupByKey(claims: seq<Claim>) returns (byKey: map<Id, seq<Claim>>)
    ensures Grouped(claims, byKey)
  {
    byKey := map[];
    for i := 0 to |claims|
      invariant Grouped(claims[..i], byKey)
    {
      var claim := claims[i];
      GroupNext(claims, i, byKey);
      if claim.key !in byKey {
        byKey := byKey[claim.key := []];
      }
      byKey := byKey[claim.key := byKey[claim.key] + [claim]];
    }
    assert claims[..|claims|] == claims;
  }

  ghost predicate Grouped(claims: seq<Claim>, byKey: map<Id, seq<Claim>>) {
    && byKey.Keys == Keys(claims)
    && forall k :: k in byKey ==> byKey[k] == Group(claims, k)
  }

  lemma GroupGrows(claims: seq<Claim>, i: nat, key: Id)
    requires i < |claims|
    ensures Group(claims[..i + 1], key) ==
      if claims[i].key == key then Group(claims[..i], key) + [claims[i]] else Group(claims[..i], key)
  {
    assert claims[..i + 1] == claims[..i] + [claims[i]];
    FilterAppend((c: Claim) => c.key == key, claims[..i], [claims[i]]);
    assert [claims[i]][1..] == [];
  }

  lemma GroupNext(claims: seq<Claim>, i: nat, byKey: map<Id, seq<Claim>>)
    requires i < |claims| && Grouped(claims[..i], byKey)
    ensures var key := claims[i].key;
      Grouped(claims[..i + 1], byKey[key := (if key in byKey then byKey[key] else []) + [claims[i]]])
  {
    var key := claims[i].key;
    var after := byKey[key := (if key in byKey then byKey[key] else []) + [claims[i]]];
    KeysNext(claims, i);
    forall k | k in after
      ensures after[k] == Group(claims[..i + 1], k)
    {
      GroupGrows(claims, i, k);
      if k !in byKey {
        NoGroup(claims[..i], k);
      }
    }
  }

  lemma KeysNext(claims: seq<Claim>, i: nat)
    requires i < |claims|
    ensures Keys(claims[..i + 1]) == Keys(claims[..i]) + {claims[i].key}
  {
    assert claims[..i + 1] == claims[..i] + [claims[i]];
    assert forall c :: c in claims[..i + 1] <==> c in claims[..i] || c == claims[i];
    forall k | k in Keys(claims[..i]) + {claims[i].key}
      ensures k in Keys(claims[..i + 1])
    {
      if k == claims[i].key {
        assert claims[i] in claims[..i + 1];
      } else {
        var c :| c in claims[..i] && c.key == k;
        assert c in claims[..i + 1];
      }
    }
  }

  lemma NoGroup(claims: seq<Claim>, key: Id)
    requires key !in Keys(claims)
    ensures Group(claims, key) == []
  {
    var group := Group(claims, key);
    assert forall c :: c in group ==> c in claims && c.key == key;
    HeadIsMember(group);
  }

  /** `ResultAggregator.aggregate`. */
  method Aggregate(claims: seq<Claim>) returns (report: AggregationReport)
    ensures report == ReportOf(claims)
  {
    var byKey := GroupByKey(claims);
    var keys := SortedIds(byKey.Keys);
    ghost var outcomes: seq<KeyOutcome> := [];
    var topClaims: seq<Claim> := [];
    var conflicts: seq<Conflict> := [];
    for i := 0 to |keys|
      invariant outcomes == Outcomes(claims, keys[..i])
      invariant topClaims == Tops(outcomes) && conflicts == Conflicts(outcomes)
    {
      var key := keys[i];
      GroupNonEmpty(claims, key);
      var distinct := DedupeByContent(byKey[key]);
      var outcome := Judge(key, distinct);
      OutcomesNext(claims, keys, i);
      AppendOutcome(outcomes, outcome);
      outcomes := outcomes + [outcome];
      topClaims := topClaims + [outcome.top];
      if outcome.conflict.Some? {
        conflicts := conflicts + [outcome.conflict.value];
      }
    }
    assert keys[..|keys|] == keys;
    report := AggregationReport(topClaims, conflicts, Confidence(topClaims, conflicts));
  }

  lemma OutcomesNext(claims: seq<Claim>, keys: seq<Id>, i: nat)
    requires i < |keys| && forall k :: k in keys ==> k in Keys(claims)
    ensures forall k :: k in keys[..i] || k in keys[..i + 1] ==> k in keys
    ensures Outcomes(claims, keys[..i + 1]) == Outcomes(claims, keys[..i]) + [OutcomeFor(claims, keys[i])]
  {
    assert keys[..i + 1][..i] == keys[..i];
  }

  lemma AppendOutcome(outcomes: seq<KeyOutcome>, o: KeyOutcome)
    ensures Tops(outcomes + [o]) == Tops(outcomes) + [o.top]
    ensures Conflicts(outcomes + [o]) == Conflicts(outcomes) + if o.conflict.Some? then [o.conflict.value] else []
  {
    assert (outcomes + [o])[..|outcomes|] == outcomes;
  }
}
