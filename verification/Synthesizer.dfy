/** The synthesizer: checks over an aggregation report and the verdict they give. */
module Synthesis {
  import opened Ordering
  import opened Aggregation

  datatype SynthesisVerdict = TRUSTED | UNCERTAIN | REJECTED

  datatype CheckVerdict = PASS | FAIL | UNDECIDED

  datatype CheckResult = CheckResult(name: string, verdict: CheckVerdict)

  datatype Finding = Finding(claimKey: Id, content: string, evidence: seq<string>, contested: bool, superseding: bool)

  datatype Uncertainty = Disagreement(key: Id) | NoEvidence(key: Id)

  datatype SynthesisReport = SynthesisReport(
    verdict: SynthesisVerdict, findings: seq<Finding>, uncertainties: seq<Uncertainty>, verification: seq<CheckResult>)

  function KeysWith(conflicts: seq<Conflict>, resolution: Resolution): set<Id> {
    set c | c in conflicts && c.resolution == resolution :: c.key
  }

  function FindingFor(claim: Claim, conflicted: set<Id>, superseded: set<Id>): Finding {
    Finding(claim.key, claim.content, claim.evidence, claim.key in conflicted, claim.key in superseded)
  }

  function DoubtsAbout(claim: Claim, conflicted: set<Id>): seq<Uncertainty> {
    (if claim.key in conflicted then [Disagreement(claim.key)] else [])
    + (if claim.evidence == [] then [NoEvidence(claim.key)] else [])
  }

  function Findings(claims: seq<Claim>, conflicted: set<Id>, superseded: set<Id>): seq<Finding> {
    if claims == [] then []
    else
      Findings(claims[..|claims| - 1], conflicted, superseded)
      + [FindingFor(claims[|claims| - 1], conflicted, superseded)]
  }

  function Doubts(claims: seq<Claim>, conflicted: set<Id>): seq<Uncertainty> {
    if claims == [] then []
    else Doubts(claims[..|claims| - 1], conflicted) + DoubtsAbout(claims[|claims| - 1], conflicted)
  }

  // ------------------------------------------------------- the three checks

  function AggregationPresentCheck(): CheckResult {
    CheckResult("aggregation-present", PASS)
  }

  function EvidenceBackedCheck(unevidenced: seq<Id>, hasClaims: bool): CheckResult {
    CheckResult("evidence-backed", if unevidenced != [] || !hasClaims then UNDECIDED else PASS)
  }

  function ConflictFreeCheck(conflictCount: nat): CheckResult {
    CheckResult("conflict-free", if conflictCount != 0 then UNDECIDED else PASS)
  }

  function UnevidencedKeys(claims: seq<Claim>): seq<Id> {
    if claims == [] then []
    else
      var last := claims[|claims| - 1];
      UnevidencedKeys(claims[..|claims| - 1]) + (if last.evidence == [] then [last.key] else [])
  }

  function Checks(report: AggregationReport): seq<CheckResult> {
    [AggregationPresentCheck(),
     EvidenceBackedCheck(UnevidencedKeys(report.topClaims), report.topClaims != []),
     ConflictFreeCheck(|KeysWith(report.conflicts, CONFLICT)|)]
  }

  function VerdictOf(checks: seq<CheckResult>, uncertainties: seq<Uncertainty>): SynthesisVerdict {
    if exists i :: 0 <= i < |checks| && checks[i].verdict == FAIL then REJECTED
    else if (exists i :: 0 <= i < |checks| && checks[i].verdict == UNDECIDED) || uncertainties != [] then UNCERTAIN
    else TRUSTED
  }

  function SynthesisOf(report: AggregationReport): SynthesisReport {
    var conflicted := KeysWith(report.conflicts, CONFLICT);
    var doubts := Doubts(report.topClaims, conflicted);
    SynthesisReport(
      VerdictOf(Checks(report), doubts),
      Findings(report.topClaims, conflicted, KeysWith(report.conflicts, SUPERSEDED)),
      doubts,
      Checks(report))
  }

  /** `Synthesizer.synthesize`. */
  method Synthesize(report: AggregationReport) returns (r: SynthesisReport)
    ensures r == SynthesisOf(report)
  {
    var conflicted, superseded := KeysWith(report.conflicts, CONFLICT), KeysWith(report.conflicts, SUPERSEDED);
    var findings: seq<Finding> := [];
    var uncertainties: seq<Uncertainty> := [];
    var claims := report.topClaims;
    for i := 0 to |claims|
      invariant findings == Findings(claims[..i], conflicted, superseded)
      invariant uncertainties == Doubts(claims[..i], conflicted)
    {
      var claim := claims[i];
      assert claims[..i + 1][..i] == claims[..i];
      var contested := claim.key in conflicted;
      findings := findings
        + [Finding(claim.key, claim.content, claim.evidence, contested, claim.key in superseded)];
      ghost var before := uncertainties;
      if contested {
        uncertainties := uncertainties + [Disagreement(claim.key)];
      }
      if claim.evidence == [] {
        uncertainties := uncertainties + [NoEvidence(claim.key)];
      }
      assert uncertainties == before + DoubtsAbout(claim, conflicted);
    }
    assert claims[..|claims|] == claims;
    var checks := Checks(report);
    r := SynthesisReport(VerdictOf(checks, uncertainties), findings, uncertainties, checks);
  }

  // ------------------------------------------------------- what the verdict means

  /** Nothing is in doubt: some claims, all evidenced, none under an unresolved conflict. */
  ghost predicate Undoubted(report: AggregationReport) {
    && report.topClaims != []
    && (forall c :: c in report.topClaims ==> c.evidence != [])
    && (forall c :: c in report.conflicts ==> c.resolution != CONFLICT)
  }

  lemma {:induction false} DoubtsEmpty(claims: seq<Claim>, conflicted: set<Id>)
    ensures Doubts(claims, conflicted) == [] <==> forall c :: c in claims ==> c.evidence != [] && c.key !in conflicted
    ensures UnevidencedKeys(claims) == [] <==> forall c :: c in claims ==> c.evidence != []
  {
    if claims != [] {
      var init, last := claims[..|claims| - 1], claims[|claims| - 1];
      assert claims == init + [last];
      DoubtsEmpty(init, conflicted);
      assert forall c :: c in claims <==> c in init || c == last;
    }
  }

  lemma NoKeysWith(conflicts: seq<Conflict>, resolution: Resolution)
    ensures |KeysWith(conflicts, resolution)| == 0 <==> forall c :: c in conflicts ==> c.resolution != resolution
  {
    if |KeysWith(conflicts, resolution)| == 0 {
      forall c | c in conflicts
        ensures c.resolution != resolution
      {
        assert c.key !in KeysWith(conflicts, resolution);
      }
    }
  }

  /** The verdict on any report: trusted exactly when nothing is in doubt, never rejected, and a
      trusted report carries no uncertainty, so the constructor's check cannot fail. */
  lemma VerdictMeaning(report: AggregationReport)
    ensures SynthesisOf(report).verdict == TRUSTED <==> Undoubted(report)
    ensures SynthesisOf(report).verdict != REJECTED
    ensures SynthesisOf(report).verdict == TRUSTED ==> SynthesisOf(report).uncertainties == []
  {
    var conflicted := KeysWith(report.conflicts, CONFLICT);
    DoubtsEmpty(report.topClaims, conflicted);
    NoKeysWith(report.conflicts, CONFLICT);
    var checks := Checks(report);
    assert checks[0].verdict == PASS;
    assert checks[1].verdict == PASS <==> UnevidencedKeys(report.topClaims) == [] && report.topClaims != [];
    assert checks[2].verdict == PASS <==> |conflicted| == 0;
  }

  // ------------------------------------------------------- what a synthesis says of each claim

  /** The report holds a conflict of this kind on the key. */
  ghost predicate HasConflict(report: AggregationReport, key: Id, resolution: Resolution) {
    exists c :: c in report.conflicts && c.key == key && c.resolution == resolution
  }

  lemma {:induction false} FindingsAt(claims: seq<Claim>, conflicted: set<Id>, superseded: set<Id>)
    ensures |Findings(claims, conflicted, superseded)| == |claims|
    ensures forall i :: 0 <= i < |claims| ==>
      Findings(claims, conflicted, superseded)[i] == FindingFor(claims[i], conflicted, superseded)
  {
    if claims != [] {
      FindingsAt(claims[..|claims| - 1], conflicted, superseded);
    }
  }

  /** One finding for each top claim, in order, that repeats it; it is contested exactly under an unresolved
      conflict on its key, and superseding exactly under a resolved one. */
  lemma FindingsTell(report: AggregationReport, i: nat)
    requires i < |report.topClaims|
    ensures |SynthesisOf(report).findings| == |report.topClaims|
    ensures var f, c := SynthesisOf(report).findings[i], report.topClaims[i];
      && f.claimKey == c.key && f.content == c.content && f.evidence == c.evidence
      && (f.contested <==> HasConflict(report, c.key, CONFLICT))
      && (f.superseding <==> HasConflict(report, c.key, SUPERSEDED))
  {
    FindingsAt(report.topClaims, KeysWith(report.conflicts, CONFLICT), KeysWith(report.conflicts, SUPERSEDED));
  }

  lemma {:induction false} DoubtsTellFrom(claims: seq<Claim>, conflicted: set<Id>, key: Id)
    ensures Disagreement(key) in Doubts(claims, conflicted) <==> key in conflicted && exists c :: c in claims && c.key == key
    ensures NoEvidence(key) in Doubts(claims, conflicted) <==> exists c :: c in claims && c.key == key && c.evidence == []
  {
    if claims != [] {
      var init, last := claims[..|claims| - 1], claims[|claims| - 1];
      DoubtsTellFrom(init, conflicted, key);
      assert claims == init + [last];
      assert forall c :: c in claims <==> c in init || c == last;
      DoubtsLast(claims, conflicted, Disagreement(key));
      DoubtsLast(claims, conflicted, NoEvidence(key));
    }
  }

  lemma DoubtsLast(claims: seq<Claim>, conflicted: set<Id>, u: Uncertainty)
    requires claims != []
    ensures var last := claims[|claims| - 1];
      u in Doubts(claims, conflicted) <==>
        || u in Doubts(claims[..|claims| - 1], conflicted)
        || (u == Disagreement(last.key) && last.key in conflicted)
        || (u == NoEvidence(last.key) && last.evidence == [])
  {
  }

  /** What is left uncertain: a disagreement for every top claim under an unresolved conflict, and missing evidence
      for every top claim without any. */
  lemma DoubtsTell(report: AggregationReport, key: Id)
    ensures Disagreement(key) in SynthesisOf(report).uncertainties <==>
      HasConflict(report, key, CONFLICT) && exists c :: c in report.topClaims && c.key == key
    ensures NoEvidence(key) in SynthesisOf(report).uncertainties <==>
      exists c :: c in report.topClaims && c.key == key && c.evidence == []
  {
    DoubtsTellFrom(report.topClaims, KeysWith(report.conflicts, CONFLICT), key);
  }

  /** The three checks by name, and when each of them passes; none ever fails. */
  lemma ChecksTell(report: AggregationReport)
    ensures var checks := SynthesisOf(report).verification;
      && |checks| == 3
      && checks[0] == CheckResult("aggregation-present", PASS)
      && checks[1] == CheckResult("evidence-backed",
           if report.topClaims != [] && forall c :: c in report.topClaims ==> c.evidence != [] then PASS else UNDECIDED)
      && checks[2] == CheckResult("conflict-free",
           if forall c :: c in report.conflicts ==> c.resolution != CONFLICT then PASS else UNDECIDED)
  {
    DoubtsEmpty(report.topClaims, {});
    NoKeysWith(report.conflicts, CONFLICT);
  }
}
