/** The skill ladder: seven stages, deterministic gates, and a registry of skills.

    A rate is a fraction of natural numbers and is compared by cross multiplication.
*/
module Skills {
  import opened Ordering
  import opened Text

  datatype Stage = CANDIDATE | STAGED | EVALUATED | EXPERIMENTAL | TRUSTED | DEGRADED | SUPERSEDED

  /** `LEGAL_SKILL_TRANSITIONS`. */
  function LegalTargets(s: Stage): set<Stage> {
    match s
    case CANDIDATE => {STAGED, SUPERSEDED}
    case STAGED => {EVALUATED, CANDIDATE, SUPERSEDED}
    case EVALUATED => {EXPERIMENTAL, SUPERSEDED}
    case EXPERIMENTAL => {TRUSTED, DEGRADED, SUPERSEDED}
    case TRUSTED => {DEGRADED, SUPERSEDED}
    case DEGRADED => {EVALUATED, SUPERSEDED}
    case SUPERSEDED => {}
  }

  datatype Evaluation = Evaluation(ranAt: int, successes: nat, failures: nat, corrections: nat, retries: nat)

  datatype Skill = Skill(skillId: Id, name: string, stage: Stage, evaluations: seq<Evaluation>, trustedAt: Option<int>)

  datatype SkillError = BlankProvenance | DuplicateName | UnknownSkill | IllegalMove | NotEvidenced

  function Successes(es: seq<Evaluation>): nat {
    if es == [] then 0 else Successes(es[..|es| - 1]) + es[|es| - 1].successes
  }

  function Runs(es: seq<Evaluation>): nat {
    if es == [] then 0 else Runs(es[..|es| - 1]) + es[|es| - 1].successes + es[|es| - 1].failures
  }

  /** `post_trust_evaluations`. */
  function SinceTrust(k: Skill): seq<Evaluation> {
    if k.trustedAt.None? then [] else Filter((e: Evaluation) => e.ranAt >= k.trustedAt.value, k.evaluations)
  }

  /** At least one evaluation, and a success rate of 0.5 or more, which needs a run. */
  predicate Promising(es: seq<Evaluation>) {
    |es| >= 1 && Runs(es) > 0 && 2 * Successes(es) >= Runs(es)
  }

  /** At least 3 evaluations, and a success rate of 0.75 or more. */
  predicate Trustworthy(es: seq<Evaluation>) {
    |es| >= 3 && Runs(es) > 0 && 4 * Successes(es) >= 3 * Runs(es)
  }

  /** At least 2 evaluations, and a success rate of 0.4 or less, which no run at all also is. */
  predicate Regressed(es: seq<Evaluation>) {
    |es| >= 2 && 5 * Successes(es) <= 2 * Runs(es)
  }

  /** `SkillLifecycleGate.check`. */
  function Refusal(k: Skill, target: Stage): Option<SkillError> {
    if target !in LegalTargets(k.stage) then Some(IllegalMove)
    else
      match target
      case EVALUATED => if k.evaluations == [] then Some(NotEvidenced) else None
      case EXPERIMENTAL => if Promising(k.evaluations) then None else Some(NotEvidenced)
      case TRUSTED => if Trustworthy(k.evaluations) then None else Some(NotEvidenced)
      case DEGRADED => if Regressed(SinceTrust(k)) then None else Some(NotEvidenced)
      case _ => None
  }

  /** `advance_stage` on a skill that the gate lets pass. */
  function Moved(k: Skill, target: Stage, now: int): Skill {
    k.(stage := target, trustedAt := if target == TRUSTED then Some(now) else k.trustedAt)
  }

  // ------------------------------------------------------- what the gate asks for

  /** The moves of the ladder: up one stage at a time, back to CANDIDATE or EVALUATED, down to DEGRADED, and out. */
  predicate IsRung(s: Stage, target: Stage) {
    || (target == STAGED && s == CANDIDATE)
    || (target == CANDIDATE && s == STAGED)
    || (target == EVALUATED && (s == STAGED || s == DEGRADED))
    || (target == EXPERIMENTAL && s == EVALUATED)
    || (target == TRUSTED && s == EXPERIMENTAL)
    || (target == DEGRADED && (s == EXPERIMENTAL || s == TRUSTED))
    || (target == SUPERSEDED && s != SUPERSEDED)
  }

  /** Successes and failures, from the front. */
  function Tally(es: seq<Evaluation>): (nat, nat) {
    if es == [] then (0, 0)
    else var (good, bad) := Tally(es[1..]); (es[0].successes + good, es[0].failures + bad)
  }

  /** The share of successful runs, and 0 without a run. */
  function Rate(es: seq<Evaluation>): real {
    var (good, bad) := Tally(es);
    if good + bad == 0 then 0.0 else (good as real) / ((good + bad) as real)
  }

  lemma {:induction false} SumsSplit(a: seq<Evaluation>, b: seq<Evaluation>)
    ensures Successes(a + b) == Successes(a) + Successes(b) && Runs(a + b) == Runs(a) + Runs(b)
  {
    if b == [] {
      assert a + b == a;
    } else {
      var init, last := b[..|b| - 1], b[|b| - 1];
      SumsSplit(a, init);
      SumsNext(a + init, last);
      SumsNext(init, last);
      assert a + b == (a + init) + [last] && b == init + [last];
    }
  }

  lemma {:induction false} TallySums(es: seq<Evaluation>)
    ensures Tally(es).0 == Successes(es) && Tally(es).0 + Tally(es).1 == Runs(es)
  {
    if es != [] {
      TallySums(es[1..]);
      SumsSplit([es[0]], es[1..]);
      assert es == [es[0]] + es[1..] && [es[0]][..0] == [];
    }
  }

  lemma ThresholdsTell(es: seq<Evaluation>)
    ensures Promising(es) <==> |es| >= 1 && Rate(es) >= 0.5
    ensures Trustworthy(es) <==> |es| >= 3 && Rate(es) >= 0.75
    ensures Regressed(es) <==> |es| >= 2 && Rate(es) <= 0.4
  {
    TallySums(es);
    if Runs(es) > 0 {
      QuotientCompares(Successes(es), Runs(es), 1, 2);
      QuotientCompares(Successes(es), Runs(es), 3, 4);
      QuotientCompares(Successes(es), Runs(es), 2, 5);
    }
  }

  /** An evaluation to become EVALUATED, a rate of 0.5 to become EXPERIMENTAL, a rate of 0.75 over at least 3
      evaluations to become TRUSTED, and a rate of at most 0.4 over at least 2 evaluations since the promotion to
      become DEGRADED. */
  predicate Evidenced(k: Skill, target: Stage) {
    && (target == EVALUATED ==> |k.evaluations| >= 1)
    && (target == EXPERIMENTAL ==> |k.evaluations| >= 1 && Rate(k.evaluations) >= 0.5)
    && (target == TRUSTED ==> |k.evaluations| >= 3 && Rate(k.evaluations) >= 0.75)
    && (target == DEGRADED ==> |SinceTrust(k)| >= 2 && Rate(SinceTrust(k)) <= 0.4)
  }

  /** The gate refuses what is no move of the ladder, and otherwise what lacks the evidence. */
  lemma GateTells(k: Skill, target: Stage)
    ensures Refusal(k, target) ==
      if !IsRung(k.stage, target) then Some(IllegalMove)
      else if Evidenced(k, target) then None else Some(NotEvidenced)
  {
    ThresholdsTell(k.evaluations);
    ThresholdsTell(SinceTrust(k));
    assert target in LegalTargets(k.stage) <==> IsRung(k.stage, target);
  }

  // ------------------------------------------------------- the life of one skill

  /** One change of a skill: an evaluation, or a move that the gate allows. */
  ghost predicate Step(k: Skill, k': Skill) {
    || (exists e: Evaluation :: k' == k.(evaluations := k.evaluations + [e]))
    || (exists target: Stage, now: int :: Refusal(k, target).None? && k' == Moved(k, target, now))
  }

  ghost predicate StepAt(h: seq<Skill>, i: nat)
    requires i + 1 < |h|
  {
    Step(h[i], h[i + 1])
  }

  /** The snapshots of one skill, from its registration on. */
  ghost predicate Life(h: seq<Skill>) {
    && h != [] && h[0].stage == CANDIDATE && h[0].evaluations == [] && h[0].trustedAt.None?
    && forall i: nat :: i + 1 < |h| ==> StepAt(h, i)
  }

  /** Snapshot `p` is the first after a move to stage `s` that the gate allowed. */
  ghost predicate EnteredAt(h: seq<Skill>, p: nat, s: Stage) {
    && 0 < p < |h| && h[p].stage == s && Refusal(h[p - 1], s).None?
    && h[p].evaluations == h[p - 1].evaluations
    && (s == TRUSTED ==> h[p].trustedAt.Some?) && (s != TRUSTED ==> h[p].trustedAt == h[p - 1].trustedAt)
  }

  /** The skill entered its stage of snapshot `i` at snapshot `p` and has not left it, nor has its trust date
      changed. */
  ghost predicate StandsSince(h: seq<Skill>, p: nat, i: nat)
    requires i < |h|
  {
    && p <= i && EnteredAt(h, p, h[i].stage)
    && forall j :: p <= j <= i ==> h[j].stage == h[i].stage && h[j].trustedAt == h[i].trustedAt
  }

  /** The skill was STAGED, then EVALUATED, then EXPERIMENTAL before snapshot `p`, each by the gate. */
  ghost predicate ClimbedBefore(h: seq<Skill>, p: nat) {
    exists a: nat, b: nat, c: nat ::
      a < b < c < p && EnteredAt(h, a, STAGED) && EnteredAt(h, b, EVALUATED) && EnteredAt(h, c, EXPERIMENTAL)
  }

  /** Every stage but the first CANDIDATE one was entered through the gate. */
  lemma {:induction false} StandsSomewhere(h: seq<Skill>, i: nat) returns (p: nat)
    requires Life(h) && i < |h| && h[i].stage != CANDIDATE
    ensures StandsSince(h, p, i)
  {
    assert StepAt(h, i - 1);
    if e: Evaluation :| h[i] == h[i - 1].(evaluations := h[i - 1].evaluations + [e]) {
      p := StandsSomewhere(h, i - 1);
    } else {
      p := i;
    }
  }

  /** A skill beyond CANDIDATE that is not retired was once admitted to STAGED. */
  lemma {:induction false} WasStaged(h: seq<Skill>, i: nat) returns (a: nat)
    requires Life(h) && i < |h| && h[i].stage != CANDIDATE && h[i].stage != SUPERSEDED
    ensures a <= i && EnteredAt(h, a, STAGED)
  {
    var p := StandsSomewhere(h, i);
    if h[i].stage == STAGED {
      a := p;
    } else {
      a := WasStaged(h, p - 1);
    }
  }

  lemma PromotionWasClimbed(h: seq<Skill>, p: nat)
    requires Life(h) && EnteredAt(h, p, TRUSTED)
    ensures ClimbedBefore(h, p)
  {
    var c := StandsSomewhere(h, p - 1);
    var b := StandsSomewhere(h, c - 1);
    var a := WasStaged(h, b - 1);
    assert a < b < c < p;
  }

  /** A TRUSTED skill has been STAGED, EVALUATED and EXPERIMENTAL, was promoted on at least 3 evaluations with
      a success rate of at least 0.75, and has stayed TRUSTED under that date since. */
  lemma TrustIsEarned(h: seq<Skill>, i: nat)
    requires Life(h) && i < |h| && h[i].stage == TRUSTED
    ensures exists p: nat :: StandsSince(h, p, i) && ClimbedBefore(h, p) && Trustworthy(h[p].evaluations)
  {
    var p := StandsSomewhere(h, i);
    PromotionWasClimbed(h, p);
    assert StandsSince(h, p, i) && Trustworthy(h[p].evaluations);
  }

  /** A trust date is only ever set by a promotion. */
  lemma {:induction false} DateOfPromotion(h: seq<Skill>, i: nat) returns (p: nat)
    requires Life(h) && i < |h| && h[i].trustedAt.Some?
    ensures p <= i && EnteredAt(h, p, TRUSTED) && h[p].trustedAt == h[i].trustedAt
  {
    assert StepAt(h, i - 1);
    if h[i].trustedAt == h[i - 1].trustedAt {
      p := DateOfPromotion(h, i - 1);
    } else {
      var target, now :| Refusal(h[i - 1], target).None? && h[i] == Moved(h[i - 1], target, now);
      p := i;
    }
  }

  /** The skill was demoted at snapshot `d` for a rate of at most 0.4 over at least 2 evaluations since the
      promotion at snapshot `p`. */
  ghost predicate DemotedAt(h: seq<Skill>, d: nat, p: nat) {
    && p < d && EnteredAt(h, d, DEGRADED) && EnteredAt(h, p, TRUSTED) && ClimbedBefore(h, p)
    && h[p].trustedAt == h[d].trustedAt && Regressed(SinceTrust(h[d]))
  }

  /** A DEGRADED skill earned TRUSTED before and was demoted for what it did since, although the table of moves
      also leads from EXPERIMENTAL to DEGRADED. */
  lemma DegradedWasTrusted(h: seq<Skill>, i: nat)
    requires Life(h) && i < |h| && h[i].stage == DEGRADED
    ensures exists d: nat, p: nat :: StandsSince(h, d, i) && DemotedAt(h, d, p)
  {
    var d := StandsSomewhere(h, i);
    assert SinceTrust(h[d]) == SinceTrust(h[d - 1]);
    var p := DateOfPromotion(h, d);
    PromotionWasClimbed(h, p);
    assert StandsSince(h, d, i) && DemotedAt(h, d, p);
  }

  /** Evaluations are only ever appended. */
  lemma {:induction false} EvaluationsGrow(h: seq<Skill>, i: nat, j: nat)
    requires Life(h) && i <= j < |h|
    ensures h[i].evaluations <= h[j].evaluations
    decreases j
  {
    if i < j {
      EvaluationsGrow(h, i, j - 1);
      assert StepAt(h, j - 1);
    }
  }

  lemma {:induction false} SupersededIsFinal(h: seq<Skill>, i: nat, j: nat)
    requires Life(h) && i <= j < |h| && h[i].stage == SUPERSEDED
    ensures h[j].stage == SUPERSEDED
    decreases j
  {
    if i < j {
      SupersededIsFinal(h, i, j - 1);
      assert StepAt(h, j - 1);
    }
  }

  // ------------------------------------------------------- the way back to trust

  /** Moves from `k` on that end in TRUSTED, without a new evaluation. */
  ghost predicate Reclimbs(k: Skill, h: seq<Skill>) {
    && h != [] && h[0] == k && h[|h| - 1].stage == TRUSTED
    && (forall i: nat :: i + 1 < |h| ==> StepAt(h, i))
    && (forall i :: 0 <= i < |h| ==> h[i].evaluations == k.evaluations)
  }

  lemma {:induction false} ReclimbNeedsThreshold(k: Skill, h: seq<Skill>)
    requires Reclimbs(k, h) && k.stage != TRUSTED
    ensures Trustworthy(k.evaluations)
    decreases |h|
  {
    assert StepAt(h, 0) && h[1].evaluations == k.evaluations;
    if h[1].stage != TRUSTED {
      var rest := h[1..];
      forall i: nat | i + 1 < |rest|
        ensures StepAt(rest, i)
      {
        assert StepAt(h, i + 1);
      }
      ReclimbNeedsThreshold(h[1], rest);
    }
  }

  /** A DEGRADED skill can return to TRUSTED without a single new evaluation exactly when its lifetime record
      still meets the trust threshold: the gates on the way back judge the lifetime, not the regression. */
  lemma ReclimbsUnevaluatedIff(k: Skill)
    requires k.stage == DEGRADED
    ensures (exists h :: Reclimbs(k, h)) <==> Trustworthy(k.evaluations)
  {
    if Trustworthy(k.evaluations) {
      var e := Moved(k, EVALUATED, 0);
      var x := Moved(e, EXPERIMENTAL, 0);
      var t := Moved(x, TRUSTED, 0);
      assert Refusal(k, EVALUATED).None? && Refusal(e, EXPERIMENTAL).None? && Refusal(x, TRUSTED).None?;
      assert Step(k, e) && Step(e, x) && Step(x, t);
      assert Reclimbs(k, [k, e, x, t]);
    }
    if h :| Reclimbs(k, h) {
      ReclimbNeedsThreshold(k, h);
    }
  }

  lemma SumsNext(es: seq<Evaluation>, e: Evaluation)
    ensures Successes(es + [e]) == Successes(es) + e.successes
    ensures Runs(es + [e]) == Runs(es) + e.successes + e.failures
  {
    assert (es + [e])[..|es|] == es;
  }

  lemma LifeNext(h: seq<Skill>, k: Skill)
    requires Life(h) && Step(h[|h| - 1], k)
    ensures Life(h + [k])
  {
    var h' := h + [k];
    forall i: nat | i + 1 < |h'|
      ensures StepAt(h', i)
    {
      assert i + 1 < |h| ==> StepAt(h, i);
    }
  }

  const GOOD := Evaluation(0, 30, 0, 0, 0)
  const BAD := Evaluation(1, 0, 1, 0, 0)

  /** A life from registration to TRUSTED, on three good evaluations. */
  lemma TrustedLife(id: Id, name: string) returns (h: seq<Skill>)
    ensures Life(h)
    ensures h[|h| - 1] == Skill(id, name, TRUSTED, [] + [GOOD] + [GOOD] + [GOOD], Some(1))
  {
    var es := [] + [GOOD] + [GOOD] + [GOOD];
    var s0 := Skill(id, name, CANDIDATE, [], None);
    var s1 := Moved(s0, STAGED, 0);
    var s2 := s1.(evaluations := [] + [GOOD]);
    var s3 := s2.(evaluations := [] + [GOOD] + [GOOD]);
    var s4 := s3.(evaluations := es);
    var s5 := Moved(s4, EVALUATED, 0);
    var s6 := Moved(s5, EXPERIMENTAL, 0);
    var s7 := Moved(s6, TRUSTED, 1);
    SumsNext([], GOOD);
    SumsNext([] + [GOOD], GOOD);
    SumsNext([] + [GOOD] + [GOOD], GOOD);
    assert Refusal(s0, STAGED).None? && Refusal(s4, EVALUATED).None?;
    assert Refusal(s5, EXPERIMENTAL).None? && Refusal(s6, TRUSTED).None?;
    h := [s0];
    LifeNext(h, s1);
    LifeNext([s0] + [s1], s2);
    LifeNext([s0] + [s1] + [s2], s3);
    LifeNext([s0] + [s1] + [s2] + [s3], s4);
    LifeNext([s0] + [s1] + [s2] + [s3] + [s4], s5);
    LifeNext([s0] + [s1] + [s2] + [s3] + [s4] + [s5], s6);
    LifeNext([s0] + [s1] + [s2] + [s3] + [s4] + [s5] + [s6], s7);
    h := [s0] + [s1] + [s2] + [s3] + [s4] + [s5] + [s6] + [s7];
  }

  lemma SinceNext(k: Skill, e: Evaluation)
    requires k.trustedAt.Some?
    ensures SinceTrust(k.(evaluations := k.evaluations + [e])) ==
      if e.ranAt >= k.trustedAt.value then SinceTrust(k) + [e] else SinceTrust(k)
  {
    FilterAppend((e: Evaluation) => e.ranAt >= k.trustedAt.value, k.evaluations, [e]);
    assert [e][1..] == [];
  }

  lemma NoneSinceTrust(k: Skill)
    requires k.trustedAt == Some(1) && k.evaluations == [] + [GOOD] + [GOOD] + [GOOD]
    ensures SinceTrust(k) == []
  {
    var k0 := k.(evaluations := []);
    var k1 := k.(evaluations := [] + [GOOD]);
    var k2 := k.(evaluations := [] + [GOOD] + [GOOD]);
    SinceNext(k0, GOOD);
    SinceNext(k1, GOOD);
    SinceNext(k2, GOOD);
    assert k == k2.(evaluations := k2.evaluations + [GOOD]);
  }

  /** There were runs, and none succeeded. */
  predicate FailedEveryRun(es: seq<Evaluation>) {
    Runs(es) > 0 && Successes(es) == 0
  }

  /** The lifetime sums of three good and two bad evaluations. */
  lemma FiveSums()
    ensures Trustworthy([] + [GOOD] + [GOOD] + [GOOD] + [BAD] + [BAD])
    ensures Regressed([] + [BAD] + [BAD]) && FailedEveryRun([] + [BAD] + [BAD])
  {
    SumsNext([], BAD);
    SumsNext([] + [BAD], BAD);
    SumsNext([], GOOD);
    SumsNext([] + [GOOD], GOOD);
    SumsNext([] + [GOOD] + [GOOD], GOOD);
    SumsNext([] + [GOOD] + [GOOD] + [GOOD], BAD);
    SumsNext([] + [GOOD] + [GOOD] + [GOOD] + [BAD], BAD);
  }

  lemma TwoBadSinceTrust(trusted: Skill)
    requires trusted.trustedAt == Some(1) && trusted.evaluations == [] + [GOOD] + [GOOD] + [GOOD]
    ensures var twice := trusted.(evaluations := trusted.evaluations + [BAD] + [BAD]);
      Regressed(SinceTrust(twice)) && FailedEveryRun(SinceTrust(twice)) && Trustworthy(twice.evaluations)
  {
    var once := trusted.(evaluations := trusted.evaluations + [BAD]);
    NoneSinceTrust(trusted);
    SinceNext(trusted, BAD);
    SinceNext(once, BAD);
    FiveSums();
  }

  /** It happens: a skill that was demoted for failing every run since its promotion, and that regains trust
      without one new evaluation because of what it did before. */
  lemma DegradedYetTrustworthy(id: Id, name: string) returns (h: seq<Skill>, k: Skill)
    ensures Life(h) && k == h[|h| - 1] && k.stage == DEGRADED
    ensures FailedEveryRun(SinceTrust(k))
    ensures exists way :: Reclimbs(k, way)
  {
    h := TrustedLife(id, name);
    var trusted := h[|h| - 1];
    var once := trusted.(evaluations := trusted.evaluations + [BAD]);
    var twice := once.(evaluations := once.evaluations + [BAD]);
    var degraded := Moved(twice, DEGRADED, 1);
    TwoBadSinceTrust(trusted);
    assert SinceTrust(degraded) == SinceTrust(twice);
    assert Refusal(twice, DEGRADED).None?;
    LifeNext(h, once);
    LifeNext(h + [once], twice);
    LifeNext(h + [once] + [twice], degraded);
    h, k := h + [once] + [twice] + [degraded], degraded;
    ReclimbsUnevaluatedIff(degraded);
  }

  // ------------------------------------------------------- the registry

  ghost predicate AllLives(rows: map<Id, Skill>, lives: map<Id, seq<Skill>>) {
    && lives.Keys == rows.Keys
    && (forall id :: id in rows ==> Life(lives[id]) && lives[id][|lives[id]| - 1] == rows[id])
    && (forall i, j :: i in rows && j in rows && rows[i].name == rows[j].name ==> i == j)
  }

  lemma LivesNext(rows: map<Id, Skill>, lives: map<Id, seq<Skill>>, id: Id, skill: Skill)
    requires AllLives(rows, lives) && id in rows && skill.name == rows[id].name && Life(lives[id] + [skill])
    ensures AllLives(rows[id := skill], lives[id := lives[id] + [skill]])
  {
    var rows', lives' := rows[id := skill], lives[id := lives[id] + [skill]];
    forall i | i in rows'
      ensures Life(lives'[i]) && lives'[i][|lives'[i]| - 1] == rows'[i]
    {
    }
    assert forall i :: i in rows' ==> i in rows && rows'[i].name == rows[i].name;
  }

  class SkillRegistry {
    var rows: map<Id, Skill>
    var clock: int
    ghost var lives: map<Id, seq<Skill>>

    /** Every row is the last snapshot of a life that obeys the gates, and names are unique. */
    ghost predicate Valid()
      reads this
    {
      AllLives(rows, lives)
    }

    constructor (start: int)
      ensures Valid() && rows == map[] && lives == map[]
    {
      rows, lives, clock := map[], map[], start;
    }

    method Now() returns (t: int)
      modifies this`clock
      ensures t == clock && clock >= old(clock)
    {
      t :| t >= clock;
      clock := t;
    }

    method NameTaken(name: string) returns (taken: bool)
      ensures taken <==> exists id :: id in rows && rows[id].name == name
    {
      taken := exists id :: id in rows && rows[id].name == name;
    }

    /** `register`, under a fresh id. */
    method Register(id: Id, name: string, provenance: string) returns (r: Result<Skill, SkillError>)
      requires Valid() && id !in rows
      modifies this
      ensures Valid()
      ensures r.Success? <==> !IsBlank(provenance) && forall i :: i in old(rows) ==> old(rows)[i].name != name
      ensures r.Failure? ==> rows == old(rows) && lives == old(lives)
      ensures r.Failure? ==> r.error == if IsBlank(provenance) then BlankProvenance else DuplicateName
      ensures r.Success? ==>
        && r.value == Skill(id, name, CANDIDATE, [], None) && rows == old(rows)[id := r.value]
        && lives == old(lives)[id := [r.value]]
    {
      if IsBlank(provenance) {
        return Failure(BlankProvenance);
      }
      var taken := NameTaken(name);
      if taken {
        return Failure(DuplicateName);
      }
      var skill := Skill(id, name, CANDIDATE, [], None);
      rows, lives := rows[id := skill], lives[id := [skill]];
      r := Success(skill);
    }

    /** One UPDATE of a row by a legal step. */
    method Store(id: Id, skill: Skill)
      requires Valid() && id in rows && Step(rows[id], skill)
      modifies this`rows, this`lives
      ensures Valid() && rows == old(rows)[id := skill] && lives == old(lives)[id := old(lives)[id] + [skill]]
    {
      LifeNext(lives[id], skill);
      StepKeepsName(rows[id], skill);
      LivesNext(rows, lives, id, skill);
      rows, lives := rows[id := skill], lives[id := lives[id] + [skill]];
    }

    method RecordEvaluation(id: Id, e: Evaluation) returns (r: Result<Skill, SkillError>)
      requires Valid()
      modifies this
      ensures Valid()
      ensures r.Success? <==> id in old(rows)
      ensures r.Failure? ==> r.error == UnknownSkill && rows == old(rows) && lives == old(lives)
      ensures r.Success? ==>
        && r.value == old(rows)[id].(evaluations := old(rows)[id].evaluations + [e])
        && rows == old(rows)[id := r.value] && lives == old(lives)[id := old(lives)[id] + [r.value]]
    {
      if id !in rows {
        return Failure(UnknownSkill);
      }
      var skill := rows[id].(evaluations := rows[id].evaluations + [e]);
      Store(id, skill);
      r := Success(skill);
    }

    method AdvanceStage(id: Id, target: Stage) returns (r: Result<Skill, SkillError>)
      requires Valid()
      modifies this
      ensures Valid() && clock >= old(clock)
      ensures r.Success? <==> id in old(rows) && Refusal(old(rows)[id], target).None?
      ensures r.Failure? ==> rows == old(rows) && lives == old(lives)
      ensures r.Failure? ==> Some(r.error) == if id in old(rows) then Refusal(old(rows)[id], target) else Some(UnknownSkill)
      ensures r.Success? ==>
        && r.value == (if target == TRUSTED then old(rows)[id].(stage := TRUSTED, trustedAt := Some(clock))
                       else old(rows)[id].(stage := target))
        && rows == old(rows)[id := r.value] && lives == old(lives)[id := old(lives)[id] + [r.value]]
    {
      if id !in rows {
        return Failure(UnknownSkill);
      }
      var refusal := Refusal(rows[id], target);
      if refusal.Some? {
        return Failure(refusal.value);
      }
      var now := Now();
      var skill := rows[id].(stage := target);
      if target == TRUSTED {
        skill := skill.(trustedAt := Some(now));
      }
      assert skill == Moved(rows[id], target, now);
      Store(id, skill);
      r := Success(skill);
    }

    method Supersede(id: Id) returns (r: Result<Skill, SkillError>)
      requires Valid()
      modifies this
      ensures Valid()
      ensures r.Success? <==> id in old(rows) && old(rows)[id].stage != SUPERSEDED
      ensures r.Failure? ==> rows == old(rows) && lives == old(lives)
      ensures r.Failure? ==> r.error == if id in old(rows) then IllegalMove else UnknownSkill
      ensures r.Success? ==>
        && r.value == old(rows)[id].(stage := SUPERSEDED)
        && rows == old(rows)[id := r.value] && lives == old(lives)[id := old(lives)[id] + [r.value]]
    {
      if id !in rows {
        return Failure(UnknownSkill);
      }
      if SUPERSEDED !in LegalTargets(rows[id].stage) {
        return Failure(IllegalMove);
      }
      var skill := rows[id].(stage := SUPERSEDED);
      assert skill == Moved(rows[id], SUPERSEDED, 0);
      Store(id, skill);
      r := Success(skill);
    }
  }

  lemma StepKeepsName(k: Skill, k': Skill)
    requires Step(k, k')
    ensures k'.name == k.name && k'.skillId == k.skillId
  {
  }
}
