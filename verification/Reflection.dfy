/** The reflection loop: statistics become insights, insights become memories.

    What the loop has written before is recognised only by parsing the stored
    text, so its idempotence rests on a round trip from an insight through its
    rendered content back to its fingerprint.
*/
module Reflection {
  import opened Ordering
  import opened Text
  import opened MemoryStorage

  const SCOPE_REF := "xenopus-self"
  const MIN_FAILURES: nat := 3
  const BATCH: nat := 10
  const SEARCH_LIMIT: nat := 500
  const MEMORY_TTL: int := 30 * 24 * 3_600_000_000
  const PROMOTION_MIN_CONFIDENCE: real := 0.5
  const AGENT := "agent"
  const TOOL := "tool"

  // ------------------------------------------------------- reliability statistics

  datatype Outcome = Outcome(kind: string, subject: string, success: bool)

  datatype Stats = Stats(invocations: nat, successes: nat)

  function StatsFor(log: seq<Outcome>, kind: string, subject: string): (s: Stats)
    ensures s.successes <= s.invocations
  {
    var ofSubject := Filter((o: Outcome) => o.kind == kind && o.subject == subject, log);
    Stats(|ofSubject|, |Filter((o: Outcome) => o.success, ofSubject)|)
  }

  function SubjectsFor(log: seq<Outcome>, kind: string): seq<string> {
    SortedIds(set o | o in log && o.kind == kind :: o.subject)
  }

  // ------------------------------------------------------- insights

  datatype Insight = Insight(subject: string, kind: string, stats: Stats)

  /** At least 3 failures and a success rate below 0.9. */
  predicate Notable(s: Stats) {
    s.invocations - s.successes >= MIN_FAILURES && 10 * s.successes < 9 * s.invocations
  }

  /** In terms of the rate itself. */
  lemma NotableTells(s: Stats)
    requires s.successes <= s.invocations
    ensures Notable(s) <==>
      s.invocations - s.successes >= 3 && (s.successes as real) / (s.invocations as real) < 0.9
  {
    if s.invocations > 0 {
      QuotientCompares(s.successes, s.invocations, 9, 10);
    }
  }

  function Fingerprint(kind: string, subject: string): string {
    kind + ":" + subject + ":3"
  }

  function FingerprintOf(i: Insight): string {
    Fingerprint(i.kind, i.subject)
  }

  function InsightsAbout(log: seq<Outcome>, kind: string, subjects: seq<string>): seq<Insight> {
    if subjects == [] then []
    else
      var k := |subjects| - 1;
      var earlier := InsightsAbout(log, kind, subjects[..k]);
      var stats := StatsFor(log, kind, subjects[k]);
      if Notable(stats) then earlier + [Insight(subjects[k], kind, stats)] else earlier
  }

  /** `_derive_insights`: agents first, then tools, each by subject. */
  function Insights(log: seq<Outcome>): seq<Insight> {
    InsightsAbout(log, AGENT, SubjectsFor(log, AGENT)) + InsightsAbout(log, TOOL, SubjectsFor(log, TOOL))
  }

  lemma InsightsAboutNext(log: seq<Outcome>, kind: string, subjects: seq<string>, k: nat)
    requires k < |subjects|
    ensures var stats := StatsFor(log, kind, subjects[k]);
      InsightsAbout(log, kind, subjects[..k + 1]) ==
      if Notable(stats) then InsightsAbout(log, kind, subjects[..k]) + [Insight(subjects[k], kind, stats)]
      else InsightsAbout(log, kind, subjects[..k])
  {
    assert subjects[..k + 1][..k] == subjects[..k];
  }

  method InsightsOfKind(log: seq<Outcome>, kind: string) returns (insights: seq<Insight>)
    ensures insights == InsightsAbout(log, kind, SubjectsFor(log, kind))
  {
    var subjects := SubjectsFor(log, kind);
    insights := [];
    for k := 0 to |subjects|
      invariant insights == InsightsAbout(log, kind, subjects[..k])
    {
      var stats := StatsFor(log, kind, subjects[k]);
      InsightsAboutNext(log, kind, subjects, k);
      if Notable(stats) {
        insights := insights + [Insight(subjects[k], kind, stats)];
      }
    }
    assert subjects[..|subjects|] == subjects;
  }

  method DeriveInsights(log: seq<Outcome>) returns (insights: seq<Insight>)
    ensures insights == Insights(log)
  {
    var agents := InsightsOfKind(log, AGENT);
    var tools := InsightsOfKind(log, TOOL);
    insights := agents + tools;
  }

  // ------------------------------------------------------- the round trip through the content

  /** The statistics as the content shows them. */
  type Renderer = Stats -> string

  function Content(i: Insight, render: Renderer): string {
    (if i.kind == TOOL then "tool " else "agent role ") + (i.subject + (" failed " + render(i.stats)))
  }

  /** `_fingerprint_of_content`. */
  function FingerprintOfContent(content: string): Option<string> {
    var parts := Words(Strip(content));
    if |parts| >= 2 && parts[0] == "tool" then Some(Fingerprint(TOOL, parts[1]))
    else if |parts| >= 3 && parts[0] == "agent" && parts[1] == "role" then Some(Fingerprint(AGENT, parts[2]))
    else None
  }

  /** Stored text is taken for an insight exactly when it begins with the words "tool w" or "agent role w". */
  lemma ParsedIff(content: string, kind: string, w: string)
    requires KnownKind(kind)
    ensures FingerprintOfContent(content) == Some(Fingerprint(kind, w)) <==>
      var words := Words(content);
      if kind == TOOL then |words| >= 2 && words[0] == "tool" && words[1] == w
      else |words| >= 3 && words[0] == "agent" && words[1] == "role" && words[2] == w
    ensures FingerprintOfContent(content).None? <==>
      var words := Words(content);
      && !(|words| >= 2 && words[0] == "tool")
      && !(|words| >= 3 && words[0] == "agent" && words[1] == "role")
  {
    WordsOfStrip(content);
    assert "tool"[0] == 't' && "agent"[0] == 'a';
    forall k, v | KnownKind(k) && Fingerprint(k, v) == Fingerprint(kind, w)
      ensures k == kind && v == w
    {
      FingerprintInjective(k, v, kind, w);
    }
  }

  predicate KnownKind(kind: string) {
    kind == AGENT || kind == TOOL
  }

  lemma FingerprintInjective(kind: string, subject: string, kind': string, subject': string)
    requires KnownKind(kind) && KnownKind(kind') && Fingerprint(kind, subject) == Fingerprint(kind', subject')
    ensures kind == kind' && subject == subject'
  {
    var f, f' := Fingerprint(kind, subject), Fingerprint(kind', subject');
    assert f[0] == kind[0] && f'[0] == kind'[0];
    assert f[|kind| + 1..|f| - 2] == subject && f'[|kind'| + 1..|f'| - 2] == subject';
  }

  lemma FingerprintsDiffer(i: Insight, j: Insight)
    requires KnownKind(i.kind) && KnownKind(j.kind) && (i.kind != j.kind || i.subject != j.subject)
    ensures FingerprintOf(i) != FingerprintOf(j)
  {
    if FingerprintOf(i) == FingerprintOf(j) {
      FingerprintInjective(i.kind, i.subject, j.kind, j.subject);
    }
  }

  lemma FingerprintsAreOfWords(content: string)
    ensures FingerprintOfContent(content).Some? ==>
      exists kind, w :: KnownKind(kind) && IsWord(w) && FingerprintOfContent(content) == Some(Fingerprint(kind, w))
  {
    WordsAreWords(Strip(content));
  }

  lemma WordBefore(w: string, rest: string)
    requires IsWord(w)
    ensures Words(w + " " + rest) == [w] + Words(rest)
  {
    assert w + " " + rest == w + ([' '] + rest);
    WordThenRest(w, [' '] + rest);
    LeadingSpace(' ', rest);
  }

  lemma ToolWords(rest: string)
    ensures Words("tool " + rest) == ["tool"] + Words(rest)
  {
    assert "tool " + rest == "tool" + " " + rest;
    WordBefore("tool", rest);
  }

  lemma Concat3(a: string, b: string, c: string)
    ensures (a + b) + c == a + (b + c)
  {
  }

  lemma RolePrefix(rest: string)
    ensures "agent role " + rest == "agent" + " " + ("role" + " " + rest)
  {
    assert "agent role " == ("agent" + " ") + ("role" + " ");
    Concat3("agent" + " ", "role" + " ", rest);
  }

  lemma RoleWords(rest: string)
    ensures Words("agent role " + rest) == ["agent", "role"] + Words(rest)
  {
    RolePrefix(rest);
    WordBefore("agent", "role" + " " + rest);
    WordBefore("role", rest);
    Concat3Words(Words(rest));
  }

  lemma Concat3Words(words: seq<string>)
    ensures ["agent"] + (["role"] + words) == ["agent", "role"] + words
  {
  }

  lemma ContentWords(i: Insight, render: Renderer)
    requires KnownKind(i.kind)
    ensures Words(Strip(Content(i, render))) ==
      (if i.kind == TOOL then ["tool"] else ["agent", "role"]) + Words(i.subject + (" failed " + render(i.stats)))
  {
    WordsOfStrip(Content(i, render));
    ToolWords(i.subject + (" failed " + render(i.stats)));
    RoleWords(i.subject + (" failed " + render(i.stats)));
  }

  lemma RoundTrip(i: Insight, render: Renderer)
    requires KnownKind(i.kind) && IsWord(i.subject)
    ensures FingerprintOfContent(Strip(Content(i, render))) == Some(FingerprintOf(i))
  {
    var tail := " failed " + render(i.stats);
    ContentWords(i, render);
    WordThenRest(i.subject, tail);
    WordsOfStrip(Strip(Content(i, render)));
  }

  /** The stored content of an insight leads back to its fingerprint exactly when the subject is a single
      word, whatever the statistics look like. */
  lemma RoundTripIff(i: Insight, render: Renderer)
    requires KnownKind(i.kind)
    ensures FingerprintOfContent(Strip(Content(i, render))) == Some(FingerprintOf(i)) <==> IsWord(i.subject)
  {
    var stored := Strip(Content(i, render));
    if IsWord(i.subject) {
      RoundTrip(i, render);
    } else if FingerprintOfContent(stored).Some? {
      FingerprintsAreOfWords(stored);
      var kind, w :| KnownKind(kind) && IsWord(w) && FingerprintOfContent(stored) == Some(Fingerprint(kind, w));
      FingerprintsDiffer(Insight(w, kind, i.stats), i);
    }
  }

  /** Whatever its subject, the stored content of an insight parses to the fingerprint of the first word of that
      subject. */
  lemma ParsesToFirstWord(i: Insight, render: Renderer)
    requires KnownKind(i.kind) && !IsBlank(i.subject)
    ensures Words(i.subject) != []
    ensures FingerprintOfContent(Strip(Content(i, render))) == Some(Fingerprint(i.kind, Words(i.subject)[0]))
  {
    ContentWords(i, render);
    FirstOfWords(i.subject, " failed " + render(i.stats));
    WordsOfStrip(Strip(Content(i, render)));
  }

  /** So one insight makes another one known, and keeps it from being proposed, exactly when they are of one kind
      and the other's subject is the first word of the one's: "a b" stands in for "a". */
  lemma MakesKnownIff(i: Insight, j: Insight, render: Renderer)
    requires KnownKind(i.kind) && KnownKind(j.kind) && !IsBlank(i.subject)
    ensures Words(i.subject) != []
    ensures FingerprintOfContent(Strip(Content(i, render))) == Some(FingerprintOf(j)) <==>
      j.kind == i.kind && j.subject == Words(i.subject)[0]
  {
    ParsesToFirstWord(i, render);
    if FingerprintOf(j) == Fingerprint(i.kind, Words(i.subject)[0]) {
      FingerprintInjective(j.kind, j.subject, i.kind, Words(i.subject)[0]);
    }
  }

  // ------------------------------------------------------- the insights

  lemma {:induction false} InsightsAboutFacts(log: seq<Outcome>, kind: string, subjects: seq<string>)
    requires Distinct(subjects)
    ensures var found := InsightsAbout(log, kind, subjects);
      && (forall i :: i in found <==>
            i.subject in subjects && i.kind == kind && i.stats == StatsFor(log, kind, i.subject) && Notable(i.stats))
      && Distinct(found)
  {
    if subjects != [] {
      var k := |subjects| - 1;
      assert subjects == subjects[..k] + [subjects[k]];
      assert subjects[k] !in subjects[..k];
      InsightsAboutFacts(log, kind, subjects[..k]);
    }
  }

  lemma NotableIsRecorded(log: seq<Outcome>, kind: string, subject: string)
    requires Notable(StatsFor(log, kind, subject))
    ensures subject in SubjectsFor(log, kind)
  {
    var ofSubject := Filter((o: Outcome) => o.kind == kind && o.subject == subject, log);
    assert ofSubject[0] in ofSubject;
  }

  ghost predicate IsInsight(log: seq<Outcome>, i: Insight) {
    KnownKind(i.kind) && i.stats == StatsFor(log, i.kind, i.subject) && Notable(i.stats)
  }

  /** The insights are the notable subjects of both kinds. */
  lemma InsightsAreNotable(log: seq<Outcome>)
    ensures forall i :: i in Insights(log) <==> IsInsight(log, i)
  {
    InsightsAboutFacts(log, AGENT, SubjectsFor(log, AGENT));
    InsightsAboutFacts(log, TOOL, SubjectsFor(log, TOOL));
    forall i | IsInsight(log, i)
      ensures i in Insights(log)
    {
      NotableIsRecorded(log, i.kind, i.subject);
    }
  }

  /** In the order of the listing: agents before tools, and each kind by subject. */
  ghost predicate ListedBefore(i: Insight, j: Insight) {
    (i.kind == AGENT && j.kind == TOOL) || (i.kind == j.kind && StrLe(i.subject, j.subject))
  }

  ghost predicate ListedInOrder(insights: seq<Insight>) {
    forall j, k :: 0 <= j < k < |insights| ==> ListedBefore(insights[j], insights[k])
  }

  lemma ListedNext(a: seq<Insight>, b: seq<Insight>)
    requires ListedInOrder(a) && ListedInOrder(b) && forall i, j :: i in a && j in b ==> ListedBefore(i, j)
    ensures ListedInOrder(a + b)
  {
    forall j, k | 0 <= j < k < |a + b|
      ensures ListedBefore((a + b)[j], (a + b)[k])
    {
      assert j < |a| ==> a[j] in a;
      assert k >= |a| ==> b[k - |a|] in b;
    }
  }

  lemma {:induction false} InsightsAboutInOrder(log: seq<Outcome>, kind: string, subjects: seq<string>)
    requires Ascending(StrLe, subjects)
    ensures forall i :: i in InsightsAbout(log, kind, subjects) ==> i.kind == kind && i.subject in subjects
    ensures ListedInOrder(InsightsAbout(log, kind, subjects))
  {
    if subjects != [] {
      var init, last := subjects[..|subjects| - 1], subjects[|subjects| - 1];
      var stats := StatsFor(log, kind, last);
      InsightsAboutInOrder(log, kind, init);
      assert subjects == init + [last];
      forall i | i in InsightsAbout(log, kind, init)
        ensures StrLe(i.subject, last)
      {
        var q :| 0 <= q < |init| && init[q] == i.subject;
        assert StrLe(subjects[q], subjects[|subjects| - 1]);
      }
      ListedNext(InsightsAbout(log, kind, init), [Insight(last, kind, stats)]);
    }
  }

  lemma OneKindInOrder(log: seq<Outcome>, kind: string)
    ensures forall i :: i in InsightsAbout(log, kind, SubjectsFor(log, kind)) ==> i.kind == kind
    ensures ListedInOrder(InsightsAbout(log, kind, SubjectsFor(log, kind)))
  {
    SortedIdsAscending(set o | o in log && o.kind == kind :: o.subject);
    InsightsAboutInOrder(log, kind, SubjectsFor(log, kind));
  }

  lemma InsightsInOrder(log: seq<Outcome>)
    ensures ListedInOrder(Insights(log))
  {
    OneKindInOrder(log, AGENT);
    OneKindInOrder(log, TOOL);
    ListedNext(InsightsAbout(log, AGENT, SubjectsFor(log, AGENT)), InsightsAbout(log, TOOL, SubjectsFor(log, TOOL)));
  }

  ghost predicate WellNamed(insights: seq<Insight>) {
    && (forall j :: 0 <= j < |insights| ==> KnownKind(insights[j].kind))
    && (forall j, k :: 0 <= j < k < |insights| ==> FingerprintOf(insights[j]) != FingerprintOf(insights[k]))
  }

  lemma {:induction false} SameKindWellNamed(log: seq<Outcome>, kind: string, subjects: seq<string>)
    requires KnownKind(kind) && Distinct(subjects)
    ensures WellNamed(InsightsAbout(log, kind, subjects))
  {
    if subjects != [] {
      var k := |subjects| - 1;
      var earlier := InsightsAbout(log, kind, subjects[..k]);
      SameKindWellNamed(log, kind, subjects[..k]);
      InsightsAboutFacts(log, kind, subjects[..k]);
      assert subjects[k] !in subjects[..k];
      forall j | 0 <= j < |earlier|
        ensures FingerprintOf(earlier[j]) != FingerprintOf(Insight(subjects[k], kind, StatsFor(log, kind, subjects[k])))
      {
        assert earlier[j] in earlier;
        FingerprintsDiffer(earlier[j], Insight(subjects[k], kind, StatsFor(log, kind, subjects[k])));
      }
    }
  }

  lemma WellNamedAppend(a: seq<Insight>, b: seq<Insight>)
    requires WellNamed(a) && WellNamed(b)
    requires forall j, k :: 0 <= j < |a| && 0 <= k < |b| ==> a[j].kind != b[k].kind
    ensures WellNamed(a + b)
  {
    forall j, k | 0 <= j < |a| && 0 <= k < |b|
      ensures FingerprintOf(a[j]) != FingerprintOf(b[k])
    {
      FingerprintsDiffer(a[j], b[k]);
    }
  }

  lemma KindOfInsights(log: seq<Outcome>, kind: string, j: nat)
    requires j < |InsightsAbout(log, kind, SubjectsFor(log, kind))|
    ensures InsightsAbout(log, kind, SubjectsFor(log, kind))[j].kind == kind
  {
    InsightsAboutFacts(log, kind, SubjectsFor(log, kind));
  }

  /** They have pairwise different fingerprints. */
  lemma InsightsAreWellNamed(log: seq<Outcome>)
    ensures WellNamed(Insights(log))
  {
    var agents := InsightsAbout(log, AGENT, SubjectsFor(log, AGENT));
    var tools := InsightsAbout(log, TOOL, SubjectsFor(log, TOOL));
    SameKindWellNamed(log, AGENT, SubjectsFor(log, AGENT));
    SameKindWellNamed(log, TOOL, SubjectsFor(log, TOOL));
    forall j, k | 0 <= j < |agents| && 0 <= k < |tools|
      ensures agents[j].kind != tools[k].kind
    {
      KindOfInsights(log, AGENT, j);
      KindOfInsights(log, TOOL, k);
    }
    WellNamedAppend(agents, tools);
  }

  // ------------------------------------------------------- one pass

  const REFLECTION_QUERY := Query(WORKSPACE, SCOPE_REF, true, 0.0, (content: string) => true, {}, SEARCH_LIMIT)

  function Known(items: seq<Item>): set<string> {
    set item | item in items && FingerprintOfContent(item.content).Some? :: FingerprintOfContent(item.content).value
  }

  function Scoped(rows: Table): seq<Item> {
    Filter(Matching(REFLECTION_QUERY), rows)
  }

  function IsUnknown(known: set<string>): Insight -> bool {
    (i: Insight) => FingerprintOf(i) !in known
  }

  function Unknown(insights: seq<Insight>, known: set<string>): seq<Insight> {
    Filter(IsUnknown(known), insights)
  }

  /** What a pass over `rows` writes. */
  function Proposals(log: seq<Outcome>, rows: Table): seq<Insight> {
    Take(Unknown(Insights(log), Known(Search(rows, REFLECTION_QUERY))), BATCH)
  }

  function Confidence(s: Stats): real {
    var c := 0.5 + s.invocations as real / 100.0;
    if c < 0.9 then c else 0.9
  }

  /** `Insight.draft`. */
  function DraftOf(i: Insight, render: Renderer, correlationId: string): Draft {
    Draft(Content(i, render), if i.kind == TOOL then FAILURE else SEMANTIC, WORKSPACE, SCOPE_REF,
          Confidence(i.stats), Some(correlationId), Some(MEMORY_TTL))
  }

  /** The row that a proposal leaves: promoted if the gate lets it. */
  predicate WrittenAs(item: Item, id: nat, d: Draft, minConfidence: real) {
    item == ItemOf(id, d, item.createdAt).(status := if d.confidence >= minConfidence then ACTIVE else CANDIDATE)
  }

  /** The row of an insight, field by field. */
  lemma RowTells(item: Item, id: nat, i: Insight, render: Renderer, correlationId: string, minConfidence: real)
    requires WrittenAs(item, id, DraftOf(i, render, correlationId), minConfidence)
    ensures item.memoryId == id && item.content == Strip(Content(i, render))
    ensures item.kind == (if i.kind == TOOL then FAILURE else SEMANTIC)
    ensures item.scope == WORKSPACE && item.scopeRef == SCOPE_REF && item.evidence == Some(correlationId)
    ensures item.expiresAt == Some(item.createdAt + MEMORY_TTL)
    ensures i.stats.invocations <= 40 ==> item.confidence == 0.5 + i.stats.invocations as real / 100.0
    ensures i.stats.invocations >= 40 ==> item.confidence == 0.9
    ensures item.status == if item.confidence >= minConfidence then ACTIVE else CANDIDATE
  {
  }

  /** A pass appends one row for each proposal and touches nothing else. */
  ghost predicate Wrote(
    before: Table, after: Table, written: seq<Insight>, render: Renderer, correlationId: string, minConfidence: real)
  {
    && |after| == |before| + |written| && after[..|before|] == before
    && forall j :: 0 <= j < |written| ==>
         WrittenAs(after[|before| + j], |before| + j, DraftOf(written[j], render, correlationId), minConfidence)
  }

  lemma WroteNext(
    before: Table, after: Table, written: seq<Insight>, render: Renderer, correlationId: string, minConfidence: real,
    i: Insight, item: Item)
    requires Wrote(before, after, written, render, correlationId, minConfidence)
    requires WrittenAs(item, |after|, DraftOf(i, render, correlationId), minConfidence)
    ensures Wrote(before, after + [item], written + [i], render, correlationId, minConfidence)
  {
  }

  datatype Report = Report(proposed: seq<nat>, promoted: seq<nat>, refused: seq<nat>, skippedDuplicates: nat)

  function Added(r: Report, item: Item): Report {
    if item.status == ACTIVE then r.(proposed := r.proposed + [item.memoryId], promoted := r.promoted + [item.memoryId])
    else r.(proposed := r.proposed + [item.memoryId], refused := r.refused + [item.memoryId])
  }

  /** The report names the rows from `start` on, and splits them by what became of them. */
  ghost predicate Reports(r: Report, start: nat, rows: Table) {
    && start + |r.proposed| == |rows|
    && (forall id :: id in r.proposed <==> start <= id < |rows|)
    && (forall id :: id in r.promoted <==> start <= id < |rows| && rows[id].status == ACTIVE)
    && (forall id :: id in r.refused <==> start <= id < |rows| && rows[id].status == CANDIDATE)
  }

  lemma ReportsNext(r: Report, start: nat, rows: Table, item: Item)
    requires Reports(r, start, rows) && item.memoryId == |rows| && (item.status == ACTIVE || item.status == CANDIDATE)
    ensures Reports(Added(r, item), start, rows + [item])
  {
    var next := rows + [item];
    assert forall id :: 0 <= id < |rows| ==> next[id] == rows[id];
  }

  /** The loop of `run` after the first `k` insights. */
  ghost predicate Proposing(
    before: Table, rows: Table, insights: seq<Insight>, k: nat, known: set<string>, render: Renderer,
    correlationId: string, minConfidence: real, report: Report)
  {
    && k <= |insights|
    && Wrote(before, rows, Unknown(insights[..k], known), render, correlationId, minConfidence)
    && |report.proposed| <= BATCH && Reports(report, |before|, rows)
    && report.skippedDuplicates + |report.proposed| == k
  }

  lemma ProposingStarts(
    before: Table, insights: seq<Insight>, known: set<string>, render: Renderer, correlationId: string,
    minConfidence: real)
    ensures Proposing(before, before, insights, 0, known, render, correlationId, minConfidence, Report([], [], [], 0))
  {
  }

  lemma ProposingSkips(
    before: Table, rows: Table, insights: seq<Insight>, k: nat, known: set<string>, render: Renderer,
    correlationId: string, minConfidence: real, report: Report)
    requires Proposing(before, rows, insights, k, known, render, correlationId, minConfidence, report)
    requires k < |insights| && FingerprintOf(insights[k]) in known
    ensures Proposing(before, rows, insights, k + 1, known, render, correlationId, minConfidence,
                      report.(skippedDuplicates := report.skippedDuplicates + 1))
  {
    UnknownNext(insights, k, known);
  }

  lemma ProposingWrites(
    before: Table, rows: Table, insights: seq<Insight>, k: nat, known: set<string>, render: Renderer,
    correlationId: string, minConfidence: real, report: Report, item: Item)
    requires Proposing(before, rows, insights, k, known, render, correlationId, minConfidence, report)
    requires k < |insights| && FingerprintOf(insights[k]) !in known && |report.proposed| < BATCH
    requires WrittenAs(item, |rows|, DraftOf(insights[k], render, correlationId), minConfidence)
    ensures Proposing(before, rows + [item], insights, k + 1, known, render, correlationId, minConfidence,
                      Added(report, item))
  {
    UnknownNext(insights, k, known);
    WroteNext(before, rows, Unknown(insights[..k], known), render, correlationId, minConfidence, insights[k], item);
    ReportsNext(report, |before|, rows, item);
  }

  class ReflectionLoop {
    const memory: MemoryStore
    const render: Renderer

    constructor (memory: MemoryStore, render: Renderer)
      ensures this.memory == memory && this.render == render
    {
      this.memory := memory;
      this.render := render;
    }

    /** `_known_fingerprints`. */
    method KnownFingerprints() returns (known: set<string>)
      ensures known == Known(Search(memory.rows, REFLECTION_QUERY))
    {
      var rows := memory.Find(REFLECTION_QUERY);
      known := {};
      for k := 0 to |rows|
        invariant known == Known(rows[..k])
      {
        KnownNext(rows, k);
        var fingerprint := FingerprintOfContent(rows[k].content);
        if fingerprint.Some? {
          known := known + {fingerprint.value};
        }
      }
      assert rows[..|rows|] == rows;
    }

    /** One candidate through the promotion gate; a refusal is recorded and not retried. */
    method Propose(i: Insight, correlationId: string) returns (item: Item)
      requires memory.Valid() && KnownKind(i.kind)
      modifies memory
      ensures memory.Valid() && memory.rows == old(memory.rows) + [item]
      ensures WrittenAs(item, |old(memory.rows)|, DraftOf(i, render, correlationId), memory.minConfidence)
    {
      DraftIsSound(i, render, correlationId);
      var created := memory.Create(DraftOf(i, render, correlationId));
      item := created.value;
      var outcome := memory.Promote(item.memoryId);
      if outcome.Success? {
        item := outcome.value;
      }
    }

    /** One round of the loop of `run`. */
    method Consider(
      ghost before: Table, insights: seq<Insight>, k: nat, known: set<string>, correlationId: string, report: Report)
      returns (next: Report)
      requires memory.Valid() && k < |insights| && KnownKind(insights[k].kind) && |report.proposed| < BATCH
      requires Proposing(before, memory.rows, insights, k, known, render, correlationId, memory.minConfidence, report)
      modifies memory
      ensures memory.Valid()
      ensures Proposing(before, memory.rows, insights, k + 1, known, render, correlationId, memory.minConfidence, next)
    {
      if FingerprintOf(insights[k]) in known {
        ProposingSkips(before, memory.rows, insights, k, known, render, correlationId, memory.minConfidence, report);
        next := report.(skippedDuplicates := report.skippedDuplicates + 1);
      } else {
        ghost var earlier := memory.rows;
        var item := Propose(insights[k], correlationId);
        ProposingWrites(before, earlier, insights, k, known, render, correlationId, memory.minConfidence, report, item);
        next := Added(report, item);
      }
    }

    /** The loop of `run`. */
    method Consolidate(insights: seq<Insight>, known: set<string>, correlationId: string) returns (report: Report)
      requires memory.Valid() && forall k :: 0 <= k < |insights| ==> KnownKind(insights[k].kind)
      modifies memory
      ensures memory.Valid()
      ensures Wrote(old(memory.rows), memory.rows, Take(Unknown(insights, known), BATCH), render, correlationId,
                    memory.minConfidence)
      ensures Reports(report, |old(memory.rows)|, memory.rows)
      ensures |report.proposed| < BATCH ==> report.skippedDuplicates + |report.proposed| == |insights|
    {
      report := Report([], [], [], 0);
      var k: nat := 0;
      ghost var before := memory.rows;
      ProposingStarts(before, insights, known, render, correlationId, memory.minConfidence);
      while k < |insights| && |report.proposed| < BATCH
        invariant k <= |insights| && memory.Valid()
        invariant Proposing(before, memory.rows, insights, k, known, render, correlationId, memory.minConfidence, report)
      {
        report := Consider(before, insights, k, known, correlationId, report);
        k := k + 1;
      }
      ProposingEnds(before, memory.rows, insights, k, known, render, correlationId, memory.minConfidence, report);
    }

    /** `run`. */
    method Run(log: seq<Outcome>, correlationId: string) returns (report: Report)
      requires memory.Valid()
      modifies memory
      ensures memory.Valid()
      ensures Wrote(old(memory.rows), memory.rows, Proposals(log, old(memory.rows)), render, correlationId,
                    memory.minConfidence)
      ensures Reports(report, |old(memory.rows)|, memory.rows)
      ensures |report.proposed| < BATCH ==> report.skippedDuplicates + |report.proposed| == |Insights(log)|
    {
      var known := KnownFingerprints();
      var insights := DeriveInsights(log);
      InsightsAreWellNamed(log);
      report := Consolidate(insights, known, correlationId);
    }
  }

  lemma ProposingEnds(
    before: Table, rows: Table, insights: seq<Insight>, k: nat, known: set<string>, render: Renderer,
    correlationId: string, minConfidence: real, report: Report)
    requires Proposing(before, rows, insights, k, known, render, correlationId, minConfidence, report)
    requires k == |insights| || |report.proposed| >= BATCH
    ensures Wrote(before, rows, Take(Unknown(insights, known), BATCH), render, correlationId, minConfidence)
    ensures Reports(report, |before|, rows)
    ensures |report.proposed| < BATCH ==> report.skippedDuplicates + |report.proposed| == |insights|
  {
    UnknownPrefix(insights, k, known);
  }

  lemma KnownNext(items: seq<Item>, k: nat)
    requires k < |items|
    ensures var f := FingerprintOfContent(items[k].content);
      Known(items[..k + 1]) == if f.Some? then Known(items[..k]) + {f.value} else Known(items[..k])
  {
    assert items[..k + 1] == items[..k] + [items[k]];
  }

  lemma DraftIsSound(i: Insight, render: Renderer, correlationId: string)
    requires KnownKind(i.kind)
    ensures DraftProblem(DraftOf(i, render, correlationId)).None?
  {
    assert !IsSpace(Content(i, render)[0]);
  }

  lemma UnknownNext(insights: seq<Insight>, k: nat, known: set<string>)
    requires k < |insights|
    ensures Unknown(insights[..k + 1], known) ==
      if FingerprintOf(insights[k]) in known then Unknown(insights[..k], known)
      else Unknown(insights[..k], known) + [insights[k]]
  {
    assert insights[..k + 1] == insights[..k] + [insights[k]];
    FilterAppend(IsUnknown(known), insights[..k], [insights[k]]);
    assert [insights[k]][1..] == [];
  }

  lemma UnknownPrefix(insights: seq<Insight>, k: nat, known: set<string>)
    requires k <= |insights| && |Unknown(insights[..k], known)| <= BATCH
    requires k == |insights| || |Unknown(insights[..k], known)| == BATCH
    ensures Take(Unknown(insights, known), BATCH) == Unknown(insights[..k], known)
  {
    assert insights == insights[..k] + insights[k..];
    FilterAppend(IsUnknown(known), insights[..k], insights[k..]);
    assert k == |insights| ==> insights[..k] == insights;
  }
}
