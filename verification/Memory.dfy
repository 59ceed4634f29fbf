/** The memory store, as far as the reflection loop uses it: create, promote, search.

    The table is a sequence of rows; a memory id is the position of its row, which
    stands for the fresh ids that the store draws.  Nothing deletes a row.
*/
module MemoryStorage {
  import opened Ordering
  import opened Text

  datatype Status = CANDIDATE | ACTIVE | STALE | SUPERSEDED | EXPIRED | ARCHIVED | REJECTED

  datatype Scope = GLOBAL | USER | WORKSPACE | PROJECT | TASK | TEMPORARY

  datatype Kind = EPISODIC | SEMANTIC | PROCEDURAL | PREFERENCE | PROJECTKIND | FAILURE

  datatype Draft = Draft(
    content: string, kind: Kind, scope: Scope, scopeRef: string, confidence: real, evidence: Option<string>,
    ttl: Option<int>)

  datatype Item = Item(
    memoryId: nat, content: string, kind: Kind, scope: Scope, scopeRef: string, confidence: real,
    evidence: Option<string>, createdAt: int, expiresAt: Option<int>, status: Status)

  datatype MemoryError = BlankContent | BadConfidence | BadTtl | UnknownMemory | PromotionRefused

  /** What the text pattern of a query matches is part of the query; no kinds means any kind. */
  datatype Query = Query(
    scope: Scope, scopeRef: string, includeStale: bool, minConfidence: real, text: string -> bool, kinds: set<Kind>,
    limit: nat)

  type Table = seq<Item>

  function ExpiryOf(createdAt: int, ttl: Option<int>): Option<int> {
    if ttl.Some? then Some(createdAt + ttl.value) else None
  }

  function ItemOf(id: nat, d: Draft, at: int): Item {
    Item(id, Strip(d.content), d.kind, d.scope, d.scopeRef, d.confidence, d.evidence, at, ExpiryOf(at, d.ttl), CANDIDATE)
  }

  /** The checks of `compute_expiry` and of the `MemoryItem` constructor, in their order. */
  function DraftProblem(d: Draft): Option<MemoryError> {
    if d.ttl.Some? && d.ttl.value <= 0 then Some(BadTtl)
    else if IsBlank(d.content) then Some(BlankContent)
    else if !(0.0 <= d.confidence <= 1.0) then Some(BadConfidence)
    else None
  }

  /** What is wrong with a draft: its lifetime, then its content, then its confidence. */
  lemma DraftTells(d: Draft)
    ensures DraftProblem(d) == Some(BadTtl) <==> d.ttl.Some? && d.ttl.value <= 0
    ensures DraftProblem(d) == Some(BlankContent) <==> (d.ttl.None? || d.ttl.value > 0) && Strip(d.content) == ""
    ensures DraftProblem(d) == Some(BadConfidence) <==>
      (d.ttl.None? || d.ttl.value > 0) && Strip(d.content) != "" && (d.confidence < 0.0 || d.confidence > 1.0)
    ensures DraftProblem(d).Some? ==> DraftProblem(d).value in {BadTtl, BlankContent, BadConfidence}
  {
    StripBlankIff(d.content);
  }

  /** `PromotionGate.evaluate`. */
  predicate Passes(item: Item, minConfidence: real) {
    item.status == CANDIDATE && item.evidence.Some? && item.confidence >= minConfidence
  }

  predicate Lookable(status: Status, includeStale: bool) {
    status == ACTIVE || (includeStale && status == STALE)
  }

  predicate Matches(q: Query, item: Item) {
    && item.scope == q.scope && item.scopeRef == q.scopeRef && Lookable(item.status, q.includeStale)
    && item.confidence >= q.minConfidence && q.text(item.content)
  }

  function Matching(q: Query): Item -> bool {
    (item: Item) => Matches(q, item)
  }

  /** ORDER BY confidence DESC, created_at DESC. */
  predicate RanksBefore(a: Item, b: Item) {
    a.confidence > b.confidence || (a.confidence == b.confidence && a.createdAt >= b.createdAt)
  }

  /** The rows that the query selects: LIMIT comes before the filter by kind. */
  function Page(rows: Table, q: Query): seq<Item> {
    Take(SortBy(RanksBefore, Filter(Matching(q), rows)), q.limit)
  }

  function OfKinds(kinds: set<Kind>): Item -> bool {
    (item: Item) => item.kind in kinds
  }

  /** `search`. */
  function Search(rows: Table, q: Query): seq<Item> {
    if q.kinds == {} then Page(rows, q) else Filter(OfKinds(q.kinds), Page(rows, q))
  }

  lemma TakeSorted(sorted: seq<Item>, limit: nat, x: Item, y: Item)
    requires Ascending(RanksBefore, sorted) && x in Take(sorted, limit) && y in sorted && y !in Take(sorted, limit)
    ensures RanksBefore(x, y)
  {
    var found := Take(sorted, limit);
    var others := sorted[|found|..];
    assert sorted == found + others;
    var i :| 0 <= i < |found| && found[i] == x;
    var j :| 0 <= j < |others| && others[j] == y;
    assert sorted[i] == x && sorted[|found| + j] == y;
  }

  lemma RankIsTotalPreorder()
    ensures TotalPreorder(RanksBefore)
  {
  }

  /** While the limit is not exceeded the page holds every match, and otherwise `limit` of them that rank
      no lower than any it leaves out. */
  lemma PageFacts(rows: Table, q: Query)
    ensures var page, all := Page(rows, q), Filter(Matching(q), rows);
      && |page| == (if |all| <= q.limit then |all| else q.limit)
      && (forall x :: x in page ==> x in all)
      && (|all| <= q.limit ==> forall x :: x in all ==> x in page)
      && (forall x, y :: x in page && y in all && y !in page ==>
            x.confidence > y.confidence || (x.confidence == y.confidence && x.createdAt >= y.createdAt))
  {
    var all := Filter(Matching(q), rows);
    var sorted := SortBy(RanksBefore, all);
    SameMultisetSameElements(sorted, all);
    SameMultisetSameLength(sorted, all);
    RankIsTotalPreorder();
    SortByAscending(RanksBefore, all);
    forall x, y | x in Page(rows, q) && y in all && y !in Page(rows, q)
      ensures RanksBefore(x, y)
    {
      TakeSorted(sorted, q.limit, x, y);
    }
  }

  /** A search finds what the page holds of the kinds that it asks for.  A row of such a kind can be missed
      although fewer than `limit` of them match, because the page is cut first. */
  lemma SearchFacts(rows: Table, q: Query)
    ensures forall x :: x in Search(rows, q) <==> x in Page(rows, q) && (q.kinds == {} || x.kind in q.kinds)
    ensures |Search(rows, q)| <= q.limit
    ensures |Filter(Matching(q), rows)| <= q.limit ==>
      forall x :: x in Search(rows, q) <==> x in rows && Matches(q, x) && (q.kinds == {} || x.kind in q.kinds)
  {
    PageFacts(rows, q);
  }

  /** Which rows a query selects. */
  lemma MatchesIff(q: Query, item: Item)
    ensures Matches(q, item) <==>
      && item.scope == q.scope && item.scopeRef == q.scopeRef
      && (item.status == ACTIVE || (item.status == STALE && q.includeStale))
      && item.confidence >= q.minConfidence && q.text(item.content)
  {
  }

  class MemoryStore {
    const minConfidence: real
    var rows: Table
    var clock: int

    /** A row's id is its position. */
    ghost predicate Valid()
      reads this
    {
      forall i :: 0 <= i < |rows| ==> rows[i].memoryId == i
    }

    constructor (minConfidence: real, start: int)
      ensures Valid() && rows == [] && this.minConfidence == minConfidence
    {
      this.minConfidence := minConfidence;
      rows, clock := [], start;
    }

    /** The store's clock. */
    method Now() returns (t: int)
      modifies this`clock
      ensures t == clock && clock >= old(clock)
    {
      t :| t >= clock;
      clock := t;
    }

    /** `create`: the item is a CANDIDATE, whatever the draft says. */
    method Create(d: Draft) returns (r: Result<Item, MemoryError>)
      requires Valid()
      modifies this
      ensures Valid()
      ensures r.Failure? <==> DraftProblem(d).Some?
      ensures r.Failure? ==> rows == old(rows) && Some(r.error) == DraftProblem(d)
      ensures r.Success? ==>
        && rows == old(rows) + [r.value]
        && var expiry := if d.ttl.Some? then Some(clock + d.ttl.value) else None;
           r.value == Item(|old(rows)|, Strip(d.content), d.kind, d.scope, d.scopeRef, d.confidence, d.evidence, clock,
                           expiry, CANDIDATE)
    {
      var problem := DraftProblem(d);
      if problem.Some? {
        return Failure(problem.value);
      }
      var now := Now();
      var item := ItemOf(|rows|, d, now);
      rows := rows + [item];
      r := Success(item);
    }

    /** `promote`: the only way to become ACTIVE. */
    method Promote(id: nat) returns (r: Result<Item, MemoryError>)
      requires Valid()
      modifies this
      ensures Valid()
      ensures r.Success? <==>
        && id < |old(rows)| && old(rows)[id].status == CANDIDATE && old(rows)[id].evidence.Some?
        && old(rows)[id].confidence >= minConfidence
      ensures r.Failure? ==> rows == old(rows)
      ensures r.Failure? ==> r.error == if id < |old(rows)| then PromotionRefused else UnknownMemory
      ensures r.Success? ==> r.value == old(rows)[id].(status := ACTIVE) && rows == old(rows)[id := r.value]
    {
      if id >= |rows| {
        return Failure(UnknownMemory);
      }
      if !Passes(rows[id], minConfidence) {
        return Failure(PromotionRefused);
      }
      rows := rows[id := rows[id].(status := ACTIVE)];
      r := Success(rows[id]);
    }

    method Find(q: Query) returns (found: seq<Item>)
      ensures found == Search(rows, q)
    {
      found := Search(rows, q);
    }
  }
}
