/** The in-memory approval ledger and its durable counterpart.

    A request id `appr-NNNNNN` is its counter value.  An action hash is the
    canonical action itself: SHA-256 is taken to be injective.  Times are
    microseconds.
*/
module Approvals {
  import opened Ordering

  datatype Status = PENDING | GRANTED | DENIED | EXPIRED

  /** What an approval is bound to; `arguments` is compared as a dictionary. */
  datatype Action = Action(tool: Id, arguments: map<string, string>, subject: Id, correlationId: Id)

  datatype Request = Request(
    requestId: nat, actionHash: Action, tool: Id, subject: Id, reason: string,
    createdAt: int, expiresAt: int, status: Status)

  datatype ApprovalError =
    | BadValidity | UnknownRequest | AlreadyDecided(status: Status) | KeyCollision | NotGranted(status: Status)
    | Lapsed | WrongSubject | WrongAction

  type Answer = Result<Request, ApprovalError>

  datatype Command =
    | Create(tool: Id, subject: Id, actionHash: Action, reason: string, validity: int)
    | Grant(requestId: nat)
    | Deny(requestId: nat)
    | Resolve(requestId: nat, actionHash: Action, subject: Id)

  /** Subject and hash binding, checked after status and expiry. */
  function Binding(r: Request, actionHash: Action, subject: Id): Answer {
    if r.subject != subject then Failure(WrongSubject)
    else if r.actionHash != actionHash then Failure(WrongAction)
    else Success(r)
  }

  // ------------------------------------------------------- the in-memory ledger

  datatype Ledger = Ledger(requests: map<nat, Request>, counter: nat)

  function LedgerDecide(l: Ledger, id: nat, status: Status): (Ledger, Answer) {
    if id !in l.requests then (l, Failure(UnknownRequest))
    else if l.requests[id].status != PENDING then (l, Failure(AlreadyDecided(l.requests[id].status)))
    else
      var updated := l.requests[id].(status := status);
      (l.(requests := l.requests[id := updated]), Success(updated))
  }

  function LedgerStep(l: Ledger, now: int, c: Command): (Ledger, Answer) {
    match c
    case Create(tool, subject, hash, reason, validity) =>
      if validity <= 0 then (l, Failure(BadValidity))
      else
        var id := l.counter + 1;
        var r := Request(id, hash, tool, subject, reason, now, now + validity, PENDING);
        (Ledger(l.requests[id := r], id), Success(r))
    case Grant(id) => LedgerDecide(l, id, GRANTED)
    case Deny(id) => LedgerDecide(l, id, DENIED)
    case Resolve(id, hash, subject) =>
      if id !in l.requests then (l, Failure(UnknownRequest))
      else
        var r := l.requests[id];
        if r.status != GRANTED then (l, Failure(NotGranted(r.status)))
        else if now > r.expiresAt then
          (l.(requests := l.requests[id := r.(status := EXPIRED)]), Failure(Lapsed))
        else (l, Binding(r, hash, subject))
  }

  const EMPTY_LEDGER := Ledger(map[], 0)

  class ApprovalLedger {
    var requests: map<nat, Request>
    var counter: nat

    function State(): Ledger
      reads this
    {
      Ledger(requests, counter)
    }

    constructor ()
      ensures State() == EMPTY_LEDGER
    {
      requests, counter := map[], 0;
    }

    method CreateRequest(tool: Id, subject: Id, hash: Action, reason: string, validity: int, now: int)
      returns (r: Answer)
      modifies this
      ensures (State(), r) == LedgerStep(old(State()), now, Create(tool, subject, hash, reason, validity))
    {
      if validity <= 0 {
        return Failure(BadValidity);
      }
      counter := counter + 1;
      var request := Request(counter, hash, tool, subject, reason, now, now + validity, PENDING);
      requests := requests[request.requestId := request];
      r := Success(request);
    }

    method GrantRequest(id: nat, now: int) returns (r: Answer)
      modifies this
      ensures (State(), r) == LedgerStep(old(State()), now, Grant(id))
    {
      r := Decide(id, GRANTED);
    }

    method DenyRequest(id: nat, now: int) returns (r: Answer)
      modifies this
      ensures (State(), r) == LedgerStep(old(State()), now, Deny(id))
    {
      r := Decide(id, DENIED);
    }

    method Decide(id: nat, status: Status) returns (r: Answer)
      modifies this
      ensures (State(), r) == LedgerDecide(old(State()), id, status)
    {
      if id !in requests {
        return Failure(UnknownRequest);
      }
      var request := requests[id];
      if request.status != PENDING {
        return Failure(AlreadyDecided(request.status));
      }
      requests := requests[id := request.(status := status)];
      r := Success(requests[id]);
    }

    method ResolveRequest(id: nat, hash: Action, subject: Id, now: int) returns (r: Answer)
      modifies this
      ensures (State(), r) == LedgerStep(old(State()), now, Resolve(id, hash, subject))
    {
      if id !in requests {
        return Failure(UnknownRequest);
      }
      var request := requests[id];
      if request.status != GRANTED {
        return Failure(NotGranted(request.status));
      }
      if now > request.expiresAt {
        requests := requests[id := request.(status := EXPIRED)];
        return Failure(Lapsed);
      }
      r := Binding(request, hash, subject);
    }
  }

  // ------------------------------------------------------- the durable store

  /** The table in rowid order; `request_id` is its primary key. */
  datatype Store = Store(rows: seq<Request>, counter: nat)

  /** `SELECT ... WHERE request_id = ?`. */
  function Lookup(rows: seq<Request>, id: nat): Option<Request> {
    if rows == [] then None
    else if rows[|rows| - 1].requestId == id then Some(rows[|rows| - 1])
    else Lookup(rows[..|rows| - 1], id)
  }

  /** `UPDATE approvals SET status = ? WHERE request_id = ?`. */
  function UpdateStatus(rows: seq<Request>, id: nat, status: Status): seq<Request> {
    if rows == [] then []
    else
      var last := rows[|rows| - 1];
      UpdateStatus(rows[..|rows| - 1], id, status)
      + [if last.requestId == id then last.(status := status) else last]
  }

  function StoreDecide(s: Store, id: nat, status: Status): (Store, Answer) {
    var row := Lookup(s.rows, id);
    if row.None? then (s, Failure(UnknownRequest))
    else if row.value.status != PENDING then (s, Failure(AlreadyDecided(row.value.status)))
    else (s.(rows := UpdateStatus(s.rows, id, status)), Success(row.value.(status := status)))
  }

  function StoreStep(s: Store, now: int, c: Command): (Store, Answer) {
    match c
    case Create(tool, subject, hash, reason, validity) =>
      if validity <= 0 then (s, Failure(BadValidity))
      else
        var id := s.counter + 1;
        var r := Request(id, hash, tool, subject, reason, now, now + validity, PENDING);
        if Lookup(s.rows, id).Some? then (s.(counter := id), Failure(KeyCollision))
        else (Store(s.rows + [r], id), Success(r))
    case Grant(id) => StoreDecide(s, id, GRANTED)
    case Deny(id) => StoreDecide(s, id, DENIED)
    case Resolve(id, hash, subject) =>
      var row := Lookup(s.rows, id);
      if row.None? then (s, Failure(UnknownRequest))
      else if row.value.status != GRANTED then (s, Failure(NotGranted(row.value.status)))
      else if now > row.value.expiresAt then
        (s.(rows := UpdateStatus(s.rows, id, EXPIRED)), Failure(Lapsed))
      else (s, Binding(row.value, hash, subject))
  }

  function Reaped(r: Request, now: int): Request {
    if r.status == GRANTED && r.expiresAt <= now then r.(status := EXPIRED) else r
  }

  /** `reap_expired`: every lapsed grant becomes EXPIRED; the comparison is `<=`. */
  function Reap(rows: seq<Request>, now: int): seq<Request> {
    if rows == [] then [] else Reap(rows[..|rows| - 1], now) + [Reaped(rows[|rows| - 1], now)]
  }

  /** The rows that a sweep expires, as they are afterwards. */
  function ExpiredBy(rows: seq<Request>, now: int): seq<Request> {
    if rows == [] then []
    else
      var last := rows[|rows| - 1];
      var earlier := ExpiredBy(rows[..|rows| - 1], now);
      if Reaped(last, now) != last then earlier + [Reaped(last, now)] else earlier
  }

  const EMPTY_STORE := Store([], 0)

  lemma {:induction false} LookupFacts(rows: seq<Request>, id: nat)
    requires forall i, j :: 0 <= i < j < |rows| ==> rows[i].requestId != rows[j].requestId
    ensures Lookup(rows, id).Some? ==> Lookup(rows, id).value in rows && Lookup(rows, id).value.requestId == id
    ensures Lookup(rows, id).None? ==> forall r :: r in rows ==> r.requestId != id
    ensures forall r :: r in rows && r.requestId == id ==> Lookup(rows, id) == Some(r)
  {
    if rows != [] {
      var init, last := rows[..|rows| - 1], rows[|rows| - 1];
      assert rows == init + [last];
      LookupFacts(init, id);
    }
  }

  /** A grant whose deadline has come. */
  predicate IsDue(r: Request, now: int) {
    r.status == GRANTED && r.expiresAt <= now
  }

  function DueRows(rows: seq<Request>, now: int): seq<Request> {
    Filter((r: Request) => IsDue(r, now), rows)
  }

  lemma DueNext(rows: seq<Request>, r: Request, now: int)
    ensures DueRows(rows + [r], now) == if IsDue(r, now) then DueRows(rows, now) + [r] else DueRows(rows, now)
  {
    FilterAppend((r: Request) => IsDue(r, now), rows, [r]);
    assert [r][1..] == [];
  }

  lemma {:induction false} ExpiredAt(rows: seq<Request>, now: int)
    ensures |ExpiredBy(rows, now)| == |DueRows(rows, now)|
    ensures forall i :: 0 <= i < |DueRows(rows, now)| ==>
      ExpiredBy(rows, now)[i] == DueRows(rows, now)[i].(status := EXPIRED)
  {
    if rows != [] {
      var init, last := rows[..|rows| - 1], rows[|rows| - 1];
      ExpiredAt(init, now);
      DueNext(init, last, now);
      assert rows == init + [last];
    }
  }

  /** A sweep expires exactly the grants whose deadline has come, leaves every other row alone, and returns those
      rows in order, as they are afterwards. */
  lemma ReapTells(rows: seq<Request>, now: int)
    ensures var due := DueRows(rows, now);
      && |Reap(rows, now)| == |rows| && |ExpiredBy(rows, now)| == |due|
      && (forall i :: 0 <= i < |rows| ==>
            Reap(rows, now)[i] == if IsDue(rows[i], now) then rows[i].(status := EXPIRED) else rows[i])
      && (forall i :: 0 <= i < |due| ==> ExpiredBy(rows, now)[i] == due[i].(status := EXPIRED))
  {
    ReapRows(rows, now);
    ExpiredAt(rows, now);
  }

  /** What presenting a request is answered: the first thing that is wrong with it, if anything is. */
  lemma ResolveTells(l: Ledger, now: int, id: nat, hash: Action, subject: Id)
    ensures var (after, answer) := LedgerStep(l, now, Resolve(id, hash, subject));
      && (answer == Failure(UnknownRequest) <==> id !in l.requests)
      && (id in l.requests ==>
            var r := l.requests[id];
            if r.status != GRANTED then answer == Failure(NotGranted(r.status))
            else if r.expiresAt < now then
              answer == Failure(Lapsed) && id in after.requests && after.requests[id] == r.(status := EXPIRED)
            else if r.subject != subject then answer == Failure(WrongSubject)
            else if r.actionHash != hash then answer == Failure(WrongAction)
            else answer == Success(r))
  {
  }

  class ApprovalStore {
    var rows: seq<Request>
    var counter: nat

    function State(): Store
      reads this
    {
      Store(rows, counter)
    }

    /** The primary key holds. */
    ghost predicate Valid()
      reads this
    {
      forall i, j :: 0 <= i < j < |rows| ==> rows[i].requestId != rows[j].requestId
    }

    /** A store over the rows that it finds in its file; its counter starts at 0 all the same. */
    constructor (found: seq<Request>)
      requires forall i, j :: 0 <= i < j < |found| ==> found[i].requestId != found[j].requestId
      ensures State() == Store(found, 0) && Valid()
    {
      rows, counter := found, 0;
    }

    method CreateRequest(tool: Id, subject: Id, hash: Action, reason: string, validity: int, now: int)
      returns (r: Answer)
      modifies this
      ensures (State(), r) == StoreStep(old(State()), now, Create(tool, subject, hash, reason, validity))
    {
      if validity <= 0 {
        return Failure(BadValidity);
      }
      counter := counter + 1;
      if Lookup(rows, counter).Some? {
        return Failure(KeyCollision);
      }
      rows := rows + [Request(counter, hash, tool, subject, reason, now, now + validity, PENDING)];
      r := Success(rows[|rows| - 1]);
    }

    method GrantRequest(id: nat, now: int) returns (r: Answer)
      modifies this
      ensures (State(), r) == StoreStep(old(State()), now, Grant(id))
    {
      r := Decide(id, GRANTED);
    }

    method DenyRequest(id: nat, now: int) returns (r: Answer)
      modifies this
      ensures (State(), r) == StoreStep(old(State()), now, Deny(id))
    {
      r := Decide(id, DENIED);
    }

    method Decide(id: nat, status: Status) returns (r: Answer)
      modifies this
      ensures (State(), r) == StoreDecide(old(State()), id, status)
    {
      var row := Lookup(rows, id);
      if row.None? {
        return Failure(UnknownRequest);
      }
      if row.value.status != PENDING {
        return Failure(AlreadyDecided(row.value.status));
      }
      rows := UpdateStatus(rows, id, status);
      r := Success(row.value.(status := status));
    }

    method ResolveRequest(id: nat, hash: Action, subject: Id, now: int) returns (r: Answer)
      modifies this
      ensures (State(), r) == StoreStep(old(State()), now, Resolve(id, hash, subject))
    {
      var row := Lookup(rows, id);
      if row.None? {
        return Failure(UnknownRequest);
      }
      if row.value.status != GRANTED {
        return Failure(NotGranted(row.value.status));
      }
      if now > row.value.expiresAt {
        rows := UpdateStatus(rows, id, EXPIRED);
        return Failure(Lapsed);
      }
      r := Binding(row.value, hash, subject);
    }

    /** One UPDATE per selected row; the rows are returned as they are afterwards. */
    method ReapExpired(now: int) returns (expired: seq<Request>)
      requires Valid()
      modifies this
      ensures State() == old(State()).(rows := Reap(old(rows), now)) && Valid()
      ensures expired == ExpiredBy(old(rows), now)
    {
      ghost var before := rows;
      expired := [];
      for k := 0 to |rows|
        invariant |rows| == |before| && counter == old(counter)
        invariant forall i :: 0 <= i < k ==> rows[i] == Reaped(before[i], now)
        invariant forall i :: k <= i < |rows| ==> rows[i] == before[i]
        invariant forall i :: 0 <= i < |rows| ==> rows[i].requestId == before[i].requestId
        invariant expired == ExpiredBy(before[..k], now)
      {
        ExpiredNext(before, k, now);
        if rows[k].status == GRANTED && rows[k].expiresAt <= now {
          UpdateOne(rows, k, EXPIRED);
          rows := UpdateStatus(rows, rows[k].requestId, EXPIRED);
          expired := expired + [rows[k]];
        }
      }
      assert before[..|before|] == before;
      ReapIsPointwise(before, rows, now);
    }
  }

  lemma ExpiredNext(rows: seq<Request>, k: nat, now: int)
    requires k < |rows|
    ensures ExpiredBy(rows[..k + 1], now) ==
      if rows[k].status == GRANTED && rows[k].expiresAt <= now
      then ExpiredBy(rows[..k], now) + [rows[k].(status := EXPIRED)] else ExpiredBy(rows[..k], now)
  {
    assert rows[..k + 1][..k] == rows[..k];
  }

  lemma {:induction false} UpdateMissing(rows: seq<Request>, id: nat, status: Status)
    requires forall r :: r in rows ==> r.requestId != id
    ensures UpdateStatus(rows, id, status) == rows
  {
    if rows != [] {
      assert rows[|rows| - 1] in rows;
      UpdateMissing(rows[..|rows| - 1], id, status);
    }
  }

  lemma {:induction false} UpdateOne(rows: seq<Request>, k: nat, status: Status)
    requires k < |rows| && forall i, j :: 0 <= i < j < |rows| ==> rows[i].requestId != rows[j].requestId
    ensures UpdateStatus(rows, rows[k].requestId, status) == rows[k := rows[k].(status := status)]
  {
    var init := rows[..|rows| - 1];
    if k == |rows| - 1 {
      UpdateMissing(init, rows[k].requestId, status);
    } else {
      UpdateOne(init, k, status);
    }
  }

  lemma {:induction false} ReapIsPointwise(before: seq<Request>, after: seq<Request>, now: int)
    requires |before| == |after| && forall i :: 0 <= i < |after| ==> after[i] == Reaped(before[i], now)
    ensures after == Reap(before, now)
  {
    if before != [] {
      ReapIsPointwise(before[..|before| - 1], after[..|after| - 1], now);
    }
  }

  // ------------------------------------------------------- the two simulate each other

  datatype Input = Op(command: Command) | Sweep

  /** A request and its row agree, up to a sweep having already expired a lapsed grant. */
  predicate Agree(r: Request, row: Request, now: int) {
    r == row || (r.status == GRANTED && row == r.(status := EXPIRED) && r.expiresAt <= now)
  }

  /** Row `i` holds request `i + 1`, and nothing else is known to either side. */
  ghost predicate Simulates(l: Ledger, s: Store, now: int) {
    && l.counter == s.counter == |s.rows|
    && (forall id :: id in l.requests <==> 1 <= id <= |s.rows|)
    && (forall i :: 0 <= i < |s.rows| ==>
          s.rows[i].requestId == i + 1 && l.requests[i + 1].requestId == i + 1 && Agree(l.requests[i + 1], s.rows[i], now))
  }

  lemma LookupRow(l: Ledger, s: Store, now: int, id: nat)
    requires Simulates(l, s, now)
    ensures Lookup(s.rows, id) == if 1 <= id <= |s.rows| then Some(s.rows[id - 1]) else None
  {
    LookupFacts(s.rows, id);
    if 1 <= id <= |s.rows| {
      assert s.rows[id - 1] in s.rows;
    }
  }

  lemma StatusUpdate(s: Store, id: nat, status: Status)
    requires 1 <= id <= |s.rows| && forall i :: 0 <= i < |s.rows| ==> s.rows[i].requestId == i + 1
    ensures UpdateStatus(s.rows, id, status) == s.rows[id - 1 := s.rows[id - 1].(status := status)]
  {
    UpdateOne(s.rows, id - 1, status);
  }

  /** A resolve made exactly at the deadline of a grant that a sweep has already expired. */
  predicate AtDeadline(l: Ledger, s: Store, now: int, c: Command) {
    c.Resolve? && c.requestId in l.requests && l.requests[c.requestId].expiresAt == now
    && l.requests[c.requestId].status == GRANTED
    && 1 <= c.requestId <= |s.rows| && s.rows[c.requestId - 1].status == EXPIRED
  }

  lemma CreateSimulates(l: Ledger, s: Store, now: int, c: Command)
    requires Simulates(l, s, now) && c.Create?
    ensures var (l', a), (s', b) := LedgerStep(l, now, c), StoreStep(s, now, c); Simulates(l', s', now) && a == b
  {
    LookupRow(l, s, now, s.counter + 1);
  }

  lemma SimulatesReplaced(l: Ledger, s: Store, now: int, id: nat, r: Request, row: Request)
    requires Simulates(l, s, now) && 1 <= id <= |s.rows|
    requires r.requestId == row.requestId == id && Agree(r, row, now)
    ensures Simulates(l.(requests := l.requests[id := r]), s.(rows := s.rows[id - 1 := row]), now)
  {
  }

  lemma DecideSimulates(l: Ledger, s: Store, now: int, id: nat, status: Status)
    requires Simulates(l, s, now)
    ensures var (l', a), (s', b) := LedgerDecide(l, id, status), StoreDecide(s, id, status);
      Simulates(l', s', now) && a.Success? == b.Success? && (a.Success? ==> a == b)
  {
    LookupRow(l, s, now, id);
    if 1 <= id <= |s.rows| {
      var r, row := l.requests[id], s.rows[id - 1];
      assert row.requestId == id && r.requestId == id && Agree(r, row, now);
      StatusUpdate(s, id, status);
      if row.status == PENDING {
        SimulatesReplaced(l, s, now, id, r.(status := status), row.(status := status));
      }
    }
  }

  lemma ResolveSimulates(l: Ledger, s: Store, now: int, c: Command)
    requires Simulates(l, s, now) && c.Resolve?
    ensures var (l', a), (s', b) := LedgerStep(l, now, c), StoreStep(s, now, c);
      Simulates(l', s', now) && (a.Success? == b.Success? || AtDeadline(l, s, now, c))
  {
    var id := c.requestId;
    LookupRow(l, s, now, id);
    if 1 <= id <= |s.rows| {
      var r, row := l.requests[id], s.rows[id - 1];
      assert row.requestId == id && r.requestId == id && Agree(r, row, now);
      StatusUpdate(s, id, EXPIRED);
      if r.status == GRANTED && now > r.expiresAt {
        SimulatesReplaced(l, s, now, id, r.(status := EXPIRED), row.(status := EXPIRED));
        assert row.status == EXPIRED ==> s.rows[id - 1 := row.(status := EXPIRED)] == s.rows;
      }
    }
  }

  lemma SweepSimulates(l: Ledger, s: Store, now: int)
    requires Simulates(l, s, now)
    ensures Simulates(l, s.(rows := Reap(s.rows, now)), now)
  {
    ReapRows(s.rows, now);
  }

  lemma {:induction false} ReapRows(rows: seq<Request>, now: int)
    ensures |Reap(rows, now)| == |rows|
    ensures forall i :: 0 <= i < |rows| ==> Reap(rows, now)[i] == Reaped(rows[i], now)
  {
    if rows != [] {
      ReapRows(rows[..|rows| - 1], now);
    }
  }

  datatype Timed = Timed(now: int, input: Input)

  ghost predicate Nondecreasing(h: seq<Timed>, from: int) {
    (forall i :: 0 <= i < |h| ==> from <= h[i].now) && forall i, j :: 0 <= i < j < |h| ==> h[i].now <= h[j].now
  }

  /** Whether each input is accepted; the ledger has no sweep, so it accepts one without effect. */
  function LedgerAnswers(l: Ledger, h: seq<Timed>): seq<bool>
    decreases |h|
  {
    if h == [] then []
    else
      match h[0].input
      case Sweep => [true] + LedgerAnswers(l, h[1..])
      case Op(c) =>
        var (l', a) := LedgerStep(l, h[0].now, c);
        [a.Success?] + LedgerAnswers(l', h[1..])
  }

  function StoreAnswers(s: Store, h: seq<Timed>): seq<bool>
    decreases |h|
  {
    if h == [] then []
    else
      match h[0].input
      case Sweep => [true] + StoreAnswers(s.(rows := Reap(s.rows, h[0].now)), h[1..])
      case Op(c) =>
        var (s', a) := StoreStep(s, h[0].now, c);
        [a.Success?] + StoreAnswers(s', h[1..])
  }

  function LedgerAfter(l: Ledger, h: seq<Timed>): Ledger
    decreases |h|
  {
    if h == [] then l
    else
      match h[0].input
      case Sweep => LedgerAfter(l, h[1..])
      case Op(c) => LedgerAfter(LedgerStep(l, h[0].now, c).0, h[1..])
  }

  /** Input `k` resolves a request at the very instant it expires. */
  ghost predicate ResolvesAtDeadline(l: Ledger, h: seq<Timed>, k: nat)
    requires k < |h|
  {
    var before := LedgerAfter(l, h[..k]);
    h[k].input.Op? && h[k].input.command.Resolve? && h[k].input.command.requestId in before.requests
    && before.requests[h[k].input.command.requestId].expiresAt == h[k].now
  }

  lemma {:induction false} LedgerAfterPrefix(l: Ledger, h: seq<Timed>, k: nat)
    requires 0 < k <= |h|
    ensures LedgerAfter(l, h[..k]) ==
      LedgerAfter(match h[0].input case Sweep => l case Op(c) => LedgerStep(l, h[0].now, c).0, h[1..][..k - 1])
  {
    assert h[..k][1..] == h[1..][..k - 1];
  }

  lemma SimulatesLater(l: Ledger, s: Store, now: int, later: int)
    requires Simulates(l, s, now) && now <= later
    ensures Simulates(l, s, later)
  {
    forall i | 0 <= i < |s.rows|
      ensures s.rows[i].requestId == i + 1 && l.requests[i + 1].requestId == i + 1
      ensures Agree(l.requests[i + 1], s.rows[i], later)
    {
      assert Agree(l.requests[i + 1], s.rows[i], now);
    }
  }

  lemma StepSimulates(l: Ledger, s: Store, now: int, c: Command)
    requires Simulates(l, s, now)
    ensures var (l', a), (s', b) := LedgerStep(l, now, c), StoreStep(s, now, c);
      Simulates(l', s', now) && (a.Success? == b.Success? || AtDeadline(l, s, now, c))
  {
    match c
    case Create(_, _, _, _, _) => CreateSimulates(l, s, now, c);
    case Grant(id) => DecideSimulates(l, s, now, id, GRANTED);
    case Deny(id) => DecideSimulates(l, s, now, id, DENIED);
    case Resolve(_, _, _) => ResolveSimulates(l, s, now, c);
  }

  /** One input, to the ledger and to the store. */
  function LedgerNext(l: Ledger, t: Timed): (Ledger, bool) {
    match t.input
    case Sweep => (l, true)
    case Op(c) => var (l', a) := LedgerStep(l, t.now, c); (l', a.Success?)
  }

  function StoreNext(s: Store, t: Timed): (Store, bool) {
    match t.input
    case Sweep => (s.(rows := Reap(s.rows, t.now)), true)
    case Op(c) => var (s', a) := StoreStep(s, t.now, c); (s', a.Success?)
  }

  lemma InputSimulates(l: Ledger, s: Store, now: int, t: Timed, h: seq<Timed>)
    requires Simulates(l, s, now) && now <= t.now
    ensures Simulates(LedgerNext(l, t).0, StoreNext(s, t).0, t.now)
    ensures LedgerNext(l, t).1 == StoreNext(s, t).1 || ResolvesAtDeadline(l, [t] + h, 0)
  {
    SimulatesLater(l, s, now, t.now);
    assert ([t] + h)[..0] == [];
    match t.input {
      case Sweep => SweepSimulates(l, s, t.now);
      case Op(c) => StepSimulates(l, s, t.now, c);
    }
  }

  lemma AnswersUnfold(l: Ledger, s: Store, t: Timed, h: seq<Timed>)
    ensures LedgerAnswers(l, [t] + h) == [LedgerNext(l, t).1] + LedgerAnswers(LedgerNext(l, t).0, h)
    ensures StoreAnswers(s, [t] + h) == [StoreNext(s, t).1] + StoreAnswers(StoreNext(s, t).0, h)
  {
    assert ([t] + h)[1..] == h;
  }

  lemma DeadlineShift(l: Ledger, t: Timed, h: seq<Timed>, k: nat)
    requires k < |h|
    ensures ResolvesAtDeadline(l, [t] + h, k + 1) <==> ResolvesAtDeadline(LedgerNext(l, t).0, h, k)
  {
    var long := [t] + h;
    assert long[1..] == h && long[1..][..k] == h[..k];
    LedgerAfterPrefix(l, long, k + 1);
  }

  lemma {:induction false} AnswersAgreeFrom(l: Ledger, s: Store, now: int, h: seq<Timed>)
    requires Simulates(l, s, now) && Nondecreasing(h, now)
    ensures |LedgerAnswers(l, h)| == |StoreAnswers(s, h)| == |h|
    ensures forall k :: 0 <= k < |h| ==>
      LedgerAnswers(l, h)[k] == StoreAnswers(s, h)[k] || ResolvesAtDeadline(l, h, k)
    decreases |h|
  {
    if h != [] {
      var t, rest := h[0], h[1..];
      assert h == [t] + rest;
      NondecreasingRest(t, rest, now);
      InputSimulates(l, s, now, t, rest);
      AnswersAgreeFrom(LedgerNext(l, t).0, StoreNext(s, t).0, t.now, rest);
      AnswersUnfold(l, s, t, rest);
      forall k | 0 < k < |h|
        ensures LedgerAnswers(l, h)[k] == StoreAnswers(s, h)[k] || ResolvesAtDeadline(l, h, k)
      {
        DeadlineShift(l, t, rest, k - 1);
      }
    }
  }

  lemma NondecreasingRest(t: Timed, rest: seq<Timed>, now: int)
    requires Nondecreasing([t] + rest, now)
    ensures now <= t.now && Nondecreasing(rest, t.now)
  {
    var h := [t] + rest;
    assert h[0] == t;
    forall i | 0 <= i < |rest|
      ensures rest[i] == h[i + 1] && t.now <= rest[i].now
    {
      assert h[0].now <= h[i + 1].now;
    }
  }

  /** On every history with a clock that does not run backwards, and with sweeps anywhere in it, the
      ledger and the store accept and reject the same commands, but for resolves at the exact deadline. */
  lemma AnswersAgree(h: seq<Timed>)
    requires h != [] ==> Nondecreasing(h, h[0].now)
    ensures |LedgerAnswers(EMPTY_LEDGER, h)| == |StoreAnswers(EMPTY_STORE, h)| == |h|
    ensures forall k :: 0 <= k < |h| ==>
      LedgerAnswers(EMPTY_LEDGER, h)[k] == StoreAnswers(EMPTY_STORE, h)[k] || ResolvesAtDeadline(EMPTY_LEDGER, h, k)
  {
    if h != [] {
      AnswersAgreeFrom(EMPTY_LEDGER, EMPTY_STORE, h[0].now, h);
    }
  }

  lemma {:induction false} LookupReaped(rows: seq<Request>, now: int, id: nat)
    ensures Lookup(Reap(rows, now), id) ==
      match Lookup(rows, id) case None => None case Some(r) => Some(Reaped(r, now))
  {
    if rows != [] {
      LookupReaped(rows[..|rows| - 1], now, id);
      assert Reap(rows, now)[..|rows| - 1] == Reap(rows[..|rows| - 1], now) by {
        ReapRows(rows[..|rows| - 1], now);
      }
    }
  }

  /** The exception is exact: a sweep just before a command changes its answer precisely when the command
      is a matching resolve of a granted request at the very instant it expires. */
  lemma SweepMattersIff(s: Store, now: int, c: Command)
    ensures StoreStep(s.(rows := Reap(s.rows, now)), now, c).1.Success? != StoreStep(s, now, c).1.Success?
      <==> c.Resolve? && Lookup(s.rows, c.requestId).Some?
           && var r := Lookup(s.rows, c.requestId).value;
              r.status == GRANTED && r.expiresAt == now && Binding(r, c.actionHash, c.subject).Success?
  {
    LookupReaped(s.rows, now, if c.Create? then s.counter + 1 else c.requestId);
  }

  // ------------------------------------------------------- without sweeps: the very same answers

  ghost predicate Mirrors(l: Ledger, s: Store) {
    && l.counter == s.counter == |s.rows|
    && (forall id :: id in l.requests <==> 1 <= id <= |s.rows|)
    && (forall i :: 0 <= i < |s.rows| ==> s.rows[i].requestId == i + 1 && l.requests[i + 1] == s.rows[i])
  }

  lemma MirrorLookup(l: Ledger, s: Store, id: nat)
    requires Mirrors(l, s)
    ensures Lookup(s.rows, id) == if 1 <= id <= |s.rows| then Some(s.rows[id - 1]) else None
    ensures id in l.requests <==> Lookup(s.rows, id).Some?
    ensures id in l.requests ==> Lookup(s.rows, id) == Some(l.requests[id])
  {
    LookupFacts(s.rows, id);
    if 1 <= id <= |s.rows| {
      assert s.rows[id - 1] in s.rows;
    }
  }

  lemma MirrorUpdate(l: Ledger, s: Store, id: nat, status: Status)
    requires Mirrors(l, s) && id in l.requests
    ensures Mirrors(l.(requests := l.requests[id := l.requests[id].(status := status)]),
                    s.(rows := UpdateStatus(s.rows, id, status)))
  {
    StatusUpdate(s, id, status);
  }

  lemma MirrorStep(l: Ledger, s: Store, now: int, c: Command)
    requires Mirrors(l, s)
    ensures var (l', a), (s', b) := LedgerStep(l, now, c), StoreStep(s, now, c); Mirrors(l', s') && a == b
  {
    if c.Create? {
      MirrorLookup(l, s, s.counter + 1);
    } else {
      MirrorLookup(l, s, c.requestId);
      if c.requestId in l.requests {
        MirrorUpdate(l, s, c.requestId, GRANTED);
        MirrorUpdate(l, s, c.requestId, DENIED);
        MirrorUpdate(l, s, c.requestId, EXPIRED);
      }
    }
  }

  function LedgerReplies(l: Ledger, h: seq<(int, Command)>): seq<Answer>
    decreases |h|
  {
    if h == [] then []
    else
      var (l', a) := LedgerStep(l, h[0].0, h[0].1);
      [a] + LedgerReplies(l', h[1..])
  }

  function StoreReplies(s: Store, h: seq<(int, Command)>): seq<Answer>
    decreases |h|
  {
    if h == [] then []
    else
      var (s', a) := StoreStep(s, h[0].0, h[0].1);
      [a] + StoreReplies(s', h[1..])
  }

  /** Without sweeps the two give the same replies, records and errors included, on any clock. */
  lemma {:induction false} RepliesEqual(l: Ledger, s: Store, h: seq<(int, Command)>)
    requires Mirrors(l, s)
    ensures LedgerReplies(l, h) == StoreReplies(s, h)
    decreases |h|
  {
    if h != [] {
      MirrorStep(l, s, h[0].0, h[0].1);
      RepliesEqual(LedgerStep(l, h[0].0, h[0].1).0, StoreStep(s, h[0].0, h[0].1).0, h[1..]);
    }
  }

  lemma RepliesEqualFromEmpty(h: seq<(int, Command)>)
    ensures LedgerReplies(EMPTY_LEDGER, h) == StoreReplies(EMPTY_STORE, h)
  {
    RepliesEqual(EMPTY_LEDGER, EMPTY_STORE, h);
  }

  // ------------------------------------------------------- after a restart

  /** A table that holds the requests 1 to n in order, as every store that started empty leaves it. */
  ghost predicate Numbered(rows: seq<Request>) {
    forall i :: 0 <= i < |rows| ==> rows[i].requestId == i + 1
  }

  /** Reopened over such a table, the store counts from 0 again: its first n creations collide with the primary
      key and change no row, whatever they ask for, and later ones succeed. */
  lemma {:induction false} RestartCollides(s: Store, n: nat, h: seq<(int, Command)>, k: nat)
    requires Numbered(s.rows) && n == |s.rows| && s.counter <= n && k < |h|
    requires forall i :: 0 <= i < |h| ==> h[i].1.Create? && h[i].1.validity > 0
    ensures |StoreReplies(s, h)| == |h|
    ensures StoreReplies(s, h)[k].Success? <==> s.counter + k >= n
    ensures s.counter + k < n ==> StoreReplies(s, h)[k] == Failure(KeyCollision)
    decreases |h|
  {
    var (s', a) := StoreStep(s, h[0].0, h[0].1);
    CreateAfterRestart(s, h[0].0, h[0].1);
    var rest := h[1..];
    assert forall i :: 0 <= i < |rest| ==> rest[i] == h[i + 1];
    if rest == [] {
      assert StoreReplies(s', rest) == [];
    } else if s.counter < n {
      RestartCollides(s', n, rest, if k > 0 then k - 1 else 0);
    } else {
      RestartCollides(s', n + 1, rest, if k > 0 then k - 1 else 0);
    }
  }

  lemma CreateAfterRestart(s: Store, now: int, c: Command)
    requires Numbered(s.rows) && s.counter <= |s.rows| && c.Create? && c.validity > 0
    ensures var (s', a) := StoreStep(s, now, c);
      && s'.counter == s.counter + 1 && Numbered(s'.rows)
      && (if s.counter < |s.rows| then a == Failure(KeyCollision) && s'.rows == s.rows
          else a.Success? && s'.rows == s.rows + [a.value])
  {
    LookupFacts(s.rows, s.counter + 1);
    if s.counter < |s.rows| {
      assert s.rows[s.counter] in s.rows;
    }
  }
}
