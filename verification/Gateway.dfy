/** The tool gateway: registry, permission, risk and approval, in that order, before a handler runs.

    What the permission and risk engines answer for an invocation is part of the
    invocation.  The handler itself is not modelled: `Handled` says it was called.
*/
module ToolGateways {
  import opened Ordering
  import opened Approvals

  datatype Permission = ALLOW | ASK | FORBID

  datatype Risk = AUTO | APPROVAL | RISKY

  datatype Invocation = Invocation(
    tool: Id, arguments: map<string, string>, correlationId: Id, approvalId: Option<nat>,
    permission: Permission, risk: Risk, reason: string)

  datatype Refusal =
    | ToolQuarantined | UnknownTool | PermissionDenied | RiskDenied
    | ApprovalRequired(requestId: nat) | ApprovalInvalid(error: ApprovalError)

  datatype Outcome = Refused(code: Refusal) | Handled

  /** The default validity of an approval: 300 seconds. */
  const VALIDITY: int := 300_000_000

  datatype State = State(registered: set<Id>, quarantined: set<Id>, ledger: Ledger)

  function ActionOf(subject: Id, inv: Invocation): Action {
    Action(inv.tool, inv.arguments, subject, inv.correlationId)
  }

  predicate NeedsApproval(inv: Invocation) {
    inv.permission == ASK || inv.risk == APPROVAL
  }

  /** `ToolGateway.invoke`. */
  function InvokeStep(subject: Id, g: State, now: int, inv: Invocation): (State, Outcome) {
    if inv.tool in g.quarantined then (g, Refused(ToolQuarantined))
    else if inv.tool !in g.registered then (g, Refused(UnknownTool))
    else if inv.permission == FORBID then (g, Refused(PermissionDenied))
    else if NeedsApproval(inv) then
      if inv.risk == RISKY then (g, Refused(RiskDenied))
      else if inv.approvalId.None? then
        var (l, a) := LedgerStep(g.ledger, now, Create(inv.tool, subject, ActionOf(subject, inv), inv.reason, VALIDITY));
        (g.(ledger := l), Refused(ApprovalRequired(l.counter)))
      else
        var (l, a) := LedgerStep(g.ledger, now, Resolve(inv.approvalId.value, ActionOf(subject, inv), subject));
        (g.(ledger := l), if a.Success? then Handled else Refused(ApprovalInvalid(a.error)))
    else if inv.risk == RISKY then (g, Refused(RiskDenied))
    else (g, Handled)
  }

  class ToolGateway {
    const subject: Id
    const approvals: ApprovalLedger
    var registered: set<Id>
    var quarantined: set<Id>

    function Current(): State
      reads this, approvals
    {
      State(registered, quarantined, approvals.State())
    }

    constructor (subject: Id, approvals: ApprovalLedger, tools: set<Id>)
      ensures this.subject == subject && this.approvals == approvals
      ensures Current() == State(tools, {}, approvals.State())
    {
      this.subject, this.approvals := subject, approvals;
      registered, quarantined := tools, {};
    }

    method Invoke(inv: Invocation, now: int) returns (outcome: Outcome)
      modifies approvals
      ensures (Current(), outcome) == InvokeStep(subject, old(Current()), now, inv)
    {
      if inv.tool in quarantined {
        return Refused(ToolQuarantined);
      }
      if inv.tool !in registered {
        return Refused(UnknownTool);
      }
      if inv.permission == FORBID {
        return Refused(PermissionDenied);
      }
      if inv.permission == ASK || inv.risk == APPROVAL {
        if inv.risk == RISKY {
          return Refused(RiskDenied);
        }
        var action := Action(inv.tool, inv.arguments, subject, inv.correlationId);
        if inv.approvalId.None? {
          var created := approvals.CreateRequest(inv.tool, subject, action, inv.reason, VALIDITY, now);
          return Refused(ApprovalRequired(created.value.requestId));
        }
        var resolved := approvals.ResolveRequest(inv.approvalId.value, action, subject, now);
        if resolved.Failure? {
          return Refused(ApprovalInvalid(resolved.error));
        }
      }
      if inv.risk == RISKY {
        return Refused(RiskDenied);
      }
      outcome := Handled;
    }
  }

  // ------------------------------------------------------- runs

  datatype Step = Invoke(invocation: Invocation) | Granting(requestId: nat) | Denying(requestId: nat)
                | Quarantine(tool: Id) | Lift(tool: Id) | Register(tool: Id)

  datatype Event = Event(now: int, step: Step)

  type History = seq<Event>

  function Next(subject: Id, g: State, e: Event): State {
    match e.step
    case Invoke(inv) => InvokeStep(subject, g, e.now, inv).0
    case Granting(id) => g.(ledger := LedgerStep(g.ledger, e.now, Grant(id)).0)
    case Denying(id) => g.(ledger := LedgerStep(g.ledger, e.now, Deny(id)).0)
    case Quarantine(tool) => g.(quarantined := g.quarantined + {tool})
    case Lift(tool) => g.(quarantined := g.quarantined - {tool})
    case Register(tool) => g.(registered := g.registered + {tool})
  }

  /** The state after a history that starts with no approvals and no tools. */
  function After(subject: Id, h: History): State {
    if h == [] then State({}, {}, EMPTY_LEDGER)
    else Next(subject, After(subject, h[..|h| - 1]), h[|h| - 1])
  }

  predicate Ordered(h: History) {
    forall i, j :: 0 <= i < j < |h| ==> h[i].now <= h[j].now
  }

  // ------------------------------------------------------- what a history says

  ghost predicate RegisteredBy(h: History, tool: Id) {
    exists j :: 0 <= j < |h| && h[j].step == Register(tool)
  }

  /** Put into quarantine, and not lifted since. */
  ghost predicate QuarantinedBy(h: History, tool: Id) {
    exists j :: 0 <= j < |h| && h[j].step == Quarantine(tool) && forall k :: j < k < |h| ==> h[k].step != Lift(tool)
  }

  ghost predicate Usable(h: History, tool: Id) {
    RegisteredBy(h, tool) && !QuarantinedBy(h, tool)
  }

  /** Neither permission nor risk refuses the call. */
  predicate Permitted(inv: Invocation) {
    inv.permission != FORBID && inv.risk != RISKY
  }

  /** The call needs no approval. */
  predicate Free(inv: Invocation) {
    inv.permission == ALLOW && inv.risk == AUTO
  }

  /** The call must be offered an approval. */
  ghost predicate Asks(h: History, inv: Invocation) {
    Usable(h, inv.tool) && Permitted(inv) && !Free(inv) && inv.approvalId.None?
  }

  ghost predicate AsksAt(h: History, i: nat) {
    i < |h| && h[i].step.Invoke? && Asks(h[..i], h[i].step.invocation)
  }

  /** How many approvals have been offered. */
  ghost function Asked(h: History): nat {
    if h == [] then 0 else Asked(h[..|h| - 1]) + if AsksAt(h, |h| - 1) then 1 else 0
  }

  /** The call is for exactly this action. */
  predicate IsFor(subject: Id, inv: Invocation, action: Action) {
    && inv.tool == action.tool && inv.arguments == action.arguments
    && subject == action.subject && inv.correlationId == action.correlationId
  }

  /** Event `i` was an invocation of `action` that had to be offered approval `id`, the next free number. */
  ghost predicate CreatedAt(subject: Id, h: History, i: nat, id: nat, action: Action) {
    AsksAt(h, i) && IsFor(subject, h[i].step.invocation, action) && id == Asked(h[..i]) + 1
  }

  /** The first decision on `id` after event `i` was a grant. */
  ghost predicate GrantedAfter(h: History, i: nat, id: nat) {
    exists j :: i < j < |h| && h[j].step == Granting(id) && forall k :: i < k < j ==> h[k].step != Denying(id)
  }

  /** The first decision on `id` after event `i` was a denial. */
  ghost predicate DeniedAfter(h: History, i: nat, id: nat) {
    exists j :: i < j < |h| && h[j].step == Denying(id) && forall k :: i < k < j ==> h[k].step != Granting(id)
  }

  ghost predicate UndecidedAfter(h: History, i: nat, id: nat) {
    forall k :: i < k < |h| ==> h[k].step != Granting(id) && h[k].step != Denying(id)
  }

  /** The history authorises `action` under request `id` at time `now`. */
  ghost predicate Authorised(subject: Id, h: History, id: nat, action: Action, now: int) {
    exists i: nat :: CreatedAt(subject, h, i, id, action) && GrantedAfter(h, i, id) && now <= h[i].now + VALIDITY
  }

  // ------------------------------------------------------- the ledger tells the history

  ghost predicate StatusTells(h: History, i: nat, r: Request, last: int) {
    match r.status
    case PENDING => UndecidedAfter(h, i, r.requestId)
    case GRANTED => GrantedAfter(h, i, r.requestId)
    case EXPIRED => GrantedAfter(h, i, r.requestId) && r.expiresAt < last
    case DENIED => DeniedAfter(h, i, r.requestId)
  }

  ghost predicate Tells(subject: Id, h: History, i: nat, id: nat, action: Action, r: Request, last: int)
    requires i < |h|
  {
    && r.requestId == id && r.actionHash == action && r.tool == action.tool && r.subject == subject
    && h[i].step.Invoke? && r.reason == h[i].step.invocation.reason
    && r.createdAt == h[i].now && r.expiresAt == h[i].now + VALIDITY
    && StatusTells(h, i, r, last)
  }

  ghost predicate Numbered(l: Ledger) {
    forall id :: id in l.requests <==> 1 <= id <= l.counter
  }

  /** Registry and quarantine are what the history says, and ids are given out in turn. */
  ghost predicate ToolsTell(h: History, g: State) {
    && (forall tool :: tool in g.registered <==> RegisteredBy(h, tool))
    && (forall tool :: tool in g.quarantined <==> QuarantinedBy(h, tool))
    && g.ledger.counter == Asked(h)
  }

  ghost predicate Accounted(subject: Id, h: History, l: Ledger, last: int) {
    && Numbered(l)
    && (forall i: nat, id: nat, action :: CreatedAt(subject, h, i, id, action) ==>
          id in l.requests && Tells(subject, h, i, id, action, l.requests[id], last))
    && (forall id :: id in l.requests ==> exists i: nat :: CreatedAt(subject, h, i, id, l.requests[id].actionHash))
  }

  lemma RegisteredNext(h: History, e: Event, tool: Id)
    ensures RegisteredBy(h + [e], tool) <==> RegisteredBy(h, tool) || e.step == Register(tool)
  {
    var h' := h + [e];
    assert h'[|h|] == e && forall k :: 0 <= k < |h| ==> h'[k] == h[k];
    if j :| 0 <= j < |h| && h[j].step == Register(tool) {
      assert h'[j].step == Register(tool);
    }
  }

  lemma QuarantinedNext(h: History, e: Event, tool: Id)
    ensures QuarantinedBy(h + [e], tool) <==>
      (QuarantinedBy(h, tool) && e.step != Lift(tool)) || e.step == Quarantine(tool)
  {
    var h' := h + [e];
    assert h'[|h|] == e && forall k :: 0 <= k < |h| ==> h'[k] == h[k];
    if j :| 0 <= j < |h| && h[j].step == Quarantine(tool) && forall k :: j < k < |h| ==> h[k].step != Lift(tool) {
      assert h'[j].step == Quarantine(tool);
    }
    if j :| 0 <= j < |h'| && h'[j].step == Quarantine(tool) && forall k :: j < k < |h'| ==> h'[k].step != Lift(tool) {
      assert j < |h| ==> h[j].step == Quarantine(tool) && e.step != Lift(tool);
    }
  }

  lemma AskedNext(h: History, e: Event)
    ensures Asked(h + [e]) == Asked(h) + if e.step.Invoke? && Asks(h, e.step.invocation) then 1 else 0
  {
    assert (h + [e])[..|h|] == h;
  }

  lemma CreatedStable(subject: Id, h: History, e: Event, i: nat, id: nat, action: Action)
    requires i < |h|
    ensures CreatedAt(subject, h + [e], i, id, action) <==> CreatedAt(subject, h, i, id, action)
  {
    assert (h + [e])[..i] == h[..i];
  }

  lemma DeniedGrows(h: History, e: Event, i: nat, id: nat)
    requires DeniedAfter(h, i, id)
    ensures DeniedAfter(h + [e], i, id)
  {
    var j :| i < j < |h| && h[j].step == Denying(id) && forall k :: i < k < j ==> h[k].step != Granting(id);
    assert (h + [e])[j].step == Denying(id);
  }

  lemma GrantedGrows(h: History, e: Event, i: nat, id: nat)
    requires i < |h|
    ensures GrantedAfter(h, i, id) ==> GrantedAfter(h + [e], i, id)
    ensures DeniedAfter(h, i, id) ==> DeniedAfter(h + [e], i, id)
    ensures UndecidedAfter(h, i, id) && e.step == Granting(id) ==> GrantedAfter(h + [e], i, id)
    ensures UndecidedAfter(h, i, id) && e.step == Denying(id) ==> DeniedAfter(h + [e], i, id)
    ensures UndecidedAfter(h, i, id) && e.step != Granting(id) && e.step != Denying(id) ==> UndecidedAfter(h + [e], i, id)
  {
    var h' := h + [e];
    assert h'[|h|] == e && forall k :: 0 <= k < |h| ==> h'[k] == h[k];
    if GrantedAfter(h, i, id) {
      var j :| i < j < |h| && h[j].step == Granting(id) && forall k :: i < k < j ==> h[k].step != Denying(id);
      assert h'[j].step == Granting(id);
    }
    if DeniedAfter(h, i, id) {
      DeniedGrows(h, e, i, id);
    }
  }

  /** What one event may do to the record of one request. */
  predicate Evolves(r: Request, r': Request, e: Event) {
    && r' == r.(status := r'.status)
    && match r.status
       case PENDING =>
         if e.step == Granting(r.requestId) then r'.status == GRANTED
         else if e.step == Denying(r.requestId) then r'.status == DENIED
         else r'.status == PENDING
       case GRANTED => r'.status == GRANTED || (r'.status == EXPIRED && r.expiresAt < e.now)
       case EXPIRED => r'.status == EXPIRED
       case DENIED => r'.status == DENIED
  }

  lemma TellsEvolves(subject: Id, h: History, e: Event, i: nat, id: nat, action: Action, r: Request, r': Request, last: int)
    requires i < |h| && Tells(subject, h, i, id, action, r, last) && last <= e.now && Evolves(r, r', e)
    ensures Tells(subject, h + [e], i, id, action, r', e.now)
  {
    GrantedGrows(h, e, i, id);
    assert (h + [e])[i] == h[i];
  }

  lemma LedgerEvolves(subject: Id, g: State, e: Event, id: nat)
    requires Numbered(g.ledger) && id in g.ledger.requests && g.ledger.requests[id].requestId == id
    ensures id in Next(subject, g, e).ledger.requests
    ensures Evolves(g.ledger.requests[id], Next(subject, g, e).ledger.requests[id], e)
  {
  }

  /** An invocation that must be offered an approval gets one, and nothing else creates a request. */
  lemma StepCreates(subject: Id, h: History, g: State, e: Event)
    requires Numbered(g.ledger) && ToolsTell(h, g)
    ensures var l, l' := g.ledger, Next(subject, g, e).ledger;
      && Numbered(l')
      && (if e.step.Invoke? && Asks(h, e.step.invocation) then
            var inv := e.step.invocation;
            && l'.counter == l.counter + 1
            && l'.requests.Keys == l.requests.Keys + {l'.counter}
            && l'.requests[l'.counter] ==
                 Request(l'.counter, Action(inv.tool, inv.arguments, subject, inv.correlationId), inv.tool, subject,
                   inv.reason, e.now, e.now + VALIDITY, PENDING)
          else l'.requests.Keys == l.requests.Keys && l'.counter == l.counter)
  {
  }

  lemma ToolsTellNext(subject: Id, h: History, g: State, e: Event)
    requires Numbered(g.ledger) && ToolsTell(h, g)
    ensures ToolsTell(h + [e], Next(subject, g, e))
  {
    forall tool
      ensures tool in Next(subject, g, e).registered <==> RegisteredBy(h + [e], tool)
      ensures tool in Next(subject, g, e).quarantined <==> QuarantinedBy(h + [e], tool)
    {
      RegisteredNext(h, e, tool);
      QuarantinedNext(h, e, tool);
    }
    AskedNext(h, e);
    StepCreates(subject, h, g, e);
  }

  lemma CreatedIsAccounted(subject: Id, h: History, e: Event, last: int, i: nat, id: nat, action: Action)
    requires Accounted(subject, h, After(subject, h).ledger, last) && ToolsTell(h, After(subject, h)) && last <= e.now
    requires CreatedAt(subject, h + [e], i, id, action)
    ensures var l' := Next(subject, After(subject, h), e).ledger;
      id in l'.requests && Tells(subject, h + [e], i, id, action, l'.requests[id], e.now)
  {
    var h', g := h + [e], After(subject, h);
    assert h'[|h|] == e && h'[..|h|] == h;
    StepCreates(subject, h, g, e);
    if i < |h| {
      CreatedStable(subject, h, e, i, id, action);
      LedgerEvolves(subject, g, e, id);
      TellsEvolves(subject, h, e, i, id, action, g.ledger.requests[id], Next(subject, g, e).ledger.requests[id], last);
    } else {
      assert UndecidedAfter(h', i, id);
    }
  }

  lemma RequestWasCreated(subject: Id, h: History, e: Event, last: int, id: nat)
    requires Accounted(subject, h, After(subject, h).ledger, last) && ToolsTell(h, After(subject, h))
    requires id in Next(subject, After(subject, h), e).ledger.requests
    ensures exists i: nat :: CreatedAt(subject, h + [e], i, id, Next(subject, After(subject, h), e).ledger.requests[id].actionHash)
  {
    var h', g := h + [e], After(subject, h);
    var r' := Next(subject, g, e).ledger.requests[id];
    assert h'[|h|] == e && h'[..|h|] == h;
    StepCreates(subject, h, g, e);
    if id in g.ledger.requests {
      var i: nat :| CreatedAt(subject, h, i, id, g.ledger.requests[id].actionHash);
      CreatedStable(subject, h, e, i, id, g.ledger.requests[id].actionHash);
      LedgerEvolves(subject, g, e, id);
    } else {
      assert CreatedAt(subject, h', |h|, id, r'.actionHash);
    }
  }

  lemma AccountedStep(subject: Id, h: History, e: Event, last: int)
    requires Accounted(subject, h, After(subject, h).ledger, last) && ToolsTell(h, After(subject, h)) && last <= e.now
    ensures Accounted(subject, h + [e], After(subject, h + [e]).ledger, e.now)
    ensures ToolsTell(h + [e], After(subject, h + [e]))
  {
    var h', g := h + [e], After(subject, h);
    assert h'[..|h'| - 1] == h && h'[|h|] == e;
    assert After(subject, h') == Next(subject, g, e);
    StepCreates(subject, h, g, e);
    ToolsTellNext(subject, h, g, e);
    forall i: nat, id: nat, action | CreatedAt(subject, h', i, id, action)
      ensures id in Next(subject, g, e).ledger.requests
      ensures Tells(subject, h', i, id, action, Next(subject, g, e).ledger.requests[id], e.now)
    {
      CreatedIsAccounted(subject, h, e, last, i, id, action);
    }
    forall id | id in Next(subject, g, e).ledger.requests
      ensures exists i: nat :: CreatedAt(subject, h', i, id, Next(subject, g, e).ledger.requests[id].actionHash)
    {
      RequestWasCreated(subject, h, e, last, id);
    }
  }

  /** In every state a tool is registered and quarantined as the history says, and every request in the ledger
      was offered by the history and tells what has become of it. */
  lemma {:induction false} AlwaysAccounted(subject: Id, h: History, last: int)
    requires Ordered(h) && (h != [] ==> last == h[|h| - 1].now)
    ensures Accounted(subject, h, After(subject, h).ledger, last) && ToolsTell(h, After(subject, h))
  {
    if h != [] {
      var init := h[..|h| - 1];
      var before := if init == [] then last else init[|init| - 1].now;
      AlwaysAccounted(subject, init, before);
      AccountedStep(subject, init, h[|h| - 1], before);
      assert h == init + [h[|h| - 1]];
    }
  }

  lemma DecisionsExclusive(h: History, i: nat, id: nat)
    ensures !(GrantedAfter(h, i, id) && DeniedAfter(h, i, id))
    ensures UndecidedAfter(h, i, id) ==> !GrantedAfter(h, i, id) && !DeniedAfter(h, i, id)
  {
  }

  ghost function LastTime(h: History, now: int): int {
    if h == [] then now else h[|h| - 1].now
  }

  /** The record of a created request says what the history says. */
  lemma RecordOf(subject: Id, h: History, now: int, i: nat, id: nat, action: Action)
    requires Ordered(h) && LastTime(h, now) <= now && CreatedAt(subject, h, i, id, action)
    ensures id in After(subject, h).ledger.requests
    ensures Tells(subject, h, i, id, action, After(subject, h).ledger.requests[id], now)
  {
    AlwaysAccounted(subject, h, LastTime(h, now));
  }

  lemma CreatorOf(subject: Id, h: History, now: int, id: nat) returns (i: nat)
    requires Ordered(h) && LastTime(h, now) <= now && id in After(subject, h).ledger.requests
    ensures CreatedAt(subject, h, i, id, After(subject, h).ledger.requests[id].actionHash)
  {
    AlwaysAccounted(subject, h, LastTime(h, now));
    i :| CreatedAt(subject, h, i, id, After(subject, h).ledger.requests[id].actionHash);
  }

  lemma StatusIff(h: History, i: nat, r: Request, now: int)
    requires i < |h| && StatusTells(h, i, r, now)
    ensures r.status == PENDING <==> UndecidedAfter(h, i, r.requestId)
    ensures r.status == DENIED <==> DeniedAfter(h, i, r.requestId)
    ensures r.status == GRANTED || r.status == EXPIRED <==> GrantedAfter(h, i, r.requestId)
    ensures r.status == EXPIRED ==> r.expiresAt < now
  {
    DecisionsExclusive(h, i, r.requestId);
  }

  lemma UsableIffGranted(subject: Id, h: History, i: nat, id: nat, action: Action, r: Request, now: int)
    requires i < |h| && Tells(subject, h, i, id, action, r, now)
    ensures r.status == GRANTED && now <= r.expiresAt <==> GrantedAfter(h, i, id) && now <= h[i].now + VALIDITY
  {
    DecisionsExclusive(h, i, id);
  }

  lemma ResolveIffAuthorised(subject: Id, h: History, now: int, id: nat, action: Action)
    requires Ordered(h) && LastTime(h, now) <= now
    ensures LedgerStep(After(subject, h).ledger, now, Resolve(id, action, subject)).1.Success? <==>
      Authorised(subject, h, id, action, now)
  {
    var l := After(subject, h).ledger;
    if id in l.requests {
      var r := l.requests[id];
      var i := CreatorOf(subject, h, now, id);
      RecordOf(subject, h, now, i, id, r.actionHash);
      UsableIffGranted(subject, h, i, id, r.actionHash, r, now);
    }
    if Authorised(subject, h, id, action, now) {
      var j: nat :| CreatedAt(subject, h, j, id, action) && GrantedAfter(h, j, id) && now <= h[j].now + VALIDITY;
      RecordOf(subject, h, now, j, id, action);
      UsableIffGranted(subject, h, j, id, action, l.requests[id], now);
    }
  }

  lemma ToolsAsTold(subject: Id, h: History, now: int, tool: Id)
    requires Ordered(h) && LastTime(h, now) <= now
    ensures tool in After(subject, h).registered <==> RegisteredBy(h, tool)
    ensures tool in After(subject, h).quarantined <==> QuarantinedBy(h, tool)
  {
    AlwaysAccounted(subject, h, LastTime(h, now));
  }

  /** A handler is called exactly when the tool is registered and not quarantined, neither permission
      nor risk refuses, and the call either needs no approval or presents a request that was created for
      this same action, whose first decision was a grant, and whose deadline has not passed. */
  lemma HandledIff(subject: Id, h: History, now: int, inv: Invocation)
    requires Ordered(h) && LastTime(h, now) <= now
    ensures InvokeStep(subject, After(subject, h), now, inv).1 == Handled <==>
      && Usable(h, inv.tool) && Permitted(inv)
      && (Free(inv)
          || (inv.approvalId.Some? && Authorised(subject, h, inv.approvalId.value, ActionOf(subject, inv), now)))
  {
    ToolsAsTold(subject, h, now, inv.tool);
    if inv.approvalId.Some? {
      ResolveIffAuthorised(subject, h, now, inv.approvalId.value, ActionOf(subject, inv));
    }
  }

  /** Why a call is refused, by the history and the fields of the call. */
  lemma RefusedIff(subject: Id, h: History, now: int, inv: Invocation)
    requires Ordered(h) && LastTime(h, now) <= now
    ensures var outcome := InvokeStep(subject, After(subject, h), now, inv).1;
      && (outcome == Refused(ToolQuarantined) <==> QuarantinedBy(h, inv.tool))
      && (outcome == Refused(UnknownTool) <==> !QuarantinedBy(h, inv.tool) && !RegisteredBy(h, inv.tool))
      && (outcome == Refused(PermissionDenied) <==> Usable(h, inv.tool) && inv.permission == FORBID)
      && (outcome == Refused(RiskDenied) <==> Usable(h, inv.tool) && inv.permission != FORBID && inv.risk == RISKY)
      && (outcome.Refused? && outcome.code.ApprovalInvalid? <==>
            Usable(h, inv.tool) && Permitted(inv) && !Free(inv) && inv.approvalId.Some?
            && !Authorised(subject, h, inv.approvalId.value, ActionOf(subject, inv), now))
  {
    AlwaysAccounted(subject, h, LastTime(h, now));
    HandledIff(subject, h, now, inv);
  }

  /** A call that must be offered an approval gets one, under an id that was never used, and only such a call. */
  lemma OfferedIff(subject: Id, h: History, now: int, inv: Invocation)
    requires Ordered(h) && LastTime(h, now) <= now
    ensures var (after, outcome) := InvokeStep(subject, After(subject, h), now, inv);
      && (outcome.Refused? && outcome.code.ApprovalRequired? <==> Asks(h, inv))
      && (Asks(h, inv) ==>
            && outcome == Refused(ApprovalRequired(Asked(h) + 1))
            && Asked(h) + 1 !in After(subject, h).ledger.requests && Asked(h) + 1 in after.ledger.requests)
  {
    AlwaysAccounted(subject, h, LastTime(h, now));
  }

  /** The answer to a call with a request in the ledger. */
  lemma PresentedAnswer(subject: Id, g: State, now: int, inv: Invocation, id: nat)
    requires inv.approvalId == Some(id) && inv.tool in g.registered && inv.tool !in g.quarantined
    requires Permitted(inv) && !Free(inv) && id in g.ledger.requests && g.ledger.requests[id].subject == subject
    ensures var r := g.ledger.requests[id];
      InvokeStep(subject, g, now, inv).1 ==
        if r.status != GRANTED then Refused(ApprovalInvalid(NotGranted(r.status)))
        else if now > r.expiresAt then Refused(ApprovalInvalid(Lapsed))
        else if IsFor(subject, inv, r.actionHash) then Handled
        else Refused(ApprovalInvalid(WrongAction))
  {
  }

  /** The first call past the deadline is told so and expires the request; every later one finds it expired. */
  lemma LapsesOnce(subject: Id, g: State, now: int, inv: Invocation, later: int)
    requires InvokeStep(subject, g, now, inv).1 == Refused(ApprovalInvalid(Lapsed))
    ensures InvokeStep(subject, InvokeStep(subject, g, now, inv).0, later, inv).1 ==
      Refused(ApprovalInvalid(NotGranted(EXPIRED)))
  {
    var id := inv.approvalId.value;
    ResolveTells(g.ledger, now, id, ActionOf(subject, inv), subject);
    ResolveTells(InvokeStep(subject, g, now, inv).0.ledger, later, id, ActionOf(subject, inv), subject);
  }

  /** Why a presented request is not accepted, by what the history did to it. */
  lemma InvalidBecause(subject: Id, h: History, now: int, inv: Invocation, i: nat, id: nat, action: Action)
    requires Ordered(h) && LastTime(h, now) <= now
    requires inv.approvalId == Some(id) && Usable(h, inv.tool) && Permitted(inv) && !Free(inv)
    requires CreatedAt(subject, h, i, id, action)
    ensures var outcome := InvokeStep(subject, After(subject, h), now, inv).1;
      && (outcome == Refused(ApprovalInvalid(NotGranted(PENDING))) <==> UndecidedAfter(h, i, id))
      && (outcome == Refused(ApprovalInvalid(NotGranted(DENIED))) <==> DeniedAfter(h, i, id))
      && (outcome == Refused(ApprovalInvalid(NotGranted(EXPIRED))) || outcome == Refused(ApprovalInvalid(Lapsed)) <==>
            GrantedAfter(h, i, id) && now > h[i].now + VALIDITY)
      && (outcome == Refused(ApprovalInvalid(WrongAction)) <==>
            GrantedAfter(h, i, id) && now <= h[i].now + VALIDITY && !IsFor(subject, inv, action))
  {
    ToolsAsTold(subject, h, now, inv.tool);
    RecordOf(subject, h, now, i, id, action);
    PresentedAnswer(subject, After(subject, h), now, inv, id);
    StatusIff(h, i, After(subject, h).ledger.requests[id], now);
  }

  /** A request that was granted first authorises its action until its deadline, and no longer. */
  lemma AuthorisedByCreation(subject: Id, h: History, now: int, i: nat, id: nat, action: Action)
    requires Ordered(h) && LastTime(h, now) <= now && CreatedAt(subject, h, i, id, action) && GrantedAfter(h, i, id)
    ensures Authorised(subject, h, id, action, now) <==> now <= h[i].now + VALIDITY
  {
    RecordOf(subject, h, now, i, id, action);
    if Authorised(subject, h, id, action, now) {
      var j: nat :| CreatedAt(subject, h, j, id, action) && GrantedAfter(h, j, id) && now <= h[j].now + VALIDITY;
      RecordOf(subject, h, now, j, id, action);
    }
  }

  /** The way through: a call that must be offered an approval, whose approval is granted before it is denied, is
      handled when it comes back with it, exactly while the tool is usable and until the deadline. */
  lemma ApprovalWorks(subject: Id, h: History, asked: int, inv: Invocation, more: History, now: int)
    requires Asks(h, inv)
    requires var long := h + [Event(asked, Invoke(inv))] + more;
      Ordered(long) && LastTime(long, now) <= now && GrantedAfter(long, |h|, Asked(h) + 1)
    ensures var long := h + [Event(asked, Invoke(inv))] + more;
      InvokeStep(subject, After(subject, long), now, inv.(approvalId := Some(Asked(h) + 1))).1 == Handled <==>
        Usable(long, inv.tool) && now <= asked + VALIDITY
  {
    var long := h + [Event(asked, Invoke(inv))] + more;
    var again := inv.(approvalId := Some(Asked(h) + 1));
    var action := ActionOf(subject, inv);
    assert long[..|h|] == h && long[|h|] == Event(asked, Invoke(inv));
    assert CreatedAt(subject, long, |h|, Asked(h) + 1, action);
    HandledIff(subject, long, now, again);
    AuthorisedByCreation(subject, long, now, |h|, Asked(h) + 1, action);
  }

  /** The shortest way: asked, granted at once, and called again. */
  lemma GrantedAtOnce(subject: Id, h: History, asked: int, granted: int, inv: Invocation, now: int)
    requires Asks(h, inv) && Ordered(h) && LastTime(h, asked) <= asked <= granted <= now <= asked + VALIDITY
    ensures var id := Asked(h) + 1;
      var long := h + [Event(asked, Invoke(inv))] + [Event(granted, Granting(id))];
      InvokeStep(subject, After(subject, long), now, inv.(approvalId := Some(id))).1 == Handled
  {
    var id := Asked(h) + 1;
    var ask, grant := Event(asked, Invoke(inv)), Event(granted, Granting(id));
    StaysUsable(h, ask, inv.tool);
    StaysUsable(h + [ask], grant, inv.tool);
    GrantedNext(h, ask, grant, id);
    OrderedNext(h, ask);
    OrderedNext(h + [ask], grant);
    ApprovalWorks(subject, h, asked, inv, [grant], now);
  }

  lemma StaysUsable(h: History, e: Event, tool: Id)
    requires Usable(h, tool) && e.step != Quarantine(tool)
    ensures Usable(h + [e], tool)
  {
    RegisteredNext(h, e, tool);
    QuarantinedNext(h, e, tool);
  }

  lemma GrantedNext(h: History, ask: Event, grant: Event, id: nat)
    requires grant.step == Granting(id)
    ensures GrantedAfter(h + [ask] + [grant], |h|, id)
  {
    assert (h + [ask] + [grant])[|h| + 1] == grant;
  }

  lemma OrderedNext(h: History, e: Event)
    requires Ordered(h) && LastTime(h, e.now) <= e.now
    ensures Ordered(h + [e])
  {
  }

  lemma {:induction false} DeniedForever(h: History, more: History, i: nat, id: nat)
    requires DeniedAfter(h, i, id)
    ensures DeniedAfter(h + more, i, id)
  {
    if more == [] {
      assert h + more == h;
    } else {
      var init, e := more[..|more| - 1], more[|more| - 1];
      DeniedForever(h, init, i, id);
      DeniedGrows(h + init, e, i, id);
      assert h + more == (h + init) + [e];
    }
  }

  lemma CreatedForever(subject: Id, h: History, more: History, i: nat, id: nat, action: Action)
    requires CreatedAt(subject, h, i, id, action)
    ensures CreatedAt(subject, h + more, i, id, action)
  {
    assert (h + more)[..i] == h[..i] && (h + more)[i] == h[i];
  }

  /** A request that was denied, or whose deadline has passed, never authorises anything again,
      whatever happens afterwards. */
  lemma NeverAuthorisesAgain(subject: Id, h: History, more: History, i: nat, id: nat, action: Action, other: Action, now: int)
    requires Ordered(h + more) && LastTime(h + more, now) <= now
    requires CreatedAt(subject, h, i, id, action)
    requires DeniedAfter(h, i, id) || h[i].now + VALIDITY < now
    ensures !Authorised(subject, h + more, id, other, now)
  {
    var long := h + more;
    CreatedForever(subject, h, more, i, id, action);
    if DeniedAfter(h, i, id) {
      DeniedForever(h, more, i, id);
    }
    RecordOf(subject, long, now, i, id, action);
    var r := After(subject, long).ledger.requests[id];
    assert long[i] == h[i];
    DecisionsExclusive(long, i, id);
    UsableIffGranted(subject, long, i, id, action, r, now);
    forall j: nat | CreatedAt(subject, long, j, id, other)
      ensures !(GrantedAfter(long, j, id) && now <= long[j].now + VALIDITY)
    {
      RecordOf(subject, long, now, j, id, other);
      UsableIffGranted(subject, long, j, id, other, r, now);
    }
  }

  lemma {:induction false} GrantedForever(h: History, more: History, i: nat, id: nat)
    requires i < |h| && GrantedAfter(h, i, id)
    ensures GrantedAfter(h + more, i, id)
  {
    if more == [] {
      assert h + more == h;
    } else {
      var init, e := more[..|more| - 1], more[|more| - 1];
      GrantedForever(h, init, i, id);
      GrantedGrows(h + init, e, i, id);
      assert h + more == (h + init) + [e];
    }
  }

  /** Once granted, a request authorises its action at any later time up to its deadline, whatever happens in
      between. */
  lemma AuthorisedForever(
    subject: Id, h: History, more: History, id: nat, action: Action, now: int, later: int)
    requires Ordered(h) && LastTime(h, now) <= now && Authorised(subject, h, id, action, now)
    requires Ordered(h + more) && LastTime(h + more, later) <= later
    ensures id in After(subject, h).ledger.requests
    ensures Authorised(subject, h + more, id, action, later) <==>
      later <= After(subject, h).ledger.requests[id].expiresAt
  {
    var long := h + more;
    var i: nat :| CreatedAt(subject, h, i, id, action) && GrantedAfter(h, i, id) && now <= h[i].now + VALIDITY;
    RecordOf(subject, h, now, i, id, action);
    CreatedForever(subject, h, more, i, id, action);
    GrantedForever(h, more, i, id);
    RecordOf(subject, long, later, i, id, action);
    assert long[i] == h[i];
    if Authorised(subject, long, id, action, later) {
      var j: nat :| CreatedAt(subject, long, j, id, action) && GrantedAfter(long, j, id) && later <= long[j].now + VALIDITY;
      RecordOf(subject, long, later, j, id, action);
    }
  }

  /** A grant is not used up: after a call that it authorised, and whatever follows, the same call is handled
      again exactly while the tool is usable and the deadline has not passed. */
  lemma GrantsAreReusable(subject: Id, h: History, inv: Invocation, now: int, more: History, later: int)
    requires Ordered(h) && LastTime(h, now) <= now
    requires NeedsApproval(inv) && InvokeStep(subject, After(subject, h), now, inv).1 == Handled
    requires Ordered(h + ([Event(now, Invoke(inv))] + more))
    requires LastTime(h + ([Event(now, Invoke(inv))] + more), later) <= later
    ensures inv.approvalId.Some? && inv.approvalId.value in After(subject, h).ledger.requests
    ensures var after := After(subject, h + ([Event(now, Invoke(inv))] + more));
      InvokeStep(subject, after, later, inv).1 == Handled <==>
        && Usable(h + ([Event(now, Invoke(inv))] + more), inv.tool)
        && later <= After(subject, h).ledger.requests[inv.approvalId.value].expiresAt
  {
    var since := [Event(now, Invoke(inv))] + more;
    HandledIff(subject, h, now, inv);
    HandledIff(subject, h + since, later, inv);
    AuthorisedForever(subject, h, since, inv.approvalId.value, ActionOf(subject, inv), now, later);
  }
}
