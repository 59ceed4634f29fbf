/** The context engine: budgeted assembly of message segments. */
module ContextAssembly {
  import opened Ordering

  datatype Message = Message(role: string, content: string)

  datatype Segment = Segment(message: Message, isProtected: bool, estTokens: int)

  datatype ContextError = BadBudget | BudgetExceeded(protectedTotal: int)

  /** `ContextSegment.from_message`: four characters a token, at least one token. */
  function FromMessage(m: Message, isProtected: bool): Segment {
    var quarter := |m.content| / 4;
    Segment(m, isProtected, if quarter > 1 then quarter else 1)
  }

  /** The estimate is the number of whole groups of four characters, and one for a shorter message. */
  lemma EstimateTells(m: Message, isProtected: bool)
    ensures var s := FromMessage(m, isProtected);
      && s.message == m && s.isProtected == isProtected && s.estTokens >= 1
      && |m.content| < 4 * s.estTokens + 4 && (s.estTokens > 1 ==> 4 * s.estTokens <= |m.content|)
  {
  }

  function Total(segments: seq<Segment>): int {
    if segments == [] then 0 else Total(segments[..|segments| - 1]) + segments[|segments| - 1].estTokens
  }

  predicate Protected(s: Segment) {
    s.isProtected
  }

  predicate Droppable(s: Segment) {
    !s.isProtected
  }

  function ProtectedTotal(segments: seq<Segment>): int {
    Total(Filter(Protected, segments))
  }

  // ------------------------------------------------------- choices

  /** A choice marks the segments that are sent. */
  type Choice = seq<bool>

  function Select(segments: seq<Segment>, choice: Choice): seq<Segment>
    requires |choice| == |segments|
  {
    if segments == [] then []
    else
      var k := |segments| - 1;
      var older := Select(segments[..k], choice[..k]);
      if choice[k] then older + [segments[k]] else older
  }

  /** Newest first: protected segments always, others while they fit in what remains. */
  function Newest(segments: seq<Segment>, remaining: int): (choice: Choice)
    ensures |choice| == |segments|
  {
    if segments == [] then []
    else
      var k := |segments| - 1;
      if segments[k].isProtected then Newest(segments[..k], remaining) + [true]
      else if remaining > 0 && segments[k].estTokens <= remaining then
        Newest(segments[..k], remaining - segments[k].estTokens) + [true]
      else Newest(segments[..k], remaining) + [false]
  }

  function ChoiceFor(segments: seq<Segment>, budget: int): (choice: Choice)
    ensures |choice| == |segments|
  {
    Newest(segments, budget - ProtectedTotal(segments))
  }

  predicate KeepsProtected(segments: seq<Segment>, choice: Choice) {
    |choice| == |segments| && forall i :: 0 <= i < |segments| && segments[i].isProtected ==> choice[i]
  }

  function Cost(segments: seq<Segment>, choice: Choice): int
    requires |choice| == |segments|
  {
    Total(Select(segments, choice))
  }

  // ------------------------------------------------------- the assembly

  /** `segments.index(s)`, past the end for a segment that is not there. */
  function FirstIndex(segments: seq<Segment>, s: Segment): nat {
    if s in segments then IndexOf(segments, s) else |segments|
  }

  function ByFirstIndex(segments: seq<Segment>): (Segment, Segment) -> bool {
    (a: Segment, b: Segment) => FirstIndex(segments, a) <= FirstIndex(segments, b)
  }

  /** The droppable segments that the loop keeps, newest first. */
  function KeptNewestFirst(droppable: seq<Segment>, remaining: int): seq<Segment> {
    if droppable == [] || remaining <= 0 then []
    else
      var init, last := droppable[..|droppable| - 1], droppable[|droppable| - 1];
      if last.estTokens <= remaining then [last] + KeptNewestFirst(init, remaining - last.estTokens)
      else KeptNewestFirst(init, remaining)
  }

  function Reverse(s: seq<Segment>): seq<Segment> {
    if s == [] then [] else Reverse(s[1..]) + [s[0]]
  }

  /** The segments that are sent, in the order in which they are sent. */
  function Assembled(segments: seq<Segment>, budget: int): seq<Segment> {
    Restored(segments, KeptNewestFirst(Filter(Droppable, segments), budget - ProtectedTotal(segments)))
  }

  /** The protected and the kept segments, back in the order in which each first occurs. */
  function Restored(segments: seq<Segment>, kept: seq<Segment>): seq<Segment> {
    SortBy(ByFirstIndex(segments), Filter(Protected, segments) + Reverse(kept))
  }

  function Messages(segments: seq<Segment>): (messages: seq<Message>)
    ensures AreMessagesOf(messages, segments)
  {
    if segments == [] then [] else Messages(segments[..|segments| - 1]) + [segments[|segments| - 1].message]
  }

  /** One message for each segment, in the same order. */
  predicate AreMessagesOf(messages: seq<Message>, segments: seq<Segment>) {
    |messages| == |segments| && forall i :: 0 <= i < |segments| ==> messages[i] == segments[i].message
  }

  /** The selection loop of `assemble`, from the newest droppable segment back. */
  method SelectNewest(droppable: seq<Segment>, budget: int) returns (kept: seq<Segment>)
    ensures kept == KeptNewestFirst(droppable, budget)
  {
    var remaining := budget;
    var k: nat := |droppable|;
    kept := [];
    SelectingStarts(droppable, budget);
    while k > 0 && remaining > 0
      invariant Selecting(droppable, budget, k, remaining, kept)
    {
      var segment := droppable[k - 1];
      SelectingStep(droppable, budget, k, remaining, kept);
      if segment.estTokens <= remaining {
        kept := kept + [segment];
        remaining := remaining - segment.estTokens;
      }
      k := k - 1;
    }
    SelectingEnds(droppable, budget, k, remaining, kept);
  }

  /** `assemble` after its checks. */
  method ChooseSegments(segments: seq<Segment>, budget: int) returns (sent: seq<Segment>)
    ensures sent == Assembled(segments, budget)
  {
    var kept := SelectNewest(Filter(Droppable, segments), budget - ProtectedTotal(segments));
    sent := Restored(segments, kept);
  }

  /** The message of each segment that is sent. */
  method SendMessages(segments: seq<Segment>, budget: int) returns (sent: seq<Message>)
    ensures sent == Messages(Assembled(segments, budget)) && AreMessagesOf(sent, Assembled(segments, budget))
  {
    var chosen := ChooseSegments(segments, budget);
    sent := Messages(chosen);
  }

  /** `ContextEngine.assemble`. */
  method Assemble(segments: seq<Segment>, budget: int) returns (r: Result<seq<Message>, ContextError>)
    ensures r.Failure? <==> budget < 1 || ProtectedTotal(segments) > budget
    ensures r.Failure? ==>
      r.error == if budget < 1 then BadBudget else BudgetExceeded(ProtectedTotal(segments))
    ensures r.Success? ==> AreMessagesOf(r.value, Assembled(segments, budget))
  {
    if budget < 1 {
      return Failure(BadBudget);
    }
    var protectedTotal := ProtectedTotal(segments);
    if protectedTotal > budget {
      return Failure(BudgetExceeded(protectedTotal));
    }
    var sent := SendMessages(segments, budget);
    r := Success(sent);
  }

  // ------------------------------------------------------- the loop makes the newest-first choice

  lemma FilterLast<T(!new)>(keep: T -> bool, s: seq<T>)
    requires s != []
    ensures var init, last := s[..|s| - 1], s[|s| - 1];
      Filter(keep, s) == if keep(last) then Filter(keep, init) + [last] else Filter(keep, init)
  {
    var init, last := s[..|s| - 1], s[|s| - 1];
    assert s == init + [last];
    FilterAppend(keep, init, [last]);
    assert [last][1..] == [];
  }

  lemma KeptNext(droppable: seq<Segment>, s: Segment, remaining: int)
    ensures KeptNewestFirst(droppable + [s], remaining) ==
      if remaining <= 0 then []
      else if s.estTokens <= remaining then [s] + KeptNewestFirst(droppable, remaining - s.estTokens)
      else KeptNewestFirst(droppable, remaining)
  {
    assert (droppable + [s])[..|droppable|] == droppable;
  }

  /** The selection loop, with the droppable segments from `k` on decided. */
  ghost predicate Selecting(droppable: seq<Segment>, total: int, k: nat, remaining: int, kept: seq<Segment>) {
    k <= |droppable| && kept + KeptNewestFirst(droppable[..k], remaining) == KeptNewestFirst(droppable, total)
  }

  lemma SelectingStarts(droppable: seq<Segment>, total: int)
    ensures Selecting(droppable, total, |droppable|, total, [])
  {
    assert droppable[..|droppable|] == droppable;
  }

  lemma SelectingStep(droppable: seq<Segment>, total: int, k: nat, remaining: int, kept: seq<Segment>)
    requires Selecting(droppable, total, k, remaining, kept) && k > 0 && remaining > 0
    ensures var segment := droppable[k - 1];
      if segment.estTokens <= remaining
      then Selecting(droppable, total, k - 1, remaining - segment.estTokens, kept + [segment])
      else Selecting(droppable, total, k - 1, remaining, kept)
  {
    var segment := droppable[k - 1];
    assert droppable[..k] == droppable[..k - 1] + [segment];
    KeptNext(droppable[..k - 1], segment, remaining);
  }

  lemma SelectingEnds(droppable: seq<Segment>, total: int, k: nat, remaining: int, kept: seq<Segment>)
    requires Selecting(droppable, total, k, remaining, kept) && (k == 0 || remaining <= 0)
    ensures kept == KeptNewestFirst(droppable, total)
  {
  }

  /** What is left for the older segments once the newest one has been decided. */
  function Left(s: Segment, remaining: int): int {
    if !s.isProtected && remaining > 0 && s.estTokens <= remaining then remaining - s.estTokens else remaining
  }

  predicate Keeps(s: Segment, remaining: int) {
    s.isProtected || (remaining > 0 && s.estTokens <= remaining)
  }

  lemma NewestNext(segments: seq<Segment>, remaining: int)
    requires segments != []
    ensures var k := |segments| - 1;
      Newest(segments, remaining) == Newest(segments[..k], Left(segments[k], remaining)) + [Keeps(segments[k], remaining)]
  {
  }

  lemma SelectNext(segments: seq<Segment>, choice: Choice, s: Segment, b: bool)
    requires |choice| == |segments|
    ensures Select(segments + [s], choice + [b]) == if b then Select(segments, choice) + [s] else Select(segments, choice)
  {
    assert (segments + [s])[..|segments|] == segments && (choice + [b])[..|choice|] == choice;
  }

  lemma LoopStep(
    p: seq<Segment>, d: seq<Segment>, chosen: seq<Segment>,
    p': seq<Segment>, d': seq<Segment>, chosen': seq<Segment>, s: Segment, remaining: int)
    requires multiset(chosen) == multiset(p) + multiset(KeptNewestFirst(d, Left(s, remaining)))
    requires p' == if s.isProtected then p + [s] else p
    requires d' == if s.isProtected then d else d + [s]
    requires chosen' == if Keeps(s, remaining) then chosen + [s] else chosen
    ensures multiset(chosen') == multiset(p') + multiset(KeptNewestFirst(d', remaining))
  {
    if !s.isProtected {
      KeptNext(d, s, remaining);
      if Keeps(s, remaining) {
        var older := KeptNewestFirst(d, remaining - s.estTokens);
        assert multiset([s] + older) == multiset{s} + multiset(older);
      }
    }
  }

  lemma SelectNewestNext(segments: seq<Segment>, remaining: int)
    requires segments != []
    ensures var k := |segments| - 1;
      var older := Select(segments[..k], Newest(segments[..k], Left(segments[k], remaining)));
      Select(segments, Newest(segments, remaining)) ==
        if Keeps(segments[k], remaining) then older + [segments[k]] else older
  {
    var k := |segments| - 1;
    var init, left := segments[..k], Left(segments[k], remaining);
    NewestNext(segments, remaining);
    SelectNext(init, Newest(init, left), segments[k], Keeps(segments[k], remaining));
    assert segments == init + [segments[k]];
  }

  ghost predicate LoopMatches(segments: seq<Segment>, remaining: int) {
    multiset(Select(segments, Newest(segments, remaining))) ==
      multiset(Filter(Protected, segments)) + multiset(KeptNewestFirst(Filter(Droppable, segments), remaining))
  }

  lemma LoopMatchesStep(segments: seq<Segment>, remaining: int)
    requires segments != []
    requires var k := |segments| - 1; LoopMatches(segments[..k], Left(segments[k], remaining))
    ensures LoopMatches(segments, remaining)
  {
    var k := |segments| - 1;
    var init, s := segments[..k], segments[k];
    SelectNewestNext(segments, remaining);
    FilterLast(Protected, segments);
    FilterLast(Droppable, segments);
    LoopStep(Filter(Protected, init), Filter(Droppable, init), Select(init, Newest(init, Left(s, remaining))),
      Filter(Protected, segments), Filter(Droppable, segments), Select(segments, Newest(segments, remaining)),
      s, remaining);
  }

  lemma {:induction false} LoopChooses(segments: seq<Segment>, remaining: int)
    ensures LoopMatches(segments, remaining)
  {
    if segments != [] {
      var k := |segments| - 1;
      LoopChooses(segments[..k], Left(segments[k], remaining));
      LoopMatchesStep(segments, remaining);
    }
  }

  lemma {:induction false} ReverseMultiset(s: seq<Segment>)
    ensures multiset(Reverse(s)) == multiset(s)
  {
    if s != [] {
      ReverseMultiset(s[1..]);
      assert s == [s[0]] + s[1..];
    }
  }

  lemma SortedParts(le: (Segment, Segment) -> bool, p: seq<Segment>, kept: seq<Segment>, chosen: seq<Segment>)
    requires multiset(chosen) == multiset(p) + multiset(kept)
    ensures multiset(SortBy(le, p + Reverse(kept))) == multiset(chosen)
    ensures multiset(p) <= multiset(chosen)
  {
    ReverseMultiset(kept);
  }

  /** What is sent is the newest-first choice, and no segment is added, lost or duplicated. */
  lemma AssembledIsChoice(segments: seq<Segment>, budget: int)
    ensures multiset(Assembled(segments, budget)) == multiset(Select(segments, ChoiceFor(segments, budget)))
    ensures multiset(Filter(Protected, segments)) <= multiset(Assembled(segments, budget))
  {
    var remaining := budget - ProtectedTotal(segments);
    LoopChooses(segments, remaining);
    SortedParts(ByFirstIndex(segments), Filter(Protected, segments),
      KeptNewestFirst(Filter(Droppable, segments), remaining), Select(segments, ChoiceFor(segments, budget)));
  }

  // ------------------------------------------------------- protected, within budget

  lemma {:induction false} NewestKeepsProtected(segments: seq<Segment>, remaining: int)
    ensures KeepsProtected(segments, Newest(segments, remaining))
  {
    if segments != [] {
      var k := |segments| - 1;
      NewestKeepsProtected(segments[..k], Left(segments[k], remaining));
    }
  }

  lemma TotalNext(s: seq<Segment>, last: Segment)
    ensures Total(s + [last]) == Total(s) + last.estTokens
  {
    assert (s + [last])[..|s|] == s;
  }

  lemma ProtectedTotalNext(segments: seq<Segment>)
    requires segments != []
    ensures var k := |segments| - 1;
      ProtectedTotal(segments) ==
        ProtectedTotal(segments[..k]) + if segments[k].isProtected then segments[k].estTokens else 0
  {
    var k := |segments| - 1;
    FilterLast(Protected, segments);
    if segments[k].isProtected {
      TotalNext(Filter(Protected, segments[..k]), segments[k]);
    }
  }

  lemma CostNext(segments: seq<Segment>, choice: Choice)
    requires segments != [] && |choice| == |segments|
    ensures var k := |segments| - 1;
      Cost(segments, choice) == Cost(segments[..k], choice[..k]) + if choice[k] then segments[k].estTokens else 0
  {
    var k := |segments| - 1;
    if choice[k] {
      TotalNext(Select(segments[..k], choice[..k]), segments[k]);
    }
  }

  lemma {:induction false} NewestFits(segments: seq<Segment>, remaining: int)
    requires remaining >= 0
    ensures Cost(segments, Newest(segments, remaining)) <= ProtectedTotal(segments) + remaining
  {
    if segments != [] {
      var k := |segments| - 1;
      NewestFits(segments[..k], Left(segments[k], remaining));
      NewestNext(segments, remaining);
      ProtectedTotalNext(segments);
      CostNext(segments, Newest(segments, remaining));
    }
  }

  lemma {:induction false} TotalByMultiset(a: seq<Segment>, b: seq<Segment>)
    requires multiset(a) == multiset(b)
    ensures Total(a) == Total(b)
  {
    SameMultisetSameElements(a, b);
    if a != [] {
      var k := |a| - 1;
      var i := FindLast(a, b);
      TotalByMultiset(a[..k], b[..i] + b[i + 1..]);
      RemoveFromTotal(b, i);
    }
  }

  lemma FindLast(a: seq<Segment>, b: seq<Segment>) returns (i: nat)
    requires a != [] && multiset(a) == multiset(b)
    ensures i < |b| && b[i] == a[|a| - 1]
    ensures multiset(a[..|a| - 1]) == multiset(b[..i] + b[i + 1..])
  {
    SameMultisetSameElements(a, b);
    var k := |a| - 1;
    assert a[k] in b;
    i :| 0 <= i < |b| && b[i] == a[k];
    assert a == a[..k] + [a[k]];
    assert b == b[..i] + [b[i]] + b[i + 1..];
    assert multiset(a[..k]) == multiset(a) - multiset{a[k]};
    assert multiset(b[..i] + b[i + 1..]) == multiset(b) - multiset{b[i]};
  }

  lemma {:induction false} RemoveFromTotal(b: seq<Segment>, i: nat)
    requires i < |b|
    ensures Total(b) == Total(b[..i] + b[i + 1..]) + b[i].estTokens
  {
    var k := |b| - 1;
    if i == k {
      assert b[..i] + b[i + 1..] == b[..k];
    } else {
      RemoveFromTotal(b[..k], i);
      assert b[..i] + b[i + 1..] == (b[..k][..i] + b[..k][i + 1..]) + [b[k]];
      TotalNext(b[..k][..i] + b[..k][i + 1..], b[k]);
    }
  }

  /** The messages that are sent never exceed the budget, and every protected one is among them. */
  lemma WithinBudget(segments: seq<Segment>, budget: int)
    requires ProtectedTotal(segments) <= budget
    ensures Total(Assembled(segments, budget)) <= budget
    ensures multiset(Filter(Protected, segments)) <= multiset(Assembled(segments, budget))
  {
    AssembledIsChoice(segments, budget);
    NewestFits(segments, budget - ProtectedTotal(segments));
    TotalByMultiset(Assembled(segments, budget), Select(segments, ChoiceFor(segments, budget)));
  }
}
