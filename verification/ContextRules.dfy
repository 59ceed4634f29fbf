/** Which choice the context engine makes, and in which order it sends it. */
module ContextRules {
  import opened Ordering
  import opened ContextAssembly

  /** A budget that `assemble` does not refuse. */
  predicate Accepted(segments: seq<Segment>, budget: int) {
    budget >= 1 && ProtectedTotal(segments) <= budget
  }

  // ------------------------------------------------------- no feasible choice keeps something newer

  /** At the newest segment where the two differ, `better` keeps it and `other` does not. */
  predicate Beats(better: Choice, other: Choice) {
    && |better| == |other|
    && exists j :: 0 <= j < |better| && better[j] && !other[j] && better[j + 1..] == other[j + 1..]
  }

  lemma BeatsExtends(better: Choice, other: Choice, b: bool)
    requires Beats(better, other)
    ensures Beats(better + [b], other + [b])
  {
    var j :| 0 <= j < |better| && better[j] && !other[j] && better[j + 1..] == other[j + 1..];
    assert (better + [b])[j + 1..] == better[j + 1..] + [b];
    assert (other + [b])[j + 1..] == other[j + 1..] + [b];
    assert (better + [b])[j] && !(other + [b])[j];
  }

  /** The choice keeps every protected segment and fits the budget. */
  predicate Feasible(segments: seq<Segment>, budget: int, choice: Choice) {
    KeepsProtected(segments, choice) && Cost(segments, choice) <= budget
  }

  /** Recent context wins: every other feasible choice loses at the newest segment where it differs. */
  ghost predicate BestAt(segments: seq<Segment>, budget: int) {
    forall other :: Feasible(segments, budget, other) ==>
      other == ChoiceFor(segments, budget) || Beats(ChoiceFor(segments, budget), other)
  }

  /** No droppable segment has a negative estimate. */
  predicate NonNegative(segments: seq<Segment>) {
    forall i :: 0 <= i < |segments| && !segments[i].isProtected ==> segments[i].estTokens >= 0
  }

  /** What the droppable segments that are newer than segment `i` cost. */
  function NewerTotal(segments: seq<Segment>, i: nat): int
    requires i < |segments|
  {
    var k := |segments| - 1;
    if i == k then 0
    else NewerTotal(segments[..k], i) + if segments[k].isProtected then 0 else segments[k].estTokens
  }

  predicate Free(s: Segment) {
    !s.isProtected && s.estTokens == 0
  }

  lemma {:induction false} CostAtLeastProtected(segments: seq<Segment>, choice: Choice)
    requires NonNegative(segments) && KeepsProtected(segments, choice)
    ensures Cost(segments, choice) >= ProtectedTotal(segments)
  {
    if segments != [] {
      var k := |segments| - 1;
      CostAtLeastProtected(segments[..k], choice[..k]);
      ProtectedTotalNext(segments);
      CostNext(segments, choice);
    }
  }

  /** Enough is left at every free segment, even after all droppable segments newer than it. */
  ghost predicate LeavesRoom(segments: seq<Segment>, remaining: int) {
    forall i :: 0 <= i < |segments| && Free(segments[i]) ==> NewerTotal(segments, i) < remaining
  }

  lemma LeavesRoomBelow(segments: seq<Segment>, remaining: int)
    requires segments != [] && NonNegative(segments) && LeavesRoom(segments, remaining)
    ensures LeavesRoom(segments[..|segments| - 1], Left(segments[|segments| - 1], remaining))
  {
    var k := |segments| - 1;
    forall i | 0 <= i < k && Free(segments[..k][i])
      ensures NewerTotal(segments[..k], i) < Left(segments[k], remaining)
    {
      assert Free(segments[i]) && NewerTotal(segments, i) < remaining;
    }
  }

  /** The newest segment is kept whenever a feasible choice keeps it. */
  lemma NewestKept(segments: seq<Segment>, remaining: int, other: Choice)
    requires segments != [] && NonNegative(segments) && LeavesRoom(segments, remaining)
    requires KeepsProtected(segments, other) && Cost(segments, other) <= ProtectedTotal(segments) + remaining
    ensures var k := |segments| - 1; var left := Left(segments[k], remaining);
      && (other[k] ==> Keeps(segments[k], remaining))
      && (other[k] == Keeps(segments[k], remaining) ==>
            Cost(segments[..k], other[..k]) <= ProtectedTotal(segments[..k]) + left)
  {
    var k := |segments| - 1;
    ProtectedTotalNext(segments);
    CostNext(segments, other);
    CostAtLeastProtected(segments[..k], other[..k]);
    if Free(segments[k]) {
      assert NewerTotal(segments, k) == 0 < remaining;
    }
  }

  lemma {:induction false} NewestIsBest(segments: seq<Segment>, remaining: int, other: Choice)
    requires NonNegative(segments) && LeavesRoom(segments, remaining)
    requires KeepsProtected(segments, other) && Cost(segments, other) <= ProtectedTotal(segments) + remaining
    ensures other == Newest(segments, remaining) || Beats(Newest(segments, remaining), other)
  {
    if segments != [] {
      var k := |segments| - 1;
      var init, rest := segments[..k], other[..k];
      var left, keep := Left(segments[k], remaining), Keeps(segments[k], remaining);
      NewestNext(segments, remaining);
      NewestKept(segments, remaining, other);
      LeavesRoomBelow(segments, remaining);
      assert other == rest + [other[k]];
      if other[k] == keep {
        NewestIsBest(init, left, rest);
        if rest != Newest(init, left) {
          BeatsExtends(Newest(init, left), rest, keep);
        }
      } else {
        var best := Newest(segments, remaining);
        assert best[k] && !other[k] && best[k + 1..] == other[k + 1..];
      }
    }
  }

  /** If exactly what is newer than segment `i` fits, the loop stops before it. */
  lemma {:induction false} SpentBefore(segments: seq<Segment>, i: nat)
    requires NonNegative(segments) && i < |segments| && !segments[i].isProtected
    ensures !Newest(segments, NewerTotal(segments, i))[i]
  {
    var k := |segments| - 1;
    NewestNext(segments, NewerTotal(segments, i));
    if i < k {
      NewerNonNegative(segments[..k], i);
      SpentBefore(segments[..k], i);
    }
  }

  lemma {:induction false} NewerNonNegative(segments: seq<Segment>, i: nat)
    requires NonNegative(segments) && i < |segments|
    ensures NewerTotal(segments, i) >= 0
  {
    if i < |segments| - 1 {
      NewerNonNegative(segments[..|segments| - 1], i);
    }
  }

  lemma {:induction false} CostAdds(segments: seq<Segment>, choice: Choice, i: nat)
    requires |choice| == |segments| && i < |segments| && !choice[i]
    ensures Cost(segments, choice[i := true]) == Cost(segments, choice) + segments[i].estTokens
  {
    var k := |segments| - 1;
    CostNext(segments, choice);
    CostNext(segments, choice[i := true]);
    if i < k {
      CostAdds(segments[..k], choice[..k], i);
      assert choice[i := true][..k] == choice[..k][i := true];
    } else {
      assert choice[i := true][..k] == choice[..k];
    }
  }

  lemma AddedIsNotBeaten(better: Choice, i: nat)
    requires i < |better| && !better[i]
    ensures !Beats(better, better[i := true]) && better[i := true] != better
  {
  }

  /** A dropped segment that would still fit refutes the choice. */
  lemma DroppedButFits(segments: seq<Segment>, budget: int, i: nat)
    requires ProtectedTotal(segments) <= budget && i < |segments| && segments[i].estTokens <= 0
    requires !ChoiceFor(segments, budget)[i]
    ensures !BestAt(segments, budget)
  {
    var choice := ChoiceFor(segments, budget);
    NewestKeepsProtected(segments, budget - ProtectedTotal(segments));
    NewestFits(segments, budget - ProtectedTotal(segments));
    CostAdds(segments, choice, i);
    AddedIsNotBeaten(choice, i);
    assert Feasible(segments, budget, choice[i := true]);
  }

  /** Whatever the budget, something is left when the loop comes to a segment that costs nothing. */
  predicate FreeIsSafe(segments: seq<Segment>) {
    forall i :: 0 <= i < |segments| && Free(segments[i]) ==> ProtectedTotal(segments) + NewerTotal(segments, i) <= 0
  }

  /** The choice is the best one at every accepted budget exactly when no segment that costs nothing can be
      reached with the budget used up: the loop stops there although the segment fits. */
  lemma BestIff(segments: seq<Segment>)
    requires NonNegative(segments)
    ensures (forall budget :: Accepted(segments, budget) ==> BestAt(segments, budget)) <==> FreeIsSafe(segments)
  {
    if FreeIsSafe(segments) {
      forall budget | Accepted(segments, budget)
        ensures BestAt(segments, budget)
      {
        SafeIsBest(segments, budget);
      }
    } else {
      var i :| 0 <= i < |segments| && Free(segments[i]) && ProtectedTotal(segments) + NewerTotal(segments, i) >= 1;
      var budget := ProtectedTotal(segments) + NewerTotal(segments, i);
      NewerNonNegative(segments, i);
      SpentBefore(segments, i);
      assert Accepted(segments, budget);
      DroppedButFits(segments, budget, i);
    }
  }

  lemma SafeIsBest(segments: seq<Segment>, budget: int)
    requires NonNegative(segments) && FreeIsSafe(segments) && Accepted(segments, budget)
    ensures BestAt(segments, budget)
  {
    forall other | Feasible(segments, budget, other)
      ensures other == ChoiceFor(segments, budget) || Beats(ChoiceFor(segments, budget), other)
    {
      NewestIsBest(segments, budget - ProtectedTotal(segments), other);
    }
  }

  /** A segment that costs nothing meets one that costs something: a protected one, or a newer droppable one. */
  predicate FreeMeetsPaid(segments: seq<Segment>) {
    exists i, j :: 0 <= i < |segments| && 0 <= j < |segments| && Free(segments[i]) && segments[j].estTokens > 0
      && (segments[j].isProtected || i < j)
  }

  /** Where the protected segments are not negative either, the condition is that no free segment meets a paid
      one. */
  lemma FreeIsSafeIff(segments: seq<Segment>)
    requires forall i :: 0 <= i < |segments| ==> segments[i].estTokens >= 0
    ensures FreeIsSafe(segments) <==> !FreeMeetsPaid(segments)
  {
    ProtectedPositiveIff(segments);
    forall i | 0 <= i < |segments|
      ensures NewerTotal(segments, i) >= 0
      ensures NewerTotal(segments, i) > 0 <==>
        exists j :: i < j < |segments| && !segments[j].isProtected && segments[j].estTokens > 0
    {
      NewerPositiveIff(segments, i);
    }
    if FreeMeetsPaid(segments) {
      var i, j :| 0 <= i < |segments| && 0 <= j < |segments| && Free(segments[i]) && segments[j].estTokens > 0
        && (segments[j].isProtected || i < j);
      assert ProtectedTotal(segments) + NewerTotal(segments, i) > 0;
    }
  }

  lemma {:induction false} ProtectedPositiveIff(segments: seq<Segment>)
    requires forall i :: 0 <= i < |segments| ==> segments[i].estTokens >= 0
    ensures ProtectedTotal(segments) >= 0
    ensures ProtectedTotal(segments) > 0 <==>
      exists j :: 0 <= j < |segments| && segments[j].isProtected && segments[j].estTokens > 0
  {
    if segments != [] {
      var k := |segments| - 1;
      ProtectedPositiveIff(segments[..k]);
      ProtectedTotalNext(segments);
      assert forall j :: 0 <= j < k ==> segments[..k][j] == segments[j];
    }
  }

  lemma {:induction false} NewerPositiveIff(segments: seq<Segment>, i: nat)
    requires i < |segments| && forall j :: 0 <= j < |segments| ==> segments[j].estTokens >= 0
    ensures NewerTotal(segments, i) >= 0
    ensures NewerTotal(segments, i) > 0 <==>
      exists j :: i < j < |segments| && !segments[j].isProtected && segments[j].estTokens > 0
  {
    var k := |segments| - 1;
    if i < k {
      NewerPositiveIff(segments[..k], i);
      assert forall j :: 0 <= j < k ==> segments[..k][j] == segments[j];
    }
  }

  /** The smallest case: a free segment older than a pinned one that uses up the budget. */
  lemma FreeSegmentIsDropped(m: Message)
    ensures var segments := [Segment(m, false, 0), Segment(m, true, 1)];
      ChoiceFor(segments, 1) == [false, true] && Cost(segments, [true, true]) <= 1
  {
    var free, pinned := Segment(m, false, 0), Segment(m, true, 1);
    var segments := [free, pinned];
    assert segments[..1] == [free] && [free][..0] == [] && [pinned][..0] == [] && segments[1..] == [pinned];
    assert Filter(Protected, [pinned]) == [pinned] by {
      assert [pinned][1..] == [];
    }
    assert Filter(Protected, segments) == [pinned];
    assert Total([pinned]) == 1;
    assert Newest([free], 0) == [false];
    assert Select([free], [true]) == [free];
    assert [true, true][..1] == [true];
    assert Select(segments, [true, true]) == [free, pinned];
    assert Total([free]) == 0;
  }

  // ------------------------------------------------------- at one budget, whatever the estimates

  /** What the droppable segments with a negative estimate give back. */
  function GivenBack(segments: seq<Segment>): int {
    if segments == [] then 0
    else
      var k := |segments| - 1;
      GivenBack(segments[..k])
      + if !segments[k].isProtected && segments[k].estTokens < 0 then segments[k].estTokens else 0
  }

  /** Nothing is dropped that would fit together with all that older segments give back. */
  predicate DropsOnlyHopeless(segments: seq<Segment>, remaining: int) {
    segments == [] ||
    var k := |segments| - 1;
    && (!Keeps(segments[k], remaining) ==> segments[k].estTokens + GivenBack(segments[..k]) > remaining)
    && DropsOnlyHopeless(segments[..k], Left(segments[k], remaining))
  }

  lemma {:induction false} CostAtLeast(segments: seq<Segment>, choice: Choice)
    requires KeepsProtected(segments, choice)
    ensures Cost(segments, choice) >= ProtectedTotal(segments) + GivenBack(segments)
  {
    if segments != [] {
      var k := |segments| - 1;
      CostAtLeast(segments[..k], choice[..k]);
      ProtectedTotalNext(segments);
      CostNext(segments, choice);
    }
  }

  /** The protected segments and whatever gives something back. */
  function Cheapest(segments: seq<Segment>): (choice: Choice)
    ensures |choice| == |segments|
  {
    if segments == [] then []
    else
      var k := |segments| - 1;
      Cheapest(segments[..k]) + [segments[k].isProtected || segments[k].estTokens < 0]
  }

  lemma {:induction false} CheapestCost(segments: seq<Segment>)
    ensures KeepsProtected(segments, Cheapest(segments))
    ensures Cost(segments, Cheapest(segments)) == ProtectedTotal(segments) + GivenBack(segments)
  {
    if segments != [] {
      var k := |segments| - 1;
      CheapestCost(segments[..k]);
      assert Cheapest(segments)[..k] == Cheapest(segments[..k]);
      ProtectedTotalNext(segments);
      CostNext(segments, Cheapest(segments));
    }
  }

  /** A choice that fits what remains. */
  predicate Fits(segments: seq<Segment>, remaining: int, choice: Choice) {
    KeepsProtected(segments, choice) && Cost(segments, choice) <= ProtectedTotal(segments) + remaining
  }

  predicate Loses(segments: seq<Segment>, remaining: int, other: Choice) {
    other == Newest(segments, remaining) || Beats(Newest(segments, remaining), other)
  }

  /** The newest mark is the loop's own. */
  predicate AgreesAtEnd(segments: seq<Segment>, remaining: int, other: Choice) {
    segments != [] && |other| == |segments| && other[|segments| - 1] == Keeps(segments[|segments| - 1], remaining)
  }

  lemma KeepsProtectedBelow(segments: seq<Segment>, other: Choice)
    requires segments != [] && |other| == |segments|
    ensures var k := |segments| - 1;
      KeepsProtected(segments, other) <==>
        KeepsProtected(segments[..k], other[..k]) && (segments[k].isProtected ==> other[k])
  {
    var k := |segments| - 1;
    if KeepsProtected(segments[..k], other[..k]) && (segments[k].isProtected ==> other[k]) {
      forall i | 0 <= i < |segments| && segments[i].isProtected
        ensures other[i]
      {
        assert i < k ==> segments[..k][i] == segments[i] && other[..k][i] == other[i];
      }
    }
  }

  lemma FitsBelow(segments: seq<Segment>, remaining: int, other: Choice)
    requires AgreesAtEnd(segments, remaining, other)
    ensures var k := |segments| - 1;
      Fits(segments, remaining, other) <==> Fits(segments[..k], Left(segments[k], remaining), other[..k])
  {
    KeepsProtectedBelow(segments, other);
    if KeepsProtected(segments, other) {
      ProtectedTotalNext(segments);
      CostNext(segments, other);
    }
  }

  lemma LosesBelow(segments: seq<Segment>, remaining: int, other: Choice)
    requires AgreesAtEnd(segments, remaining, other)
    ensures var k := |segments| - 1;
      Loses(segments, remaining, other) <==> Loses(segments[..k], Left(segments[k], remaining), other[..k])
  {
    var k := |segments| - 1;
    var best, keep := Newest(segments[..k], Left(segments[k], remaining)), other[k];
    NewestNext(segments, remaining);
    assert other == other[..k] + [keep];
    if Beats(best, other[..k]) {
      BeatsExtends(best, other[..k], keep);
    }
    if Beats(best + [keep], other[..k] + [keep]) {
      BeatsShrinks(best, other[..k], keep);
    }
  }

  lemma BeatsShrinks(better: Choice, other: Choice, b: bool)
    requires Beats(better + [b], other + [b])
    ensures Beats(better, other)
  {
    var long, longOther := better + [b], other + [b];
    var j :| 0 <= j < |long| && long[j] && !longOther[j] && long[j + 1..] == longOther[j + 1..];
    assert j < |better|;
    assert better[j + 1..] == long[j + 1..][..|better| - j - 1];
    assert other[j + 1..] == longOther[j + 1..][..|other| - j - 1];
  }

  lemma {:induction false} HopelessIsBest(segments: seq<Segment>, remaining: int, other: Choice)
    requires DropsOnlyHopeless(segments, remaining) && Fits(segments, remaining, other)
    ensures Loses(segments, remaining, other)
  {
    if segments != [] {
      var k := |segments| - 1;
      ProtectedTotalNext(segments);
      CostNext(segments, other);
      CostAtLeast(segments[..k], other[..k]);
      if other[k] == Keeps(segments[k], remaining) {
        FitsBelow(segments, remaining, other);
        HopelessIsBest(segments[..k], Left(segments[k], remaining), other[..k]);
        LosesBelow(segments, remaining, other);
      } else {
        NewestNext(segments, remaining);
        var best := Newest(segments, remaining);
        assert best[k] && !other[k] && best[k + 1..] == other[k + 1..];
      }
    }
  }

  /** The newest segment is dropped although it fits together with what gives something back. */
  lemma HopefulAtEnd(segments: seq<Segment>, remaining: int)
    requires segments != [] && !Keeps(segments[|segments| - 1], remaining)
    requires segments[|segments| - 1].estTokens + GivenBack(segments[..|segments| - 1]) <= remaining
    ensures var other := Cheapest(segments[..|segments| - 1]) + [true];
      Fits(segments, remaining, other) && !Loses(segments, remaining, other)
  {
    var k := |segments| - 1;
    var other := Cheapest(segments[..k]) + [true];
    CheapestCost(segments[..k]);
    assert other[..k] == Cheapest(segments[..k]);
    KeepsProtectedBelow(segments, other);
    ProtectedTotalNext(segments);
    CostNext(segments, other);
    NewestNext(segments, remaining);
    NotBeatenAtEnd(Newest(segments, remaining), other);
  }

  /** What refutes the choice among the older segments refutes it. */
  lemma HopefulBelow(segments: seq<Segment>, remaining: int, rest: Choice)
    requires segments != []
    requires var k := |segments| - 1; var left := Left(segments[k], remaining);
      Fits(segments[..k], left, rest) && !Loses(segments[..k], left, rest)
    ensures var other := rest + [Keeps(segments[|segments| - 1], remaining)];
      Fits(segments, remaining, other) && !Loses(segments, remaining, other)
  {
    var other := rest + [Keeps(segments[|segments| - 1], remaining)];
    assert other[..|segments| - 1] == rest;
    FitsBelow(segments, remaining, other);
    LosesBelow(segments, remaining, other);
  }

  /** What is dropped with hope refutes the choice. */
  lemma {:induction false} HopefulDropLoses(segments: seq<Segment>, remaining: int) returns (other: Choice)
    requires !DropsOnlyHopeless(segments, remaining)
    ensures Fits(segments, remaining, other) && !Loses(segments, remaining, other)
  {
    var newest, init := segments[|segments| - 1], segments[..|segments| - 1];
    if !Keeps(newest, remaining) && newest.estTokens + GivenBack(init) <= remaining {
      HopefulAtEnd(segments, remaining);
      other := Cheapest(init) + [true];
    } else {
      var rest := HopefulDropLoses(init, Left(newest, remaining));
      HopefulBelow(segments, remaining, rest);
      other := rest + [Keeps(newest, remaining)];
    }
  }

  /** At any accepted budget and for any estimates, negative ones included: the choice is the best one exactly
      when every segment that the loop drops would not fit even with all that older segments give back. */
  lemma BestAtIff(segments: seq<Segment>, budget: int)
    requires Accepted(segments, budget)
    ensures BestAt(segments, budget) <==> DropsOnlyHopeless(segments, budget - ProtectedTotal(segments))
  {
    var remaining := budget - ProtectedTotal(segments);
    if DropsOnlyHopeless(segments, remaining) {
      forall other | Feasible(segments, budget, other)
        ensures other == ChoiceFor(segments, budget) || Beats(ChoiceFor(segments, budget), other)
      {
        HopelessIsBest(segments, remaining, other);
      }
    } else {
      var other := HopefulDropLoses(segments, remaining);
      assert Feasible(segments, budget, other);
    }
  }

  lemma {:induction false} NothingLeftNothingKept(segments: seq<Segment>, i: nat)
    requires i < |segments| && !segments[i].isProtected
    ensures !Newest(segments, 0)[i]
  {
    var k := |segments| - 1;
    NewestNext(segments, 0);
    if i < k {
      NothingLeftNothingKept(segments[..k], i);
    }
  }

  /** Beside protected segments that cost something, one droppable segment with a zero or negative estimate is
      enough: at the budget that the protected segments use up it is dropped although it fits. */
  lemma NothingPaidIsDropped(segments: seq<Segment>, i: nat)
    requires ProtectedTotal(segments) >= 1 && i < |segments|
    requires !segments[i].isProtected && segments[i].estTokens <= 0
    ensures Accepted(segments, ProtectedTotal(segments)) && !BestAt(segments, ProtectedTotal(segments))
  {
    NothingLeftNothingKept(segments, i);
    DroppedButFits(segments, ProtectedTotal(segments), i);
  }

  // ------------------------------------------------------- at every budget, whatever the estimates

  /** The least that the loop can have left behind segment `s`, if it comes to it with at least `least` left. */
  function LeastLeft(s: Segment, least: int): int {
    if s.isProtected then least
    else if least >= s.estTokens then least - s.estTokens
    else if least < 0 then least
    else 0
  }

  /** Whatever is left from `least` on: with nothing left the loop does not come to a segment that costs nothing
      or less, and it drops no segment while an older one gives something back. */
  predicate SafeFrom(segments: seq<Segment>, least: int) {
    segments == [] ||
    var k := |segments| - 1;
    var s := segments[k];
    && (!s.isProtected && s.estTokens <= 0 ==> least >= 1)
    && (!s.isProtected && least < s.estTokens ==> GivenBack(segments[..k]) >= 0)
    && SafeFrom(segments[..k], LeastLeft(s, least))
  }

  lemma {:induction false} GivenBackIsNegative(segments: seq<Segment>)
    ensures GivenBack(segments) <= 0
  {
    if segments != [] {
      GivenBackIsNegative(segments[..|segments| - 1]);
    }
  }

  ghost predicate HopelessFrom(segments: seq<Segment>, least: int) {
    forall remaining :: remaining >= least ==> DropsOnlyHopeless(segments, remaining)
  }

  /** What the loop had left before segment `s`, if `left` is left behind it. */
  function LeftBefore(s: Segment, left: int): int {
    if s.isProtected || (left < 0 < s.estTokens) then left else left + s.estTokens
  }

  lemma LeftBeforeFacts(s: Segment, least: int, left: int)
    requires left >= LeastLeft(s, least) && (!s.isProtected && s.estTokens <= 0 ==> least >= 1)
    ensures LeftBefore(s, left) >= least && Left(s, LeftBefore(s, left)) == left
  {
  }

  lemma {:induction false} SafeIsHopeless(segments: seq<Segment>, least: int, remaining: int)
    requires SafeFrom(segments, least) && remaining >= least
    ensures DropsOnlyHopeless(segments, remaining)
  {
    if segments != [] {
      var k := |segments| - 1;
      GivenBackIsNegative(segments[..k]);
      SafeIsHopeless(segments[..k], LeastLeft(segments[k], least), Left(segments[k], remaining));
    }
  }

  lemma {:induction false} HopelessIsSafe(segments: seq<Segment>, least: int)
    requires HopelessFrom(segments, least)
    ensures SafeFrom(segments, least)
  {
    if segments != [] {
      var k := |segments| - 1;
      var s, init := segments[k], segments[..k];
      GivenBackIsNegative(init);
      assert least <= 0 ==> DropsOnlyHopeless(segments, 0);
      if !s.isProtected && s.estTokens >= 1 && least < s.estTokens {
        assert DropsOnlyHopeless(segments, s.estTokens - 1);
      }
      forall left | left >= LeastLeft(s, least)
        ensures DropsOnlyHopeless(init, left)
      {
        LeftBeforeFacts(s, least, left);
        assert DropsOnlyHopeless(segments, LeftBefore(s, left));
      }
      HopelessIsSafe(init, LeastLeft(s, least));
    }
  }

  /** What the smallest accepted budget leaves for the droppable segments. */
  function LeastRemaining(segments: seq<Segment>): int {
    if ProtectedTotal(segments) >= 1 then 0 else 1 - ProtectedTotal(segments)
  }

  /** For any estimates, negative ones included: the choice is the best one at every accepted budget exactly when
      it is safe from what the smallest one leaves. */
  lemma AlwaysBestIff(segments: seq<Segment>)
    ensures (forall budget :: Accepted(segments, budget) ==> BestAt(segments, budget)) <==>
      SafeFrom(segments, LeastRemaining(segments))
  {
    var total := ProtectedTotal(segments);
    if SafeFrom(segments, LeastRemaining(segments)) {
      forall budget | Accepted(segments, budget)
        ensures BestAt(segments, budget)
      {
        SafeIsHopeless(segments, LeastRemaining(segments), budget - total);
        BestAtIff(segments, budget);
      }
    }
    if forall budget :: Accepted(segments, budget) ==> BestAt(segments, budget) {
      forall remaining | remaining >= LeastRemaining(segments)
        ensures DropsOnlyHopeless(segments, remaining)
      {
        assert Accepted(segments, total + remaining);
        BestAtIff(segments, total + remaining);
      }
      HopelessIsSafe(segments, LeastRemaining(segments));
    }
  }

  // ------------------------------------------------------- estimates from messages, and negative ones

  /** The segment has the estimate that `from_message` gives it. */
  predicate FromItsMessage(s: Segment) {
    s == FromMessage(s.message, s.isProtected)
  }

  /** Segments that are made by `from_message` cost at least one token each, so the choice is always the best. */
  lemma MessagesAreChosenBest(segments: seq<Segment>, budget: int)
    requires forall s :: s in segments ==> FromItsMessage(s)
    requires Accepted(segments, budget)
    ensures BestAt(segments, budget)
  {
    forall i | 0 <= i < |segments|
      ensures segments[i].estTokens >= 1
    {
      assert segments[i] in segments;
    }
    SafeIsBest(segments, budget);
  }

  function ProtectedOnly(segments: seq<Segment>): (choice: Choice)
    ensures |choice| == |segments| && forall i :: 0 <= i < |segments| ==> choice[i] == segments[i].isProtected
  {
    if segments == [] then [] else ProtectedOnly(segments[..|segments| - 1]) + [segments[|segments| - 1].isProtected]
  }

  lemma {:induction false} ProtectedOnlyCost(segments: seq<Segment>)
    ensures Cost(segments, ProtectedOnly(segments)) == ProtectedTotal(segments)
  {
    if segments != [] {
      var k := |segments| - 1;
      ProtectedOnlyCost(segments[..k]);
      assert ProtectedOnly(segments)[..k] == ProtectedOnly(segments[..k]);
      ProtectedTotalNext(segments);
      CostNext(segments, ProtectedOnly(segments));
    }
  }

  /** Two droppable segments on top of the protected ones. */
  lemma TwoAdded(segments: seq<Segment>, f: nat, k: nat)
    requires f < k < |segments| && !segments[f].isProtected && !segments[k].isProtected
    ensures var both := ProtectedOnly(segments)[k := true][f := true];
      KeepsProtected(segments, both) && both[k]
      && Cost(segments, both) == ProtectedTotal(segments) + segments[k].estTokens + segments[f].estTokens
  {
    ProtectedOnlyCost(segments);
    CostAdds(segments, ProtectedOnly(segments), k);
    CostAdds(segments, ProtectedOnly(segments)[k := true], f);
  }

  /** Negative estimates, which the constructor accepts: the budget and the protected segments are still kept
      (`WithinBudget` has no condition on estimates), but the loop judges the newest segment before it knows
      what an older one gives back, and drops it although the two would fit. */
  lemma NegativeIsMisjudged(segments: seq<Segment>, f: nat)
    requires f < |segments| - 1 && !segments[f].isProtected && segments[f].estTokens < 0
    requires var newest := segments[|segments| - 1];
      !newest.isProtected && newest.estTokens >= 1 && ProtectedTotal(segments) + newest.estTokens - 1 >= 1
    ensures var budget := ProtectedTotal(segments) + segments[|segments| - 1].estTokens - 1;
      Accepted(segments, budget) && !BestAt(segments, budget)
  {
    var k := |segments| - 1;
    var budget := ProtectedTotal(segments) + segments[k].estTokens - 1;
    TwoAdded(segments, f, k);
    TooDear(segments, segments[k].estTokens - 1);
    assert budget - ProtectedTotal(segments) == segments[k].estTokens - 1;
    BetterAtEnd(segments, budget, ProtectedOnly(segments)[k := true][f := true]);
  }

  lemma TooDear(segments: seq<Segment>, remaining: int)
    requires segments != [] && Droppable(segments[|segments| - 1]) && segments[|segments| - 1].estTokens > remaining
    ensures !Newest(segments, remaining)[|segments| - 1]
  {
    NewestNext(segments, remaining);
  }

  lemma BetterAtEnd(segments: seq<Segment>, budget: int, other: Choice)
    requires segments != [] && Feasible(segments, budget, other)
    requires other[|segments| - 1] && !ChoiceFor(segments, budget)[|segments| - 1]
    ensures !BestAt(segments, budget)
  {
    NotBeatenAtEnd(ChoiceFor(segments, budget), other);
  }

  lemma NotBeatenAtEnd(better: Choice, other: Choice)
    requires |better| == |other| > 0 && !better[|better| - 1] && other[|other| - 1]
    ensures !Beats(better, other) && other != better
  {
    var k := |better| - 1;
    forall j | 0 <= j < |better| && better[j] && !other[j]
      ensures better[j + 1..] != other[j + 1..]
    {
      assert better[j + 1..][k - j - 1] == better[k] && other[j + 1..][k - j - 1] == other[k];
    }
  }

  // ------------------------------------------------------- order

  /** Equal segments stand next to each other. */
  predicate Contiguous(segments: seq<Segment>) {
    forall i, j, k :: 0 <= i < j < k < |segments| && segments[i] == segments[k] ==> segments[j] == segments[i]
  }

  lemma FirstIndexOrder(segments: seq<Segment>)
    ensures TotalPreorder(ByFirstIndex(segments))
    ensures forall x, y :: x in segments && y in segments && FirstIndex(segments, x) == FirstIndex(segments, y) ==> x == y
  {
  }

  lemma FirstIndexMonotone(segments: seq<Segment>, i: nat, j: nat)
    requires Contiguous(segments) && i <= j < |segments|
    ensures FirstIndex(segments, segments[i]) <= FirstIndex(segments, segments[j])
  {
    var p := FirstIndex(segments, segments[j]);
    assert segments[p] == segments[j] && p <= j;
    if p < i {
      assert segments[i] == segments[p];
    }
  }

  lemma {:induction false} SelectMembers(segments: seq<Segment>, choice: Choice)
    requires |choice| == |segments|
    ensures forall x :: x in Select(segments, choice) ==> x in segments
  {
    if segments != [] {
      SelectMembers(segments[..|segments| - 1], choice[..|segments| - 1]);
    }
  }

  lemma EarlierSelected(segments: seq<Segment>, choice: Choice, k: nat)
    requires Contiguous(segments) && |choice| == |segments| && k < |segments|
    ensures forall x :: x in Select(segments[..k], choice[..k]) ==> ByFirstIndex(segments)(x, segments[k])
  {
    SelectMembers(segments[..k], choice[..k]);
    var earlier := Select(segments[..k], choice[..k]);
    forall x | x in earlier
      ensures ByFirstIndex(segments)(x, segments[k])
    {
      var i :| 0 <= i < k && segments[i] == x;
      FirstIndexMonotone(segments, i, k);
    }
  }

  lemma AscendingAppend(le: (Segment, Segment) -> bool, s: seq<Segment>, x: Segment)
    requires Ascending(le, s) && forall y :: y in s ==> le(y, x)
    ensures Ascending(le, s + [x])
  {
  }

  lemma {:induction false} SelectAscending(segments: seq<Segment>, choice: Choice, k: nat)
    requires Contiguous(segments) && |choice| == |segments| && k <= |segments|
    ensures Ascending(ByFirstIndex(segments), Select(segments[..k], choice[..k]))
    decreases k
  {
    if k > 0 {
      SelectAscending(segments, choice, k - 1);
      EarlierSelected(segments, choice, k - 1);
      var init, marks := segments[..k - 1], choice[..k - 1];
      assert segments[..k] == init + [segments[k - 1]] && choice[..k] == marks + [choice[k - 1]];
      SelectNext(init, marks, segments[k - 1], choice[k - 1]);
      AscendingAppend(ByFirstIndex(segments), Select(init, marks), segments[k - 1]);
    }
  }

  lemma ContiguousKeepsOrder(segments: seq<Segment>, budget: int)
    requires Contiguous(segments)
    ensures Assembled(segments, budget) == Select(segments, ChoiceFor(segments, budget))
  {
    var choice := ChoiceFor(segments, budget);
    var sent, chosen := Assembled(segments, budget), Select(segments, choice);
    AssembledIsChoice(segments, budget);
    FirstIndexOrder(segments);
    SortByAscending(ByFirstIndex(segments),
      Filter(Protected, segments)
      + Reverse(KeptNewestFirst(Filter(Droppable, segments), budget - ProtectedTotal(segments))));
    assert segments[..|segments|] == segments && choice[..|segments|] == choice;
    SelectAscending(segments, choice, |segments|);
    SelectMembers(segments, choice);
    SameMultisetSameElements(sent, chosen);
    AscendingByMultiset(ByFirstIndex(segments), sent, chosen);
  }

  /** `at` lists the positions of the marked segments, oldest first. */
  ghost predicate Positions(choice: Choice, at: seq<nat>) {
    && (forall j :: 0 <= j < |at| ==> at[j] < |choice| && choice[at[j]])
    && (forall j, k :: 0 <= j < k < |at| ==> at[j] < at[k])
    && (forall i: nat :: i < |choice| && choice[i] ==> i in at)
  }

  lemma {:induction false} SelectedAt(segments: seq<Segment>, choice: Choice) returns (at: seq<nat>)
    requires |choice| == |segments|
    ensures Positions(choice, at) && |at| == |Select(segments, choice)|
    ensures forall j :: 0 <= j < |at| ==> Select(segments, choice)[j] == segments[at[j]]
  {
    at := [];
    if segments != [] {
      var k := |segments| - 1;
      at := SelectedAt(segments[..k], choice[..k]);
      assert forall i: nat :: i < k && choice[i] ==> choice[..k][i];
      if choice[k] {
        at := at + [k];
      }
    }
  }

  /** Where equal segments stand next to each other, what is sent is exactly the messages of the chosen segments,
      oldest first. */
  lemma SentInOrder(segments: seq<Segment>, budget: int, sent: seq<Message>) returns (at: seq<nat>)
    requires Contiguous(segments) && AreMessagesOf(sent, Assembled(segments, budget))
    ensures Positions(ChoiceFor(segments, budget), at) && |at| == |sent|
    ensures forall j :: 0 <= j < |sent| ==> sent[j] == segments[at[j]].message
  {
    ContiguousKeepsOrder(segments, budget);
    at := SelectedAt(segments, ChoiceFor(segments, budget));
  }

  /** What the droppable segments cost, those with a negative estimate left out. */
  function PaidTotal(segments: seq<Segment>): nat {
    if segments == [] then 0
    else
      var k := |segments| - 1;
      PaidTotal(segments[..k])
      + if !segments[k].isProtected && segments[k].estTokens > 0 then segments[k].estTokens else 0
  }

  lemma {:induction false} EnoughKeepsAll(segments: seq<Segment>, remaining: int)
    requires remaining > PaidTotal(segments)
    ensures Select(segments, Newest(segments, remaining)) == segments
  {
    if segments != [] {
      var k := |segments| - 1;
      var init := segments[..k];
      EnoughKeepsAll(init, Left(segments[k], remaining));
      SelectNewestNext(segments, remaining);
      assert segments == init + [segments[k]];
    }
  }

  lemma AscendingSegmentsAreContiguous(segments: seq<Segment>)
    requires Ascending(ByFirstIndex(segments), segments)
    ensures Contiguous(segments)
  {
    forall i, j, k | 0 <= i < j < k < |segments| && segments[i] == segments[k]
      ensures segments[j] == segments[i]
    {
      assert ByFirstIndex(segments)(segments[i], segments[j]) && ByFirstIndex(segments)(segments[j], segments[k]);
      FirstIndexOrder(segments);
    }
  }

  /** A budget that sends everything. */
  function AmpleBudget(segments: seq<Segment>): int {
    var enough := ProtectedTotal(segments) + PaidTotal(segments) + 1;
    if enough >= 1 then enough else 1
  }

  lemma AmpleKeepsAll(segments: seq<Segment>)
    ensures Accepted(segments, AmpleBudget(segments))
    ensures Select(segments, ChoiceFor(segments, AmpleBudget(segments))) == segments
  {
    EnoughKeepsAll(segments, AmpleBudget(segments) - ProtectedTotal(segments));
  }

  lemma AssembledAscending(segments: seq<Segment>, budget: int)
    ensures Ascending(ByFirstIndex(segments), Assembled(segments, budget))
  {
    FirstIndexOrder(segments);
    SortByAscending(ByFirstIndex(segments),
      Filter(Protected, segments)
      + Reverse(KeptNewestFirst(Filter(Droppable, segments), budget - ProtectedTotal(segments))));
  }

  lemma KeptOrderMeansContiguous(segments: seq<Segment>)
    requires KeepsOrder(segments, AmpleBudget(segments))
    ensures Contiguous(segments)
  {
    AmpleKeepsAll(segments);
    AssembledAscending(segments, AmpleBudget(segments));
    AscendingSegmentsAreContiguous(segments);
  }

  /** What is sent is sent in its original order. */
  ghost predicate KeepsOrder(segments: seq<Segment>, budget: int) {
    Assembled(segments, budget) == Select(segments, ChoiceFor(segments, budget))
  }

  /** The documented "original order" holds for every accepted budget exactly when equal segments are
      contiguous, whatever the estimates; in particular when all segments are distinct. */
  lemma OrderKeptIffContiguous(segments: seq<Segment>)
    ensures Contiguous(segments) <==> forall budget :: Accepted(segments, budget) ==> KeepsOrder(segments, budget)
    ensures Distinct(segments) ==> Contiguous(segments)
  {
    if Contiguous(segments) {
      forall budget
        ensures KeepsOrder(segments, budget)
      {
        ContiguousKeepsOrder(segments, budget);
      }
    }
    if forall budget :: Accepted(segments, budget) ==> KeepsOrder(segments, budget) {
      AmpleKeepsAll(segments);
      KeptOrderMeansContiguous(segments);
    }
  }
}
