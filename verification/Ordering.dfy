/** Orders, sorting and small facts about sequences shared by every model.

    Python compares `str` values by code point; `StrLe` is that order.  Python's
    `sorted(xs, key=...)` is stable; `SortBy` is the stable insertion sort over
    the comparison that the key induces.
*/
module Ordering {

  datatype Option<+T> = None | Some(value: T)

  datatype Result<+T, +E> = Success(value: T) | Failure(error: E)

  /** Identifiers of tasks, keys, tools and requests are strings. */
  type Id = string

  // ---------------------------------------------------------------- strings

  predicate StrLe(a: string, b: string) {
    StrLeFrom(a, b, 0)
  }

  /** Comparison of two strings that agree before position `i`. */
  predicate StrLeFrom(a: string, b: string, i: nat)
    decreases |a| - i
  {
    i >= |a| || (i < |b| && (a[i] < b[i] || (a[i] == b[i] && StrLeFrom(a, b, i + 1))))
  }

  lemma {:induction false} StrLeTotal(a: string, b: string, i: nat := 0)
    ensures StrLeFrom(a, b, i) || StrLeFrom(b, a, i)
    decreases |a| - i
  {
    if i < |a| && i < |b| && a[i] == b[i] {
      StrLeTotal(a, b, i + 1);
    }
  }

  lemma {:induction false} StrLeAntisymmetric(a: string, b: string, i: nat := 0)
    requires StrLeFrom(a, b, i) && StrLeFrom(b, a, i)
    requires i <= |a| && i <= |b| && forall j :: 0 <= j < i ==> a[j] == b[j]
    ensures a == b
    decreases |a| - i
  {
    if i < |a| {
      StrLeAntisymmetric(a, b, i + 1);
    }
  }

  lemma {:induction false} StrLeTransitive(a: string, b: string, c: string, i: nat := 0)
    requires StrLeFrom(a, b, i) && StrLeFrom(b, c, i)
    ensures StrLeFrom(a, c, i)
    decreases |a| - i
  {
    if i < |a| && a[i] == b[i] == c[i] {
      StrLeTransitive(a, b, c, i + 1);
    }
  }

  /** Strings compare by their first different character, and a prefix comes first. */
  lemma {:induction false} StrLeTells(a: string, b: string, i: nat := 0)
    requires i <= |a| && i <= |b| && a[..i] == b[..i]
    ensures StrLeFrom(a, b, i) <==> a <= b || exists k :: 0 <= k < |a| && k < |b| && a[..k] == b[..k] && a[k] < b[k]
    decreases |a| - i
  {
    assert forall k :: 0 <= k < i ==> a[..i][k] == a[k] && b[..i][k] == b[k];
    if i < |a| && i < |b| && a[i] == b[i] {
      assert a[..i + 1] == a[..i] + [a[i]] && b[..i + 1] == b[..i] + [b[i]];
      StrLeTells(a, b, i + 1);
    } else if i < |a| && i < |b| {
      assert forall k :: i < k <= |a| && k <= |b| ==> a[..k][i] == a[i] && b[..k][i] == b[i];
    } else if i >= |a| {
      assert a == a[..i] && a <= b;
    }
  }

  // ---------------------------------------------------------------- relations

  ghost predicate TotalPreorder<T(!new)>(le: (T, T) -> bool) {
    && (forall x, y :: le(x, y) || le(y, x))
    && (forall x, y, z :: le(x, y) && le(y, z) ==> le(x, z))
  }

  lemma StrLeIsTotalPreorder()
    ensures TotalPreorder(StrLe)
  {
    forall x: string, y: string
      ensures StrLe(x, y) || StrLe(y, x)
    {
      StrLeTotal(x, y);
    }
    forall x: string, y: string, z: string | StrLe(x, y) && StrLe(y, z)
      ensures StrLe(x, z)
    {
      StrLeTransitive(x, y, z);
    }
  }

  ghost predicate Distinct<T>(s: seq<T>) {
    forall i, j :: 0 <= i < j < |s| ==> s[i] != s[j]
  }

  ghost predicate Ascending<T>(le: (T, T) -> bool, s: seq<T>) {
    forall i, j :: 0 <= i < j < |s| ==> le(s[i], s[j])
  }

  // ---------------------------------------------------------------- sorting

  function Insert<T>(le: (T, T) -> bool, x: T, s: seq<T>): (r: seq<T>)
    ensures multiset(r) == multiset([x]) + multiset(s)
  {
    if s == [] || le(x, s[0]) then
      [x] + s
    else
      assert s == [s[0]] + s[1..];
      [s[0]] + Insert(le, x, s[1..])
  }

  function SortBy<T>(le: (T, T) -> bool, s: seq<T>): (r: seq<T>)
    ensures multiset(r) == multiset(s)
  {
    if s == [] then
      []
    else
      assert s == [s[0]] + s[1..];
      Insert(le, s[0], SortBy(le, s[1..]))
  }

  lemma SameMultisetSameElements<T>(a: seq<T>, b: seq<T>)
    requires multiset(a) == multiset(b)
    ensures |a| == |b|
    ensures forall x :: x in a <==> x in b
  {
    assert |multiset(a)| == |a| && |multiset(b)| == |b|;
    forall x
      ensures x in a <==> x in b
    {
      assert x in a <==> x in multiset(a);
      assert x in b <==> x in multiset(b);
    }
  }

  lemma HeadIsMember<T>(s: seq<T>)
    ensures s != [] ==> s[0] in s
  {
  }

  lemma SameMultisetSameLength<T>(a: seq<T>, b: seq<T>)
    requires multiset(a) == multiset(b)
    ensures |a| == |b|
  {
    assert |multiset(a)| == |a| && |multiset(b)| == |b|;
  }

  lemma {:induction false} InsertAscending<T(!new)>(le: (T, T) -> bool, x: T, s: seq<T>)
    requires TotalPreorder(le) && Ascending(le, s)
    ensures Ascending(le, Insert(le, x, s))
  {
    if s != [] && !le(x, s[0]) {
      InsertAscending(le, x, s[1..]);
      var tail := Insert(le, x, s[1..]);
      SameMultisetSameElements(tail, [x] + s[1..]);
      forall y | y in tail
        ensures le(s[0], y)
      {
        assert y in [x] + s[1..];
      }
    }
  }

  lemma {:induction false} SortByAscending<T(!new)>(le: (T, T) -> bool, s: seq<T>)
    requires TotalPreorder(le)
    ensures Ascending(le, SortBy(le, s))
  {
    if s != [] {
      SortByAscending(le, s[1..]);
      InsertAscending(le, s[0], SortBy(le, s[1..]));
    }
  }

  /** An ascending listing of pairwise distinct elements is fixed by its element set. */
  lemma {:induction false} AscendingDetermined<T>(le: (T, T) -> bool, a: seq<T>, b: seq<T>)
    requires forall x, y :: x in a && y in a && le(x, y) && le(y, x) ==> x == y
    requires Ascending(le, a) && Ascending(le, b)
    requires Distinct(a) && Distinct(b)
    requires forall x :: x in a <==> x in b
    ensures a == b
  {
    if b != [] {
      assert b[0] in a;
    }
    if a != [] {
      AscendingSameHead(le, a, b);
      var a', b' := a[1..], b[1..];
      assert a == [a[0]] + a' && b == [b[0]] + b';
      forall x
        ensures x in a' <==> x in b'
      {
        assert x in a' <==> x in a && x != a[0];
        assert x in b' <==> x in b && x != b[0];
      }
      AscendingDetermined(le, a', b');
    }
  }

  lemma AscendingSameHead<T>(le: (T, T) -> bool, a: seq<T>, b: seq<T>)
    requires forall x, y :: x in a && y in a && le(x, y) && le(y, x) ==> x == y
    requires Ascending(le, a) && Ascending(le, b) && a != []
    requires forall x :: x in a <==> x in b
    ensures b != [] && a[0] == b[0]
  {
    assert a[0] in b && b[0] in a;
    var i :| 0 <= i < |a| && a[i] == b[0];
    var j :| 0 <= j < |b| && b[j] == a[0];
  }

  /** An ascending listing, repetitions included, is fixed by its multiset. */
  lemma {:induction false} AscendingByMultiset<T>(le: (T, T) -> bool, a: seq<T>, b: seq<T>)
    requires forall x, y :: x in a && y in a && le(x, y) && le(y, x) ==> x == y
    requires Ascending(le, a) && Ascending(le, b) && multiset(a) == multiset(b)
    ensures a == b
  {
    SameMultisetSameElements(a, b);
    if a != [] {
      AscendingSameHead(le, a, b);
      TailMultiset(a, b);
      assert forall x :: x in a[1..] ==> x in a;
      AscendingByMultiset(le, a[1..], b[1..]);
      assert a == [a[0]] + a[1..] && b == [b[0]] + b[1..];
    }
  }

  lemma TailMultiset<T>(a: seq<T>, b: seq<T>)
    requires a != [] && b != [] && a[0] == b[0] && multiset(a) == multiset(b)
    ensures multiset(a[1..]) == multiset(b[1..])
  {
    assert a == [a[0]] + a[1..] && b == [b[0]] + b[1..];
    assert multiset(a[1..]) == multiset(a) - multiset{a[0]};
    assert multiset(b[1..]) == multiset(b) - multiset{b[0]};
  }

  lemma DistinctByMultiset<T>(a: seq<T>, b: seq<T>)
    requires multiset(a) == multiset(b) && Distinct(a)
    ensures Distinct(b)
  {
    forall x | x in b
      ensures multiset(b)[x] == 1
    {
      assert x in multiset(b) && x in multiset(a);
      DistinctCount(a, x);
    }
    forall i, j | 0 <= i < j < |b|
      ensures b[i] != b[j]
    {
      assert b == b[..i] + [b[i]] + b[i + 1..j] + [b[j]] + b[j + 1..];
      assert multiset(b)[b[i]] >= if b[i] == b[j] then 2 else 1;
      assert b[i] in b;
    }
  }

  lemma {:induction false} DistinctCount<T>(a: seq<T>, x: T)
    requires Distinct(a) && x in a
    ensures multiset(a)[x] == 1
  {
    assert a == [a[0]] + a[1..];
    if x == a[0] {
      assert x !in a[1..];
    } else {
      DistinctCount(a[1..], x);
    }
  }

  // ---------------------------------------------------------------- sorted listing of a set

  predicate IsLeast(le: (Id, Id) -> bool, s: set<Id>, x: Id) {
    x in s && forall y :: y in s ==> le(x, y)
  }

  lemma {:induction false} LeastExists(le: (Id, Id) -> bool, s: set<Id>)
    requires s != {} && TotalPreorder(le)
    ensures exists x :: IsLeast(le, s, x)
  {
    var x :| x in s;
    var rest := s - {x};
    if rest == {} {
      assert s == {x};
      assert IsLeast(le, s, x);
    } else {
      LeastExists(le, rest);
      var m :| IsLeast(le, rest, m);
      var least := if le(x, m) then x else m;
      forall y | y in s
        ensures le(least, y)
      {
        assert y == x || y in rest;
        assert le(x, x);
      }
      assert IsLeast(le, s, least);
    }
  }

  lemma LeastUnique(s: set<Id>, x: Id, y: Id)
    requires IsLeast(StrLe, s, x) && IsLeast(StrLe, s, y)
    ensures x == y
  {
    StrLeAntisymmetric(x, y);
  }

  function Least(s: set<Id>): (x: Id)
    requires s != {}
    ensures IsLeast(StrLe, s, x)
  {
    assert exists x :: IsLeast(StrLe, s, x) by {
      StrLeIsTotalPreorder();
      LeastExists(StrLe, s);
    }
    assert forall x, y | IsLeast(StrLe, s, x) && IsLeast(StrLe, s, y) :: x == y by {
      forall x, y | IsLeast(StrLe, s, x) && IsLeast(StrLe, s, y)
        ensures x == y
      {
        LeastUnique(s, x, y);
      }
    }
    var x :| x in s && IsLeast(StrLe, s, x);
    x
  }

  /** `sorted(s)` for a set or the keys of a dictionary. */
  function SortedIds(s: set<Id>): (r: seq<Id>)
    ensures |r| == |s|
    ensures forall x :: x in r <==> x in s
    ensures Distinct(r)
  {
    if s == {} then
      []
    else
      var x := Least(s);
      var rest := SortedIds(s - {x});
      assert x !in rest;
      [x] + rest
  }

  lemma {:induction false} SortedIdsAscending(s: set<Id>)
    ensures Ascending(StrLe, SortedIds(s))
  {
    if s != {} {
      SortedIdsAscending(s - {Least(s)});
    }
  }

  /** The same listing, for callers that need its elements and not its order. */
  method ListSorted(s: set<Id>) returns (r: seq<Id>)
    ensures Distinct(r) && forall x :: x in r <==> x in s
  {
    r := SortedIds(s);
  }

  /** `s[:n]`. */
  function Take<T>(s: seq<T>, n: nat): seq<T> {
    if |s| <= n then s else s[..n]
  }

  /** A sequence without its element `i`. */
  function Without<T>(s: seq<T>, i: nat): seq<T>
    requires i < |s|
  {
    s[..i] + s[i + 1..]
  }

  /** `list.index`. */
  function IndexOf<T(==)>(s: seq<T>, x: T): (i: nat)
    requires x in s
    ensures i < |s| && s[i] == x && forall j :: 0 <= j < i ==> s[j] != x
  {
    if s[0] == x then 0 else IndexOf(s[1..], x) + 1
  }

  // ---------------------------------------------------------------- subsequences by filtering

  function Filter<T(!new)>(keep: T -> bool, s: seq<T>): (r: seq<T>)
    ensures forall x :: x in r <==> x in s && keep(x)
    ensures |r| <= |s|
  {
    if s == [] then
      []
    else
      assert s == [s[0]] + s[1..];
      var rest := Filter(keep, s[1..]);
      if keep(s[0]) then [s[0]] + rest else rest
  }

  lemma {:induction false} FilterAppend<T(!new)>(keep: T -> bool, a: seq<T>, b: seq<T>)
    ensures Filter(keep, a + b) == Filter(keep, a) + Filter(keep, b)
  {
    if a == [] {
      assert a + b == b;
    } else {
      assert (a + b)[1..] == a[1..] + b;
      FilterAppend(keep, a[1..], b);
    }
  }

  lemma {:induction false} FilterMultiset<T(!new)>(keep: T -> bool, s: seq<T>, x: T)
    ensures multiset(Filter(keep, s))[x] == if keep(x) then multiset(s)[x] else 0
  {
    if s != [] {
      assert s == [s[0]] + s[1..];
      FilterMultiset(keep, s[1..], x);
    }
  }

  lemma {:induction false} FilterDistinct<T(!new)>(keep: T -> bool, s: seq<T>)
    requires Distinct(s)
    ensures Distinct(Filter(keep, s))
  {
    if s != [] {
      FilterDistinct(keep, s[1..]);
      assert s[0] !in s[1..];
    }
  }

  lemma {:induction false} FilterFilter<T(!new)>(weak: T -> bool, strong: T -> bool, s: seq<T>)
    requires forall x :: strong(x) ==> weak(x)
    ensures Filter(strong, Filter(weak, s)) == Filter(strong, s)
  {
    if s != [] {
      FilterFilter(weak, strong, s[1..]);
      if weak(s[0]) {
        var rest := Filter(weak, s[1..]);
        assert ([s[0]] + rest)[1..] == rest;
      }
    }
  }

  // ---------------------------------------------------------------- counting

  lemma {:induction false} DistinctSize<T>(s: seq<T>, bound: set<T>)
    requires Distinct(s) && forall x :: x in s ==> x in bound
    ensures |s| <= |bound|
    ensures |s| == |bound| ==> forall x :: x in bound ==> x in s
  {
    if s != [] {
      var rest := bound - {s[0]};
      assert bound == rest + {s[0]};
      assert s[0] !in s[1..];
      DistinctSize(s[1..], rest);
    }
  }

  lemma SubsetSize<T>(a: set<T>, b: set<T>)
    ensures a <= b ==> |a| <= |b|
  {
    assert a <= b ==> b == a + (b - a);
  }

  // ---------------------------------------------------------------- fractions

  /** Fractions compare as their cross products do. */
  lemma QuotientCompares(good: nat, runs: nat, num: nat, den: nat)
    requires runs > 0 && den > 0
    ensures var rate, bound := (good as real) / (runs as real), (num as real) / (den as real);
      && (rate >= bound <==> den * good >= num * runs)
      && (rate <= bound <==> den * good <= num * runs)
  {
    var rate, bound := (good as real) / (runs as real), (num as real) / (den as real);
    var unit := (runs as real) * (den as real);
    assert rate * unit == ((den * good) as real);
    assert bound * unit == ((num * runs) as real);
    assert unit > 0.0;
    if rate >= bound {
      assert rate * unit >= bound * unit;
    } else {
      assert rate * unit < bound * unit;
    }
    if rate <= bound {
      assert rate * unit <= bound * unit;
    } else {
      assert rate * unit > bound * unit;
    }
  }
}
