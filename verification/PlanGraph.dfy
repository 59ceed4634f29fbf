/** Facts about dependency graphs: walks, cycles, topological listings.

    A graph maps each task id to the ids it depends on.  Walks follow
    dependencies, so every element of a walk depends on the next one.
*/
module PlanGraph {
  import opened Ordering

  type Deps = map<Id, set<Id>>

  ghost predicate Closed(g: Deps) {
    forall n, d :: n in g && d in g[n] ==> d in g
  }

  ghost predicate IsWalk(g: Deps, w: seq<Id>) {
    && w != []
    && (forall i :: 0 <= i < |w| ==> w[i] in g)
    && (forall i :: 0 <= i < |w| - 1 ==> w[i + 1] in g[w[i]])
  }

  /** A closed dependency path: the last element depends on the first. */
  ghost predicate IsCycle(g: Deps, c: seq<Id>) {
    IsWalk(g, c) && c[0] in g[c[|c| - 1]]
  }

  ghost predicate Acyclic(g: Deps) {
    forall c :: !IsCycle(g, c)
  }

  /** `n` transitively depends on `m`, or is `m`. */
  ghost predicate DependsOn(g: Deps, n: Id, m: Id) {
    exists w :: IsWalk(g, w) && w[0] == n && w[|w| - 1] == m
  }

  // ------------------------------------------------------- topological listings

  /** Every listed task is new, known, and comes after all its dependencies. */
  ghost predicate Listing(g: Deps, o: seq<Id>) {
    forall i {:trigger Ready(g, o[..i], o[i])} :: 0 <= i < |o| ==> Ready(g, o[..i], o[i])
  }

  ghost predicate Ready(g: Deps, done: seq<Id>, n: Id) {
    n in g && n !in done && forall d :: d in g[n] ==> d in done
  }

  ghost predicate FullListing(g: Deps, o: seq<Id>) {
    Listing(g, o) && forall n :: n in g ==> n in o
  }

  lemma ListingExtends(g: Deps, o: seq<Id>, n: Id)
    requires Listing(g, o) && Ready(g, o, n)
    ensures Listing(g, o + [n])
  {
    forall i | 0 <= i < |o + [n]|
      ensures Ready(g, (o + [n])[..i], (o + [n])[i])
    {
      assert (o + [n])[..i] == o[..i];
      assert o[..|o|] == o;
    }
  }

  lemma ListedAreNodes(g: Deps, o: seq<Id>)
    requires Listing(g, o)
    ensures forall n :: n in o ==> n in g
  {
    forall n | n in o
      ensures n in g
    {
      var i :| 0 <= i < |o| && o[i] == n;
      assert Ready(g, o[..i], o[i]);
    }
  }

  lemma ListingDistinct(g: Deps, o: seq<Id>)
    requires Listing(g, o)
    ensures Distinct(o)
    ensures |o| <= |g.Keys|
  {
    forall i, j | 0 <= i < j < |o|
      ensures o[i] != o[j]
    {
      assert Ready(g, o[..j], o[j]);
      assert o[i] in o[..j];
    }
    ListedAreNodes(g, o);
    DistinctSize(o, g.Keys);
  }

  /** Walking dependencies from position `i` of a listing moves strictly backwards. */
  lemma {:induction false} WalkMovesBack(g: Deps, o: seq<Id>, w: seq<Id>, i: nat) returns (k: nat)
    requires Listing(g, o) && IsWalk(g, w) && i < |o| && o[i] == w[0]
    ensures k + |w| <= i + 1 && o[k] == w[|w| - 1]
    decreases |w|
  {
    if |w| == 1 {
      k := i;
    } else {
      assert Ready(g, o[..i], o[i]);
      assert w[0 + 1] in g[w[0]];
      var j :| 0 <= j < i && o[j] == w[1];
      var rest := w[1..];
      forall p | 0 <= p < |rest| - 1
        ensures rest[p + 1] in g[rest[p]]
      {
        assert w[(p + 1) + 1] in g[w[p + 1]];
      }
      assert IsWalk(g, rest);
      k := WalkMovesBack(g, o, rest, j);
    }
  }

  lemma ListingRulesOutCycles(g: Deps, o: seq<Id>)
    requires FullListing(g, o)
    ensures Acyclic(g)
  {
    forall c
      ensures !IsCycle(g, c)
    {
      if IsWalk(g, c) {
        var i :| 0 <= i < |o| && o[i] == c[0];
        var k := WalkMovesBack(g, o, c, i);
        assert Ready(g, o[..k], o[k]);
        assert Ready(g, o[..i], o[i]);
        assert forall x :: x in o[..k] ==> x in o[..i];
      }
    }
  }

  // ------------------------------------------------------- acyclic graphs have listings

  lemma {:induction false} StuckWalk(g: Deps, stuck: set<Id>, k: nat) returns (w: seq<Id>)
    requires stuck != {} && stuck <= g.Keys && k > 0
    requires forall n :: n in stuck ==> g[n] * stuck != {}
    ensures IsWalk(g, w) && |w| == k && forall x :: x in w ==> x in stuck
  {
    if k == 1 {
      var n :| n in stuck;
      w := [n];
    } else {
      var v := StuckWalk(g, stuck, k - 1);
      var last := v[|v| - 1];
      assert last in v;
      var d :| d in g[last] * stuck;
      w := v + [d];
    }
  }

  lemma RepeatedWalkHasCycle(g: Deps, w: seq<Id>, i: nat, j: nat)
    requires IsWalk(g, w) && i < j < |w| && w[i] == w[j]
    ensures IsCycle(g, w[i..j])
  {
    var c := w[i..j];
    forall p | 0 <= p < |c| - 1
      ensures c[p + 1] in g[c[p]]
    {
      assert w[(i + p) + 1] in g[w[i + p]];
    }
    assert w[(j - 1) + 1] in g[w[j - 1]];
  }

  lemma StuckHasCycle(g: Deps, stuck: set<Id>)
    requires stuck != {} && stuck <= g.Keys
    requires forall n :: n in stuck ==> g[n] * stuck != {}
    ensures !Acyclic(g)
  {
    var w := StuckWalk(g, stuck, |stuck| + 1);
    assert !Distinct(w) by {
      if Distinct(w) {
        DistinctSize(w, stuck);
        assert false;
      }
    }
    var i, j :| 0 <= i < j < |w| && w[i] == w[j];
    RepeatedWalkHasCycle(g, w, i, j);
  }

  lemma {:induction false} ExtendToFull(g: Deps, o: seq<Id>) returns (full: seq<Id>)
    requires Closed(g) && Acyclic(g) && Listing(g, o)
    ensures FullListing(g, full)
    decreases |g.Keys| - |o|
  {
    ListingDistinct(g, o);
    var rest := set n | n in g.Keys && n !in o;
    if rest == {} {
      forall n | n in g
        ensures n in o
      {
        assert n !in rest;
      }
      full := o;
    } else if n :| n in rest && g[n] * rest == {} {
      forall d | d in g[n]
        ensures d in o
      {
        assert d !in g[n] * rest;
      }
      assert Ready(g, o, n);
      ListingExtends(g, o, n);
      ListingDistinct(g, o + [n]);
      full := ExtendToFull(g, o + [n]);
    } else {
      StuckHasCycle(g, rest);
      assert false;
    }
  }

  /** Acyclicity, for a graph whose dependencies are all known, is having a topological listing. */
  lemma AcyclicIffListing(g: Deps)
    requires Closed(g)
    ensures Acyclic(g) <==> exists o :: FullListing(g, o)
  {
    if Acyclic(g) {
      var full := ExtendToFull(g, []);
    } else if o :| FullListing(g, o) {
      ListingRulesOutCycles(g, o);
    }
  }

  /** While some task is missing from `done`, an acyclic graph offers a ready one. */
  lemma MissingMeansReady(g: Deps, done: seq<Id>)
    requires Closed(g) && Acyclic(g)
    requires exists n :: n in g && n !in done
    ensures exists n :: Ready(g, done, n)
  {
    var rest := set n | n in g.Keys && n !in done;
    var m :| m in g && m !in done;
    assert m in rest;
    if n :| n in rest && g[n] * rest == {} {
      forall d | d in g[n]
        ensures d in done
      {
        assert d !in g[n] * rest;
      }
      assert Ready(g, done, n);
    } else {
      StuckHasCycle(g, rest);
      assert false;
    }
  }

  // ------------------------------------------------------- the least listing

  /** Dictionary order on orders, comparing ids as strings. */
  ghost predicate LexLe(a: seq<Id>, b: seq<Id>) {
    a == b || exists k: nat :: FirstDifference(a, b, k) && StrLe(a[k], b[k])
  }

  ghost predicate FirstDifference(a: seq<Id>, b: seq<Id>, k: nat) {
    && k < |a| && k < |b| && a[k] != b[k]
    && forall p :: 0 <= p < k ==> a[p] == b[p]
  }

  ghost predicate LeastListing(g: Deps, o: seq<Id>) {
    FullListing(g, o) && forall other :: FullListing(g, other) ==> LexLe(o, other)
  }

  /** Each element is the smallest task that is ready when it is placed. */
  ghost predicate Greedy(g: Deps, o: seq<Id>) {
    Listing(g, o) &&
    forall i, n :: 0 <= i < |o| && Ready(g, o[..i], n) ==> StrLe(o[i], n)
  }

  lemma GreedyExtends(g: Deps, o: seq<Id>, n: Id)
    requires Greedy(g, o) && Ready(g, o, n)
    requires forall m :: Ready(g, o, m) ==> StrLe(n, m)
    ensures Greedy(g, o + [n])
  {
    ListingExtends(g, o, n);
    forall i, m | 0 <= i < |o + [n]| && Ready(g, (o + [n])[..i], m)
      ensures StrLe((o + [n])[i], m)
    {
      assert (o + [n])[..i] == o[..i];
      assert o[..|o|] == o;
    }
  }

  lemma {:induction false} FindDifference(a: seq<Id>, b: seq<Id>, from: nat) returns (k: nat)
    requires |a| == |b| && from <= |a| && a != b
    requires forall p :: 0 <= p < from ==> a[p] == b[p]
    ensures FirstDifference(a, b, k)
    decreases |a| - from
  {
    if a[from] != b[from] {
      k := from;
    } else {
      k := FindDifference(a, b, from + 1);
    }
  }

  lemma FullListingsSameLength(g: Deps, a: seq<Id>, b: seq<Id>)
    requires FullListing(g, a) && FullListing(g, b)
    ensures |a| == |b| == |g.Keys|
  {
    FullListingLength(g, a);
    FullListingLength(g, b);
  }

  lemma FullListingLength(g: Deps, o: seq<Id>)
    requires FullListing(g, o)
    ensures |o| == |g.Keys|
  {
    ListingDistinct(g, o);
    var elements := set n | n in o;
    assert g.Keys <= elements;
    ElementsAtMostLength(o, g.Keys);
  }

  lemma {:induction false} ElementsAtMostLength(o: seq<Id>, s: set<Id>)
    requires forall n :: n in s ==> n in o
    ensures |s| <= |o|
  {
    if o == [] {
      assert s == {};
    } else {
      var rest := s - {o[0]};
      ElementsAtMostLength(o[1..], rest);
      assert s <= rest + {o[0]};
    }
  }

  lemma GreedyIsLeast(g: Deps, o: seq<Id>)
    requires Greedy(g, o) && FullListing(g, o)
    ensures LeastListing(g, o)
  {
    forall other | FullListing(g, other)
      ensures LexLe(o, other)
    {
      FullListingsSameLength(g, o, other);
      if o != other {
        var k := FindDifference(o, other, 0);
        assert o[..k] == other[..k];
        assert Ready(g, other[..k], other[k]);
        assert StrLe(o[k], other[k]);
      }
    }
  }

  /** At most one order is least, so the order is a function of the graph alone. */
  lemma LeastListingUnique(g: Deps, a: seq<Id>, b: seq<Id>)
    requires LeastListing(g, a) && LeastListing(g, b)
    ensures a == b
  {
    assert LexLe(a, b) && LexLe(b, a);
    if a != b {
      var i: nat :| FirstDifference(a, b, i) && StrLe(a[i], b[i]);
      var j: nat :| FirstDifference(b, a, j) && StrLe(b[j], a[j]);
      assert i == j;
      StrLeAntisymmetric(a[i], b[i]);
      assert false;
    }
  }
}
