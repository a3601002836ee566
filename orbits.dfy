/**
 * `onAutomorphismStoreOrbits`, the callback saucy calls for every generator it finds: it
 * sorts the generator's support, splits the permutation `gamma` into disjoint cycles with
 * the help of the scratch array `marks`, appends them as one orbit group, and clears the
 * marks again.
 */
module Orbits {

  /** `integer_compare`: negative, zero or positive as `a` is below, equal to or above `b`. */
  function IntegerCompare(a: int, b: int): (r: int)
    ensures r < 0 <==> a < b
    ensures r == 0 <==> a == b
    ensures r > 0 <==> a > b
  {
    if a < b then -1 else if a == b then 0 else 1
  }

  predicate Sorted(s: seq<int>)
  {
    forall p, q :: 0 <= p < q < |s| ==> s[p] <= s[q]
  }

  /**
   * The `qsort` of the support with `integer_compare`, as an insertion sort: afterwards the
   * support is ascending and holds the same elements.
   */
  method SortSupport(a: array<int>)
    modifies a
    ensures Sorted(a[..]) && multiset(a[..]) == multiset(old(a[..]))
  {
    var i := 0;
    while i < a.Length
      invariant i <= a.Length && Sorted(a[..i])
      invariant multiset(a[..]) == multiset(old(a[..]))
    {
      Sink(a, i);
      i := i + 1;
    }
    assert a[..i] == a[..];
  }

  /** One insertion step: `a[i]` moves down past the larger elements of the sorted `a[..i]`. */
  method Sink(a: array<int>, i: nat)
    requires i < a.Length && Sorted(a[..i])
    modifies a
    ensures Sorted(a[..i + 1]) && multiset(a[..]) == multiset(old(a[..]))
  {
    var j := i;
    while j > 0 && IntegerCompare(a[j - 1], a[j]) > 0
      invariant 0 <= j <= i
      invariant forall p, q :: 0 <= p < q <= i && q != j ==> a[p] <= a[q]
      invariant 0 < j < i ==> a[j - 1] <= a[j + 1]
      invariant multiset(a[..]) == multiset(old(a[..]))
    {
      a[j - 1], a[j] := a[j], a[j - 1];
      j := j - 1;
    }
  }

  // Permutations and cycles.

  predicate Distinct(s: seq<int>)
  {
    forall p, q :: 0 <= p < q < |s| ==> s[p] != s[q]
  }

  /** `gamma` maps `0 .. |gamma| - 1` one-to-one onto itself. */
  predicate IsPermutation(gamma: seq<int>)
  {
    (forall x :: 0 <= x < |gamma| ==> 0 <= gamma[x] < |gamma|) && Distinct(gamma)
  }

  /** `c` is a cycle of `gamma`: distinct points, each mapped to the next, the last to the first. */
  predicate IsCycle(gamma: seq<int>, c: seq<int>)
  {
    && |c| > 0 && Distinct(c)
    && (forall p :: 0 <= p < |c| ==> 0 <= c[p] < |gamma|)
    && (forall p :: 0 <= p < |c| - 1 ==> gamma[c[p]] == c[p + 1])
    && gamma[c[|c| - 1]] == c[0]
  }

  /** `x` lies on one of the first `upto` cycles of `orbit`. */
  predicate InCycles(orbit: seq<seq<int>>, upto: nat, x: int)
    requires upto <= |orbit|
  {
    exists q :: 0 <= q < upto && x in orbit[q]
  }

  /** Every entry of `orbit` is a cycle of `gamma`. */
  predicate AllCycles(gamma: seq<int>, orbit: seq<seq<int>>)
  {
    forall p :: 0 <= p < |orbit| ==> IsCycle(gamma, orbit[p])
  }

  /** No point lies on two cycles of `orbit`. */
  predicate Disjoint(orbit: seq<seq<int>>)
  {
    forall p, q, x :: 0 <= p < q < |orbit| && x in orbit[p] ==> x !in orbit[q]
  }

  /**
   * `orbit` is the cycle decomposition of `gamma` on `support` as the callback records it:
   * disjoint cycles of `gamma`, each starting at a support point, together covering the
   * support, with ascending starts, each cycle starting at its smallest support point.
   */
  predicate Decomposes(gamma: seq<int>, support: seq<int>, orbit: seq<seq<int>>)
  {
    && Ordered(gamma, support, orbit)
    && (forall p :: 0 <= p < |orbit| ==> orbit[p][0] in support)
    && (forall x :: x in support ==> InCycles(orbit, |orbit|, x))
  }

  /**
   * Disjoint cycles of `gamma` with ascending starts, each starting at the smallest of its
   * points that lie in `supp`.
   */
  predicate Ordered(gamma: seq<int>, supp: seq<int>, orbit: seq<seq<int>>)
  {
    AllCycles(gamma, orbit) && Disjoint(orbit) && StartOrder(supp, orbit)
  }

  /** The starts ascend, and each cycle starts at the smallest of its points in `supp`. */
  predicate StartOrder(supp: seq<int>, orbit: seq<seq<int>>)
    requires forall p :: 0 <= p < |orbit| ==> |orbit[p]| > 0
  {
    && (forall p, q :: 0 <= p < q < |orbit| ==> orbit[p][0] < orbit[q][0])
    && (forall p, x :: 0 <= p < |orbit| && x in orbit[p] && x in supp ==> orbit[p][0] <= x)
  }

  /**
   * Every cycle of a decomposition starts at the smallest support point that no earlier
   * cycle holds: a support point below the start of cycle `p` that lies on some cycle lies
   * on a cycle before `p`. (In a decomposition every support point lies on some cycle.)
   */
  lemma SmallestFirst(support: seq<int>, orbit: seq<seq<int>>, p: nat, x: int)
    requires forall q :: 0 <= q < |orbit| ==> |orbit[q]| > 0
    requires StartOrder(support, orbit) && InCycles(orbit, |orbit|, x)
    requires p < |orbit| && x in support && x < orbit[p][0]
    ensures InCycles(orbit, p, x)
  {
    var q :| 0 <= q < |orbit| && x in orbit[q];
    assert q < p by {
      assert orbit[q][0] <= x;
    }
  }

  /** Points outside the support are fixed by `gamma`: the support holds every point it moves. */
  predicate SupportCovers(gamma: seq<int>, support: seq<int>)
  {
    forall x :: 0 <= x < |gamma| && x !in support ==> gamma[x] == x
  }

  /** Distinct points below `n` number at most `n`. */
  lemma {:induction false} DistinctBound(s: seq<int>, n: nat)
    requires Distinct(s) && forall p :: 0 <= p < |s| ==> 0 <= s[p] < n
    ensures |s| <= n
    decreases |s|
  {
    if s != [] {
      var v := s[|s| - 1];
      var init := s[..|s| - 1];
      var renamed := seq(|init|, p requires 0 <= p < |init| => if init[p] == n - 1 then v else init[p]);
      forall p, q | 0 <= p < q < |renamed| ensures renamed[p] != renamed[q] {
        assert init[p] == s[p] && init[q] == s[q];
      }
      forall p | 0 <= p < |renamed| ensures 0 <= renamed[p] < n - 1 {
        assert init[p] == s[p] && s[p] != v;
      }
      DistinctBound(renamed, n - 1);
    }
  }

  /** Every point of a cycle is the image of a point of the same cycle. */
  lemma Predecessor(gamma: seq<int>, c: seq<int>, x: int) returns (y: int)
    requires IsCycle(gamma, c) && x in c
    ensures y in c && 0 <= y < |gamma| && gamma[y] == x
  {
    var r :| 0 <= r < |c| && c[r] == x;
    if r == 0 {
      y := c[|c| - 1];
    } else {
      y := c[r - 1];
    }
  }

  /**
   * With `gamma` a permutation, a point mapped onto a point of a cycle lies on that cycle:
   * cycles are closed under the inverse of `gamma` too.
   */
  lemma ClosedBackwards(gamma: seq<int>, c: seq<int>, z: int)
    requires IsPermutation(gamma) && IsCycle(gamma, c) && 0 <= z < |gamma| && gamma[z] in c
    ensures z in c
  {
    var y := Predecessor(gamma, c, gamma[z]);
  }

  /** When the support holds every moved point, the cycles started in it stay in it. */
  lemma CyclesInSupport(gamma: seq<int>, support: seq<int>, c: seq<int>)
    requires IsCycle(gamma, c) && c[0] in support && SupportCovers(gamma, support)
    ensures forall x :: x in c ==> x in support
  {
    forall x | x in c ensures x in support {
      var r :| 0 <= r < |c| && c[r] == x;
      if r > 0 {
        assert gamma[x] != x by {
          if r == |c| - 1 {
            assert gamma[c[r]] == c[0] && c[0] != c[r];
          } else {
            assert gamma[c[r]] == c[r + 1] && c[r + 1] != c[r];
          }
        }
      }
    }
  }

  /** The cycles an orbit group holds lie within a support that holds every moved point. */
  lemma DecompositionInSupport(gamma: seq<int>, support: seq<int>, orbit: seq<seq<int>>)
    requires Decomposes(gamma, support, orbit) && SupportCovers(gamma, support)
    ensures forall x :: InCycles(orbit, |orbit|, x) ==> x in support
  {
    forall x | InCycles(orbit, |orbit|, x) ensures x in support {
      var q :| 0 <= q < |orbit| && x in orbit[q];
      CyclesInSupport(gamma, support, orbit[q]);
    }
  }

  /**
   * The decomposition after the outer loop has visited the first `i` support points:
   * disjoint cycles, started at visited points in ascending order, holding every visited
   * point, each started at the smallest support point no earlier cycle holds.
   */
  predicate Partial(gamma: seq<int>, supp: seq<int>, orbit: seq<seq<int>>, i: nat)
    requires i <= |supp|
  {
    Ordered(gamma, supp, orbit) && StartsWithin(supp, orbit, i) && CoveredUpTo(supp, orbit, i)
  }

  /** The first `i` support points lie on cycles of `orbit`. */
  predicate CoveredUpTo(supp: seq<int>, orbit: seq<seq<int>>, i: nat)
    requires i <= |supp|
  {
    forall t :: 0 <= t < i ==> InCycles(orbit, |orbit|, supp[t])
  }

  /** Every cycle of `orbit` starts at one of the first `i` support points. */
  predicate StartsWithin(supp: seq<int>, orbit: seq<seq<int>>, i: nat)
    requires i <= |supp|
  {
    forall p :: 0 <= p < |orbit| ==> |orbit[p]| > 0 && orbit[p][0] in supp && (i < |supp| ==> orbit[p][0] <= supp[i])
  }

  /** A point lies on the cycles of `orbit + [c]` exactly when it lies on those of `orbit` or on `c`. */
  lemma InCyclesAppend(orbit: seq<seq<int>>, c: seq<int>, x: int)
    ensures InCycles(orbit + [c], |orbit| + 1, x) <==> InCycles(orbit, |orbit|, x) || x in c
  {
    var o := orbit + [c];
    if InCycles(orbit, |orbit|, x) {
      var q :| 0 <= q < |orbit| && x in orbit[q];
      assert x in o[q];
    }
    if x in c {
      assert x in o[|orbit|];
    }
    if InCycles(o, |o|, x) {
      var q :| 0 <= q < |o| && x in o[q];
      if q < |orbit| {
        assert x in orbit[q];
      }
    }
  }

  /** The image of a point that lies on no cycle of `orbit` lies on none either. */
  lemma ImageOffCycles(gamma: seq<int>, orbit: seq<seq<int>>, z: int)
    requires IsPermutation(gamma) && AllCycles(gamma, orbit) && 0 <= z < |gamma|
    requires !InCycles(orbit, |orbit|, z)
    ensures !InCycles(orbit, |orbit|, gamma[z])
  {
    forall q, r | 0 <= q < |orbit| && 0 <= r < |orbit[q]| ensures orbit[q][r] != gamma[z] {
      var y := Predecessor(gamma, orbit[q], orbit[q][r]);
      assert z != y;
    }
  }

  /** The point after the last of a path of distinct points is new, unless it closes the cycle. */
  lemma NextIsNew(gamma: seq<int>, path: seq<int>, j: int)
    requires IsPermutation(gamma) && 0 < |path| && Distinct(path)
    requires forall p :: 0 <= p < |path| ==> 0 <= path[p] < |gamma|
    requires forall p :: 0 <= p < |path| - 1 ==> gamma[path[p]] == path[p + 1]
    requires j == gamma[path[|path| - 1]] && j != path[0]
    ensures j !in path && 0 <= j < |gamma|
  {
    var n := |path| - 1;
    forall r | 0 < r < |path| ensures path[r] != j {
      assert path[r - 1] != path[n];
      assert gamma[path[r - 1]] == path[r];
    }
  }

  /** A cycle of points on no earlier cycle keeps the cycles disjoint. */
  lemma AppendDisjoint(orbit: seq<seq<int>>, c: seq<int>)
    requires Disjoint(orbit) && forall x :: x in c ==> !InCycles(orbit, |orbit|, x)
    ensures Disjoint(orbit + [c])
  {
    var o := orbit + [c];
    var n := |orbit|;
    forall p, q, x | 0 <= p < q < |o| && x in o[p] ensures x !in o[q] {
      assert o[p] == orbit[p];
      if q < n {
        assert o[q] == orbit[q];
      } else {
        assert InCycles(orbit, n, x);
      }
    }
  }

  /**
   * A cycle started at the unvisited support point `supp[i]` comes after the earlier
   * cycles, whose starts are visited points below it in the ascending support.
   */
  lemma AppendStarts(supp: seq<int>, orbit: seq<seq<int>>, c: seq<int>, i: nat)
    requires Sorted(supp) && i < |supp| && |c| > 0 && c[0] == supp[i]
    requires forall x :: x in c ==> !InCycles(orbit, |orbit|, x)
    requires StartsWithin(supp, orbit, i)
    requires forall p, q :: 0 <= p < q < |orbit| ==> orbit[p][0] < orbit[q][0]
    ensures StartsWithin(supp, orbit + [c], i + 1)
    ensures var o := orbit + [c]; forall p, q :: 0 <= p < q < |o| ==> o[p][0] < o[q][0]
  {
    var o := orbit + [c];
    var n := |orbit|;
    assert o[n] == c;
    forall p | 0 <= p < n ensures o[p] == orbit[p] && orbit[p][0] < c[0] {
      assert orbit[p][0] in orbit[p];
      assert InCycles(orbit, n, orbit[p][0]);
    }
  }

  /** With the cycle of `supp[i]` appended, the first `i + 1` support points are covered. */
  lemma AppendCovered(supp: seq<int>, orbit: seq<seq<int>>, c: seq<int>, i: nat)
    requires i < |supp| && |c| > 0 && c[0] == supp[i] && CoveredUpTo(supp, orbit, i)
    ensures CoveredUpTo(supp, orbit + [c], i + 1)
  {
    forall t | 0 <= t < i + 1 ensures InCycles(orbit + [c], |orbit| + 1, supp[t]) {
      InCyclesAppend(orbit, c, supp[t]);
    }
  }

  /**
   * The cycle of the first support point no cycle holds starts at its smallest support
   * point: its other support points come later in the ascending support.
   */
  lemma AppendSmallest(supp: seq<int>, orbit: seq<seq<int>>, c: seq<int>, i: nat)
    requires Sorted(supp) && i < |supp| && |c| > 0 && c[0] == supp[i] && CoveredUpTo(supp, orbit, i)
    requires forall x :: x in c ==> !InCycles(orbit, |orbit|, x)
    ensures forall x :: x in c && x in supp ==> c[0] <= x
  {
    forall x | x in c && x in supp ensures c[0] <= x {
      var t :| 0 <= t < |supp| && supp[t] == x;
      assert !InCycles(orbit, |orbit|, supp[t]);
      assert i <= t;
    }
  }

  /** One step of the outer loop: the cycle of the unmarked support point `supp[i]` extends the decomposition. */
  lemma AddCycle(gamma: seq<int>, supp: seq<int>, orbit: seq<seq<int>>, c: seq<int>, i: nat)
    requires Sorted(supp) && i < |supp| && IsCycle(gamma, c) && c[0] == supp[i]
    requires forall x :: x in c ==> !InCycles(orbit, |orbit|, x)
    requires Partial(gamma, supp, orbit, i)
    ensures Partial(gamma, supp, orbit + [c], i + 1)
  {
    var o := orbit + [c];
    var n := |orbit|;
    assert AllCycles(gamma, o) by {
      forall p | 0 <= p < |o| ensures IsCycle(gamma, o[p]) {
        if p < n {
          assert o[p] == orbit[p];
        }
      }
    }
    AppendDisjoint(orbit, c);
    AppendStarts(supp, orbit, c, i);
    AppendCovered(supp, orbit, c, i);
    AppendSmallest(supp, orbit, c, i);
    forall p, x | 0 <= p < |o| && x in o[p] && x in supp ensures o[p][0] <= x {
      if p < n {
        assert o[p] == orbit[p];
      } else {
        assert o[p] == c;
      }
    }
  }

  /** A support point already on a cycle needs no new one. */
  lemma SkipMarked(supp: seq<int>, orbit: seq<seq<int>>, i: nat)
    requires Sorted(supp) && i < |supp| && StartsWithin(supp, orbit, i) && CoveredUpTo(supp, orbit, i)
    requires InCycles(orbit, |orbit|, supp[i])
    ensures StartsWithin(supp, orbit, i + 1) && CoveredUpTo(supp, orbit, i + 1)
  {
  }

  /** Once every support point is visited, the partial decomposition is the decomposition. */
  lemma PartialDone(gamma: seq<int>, supp: seq<int>, orbit: seq<seq<int>>)
    requires Partial(gamma, supp, orbit, |supp|)
    ensures Decomposes(gamma, supp, orbit)
  {
    forall x | x in supp ensures InCycles(orbit, |orbit|, x) {
      var t :| 0 <= t < |supp| && supp[t] == x;
    }
  }

  /**
   * Sorting the support keeps what the callback needs of it: its points are nodes, and it
   * holds every point `gamma` moves.
   */
  lemma Rearranged(gamma: seq<int>, before: seq<int>, after: seq<int>)
    requires multiset(after) == multiset(before) && SupportCovers(gamma, before)
    requires forall i :: 0 <= i < |before| ==> 0 <= before[i] < |gamma|
    ensures SupportCovers(gamma, after) && forall x :: x in after ==> 0 <= x < |gamma|
  {
    forall x ensures x in after <==> x in before {
      assert x in after <==> x in multiset(after);
      assert x in before <==> x in multiset(before);
    }
  }

  /** The global `orbits` and `marks` of the program. */
  class OrbitStore {
    /** One group per generator, each a list of cycles. */
    var orbits: seq<seq<seq<int>>>
    /** One flag per graph node, all clear between two callbacks. */
    const marks: array<bool>

    /** No mark is set. */
    predicate Clear()
      reads this, marks
    {
      forall x :: 0 <= x < marks.Length ==> !marks[x]
    }

    /** An empty store over `n` nodes, as `calloc` leaves it: no group and no mark set. */
    constructor (n: nat)
      ensures orbits == [] && marks.Length == n && Clear() && fresh(marks)
    {
      orbits := [];
      marks := new bool[n](_ => false);
    }

    /**
     * The inner loop of the callback: from `k`, which is already marked, follow `gamma`
     * back to `k`, marking and recording each point passed. None of these points lies on
     * a cycle of `orbit` found before.
     */
    method FollowCycle(gamma: array<int>, k: int, ghost orbit: seq<seq<int>>) returns (permutation: seq<int>)
      requires gamma.Length == marks.Length && IsPermutation(gamma[..]) && 0 <= k < gamma.Length
      requires AllCycles(gamma[..], orbit) && !InCycles(orbit, |orbit|, k)
      requires forall x :: 0 <= x < marks.Length ==> (marks[x] <==> InCycles(orbit, |orbit|, x) || x == k)
      modifies marks
      ensures IsCycle(gamma[..], permutation) && permutation[0] == k
      ensures forall x :: x in permutation ==> !InCycles(orbit, |orbit|, x)
      ensures forall x :: 0 <= x < marks.Length ==> (marks[x] <==> InCycles(orbit, |orbit|, x) || x in permutation)
    {
      permutation := [k];
      var j := gamma[k];
      ImageOffCycles(gamma[..], orbit, k);
      while j != k
        invariant 0 < |permutation| <= gamma.Length && permutation[0] == k && Distinct(permutation)
        invariant forall p :: 0 <= p < |permutation| ==> 0 <= permutation[p] < gamma.Length
        invariant forall p :: 0 <= p < |permutation| - 1 ==> gamma[permutation[p]] == permutation[p + 1]
        invariant j == gamma[permutation[|permutation| - 1]] && !InCycles(orbit, |orbit|, j)
        invariant forall x :: x in permutation ==> !InCycles(orbit, |orbit|, x)
        invariant forall x :: 0 <= x < marks.Length ==> (marks[x] <==> InCycles(orbit, |orbit|, x) || x in permutation)
        decreases gamma.Length - |permutation|
      {
        NextIsNew(gamma[..], permutation, j);
        marks[j] := true;
        permutation := permutation + [j];
        DistinctBound(permutation, gamma.Length);
        ImageOffCycles(gamma[..], orbit, j);
        j := gamma[j];
      }
    }

    /** The clean-up loop: the mark of every support point is cleared. */
    method ClearMarks(support: array<int>)
      requires forall x :: x in support[..] ==> 0 <= x < marks.Length
      requires forall x :: 0 <= x < marks.Length && marks[x] ==> x in support[..]
      modifies marks
      ensures Clear()
    {
      var i := 0;
      while i < support.Length
        invariant i <= support.Length
        invariant forall x :: 0 <= x < marks.Length && marks[x] ==> x in support[..] && x !in support[..i]
      {
        assert support[i] in support[..];
        marks[support[i]] := false;
        i := i + 1;
      }
      assert support[..i] == support[..];
    }

    /**
     * The cycle loop of the callback: every support point, in ascending order, that no cycle
     * found so far holds starts a new cycle. Afterwards the marks are set exactly on the
     * points of the cycles found.
     */
    method CollectCycles(gamma: array<int>, support: array<int>) returns (orbit: seq<seq<int>>)
      requires gamma.Length == marks.Length && IsPermutation(gamma[..]) && Sorted(support[..])
      requires forall x :: x in support[..] ==> 0 <= x < gamma.Length
      requires SupportCovers(gamma[..], support[..]) && Clear()
      modifies marks
      ensures Decomposes(gamma[..], support[..], orbit)
      ensures forall x :: 0 <= x < marks.Length ==> (marks[x] <==> InCycles(orbit, |orbit|, x))
      ensures forall x :: 0 <= x < marks.Length && marks[x] ==> x in support[..]
    {
      ghost var g := gamma[..];
      ghost var supp := support[..];
      orbit := [];
      var i := 0;
      while i < support.Length
        invariant i <= support.Length
        invariant forall x :: 0 <= x < marks.Length ==> (marks[x] <==> InCycles(orbit, |orbit|, x))
        invariant Partial(g, supp, orbit, i)
      {
        var k := support[i];
        assert k in supp;
        if !marks[k] {
          marks[k] := true;
          var permutation := FollowCycle(gamma, k, orbit);
          AddCycle(g, supp, orbit, permutation, i);
          forall x | 0 <= x < marks.Length ensures marks[x] <==> InCycles(orbit + [permutation], |orbit| + 1, x) {
            InCyclesAppend(orbit, permutation, x);
          }
          orbit := orbit + [permutation];
        } else {
          SkipMarked(supp, orbit, i);
        }
        i := i + 1;
      }
      PartialDone(g, supp, orbit);
      DecompositionInSupport(g, supp, orbit);
    }

    /**
     * `onAutomorphismStoreOrbits`: sorts the support, appends one orbit group holding the
     * cycle decomposition of `gamma` on the support, leaves every mark clear and returns 1.
     * `gamma` is a permutation of the graph's nodes and the support holds every node it
     * moves, as saucy guarantees.
     */
    method OnAutomorphismStoreOrbits(gamma: array<int>, support: array<int>) returns (r: int)
      requires gamma.Length == marks.Length && IsPermutation(gamma[..]) && support != gamma
      requires forall i :: 0 <= i < support.Length ==> 0 <= support[i] < gamma.Length
      requires SupportCovers(gamma[..], support[..]) && Clear()
      modifies this, marks, support
      ensures r == 1 && Clear()
      ensures Sorted(support[..]) && multiset(support[..]) == multiset(old(support[..]))
      ensures |orbits| == |old(orbits)| + 1 && orbits[..|old(orbits)|] == old(orbits)
      ensures Decomposes(gamma[..], support[..], orbits[|orbits| - 1])
    {
      SortSupport(support);
      Rearranged(gamma[..], old(support[..]), support[..]);
      var orbit := CollectCycles(gamma, support);
      orbits := orbits + [orbit];
      ClearMarks(support);
      r := 1;
    }
  }
}
