/**
 * What the two union-find structures of the engine mean.
 *
 * An open path is a walk through open indices in which consecutive indices are adjacent. The engine's
 * full structure keeps two indices in one set exactly when an open path joins them; its no-backwash
 * structure does the same for paths that never touch the bottom virtual site. The invariant that gives
 * this, `Represents`, is the conjunction of two halves that the engine's unions preserve one at a time:
 * `Sound` (a shared representative is backed by an open path) and `Closed` (open adjacent indices share
 * a representative).
 */
module Connectivity {
  import opened Grid
  import opened UnionFind

  /** The links one structure follows: adjacency, avoiding the bottom virtual site when noBottom holds. */
  predicate Linked(n: int, noBottom: bool, i: int, j: int)
    requires n >= 1
  {
    Adjacent(n, i, j) && (noBottom ==> i != Bottom(n) && j != Bottom(n))
  }

  /**
   * The union the engine performs for neighbour d of a site being opened: d exists, is open, and is
   * not the bottom virtual site when the structure avoids it.
   */
  predicate Joins(n: int, open: seq<bool>, noBottom: bool, d: int) {
    d != NoSite && 0 <= d < |open| && open[d] && (noBottom ==> d != Bottom(n))
  }

  /** p is an open path: a non-empty walk through open indices along links. */
  ghost predicate IsPath(n: int, open: seq<bool>, noBottom: bool, p: seq<int>)
    requires n >= 1
  {
    |p| >= 1 &&
    (forall k :: 0 <= k < |p| ==> 0 <= p[k] < |open| && open[p[k]]) &&
    (forall k :: 0 <= k < |p| - 1 ==> Linked(n, noBottom, p[k], p[k + 1]))
  }

  /** Some open path starts at x and ends at y. */
  ghost predicate Reach(n: int, open: seq<bool>, noBottom: bool, x: int, y: int)
    requires n >= 1
  {
    exists p :: IsPath(n, open, noBottom, p) && p[0] == x && p[|p| - 1] == y
  }

  /** Indices with the same representative are equal or joined by an open path. */
  ghost predicate Sound(n: int, open: seq<bool>, noBottom: bool, root: seq<int>)
    requires n >= 1
  {
    |root| == |open| &&
    forall x, y :: 0 <= x < |root| && 0 <= y < |root| && root[x] == root[y] ==>
      x == y || Reach(n, open, noBottom, x, y)
  }

  /** Open linked indices have the same representative. */
  ghost predicate Closed(n: int, open: seq<bool>, noBottom: bool, root: seq<int>)
    requires n >= 1
  {
    |root| == |open| &&
    forall x, y :: 0 <= x < |root| && 0 <= y < |root| && open[x] && open[y] && Linked(n, noBottom, x, y) ==>
      root[x] == root[y]
  }

  /** The representatives `root` describe exactly the open-path connectivity of `open`. */
  ghost predicate Represents(n: int, open: seq<bool>, noBottom: bool, root: seq<int>)
    requires n >= 1
  {
    Sound(n, open, noBottom, root) && Closed(n, open, noBottom, root)
  }

  /** Every set of `fine` lies inside one set of `coarse`. */
  ghost predicate Coarsens(fine: seq<int>, coarse: seq<int>) {
    |fine| == |coarse| &&
    forall x, y :: 0 <= x < |fine| && 0 <= y < |fine| && fine[x] == fine[y] ==> coarse[x] == coarse[y]
  }

  function Reverse(p: seq<int>): (r: seq<int>)
    ensures |r| == |p| && forall k :: 0 <= k < |p| ==> r[k] == p[|p| - 1 - k]
  {
    seq(|p|, k requires 0 <= k < |p| => p[|p| - 1 - k])
  }

  /** An open path walked backwards is an open path. */
  lemma ReversePath(n: int, open: seq<bool>, noBottom: bool, p: seq<int>)
    requires n >= 1 && IsPath(n, open, noBottom, p)
    ensures IsPath(n, open, noBottom, Reverse(p))
  {
    var r := Reverse(p);
    forall k | 0 <= k < |r| - 1
      ensures Linked(n, noBottom, r[k], r[k + 1])
    {
      var j := |p| - 2 - k;
      assert Linked(n, noBottom, p[j], p[j + 1]);
      AdjacentSymmetric(n, p[j], p[j + 1]);
    }
  }

  /** Two open paths that meet end to start make one open path. */
  lemma JoinPaths(n: int, open: seq<bool>, noBottom: bool, a: seq<int>, b: seq<int>)
    requires n >= 1 && IsPath(n, open, noBottom, a) && IsPath(n, open, noBottom, b)
    requires a[|a| - 1] == b[0]
    ensures IsPath(n, open, noBottom, a + b[1..])
    ensures (a + b[1..])[0] == a[0] && (a + b[1..])[|a + b[1..]| - 1] == b[|b| - 1]
  {
    var c := a + b[1..];
    forall k | 0 <= k < |c| - 1
      ensures Linked(n, noBottom, c[k], c[k + 1])
    {
      if k < |a| - 1 {
        assert c[k] == a[k] && c[k + 1] == a[k + 1];
      } else {
        var j := k - |a| + 1;
        assert c[k] == b[j] && c[k + 1] == b[j + 1];
      }
    }
  }

  /** Open-path reachability is symmetric. */
  lemma ReachSymmetric(n: int, open: seq<bool>, noBottom: bool, x: int, y: int)
    requires n >= 1 && Reach(n, open, noBottom, x, y)
    ensures Reach(n, open, noBottom, y, x)
  {
    var p :| IsPath(n, open, noBottom, p) && p[0] == x && p[|p| - 1] == y;
    ReversePath(n, open, noBottom, p);
    assert Reverse(p)[0] == y;
  }

  /** Open-path reachability is transitive. */
  lemma ReachTransitive(n: int, open: seq<bool>, noBottom: bool, x: int, y: int, z: int)
    requires n >= 1 && Reach(n, open, noBottom, x, y) && Reach(n, open, noBottom, y, z)
    ensures Reach(n, open, noBottom, x, z)
  {
    var a :| IsPath(n, open, noBottom, a) && a[0] == x && a[|a| - 1] == y;
    var b :| IsPath(n, open, noBottom, b) && b[0] == y && b[|b| - 1] == z;
    JoinPaths(n, open, noBottom, a, b);
  }

  /** Two open linked indices reach each other in one step. */
  lemma ReachStep(n: int, open: seq<bool>, noBottom: bool, x: int, y: int)
    requires n >= 1 && 0 <= x < |open| && 0 <= y < |open| && open[x] && open[y]
    requires Linked(n, noBottom, x, y)
    ensures Reach(n, open, noBottom, x, y)
  {
    assert IsPath(n, open, noBottom, [x, y]);
  }

  /** Opening one more index keeps every open path open. */
  lemma ReachAfterOpen(n: int, open: seq<bool>, noBottom: bool, s: int, x: int, y: int)
    requires n >= 1 && 0 <= s < |open| && Reach(n, open, noBottom, x, y)
    ensures Reach(n, open[s := true], noBottom, x, y)
  {
    var p :| IsPath(n, open, noBottom, p) && p[0] == x && p[|p| - 1] == y;
    assert IsPath(n, open[s := true], noBottom, p);
  }

  /** Opening one more index keeps the structure sound. */
  lemma SoundAfterOpen(n: int, open: seq<bool>, noBottom: bool, root: seq<int>, s: int)
    requires n >= 1 && 0 <= s < |open| && Sound(n, open, noBottom, root)
    ensures Sound(n, open[s := true], noBottom, root)
  {
    forall x, y | 0 <= x < |root| && 0 <= y < |root| && root[x] == root[y] && x != y
      ensures Reach(n, open[s := true], noBottom, x, y)
    {
      ReachAfterOpen(n, open, noBottom, s, x, y);
    }
  }

  /** Along an open path of a closed structure the representative never changes. */
  lemma {:induction false} PathKeepsRoot(n: int, open: seq<bool>, noBottom: bool, root: seq<int>, p: seq<int>)
    requires n >= 1 && Closed(n, open, noBottom, root) && IsPath(n, open, noBottom, p)
    ensures root[p[0]] == root[p[|p| - 1]]
  {
    if |p| > 1 {
      var q := p[1..];
      assert IsPath(n, open, noBottom, q) by {
        forall k | 0 <= k < |q| - 1
          ensures Linked(n, noBottom, q[k], q[k + 1])
        {
          assert q[k] == p[k + 1] && q[k + 1] == p[k + 2];
        }
      }
      PathKeepsRoot(n, open, noBottom, root, q);
      assert Linked(n, noBottom, p[0], p[1]);
    }
  }

  /** Under the invariant, sharing a representative is exactly being equal or joined by an open path. */
  lemma RepresentsConnectivity(n: int, open: seq<bool>, noBottom: bool, root: seq<int>, x: int, y: int)
    requires n >= 1 && Represents(n, open, noBottom, root)
    requires 0 <= x < |root| && 0 <= y < |root|
    ensures root[x] == root[y] <==> x == y || Reach(n, open, noBottom, x, y)
  {
    if Reach(n, open, noBottom, x, y) {
      var p :| IsPath(n, open, noBottom, p) && p[0] == x && p[|p| - 1] == y;
      PathKeepsRoot(n, open, noBottom, root, p);
    }
  }

  /** A union along a link between open indices keeps the structure sound. */
  lemma MergeKeepsSound(n: int, open: seq<bool>, noBottom: bool, root: seq<int>, p: int, q: int, w: int)
    requires n >= 1 && Sound(n, open, noBottom, root)
    requires 0 <= p < |open| && 0 <= q < |open| && open[p] && open[q] && Linked(n, noBottom, p, q)
    requires w == root[p] || w == root[q]
    ensures Sound(n, open, noBottom, Merge(root, root[p], root[q], w))
  {
    var merged := Merge(root, root[p], root[q], w);
    forall x, y | 0 <= x < |merged| && 0 <= y < |merged| && merged[x] == merged[y] && x != y
      ensures Reach(n, open, noBottom, x, y)
    {
      MergeJoinsExactly(root, p, q, w, x, y);
      if root[x] != root[y] {
        ReachStep(n, open, noBottom, p, q);
        if root[x] == root[p] {
          JoinThrough(n, open, noBottom, root, x, p, q, y);
        } else {
          ReachSymmetric(n, open, noBottom, p, q);
          JoinThrough(n, open, noBottom, root, x, q, p, y);
        }
      }
    }
  }

  /** x with a's set, a reaching b, b with y's set: x reaches y. */
  lemma JoinThrough(n: int, open: seq<bool>, noBottom: bool, root: seq<int>, x: int, a: int, b: int, y: int)
    requires n >= 1 && Sound(n, open, noBottom, root)
    requires 0 <= x < |root| && 0 <= a < |root| && 0 <= b < |root| && 0 <= y < |root|
    requires root[x] == root[a] && root[b] == root[y] && Reach(n, open, noBottom, a, b)
    ensures Reach(n, open, noBottom, x, y)
  {
    if x != a {
      ReachTransitive(n, open, noBottom, x, a, b);
    }
    if b != y {
      ReachTransitive(n, open, noBottom, x, b, y);
    }
  }

  /** A merge only joins sets. */
  lemma MergeCoarsens(root: seq<int>, a: int, b: int, w: int)
    ensures Coarsens(root, Merge(root, a, b, w))
  {
  }

  /** Joining sets keeps open linked indices together. */
  lemma CoarsenKeepsClosed(n: int, open: seq<bool>, noBottom: bool, fine: seq<int>, coarse: seq<int>)
    requires n >= 1 && Closed(n, open, noBottom, fine) && Coarsens(fine, coarse)
    ensures Closed(n, open, noBottom, coarse)
  {
  }

  /**
   * Opening site s, after s has been joined to each of its open neighbours that the structure
   * links to, keeps every open linked pair together.
   */
  lemma ClosedAfterOpen(n: int, open: seq<bool>, noBottom: bool, root: seq<int>, s: int)
    requires n >= 1 && IsSite(n, s) && |open| == Size(n) && Closed(n, open, noBottom, root)
    requires forall d :: d in Neighbours(n, s) && Joins(n, open, noBottom, d) ==> root[s] == root[d]
    ensures Closed(n, open[s := true], noBottom, root)
  {
    var after := open[s := true];
    forall x, y | 0 <= x < |root| && 0 <= y < |root| && after[x] && after[y] && Linked(n, noBottom, x, y)
      ensures root[x] == root[y]
    {
      if x == s && y != s {
        NeighboursExact(n, s, y);
      } else if y == s && x != s {
        AdjacentSymmetric(n, x, y);
        NeighboursExact(n, s, x);
      }
    }
  }

  /** Two indices together before a coarsening are together after it. */
  lemma CoarsensKeepsPair(fine: seq<int>, coarse: seq<int>, x: int, y: int)
    requires Coarsens(fine, coarse) && 0 <= x < |fine| && 0 <= y < |fine| && fine[x] == fine[y]
    ensures coarse[x] == coarse[y]
  {
  }

  /** Coarsening is transitive. */
  lemma CoarsensTransitive(a: seq<int>, b: seq<int>, c: seq<int>)
    requires Coarsens(a, b) && Coarsens(b, c)
    ensures Coarsens(a, c)
  {
  }

  /**
   * The structures of a new engine represent its connectivity: every index is its own
   * representative, and only the two virtual sites are open.
   */
  lemma InitiallyRepresents(n: int, open: seq<bool>, noBottom: bool, root: seq<int>)
    requires n >= 1 && |open| == Size(n) && |root| == Size(n)
    requires forall i :: 0 <= i < n * n ==> !open[i]
    requires forall i :: 0 <= i < |root| ==> root[i] == i
    ensures Represents(n, open, noBottom, root)
  {
    forall x, y | 0 <= x < |root| && 0 <= y < |root| && open[x] && open[y]
      ensures !Linked(n, noBottom, x, y)
    {
    }
  }

  /**
   * If four successive coarsenings leave s with the same representative as each neighbour the
   * structure links to, and the result is sound with s open, it represents the connectivity with s open.
   */
  lemma JoinedAllNeighbours(n: int, open: seq<bool>, noBottom: bool, s: int,
                            root0: seq<int>, root1: seq<int>, root2: seq<int>, root3: seq<int>, root4: seq<int>)
    requires n >= 1 && IsSite(n, s) && |open| == Size(n) && !open[s]
    requires Closed(n, open, noBottom, root0)
    requires Coarsens(root0, root1) && Coarsens(root1, root2) && Coarsens(root2, root3) && Coarsens(root3, root4)
    requires Joins(n, open, noBottom, UpSite(n, s)) ==> root1[s] == root1[UpSite(n, s)]
    requires Joins(n, open, noBottom, RightSite(n, s)) ==> root2[s] == root2[RightSite(n, s)]
    requires Joins(n, open, noBottom, DownSite(n, s)) ==> root3[s] == root3[DownSite(n, s)]
    requires Joins(n, open, noBottom, LeftSite(n, s)) ==> root4[s] == root4[LeftSite(n, s)]
    requires Sound(n, open[s := true], noBottom, root4)
    ensures Represents(n, open[s := true], noBottom, root4)
  {
    CoarsensTransitive(root1, root2, root3);
    CoarsensTransitive(root1, root3, root4);
    CoarsensTransitive(root2, root3, root4);
    CoarsensTransitive(root0, root1, root4);
    CoarsenKeepsClosed(n, open, noBottom, root0, root4);
    NeighboursInRange(n, s);
    forall d | d in Neighbours(n, s) && Joins(n, open, noBottom, d)
      ensures root4[s] == root4[d]
    {
      if d == UpSite(n, s) {
        CoarsensKeepsPair(root1, root4, s, d);
      } else if d == RightSite(n, s) {
        CoarsensKeepsPair(root2, root4, s, d);
      } else if d == DownSite(n, s) {
        CoarsensKeepsPair(root3, root4, s, d);
      }
    }
    ClosedAfterOpen(n, open, noBottom, root4, s);
  }

  /**
   * The effect of one union the engine performs while opening blocked site s: when the structure
   * joins neighbour d, the sets of s and d are merged under one of their two representatives;
   * otherwise nothing changes.
   */
  ghost predicate UnionStep(n: int, open: seq<bool>, noBottom: bool, s: int, d: int, before: seq<int>, after: seq<int>)
    requires 0 <= s < |before|
  {
    if Joins(n, open, noBottom, d) && d < |before| then
      |after| == |before| && (after[s] == before[s] || after[s] == before[d]) && after == Merge(before, before[s], before[d], after[s])
    else
      after == before
  }

  /** One union step keeps the structure sound for the flags with s open, only joins sets, and joins s to d. */
  lemma UnionStepKeepsSound(n: int, open: seq<bool>, noBottom: bool, s: int, d: int, before: seq<int>, after: seq<int>)
    requires n >= 1 && IsSite(n, s) && |open| == Size(n) && |before| == Size(n)
    requires d != NoSite ==> Adjacent(n, s, d)
    requires Sound(n, open[s := true], noBottom, before)
    requires UnionStep(n, open, noBottom, s, d, before, after)
    ensures Sound(n, open[s := true], noBottom, after) && Coarsens(before, after)
    ensures Joins(n, open, noBottom, d) ==> after[s] == after[d]
  {
    if Joins(n, open, noBottom, d) {
      AdjacentSymmetric(n, s, d);
      MergeKeepsSound(n, open[s := true], noBottom, before, s, d, after[s]);
      MergeCoarsens(before, before[s], before[d], after[s]);
    }
  }

  /** The four union steps, one per neighbour of s in the order up, right, down, left. */
  ghost predicate FourUnionSteps(n: int, open: seq<bool>, noBottom: bool, s: int,
                                 root0: seq<int>, root1: seq<int>, root2: seq<int>, root3: seq<int>, root4: seq<int>)
  {
    n >= 1 && 0 <= s < |root0| && 0 <= s < |root1| && 0 <= s < |root2| && 0 <= s < |root3| &&
    UnionStep(n, open, noBottom, s, UpSite(n, s), root0, root1) &&
    UnionStep(n, open, noBottom, s, RightSite(n, s), root1, root2) &&
    UnionStep(n, open, noBottom, s, DownSite(n, s), root2, root3) &&
    UnionStep(n, open, noBottom, s, LeftSite(n, s), root3, root4)
  }

  /**
   * The four union steps the engine performs when it opens blocked site s, one per neighbour in the
   * order up, right, down, left, leave a structure that represents the connectivity with s open.
   */
  lemma FourUnionStepsRepresent(n: int, open: seq<bool>, noBottom: bool, s: int,
                                root0: seq<int>, root1: seq<int>, root2: seq<int>, root3: seq<int>, root4: seq<int>)
    requires n >= 1 && IsSite(n, s) && |open| == Size(n) && !open[s] && |root0| == Size(n)
    requires Sound(n, open[s := true], noBottom, root0) && Closed(n, open, noBottom, root0)
    requires FourUnionSteps(n, open, noBottom, s, root0, root1, root2, root3, root4)
    ensures Represents(n, open[s := true], noBottom, root4)
  {
    NeighboursInRange(n, s);
    NeighboursExact(n, s, UpSite(n, s));
    NeighboursExact(n, s, RightSite(n, s));
    NeighboursExact(n, s, DownSite(n, s));
    NeighboursExact(n, s, LeftSite(n, s));
    UnionStepKeepsSound(n, open, noBottom, s, UpSite(n, s), root0, root1);
    UnionStepKeepsSound(n, open, noBottom, s, RightSite(n, s), root1, root2);
    UnionStepKeepsSound(n, open, noBottom, s, DownSite(n, s), root2, root3);
    UnionStepKeepsSound(n, open, noBottom, s, LeftSite(n, s), root3, root4);
    JoinedAllNeighbours(n, open, noBottom, s, root0, root1, root2, root3, root4);
  }

  /**
   * The engine invariant on values: both virtual sites are open, count is the number of open real
   * sites, full represents open-path connectivity and partial represents open-path connectivity
   * avoiding the bottom virtual site.
   */
  ghost predicate Consistent(n: int, flags: seq<bool>, count: int, full: seq<int>, partial: seq<int>)
  {
    n >= 1 && |flags| == Size(n) && |full| == Size(n) && |partial| == Size(n) &&
    flags[Top(n)] && flags[Bottom(n)] &&
    count == OpenSiteCount(n, flags) &&
    Represents(n, flags, false, full) && Represents(n, flags, true, partial)
  }

  /**
   * Opening blocked site s, counting it and performing the four union steps in both structures
   * keeps the engine invariant.
   */
  lemma OpenKeepsConsistent(n: int, flags: seq<bool>, count: int, s: int, after: seq<bool>, newCount: int,
                            full0: seq<int>, full1: seq<int>, full2: seq<int>, full3: seq<int>, full4: seq<int>,
                            part0: seq<int>, part1: seq<int>, part2: seq<int>, part3: seq<int>, part4: seq<int>)
    requires Consistent(n, flags, count, full0, part0) && IsSite(n, s) && !flags[s]
    requires after == flags[s := true] && newCount == count + 1
    requires FourUnionSteps(n, flags, false, s, full0, full1, full2, full3, full4)
    requires FourUnionSteps(n, flags, true, s, part0, part1, part2, part3, part4)
    ensures Consistent(n, after, newCount, full4, part4)
  {
    SoundAfterOpen(n, flags, false, full0, s);
    SoundAfterOpen(n, flags, true, part0, s);
    FourUnionStepsRepresent(n, flags, false, s, full0, full1, full2, full3, full4);
    FourUnionStepsRepresent(n, flags, true, s, part0, part1, part2, part3, part4);
    OpenSiteCountAfterOpen(n, flags, s);
  }

  /** A new engine, with only the virtual sites open and every index on its own, keeps the invariant. */
  lemma InitiallyConsistent(n: int, flags: seq<bool>, full: seq<int>, partial: seq<int>)
    requires n >= 1 && |flags| == Size(n) && |full| == Size(n) && |partial| == Size(n)
    requires flags[..n * n] == seq(n * n, _ => false) && flags[Top(n)] && flags[Bottom(n)]
    requires forall i :: 0 <= i < Size(n) ==> full[i] == i && partial[i] == i
    ensures Consistent(n, flags, 0, full, partial)
  {
    forall i | 0 <= i < n * n
      ensures !flags[i]
    {
      assert flags[..n * n][i] == flags[i];
    }
    InitiallyRepresents(n, flags, false, full);
    InitiallyRepresents(n, flags, true, partial);
  }
}
