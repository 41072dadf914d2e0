/**
 * What the engine's two answers mean on the grid itself, without virtual sites.
 *
 * A site is full when an open walk of real sites leads to it from an open site of the first row, and
 * the system percolates when some site of the last row is full. The engine decides both through its
 * virtual sites (`Reach` to the top virtual site avoiding the bottom one, and `Reach` between the two
 * virtual sites); the lemmas here show the two formulations agree, and exhibit the backwash that the
 * second union-find structure exists to avoid.
 */
module Spanning {
  import opened Grid
  import opened Connectivity

  /** q is a non-empty walk through open real sites, each adjacent to the next. */
  ghost predicate SitePath(n: int, open: seq<bool>, q: seq<int>)
    requires n >= 1
  {
    |q| >= 1 &&
    (forall k :: 0 <= k < |q| ==> IsSite(n, q[k]) && q[k] < |open| && open[q[k]]) &&
    (forall k :: 0 <= k < |q| - 1 ==> Adjacent(n, q[k], q[k + 1]))
  }

  /** Site x is full: an open walk of real sites leads to x from an open site of the first row. */
  ghost predicate Fed(n: int, open: seq<bool>, x: int)
    requires n >= 1
  {
    exists q :: SitePath(n, open, q) && Row(n, q[0]) == 0 && q[|q| - 1] == x
  }

  /** The system percolates: some site of the last row is full. */
  ghost predicate Spans(n: int, open: seq<bool>)
    requires n >= 1
  {
    exists x :: IsSite(n, x) && Row(n, x) == n - 1 && Fed(n, open, x)
  }

  /** An open site of the first row is full. */
  lemma FedStart(n: int, open: seq<bool>, x: int)
    requires n >= 1 && IsSite(n, x) && Row(n, x) == 0 && x < |open| && open[x]
    ensures Fed(n, open, x)
  {
    assert SitePath(n, open, [x]);
  }

  /** An open site adjacent to a full site is full. */
  lemma FedStep(n: int, open: seq<bool>, x: int, y: int)
    requires n >= 1 && Fed(n, open, x)
    requires IsSite(n, y) && y < |open| && open[y] && Adjacent(n, x, y)
    ensures Fed(n, open, y)
  {
    var q :| SitePath(n, open, q) && Row(n, q[0]) == 0 && q[|q| - 1] == x;
    var r := q + [y];
    assert r[0] == q[0] && r[|r| - 1] == y;
    forall k | 0 <= k < |r| - 1
      ensures Adjacent(n, r[k], r[k + 1])
    {
      if k < |q| - 1 {
        assert r[k] == q[k] && r[k + 1] == q[k + 1];
      }
    }
    assert SitePath(n, open, r);
  }

  /**
   * Along an open path that avoids the bottom virtual site, from the top virtual site or a full site
   * onwards, every real site met is full.
   */
  lemma {:induction false} WalkFeeds(n: int, open: seq<bool>, p: seq<int>, k: int)
    requires n >= 1 && |open| == Size(n) && IsPath(n, open, true, p) && 0 <= k < |p|
    requires p[k] == Top(n) || (IsSite(n, p[k]) && Fed(n, open, p[k]))
    ensures IsSite(n, p[|p| - 1]) ==> Fed(n, open, p[|p| - 1])
    decreases |p| - k
  {
    if k < |p| - 1 {
      var x, y := p[k], p[k + 1];
      assert Linked(n, true, x, y);
      if IsSite(n, y) {
        if x == Top(n) {
          FedStart(n, open, y);
        } else {
          FedStep(n, open, x, y);
        }
      }
      WalkFeeds(n, open, p, k + 1);
    }
  }

  /**
   * Along an open path that ends at the bottom virtual site, from the top virtual site or a full site
   * onwards, some site of the last row is full.
   */
  lemma {:induction false} WalkSpans(n: int, open: seq<bool>, p: seq<int>, k: int)
    requires n >= 1 && |open| == Size(n) && IsPath(n, open, false, p) && 0 <= k < |p|
    requires p[|p| - 1] == Bottom(n)
    requires p[k] == Top(n) || (IsSite(n, p[k]) && Fed(n, open, p[k]))
    ensures Spans(n, open)
    decreases |p| - k
  {
    var x, y := p[k], p[k + 1];
    assert Linked(n, false, x, y);
    if y == Bottom(n) {
      assert IsSite(n, x) && Row(n, x) == n - 1;
    } else {
      if IsSite(n, y) {
        if x == Top(n) {
          FedStart(n, open, y);
        } else {
          FedStep(n, open, x, y);
        }
      }
      WalkSpans(n, open, p, k + 1);
    }
  }

  /**
   * The engine's notion of fullness, an open path from the site to the top virtual site that never
   * uses the bottom virtual site, is exactly fullness on the grid.
   */
  lemma FullIffFed(n: int, open: seq<bool>, s: int)
    requires n >= 1 && |open| == Size(n) && open[Top(n)] && IsSite(n, s)
    ensures Reach(n, open, true, s, Top(n)) <==> Fed(n, open, s)
  {
    if Reach(n, open, true, s, Top(n)) {
      ReachSymmetric(n, open, true, s, Top(n));
      var p :| IsPath(n, open, true, p) && p[0] == Top(n) && p[|p| - 1] == s;
      WalkFeeds(n, open, p, 0);
    }
    if Fed(n, open, s) {
      var q :| SitePath(n, open, q) && Row(n, q[0]) == 0 && q[|q| - 1] == s;
      var p := [Top(n)] + q;
      forall k | 0 <= k < |p| - 1
        ensures Linked(n, true, p[k], p[k + 1])
      {
        if k > 0 {
          assert p[k] == q[k - 1] && p[k + 1] == q[k];
        }
      }
      assert IsPath(n, open, true, p);
      assert p[|p| - 1] == s;
      ReachSymmetric(n, open, true, Top(n), s);
    }
  }

  /**
   * The engine's notion of percolation, an open path between the two virtual sites, is exactly a
   * full site on the last row.
   */
  lemma PercolatesIffSpans(n: int, open: seq<bool>)
    requires n >= 1 && |open| == Size(n) && open[Top(n)] && open[Bottom(n)]
    ensures Reach(n, open, false, Top(n), Bottom(n)) <==> Spans(n, open)
  {
    if Reach(n, open, false, Top(n), Bottom(n)) {
      var p :| IsPath(n, open, false, p) && p[0] == Top(n) && p[|p| - 1] == Bottom(n);
      WalkSpans(n, open, p, 0);
    }
    if Spans(n, open) {
      var x :| IsSite(n, x) && Row(n, x) == n - 1 && Fed(n, open, x);
      var q :| SitePath(n, open, q) && Row(n, q[0]) == 0 && q[|q| - 1] == x;
      var p := [Top(n)] + q + [Bottom(n)];
      forall k | 0 <= k < |p| - 1
        ensures Linked(n, false, p[k], p[k + 1])
      {
        if 0 < k < |p| - 2 {
          assert p[k] == q[k - 1] && p[k + 1] == q[k];
        } else if k == |p| - 2 {
          assert p[k] == x;
        }
      }
      assert IsPath(n, open, false, p);
    }
  }

  /** Every site of a walk that starts in a region with no open neighbour outside it stays in the region. */
  lemma {:induction false} SitePathInRegion(n: int, open: seq<bool>, region: set<int>, q: seq<int>, k: int)
    requires n >= 1 && SitePath(n, open, q) && q[0] in region && 0 <= k < |q|
    requires forall y, z :: y in region && IsSite(n, z) && z < |open| && open[z] && Adjacent(n, y, z) ==> z in region
    ensures q[k] in region
  {
    if k > 0 {
      SitePathInRegion(n, open, region, q, k - 1);
      assert Adjacent(n, q[k - 1], q[k]);
    }
  }

  /**
   * A region that holds every open site of the first row and has no open neighbour outside it holds
   * every full site.
   */
  lemma FedStaysInRegion(n: int, open: seq<bool>, region: set<int>, x: int)
    requires n >= 1
    requires forall y :: IsSite(n, y) && Row(n, y) == 0 && y < |open| && open[y] ==> y in region
    requires forall y, z :: y in region && IsSite(n, z) && z < |open| && open[z] && Adjacent(n, y, z) ==> z in region
    requires Fed(n, open, x)
    ensures x in region
  {
    var q :| SitePath(n, open, q) && Row(n, q[0]) == 0 && q[|q| - 1] == x;
    SitePathInRegion(n, open, region, q, |q| - 1);
  }

  /** While no site of the first row is open, no site is full. */
  lemma NoFullWithoutOpenFirstRow(n: int, open: seq<bool>, x: int)
    requires n >= 1
    requires forall y :: IsSite(n, y) && Row(n, y) == 0 && y < |open| ==> !open[y]
    ensures !Fed(n, open, x)
  {
    if Fed(n, open, x) {
      FedStaysInRegion(n, open, {}, x);
    }
  }

  /**
   * With only sites of the last row open, on a grid of two or more rows, no site is full and the
   * system does not percolate, although those sites are joined to the bottom virtual site.
   */
  lemma LastRowOnly(n: int, open: seq<bool>, x: int)
    requires n >= 2
    requires forall y :: IsSite(n, y) && y < |open| && open[y] ==> Row(n, y) == n - 1
    ensures !Fed(n, open, x) && !Spans(n, open)
  {
    NoFullWithoutOpenFirstRow(n, open, x);
    forall y | IsSite(n, y) && Row(n, y) == n - 1
      ensures !Fed(n, open, y)
    {
      NoFullWithoutOpenFirstRow(n, open, y);
    }
  }

  /** With every real site open, the site on row r of column c is full: walk down column c. */
  lemma {:induction false} ColumnFed(n: int, open: seq<bool>, r: int, c: int)
    requires n >= 1 && |open| == Size(n) && (forall i :: 0 <= i < n * n ==> open[i])
    requires 0 <= r < n && 0 <= c < n
    ensures Fed(n, open, r * n + c)
    decreases r
  {
    FromCoords(n, r, c);
    if r == 0 {
      FedStart(n, open, r * n + c);
    } else {
      ColumnFed(n, open, r - 1, c);
      FromCoords(n, r - 1, c);
      assert Adjacent(n, (r - 1) * n + c, r * n + c);
      FedStep(n, open, (r - 1) * n + c, r * n + c);
    }
  }

  /** With every real site open, every site is full and the system percolates. */
  lemma AllOpenFed(n: int, open: seq<bool>, x: int)
    requires n >= 1 && |open| == Size(n) && (forall i :: 0 <= i < n * n ==> open[i]) && IsSite(n, x)
    ensures Fed(n, open, x) && Spans(n, open)
  {
    Coords(n, x);
    ColumnFed(n, open, Row(n, x), Col(n, x));
    ColumnFed(n, open, n - 1, 0);
    FromCoords(n, n - 1, 0);
  }

  /**
   * A 3-by-3 grid whose first column and bottom-right site are open: indices 0, 3 and 6 form the
   * first column, 8 is the bottom-right site, 9 and 10 are the virtual sites.
   */
  function BackwashFlags(): (flags: seq<bool>)
    ensures |flags| == Size(3)
  {
    [true, false, false, true, false, false, true, false, true, true, true]
  }

  /**
   * In that grid the system percolates, and the bottom-right site reaches the top virtual site once
   * paths may pass through the bottom virtual site.
   */
  lemma BackwashReaches()
    ensures Reach(3, BackwashFlags(), false, Top(3), Bottom(3))
    ensures Reach(3, BackwashFlags(), false, 8, Top(3))
  {
    var open := BackwashFlags();
    ReachStep(3, open, false, Top(3), 0);
    ReachStep(3, open, false, 0, 3);
    ReachTransitive(3, open, false, Top(3), 0, 3);
    ReachStep(3, open, false, 3, 6);
    ReachTransitive(3, open, false, Top(3), 3, 6);
    ReachStep(3, open, false, 6, Bottom(3));
    ReachTransitive(3, open, false, Top(3), 6, Bottom(3));
    ReachStep(3, open, false, Bottom(3), 8);
    ReachTransitive(3, open, false, Top(3), Bottom(3), 8);
    ReachSymmetric(3, open, false, Top(3), 8);
  }

  /** In that grid the first column holds the only open site of the first row and has no open neighbour outside it. */
  lemma FirstColumnClosed()
    ensures forall y :: IsSite(3, y) && Row(3, y) == 0 && y < |BackwashFlags()| && BackwashFlags()[y] ==> y in {0, 3, 6}
    ensures forall y, z :: y in {0, 3, 6} && IsSite(3, z) && z < |BackwashFlags()| && BackwashFlags()[z] && Adjacent(3, y, z) ==>
      z in {0, 3, 6}
  {
    var open := BackwashFlags();
    forall y | IsSite(3, y) && Row(3, y) == 0 && y < |open| && open[y]
      ensures y in {0, 3, 6}
    {
      assert y in {0, 1, 2};
    }
    forall y, z | y in {0, 3, 6} && IsSite(3, z) && z < |open| && open[z] && Adjacent(3, y, z)
      ensures z in {0, 3, 6}
    {
      assert z in {0, 1, 2, 3, 4, 5, 6, 7, 8};
    }
  }

  /**
   * Backwash: in that grid the system percolates, and the bottom-right site reaches the top virtual
   * site through the bottom virtual site, yet it is not full. A single structure that includes the
   * bottom virtual site would report it full.
   */
  lemma Backwash()
    ensures Reach(3, BackwashFlags(), false, Top(3), Bottom(3))
    ensures Reach(3, BackwashFlags(), false, 8, Top(3))
    ensures !Reach(3, BackwashFlags(), true, 8, Top(3))
    ensures !Fed(3, BackwashFlags(), 8)
  {
    BackwashReaches();
    FirstColumnClosed();
    if Fed(3, BackwashFlags(), 8) {
      FedStaysInRegion(3, BackwashFlags(), {0, 3, 6}, 8);
    }
    FullIffFed(3, BackwashFlags(), 8);
  }
}
