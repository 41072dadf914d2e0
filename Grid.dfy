/**
 * Index arithmetic of the n-by-n percolation grid.
 *
 * Site (row, col), with 1 <= row, col <= n, is stored row-major at index (row - 1) * n + (col - 1),
 * so the real sites occupy 0 .. n*n - 1. Index n*n is the top virtual site and n*n + 1 the bottom
 * virtual site. Besides the engine's own neighbour arithmetic, this module defines 4-adjacency
 * independently, in grid coordinates, and proves that the two agree.
 */
module Grid {
  import opened Outcomes

  /** Index of the top virtual site. */
  function Top(n: int): int { n * n }

  /** Index of the bottom virtual site. */
  function Bottom(n: int): int { n * n + 1 }

  /** Number of indices the engine allocates: the real sites and the two virtual ones. */
  function Size(n: int): int { n * n + 2 }

  /** Sentinel the engine uses for a missing left or right neighbour. */
  const NoSite: int := -1

  /** i is the index of a real grid site. */
  predicate IsSite(n: int, i: int) { 0 <= i < n * n }

  /** i is an index of the engine's arrays: a real site or one of the two virtual sites. */
  predicate IsIndex(n: int, i: int) { 0 <= i < Size(n) }

  /** 0-based row of a real site. */
  function Row(n: int, i: int): int
    requires n >= 1
  {
    i / n
  }

  /** 0-based column of a real site. */
  function Col(n: int, i: int): int
    requires n >= 1
  {
    i % n
  }

  /** (row, col) lies in [1, n] x [1, n]. */
  predicate InGrid(n: int, row: int, col: int) {
    1 <= row <= n && 1 <= col <= n
  }

  /** If -n < k*n < n then k is 0. */
  lemma MulStrictBound(k: int, n: int)
    requires n >= 1 && -n < k * n < n
    ensures k == 0
  {
  }

  /** Multiplying by a non-negative factor keeps the order. */
  lemma MulMonotone(a: int, b: int, n: int)
    requires a <= b && n >= 0
    ensures a * n <= b * n
  {
  }

  /** The 0-based coordinates (r, c) of index r*n + c are recovered by Row and Col. */
  lemma FromCoords(n: int, r: int, c: int)
    requires n >= 1 && 0 <= c < n
    ensures Row(n, r * n + c) == r && Col(n, r * n + c) == c
    ensures 0 <= r < n ==> IsSite(n, r * n + c)
  {
    var i := r * n + c;
    assert (r - i / n) * n == i % n - c;
    MulStrictBound(r - i / n, n);
    if 0 <= r < n { MulMonotone(r, n - 1, n); }
  }

  /** Every real site has coordinates inside the grid, and is determined by them. */
  lemma Coords(n: int, i: int)
    requires n >= 1 && IsSite(n, i)
    ensures 0 <= Row(n, i) < n && 0 <= Col(n, i) < n
    ensures i == Row(n, i) * n + Col(n, i)
  {
  }

  /** Java's getSiteIndex: the row-major index of site (row, col). */
  function SiteIndex(n: int, row: int, col: int): (i: int)
    requires n >= 1
    ensures InGrid(n, row, col) ==> IsSite(n, i) && Row(n, i) == row - 1 && Col(n, i) == col - 1
  {
    if InGrid(n, row, col) then FromCoords(n, row - 1, col - 1); (row - 1) * n + (col - 1)
    else (row - 1) * n + (col - 1)
  }

  /** Two sites inside the grid share an index only when they are the same site. */
  lemma SiteIndexInjective(n: int, row1: int, col1: int, row2: int, col2: int)
    requires n >= 1 && InGrid(n, row1, col1) && InGrid(n, row2, col2)
    ensures SiteIndex(n, row1, col1) == SiteIndex(n, row2, col2) <==> row1 == row2 && col1 == col2
  {
    var i, j := SiteIndex(n, row1, col1), SiteIndex(n, row2, col2);
    if i == j {
      assert row1 - 1 == Row(n, i) == Row(n, j) == row2 - 1;
    }
  }

  /** Java's validateRowAndCol: passes exactly for a site of the grid, and then names a real site. */
  function ValidateRowAndCol(n: int, row: int, col: int): (r: Outcome)
    requires n >= 1
    ensures r.Pass? <==> InGrid(n, row, col)
    ensures r.Fail? ==> r.error == IllegalArgument(RowAndColMessage)
    ensures r.Pass? ==> IsSite(n, SiteIndex(n, row, col))
  {
    if row < 1 || row > n || col < 1 || col > n then Fail(IllegalArgument(RowAndColMessage)) else Pass
  }

  // The four neighbours exactly as connectWithAdjacentSites computes them.

  /** The site above, or the top virtual site for a site on the first row. */
  function UpSite(n: int, s: int): int { if s > n - 1 then s - n else Top(n) }

  /** The site to the right, or NoSite for a site on the last column. */
  function RightSite(n: int, s: int): int
    requires n >= 1
  {
    if s % n == n - 1 then NoSite else s + 1
  }

  /** The site below, or the bottom virtual site for a site on the last row. */
  function DownSite(n: int, s: int): int { if s < n * n - n then s + n else Bottom(n) }

  /** The site to the left, or NoSite for a site on the first column. */
  function LeftSite(n: int, s: int): int
    requires n >= 1
  {
    if s % n == 0 then NoSite else s - 1
  }

  /** The neighbours in the order the engine visits them: up, right, down, left. */
  function Neighbours(n: int, s: int): seq<int>
    requires n >= 1
  {
    [UpSite(n, s), RightSite(n, s), DownSite(n, s), LeftSite(n, s)]
  }

  function Distance(a: int, b: int): nat { if a < b then b - a else a - b }

  /**
   * Reference 4-adjacency on all indices: two real sites are adjacent when they are one step apart
   * in the same row or the same column; the top virtual site is adjacent to every site of the first
   * row and the bottom virtual site to every site of the last row. The virtual sites are not
   * adjacent to each other.
   */
  predicate Adjacent(n: int, i: int, j: int)
    requires n >= 1
  {
    if IsSite(n, i) && IsSite(n, j) then
      (Row(n, i) == Row(n, j) && Distance(Col(n, i), Col(n, j)) == 1) ||
      (Col(n, i) == Col(n, j) && Distance(Row(n, i), Row(n, j)) == 1)
    else if IsSite(n, j) then
      (i == Top(n) && Row(n, j) == 0) || (i == Bottom(n) && Row(n, j) == n - 1)
    else if IsSite(n, i) then
      (j == Top(n) && Row(n, i) == 0) || (j == Bottom(n) && Row(n, i) == n - 1)
    else
      false
  }

  /** Every neighbour the engine computes is NoSite or an index of its arrays, and never the site itself. */
  lemma NeighbourIndices(n: int, s: int)
    requires n >= 1 && IsSite(n, s)
    ensures UpSite(n, s) != s && IsIndex(n, UpSite(n, s))
    ensures RightSite(n, s) != s && (RightSite(n, s) == NoSite || IsIndex(n, RightSite(n, s)))
    ensures DownSite(n, s) != s && IsIndex(n, DownSite(n, s))
    ensures LeftSite(n, s) != s && (LeftSite(n, s) == NoSite || IsIndex(n, LeftSite(n, s)))
  {
    NeighboursInRange(n, s);
    assert Neighbours(n, s)[0] == UpSite(n, s) && Neighbours(n, s)[1] == RightSite(n, s);
    assert Neighbours(n, s)[2] == DownSite(n, s) && Neighbours(n, s)[3] == LeftSite(n, s);
  }

  lemma NeighboursInRange(n: int, s: int)
    requires n >= 1 && IsSite(n, s)
    ensures forall d :: d in Neighbours(n, s) ==> d != s && (d == NoSite || IsIndex(n, d))
  {
    Coords(n, s);
    var r, c := Row(n, s), Col(n, s);
    assert r * n <= (n - 1) * n;
  }

  /** The up neighbour is the top virtual site exactly on the first row, else the site one row up. */
  lemma UpSiteCoords(n: int, s: int)
    requires n >= 1 && IsSite(n, s)
    ensures Row(n, s) == 0 ==> UpSite(n, s) == Top(n)
    ensures Row(n, s) > 0 ==>
      IsSite(n, UpSite(n, s)) && Row(n, UpSite(n, s)) == Row(n, s) - 1 && Col(n, UpSite(n, s)) == Col(n, s)
  {
    Coords(n, s);
    var r, c := Row(n, s), Col(n, s);
    if r > 0 {
      MulMonotone(1, r, n);
      assert s - n == (r - 1) * n + c;
      FromCoords(n, r - 1, c);
    }
  }

  /** The down neighbour is the bottom virtual site exactly on the last row, else the site one row down. */
  lemma DownSiteCoords(n: int, s: int)
    requires n >= 1 && IsSite(n, s)
    ensures Row(n, s) == n - 1 ==> DownSite(n, s) == Bottom(n)
    ensures Row(n, s) < n - 1 ==>
      IsSite(n, DownSite(n, s)) && Row(n, DownSite(n, s)) == Row(n, s) + 1 && Col(n, DownSite(n, s)) == Col(n, s)
  {
    Coords(n, s);
    var r, c := Row(n, s), Col(n, s);
    assert (n - 1) * n == n * n - n;
    if r < n - 1 {
      assert r * n <= (n - 2) * n;
      FromCoords(n, r + 1, c);
      assert s + n == (r + 1) * n + c;
    }
  }

  /** The right neighbour is NoSite exactly on the last column, else the site one column right. */
  lemma RightSiteCoords(n: int, s: int)
    requires n >= 1 && IsSite(n, s)
    ensures Col(n, s) == n - 1 ==> RightSite(n, s) == NoSite
    ensures Col(n, s) < n - 1 ==>
      IsSite(n, RightSite(n, s)) && Row(n, RightSite(n, s)) == Row(n, s) && Col(n, RightSite(n, s)) == Col(n, s) + 1
  {
    Coords(n, s);
    var r, c := Row(n, s), Col(n, s);
    if c < n - 1 {
      FromCoords(n, r, c + 1);
    }
  }

  /** The left neighbour is NoSite exactly on the first column, else the site one column left. */
  lemma LeftSiteCoords(n: int, s: int)
    requires n >= 1 && IsSite(n, s)
    ensures Col(n, s) == 0 ==> LeftSite(n, s) == NoSite
    ensures Col(n, s) > 0 ==>
      IsSite(n, LeftSite(n, s)) && Row(n, LeftSite(n, s)) == Row(n, s) && Col(n, LeftSite(n, s)) == Col(n, s) - 1
  {
    Coords(n, s);
    var r, c := Row(n, s), Col(n, s);
    if c > 0 {
      FromCoords(n, r, c - 1);
    }
  }

  /** Two real sites with the same coordinates are the same site. */
  lemma SameCoords(n: int, i: int, j: int)
    requires n >= 1 && IsSite(n, i) && IsSite(n, j)
    requires Row(n, i) == Row(n, j) && Col(n, i) == Col(n, j)
    ensures i == j
  {
    Coords(n, i);
    Coords(n, j);
  }

  /**
   * The engine's neighbour arithmetic is exactly 4-adjacency: an index is adjacent to real site s
   * if and only if it is one of the four neighbours computed for s (other than the NoSite sentinel).
   */
  lemma NeighboursExact(n: int, s: int, j: int)
    requires n >= 1 && IsSite(n, s)
    ensures Adjacent(n, s, j) <==> j != NoSite && j in Neighbours(n, s)
  {
    Coords(n, s);
    UpSiteCoords(n, s);
    DownSiteCoords(n, s);
    RightSiteCoords(n, s);
    LeftSiteCoords(n, s);
    var up, right, down, left := UpSite(n, s), RightSite(n, s), DownSite(n, s), LeftSite(n, s);
    if IsSite(n, j) && Adjacent(n, s, j) {
      Coords(n, j);
      if Row(n, j) == Row(n, s) {
        if Col(n, j) == Col(n, s) + 1 { SameCoords(n, j, right); } else { SameCoords(n, j, left); }
      } else {
        if Row(n, j) == Row(n, s) + 1 { SameCoords(n, j, down); } else { SameCoords(n, j, up); }
      }
    }
  }

  /** Adjacency is symmetric. */
  lemma AdjacentSymmetric(n: int, i: int, j: int)
    requires n >= 1
    ensures Adjacent(n, i, j) <==> Adjacent(n, j, i)
  {
  }

  /** Number of open real sites among the flags (the virtual sites are not counted). */
  function OpenSiteCount(n: int, flags: seq<bool>): nat
    requires 0 <= n * n <= |flags|
  {
    multiset(flags[..n * n])[true]
  }

  /** Opening a blocked real site adds exactly one to the number of open real sites. */
  lemma OpenSiteCountAfterOpen(n: int, flags: seq<bool>, s: int)
    requires IsSite(n, s) && n * n <= |flags| && !flags[s]
    ensures OpenSiteCount(n, flags[s := true]) == OpenSiteCount(n, flags) + 1
  {
    assert flags[s := true][..n * n] == flags[..n * n][s := true];
  }

  /** Helper: a sequence of flags holds at most as many true flags as it has elements. */
  lemma {:induction false} OpenSiteCountBound(flags: seq<bool>)
    ensures multiset(flags)[true] <= |flags|
  {
    if flags != [] {
      OpenSiteCountBound(flags[1..]);
      assert flags == [flags[0]] + flags[1..];
    }
  }
}
