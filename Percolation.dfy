/**
 * The percolation engine: an n-by-n grid of sites that are opened one at a time, with two
 * union-find structures that answer whether the system percolates and whether a site is full.
 */
module Percolation {
  import opened Outcomes
  import opened Grid
  import opened UnionFind
  import opened Connectivity
  import opened Spanning
  import opened Rendering

  /** The constructor's guard: a side length below 1 throws, otherwise a fresh blocked grid. */
  method Create(sideNumber: int) returns (r: Result<Percolation>)
    ensures r.Err? <==> sideNumber <= 0
    ensures r.Err? ==> r.error == IllegalArgument(SideNumberMessage)
    ensures r.Ok? ==> fresh(r.value) && r.value.Valid() && r.value.n == sideNumber
    ensures r.Ok? ==> r.value.numberOpenSites == 0 && r.value.NoRealSiteOpen()
  {
    if sideNumber <= 0 {
      return Err(IllegalArgument(SideNumberMessage));
    }
    var engine := new Percolation(sideNumber);
    return Ok(engine);
  }

  class Percolation {
    /** One flag per index: the n*n real sites, then the top and the bottom virtual site. */
    const openSites: array<bool>
    /** Unions every open site with its open neighbours, virtual sites included. */
    const sites: UnionFind
    /** The same unions except those with the bottom virtual site, so that isFull has no backwash. */
    const sitesWithoutBottomVN: UnionFind
    const topVirtualSite: int
    const bottomVirtualSite: int
    const n: int
    var numberOpenSites: int

    /** The fixed dimensions: the side length, the two virtual indices and the number of flags. */
    ghost predicate Layout()
    {
      n >= 1 && topVirtualSite == Top(n) && bottomVirtualSite == Bottom(n) && openSites.Length == Size(n) &&
      sites != sitesWithoutBottomVN
    }

    /** A valid union-find structure over all real and virtual sites. */
    ghost predicate Fits(dataType: UnionFind)
      reads dataType, dataType.parent
    {
      dataType.Valid() && |dataType.root| == Size(n)
    }

    /** The layout every state has, including the states inside `Open`. */
    ghost predicate Shape()
      reads sites, sites.parent, sitesWithoutBottomVN, sitesWithoutBottomVN.parent
    {
      Layout() &&
      sites.parent != sitesWithoutBottomVN.parent && sites.parent != sitesWithoutBottomVN.size &&
      sites.size != sitesWithoutBottomVN.parent && sites.size != sitesWithoutBottomVN.size &&
      Fits(sites) && Fits(sitesWithoutBottomVN)
    }

    /**
     * The engine invariant: both virtual sites are open, the counter is the number of open real
     * sites, the full structure represents open-path connectivity and the no-backwash structure
     * represents open-path connectivity avoiding the bottom virtual site.
     */
    ghost predicate Valid()
      reads this, openSites, sites, sites.parent, sitesWithoutBottomVN, sitesWithoutBottomVN.parent
    {
      Shape() && Consistent(n, openSites[..], numberOpenSites, sites.root, sitesWithoutBottomVN.root)
    }

    /** Every real site is blocked. */
    ghost predicate NoRealSiteOpen()
      reads this, openSites
    {
      forall i :: 0 <= i < n * n && i < openSites.Length ==> !openSites[i]
    }

    /** A blocked n-by-n grid whose two virtual sites are open. */
    constructor (sideNumber: int)
      requires sideNumber >= 1
      ensures Valid() && n == sideNumber
      ensures fresh(openSites) && fresh(sites) && fresh(sites.parent) && fresh(sites.size)
      ensures fresh(sitesWithoutBottomVN) && fresh(sitesWithoutBottomVN.parent) && fresh(sitesWithoutBottomVN.size)
      ensures numberOpenSites == 0 && NoRealSiteOpen()
      ensures forall i :: 0 <= i < Size(n) ==> sites.root[i] == i && sitesWithoutBottomVN.root[i] == i
    {
      var gridSize := sideNumber * sideNumber;
      var numberSites := gridSize + 2;
      sites := new UnionFind(numberSites);
      sitesWithoutBottomVN := new UnionFind(numberSites);
      openSites := new bool[numberSites](_ => false);
      n := sideNumber;
      numberOpenSites := 0;
      topVirtualSite := gridSize;
      bottomVirtualSite := gridSize + 1;
      new;
      openSites[topVirtualSite] := true;
      openSites[bottomVirtualSite] := true;
      assert openSites[..n * n] == seq(n * n, _ => false);
      InitiallyConsistent(n, openSites[..], sites.root, sitesWithoutBottomVN.root);
    }

    /**
     * Unions siteIndex with adjacentSite in dataType when the neighbour exists and is open, except
     * that the no-backwash structure is never joined to the bottom virtual site. Reports whether the
     * neighbour exists and is open, whether or not the union was performed.
     */
    method MakeUnionWithAdjacentSite(siteIndex: int, adjacentSite: int, dataType: UnionFind, ghost flags: seq<bool>)
      returns (linked: bool)
      requires Layout() && Fits(dataType) && (dataType == sites || dataType == sitesWithoutBottomVN)
      requires IsSite(n, siteIndex) && (adjacentSite == NoSite || IsIndex(n, adjacentSite))
      requires |flags| == Size(n) && (adjacentSite != NoSite ==> flags[adjacentSite] == openSites[adjacentSite])
      modifies dataType, dataType.parent, dataType.size
      ensures Fits(dataType)
      ensures unchanged(openSites)
      ensures linked <==> adjacentSite != NoSite && openSites[adjacentSite]
      ensures UnionStep(n, flags, dataType == sitesWithoutBottomVN, siteIndex, adjacentSite,
        old(dataType.root), dataType.root)
    {
      if adjacentSite != NoSite && openSites[adjacentSite] {
        if dataType == sites || (dataType == sitesWithoutBottomVN && adjacentSite != bottomVirtualSite) {
          dataType.Union(siteIndex, adjacentSite);
        }
        return true;
      }
      return false;
    }

    /**
     * Joins siteIndex, in dataType, to each of its four neighbours that is open, in the order up,
     * right, down, left. Returns the intermediate representatives after the first three unions.
     */
    method ConnectWithAdjacentSites(siteIndex: int, dataType: UnionFind, ghost flags: seq<bool>)
      returns (ghost root1: seq<int>, ghost root2: seq<int>, ghost root3: seq<int>)
      requires Layout() && Fits(dataType) && (dataType == sites || dataType == sitesWithoutBottomVN)
      requires IsSite(n, siteIndex) && flags == openSites[..]
      modifies dataType, dataType.parent, dataType.size
      ensures Fits(dataType) && unchanged(openSites)
      ensures FourUnionSteps(n, flags, dataType == sitesWithoutBottomVN, siteIndex,
        old(dataType.root), root1, root2, root3, dataType.root)
    {
      var topSite := if siteIndex > n - 1 then siteIndex - n else topVirtualSite;
      var rightSite := if siteIndex % n == n - 1 then -1 else siteIndex + 1;
      var bottomSite := if siteIndex < n * n - n then siteIndex + n else bottomVirtualSite;
      var leftSite := if siteIndex % n == 0 then -1 else siteIndex - 1;
      NeighbourIndices(n, siteIndex);
      assert topSite == UpSite(n, siteIndex) && rightSite == RightSite(n, siteIndex);
      assert bottomSite == DownSite(n, siteIndex) && leftSite == LeftSite(n, siteIndex);

      var _ := MakeUnionWithAdjacentSite(siteIndex, topSite, dataType, flags);
      root1 := dataType.root;
      var _ := MakeUnionWithAdjacentSite(siteIndex, rightSite, dataType, flags);
      root2 := dataType.root;
      var _ := MakeUnionWithAdjacentSite(siteIndex, bottomSite, dataType, flags);
      root3 := dataType.root;
      var _ := MakeUnionWithAdjacentSite(siteIndex, leftSite, dataType, flags);
    }

    /** Opens site (row, col) if it is not open already; throws for a site outside the grid. */
    method Open(row: int, col: int) returns (r: Outcome)
      requires Valid()
      modifies this, openSites, sites, sites.parent, sites.size
      modifies sitesWithoutBottomVN, sitesWithoutBottomVN.parent, sitesWithoutBottomVN.size
      ensures Valid()
      ensures r.Pass? <==> InGrid(n, row, col)
      ensures r.Fail? ==> r.error == IllegalArgument(RowAndColMessage)
      ensures !InGrid(n, row, col) || old(openSites[SiteIndex(n, row, col)]) ==>
        numberOpenSites == old(numberOpenSites) && openSites[..] == old(openSites[..]) &&
        unchanged(sites, sites.parent, sites.size, sitesWithoutBottomVN, sitesWithoutBottomVN.parent,
          sitesWithoutBottomVN.size)
      ensures InGrid(n, row, col) && !old(openSites[SiteIndex(n, row, col)]) ==>
        openSites[..] == old(openSites[..])[SiteIndex(n, row, col) := true] &&
        numberOpenSites == old(numberOpenSites) + 1
    {
      var valid := ValidateRowAndCol(n, row, col);
      if valid.Fail? {
        return valid;
      }
      var isOpen := IsOpen(row, col);
      if !isOpen.value {
        OpenBlockedSite(SiteIndex(n, row, col));
      }
      return Pass;
    }

    /** The part of `Open` that runs for a blocked site: join it to its open neighbours, then mark and count it. */
    method OpenBlockedSite(siteIndex: int)
      requires Valid() && IsSite(n, siteIndex) && !openSites[siteIndex]
      modifies this, openSites, sites, sites.parent, sites.size
      modifies sitesWithoutBottomVN, sitesWithoutBottomVN.parent, sitesWithoutBottomVN.size
      ensures Valid()
      ensures openSites[..] == old(openSites[..])[siteIndex := true] && numberOpenSites == old(numberOpenSites) + 1
    {
      ghost var flags := openSites[..];
      ghost var count := numberOpenSites;
      ghost var full0 := sites.root;
      ghost var part0 := sitesWithoutBottomVN.root;
      ghost var full1, full2, full3 := ConnectWithAdjacentSites(siteIndex, sites, flags);
      ghost var full4 := sites.root;
      ghost var part1, part2, part3 := ConnectWithAdjacentSites(siteIndex, sitesWithoutBottomVN, flags);
      ghost var part4 := sitesWithoutBottomVN.root;

      openSites[siteIndex] := true;
      numberOpenSites := numberOpenSites + 1;
      assert openSites[..] == flags[siteIndex := true];
      OpenKeepsConsistent(n, flags, count, siteIndex, openSites[..], numberOpenSites,
        full0, full1, full2, full3, full4, part0, part1, part2, part3, part4);
    }

    /** Whether site (row, col) is open; throws for a site outside the grid. */
    method IsOpen(row: int, col: int) returns (r: Result<bool>)
      requires Valid()
      ensures r.Err? <==> !InGrid(n, row, col)
      ensures r.Err? ==> r.error == IllegalArgument(RowAndColMessage)
      ensures r.Ok? ==> r.value == openSites[SiteIndex(n, row, col)]
    {
      var valid := ValidateRowAndCol(n, row, col);
      if valid.Fail? {
        return Err(valid.error);
      }
      var siteIndex := SiteIndex(n, row, col);
      return Ok(openSites[siteIndex]);
    }

    /**
     * Whether site (row, col) is full, that is joined to the top virtual site by an open path that
     * avoids the bottom virtual site; throws for a site outside the grid. A blocked site is never full.
     */
    method IsFull(row: int, col: int) returns (r: Result<bool>)
      requires Valid()
      ensures r.Err? <==> !InGrid(n, row, col)
      ensures r.Err? ==> r.error == IllegalArgument(RowAndColMessage)
      ensures r.Ok? ==> (r.value <==> Reach(n, openSites[..], true, SiteIndex(n, row, col), Top(n)))
      ensures r.Ok? && !openSites[SiteIndex(n, row, col)] ==> !r.value
      ensures r.Ok? ==> (r.value <==> Fed(n, openSites[..], SiteIndex(n, row, col)))
    {
      var valid := ValidateRowAndCol(n, row, col);
      if valid.Fail? {
        return Err(valid.error);
      }
      var siteIndex := SiteIndex(n, row, col);
      var siteRoot := sitesWithoutBottomVN.Find(siteIndex);
      var topRoot := sitesWithoutBottomVN.Find(topVirtualSite);
      RepresentsConnectivity(n, openSites[..], true, sitesWithoutBottomVN.root, siteIndex, topVirtualSite);
      FullIffFed(n, openSites[..], siteIndex);
      return Ok(siteRoot == topRoot);
    }

    /** The number of open real sites. */
    method NumberOfOpenSites() returns (count: int)
      requires Valid()
      ensures count == OpenSiteCount(n, openSites[..])
      ensures 0 <= count <= n * n
    {
      OpenSiteCountBound(openSites[..n * n]);
      return numberOpenSites;
    }

    /** Whether an open path joins the top virtual site to the bottom virtual site. */
    method Percolates() returns (b: bool)
      requires Valid()
      ensures b <==> Reach(n, openSites[..], false, Top(n), Bottom(n))
      ensures b <==> Spans(n, openSites[..])
    {
      var topRoot := sites.Find(topVirtualSite);
      var bottomRoot := sites.Find(bottomVirtualSite);
      RepresentsConnectivity(n, openSites[..], false, sites.root, topVirtualSite, bottomVirtualSite);
      PercolatesIffSpans(n, openSites[..]);
      return topRoot == bottomRoot;
    }

    /** The grid as text, row by row, built one site at a time. */
    method ToString() returns (grid: string)
      requires Layout()
      ensures grid == Render(n, openSites[..n * n])
    {
      ghost var flags := openSites[..n * n];
      grid := "";
      var i := 0;
      while i < n * n
        invariant 0 <= i <= n * n
        invariant grid == RenderPrefix(n, flags, i)
      {
        ghost var before := grid;
        if i % n == 0 {
          grid := grid + "\n";
        }
        grid := grid + (if openSites[i] then " □ " else " ■ ");
        assert flags[i] == openSites[i];
        assert grid == before + (if i % n == 0 then "\n" else "") + Cell(flags[i]);
        i := i + 1;
      }
    }
  }
}
