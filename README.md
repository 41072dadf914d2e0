# Percolation engine in Dafny

This project models the percolation engine: an n-by-n grid of sites that are opened one at a
time. The engine answers three questions:

- whether a site is open;
- whether a site is full, meaning joined to the top row through open sites;
- whether the system percolates, meaning the top row is joined to the bottom row.

It answers them with two weighted quick-union structures over the n*n real sites plus two virtual
sites:

- index n*n is the top virtual site and index n*n+1 is the bottom virtual site;
- `sites` unions every newly opened site with its open neighbours, virtual sites included;
- `sitesWithoutBottomVN` makes the same unions except those with the bottom virtual site, so that
  `isFull` has no backwash.

The repository has two nearly identical copies of the class, `Percolation.java` and
`CourseraDeliverable/Percolation.java`. They are modelled once. `makeUnionWithAdjacentSite`
returns the boolean of the second copy.

Modules:

- `Outcomes`: the exception the engine throws, `IllegalArgumentException` with its message. It is
  returned as an `Err`/`Fail` value.
- `Grid`: the row-major site index, the bounds check and the neighbour arithmetic with its -1
  sentinel. It also holds a reference 4-adjacency relation, and a proof that the neighbour
  arithmetic is exactly that relation. The open-site count is here too.
- `UnionFind`: a weighted quick-union class whose ghost `root` sequence is the partition it
  represents.
- `Connectivity`: open paths, and the invariant tying both structures to open-path connectivity.
  The full structure represents all open paths; the no-backwash structure represents open paths
  that avoid the bottom virtual site.
- `Spanning`: fullness and percolation stated on the grid alone, with no virtual sites. It proves
  they agree with the engine's virtual-site tests, and works a concrete backwash example.
- `Rendering`: the text `toString` builds, with a reader that recovers the flags from it.
- `Percolation`: the class itself.
- `Scenarios`: call sequences through the public operations, verified statically.

## Model

| member | source | states |
|---|---|---|
| Percolation.Create | Percolation.java:13-16 | A side length of 0 or less is refused with "n must match n >= 1". Otherwise the result is a fresh valid engine with n equal to the side length, a counter of 0 and no real site open. |
| Percolation.Percolation.constructor | Percolation.java:18-35 | Allocates n*n+2 flags and two structures of n*n+2 singletons. Only the two virtual sites are open, the counter is 0, and the invariant holds from the start. |
| Percolation.Percolation.MakeUnionWithAdjacentSite | CourseraDeliverable/Percolation.java:47-58 | Returns true exactly when the neighbour exists and is open, including when the no-backwash structure skips the bottom virtual site. Only when the neighbour joins does the structure change, by merging exactly the two sets, never in the no-backwash structure with the bottom virtual site. The flags do not change. |
| Percolation.Percolation.ConnectWithAdjacentSites | Percolation.java:51-65 | Computes the four neighbours with the source's ternaries and performs the four union steps in the order up, right, down, left. The flags do not change. |
| Percolation.Percolation.Open | Percolation.java:74-91 | Out of bounds it fails with the row/col message and changes nothing. On an open site it changes nothing: flags, counter and both structures are unchanged. On a blocked site it sets exactly that flag and adds 1 to the counter. The invariant is kept in every case. |
| Percolation.Percolation.OpenBlockedSite | Percolation.java:77-90 | The branch of `open` for a blocked site. It joins the site in both structures, then marks and counts it. The new flags are the old ones with that site set, the counter grows by 1, and the invariant is kept. |
| Percolation.Percolation.IsOpen | Percolation.java:94-100 | Fails out of bounds. Otherwise it returns the site's flag. |
| Percolation.Percolation.IsFull | Percolation.java:103-109 | Fails out of bounds. Otherwise it returns true exactly when an open path avoiding the bottom virtual site joins the site to the top virtual site, which is exactly when an open walk of real sites leads to it from the first row. A blocked site is never full. |
| Percolation.Percolation.NumberOfOpenSites | Percolation.java:112-114 | Returns the number of open real sites, which is between 0 and n*n. |
| Percolation.Percolation.Percolates | Percolation.java:117-119 | Returns true exactly when an open path joins the two virtual sites, which is exactly when some site of the last row is full. |
| Percolation.Percolation.ToString | Percolation.java:124-136 | The loop builds exactly `Render` of the real sites' flags: one line break per row, then " □ " or " ■ " per site. |
| Grid.SiteIndex | Percolation.java:38-40 | (row-1)*n+(col-1). In bounds it is a real site whose 0-based row and column are row-1 and col-1, never a virtual index. |
| Grid.SiteIndexInjective | Percolation.java:38-40 | Distinct in-bounds (row, col) pairs get distinct indices, in both directions. |
| Grid.ValidateRowAndCol | Percolation.java:67-71 | Passes exactly when 1 <= row, col <= n, and otherwise fails with the row/col message. |
| Grid.NeighbourIndices | Percolation.java:53-59 | Each computed neighbour is -1 or an index of the arrays, and never the site itself. This is why no access is out of bounds. |
| Grid.UpSiteCoords | Percolation.java:53 | On the first row the up neighbour is the top virtual site; elsewhere it is the site one row up in the same column. |
| Grid.RightSiteCoords | Percolation.java:55 | On the last column the right neighbour is -1; elsewhere it is the next site in the same row. |
| Grid.DownSiteCoords | Percolation.java:57 | On the last row the down neighbour is the bottom virtual site; elsewhere it is the site one row down in the same column. |
| Grid.LeftSiteCoords | Percolation.java:59 | On the first column the left neighbour is -1; elsewhere it is the previous site in the same row. |
| Grid.NeighboursExact | Percolation.java:53-64 | An index is 4-adjacent to a real site, virtual sites included, exactly when it is one of the four computed neighbours other than -1. |
| Grid.OpenSiteCountAfterOpen | Percolation.java:87-89 | Opening a blocked real site adds exactly one to the number of open real sites. |
| UnionFind.MergeJoinsExactly | Percolation.java:46 | After a union of p and q, x and y share a set exactly when they already did, or one was with p and the other with q. |
| UnionFind.UnionFind.constructor | Percolation.java:25-26 | Every element starts as its own representative. |
| UnionFind.UnionFind.Find | Percolation.java:108 | Returns the representative of p's set, which is its own representative. |
| UnionFind.UnionFind.Union | Percolation.java:46 | Merges exactly the sets of p and q under one of their two old representatives; every other set keeps its representative. |
| UnionFind.UnionFind.Link | Percolation.java:46 | Hanging one root under another merges exactly their two sets and keeps the structure well formed. |
| Connectivity.RepresentsConnectivity | Percolation.java:117-119 | Under the invariant, two indices share a root exactly when they are equal or joined by an open path. |
| Connectivity.PathKeepsRoot | Percolation.java:117-119 | A structure that keeps open linked indices together gives both ends of any open path the same root. |
| Connectivity.ReachAfterOpen | Percolation.java:87 | Flags only go from blocked to open, so an open path stays open. |
| Connectivity.SoundAfterOpen | Percolation.java:80-87 | Setting a flag keeps every shared representative backed by an open path. |
| Connectivity.MergeKeepsSound | Percolation.java:44-46 | A union along a link between open indices keeps every shared representative backed by an open path. |
| Connectivity.ClosedAfterOpen | Percolation.java:80-87 | Once a site shares a set with each open neighbour the structure links to, marking it open keeps every open linked pair together. |
| Connectivity.UnionStepKeepsSound | Percolation.java:42-49 | One union step keeps the structure sound for the flags with the site open. It only joins sets, and joins the site with the neighbour when they link. |
| Connectivity.FourUnionStepsRepresent | Percolation.java:51-65 | The four union steps of `connectWithAdjacentSites` leave a structure that represents connectivity with the site open. Unions run before the flag is set. |
| Connectivity.JoinedAllNeighbours | Percolation.java:61-64 | Successive coarsenings that join the site to every linked open neighbour, ending sound, represent connectivity with the site open. |
| Connectivity.InitiallyRepresents | Percolation.java:25-35 | Singletons represent connectivity when only the virtual sites are open. |
| Connectivity.OpenKeepsConsistent | Percolation.java:77-90 | Opening a blocked site keeps the engine invariant: both virtual sites open, a counter equal to the open real sites, and both structures representing their connectivity. |
| Connectivity.InitiallyConsistent | Percolation.java:25-35 | A new engine satisfies the engine invariant. |
| Spanning.FullIffFed | Percolation.java:103-109 | For a real site, the no-backwash path to the top virtual site exists exactly when an open walk of real sites leads to the site from an open site of the first row. |
| Spanning.PercolatesIffSpans | Percolation.java:117-119 | An open path between the two virtual sites exists exactly when some site of the last row is full. |
| Spanning.WalkFeeds | Percolation.java:103-109 | Along an open path avoiding the bottom virtual site, every real site met after the top virtual site or a full site is full. |
| Spanning.WalkSpans | Percolation.java:117-119 | An open path into the bottom virtual site, from the top virtual site or a full site, shows some site of the last row is full. |
| Spanning.FedStart | Percolation.java:53 | An open site of the first row is full. |
| Spanning.FedStep | Percolation.java:53-64 | An open site adjacent to a full site is full. |
| Spanning.FedStaysInRegion | Percolation.java:103-109 | A set of sites holding every open first-row site, with no open neighbour outside it, holds every full site. |
| Spanning.NoFullWithoutOpenFirstRow | Percolation.java:103-109 | While no first-row site is open, no site is full. |
| Spanning.AllOpenFed | Percolation.java:103-119 | With every real site open, every site is full and the system percolates. |
| Spanning.LastRowOnly | Percolation.java:103-119 | With only last-row sites open and n >= 2, no site is full and the system does not percolate. |
| Spanning.BackwashReaches | Percolation.java:117-119 | In the 3-by-3 grid with the first column and the bottom-right site open, the system percolates, and the bottom-right site reaches the top virtual site through the bottom one. |
| Spanning.Backwash | Percolation.java:81-84 | In that grid, the bottom-right site reaches the top only through the bottom virtual site and is not full. A single structure would report backwash there. |
| Rendering.RenderPrefix | Percolation.java:127-133 | The text of the first k sites has 3*k characters plus one line break per row begun. |
| Rendering.Render | Percolation.java:124-136 | The text of an n-by-n grid has 3*n*n+n characters. |
| Rendering.LinesStep | Percolation.java:128-130 | A site adds a line break exactly when its index is a multiple of n. |
| Rendering.PrefixGrows | Percolation.java:127-133 | Appending more sites only extends the text. |
| Rendering.MarkOfSite | Percolation.java:132 | Character 3*i+i/n+2 of the text is □ when site i is open and ■ when it is blocked. |
| Rendering.LineBreakOfRow | Percolation.java:128-130 | Row r starts with a line break at position r*(3*n+1). |
| Rendering.DecodeRender | Percolation.java:124-136 | Reading the marks back from the text gives the flags: the rendering loses nothing. |
| Scenarios.BackwashGrid | Percolation.java:74-91 | Opening (1,1), (2,1), (3,1) and (3,3) on a new 3-by-3 engine gives exactly the backwash flags. |
| Scenarios.BackwashScenario | Percolation.java:103-119 | On those flags `percolates` answers true and `isFull(3, 3)` answers false. |
| Scenarios.SingleSiteScenario | Percolation.java:117-119 | A 1-by-1 engine after `open(1, 1)` percolates, and that site is full. |
| Scenarios.SingleSiteFull | Percolation.java:117-119 | With the only site of a 1-by-1 grid open, it is full and the system percolates. |
| Scenarios.FreshFlags | Percolation.java:33-35 | A new engine's flags are exactly: every real site blocked, both virtual sites open. |

## Left out

- `Percolation.main` and `CourseraDeliverable/PercolationStats.java` are not modelled. The first is
  console input and output. The second is random sampling and floating-point statistics over the
  engine.
- The union-find library `edu.princeton.cs.algs4.WeightedQuickUnionUF` is not part of this model.
  `UnionFind` is a weighted quick-union written here with the same find/union contract.
- Running time is not modelled. The size weighting decides which root wins a union, but the
  logarithmic height bound it gives is not proved. Find's termination rests on a ghost height.
- Java `int` overflow of `sideNumber*sideNumber` is not modelled: integers are unbounded.
- Exceptions are modelled as values. Each throwing operation returns a `Result` or an `Outcome`
  carrying the exception's message.
- Percolation.Percolation.constructor requires a side length of at least 1. The throwing guard of
  the Java constructor is `Create`.
- Percolation.Percolation.ConnectWithAdjacentSites does not model the `isOpen` accumulator of the
  second copy. It ORs the results of `makeUnionWithAdjacentSite` into a local that is never read.
  The model discards those results, as the first copy does.
- The doubled-array comment in the second copy's constructor does not match its code. The code
  allocates two separate structures of n*n+2 elements, and the model follows the code.
- Percolation.Percolation.OpenBlockedSite is the body of `open`'s `if (!isOpen)` branch as its
  own method, which keeps each proof small. The order inside is the source's: both rounds of
  unions, then the flag, then the counter.
- `toString` works on Java strings with the characters □ and ■. The model uses Dafny strings of
  the same characters and no encoding.
