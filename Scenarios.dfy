/**
 * Short runs of the engine through its public operations, with the answers they must give.
 */
module Scenarios {
  import opened Outcomes
  import opened Grid
  import opened Connectivity
  import opened Spanning
  import opened Percolation

  /** A fresh engine's flags: every real site blocked, both virtual sites open. */
  lemma FreshFlags(n: int, flags: seq<bool>)
    requires n >= 1 && |flags| == Size(n) && flags[Top(n)] && flags[Bottom(n)]
    requires forall i :: 0 <= i < n * n ==> !flags[i]
    ensures flags == seq(Size(n), i => i >= n * n)
  {
  }

  /** A 3-by-3 engine after opening the whole first column and then the bottom-right site. */
  method BackwashGrid() returns (engine: Percolation)
    ensures fresh(engine) && engine.Valid() && engine.n == 3
    ensures engine.openSites[..] == BackwashFlags()
  {
    engine := new Percolation(3);
    FreshFlags(3, engine.openSites[..]);
    var _ := engine.Open(1, 1);
    var _ := engine.Open(2, 1);
    var _ := engine.Open(3, 1);
    var _ := engine.Open(3, 3);
    assert engine.openSites[..] == BackwashFlags();
  }

  /**
   * The backwash run: in that grid the system percolates, yet the bottom-right site is not full,
   * because the structure isFull asks never joins the bottom virtual site.
   */
  method BackwashScenario() returns (percolates: bool, full: Result<bool>)
    ensures percolates && full == Ok(false)
  {
    var engine := BackwashGrid();
    percolates := engine.Percolates();
    full := engine.IsFull(3, 3);
    Backwash();
  }

  /** A 1-by-1 grid percolates once its only site is opened, and that site is then full. */
  method SingleSiteScenario() returns (percolates: bool, full: Result<bool>)
    ensures percolates && full == Ok(true)
  {
    var engine := new Percolation(1);
    FreshFlags(1, engine.openSites[..]);
    var _ := engine.Open(1, 1);
    SingleSiteFull(engine.openSites[..]);
    percolates := engine.Percolates();
    full := engine.IsFull(1, 1);
  }

  /** Once the only site of a 1-by-1 grid is open, it is full and the system percolates. */
  lemma SingleSiteFull(flags: seq<bool>)
    requires flags == seq(Size(1), i => i >= 1)[0 := true]
    ensures Fed(1, flags, 0) && Spans(1, flags)
  {
    FedStart(1, flags, 0);
  }
}
