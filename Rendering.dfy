/**
 * The text form of the grid: every row starts with a line break, and every real site, in index
 * order, appears as the three characters " □ " when it is open or " ■ " when it is blocked.
 */
module Rendering {
  import opened Grid

  const OpenMark: char := '□'
  const BlockedMark: char := '■'

  /** The three characters of one site; the middle one tells open from blocked. */
  function Cell(open: bool): (cell: string)
    ensures |cell| == 3 && cell[1] == (if open then OpenMark else BlockedMark)
  {
    if open then " □ " else " ■ "
  }

  /** The number of line breaks in the text of the first k sites: one per row begun. */
  function Lines(n: int, k: int): int
    requires n >= 1 && k >= 0
  {
    if k == 0 then 0 else (k - 1) / n + 1
  }

  /** Site k adds a line break exactly when it starts a row. */
  lemma LinesStep(n: int, k: int)
    requires n >= 1 && k >= 0
    ensures Lines(n, k + 1) == Lines(n, k) + (if k % n == 0 then 1 else 0)
  {
    if k > 0 {
      var r, c := Row(n, k - 1), Col(n, k - 1);
      assert k - 1 == r * n + c && 0 <= c < n;
      if c == n - 1 {
        assert k == (r + 1) * n + 0;
        FromCoords(n, r + 1, 0);
      } else {
        assert k == r * n + (c + 1);
        FromCoords(n, r, c + 1);
      }
    }
  }

  /** The text of the first k sites, built site by site. */
  function RenderPrefix(n: int, flags: seq<bool>, k: int): (text: string)
    requires n >= 1 && 0 <= k <= |flags|
    ensures |text| == 3 * k + Lines(n, k)
  {
    if k == 0 then ""
    else
      LinesStep(n, k - 1);
      RenderPrefix(n, flags, k - 1) + (if (k - 1) % n == 0 then "\n" else "") + Cell(flags[k - 1])
  }

  /** The text of the whole grid: three characters per site and one line break per row. */
  function Render(n: int, flags: seq<bool>): (text: string)
    requires n >= 1 && |flags| == n * n
    ensures |text| == 3 * n * n + n
  {
    FromCoords(n, n - 1, n - 1);
    assert (n - 1) * n + (n - 1) == n * n - 1;
    RenderPrefix(n, flags, n * n)
  }

  /** The text of fewer sites is a prefix of the text of more sites. */
  lemma {:induction false} PrefixGrows(n: int, flags: seq<bool>, k: int, m: int)
    requires n >= 1 && 0 <= k <= m <= |flags|
    ensures RenderPrefix(n, flags, k) <= RenderPrefix(n, flags, m)
    decreases m
  {
    if k < m {
      PrefixGrows(n, flags, k, m - 1);
      var shorter := RenderPrefix(n, flags, m - 1);
      assert shorter <= RenderPrefix(n, flags, m);
    }
  }

  /** Where the mark of site i sits in the text: the middle of its cell. */
  function MarkAt(n: int, i: int): int
    requires n >= 1
  {
    3 * i + i / n + 2
  }

  /** The mark of each site shows whether the site is open. */
  lemma MarkOfSite(n: int, flags: seq<bool>, i: int)
    requires n >= 1 && |flags| == n * n && 0 <= i < n * n
    ensures 0 <= MarkAt(n, i) < |Render(n, flags)|
    ensures Render(n, flags)[MarkAt(n, i)] == (if flags[i] then OpenMark else BlockedMark)
  {
    LinesStep(n, i);
    var before := RenderPrefix(n, flags, i);
    var upto := RenderPrefix(n, flags, i + 1);
    assert upto == before + (if i % n == 0 then "\n" else "") + Cell(flags[i]);
    assert upto[MarkAt(n, i)] == Cell(flags[i])[1];
    PrefixGrows(n, flags, i + 1, n * n);
  }

  /** Row r starts with a line break, after the 3 * n + 1 characters of each earlier row. */
  lemma LineBreakOfRow(n: int, flags: seq<bool>, r: int)
    requires n >= 1 && |flags| == n * n && 0 <= r < n
    ensures r * (3 * n + 1) < |Render(n, flags)|
    ensures Render(n, flags)[r * (3 * n + 1)] == '\n'
  {
    var i := r * n;
    FromCoords(n, r, 0);
    if r > 0 {
      FromCoords(n, r - 1, n - 1);
      assert (r - 1) * n + (n - 1) == i - 1;
    }
    var before := RenderPrefix(n, flags, i);
    var upto := RenderPrefix(n, flags, i + 1);
    assert |before| == r * (3 * n + 1);
    assert upto == before + "\n" + Cell(flags[i]);
    PrefixGrows(n, flags, i + 1, n * n);
  }

  /** Reads the flags of the real sites back from the text of a grid. */
  function Decode(n: int, text: string): (flags: seq<bool>)
    requires n >= 1 && |text| == 3 * n * n + n
    ensures |flags| == n * n
  {
    seq(n * n, i requires 0 <= i < n * n => Coords(n, i); text[MarkAt(n, i)] == OpenMark)
  }

  /** The text shows every flag: decoding it gives the flags back. */
  lemma DecodeRender(n: int, flags: seq<bool>)
    requires n >= 1 && |flags| == n * n
    ensures Decode(n, Render(n, flags)) == flags
  {
    var decoded := Decode(n, Render(n, flags));
    forall i | 0 <= i < n * n
      ensures decoded[i] == flags[i]
    {
      MarkOfSite(n, flags, i);
    }
  }
}
