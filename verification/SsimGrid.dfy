/** The grid of SSIM windows (`ssim_window_grid`, `region_windows` of `scripts/parity/compare.py`), and
    which of them the program evaluates. */
module SsimGrid {
  import opened Arithmetic
  import opened Differences
  import opened Images
  import opened Wrappers

  /** Grid indices `(i, j)` of the window `[4i, 4i+8) x [4j, 4j+8)`. */
  type Cell = (int, int)

  /** `ssim_window_grid`. */
  function Grid(width: nat, height: nat): (g: (nat, nat))
    ensures 0 <= g.0 && (g.0 > 0 ==> g.1 > 0 && 4 * g.0 + 4 <= width && 4 * g.1 + 4 <= height)
  {
    var columns, rows := width / 4 - 1, height / 4 - 1;
    if columns < 1 || rows < 1 then (0, 0) else (columns, rows)
  }

  ghost predicate OnGrid(a: Image, w: Cell) {
    0 <= w.0 < Grid(a.width, a.height).0 && 0 <= w.1 < Grid(a.width, a.height).1
  }

  /** The grid holds every window that fits into the image, and no other. */
  lemma GridIsWhatFits(a: Image, w: Cell)
    ensures OnGrid(a, w) <==> 0 <= w.0 && 0 <= w.1 && 4 * w.0 + 8 <= a.width && 4 * w.1 + 8 <= a.height
  {
  }

  /** The window shares a pixel with the box. */
  ghost predicate Touches(w: Cell, box: Box) {
    exists x, y :: InBox(box, x, y) && InBox(Box(4 * w.0, 4 * w.1, 4 * w.0 + 8, 4 * w.1 + 8), x, y)
  }

  lemma TouchesBySides(w: Cell, box: Box)
    ensures Touches(w, box) <==>
      box.x0 < box.x1 && box.y0 < box.y1 && 4 * w.0 < box.x1 && box.x0 < 4 * w.0 + 8
      && 4 * w.1 < box.y1 && box.y0 < 4 * w.1 + 8
  {
    var x, y := Max(box.x0, 4 * w.0), Max(box.y0, 4 * w.1);
    if box.x0 < box.x1 && box.y0 < box.y1 && 4 * w.0 < box.x1 && box.x0 < 4 * w.0 + 8
      && 4 * w.1 < box.y1 && box.y0 < 4 * w.1 + 8 {
      assert InBox(box, x, y) && InBox(Box(4 * w.0, 4 * w.1, 4 * w.0 + 8, 4 * w.1 + 8), x, y);
    }
  }

  ghost predicate TouchesAny(w: Cell, boxes: seq<Box>) {
    exists k :: 0 <= k < |boxes| && Touches(w, boxes[k])
  }

  /** One box of `region_windows`: the index ranges by floor division are the windows it touches. */
  method BoxWindows(a: Image, box: Box) returns (found: set<Cell>)
    ensures forall w :: w in found <==> OnGrid(a, w) && Touches(w, box)
  {
    forall w ensures Touches(w, box) <==>
        box.x0 < box.x1 && box.y0 < box.y1 && 4 * w.0 < box.x1 && box.x0 < 4 * w.0 + 8
        && 4 * w.1 < box.y1 && box.y0 < 4 * w.1 + 8
    {
      TouchesBySides(w, box);
    }
    found := {};
    if box.x1 - box.x0 <= 0 || box.y1 - box.y0 <= 0 {
      return;
    }
    var (columns, rows) := Grid(a.width, a.height);
    var i0, i1 := Max(0, (box.x0 - 7 + 3) / 4), Min(columns - 1, (box.x1 - 1) / 4);
    var j0, j1 := Max(0, (box.y0 - 7 + 3) / 4), Min(rows - 1, (box.y1 - 1) / 4);
    for j := j0 to Max(j0, j1 + 1)
      invariant forall w: Cell :: w in found <==> i0 <= w.0 <= i1 && j0 <= w.1 < j
    {
      for i := i0 to Max(i0, i1 + 1)
        invariant forall w: Cell :: w in found <==>
          (i0 <= w.0 <= i1 && j0 <= w.1 < j) || (i0 <= w.0 < i && w.1 == j)
      {
        found := found + {(i, j)};
      }
    }
  }

  /** `region_windows`. */
  method RegionWindows(a: Image, boxes: seq<Box>) returns (found: set<Cell>)
    ensures forall w :: w in found <==> OnGrid(a, w) && TouchesAny(w, boxes)
  {
    found := {};
    for k := 0 to |boxes|
      invariant forall w :: w in found <==> OnGrid(a, w) && TouchesAny(w, boxes[..k])
    {
      var more := BoxWindows(a, boxes[k]);
      forall w ensures TouchesAny(w, boxes[..k + 1]) <==> TouchesAny(w, boxes[..k]) || Touches(w, boxes[k]) {
        TouchesOneMore(w, boxes, k);
      }
      found := found + more;
    }
    assert boxes[..|boxes|] == boxes;
  }

  lemma TouchesOneMore(w: Cell, boxes: seq<Box>, k: nat)
    requires k < |boxes|
    ensures TouchesAny(w, boxes[..k + 1]) <==> TouchesAny(w, boxes[..k]) || Touches(w, boxes[k])
  {
    var some, more := boxes[..k], boxes[..k + 1];
    if m :| 0 <= m < |some| && Touches(w, some[m]) {
      assert more[m] == some[m];
    }
    if m :| 0 <= m < |more| && Touches(w, more[m]) {
      assert m == k || some[m] == more[m];
    }
    if Touches(w, boxes[k]) {
      assert more[k] == boxes[k];
    }
  }

  lemma MeetsWindow(w: Cell, box: Box, x: int, y: int)
    requires InBox(box, x, y) && 4 * w.0 <= x < 4 * w.0 + 8 && 4 * w.1 <= y < 4 * w.1 + 8
    ensures Touches(w, box)
  {
    assert InBox(Box(4 * w.0, 4 * w.1, 4 * w.0 + 8, 4 * w.1 + 8), x, y);
  }

  // --- counting ---------------------------------------------------------------------------------------

  function Cells(columns: nat, rows: nat): set<Cell> {
    set i, j | 0 <= i < columns && 0 <= j < rows :: (i, j)
  }

  function CellRow(columns: nat, j: int): set<Cell> {
    set i | 0 <= i < columns :: (i, j)
  }

  /** `columns * rows` counts the grid. */
  lemma {:induction false} GridSize(columns: nat, rows: nat)
    ensures |Cells(columns, rows)| == columns * rows
    decreases rows
  {
    if rows == 0 {
      assert Cells(columns, rows) == {};
    } else {
      GridSize(columns, rows - 1);
      RowSize(columns, rows - 1);
      assert Cells(columns, rows) == Cells(columns, rows - 1) + CellRow(columns, rows - 1);
      assert Cells(columns, rows - 1) !! CellRow(columns, rows - 1);
      assert columns * rows == columns * (rows - 1) + columns;
    }
  }

  lemma {:induction false} RowSize(columns: nat, j: int)
    ensures |CellRow(columns, j)| == columns
    decreases columns
  {
    if columns == 0 {
      assert CellRow(columns, j) == {};
    } else {
      RowSize(columns - 1, j);
      assert CellRow(columns, j) == CellRow(columns - 1, j) + {(columns - 1, j)};
    }
  }

  function AllWindows(a: Image): set<Cell> {
    var (columns, rows) := Grid(a.width, a.height);
    Cells(columns, rows)
  }

  /** The windows the mean is over: all of them, or those that touch a region. */
  ghost function Considered(a: Image, region: Option<seq<Box>>): set<Cell> {
    set w | w in AllWindows(a) && (region.None? || TouchesAny(w, region.value))
  }

  lemma GridIsCounted(a: Image)
    ensures |AllWindows(a)| == Grid(a.width, a.height).0 * Grid(a.width, a.height).1
    ensures forall w :: w in AllWindows(a) <==> OnGrid(a, w)
  {
    var (columns, rows) := Grid(a.width, a.height);
    GridSize(columns, rows);
    assert AllWindows(a) == Cells(columns, rows);
  }

  // --- the windows to evaluate --------------------------------------------------------------------------

  /** `candidates` and `count`; no window at all counts 0. */
  method Candidates(a: Image, region: Option<seq<Box>>) returns (candidates: Option<set<Cell>>, count: nat)
    requires WellFormed(a)
    ensures count == |Considered(a, region)|
    ensures candidates.Some? ==> candidates.value == Considered(a, region)
    ensures candidates.None? && count > 0 ==> Considered(a, region) == AllWindows(a)
  {
    var (columns, rows) := Grid(a.width, a.height);
    GridIsCounted(a);
    if columns == 0 {
      assert Considered(a, region) == {};
      return None, 0;
    }
    if region.None? {
      assert Considered(a, region) == AllWindows(a);
      return None, columns * rows;
    }
    var near := RegionWindows(a, region.value);
    assert near == Considered(a, region);
    return Some(near), |near|;
  }

  /** `evaluate`: every considered window outside it misses the box. */
  method NearBox(a: Image, ghost windows: set<Cell>, candidates: Option<set<Cell>>, box: Box)
    returns (evaluate: set<Cell>)
    requires windows <= AllWindows(a)
    requires if candidates.Some? then candidates.value == windows else windows == AllWindows(a)
    ensures evaluate <= windows && forall w | w in windows - evaluate :: !Touches(w, box)
  {
    GridIsCounted(a);
    var touched := BoxWindows(a, box);
    forall w | w in touched ensures w in AllWindows(a) {
    }
    evaluate := if candidates.None? then touched else touched * candidates.value;
  }

  /** `by_row` groups exactly the windows. */
  ghost predicate Grouped(windows: set<Cell>, byRow: map<int, seq<int>>) {
    (forall w | w in windows :: w.1 in byRow && w.0 in byRow[w.1])
    && (forall j | j in byRow :: byRow[j] != [] && forall i | i in byRow[j] :: (i, j) in windows)
  }

  lemma InRow(windows: set<Cell>, byRow: map<int, seq<int>>, w: Cell)
    requires Grouped(windows, byRow) && w in windows
    ensures w.1 in byRow && w.0 in byRow[w.1]
  {
  }

  /** The grid rows in the order in which `by_row` lists them, and the columns of each. */
  method GroupRows(windows: set<Cell>) returns (rows: seq<int>, byRow: map<int, seq<int>>)
    ensures Grouped(windows, byRow)
    ensures forall j :: j in rows <==> j in byRow
  {
    rows, byRow := [], map[];
    var left := windows;
    while left != {}
      invariant left <= windows && Grouped(windows - left, byRow)
      invariant forall j :: j in rows <==> j in byRow
      decreases |left|
    {
      var w :| w in left;
      if w.1 in byRow {
        byRow := byRow[w.1 := byRow[w.1] + [w.0]];
      } else {
        rows := rows + [w.1];
        byRow := byRow[w.1 := [w.0]];
      }
      left := left - {w};
      assert w == (w.0, w.1);
    }
    assert windows - left == windows;
  }
}
