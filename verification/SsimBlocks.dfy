/** Sums over rectangles, and the four 4x4 blocks of an 8x8 window (`_block_sums`, `_window_ssim` of
    `scripts/parity/compare.py`). `f` gives the sums of one sample position. */
module SsimBlocks {
  import opened SsimWindows

  function ColumnSum(f: (int, int) -> Sums, x: int, y0: int, y1: int): Sums
    decreases y1 - y0
  {
    if y0 >= y1 then ZERO else AddSums(ColumnSum(f, x, y0, y1 - 1), f(x, y1 - 1))
  }

  /** The sums of a rectangle, column by column. */
  function RectSum(f: (int, int) -> Sums, x0: int, x1: int, y0: int, y1: int): Sums
    decreases x1 - x0
  {
    if x0 >= x1 then ZERO else AddSums(RectSum(f, x0, x1 - 1, y0, y1), ColumnSum(f, x1 - 1, y0, y1))
  }

  lemma Regroup(p: Sums, q: Sums, r: Sums, s: Sums)
    ensures AddSums(AddSums(p, q), AddSums(r, s)) == AddSums(AddSums(p, r), AddSums(q, s))
  {
  }

  /** `pq + r` where `pq == p + q`. */
  lemma Associate(p: Sums, q: Sums, r: Sums)
    ensures AddSums(AddSums(p, q), r) == AddSums(p, AddSums(q, r))
  {
  }

  lemma {:induction false} ColumnSplit(f: (int, int) -> Sums, x: int, y0: int, y1: int, y2: int)
    requires y0 <= y1 <= y2
    ensures ColumnSum(f, x, y0, y2) == AddSums(ColumnSum(f, x, y0, y1), ColumnSum(f, x, y1, y2))
    decreases y2 - y1
  {
    if y1 < y2 {
      ColumnSplit(f, x, y0, y1, y2 - 1);
    }
  }

  /** Upper and lower half of a rectangle. */
  lemma {:induction false} RectRows(f: (int, int) -> Sums, x0: int, x1: int, y0: int, y1: int, y2: int)
    requires y0 <= y1 <= y2
    ensures RectSum(f, x0, x1, y0, y2) == AddSums(RectSum(f, x0, x1, y0, y1), RectSum(f, x0, x1, y1, y2))
    decreases x1 - x0
  {
    if x0 < x1 {
      RectRows(f, x0, x1 - 1, y0, y1, y2);
      ColumnSplit(f, x1 - 1, y0, y1, y2);
      Regroup(RectSum(f, x0, x1 - 1, y0, y1), RectSum(f, x0, x1 - 1, y1, y2),
              ColumnSum(f, x1 - 1, y0, y1), ColumnSum(f, x1 - 1, y1, y2));
    }
  }

  /** Left and right half. */
  lemma {:induction false} RectColumns(f: (int, int) -> Sums, x0: int, x1: int, x2: int, y0: int, y1: int)
    requires x0 <= x1 <= x2
    ensures RectSum(f, x0, x2, y0, y1) == AddSums(RectSum(f, x0, x1, y0, y1), RectSum(f, x1, x2, y0, y1))
    decreases x2 - x1
  {
    if x1 < x2 {
      RectColumns(f, x0, x1, x2 - 1, y0, y1);
    }
  }

  /** The 4x4 block at grid position `(i, j)`. */
  function Block(f: (int, int) -> Sums, i: int, j: int): Sums {
    RectSum(f, 4 * i, 4 * i + 4, 4 * j, 4 * j + 4)
  }

  /** The 8x8 window at grid position `(i, j)`. */
  function Window(f: (int, int) -> Sums, i: int, j: int): Sums {
    RectSum(f, 4 * i, 4 * i + 8, 4 * j, 4 * j + 8)
  }

  lemma RectOfFour(f: (int, int) -> Sums, x: int, y0: int, y1: int)
    ensures RectSum(f, x, x + 4, y0, y1)
         == AddSums(AddSums(AddSums(ColumnSum(f, x, y0, y1), ColumnSum(f, x + 1, y0, y1)),
                            ColumnSum(f, x + 2, y0, y1)), ColumnSum(f, x + 3, y0, y1))
  {
    assert RectSum(f, x, x + 1, y0, y1) == ColumnSum(f, x, y0, y1);
    assert RectSum(f, x, x + 2, y0, y1) == AddSums(RectSum(f, x, x + 1, y0, y1), ColumnSum(f, x + 1, y0, y1));
    assert RectSum(f, x, x + 3, y0, y1) == AddSums(RectSum(f, x, x + 2, y0, y1), ColumnSum(f, x + 2, y0, y1));
  }

  /** The four blocks of a window add up to its 64 samples. */
  lemma WindowOfBlocks(f: (int, int) -> Sums, i: int, j: int)
    ensures Window(f, i, j)
         == AddSums(AddSums(AddSums(Block(f, i, j), Block(f, i + 1, j)), Block(f, i, j + 1)), Block(f, i + 1, j + 1))
  {
    HalvesOfHalves(f, 4 * i, 4 * i + 4, 4 * i + 8, 4 * j, 4 * j + 4, 4 * j + 8);
  }

  lemma HalvesOfHalves(f: (int, int) -> Sums, x0: int, x1: int, x2: int, y0: int, y1: int, y2: int)
    requires x0 <= x1 <= x2 && y0 <= y1 <= y2
    ensures RectSum(f, x0, x2, y0, y2)
         == AddSums(AddSums(AddSums(RectSum(f, x0, x1, y0, y1), RectSum(f, x1, x2, y0, y1)),
                            RectSum(f, x0, x1, y1, y2)), RectSum(f, x1, x2, y1, y2))
  {
    RectRows(f, x0, x2, y0, y1, y2);
    RectColumns(f, x0, x1, x2, y0, y1);
    RectColumns(f, x0, x1, x2, y1, y2);
    Associate(AddSums(RectSum(f, x0, x1, y0, y1), RectSum(f, x1, x2, y0, y1)),
              RectSum(f, x0, x1, y1, y2), RectSum(f, x1, x2, y1, y2));
  }

  /** `min(columns)` and `max(columns)`. */
  method Extremes(l: seq<int>) returns (low: int, high: int)
    requires l != []
    ensures low in l && high in l && forall x | x in l :: low <= x <= high
  {
    low, high := l[0], l[0];
    for k := 1 to |l|
      invariant low in l && high in l && forall m | 0 <= m < k :: low <= l[m] <= high
    {
      low, high := if l[k] < low then l[k] else low, if l[k] > high then l[k] else high;
    }
  }

  /** The sums of the windows of a grid row, from the blocks of the two block rows it spans. */
  method FourBlocks(ghost f: (int, int) -> Sums, j: int, i0: int, top: seq<Sums>, bottom: seq<Sums>)
    returns (sums: seq<Sums>)
    requires |top| == |bottom| && |top| > 0
    requires forall k | 0 <= k < |top| :: top[k] == Block(f, i0 + k, j) && bottom[k] == Block(f, i0 + k, j + 1)
    ensures |sums| == |top| - 1
    ensures forall k | 0 <= k < |sums| :: sums[k] == Window(f, i0 + k, j)
  {
    sums := [];
    for k := 0 to |top| - 1
      invariant |sums| == k && forall m | 0 <= m < k :: sums[m] == Window(f, i0 + m, j)
    {
      var added := AddSums(AddSums(AddSums(top[k], top[k + 1]), bottom[k]), bottom[k + 1]);
      assert top[k + 1] == Block(f, i0 + k + 1, j) && bottom[k + 1] == Block(f, i0 + k + 1, j + 1);
      WindowOfBlocks(f, i0 + k, j);
      sums := sums + [added];
    }
  }
}
