/** The values of SSIM windows: their samples, their block sums and the loops of `_window_ssim` of
    `scripts/parity/compare.py`. Values are exact reals. */
module SsimValues {
  import opened Arithmetic
  import opened Images
  import opened SsimBlocks
  import opened SsimGrid
  import opened SsimWindows

  // --- samples of a window --------------------------------------------------------------------------

  /** Channel `ch` of both images at a pixel. */
  function SampleAt(a: Image, b: Image, ch: nat, x: int, y: int): Sample
    requires Pair(a, b)
  {
    if Inside(a, x, y) && ch < a.channels then (Pixel(a, x, y)[ch], Pixel(b, x, y)[ch]) else (0, 0)
  }

  function Column(a: Image, b: Image, ch: nat, x: int, y0: int, y1: int): seq<Sample>
    requires Pair(a, b)
    decreases y1 - y0
  {
    if y0 >= y1 then [] else Column(a, b, ch, x, y0, y1 - 1) + [SampleAt(a, b, ch, x, y1 - 1)]
  }

  /** The samples of a rectangle, column by column. */
  function Rect(a: Image, b: Image, ch: nat, x0: int, x1: int, y0: int, y1: int): seq<Sample>
    requires Pair(a, b)
    decreases x1 - x0
  {
    if x0 >= x1 then [] else Rect(a, b, ch, x0, x1 - 1, y0, y1) + Column(a, b, ch, x1 - 1, y0, y1)
  }

  function WindowSamples(a: Image, b: Image, ch: nat, w: Cell): seq<Sample>
    requires Pair(a, b)
  {
    Rect(a, b, ch, 4 * w.0, 4 * w.0 + 8, 4 * w.1, 4 * w.1 + 8)
  }

  lemma {:induction false} ColumnAt(a: Image, b: Image, ch: nat, x: int, y0: int, y1: int)
    requires Pair(a, b) && y0 <= y1
    ensures |Column(a, b, ch, x, y0, y1)| == y1 - y0
    ensures forall y | y0 <= y < y1 :: Column(a, b, ch, x, y0, y1)[y - y0] == SampleAt(a, b, ch, x, y)
    decreases y1 - y0
  {
    if y0 < y1 {
      ColumnAt(a, b, ch, x, y0, y1 - 1);
    }
  }

  /** The samples in order: column by column, `m` for the one at `(x, y)`. */
  lemma {:induction false} RectAt(a: Image, b: Image, ch: nat, x0: int, x1: int, y0: int, y1: int,
                                  x: int, y: int, m: int)
    requires Pair(a, b) && x0 <= x < x1 && y0 <= y < y1 && y1 == y0 + 8 && m == 8 * (x - x0) + (y - y0)
    ensures 0 <= m < |Rect(a, b, ch, x0, x1, y0, y1)| == 8 * (x1 - x0)
    ensures Rect(a, b, ch, x0, x1, y0, y1)[m] == SampleAt(a, b, ch, x, y)
    decreases x1 - x0
  {
    var front, col := Rect(a, b, ch, x0, x1 - 1, y0, y1), Column(a, b, ch, x1 - 1, y0, y1);
    RectFacts(a, b, ch, x0, x1 - 1, y0, y1);
    ColumnAt(a, b, ch, x1 - 1, y0, y1);
    RectLast(a, b, ch, x0, x1, y0, y1);
    if x < x1 - 1 {
      RectAt(a, b, ch, x0, x1 - 1, y0, y1, x, y, m);
    } else {
      assert (front + col)[m] == col[y - y0];
    }
  }

  lemma RectLast(a: Image, b: Image, ch: nat, x0: int, x1: int, y0: int, y1: int)
    requires Pair(a, b) && x0 < x1
    ensures Rect(a, b, ch, x0, x1, y0, y1)
         == Rect(a, b, ch, x0, x1 - 1, y0, y1) + Column(a, b, ch, x1 - 1, y0, y1)
  {
  }

  /** Where the sample of a window at `(x, y)` is in the data of the images. */
  lemma WindowInData(a: Image, b: Image, ch: nat, w: Cell, x: int, y: int, k: int)
    requires Pair(a, b) && OnGrid(a, w) && ch < a.channels && k == (y * a.width + x) * a.channels + ch
    requires 4 * w.0 <= x < 4 * w.0 + 8 && 4 * w.1 <= y < 4 * w.1 + 8
    ensures |WindowSamples(a, b, ch, w)| == 64 && 0 <= k < |a.data| == |b.data|
    ensures WindowSamples(a, b, ch, w)[8 * (x - 4 * w.0) + (y - 4 * w.1)] == (a.data[k], b.data[k])
  {
    var x0, y0 := 4 * w.0, 4 * w.1;
    var x1, y1 := x0 + 8, y0 + 8;
    InsideGrid(a, w, x, y);
    SampleInData(a, b, ch, x, y, k);
    RectInWindow(a, b, ch, w, x0, x1, y0, y1, x, y, 8 * (x - x0) + (y - y0));
  }

  lemma RectInWindow(a: Image, b: Image, ch: nat, w: Cell, x0: int, x1: int, y0: int, y1: int, x: int, y: int, m: int)
    requires Pair(a, b) && x0 == 4 * w.0 && y0 == 4 * w.1 && x1 == x0 + 8 && y1 == y0 + 8
    requires x0 <= x < x1 && y0 <= y < y1 && m == 8 * (x - x0) + (y - y0)
    ensures 0 <= m < |WindowSamples(a, b, ch, w)| == 64 && WindowSamples(a, b, ch, w)[m] == SampleAt(a, b, ch, x, y)
  {
    WindowIsRect(a, b, ch, w, x0, x1, y0, y1);
    RectAt(a, b, ch, x0, x1, y0, y1, x, y, m);
  }

  lemma InsideGrid(a: Image, w: Cell, x: int, y: int)
    requires OnGrid(a, w) && 4 * w.0 <= x < 4 * w.0 + 8 && 4 * w.1 <= y < 4 * w.1 + 8
    ensures Inside(a, x, y)
  {
    GridIsWhatFits(a, w);
  }

  lemma WindowIsRect(a: Image, b: Image, ch: nat, w: Cell, x0: int, x1: int, y0: int, y1: int)
    requires Pair(a, b) && x0 == 4 * w.0 && y0 == 4 * w.1 && x1 == x0 + 8 && y1 == y0 + 8
    ensures WindowSamples(a, b, ch, w) == Rect(a, b, ch, x0, x1, y0, y1)
  {
  }

  lemma SampleInData(a: Image, b: Image, ch: nat, x: int, y: int, k: int)
    requires Pair(a, b) && Inside(a, x, y) && ch < a.channels && k == (y * a.width + x) * a.channels + ch
    ensures 0 <= k < |a.data| == |b.data| && SampleAt(a, b, ch, x, y) == (a.data[k], b.data[k])
  {
    PixelInData(a, x, y, ch);
    PixelInData(b, x, y, ch);
  }

  ghost predicate AllSamplesEqual(l: seq<Sample>) {
    forall k | 0 <= k < |l| :: l[k].0 == l[k].1
  }

  ghost predicate Bytes(l: seq<Sample>) {
    forall k | 0 <= k < |l| :: 0 <= l[k].0 < 256 && 0 <= l[k].1 < 256
  }

  /** Eight samples a column; all are bytes; all pairs are equal exactly when every sample is. */
  lemma {:induction false} RectFacts(a: Image, b: Image, ch: nat, x0: int, x1: int, y0: int, y1: int)
    requires Pair(a, b) && x0 <= x1 && y1 == y0 + 8
    ensures |Rect(a, b, ch, x0, x1, y0, y1)| == 8 * (x1 - x0)
    ensures Bytes(Rect(a, b, ch, x0, x1, y0, y1))
    ensures AllSamplesEqual(Rect(a, b, ch, x0, x1, y0, y1))
       <==> forall x, y | x0 <= x < x1 && y0 <= y < y1 :: SampleAt(a, b, ch, x, y).0 == SampleAt(a, b, ch, x, y).1
    decreases x1 - x0
  {
    if x0 < x1 {
      var front, col := Rect(a, b, ch, x0, x1 - 1, y0, y1), Column(a, b, ch, x1 - 1, y0, y1);
      RectFacts(a, b, ch, x0, x1 - 1, y0, y1);
      ColumnFacts(a, b, ch, x1 - 1, y0, y1);
      AllEqualConcat(front, col);
    }
  }

  lemma ColumnFacts(a: Image, b: Image, ch: nat, x: int, y0: int, y1: int)
    requires Pair(a, b) && y1 == y0 + 8
    ensures |Column(a, b, ch, x, y0, y1)| == 8 && Bytes(Column(a, b, ch, x, y0, y1))
    ensures AllSamplesEqual(Column(a, b, ch, x, y0, y1))
       <==> forall y | y0 <= y < y1 :: SampleAt(a, b, ch, x, y).0 == SampleAt(a, b, ch, x, y).1
  {
    ColumnAt(a, b, ch, x, y0, y1);
    var col := Column(a, b, ch, x, y0, y1);
    forall k | 0 <= k < |col| ensures col[k] == SampleAt(a, b, ch, x, y0 + k) {
      assert col[(y0 + k) - y0] == SampleAt(a, b, ch, x, y0 + k);
    }
    if AllSamplesEqual(col) {
      forall y | y0 <= y < y1 ensures SampleAt(a, b, ch, x, y).0 == SampleAt(a, b, ch, x, y).1 {
        assert col[y - y0] == SampleAt(a, b, ch, x, y);
      }
    }
  }

  lemma AllEqualConcat(l: seq<Sample>, m: seq<Sample>)
    ensures AllSamplesEqual(l + m) <==> AllSamplesEqual(l) && AllSamplesEqual(m)
  {
    var n := l + m;
    forall k | 0 <= k < |l| ensures n[k] == l[k] {
    }
    forall k | 0 <= k < |m| ensures n[|l| + k] == m[k] {
    }
  }

  ghost predicate IdenticalWindow(a: Image, b: Image, w: Cell)
    requires Pair(a, b)
  {
    forall x, y | 4 * w.0 <= x < 4 * w.0 + 8 && 4 * w.1 <= y < 4 * w.1 + 8 :: !Differs(a, b, x, y)
  }

  // --- the value of a window ------------------------------------------------------------------------

  lemma WindowIsSamples(a: Image, b: Image, ch: nat, w: Cell)
    requires Pair(a, b)
    ensures Samples(WindowSamples(a, b, ch, w))
    ensures Denominator(Total(WindowSamples(a, b, ch, w))) > 0
  {
    var l := WindowSamples(a, b, ch, w);
    WindowIsBytes(a, b, ch, w, l);
    PositiveDenominator(l);
  }

  lemma WindowIsBytes(a: Image, b: Image, ch: nat, w: Cell, l: seq<Sample>)
    requires Pair(a, b) && l == WindowSamples(a, b, ch, w)
    ensures Samples(l) && (AllSamplesEqual(l) <==> ChannelEqual(a, b, ch, w))
  {
    var x0, y0 := 4 * w.0, 4 * w.1;
    var x1, y1 := x0 + 8, y0 + 8;
    RectFacts(a, b, ch, x0, x1, y0, y1);
  }

  lemma PositiveDenominator(l: seq<Sample>)
    requires Samples(l)
    ensures Denominator(Total(l)) > 0
  {
    WindowBounds(l);
  }

  function ChannelValue(a: Image, b: Image, ch: nat, w: Cell): real
    requires Pair(a, b)
  {
    WindowIsSamples(a, b, ch, w);
    SsimEnd(Total(WindowSamples(a, b, ch, w)))
  }

  function SumTo(f: nat -> real, n: nat): real {
    if n == 0 then 0.0 else SumTo(f, n - 1) + f(n - 1)
  }

  /** Values in [-1, 1] add up to their number exactly when each is 1. */
  lemma {:induction false} SumToRange(f: nat -> real, n: nat)
    requires forall k: nat | k < n :: -1.0 <= f(k) <= 1.0
    ensures -(n as real) <= SumTo(f, n) <= n as real
    ensures SumTo(f, n) == n as real <==> forall k: nat | k < n :: f(k) == 1.0
  {
    if n > 0 {
      SumToRange(f, n - 1);
    }
  }

  function ChannelValues(a: Image, b: Image, w: Cell): nat -> real
    requires Pair(a, b)
  {
    (ch: nat) => ChannelValue(a, b, ch, w)
  }

  /** The sum over the first `n` channels. */
  function ChannelSum(a: Image, b: Image, w: Cell, n: nat): real
    requires Pair(a, b)
  {
    SumTo(ChannelValues(a, b, w), n)
  }

  /** The mean over the channels. */
  function WindowValue(a: Image, b: Image, w: Cell): real
    requires Pair(a, b)
  {
    ChannelSum(a, b, w, a.channels) / a.channels as real
  }

  /** One, three or four channels count alike. */
  lemma ChannelsCountAlike(a: Image, b: Image, w: Cell)
    requires Pair(a, b)
    ensures a.channels == 1 ==> WindowValue(a, b, w) == ChannelValue(a, b, 0, w)
    ensures a.channels == 3 ==>
      3.0 * WindowValue(a, b, w) == ChannelValue(a, b, 0, w) + ChannelValue(a, b, 1, w) + ChannelValue(a, b, 2, w)
    ensures a.channels == 4 ==>
      4.0 * WindowValue(a, b, w) == ChannelValue(a, b, 0, w) + ChannelValue(a, b, 1, w) + ChannelValue(a, b, 2, w)
                                    + ChannelValue(a, b, 3, w)
  {
    var f := ChannelValues(a, b, w);
    assert SumTo(f, 1) == f(0);
    assert SumTo(f, 3) == f(0) + f(1) + f(2);
    assert SumTo(f, 4) == f(0) + f(1) + f(2) + f(3);
  }

  /** The value of a channel, from four sums over its 64 pairs of samples. */
  lemma ChannelInNumbers(a: Image, b: Image, ch: nat, w: Cell)
    requires Pair(a, b)
    ensures var l := WindowSamples(a, b, ch, w);
            var sx, sy, ss, sp := Over(l, First), Over(l, Second), Over(l, Squares), Over(l, Product);
            var d := (sx * sx + sy * sy + 416) * (64 * ss - sx * sx - sy * sy + 235963);
            && d > 0
            && ChannelValue(a, b, ch, w)
               == ((2 * sx * sy + 416) * (2 * (64 * sp - sx * sy) + 235963)) as real / d as real
  {
    WindowIsSamples(a, b, ch, w);
    ValueInNumbers(WindowSamples(a, b, ch, w));
  }

  ghost predicate ChannelEqual(a: Image, b: Image, ch: nat, w: Cell)
    requires Pair(a, b)
  {
    forall x, y | 4 * w.0 <= x < 4 * w.0 + 8 && 4 * w.1 <= y < 4 * w.1 + 8 ::
      SampleAt(a, b, ch, x, y).0 == SampleAt(a, b, ch, x, y).1
  }

  /** One channel of one window: between -1 and 1, and 1 exactly when the channel is identical. */
  lemma ChannelValueRange(a: Image, b: Image, ch: nat, w: Cell)
    requires Pair(a, b)
    ensures -1.0 <= ChannelValue(a, b, ch, w) <= 1.0
    ensures ChannelValue(a, b, ch, w) == 1.0 <==> ChannelEqual(a, b, ch, w)
  {
    var l := WindowSamples(a, b, ch, w);
    WindowIsBytes(a, b, ch, w, l);
    SsimRange(l);
  }

  ghost predicate ChannelsEqual(a: Image, b: Image, w: Cell, n: nat)
    requires Pair(a, b)
  {
    forall ch: nat | ch < n :: ChannelEqual(a, b, ch, w)
  }

  lemma ChannelSumRange(a: Image, b: Image, w: Cell, n: nat)
    requires Pair(a, b)
    ensures -(n as real) <= ChannelSum(a, b, w, n) <= n as real
    ensures ChannelSum(a, b, w, n) == n as real <==> ChannelsEqual(a, b, w, n)
  {
    var f := ChannelValues(a, b, w);
    forall ch: nat | ch < n ensures -1.0 <= f(ch) <= 1.0 && (f(ch) == 1.0 <==> ChannelEqual(a, b, ch, w)) {
      ChannelValueRange(a, b, ch, w);
    }
    SumToRange(f, n);
  }

  lemma ChannelsTellPixels(a: Image, b: Image, w: Cell)
    requires Pair(a, b)
    ensures ChannelsEqual(a, b, w, a.channels) <==> IdenticalWindow(a, b, w)
  {
    if forall ch: nat | ch < a.channels :: ChannelEqual(a, b, ch, w) {
      forall x, y | 4 * w.0 <= x < 4 * w.0 + 8 && 4 * w.1 <= y < 4 * w.1 + 8 ensures !Differs(a, b, x, y) {
        if Inside(a, x, y) {
          var p, q := Pixel(a, x, y), Pixel(b, x, y);
          forall ch | 0 <= ch < |p| ensures p[ch] == q[ch] {
            assert ChannelEqual(a, b, ch, w);
            assert SampleAt(a, b, ch, x, y) == (p[ch], q[ch]);
          }
        }
      }
    }
    if IdenticalWindow(a, b, w) {
      forall ch: nat | ch < a.channels ensures ChannelEqual(a, b, ch, w) {
        forall x, y | 4 * w.0 <= x < 4 * w.0 + 8 && 4 * w.1 <= y < 4 * w.1 + 8
          ensures SampleAt(a, b, ch, x, y).0 == SampleAt(a, b, ch, x, y).1
        {
          assert !Differs(a, b, x, y);
        }
      }
    }
  }

  /** Between -1 and 1, and 1 exactly for identical windows. */
  lemma WindowValueRange(a: Image, b: Image, w: Cell)
    requires Pair(a, b)
    ensures -1.0 <= WindowValue(a, b, w) <= 1.0
    ensures WindowValue(a, b, w) == 1.0 <==> IdenticalWindow(a, b, w)
  {
    ChannelSumRange(a, b, w, a.channels);
    ChannelsTellPixels(a, b, w);
    RealQuotient(ChannelSum(a, b, w, a.channels), a.channels as real);
  }

  // --- block sums -----------------------------------------------------------------------------------

  /** The four running sums of `_block_sums` at one position. */
  function Plane(a: Image, b: Image, ch: nat): (int, int) -> Sums
    requires Pair(a, b)
  {
    (x, y) => SumsOf(SampleAt(a, b, ch, x, y))
  }

  /** `_block_sums`: the 4x4 blocks `i0..i1` (inclusive) of one block row. */
  method BlockSums(a: Image, b: Image, ch: nat, blockRow: int, i0: int, i1: int) returns (blocks: seq<Sums>)
    requires Pair(a, b) && i0 <= i1 + 1
    ensures |blocks| == i1 + 1 - i0
    ensures forall k | 0 <= k < |blocks| :: blocks[k] == Block(Plane(a, b, ch), i0 + k, blockRow)
  {
    var cols := ColumnsOfBlocks(a, b, ch, 4 * i0, 4 * (i1 + 1 - i0), 4 * blockRow);
    ghost var f := Plane(a, b, ch);
    blocks := [];
    for n := 0 to i1 + 1 - i0
      invariant |blocks| == n
      invariant forall k | 0 <= k < n :: blocks[k] == Block(f, i0 + k, blockRow)
    {
      var k := 4 * n;
      RectOfFour(f, 4 * (i0 + n), 4 * blockRow, 4 * blockRow + 4);
      blocks := blocks + [AddSums(AddSums(AddSums(cols[k], cols[k + 1]), cols[k + 2]), cols[k + 3])];
    }
  }

  /** The column sums over the four rows of a block row. */
  method ColumnsOfBlocks(a: Image, b: Image, ch: nat, x0: int, width: nat, y0: int) returns (cols: seq<Sums>)
    requires Pair(a, b)
    ensures |cols| == width
    ensures forall k | 0 <= k < width :: cols[k] == ColumnSum(Plane(a, b, ch), x0 + k, y0, y0 + 4)
  {
    ghost var f := Plane(a, b, ch);
    cols := seq(width, k => ZERO);
    for y := y0 to y0 + 4
      invariant |cols| == width
      invariant forall k | 0 <= k < width :: cols[k] == ColumnSum(f, x0 + k, y0, y)
    {
      cols := NextColumns(a, b, ch, x0, y0, y, cols);
    }
  }

  /** One row more. */
  method NextColumns(a: Image, b: Image, ch: nat, x0: int, y0: int, y: int, before: seq<Sums>)
    returns (cols: seq<Sums>)
    requires Pair(a, b) && y0 <= y
    requires forall k | 0 <= k < |before| :: before[k] == ColumnSum(Plane(a, b, ch), x0 + k, y0, y)
    ensures |cols| == |before|
    ensures forall k | 0 <= k < |cols| :: cols[k] == ColumnSum(Plane(a, b, ch), x0 + k, y0, y + 1)
  {
    ghost var f := Plane(a, b, ch);
    cols := [];
    for k := 0 to |before|
      invariant |cols| == k
      invariant forall m | 0 <= m < k :: cols[m] == ColumnSum(f, x0 + m, y0, y + 1)
    {
      var sums := SumsOf(SampleAt(a, b, ch, x0 + k, y));
      assert sums == f(x0 + k, y);
      cols := cols + [AddSums(before[k], sums)];
    }
  }

  /** A rectangle of sample pairs has the sums of its positions. */
  lemma {:induction false} RectTotal(a: Image, b: Image, ch: nat, x0: int, x1: int, y0: int, y1: int)
    requires Pair(a, b)
    ensures Total(Rect(a, b, ch, x0, x1, y0, y1)) == RectSum(Plane(a, b, ch), x0, x1, y0, y1)
    decreases x1 - x0
  {
    if x0 < x1 {
      var front, col := Rect(a, b, ch, x0, x1 - 1, y0, y1), Column(a, b, ch, x1 - 1, y0, y1);
      RectTotal(a, b, ch, x0, x1 - 1, y0, y1);
      ColumnTotal(a, b, ch, x1 - 1, y0, y1);
      TotalConcat(front, col);
    }
  }

  lemma {:induction false} ColumnTotal(a: Image, b: Image, ch: nat, x: int, y0: int, y1: int)
    requires Pair(a, b)
    ensures Total(Column(a, b, ch, x, y0, y1)) == ColumnSum(Plane(a, b, ch), x, y0, y1)
    decreases y1 - y0
  {
    if y0 < y1 {
      var front := Column(a, b, ch, x, y0, y1 - 1);
      ColumnTotal(a, b, ch, x, y0, y1 - 1);
      TotalConcat(front, [SampleAt(a, b, ch, x, y1 - 1)]);
    }
  }

  /** The value of the channel is that of the sums of its 64 positions. */
  lemma ValueFromSums(a: Image, b: Image, ch: nat, i: int, j: int)
    requires Pair(a, b)
    ensures Denominator(Window(Plane(a, b, ch), i, j)) > 0
    ensures SsimEnd(Window(Plane(a, b, ch), i, j)) == ChannelValue(a, b, ch, (i, j))
  {
    WindowTotal(a, b, ch, i, j);
    WindowIsSamples(a, b, ch, (i, j));
  }

  lemma WindowTotal(a: Image, b: Image, ch: nat, i: int, j: int)
    requires Pair(a, b)
    ensures Total(WindowSamples(a, b, ch, (i, j))) == Window(Plane(a, b, ch), i, j)
  {
    var x1, y1 := 4 * i + 8, 4 * j + 8;
    RectTotal(a, b, ch, 4 * i, x1, 4 * j, y1);
  }

  // --- the loops ------------------------------------------------------------------------------------

  /** One grid row of `_window_ssim`. */
  method RowSsim(a: Image, b: Image, j: int, columns: seq<int>) returns (totals: map<int, real>)
    requires Pair(a, b) && columns != []
    ensures forall i :: i in totals <==> i in columns
    ensures forall i | i in totals :: totals[i] == WindowValue(a, b, (i, j))
  {
    var low, high := Extremes(columns);
    totals := map i | i in columns :: 0.0;
    ghost var keys := totals.Keys;
    for ch := 0 to a.channels
      invariant totals.Keys == keys && PartialSums(a, b, j, totals, ch)
    {
      assert forall i | i in totals :: i in keys;
      totals := AddChannel(a, b, ch, j, low, high + 1, totals);
    }
    totals := Means(a, b, j, totals);
  }

  /** The sums over the first `ch` channels. */
  ghost predicate PartialSums(a: Image, b: Image, j: int, totals: map<int, real>, ch: nat)
    requires Pair(a, b)
  {
    forall i | i in totals :: totals[i] == ChannelSum(a, b, (i, j), ch)
  }

  method Means(a: Image, b: Image, j: int, totals: map<int, real>) returns (means: map<int, real>)
    requires Pair(a, b) && PartialSums(a, b, j, totals, a.channels)
    ensures means.Keys == totals.Keys
    ensures forall i | i in means :: means[i] == WindowValue(a, b, (i, j))
  {
    means := map i | i in totals :: totals[i] / a.channels as real;
  }

  /** One channel of `_window_ssim`. */
  method AddChannel(a: Image, b: Image, ch: nat, j: int, i0: int, i1: int, before: map<int, real>)
    returns (totals: map<int, real>)
    requires Pair(a, b) && i0 <= i1
    requires (forall i | i in before :: i0 <= i < i1) && PartialSums(a, b, j, before, ch)
    ensures totals.Keys == before.Keys && PartialSums(a, b, j, totals, ch + 1)
  {
    var top := BlockSums(a, b, ch, j, i0, i1);
    var bottom := BlockSums(a, b, ch, j + 1, i0, i1);
    var sums := FourBlocks(Plane(a, b, ch), j, i0, top, bottom);
    forall i | i in before ensures Denominator(sums[i - i0]) > 0
      && SsimEnd(sums[i - i0]) == ChannelValue(a, b, ch, (i, j))
    {
      ValueFromSums(a, b, ch, i, j);
    }
    totals := map i | i in before :: before[i] + SsimEnd(sums[i - i0]);
  }

  /** The windows in the rows listed so far have their values. */
  ghost predicate Evaluated(a: Image, b: Image, windows: set<Cell>, rows: seq<int>, result: map<Cell, real>)
    requires Pair(a, b)
  {
    (forall w | w in windows && w.1 in rows :: w in result)
    && (forall w | w in result :: w in windows && result[w] == WindowValue(a, b, w))
  }

  /** `_window_ssim`. */
  method WindowSsim(a: Image, b: Image, windows: set<Cell>) returns (result: map<Cell, real>)
    requires Pair(a, b)
    ensures result.Keys == windows
    ensures forall w | w in windows :: result[w] == WindowValue(a, b, w)
  {
    var rows, byRow := GroupRows(windows);
    result := map[];
    for k := 0 to |rows|
      invariant Evaluated(a, b, windows, rows[..k], result)
    {
      assert rows[k] in rows;
      var found := RowOf(a, b, windows, byRow, rows[k]);
      assert rows[..k + 1] == rows[..k] + [rows[k]];
      result := result + found;
    }
    assert rows[..|rows|] == rows;
    forall w | w in windows ensures w in result {
      InRow(windows, byRow, w);
      var j := w.1;
      assert j in rows;
    }
  }

  /** The windows of one grid row. */
  method RowOf(a: Image, b: Image, windows: set<Cell>, byRow: map<int, seq<int>>, j: int)
      returns (found: map<Cell, real>)
    requires Pair(a, b) && Grouped(windows, byRow) && j in byRow
    ensures forall w :: w in found <==> w in windows && w.1 == j
    ensures forall w | w in found :: found[w] == WindowValue(a, b, w)
  {
    var values := RowSsim(a, b, j, byRow[j]);
    forall w | w in windows && w.1 == j ensures w.0 in values {
      InRow(windows, byRow, w);
      var i := w.0;
      assert i in byRow[j];
    }
    found := map w | w in windows && w.1 == j :: values[w.0];
    forall w | w in found ensures found[w] == WindowValue(a, b, w) {
      assert w == (w.0, j);
    }
  }
}
