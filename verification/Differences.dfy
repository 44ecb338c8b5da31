/** The difference box and the pixel statistics of `scripts/parity/compare.py`. */
module Differences {
  import opened Arithmetic
  import opened Images
  import opened Rows
  import opened Wrappers

  // --- the first difference -------------------------------------------------------------------------

  /** `k` is the first position where the two rows differ, or their length. */
  ghost predicate FirstAt(x: seq<Byte>, y: seq<Byte>, k: nat)
    requires |x| == |y|
  {
    k <= |x| && (forall j | 0 <= j < k :: x[j] == y[j]) && (k < |x| ==> x[k] != y[k])
  }

  ghost predicate DifferIn(x: seq<Byte>, y: seq<Byte>, low: int, high: int)
    requires |x| == |y|
  {
    exists k :: 0 <= k < |x| && low <= k <= high && x[k] != y[k]
  }

  /** `_first_difference`: a binary search that compares slices. */
  method FirstDifference(x: seq<Byte>, y: seq<Byte>) returns (low: nat)
    requires |x| == |y|
    ensures FirstAt(x, y, low)
  {
    low := 0;
    var high := |x|;
    while low < high
      invariant low <= high <= |x| && forall j | 0 <= j < low :: x[j] == y[j]
      invariant high < |x| ==> DifferIn(x, y, low, high)
    {
      var middle := (low + high) / 2;
      SliceTest(x, y, low, middle);
      if x[low..middle + 1] == y[low..middle + 1] {
        low := middle + 1;
      } else {
        high := middle;
      }
    }
  }

  /** Comparing the slices tests the bytes in between. */
  lemma SliceTest(x: seq<Byte>, y: seq<Byte>, low: nat, middle: nat)
    requires |x| == |y| && low <= middle < |x|
    ensures x[low..middle + 1] == y[low..middle + 1] <==> !DifferIn(x, y, low, middle)
  {
    var s, t := x[low..middle + 1], y[low..middle + 1];
    forall k | low <= k <= middle ensures s[k - low] == x[k] && t[k - low] == y[k] {
    }
    if !DifferIn(x, y, low, middle) {
      forall i | 0 <= i < |s| ensures s[i] == t[i] {
        assert s[i] == x[low + i] && t[i] == y[low + i];
      }
    }
  }

  function Reversed(s: seq<Byte>): (r: seq<Byte>)
    ensures |r| == |s|
  {
    seq(|s|, k requires 0 <= k < |s| => s[|s| - 1 - k])
  }

  /** Reversed, the first difference is the last one. */
  lemma LastDifference(x: seq<Byte>, y: seq<Byte>, k: nat)
    requires |x| == |y| && FirstAt(Reversed(x), Reversed(y), k)
    ensures forall j | |x| - 1 - k < j < |x| :: x[j] == y[j]
    ensures x != y ==> k < |x| && x[|x| - 1 - k] != y[|x| - 1 - k]
  {
    var r, s := Reversed(x), Reversed(y);
    forall j | |x| - 1 - k < j < |x| ensures x[j] == y[j] {
      assert r[|x| - 1 - j] == x[j] && s[|x| - 1 - j] == y[j];
    }
    assert k == |x| ==> x == y;
  }

  // --- the box --------------------------------------------------------------------------------------

  predicate InBox(b: Box, x: int, y: int) { b.x0 <= x < b.x1 && b.y0 <= y < b.y1 }

  ghost predicate DiffersAbove(a: Image, b: Image, end: int, x: int, y: int)
    requires Pair(a, b)
  {
    y < end && Differs(a, b, x, y)
  }

  ghost predicate ColumnTouched(a: Image, b: Image, end: int, x: int)
    requires Pair(a, b)
  {
    exists y :: DiffersAbove(a, b, end, x, y)
  }

  ghost predicate RowTouched(a: Image, b: Image, end: int, y: int)
    requires Pair(a, b)
  {
    exists x :: DiffersAbove(a, b, end, x, y)
  }

  /** Each side of the box touches a differing pixel. */
  ghost predicate Tight(a: Image, b: Image, end: int, box: Box)
    requires Pair(a, b)
  {
    && ColumnTouched(a, b, end, box.x0) && ColumnTouched(a, b, end, box.x1 - 1)
    && RowTouched(a, b, end, box.y0) && RowTouched(a, b, end, box.y1 - 1)
  }

  /** The smallest box around the differing pixels of the rows above `end`; none when there are
      none. */
  ghost predicate SmallestAbove(a: Image, b: Image, end: int, box: Option<Box>)
    requires Pair(a, b)
  {
    if box.None? then NoneAbove(a, b, end) else HoldsAll(a, b, end, box.value) && Tight(a, b, end, box.value)
  }

  ghost predicate NoneAbove(a: Image, b: Image, end: int)
    requires Pair(a, b)
  {
    forall x, y :: !DiffersAbove(a, b, end, x, y)
  }

  /** Every differing pixel above `end` is inside the box. */
  ghost predicate HoldsAll(a: Image, b: Image, end: int, box: Box)
    requires Pair(a, b)
  {
    forall x, y | DiffersAbove(a, b, end, x, y) :: InBox(box, x, y)
  }

  /** The smallest box around every differing pixel. */
  ghost predicate Smallest(a: Image, b: Image, box: Option<Box>)
    requires Pair(a, b)
  {
    SmallestAbove(a, b, a.height, box)
  }

  /** It is contained in every box that holds the differing pixels, lies inside the image, and is
      missing exactly for equal images. */
  lemma SmallestMeans(a: Image, b: Image, box: Option<Box>)
    requires Pair(a, b) && Smallest(a, b, box)
    ensures box.None? <==> a == b
    ensures box.Some? ==> 0 <= box.value.x0 < box.value.x1 <= a.width && 0 <= box.value.y0 < box.value.y1 <= a.height
    ensures forall other: Box | box.Some? && (forall x, y | Differs(a, b, x, y) :: InBox(other, x, y)) ::
              && other.x0 <= box.value.x0 && box.value.x1 <= other.x1
              && other.y0 <= box.value.y0 && box.value.y1 <= other.y1
  {
    NoDifferenceIsEquality(a, b);
    assert forall x, y :: Differs(a, b, x, y) <==> DiffersAbove(a, b, a.height, x, y);
    if box.Some? {
      var left :| DiffersAbove(a, b, a.height, box.value.x0, left);
      var right :| DiffersAbove(a, b, a.height, box.value.x1 - 1, right);
      var top :| DiffersAbove(a, b, a.height, top, box.value.y0);
      var bottom :| DiffersAbove(a, b, a.height, bottom, box.value.y1 - 1);
      assert Differs(a, b, box.value.x0, left) && Differs(a, b, box.value.x1 - 1, right);
      assert Differs(a, b, top, box.value.y0) && Differs(a, b, bottom, box.value.y1 - 1);
    }
  }

  /** `Box.union`. */
  function Union(p: Box, q: Box): Box {
    Box(Min(p.x0, q.x0), Min(p.y0, q.y0), Max(p.x1, q.x1), Max(p.y1, q.y1))
  }

  /** The columns `[x0, x1)` that differ in row `y`: what one row adds. */
  ghost predicate RowSpan(a: Image, b: Image, y: int, x0: int, x1: int)
    requires Pair(a, b)
  {
    Differs(a, b, x0, y) && Differs(a, b, x1 - 1, y) && forall x | Differs(a, b, x, y) :: x0 <= x < x1
  }

  lemma SmallestGrows(a: Image, b: Image, y: int, end: int, box: Option<Box>, x0: int, x1: int, box': Option<Box>)
    requires Pair(a, b) && SmallestAbove(a, b, y, box) && RowSpan(a, b, y, x0, x1) && end == y + 1
    requires var line := Box(x0, y, x1, y + 1); box' == Some(if box.Some? then Union(box.value, line) else line)
    ensures SmallestAbove(a, b, end, box')
  {
    assert DiffersAbove(a, b, end, x0, y) && DiffersAbove(a, b, end, x1 - 1, y);
    forall u, v | DiffersAbove(a, b, end, u, v) ensures InBox(box'.value, u, v) {
      assert v == y || DiffersAbove(a, b, y, u, v);
    }
    TouchedStays(a, b, y, end);
  }

  lemma TouchedStays(a: Image, b: Image, y: int, end: int)
    requires Pair(a, b) && y <= end
    ensures forall x | ColumnTouched(a, b, y, x) :: ColumnTouched(a, b, end, x)
    ensures forall v | RowTouched(a, b, y, v) :: RowTouched(a, b, end, v)
  {
    forall x | ColumnTouched(a, b, y, x) ensures ColumnTouched(a, b, end, x) {
      var v :| DiffersAbove(a, b, y, x, v);
      assert DiffersAbove(a, b, end, x, v);
    }
    forall v | RowTouched(a, b, y, v) ensures RowTouched(a, b, end, v) {
      var x :| DiffersAbove(a, b, y, x, v);
      assert DiffersAbove(a, b, end, x, v);
    }
  }

  /** The first and the last position at which two rows differ. */
  method Ends(r: seq<Byte>, s: seq<Byte>) returns (first: nat, last: nat)
    requires |r| == |s| && r != s
    ensures first < |r| && last < |r| && r[first] != s[first] && r[last] != s[last]
    ensures forall k | 0 <= k < first :: r[k] == s[k]
    ensures forall k | last < k < |r| :: r[k] == s[k]
  {
    first := FirstDifference(r, s);
    var back := FirstDifference(Reversed(r), Reversed(s));
    LastDifference(r, s, back);
    last := |r| - 1 - back;
  }

  /** One row of `diff_bbox`: the byte positions, divided by the channels, bound the columns. */
  method SpanOfRow(a: Image, b: Image, y: nat) returns (x0: int, x1: int)
    requires Pair(a, b) && y < a.height && Row(a, y) != Row(b, y)
    ensures RowSpan(a, b, y, x0, x1)
  {
    var c := a.channels;
    var r, s := Row(a, y), Row(b, y);
    var first, last := Ends(r, s);
    x0, x1 := first / c, last / c + 1;
    BytesBoundPixels(a, b, y, first, last);
  }

  lemma BytesBoundPixels(a: Image, b: Image, y: nat, first: nat, last: nat)
    requires Pair(a, b) && y < a.height
    requires first < |Row(a, y)| && last < |Row(a, y)|
    requires Row(a, y)[first] != Row(b, y)[first] && Row(a, y)[last] != Row(b, y)[last]
    requires forall k | 0 <= k < first :: Row(a, y)[k] == Row(b, y)[k]
    requires forall k | last < k < |Row(a, y)| :: Row(a, y)[k] == Row(b, y)[k]
    ensures RowSpan(a, b, y, first / a.channels, last / a.channels + 1)
  {
    var c, r, s := a.channels, Row(a, y), Row(b, y);
    ByteInPixel(first, c, a.width);
    ByteInPixel(last, c, a.width);
    PixelsOfRows(a, b, y, first / c);
    PixelsOfRows(a, b, y, last / c);
    forall x | Differs(a, b, x, y) ensures first / c <= x < last / c + 1 {
      PixelsOfRows(a, b, y, x);
      var k :| 0 <= k < |r| && k / c == x && r[k] != s[k];
      DivOrder(first, k, c);
      DivOrder(k, last, c);
    }
  }

  /** `Mismatch` is the ValueError of `_check_pair`. */
  datatype Diff = Found(box: Option<Box>) | Mismatch

  /** `diff_bbox`. */
  method DiffBBox(a: Image, b: Image) returns (r: Diff)
    requires WellFormed(a) && WellFormed(b) && a.channels >= 1
    ensures r.Mismatch? <==> !SameShape(a, b)
    ensures r.Found? ==> Smallest(a, b, r.box)
  {
    if !SameShape(a, b) {
      return Mismatch;
    }
    var box: Option<Box> := None;
    for y := 0 to a.height
      invariant SmallestAbove(a, b, y, box)
    {
      if Row(a, y) == Row(b, y) {
        EqualRowsEqualPixels(a, b, y);
        SmallestSkips(a, b, y, y + 1, box);
      } else {
        var x0, x1 := SpanOfRow(a, b, y);
        ghost var before := box;
        var line := Box(x0, y, x1, y + 1);
        box := Some(if box.None? then line else Union(box.value, line));
        SmallestGrows(a, b, y, y + 1, before, x0, x1, box);
      }
    }
    r := Found(box);
  }

  lemma SmallestSkips(a: Image, b: Image, y: int, end: int, box: Option<Box>)
    requires Pair(a, b) && SmallestAbove(a, b, y, box) && (forall x :: !Differs(a, b, x, y)) && end == y + 1
    ensures SmallestAbove(a, b, end, box)
  {
    forall u, v | DiffersAbove(a, b, end, u, v) ensures DiffersAbove(a, b, y, u, v) {
      assert v != y;
    }
    TouchedStays(a, b, y, end);
  }

  // --- statistics -----------------------------------------------------------------------------------

  /** The largest channel difference of two pixels. */
  function Delta(p: seq<Byte>, q: seq<Byte>): (d: nat)
    requires |p| == |q|
    ensures d == 0 <==> p == q
  {
    if p == [] then 0
    else
      var n := |p| - 1;
      assert p == p[..n] + [p[n]] && q == q[..n] + [q[n]];
      var x: int, y: int := p[n], q[n];
      Max(Delta(p[..n], q[..n]), Abs(x - y))
  }

  function DeltaAt(a: Image, b: Image, x: int, y: int): nat
    requires Pair(a, b)
  {
    if Inside(a, x, y) then Delta(Pixel(a, x, y), Pixel(b, x, y)) else 0
  }

  /** The three numbers of `diff_stats`. */
  datatype Stats = Stats(worst: nat, over: nat, differing: nat)

  const NO_STATS := Stats(0, 0, 0)

  function Plus(s: Stats, d: nat): Stats {
    Stats(Max(s.worst, d), s.over + (if d > 16 then 1 else 0), s.differing + (if d > 0 then 1 else 0))
  }

  /** `s` and the pixels `[x0, x1)` of row `y`. */
  function PlusRow(a: Image, b: Image, s: Stats, y: int, x0: int, x1: int): Stats
    requires Pair(a, b)
    decreases x1 - x0
  {
    if x0 >= x1 then s else Plus(PlusRow(a, b, s, y, x0, x1 - 1), DeltaAt(a, b, x1 - 1, y))
  }

  /** The scan of a whole box, pixel by pixel; pixels outside the image count nothing. */
  function Scan(a: Image, b: Image, box: Box, y1: int): Stats
    requires Pair(a, b)
    decreases y1 - box.y0
  {
    if box.y0 >= y1 then NO_STATS
    else PlusRow(a, b, Scan(a, b, box, y1 - 1), y1 - 1, box.x0, box.x1)
  }

  function ScanBox(a: Image, b: Image, box: Box): Stats
    requires Pair(a, b)
  {
    Scan(a, b, box, box.y1)
  }

  ghost predicate QuietOutside(a: Image, b: Image, box: Box)
    requires Pair(a, b)
  {
    forall x, y | DeltaAt(a, b, x, y) > 0 :: InBox(box, x, y)
  }

  lemma {:induction false} QuietRow(a: Image, b: Image, s: Stats, y: int, x0: int, x1: int)
    requires Pair(a, b) && forall x | x0 <= x < x1 :: DeltaAt(a, b, x, y) == 0
    ensures PlusRow(a, b, s, y, x0, x1) == s
    decreases x1 - x0
  {
    if x0 < x1 {
      QuietRow(a, b, s, y, x0, x1 - 1);
    }
  }

  /** Restricting a row to the columns where something can differ changes nothing. */
  lemma {:induction false} NarrowRow(a: Image, b: Image, s: Stats, y: int, x0: int, x1: int, lo: int, hi: int)
    requires Pair(a, b)
    requires forall x | x0 <= x < x1 && DeltaAt(a, b, x, y) > 0 :: lo <= x < hi
    ensures PlusRow(a, b, s, y, Max(x0, lo), Min(x1, hi)) == PlusRow(a, b, s, y, x0, x1)
    decreases x1 - x0
  {
    if x0 < x1 {
      NarrowRow(a, b, s, y, x0, x1 - 1, lo, hi);
      if x1 - 1 < lo || x1 - 1 >= hi {
        assert DeltaAt(a, b, x1 - 1, y) == 0;
      }
    }
  }

  function Intersect(p: Box, q: Box): Box {
    Box(Max(p.x0, q.x0), Max(p.y0, q.y0), Min(p.x1, q.x1), Min(p.y1, q.y1))
  }

  lemma {:induction false} NarrowScan(a: Image, b: Image, region: Box, box: Box, clipped: Box, y1: int)
    requires Pair(a, b) && QuietOutside(a, b, box) && clipped == Intersect(box, region)
    ensures Scan(a, b, clipped, Min(y1, box.y1)) == Scan(a, b, region, y1)
    decreases y1 - region.y0
  {
    if region.y0 < y1 {
      NarrowScan(a, b, region, box, clipped, y1 - 1);
      NarrowOneRow(a, b, region, box, y1 - 1, Scan(a, b, region, y1 - 1));
    }
  }

  lemma NarrowOneRow(a: Image, b: Image, region: Box, box: Box, y: int, s: Stats)
    requires Pair(a, b) && QuietOutside(a, b, box)
    ensures PlusRow(a, b, s, y, region.x0, region.x1)
         == if box.y0 <= y < box.y1 then PlusRow(a, b, s, y, Max(box.x0, region.x0), Min(box.x1, region.x1)) else s
  {
    if box.y0 <= y < box.y1 {
      NarrowRow(a, b, s, y, region.x0, region.x1, box.x0, box.x1);
    } else {
      forall x | region.x0 <= x < region.x1 ensures DeltaAt(a, b, x, y) == 0 {
        assert !InBox(box, x, y);
      }
      QuietRow(a, b, s, y, region.x0, region.x1);
    }
  }

  /** Scanning inside the difference box, clipped to the region, is scanning the region. */
  lemma BoxIsEnough(a: Image, b: Image, region: Box, box: Box)
    requires Pair(a, b) && QuietOutside(a, b, box)
    ensures ScanBox(a, b, Intersect(box, region)) == ScanBox(a, b, region)
  {
    NarrowScan(a, b, region, box, Intersect(box, region), region.y1);
    AfterTheLastRow(a, b, Intersect(box, region), Min(region.y1, box.y1));
  }

  lemma AfterTheLastRow(a: Image, b: Image, box: Box, y1: int)
    requires Pair(a, b) && y1 == box.y1
    ensures Scan(a, b, box, y1) == ScanBox(a, b, box)
  {
  }

  lemma {:induction false} EmptyColumns(a: Image, b: Image, box: Box, y1: int)
    requires Pair(a, b) && box.x0 >= box.x1
    ensures Scan(a, b, box, y1) == NO_STATS
    decreases y1 - box.y0
  {
    if box.y0 < y1 {
      EmptyColumns(a, b, box, y1 - 1);
    }
  }

  // --- what the statistics count ------------------------------------------------------------------------

  function Gap(p: int, q: int): int { if p < q then q - p else p - q }

  /** Some channel of the pixel differs by more than `d`. */
  ghost predicate DiffersBy(a: Image, b: Image, x: int, y: int, d: int)
    requires Pair(a, b)
  {
    Inside(a, x, y) && exists ch :: 0 <= ch < a.channels && Gap(Pixel(a, x, y)[ch], Pixel(b, x, y)[ch]) > d
  }

  /** The pixels of the box of which some channel differs by more than `d`. */
  ghost function Differing(a: Image, b: Image, box: Box, d: int): set<(int, int)>
    requires Pair(a, b)
  {
    set x, y | box.x0 <= x < box.x1 && box.y0 <= y < box.y1 && DiffersBy(a, b, x, y, d) :: (x, y)
  }

  /** `px_over_16`, `differing` and `max`: two counts of pixels, and the largest difference of a channel. */
  ghost predicate StatsAre(a: Image, b: Image, box: Box, s: Stats)
    requires Pair(a, b)
  {
    && s.over == |Differing(a, b, box, 16)| && s.differing == |Differing(a, b, box, 0)|
    && Differing(a, b, box, s.worst) == {} && (s.worst > 0 ==> Differing(a, b, box, s.worst - 1) != {})
  }

  lemma {:induction false} DeltaMeans(p: seq<Byte>, q: seq<Byte>, d: nat)
    requires |p| == |q|
    ensures Delta(p, q) > d <==> exists ch :: 0 <= ch < |p| && Gap(p[ch], q[ch]) > d
  {
    if p != [] {
      var n := |p| - 1;
      DeltaMeans(p[..n], q[..n], d);
      if ch :| 0 <= ch < |p| && Gap(p[ch], q[ch]) > d {
        assert ch < n ==> p[..n][ch] == p[ch] && q[..n][ch] == q[ch];
      }
      if ch :| 0 <= ch < n && Gap(p[..n][ch], q[..n][ch]) > d {
        assert Gap(p[ch], q[ch]) > d;
      }
      assert Gap(p[n], q[n]) > d ==> Delta(p, q) > d;
    }
  }

  lemma DeltaAtMeans(a: Image, b: Image, x: int, y: int, d: nat)
    requires Pair(a, b)
    ensures DeltaAt(a, b, x, y) > d <==> DiffersBy(a, b, x, y, d)
  {
    if Inside(a, x, y) {
      DeltaMeans(Pixel(a, x, y), Pixel(b, x, y), d);
    }
  }

  function RowSet(a: Image, b: Image, d: nat, y: int, x0: int, x1: int): set<(int, int)>
    requires Pair(a, b)
  {
    set x | x0 <= x < x1 && DeltaAt(a, b, x, y) > d :: (x, y)
  }

  function BoxSet(a: Image, b: Image, d: nat, box: Box, y1: int): set<(int, int)>
    requires Pair(a, b)
  {
    set x, y | box.x0 <= x < box.x1 && box.y0 <= y < y1 && DeltaAt(a, b, x, y) > d :: (x, y)
  }

  lemma {:induction false} RowCounts(a: Image, b: Image, s: Stats, y: int, x0: int, x1: int)
    requires Pair(a, b)
    ensures PlusRow(a, b, s, y, x0, x1).over == s.over + |RowSet(a, b, 16, y, x0, x1)|
    ensures PlusRow(a, b, s, y, x0, x1).differing == s.differing + |RowSet(a, b, 0, y, x0, x1)|
    decreases x1 - x0
  {
    if x0 < x1 {
      RowCounts(a, b, s, y, x0, x1 - 1);
      RowSetLast(a, b, 16, y, x0, x1);
      RowSetLast(a, b, 0, y, x0, x1);
    }
  }

  lemma RowSetLast(a: Image, b: Image, d: nat, y: int, x0: int, x1: int)
    requires Pair(a, b) && x0 < x1
    ensures |RowSet(a, b, d, y, x0, x1)|
         == |RowSet(a, b, d, y, x0, x1 - 1)| + if DeltaAt(a, b, x1 - 1, y) > d then 1 else 0
  {
    var last := (x1 - 1, y);
    assert RowSet(a, b, d, y, x0, x1)
        == RowSet(a, b, d, y, x0, x1 - 1) + if DeltaAt(a, b, x1 - 1, y) > d then {last} else {};
    assert last !in RowSet(a, b, d, y, x0, x1 - 1);
  }

  lemma BoxSetLast(a: Image, b: Image, d: nat, box: Box, y1: int)
    requires Pair(a, b) && box.y0 < y1
    ensures |BoxSet(a, b, d, box, y1)| == |BoxSet(a, b, d, box, y1 - 1)| + |RowSet(a, b, d, y1 - 1, box.x0, box.x1)|
  {
    var before, row := BoxSet(a, b, d, box, y1 - 1), RowSet(a, b, d, y1 - 1, box.x0, box.x1);
    assert BoxSet(a, b, d, box, y1) == before + row && before !! row;
  }

  lemma {:induction false} ScanCounts(a: Image, b: Image, box: Box, y1: int)
    requires Pair(a, b)
    ensures Scan(a, b, box, y1).over == |BoxSet(a, b, 16, box, y1)|
    ensures Scan(a, b, box, y1).differing == |BoxSet(a, b, 0, box, y1)|
    decreases y1 - box.y0
  {
    if box.y0 < y1 {
      ScanCounts(a, b, box, y1 - 1);
      RowCounts(a, b, Scan(a, b, box, y1 - 1), y1 - 1, box.x0, box.x1);
      BoxSetLast(a, b, 16, box, y1);
      BoxSetLast(a, b, 0, box, y1);
    } else {
      assert BoxSet(a, b, 16, box, y1) == {} == BoxSet(a, b, 0, box, y1);
    }
  }

  /** A pixel of these rows of the box differs by `w`. */
  ghost predicate Reaches(a: Image, b: Image, box: Box, y1: int, w: nat)
    requires Pair(a, b)
  {
    exists x, y :: box.x0 <= x < box.x1 && box.y0 <= y < y1 && DeltaAt(a, b, x, y) == w
  }

  ghost predicate AtMost(a: Image, b: Image, box: Box, y1: int, w: nat)
    requires Pair(a, b)
  {
    forall x, y | box.x0 <= x < box.x1 && box.y0 <= y < y1 :: DeltaAt(a, b, x, y) <= w
  }

  lemma {:induction false} RowWorst(a: Image, b: Image, s: Stats, y: int, x0: int, x1: int)
    requires Pair(a, b)
    ensures var w := PlusRow(a, b, s, y, x0, x1).worst;
            && s.worst <= w && (forall x | x0 <= x < x1 :: DeltaAt(a, b, x, y) <= w)
            && (w == s.worst || exists x :: x0 <= x < x1 && DeltaAt(a, b, x, y) == w)
    decreases x1 - x0
  {
    if x0 < x1 {
      RowWorst(a, b, s, y, x0, x1 - 1);
    }
  }

  /** `worst` is the largest difference of a pixel: none is above it, and one reaches it. */
  lemma {:induction false} ScanWorst(a: Image, b: Image, box: Box, y1: int)
    requires Pair(a, b)
    ensures AtMost(a, b, box, y1, Scan(a, b, box, y1).worst)
    ensures Scan(a, b, box, y1).worst == 0 || Reaches(a, b, box, y1, Scan(a, b, box, y1).worst)
    decreases y1 - box.y0
  {
    if box.y0 < y1 {
      var y := y1 - 1;
      var before := Scan(a, b, box, y);
      ScanWorst(a, b, box, y);
      RowReaches(a, b, before, y, box);
      WorstNext(a, b, box, y, y1, before.worst, PlusRow(a, b, before, y, box.x0, box.x1).worst);
    }
  }

  lemma RowReaches(a: Image, b: Image, s: Stats, y: int, box: Box)
    requires Pair(a, b)
    ensures var w := PlusRow(a, b, s, y, box.x0, box.x1).worst;
            s.worst <= w && RowAtMost(a, b, box, y, w) && (w == s.worst || RowHas(a, b, box, y, w))
  {
    RowWorst(a, b, s, y, box.x0, box.x1);
  }

  ghost predicate RowAtMost(a: Image, b: Image, box: Box, y: int, w: nat)
    requires Pair(a, b)
  {
    forall x | box.x0 <= x < box.x1 :: DeltaAt(a, b, x, y) <= w
  }

  ghost predicate RowHas(a: Image, b: Image, box: Box, y: int, w: nat)
    requires Pair(a, b)
  {
    exists x :: box.x0 <= x < box.x1 && DeltaAt(a, b, x, y) == w
  }

  lemma WorstNext(a: Image, b: Image, box: Box, y: int, y1: int, before: nat, w: nat)
    requires Pair(a, b) && box.y0 <= y && y1 == y + 1 && before <= w
    requires AtMost(a, b, box, y, before) && (before == 0 || Reaches(a, b, box, y, before))
    requires RowAtMost(a, b, box, y, w) && (w == before || RowHas(a, b, box, y, w))
    ensures AtMost(a, b, box, y1, w) && (w == 0 || Reaches(a, b, box, y1, w))
  {
    forall x, v | box.x0 <= x < box.x1 && box.y0 <= v < y1 ensures DeltaAt(a, b, x, v) <= w {
      assert v < y ==> DeltaAt(a, b, x, v) <= before;
    }
  }

  lemma BoxSetMeans(a: Image, b: Image, d: nat, box: Box)
    requires Pair(a, b)
    ensures BoxSet(a, b, d, box, box.y1) == Differing(a, b, box, d)
  {
    forall x, y ensures (x, y) in BoxSet(a, b, d, box, box.y1) <==> (x, y) in Differing(a, b, box, d) {
      DeltaAtMeans(a, b, x, y, d);
    }
  }

  /** The scan of a box gives these numbers. */
  lemma ScanMeans(a: Image, b: Image, box: Box)
    requires Pair(a, b)
    ensures StatsAre(a, b, box, ScanBox(a, b, box))
  {
    var s := ScanBox(a, b, box);
    ScanCounts(a, b, box, box.y1);
    BoxSetMeans(a, b, 16, box);
    BoxSetMeans(a, b, 0, box);
    ScanWorst(a, b, box, box.y1);
    BoxSetMeans(a, b, s.worst, box);
    if s.worst > 0 {
      var x, y :| box.x0 <= x < box.x1 && box.y0 <= y < box.y1 && DeltaAt(a, b, x, y) == s.worst;
      BoxSetMeans(a, b, s.worst - 1, box);
      assert (x, y) in BoxSet(a, b, s.worst - 1, box, box.y1);
    }
  }

  function WholeImage(a: Image): Box { Box(0, 0, a.width, a.height) }

  datatype Measured = Measured(stats: Stats) | Refused

  /** `diff_stats`, with or without a region: the scan of the whole region. */
  method DiffStats(a: Image, b: Image, region: Option<Box>) returns (r: Measured)
    requires WellFormed(a) && WellFormed(b) && a.channels >= 1
    ensures r.Refused? <==> !SameShape(a, b)
    ensures r.Measured? ==> r.stats == ScanBox(a, b, if region.Some? then region.value else WholeImage(a))
    ensures r.Measured? ==>
      StatsAre(a, b, if region.Some? then region.value else Box(0, 0, a.width, a.height), r.stats)
  {
    if !SameShape(a, b) {
      return Refused;
    }
    ScanMeans(a, b, if region.Some? then region.value else WholeImage(a));
    var found := DiffBBox(a, b);
    ghost var goal := if region.Some? then region.value else WholeImage(a);
    if found.box.None? {
      NothingDiffers(a, b, goal);
      return Measured(NO_STATS);
    }
    var box := found.box.value;
    BoxIsQuiet(a, b, box);
    BoxIsEnough(a, b, goal, box);
    SmallestMeans(a, b, found.box);
    assert region.None? ==> Intersect(box, goal) == box;
    if region.Some? {
      box := Intersect(box, region.value);
      if box.x1 - box.x0 <= 0 || box.y1 - box.y0 <= 0 {
        if box.x1 - box.x0 <= 0 {
          EmptyColumns(a, b, box, box.y1);
        }
        return Measured(NO_STATS);
      }
    }
    var stats := ScanRows(a, b, box);
    r := Measured(stats);
  }

  lemma NothingDiffers(a: Image, b: Image, region: Box)
    requires Pair(a, b) && Smallest(a, b, None)
    ensures ScanBox(a, b, region) == NO_STATS
  {
    forall x, y ensures DeltaAt(a, b, x, y) == 0 {
      assert !DiffersAbove(a, b, a.height, x, y);
    }
    NothingToScan(a, b, region, region.y1);
  }

  lemma BoxIsQuiet(a: Image, b: Image, box: Box)
    requires Pair(a, b) && Smallest(a, b, Some(box))
    ensures QuietOutside(a, b, box)
  {
    forall x, y | DeltaAt(a, b, x, y) > 0 ensures InBox(box, x, y) {
      assert DiffersAbove(a, b, a.height, x, y);
    }
  }

  /** The loop over the rows of the box. */
  method ScanRows(a: Image, b: Image, box: Box) returns (stats: Stats)
    requires Pair(a, b) && 0 <= box.x0 <= box.x1 <= a.width && 0 <= box.y0 <= box.y1 <= a.height
    ensures stats == ScanBox(a, b, box)
  {
    stats := NO_STATS;
    for y := box.y0 to box.y1
      invariant stats == Scan(a, b, box, y)
    {
      stats := RowStats(a, b, stats, y, box.x0, box.x1);
    }
  }

  lemma {:induction false} NothingToScan(a: Image, b: Image, box: Box, y1: int)
    requires Pair(a, b) && forall x, y :: DeltaAt(a, b, x, y) == 0
    ensures Scan(a, b, box, y1) == NO_STATS
    decreases y1 - box.y0
  {
    if box.y0 < y1 {
      NothingToScan(a, b, box, y1 - 1);
      QuietRow(a, b, NO_STATS, y1 - 1, box.x0, box.x1);
    }
  }

  /** One row of the scan: skipped when its two slices are equal. */
  method RowStats(a: Image, b: Image, s: Stats, y: int, x0: int, x1: int) returns (r: Stats)
    requires Pair(a, b) && 0 <= y < a.height && 0 <= x0 <= x1 <= a.width
    ensures r == PlusRow(a, b, s, y, x0, x1)
  {
    var c := a.channels;
    SliceFits(x0, x1, a.width, c);
    if Row(a, y)[Times(x0, c)..Times(x1, c)] == Row(b, y)[Times(x0, c)..Times(x1, c)] {
      EqualSlices(a, b, y, x0, x1, s);
      return s;
    }
    r := AddPixels(a, b, s, y, x0, x1);
  }

  method AddPixels(a: Image, b: Image, s: Stats, y: int, x0: int, x1: int) returns (r: Stats)
    requires Pair(a, b) && x0 <= x1
    ensures r == PlusRow(a, b, s, y, x0, x1)
  {
    r := s;
    for x := x0 to x1
      invariant r == PlusRow(a, b, s, y, x0, x)
    {
      r := Plus(r, DeltaAt(a, b, x, y));
    }
  }

  lemma {:induction false} SliceFits(x0: nat, x1: nat, width: nat, c: nat)
    requires x0 <= x1 <= width
    ensures Times(x0, c) <= Times(x1, c) <= Times(width, c)
    decreases width - x1, x1 - x0
  {
    if x1 < width {
      LineFits(x1, width, c);
    }
    if x0 < x1 {
      LineFits(x0, x1, c);
    }
  }

  lemma EqualSlices(a: Image, b: Image, y: int, x0: int, x1: int, stats: Stats)
    requires Pair(a, b) && 0 <= y < a.height && 0 <= x0 <= x1 <= a.width
    requires Times(x0, a.channels) <= Times(x1, a.channels) <= Times(a.width, a.channels)
    requires Row(a, y)[Times(x0, a.channels)..Times(x1, a.channels)]
          == Row(b, y)[Times(x0, a.channels)..Times(x1, a.channels)]
    ensures PlusRow(a, b, stats, y, x0, x1) == stats
  {
    var c, r, s := a.channels, Row(a, y), Row(b, y);
    var lo, hi := Times(x0, c), Times(x1, c);
    forall x | x0 <= x < x1 ensures DeltaAt(a, b, x, y) == 0 {
      LineFits(x, x1, c);
      SliceFits(x0, x, a.width, c);
      LineFits(x, a.width, c);
      var p, q := Pixel(a, x, y), Pixel(b, x, y);
      forall i | 0 <= i < c ensures p[i] == q[i] {
        var k := Times(x, c) + i;
        assert p[i] == r[k] && q[i] == s[k];
        assert r[lo..hi][k - lo] == s[lo..hi][k - lo];
      }
      assert p == q;
    }
    QuietRow(a, b, stats, y, x0, x1);
  }
}
