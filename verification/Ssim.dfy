/** SSIM evaluated only near differences (`ssim` of `scripts/parity/compare.py`) against the mean over
    all windows. */
module Ssim {
  import opened Differences
  import opened Images
  import opened SsimGrid
  import opened SsimValues
  import opened SsimWindows
  import opened WindowMeans
  import opened Wrappers

  function Values(a: Image, b: Image): Cell -> real
    requires Pair(a, b)
  {
    w => WindowValue(a, b, w)
  }

  lemma ValuesRange(a: Image, b: Image)
    requires Pair(a, b)
    ensures forall w :: -1.0 <= Values(a, b)(w) <= 1.0
    ensures forall w :: Values(a, b)(w) == 1.0 <==> IdenticalWindow(a, b, w)
  {
    forall w ensures -1.0 <= Values(a, b)(w) <= 1.0 && (Values(a, b)(w) == 1.0 <==> IdenticalWindow(a, b, w)) {
      WindowValueRange(a, b, w);
    }
  }

  /** The definition that the sparse evaluation has to match. */
  ghost function FullMean(a: Image, b: Image, windows: set<Cell>): real
    requires Pair(a, b)
  {
    Mean(Values(a, b), windows)
  }

  /** The mean lies in [-1, 1] and is 1 exactly when every considered window is identical. */
  lemma FullMeanRange(a: Image, b: Image, windows: set<Cell>)
    requires Pair(a, b)
    ensures -1.0 <= FullMean(a, b, windows) <= 1.0
    ensures FullMean(a, b, windows) == 1.0 <==> forall w | w in windows :: IdenticalWindow(a, b, w)
  {
    ValuesRange(a, b);
    MeanRange(Values(a, b), windows);
  }

  /** Two pictures of 8x8 pixels with one channel, one value against another: the score of their one window. */
  lemma FlatImagesScore(a: Image, b: Image, x: int, y: int)
    requires Pair(a, b) && a.width == 8 && a.height == 8 && a.channels == 1
    requires (forall k | 0 <= k < |a.data| :: a.data[k] == x) && forall k | 0 <= k < |b.data| :: b.data[k] == y
    ensures 4096 * (x * x + y * y) + 416 > 0
    ensures FullMean(a, b, AllWindows(a)) == (8192 * x * y + 416) as real / (4096 * (x * x + y * y) + 416) as real
  {
    var w := (0, 0);
    var l := WindowSamples(a, b, 0, w);
    OneWindow(a);
    FlatWindow(a, b, w, x, y);
    WindowIsSamples(a, b, 0, w);
    ConstantWindow(l, x, y);
    ChannelsCountAlike(a, b, w);
    MeanOfOne(Values(a, b), w);
  }

  lemma OneWindow(a: Image)
    requires a.width == 8 && a.height == 8
    ensures AllWindows(a) == {(0, 0)} && OnGrid(a, (0, 0))
  {
    GridIsCounted(a);
    forall w ensures w in AllWindows(a) <==> w == (0, 0) {
      GridIsWhatFits(a, w);
    }
  }

  lemma MeanOfOne(value: Cell -> real, w: Cell)
    ensures Mean(value, {w}) == value(w)
  {
    MeanOfList(value, {w}, [w]);
    OneValue(value, w);
  }

  lemma FlatWindow(a: Image, b: Image, w: Cell, x: int, y: int)
    requires Pair(a, b) && a.channels == 1 && OnGrid(a, w)
    requires (forall k | 0 <= k < |a.data| :: a.data[k] == x) && forall k | 0 <= k < |b.data| :: b.data[k] == y
    ensures forall k | 0 <= k < |WindowSamples(a, b, 0, w)| :: WindowSamples(a, b, 0, w)[k] == (x, y)
  {
    var l := WindowSamples(a, b, 0, w);
    WindowIsSamples(a, b, 0, w);
    forall k | 0 <= k < |l| ensures l[k] == (x, y) {
      var u, v := k / 8, k % 8;
      assert 8 * u + v == k;
      var x0, y0 := 4 * w.0 + u, 4 * w.1 + v;
      WindowInData(a, b, 0, w, x0, y0, (y0 * a.width + x0) * a.channels);
    }
  }

  lemma OneValue(value: Cell -> real, w: Cell)
    ensures SumList(value, [w]) == value(w)
  {
    var l := [w];
    assert l[..0] == [] && SumList(value, l[..0]) == 0.0;
  }

  /** A window that misses the difference box is identical. */
  lemma FarWindowsAreIdentical(a: Image, b: Image, box: Box, w: Cell)
    requires Pair(a, b) && Smallest(a, b, Some(box)) && !Touches(w, box)
    ensures IdenticalWindow(a, b, w)
  {
    forall x, y | 4 * w.0 <= x < 4 * w.0 + 8 && 4 * w.1 <= y < 4 * w.1 + 8 ensures !Differs(a, b, x, y) {
      if Differs(a, b, x, y) {
        assert DiffersAbove(a, b, a.height, x, y);
        MeetsWindow(w, box, x, y);
      }
    }
  }

  datatype Score = Score(value: real) | Unlike

  /** `ssim`: evaluating only the considered windows near the difference box gives the mean over all
      considered windows. */
  method Ssim(a: Image, b: Image, region: Option<seq<Box>>) returns (r: Score)
    requires WellFormed(a) && WellFormed(b) && a.channels >= 1
    ensures r.Unlike? <==> !SameShape(a, b)
    ensures r.Score? ==> r.value == FullMean(a, b, Considered(a, region))
  {
    if !SameShape(a, b) {
      return Unlike;
    }
    var candidates, count := Candidates(a, region);
    if count == 0 {
      return Score(1.0);
    }
    var found := DiffBBox(a, b);
    if found.box.None? {
      EqualImagesScoreOne(a, b, Considered(a, region));
      return Score(1.0);
    }
    var mean := SparseMean(a, b, Considered(a, region), candidates, count, found.box.value);
    r := Score(mean);
  }

  method SparseMean(a: Image, b: Image, ghost windows: set<Cell>, candidates: Option<set<Cell>>, count: nat, box: Box)
    returns (mean: real)
    requires Pair(a, b) && Smallest(a, b, Some(box))
    requires windows <= AllWindows(a) && windows != {} && count == |windows|
    requires if candidates.Some? then candidates.value == windows else windows == AllWindows(a)
    ensures mean == FullMean(a, b, windows)
  {
    var evaluate := NearBox(a, windows, candidates, box);
    var values := WindowSsim(a, b, evaluate);
    var sum := SumValues(Values(a, b), values);
    FarValuesAreOne(a, b, windows, evaluate, box);
    MeanFromPart(Values(a, b), windows, evaluate, sum);
    assert |values| == |values.Keys|;
    mean := FilledMean(sum, count, |values|);
  }

  /** The windows that are not evaluated add exactly 1 each. */
  lemma FarValuesAreOne(a: Image, b: Image, windows: set<Cell>, evaluate: set<Cell>, box: Box)
    requires Pair(a, b) && Smallest(a, b, Some(box))
    requires forall w | w in windows - evaluate :: !Touches(w, box)
    ensures forall w | w in windows - evaluate :: Values(a, b)(w) == 1.0
  {
    ValuesRange(a, b);
    forall w | w in windows - evaluate ensures IdenticalWindow(a, b, w) {
      FarWindowsAreIdentical(a, b, box, w);
    }
  }

  lemma EqualImagesScoreOne(a: Image, b: Image, windows: set<Cell>)
    requires Pair(a, b) && Smallest(a, b, None)
    ensures FullMean(a, b, windows) == 1.0
  {
    SmallestMeans(a, b, None);
    FullMeanRange(a, b, windows);
  }
}
