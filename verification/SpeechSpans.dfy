/** Speech spans in samples (`ref_speech_spans` of `scripts/edit_v2/gen_timemap_vectors.py`): which words
    give one, and when every span is nonempty. */
module SpeechSpans {
  import opened Arithmetic
  import opened OutputMap
  import opened Pieces
  import opened Sorting
  import opened Words
  import opened Wrappers

  const SAMPLE_RATE := 48000

  function SpanLe(x: (int, int), y: (int, int)): bool {
    x.0 < y.0 || (x.0 == y.0 && x.1 <= y.1)
  }

  /** The span a word contributes in one segment: none when it is not shown or has no frames. */
  function WordSpan(scope: seq<Piece>, w: (int, int), fps: Fps): seq<(int, int)>
    requires ValidFps(fps)
  {
    var frames := WordFrames(scope, w.0, w.1, fps);
    if frames.Some? && frames.value.1 > frames.value.0
    then [(Smp(frames.value.0, fps, SAMPLE_RATE), Smp(frames.value.1, fps, SAMPLE_RATE))]
    else []
  }

  function SegmentSpans(words: seq<(int, int)>, scope: seq<Piece>, fps: Fps): seq<(int, int)>
    requires ValidFps(fps)
  {
    if words == [] then []
    else SegmentSpans(words[..|words| - 1], scope, fps) + WordSpan(scope, words[|words| - 1], fps)
  }

  function SpansOf(words: seq<(int, int)>, l: seq<Piece>, segs: seq<string>, fps: Fps): seq<(int, int)>
    requires ValidFps(fps)
  {
    if segs == [] then []
    else SpansOf(words, l, segs[..|segs| - 1], fps) + SegmentSpans(words, Scope(l, segs[|segs| - 1]), fps)
  }

  /** The segment names of `l`, each once, by first appearance. */
  function SegmentNames(l: seq<Piece>): seq<string> {
    if l == [] then []
    else
      var names := SegmentNames(l[..|l| - 1]);
      if l[|l| - 1].seg in names then names else names + [l[|l| - 1].seg]
  }

  lemma SmpStep(m: int, n: int, fps: Fps, rate: int)
    requires ValidFps(fps) && fps.num <= rate * fps.den && m < n
    ensures Smp(m, fps, rate) < Smp(n, fps, rate)
  {
    var k := rate * fps.den;
    MulOrder(m + 1, n, k);
    assert m * rate * fps.den == m * k && n * rate * fps.den == n * k;
    NextQuotient(m * k, n * k, fps.num);
  }

  lemma NextQuotient(x: int, y: int, d: int)
    requires d > 0 && x + d <= y
    ensures x / d < y / d
  {
    DivOrder(x + d, y, d);
    assert (x + d) / d == x / d + 1 by {
      FloorBetween(x + d, d, x / d + 1);
      FloorBetween(x + d, d, x / d + 2);
      assert (x / d + 1) * d == (x / d) * d + d;
      assert (x / d + 2) * d == (x / d) * d + 2 * d;
    }
  }

  /** Distinct frames have distinct first samples exactly when a frame lasts a sample or more. */
  lemma FramesAreAudible(fps: Fps, rate: int)
    requires ValidFps(fps) && rate > 0
    ensures (forall m: int, n: int | m < n :: Smp(m, fps, rate) < Smp(n, fps, rate))
        <==> fps.num <= rate * fps.den
  {
    if fps.num <= rate * fps.den {
      forall m: int, n: int | m < n ensures Smp(m, fps, rate) < Smp(n, fps, rate) {
        SmpStep(m, n, fps, rate);
      }
    } else {
      FirstSamples(fps, rate);
    }
  }

  lemma FirstSamples(fps: Fps, rate: int)
    requires ValidFps(fps) && rate > 0 && fps.num > rate * fps.den
    ensures Smp(0, fps, rate) == Smp(1, fps, rate) == 0
  {
    var k := rate * fps.den;
    assert k > 0 && 1 * rate * fps.den == k && 0 * rate * fps.den == 0;
    FloorBetween(k, fps.num, 0);
    FloorBetween(k, fps.num, 1);
    FloorBetween(0, fps.num, 0);
    FloorBetween(0, fps.num, 1);
  }

  /** Every emitted span is nonempty and inside the clip. */
  ghost predicate GoodSpan(x: (int, int), end: int) { 0 <= x.0 < x.1 <= end }

  lemma {:induction false} ScopeInside(l: seq<Piece>, seg: string, k: nat)
    requires TilesFrom(l, 0, 0) && k < |Scope(l, seg)|
    ensures Scope(l, seg)[k].outF0 + Scope(l, seg)[k].frames <= Total(l)
  {
    ScopeMembers(l, seg);
    assert Scope(l, seg)[k] in Scope(l, seg);
    var j :| 0 <= j < |l| && l[j] == Scope(l, seg)[k];
    TilesEnd(l, j);
  }

  // --- how many frames a span has -----------------------------------------------------------------------

  lemma RoundShift(x: int, k: int, d: int)
    requires d > 0
    ensures RoundHalfUp(x + k * d, d) == RoundHalfUp(x, d) + k
  {
    assert 2 * (x + k * d) + d == (2 * x + d) + k * (2 * d);
    ShiftQuotient(2 * x + d, k, 2 * d);
  }

  /** Where a frame lasts less than a sample, a word lasts many frames: what is shown of it is two or
      more, or nothing. */
  lemma ShownFramesAreTwo(p: Piece, s: int, e: int, fps: Fps)
    requires ValidFps(fps) && fps.num > 48000 * fps.den && HoldsMid(p, s, e, fps)
    requires p.frames == p.outSf - p.inSf && p.frames >= 2
    ensures FramesIn(p, s, e, fps).1 > FramesIn(p, s, e, fps).0 ==>
      FramesIn(p, s, e, fps).1 >= FramesIn(p, s, e, fps).0 + 2
  {
    var d := Scale(fps);
    var x, y := s * fps.num - p.inSf * d, e * fps.num - p.inSf * d;
    if e <= s {
      MulOrder(e, s, fps.num);
      RoundMonotone(y, x, d);
    } else {
      MulOrder(1, e - s, fps.num);
      assert y - x == (e - s) * fps.num;
      assert x + y == (s + e) * fps.num - 2 * p.inSf * d;
      assert 2 * p.outSf * d - 2 * p.inSf * d == 2 * (p.frames * d);
      RoundedApart(x, y, p.frames, d);
    }
  }

  /** Two edges that lie two steps apart, around a point between 0 and `n` steps. */
  lemma RoundedApart(x: int, y: int, n: int, d: int)
    requires d > 0 && n >= 2 && y - x >= 4 * d && 0 <= x + y < 2 * (n * d)
    ensures RoundHalfUp(x, d) <= n - 2 && RoundHalfUp(y, d) >= 2 && RoundHalfUp(y, d) >= RoundHalfUp(x, d) + 2
  {
    RoundsAbove(y, 2, d);
    assert (n - 2) * d == n * d - 2 * d;
    RoundsBelow(x, n - 2, d);
    RoundShift(x, 2, d);
    RoundMonotone(x + 2 * d, y, d);
  }

  lemma RoundWhole(k: int, d: int)
    requires d > 0
    ensures RoundHalfUp(k * d, d) == k
  {
    assert RoundHalfUp(0, d) == 0 by {
      FloorBetween(d, 2 * d, 0);
      FloorBetween(d, 2 * d, 1);
    }
    RoundShift(0, k, d);
  }

  lemma RoundsAbove(y: int, k: int, d: int)
    requires d > 0 && k * d <= y
    ensures RoundHalfUp(y, d) >= k
  {
    RoundWhole(k, d);
    RoundMonotone(k * d, y, d);
  }

  lemma RoundsBelow(x: int, k: int, d: int)
    requires d > 0 && x <= k * d
    ensures RoundHalfUp(x, d) <= k
  {
    RoundWhole(k, d);
    RoundMonotone(x, k * d, d);
  }

  /** A word that is shown at all has samples, up to two frames a sample. */
  lemma ShownSamples(l: seq<Piece>, seg: string, k: nat, s: int, e: int, fps: Fps)
    requires ValidFps(fps) && fps.num <= 2 * SAMPLE_RATE * fps.den && TilesFrom(l, 0, 0)
    requires k < |Scope(l, seg)| && HoldsMid(Scope(l, seg)[k], s, e, fps)
    ensures var f := FramesIn(Scope(l, seg)[k], s, e, fps);
            f.1 > f.0 ==> Smp(f.0, fps, SAMPLE_RATE) < Smp(f.1, fps, SAMPLE_RATE)
  {
    var p := Scope(l, seg)[k];
    var f := FramesIn(p, s, e, fps);
    if f.1 > f.0 {
      if fps.num <= SAMPLE_RATE * fps.den {
        SmpStep(f.0, f.1, fps, SAMPLE_RATE);
      } else {
        ScopePieceFits(l, seg, k);
        ShownFramesAreTwo(p, s, e, fps);
        TwoFramesStep(f.0, f.1, fps);
      }
    }
  }

  lemma TwoFramesStep(m: int, n: int, fps: Fps)
    requires ValidFps(fps) && fps.num <= 2 * SAMPLE_RATE * fps.den && m + 2 <= n
    ensures Smp(m, fps, SAMPLE_RATE) < Smp(n, fps, SAMPLE_RATE)
  {
    var k := SAMPLE_RATE * fps.den;
    MulOrder(m + 2, n, k);
    assert m * SAMPLE_RATE * fps.den == m * k && n * SAMPLE_RATE * fps.den == n * k;
    NextQuotient(m * k, n * k, fps.num);
  }

  lemma ScopePieceFits(l: seq<Piece>, seg: string, k: nat)
    requires TilesFrom(l, 0, 0) && k < |Scope(l, seg)|
    ensures Scope(l, seg)[k].frames == Scope(l, seg)[k].outSf - Scope(l, seg)[k].inSf >= 2
  {
    ScopeMembers(l, seg);
    assert Scope(l, seg)[k] in Scope(l, seg);
    var j :| 0 <= j < |l| && l[j] == Scope(l, seg)[k];
    TilesAt(l, 0, 0, j);
  }

  lemma WordSpanGood(l: seq<Piece>, seg: string, w: (int, int), fps: Fps)
    requires ValidFps(fps) && fps.num <= 2 * SAMPLE_RATE * fps.den && TilesFrom(l, 0, 0)
    ensures forall x | x in WordSpan(Scope(l, seg), w, fps) :: GoodSpan(x, Smp(Total(l), fps, SAMPLE_RATE))
  {
    var scope := Scope(l, seg);
    var frames := WordFrames(scope, w.0, w.1, fps);
    if frames.Some? && frames.value.1 > frames.value.0 {
      var k := WordFramesAt(scope, w.0, w.1, fps);
      ScopeInside(l, seg, k);
      SmpMonotone(0, frames.value.0, fps, SAMPLE_RATE);
      SmpMonotone(frames.value.1, Total(l), fps, SAMPLE_RATE);
      ShownSamples(l, seg, k, w.0, w.1, fps);
      FloorBetween(0, fps.num, 0);
    }
  }

  lemma {:induction false} SegmentSpansGood(words: seq<(int, int)>, l: seq<Piece>, seg: string, fps: Fps)
    requires ValidFps(fps) && fps.num <= 2 * SAMPLE_RATE * fps.den && TilesFrom(l, 0, 0)
    ensures forall x | x in SegmentSpans(words, Scope(l, seg), fps) ::
              GoodSpan(x, Smp(Total(l), fps, SAMPLE_RATE))
    decreases |words|
  {
    if words != [] {
      SegmentSpansGood(words[..|words| - 1], l, seg, fps);
      WordSpanGood(l, seg, words[|words| - 1], fps);
    }
  }

  lemma {:induction false} SpansGood(words: seq<(int, int)>, l: seq<Piece>, segs: seq<string>, fps: Fps)
    requires ValidFps(fps) && fps.num <= 2 * SAMPLE_RATE * fps.den && TilesFrom(l, 0, 0)
    ensures forall x | x in SpansOf(words, l, segs, fps) :: GoodSpan(x, Smp(Total(l), fps, SAMPLE_RATE))
    decreases |segs|
  {
    if segs != [] {
      SpansGood(words, l, segs[..|segs| - 1], fps);
      SegmentSpansGood(words, l, segs[|segs| - 1], fps);
    }
  }

  /** The segments that the pieces show, each once, in the order of their first piece. */
  method Names(l: seq<Piece>) returns (segs: seq<string>)
    ensures segs == SegmentNames(l)
  {
    segs := [];
    for k := 0 to |l|
      invariant segs == SegmentNames(l[..k])
    {
      assert l[..k + 1][..k] == l[..k];
      if l[k].seg !in segs {
        segs := segs + [l[k].seg];
      }
    }
    assert l[..|l|] == l;
  }

  /** The spans of the words shown by one segment. */
  method AppendSpans(words: seq<(int, int)>, scope: seq<Piece>, fps: Fps, before: seq<(int, int)>)
      returns (spans: seq<(int, int)>)
    requires ValidFps(fps)
    ensures spans == before + SegmentSpans(words, scope, fps)
  {
    spans := before;
    for w := 0 to |words|
      invariant spans == before + SegmentSpans(words[..w], scope, fps)
    {
      assert words[..w + 1][..w] == words[..w];
      var frames := WordFrames(scope, words[w].0, words[w].1, fps);
      if frames.Some? && frames.value.1 > frames.value.0 {
        spans := spans + [(Smp(frames.value.0, fps, SAMPLE_RATE), Smp(frames.value.1, fps, SAMPLE_RATE))];
      }
    }
    assert words[..|words|] == words;
  }

  /** `ref_speech_spans`. */
  method SpeechSpans(words: seq<(int, int)>, l: seq<Piece>, fps: Fps) returns (result: seq<(int, int)>)
    requires ValidFps(fps)
    ensures result == Sort(SpanLe, SpansOf(words, l, SegmentNames(l), fps))
    ensures forall i, j | 0 <= i < j < |result| ::
      result[i].0 < result[j].0 || (result[i].0 == result[j].0 && result[i].1 <= result[j].1)
    ensures forall x :: x in result <==> IsSpan(words, l, x, fps)
    ensures fps.num <= 96000 * fps.den && TilesFrom(l, 0, 0) ==>
              forall x | x in result :: GoodSpan(x, Smp(Total(l), fps, SAMPLE_RATE))
  {
    var segs := Names(l);
    var spans: seq<(int, int)> := [];
    for g := 0 to |segs|
      invariant spans == SpansOf(words, l, segs[..g], fps)
    {
      spans := AppendSpans(words, Scope(l, segs[g]), fps, spans);
      assert segs[..g + 1][..g] == segs[..g];
    }
    assert segs[..|segs|] == segs;
    result := Sort(SpanLe, spans);
    SortSorted(SpanLe, spans);
    SortedSpans(words, l, fps, spans, result);
    if fps.num <= 96000 * fps.den && TilesFrom(l, 0, 0) {
      SortedGood(words, l, fps, spans, result);
    }
  }

  /** The sorted spans are the spans. */
  lemma SortedSpans(words: seq<(int, int)>, l: seq<Piece>, fps: Fps, spans: seq<(int, int)>, result: seq<(int, int)>)
    requires ValidFps(fps) && spans == SpansOf(words, l, SegmentNames(l), fps) && result == Sort(SpanLe, spans)
    ensures forall x :: x in result <==> IsSpan(words, l, x, fps)
  {
    SortMembers(SpanLe, spans);
    SpansMean(words, l, SegmentNames(l), fps);
    forall x ensures x in result <==> IsSpan(words, l, x, fps) {
      assert x in result <==> x in spans;
    }
  }

  lemma SortedGood(words: seq<(int, int)>, l: seq<Piece>, fps: Fps, spans: seq<(int, int)>, result: seq<(int, int)>)
    requires ValidFps(fps) && fps.num <= 96000 * fps.den && TilesFrom(l, 0, 0)
    requires spans == SpansOf(words, l, SegmentNames(l), fps) && result == Sort(SpanLe, spans)
    ensures forall x | x in result :: GoodSpan(x, Smp(Total(l), fps, SAMPLE_RATE))
  {
    SortMembers(SpanLe, spans);
    SpansGood(words, l, SegmentNames(l), fps);
    forall x | x in result ensures GoodSpan(x, Smp(Total(l), fps, SAMPLE_RATE)) {
      assert x in spans;
    }
  }

  // --- which spans there are ------------------------------------------------------------------------------

  /** `a` is the last sample that starts no later than frame `n`, at 48,000 samples per second. */
  ghost predicate StartsAt(a: int, n: int, fps: Fps) {
    0 <= n * 48000 * fps.den - a * fps.num < fps.num
  }

  /** Word `w`, as segment `seg` shows it, takes the samples of `x`. */
  ghost predicate Contributes(l: seq<Piece>, seg: string, w: (int, int), x: (int, int), fps: Fps)
    requires ValidFps(fps)
  {
    exists f :: WordFrames(Scope(l, seg), w.0, w.1, fps) == Some(f) && f.0 < f.1
      && StartsAt(x.0, f.0, fps) && StartsAt(x.1, f.1, fps)
  }

  ghost predicate IsSpan(words: seq<(int, int)>, l: seq<Piece>, x: (int, int), fps: Fps)
    requires ValidFps(fps)
  {
    exists w, seg :: w in words && Contributes(l, seg, w, x, fps)
  }

  lemma SmpStarts(a: int, n: int, fps: Fps)
    requires ValidFps(fps)
    ensures StartsAt(a, n, fps) <==> a == Smp(n, fps, SAMPLE_RATE)
  {
    BoundaryError(n, fps, SAMPLE_RATE);
    if StartsAt(a, n, fps) {
      QuotientUnique(n * SAMPLE_RATE * fps.den, fps.num, a, n * SAMPLE_RATE * fps.den - a * fps.num);
    }
  }

  lemma WordSpanMeans(l: seq<Piece>, seg: string, w: (int, int), x: (int, int), fps: Fps)
    requires ValidFps(fps)
    ensures x in WordSpan(Scope(l, seg), w, fps) <==> Contributes(l, seg, w, x, fps)
  {
    var frames := WordFrames(Scope(l, seg), w.0, w.1, fps);
    if frames.Some? {
      SmpStarts(x.0, frames.value.0, fps);
      SmpStarts(x.1, frames.value.1, fps);
    }
  }

  lemma {:induction false} SegmentSpansMean(words: seq<(int, int)>, l: seq<Piece>, seg: string, x: (int, int), fps: Fps)
    requires ValidFps(fps)
    ensures x in SegmentSpans(words, Scope(l, seg), fps) <==> exists w :: w in words && Contributes(l, seg, w, x, fps)
    decreases |words|
  {
    if words != [] {
      var front, last := words[..|words| - 1], words[|words| - 1];
      assert words == front + [last];
      SegmentSpansMean(front, l, seg, x, fps);
      WordSpanMeans(l, seg, last, x, fps);
    }
  }

  lemma {:induction false} SpansOfMean(words: seq<(int, int)>, l: seq<Piece>, segs: seq<string>, x: (int, int),
                                       fps: Fps)
    requires ValidFps(fps)
    ensures x in SpansOf(words, l, segs, fps)
       <==> exists w, seg :: w in words && seg in segs && Contributes(l, seg, w, x, fps)
    decreases |segs|
  {
    if segs != [] {
      var front, last := segs[..|segs| - 1], segs[|segs| - 1];
      assert segs == front + [last];
      SpansOfMean(words, l, front, x, fps);
      SegmentSpansMean(words, l, last, x, fps);
    }
  }

  /** A segment without pieces shows no word. */
  lemma {:induction false} UnnamedShowsNothing(l: seq<Piece>, seg: string)
    ensures Scope(l, seg) != [] ==> seg in SegmentNames(l)
    decreases |l|
  {
    if Scope(l, seg) != [] {
      ScopeMembers(l, seg);
      var p := Scope(l, seg)[0];
      assert p in Scope(l, seg);
      NamesHold(l, p);
    }
  }

  lemma {:induction false} NamesHold(l: seq<Piece>, p: Piece)
    requires p in l
    ensures p.seg in SegmentNames(l)
    decreases |l|
  {
    var front, last := l[..|l| - 1], l[|l| - 1];
    assert l == front + [last];
    if p in front {
      NamesHold(front, p);
    }
  }

  /** The spans are those of the words that some segment shows, with a frame or more. */
  lemma SpansMean(words: seq<(int, int)>, l: seq<Piece>, segs: seq<string>, fps: Fps)
    requires ValidFps(fps) && segs == SegmentNames(l)
    ensures forall x :: x in SpansOf(words, l, segs, fps) <==> IsSpan(words, l, x, fps)
  {
    forall x ensures x in SpansOf(words, l, segs, fps) <==> IsSpan(words, l, x, fps) {
      SpansOfMean(words, l, segs, x, fps);
      if w, seg :| w in words && Contributes(l, seg, w, x, fps) {
        UnnamedShowsNothing(l, seg);
      }
    }
  }

  // --- the exact bound ------------------------------------------------------------------------------------

  ghost predicate AllGood(words: seq<(int, int)>, l: seq<Piece>, fps: Fps)
    requires ValidFps(fps)
  {
    forall x | x in SpansOf(words, l, SegmentNames(l), fps) :: GoodSpan(x, Smp(Total(l), fps, SAMPLE_RATE))
  }

  /** At more than two frames a sample, a word of one millisecond over a piece of two frames gives an
      empty span. */
  lemma FastFramesEmitEmptySpans(fps: Fps) returns (words: seq<(int, int)>, l: seq<Piece>)
    requires ValidFps(fps) && fps.num > 2 * SAMPLE_RATE * fps.den
    ensures TilesFrom(l, 0, 0) && (0, 0) in SpansOf(words, l, SegmentNames(l), fps)
  {
    var d := Scale(fps);
    var m := fps.num / (2 * d);
    var p := Piece(0, "seg_b1", "body", m, m + 2, 0, 2);
    words, l := [(0, 1)], [p];
    assert fps.num == m * (2 * d) + fps.num % (2 * d);
    FloorBetween(fps.num, 2 * d, 48);
    ShortWordFrames(p, m, fps);
    FloorBetween(2 * SAMPLE_RATE * fps.den, fps.num, 0);
    FloorBetween(2 * SAMPLE_RATE * fps.den, fps.num, 1);
    FloorBetween(0, fps.num, 0);
    FloorBetween(0, fps.num, 1);
    assert l[..0] == [] && words[..0] == [];
    assert SegmentNames(l) == ["seg_b1"] && ["seg_b1"][..0] == [];
    assert Scope(l, "seg_b1") == [p] by {
      assert Scope([], "seg_b1") == [];
    }
    assert WordFrames([p], 0, 1, fps) == Some((0, 2));
    assert WordSpan([p], (0, 1), fps) == [(0, 0)];
    assert SegmentSpans(words, [p], fps) == [(0, 0)];
  }

  lemma ShortWordFrames(p: Piece, m: int, fps: Fps)
    requires ValidFps(fps) && m >= 2 && p == Piece(0, "seg_b1", "body", m, m + 2, 0, 2)
    requires m * (2 * Scale(fps)) <= fps.num < (m + 1) * (2 * Scale(fps))
    ensures HoldsMid(p, 0, 1, fps) && FramesIn(p, 0, 1, fps) == (0, 2)
  {
    var d := Scale(fps);
    assert 2 * m * d == m * (2 * d) && 2 * (m + 2) * d == m * (2 * d) + 4 * d;
    assert (m + 1) * (2 * d) == m * (2 * d) + 2 * d;
    ShortWordEdges(m, fps.num, d);
    assert 0 * fps.num - m * d == -(m * d);
  }

  lemma ShortWordEdges(m: int, n: int, d: int)
    requires d > 0 && m >= 2 && m * (2 * d) <= n
    ensures RoundHalfUp(-(m * d), d) == -m && RoundHalfUp(n - m * d, d) >= 2
  {
    assert RoundHalfUp(0, d) == 0 by {
      FloorBetween(d, 2 * d, 0);
      FloorBetween(d, 2 * d, 1);
    }
    assert 0 + (-m) * d == -(m * d);
    RoundShift(0, -m, d);
    RoundShift(0, 2, d);
    MulOrder(2, m, d);
    assert m * (2 * d) == m * d + m * d;
    RoundMonotone(2 * d, n - m * d, d);
  }

  /** Every span that is emitted, for any words and pieces, is nonempty and inside the clip, if and only
      if a sample lasts two frames at most. */
  lemma SpansExactlyGood(fps: Fps)
    requires ValidFps(fps)
    ensures (forall words, l | TilesFrom(l, 0, 0) :: AllGood(words, l, fps)) <==> fps.num <= 96000 * fps.den
  {
    if fps.num <= 2 * SAMPLE_RATE * fps.den {
      forall words, l | TilesFrom(l, 0, 0) ensures AllGood(words, l, fps) {
        SpansGood(words, l, SegmentNames(l), fps);
      }
    } else {
      var words, l := FastFramesEmitEmptySpans(fps);
      assert !AllGood(words, l, fps) by {
        assert !GoodSpan((0, 0), Smp(Total(l), fps, SAMPLE_RATE));
      }
    }
  }
}
