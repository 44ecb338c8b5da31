/** Mode agreement of two labellings of a window, and today's mode as a run-length encoding
    (`_segments`, `agreement`, `today_modes` of `scripts/eval/auto_reframe.py`). */
module Agreement {
  import opened Arithmetic

  const MODES := ["camera", "fill_center", "fit_blur", "split"]

  /** Cuts and one mode per shot. */
  datatype Labels = Labels(cuts: seq<int>, modes: seq<string>)

  /** The cut rules of `check_label`: strictly increasing, after the window's first frame and
      before its end, one mode per shot. */
  ghost predicate Valid(first: int, end: int, l: Labels) {
    && first <= end && |l.modes| == |l.cuts| + 1
    && (forall i, j | 0 <= i < j < |l.cuts| :: l.cuts[i] < l.cuts[j])
    && (forall i | 0 <= i < |l.cuts| :: first < l.cuts[i] < end)
  }

  // --- per frame ----------------------------------------------------------------------------------

  /** The number of cuts at or before frame `sf`. */
  function CutsBefore(cuts: seq<int>, sf: int): (n: nat)
    ensures n <= |cuts|
  {
    if cuts == [] then 0 else CutsBefore(cuts[..|cuts| - 1], sf) + if cuts[|cuts| - 1] <= sf then 1 else 0
  }

  /** The mode shown at frame `sf`: that of the shot the last cut at or before it opened. */
  function ModeAt(l: Labels, sf: int): string
    requires |l.modes| == |l.cuts| + 1
  {
    l.modes[CutsBefore(l.cuts, sf)]
  }

  function Count(f: int -> bool, lo: int, hi: int): int
    decreases hi - lo
  {
    if lo >= hi then 0 else Count(f, lo, hi - 1) + if f(hi - 1) then 1 else 0
  }

  /** The frames of the window on which two labellings agree. */
  function SameFrames(first: int, end: int, a: Labels, b: Labels): int
    requires |a.modes| == |a.cuts| + 1 && |b.modes| == |b.cuts| + 1
  {
    Count(sf => ModeAt(a, sf) == ModeAt(b, sf), first, end)
  }

  lemma {:induction false} CountSplit(f: int -> bool, lo: int, mid: int, hi: int)
    requires lo <= mid <= hi
    ensures Count(f, lo, hi) == Count(f, lo, mid) + Count(f, mid, hi)
    decreases hi - mid
  {
    if mid < hi {
      CountSplit(f, lo, mid, hi - 1);
    }
  }

  lemma {:induction false} CountConstant(f: int -> bool, lo: int, hi: int, value: bool)
    requires lo <= hi && forall sf | lo <= sf < hi :: f(sf) == value
    ensures Count(f, lo, hi) == if value then hi - lo else 0
    decreases hi - lo
  {
    if lo < hi {
      CountConstant(f, lo, hi - 1, value);
    }
  }

  lemma {:induction false} CountCongruent(f: int -> bool, g: int -> bool, lo: int, hi: int)
    requires forall sf | lo <= sf < hi :: f(sf) == g(sf)
    ensures Count(f, lo, hi) == Count(g, lo, hi)
    decreases hi - lo
  {
    if lo < hi {
      CountCongruent(f, g, lo, hi - 1);
    }
  }

  // --- shots --------------------------------------------------------------------------------------

  function Bounds(first: int, end: int, l: Labels): (b: seq<int>)
    ensures |b| == |l.cuts| + 2
  {
    [first] + l.cuts + [end]
  }

  datatype Shot = Shot(from: int, to: int, mode: string)

  /** `_segments`. */
  function Shots(first: int, end: int, l: Labels): (s: seq<Shot>)
    requires |l.modes| == |l.cuts| + 1
  {
    var b := Bounds(first, end, l);
    seq(|l.modes|, i requires 0 <= i < |l.modes| => Shot(b[i], b[i + 1], l.modes[i]))
  }

  lemma {:induction false} CutsBeforeIs(cuts: seq<int>, sf: int, n: nat)
    requires n <= |cuts|
    requires forall i | 0 <= i < n :: cuts[i] <= sf
    requires forall i | n <= i < |cuts| :: sf < cuts[i]
    ensures CutsBefore(cuts, sf) == n
    decreases |cuts|
  {
    if cuts != [] {
      CutsBeforeIs(cuts[..|cuts| - 1], sf, if n == |cuts| then n - 1 else n);
    }
  }

  /** The shots partition the window, and each shows its mode on all its frames. */
  lemma ShotsExpand(first: int, end: int, l: Labels, i: nat)
    requires Valid(first, end, l) && i < |l.modes|
    ensures var s := Shots(first, end, l)[i];
            && first <= s.from <= s.to <= end
            && s.from == (if i == 0 then first else Shots(first, end, l)[i - 1].to)
            && (i == |l.modes| - 1 ==> s.to == end)
            && (first < end ==> s.from < s.to)
            && forall sf | s.from <= sf < s.to :: ModeAt(l, sf) == s.mode
  {
    var b, s := Bounds(first, end, l), Shots(first, end, l)[i];
    assert i > 0 ==> b[i] == l.cuts[i - 1];
    assert i < |l.cuts| ==> b[i + 1] == l.cuts[i];
    forall sf | s.from <= sf < s.to ensures ModeAt(l, sf) == s.mode {
      forall k | 0 <= k < i ensures l.cuts[k] <= sf {
        assert k == i - 1 || l.cuts[k] < l.cuts[i - 1];
      }
      forall k | i <= k < |l.cuts| ensures sf < l.cuts[k] {
        assert k == i || l.cuts[i] < l.cuts[k];
      }
      CutsBeforeIs(l.cuts, sf, i);
    }
  }

  function Overlap(a: Shot, b: Shot): int {
    var to := if a.to < b.to then a.to else b.to;
    var from := if a.from > b.from then a.from else b.from;
    if to > from then to - from else 0
  }

  /** One pair of shots: its overlap is what the pair adds to the frames counted so far. */
  lemma PairAdds(f: int -> bool, a: Shot, b: Shot)
    requires a.from <= a.to && b.from <= b.to
    requires forall sf | a.from <= sf < a.to && b.from <= sf < b.to :: f(sf) == (a.mode == b.mode)
    ensures Count(f, a.from, Clamp(b.to, a.from, a.to))
         == Count(f, a.from, Clamp(b.from, a.from, a.to)) + (if a.mode == b.mode then Overlap(a, b) else 0)
  {
    var lo, hi := Clamp(b.from, a.from, a.to), Clamp(b.to, a.from, a.to);
    CountSplit(f, a.from, lo, hi);
    CountConstant(f, lo, hi, a.mode == b.mode);
  }

  /** The inner loop of `agreement`: one shot against all labelled ones. */
  method ShotAgreement(first: int, end: int, labelled: Labels, shots: seq<Shot>, a: Shot, ghost f: int -> bool)
      returns (same: int)
    requires Valid(first, end, labelled) && shots == Shots(first, end, labelled) && first <= a.from <= a.to <= end
    requires forall sf | a.from <= sf < a.to :: f(sf) == (a.mode == ModeAt(labelled, sf))
    ensures same == Count(f, a.from, a.to)
  {
    same := 0;
    for j := 0 to |shots|
      invariant same == Count(f, a.from, Clamp(if j == 0 then first else shots[j - 1].to, a.from, a.to))
    {
      var b := shots[j];
      ShotsExpand(first, end, labelled, j);
      PairAdds(f, a, b);
      if a.mode == b.mode {
        same := same + Overlap(a, b);
      }
    }
    ShotsExpand(first, end, labelled, |shots| - 1);
  }

  /** `agreement`: the pairwise overlap sum is the per-frame count. */
  method AgreementOf(first: int, end: int, predicted: Labels, labelled: Labels) returns (same: int, frames: int)
    requires Valid(first, end, predicted) && Valid(first, end, labelled)
    ensures same == SameFrames(first, end, predicted, labelled)
    ensures frames == end - first
  {
    ghost var f := sf => ModeAt(predicted, sf) == ModeAt(labelled, sf);
    var shotsA, shotsB := Shots(first, end, predicted), Shots(first, end, labelled);
    same := 0;
    for i := 0 to |shotsA|
      invariant same == Count(f, first, if i == 0 then first else shotsA[i - 1].to)
    {
      var a := shotsA[i];
      ShotsExpand(first, end, predicted, i);
      var more := ShotAgreement(first, end, labelled, shotsB, a, f);
      same := same + more;
      CountSplit(f, first, a.from, a.to);
    }
    ShotsExpand(first, end, predicted, |shotsA| - 1);
    frames := end - first;
  }

  /** Between two cuts, or a cut and an end of the window, one mode is shown. */
  lemma ModeBetweenCuts(first: int, end: int, l: Labels, i: nat, sf: int)
    requires Valid(first, end, l) && i < |l.modes| && first <= sf < end
    requires (i > 0 ==> l.cuts[i - 1] <= sf) && (i < |l.cuts| ==> sf < l.cuts[i])
    ensures ModeAt(l, sf) == l.modes[i]
  {
    forall k | 0 <= k < i ensures l.cuts[k] <= sf {
      assert k == i - 1 || l.cuts[k] < l.cuts[i - 1];
    }
    forall k | i <= k < |l.cuts| ensures sf < l.cuts[k] {
      assert k == i || l.cuts[i] < l.cuts[k];
    }
    CutsBeforeIs(l.cuts, sf, i);
  }

  lemma {:induction false} CountIsSize(f: int -> bool, lo: int, hi: int, s: set<int>)
    requires forall sf :: sf in s <==> lo <= sf < hi && f(sf)
    ensures Count(f, lo, hi) == |s|
    decreases hi - lo
  {
    if lo < hi {
      CountIsSize(f, lo, hi - 1, s - {hi - 1});
    } else {
      assert forall sf :: sf !in s;
      assert s == {};
    }
  }

  /** The overlap sum counts the frames of the window that both show in the same mode. */
  lemma AgreementCounts(first: int, end: int, a: Labels, b: Labels)
    requires |a.modes| == |a.cuts| + 1 && |b.modes| == |b.cuts| + 1
    ensures SameFrames(first, end, a, b) == |set sf | first <= sf < end && ModeAt(a, sf) == ModeAt(b, sf)|
  {
    CountIsSize(sf => ModeAt(a, sf) == ModeAt(b, sf), first, end,
                set sf | first <= sf < end && ModeAt(a, sf) == ModeAt(b, sf));
  }

  // --- laws ---------------------------------------------------------------------------------------

  lemma AgreementLaws(first: int, end: int, a: Labels, b: Labels)
    requires Valid(first, end, a) && Valid(first, end, b)
    ensures SameFrames(first, end, a, b) == SameFrames(first, end, b, a)
    ensures 0 <= SameFrames(first, end, a, b) <= end - first
    ensures SameFrames(first, end, a, b) == end - first
       <==> forall sf | first <= sf < end :: ModeAt(a, sf) == ModeAt(b, sf)
  {
    var f := (sf: int) => ModeAt(a, sf) == ModeAt(b, sf);
    CountCongruent(f, sf => ModeAt(b, sf) == ModeAt(a, sf), first, end);
    CountFull(f, first, end);
    assert forall sf :: f(sf) <==> ModeAt(a, sf) == ModeAt(b, sf);
  }

  lemma {:induction false} CountFull(f: int -> bool, lo: int, hi: int)
    requires lo <= hi
    ensures 0 <= Count(f, lo, hi) <= hi - lo
    ensures Count(f, lo, hi) == hi - lo <==> forall sf | lo <= sf < hi :: f(sf)
    decreases hi - lo
  {
    if lo < hi {
      CountFull(f, lo, hi - 1);
    }
  }

  /** One mode everywhere: what `score_today` writes as `label_frames`. */
  function OneMode(mode: string): Labels { Labels([], [mode]) }

  /** The frames per label mode sum to the window. */
  lemma LabelFramesSum(first: int, end: int, labelled: Labels)
    requires Valid(first, end, labelled) && forall m | m in labelled.modes :: m in MODES
    ensures SameFrames(first, end, OneMode("camera"), labelled)
          + SameFrames(first, end, OneMode("fill_center"), labelled)
          + SameFrames(first, end, OneMode("fit_blur"), labelled)
          + SameFrames(first, end, OneMode("split"), labelled) == end - first
  {
    forall sf | first <= sf < end ensures ModeAt(labelled, sf) in MODES {
      assert ModeAt(labelled, sf) in labelled.modes;
    }
    FourWaySplit(first, end, labelled);
  }

  lemma {:induction false} FourWaySplit(first: int, end: int, labelled: Labels)
    requires |labelled.modes| == |labelled.cuts| + 1 && first <= end
    requires forall sf | first <= sf < end :: ModeAt(labelled, sf) in MODES
    ensures SameFrames(first, end, OneMode("camera"), labelled)
          + SameFrames(first, end, OneMode("fill_center"), labelled)
          + SameFrames(first, end, OneMode("fit_blur"), labelled)
          + SameFrames(first, end, OneMode("split"), labelled) == end - first
    decreases end - first
  {
    if first < end {
      FourWaySplit(first, end - 1, labelled);
      var mode := ModeAt(labelled, end - 1);
      assert mode in MODES;
      SameFramesLast(first, end, OneMode("camera"), labelled);
      SameFramesLast(first, end, OneMode("fill_center"), labelled);
      SameFramesLast(first, end, OneMode("fit_blur"), labelled);
      SameFramesLast(first, end, OneMode("split"), labelled);
    }
  }

  lemma SameFramesLast(first: int, end: int, a: Labels, b: Labels)
    requires |a.modes| == |a.cuts| + 1 && |b.modes| == |b.cuts| + 1 && first < end
    ensures SameFrames(first, end, a, b)
         == SameFrames(first, end - 1, a, b) + if ModeAt(a, end - 1) == ModeAt(b, end - 1) then 1 else 0
  {
  }

  // --- today's mode ---------------------------------------------------------------------------------

  /** A `no_face` span `(s, e)` in ms reaches into local frame `k`. */
  predicate SpanReaches(span: (int, int), k: int, num: int, den: int) {
    k * (1000 * den) < span.1 * num && (k + 1) * (1000 * den) > span.0 * num
  }

  predicate Centred(spans: seq<(int, int)>, k: int, num: int, den: int) {
    exists i | 0 <= i < |spans| :: SpanReaches(spans[i], k, num, den)
  }

  /** Frame `k` overlaps a span, in milliseconds times the rate: it starts before the end of the span and
      ends after its start. */
  ghost predicate InSomeSpan(spans: seq<(int, int)>, k: int, num: int, den: int) {
    exists i :: 0 <= i < |spans| && k * (1000 * den) < spans[i].1 * num && (k + 1) * (1000 * den) > spans[i].0 * num
  }

  /** No cut repeats a mode. */
  ghost predicate Canonical(l: Labels) {
    forall i | 0 < i < |l.modes| :: l.modes[i] != l.modes[i - 1]
  }

  function Name(flag: bool): string { if flag then "fill_center" else "camera" }

  /** `today_modes`: a canonical, valid labelling that shows the per-frame flag at every frame. */
  method TodayModes(spans: seq<(int, int)>, num: int, den: int, first: int, end: int) returns (l: Labels)
    requires first <= end
    ensures Valid(first, end, l) && Canonical(l)
    ensures forall sf | first <= sf < end ::
      ModeAt(l, sf) == if InSomeSpan(spans, sf - first, num, den) then "fill_center" else "camera"
    ensures first == end ==> l == OneMode("camera")
  {
    var centred := seq(end - first, k requires 0 <= k < end - first => Centred(spans, k, num, den));
    l := Encode(centred, first);
    forall sf | first <= sf < end
      ensures ModeAt(l, sf) == Name(Centred(spans, sf - first, num, den))
    {
      assert centred[sf - first] == Centred(spans, sf - first, num, den) == InSomeSpan(spans, sf - first, num, den);
      assert first + (sf - first) == sf;
    }
  }

  /** The labels of the first `k` flags, and of nothing more. */
  ghost predicate Encodes(l: Labels, first: int, k: int, flags: seq<bool>) {
    && 1 <= k <= |flags| && Valid(first, first + k, l) && Canonical(l)
    && (forall sf | first <= sf < first + k :: ModeAt(l, sf) == Name(flags[sf - first]))
    && l.modes[|l.modes| - 1] == Name(flags[k - 1])
  }

  /** The loop of `today_modes`: a cut wherever the flag changes. */
  method Encode(centred: seq<bool>, first: int) returns (l: Labels)
    ensures centred == [] ==> l == OneMode("camera")
    ensures Valid(first, first + |centred|, l) && Canonical(l)
    ensures forall sf | first <= sf < first + |centred| :: ModeAt(l, sf) == Name(centred[sf - first])
  {
    var cuts: seq<int> := [];
    var modes := [if centred != [] && centred[0] then "fill_center" else "camera"];
    if centred == [] {
      return Labels(cuts, modes);
    }
    for k := 1 to |centred|
      invariant Encodes(Labels(cuts, modes), first, k, centred)
    {
      ghost var before := Labels(cuts, modes);
      if centred[k] != centred[k - 1] {
        cuts := cuts + [first + k];
        modes := modes + [if centred[k] then "fill_center" else "camera"];
      }
      EncodesNext(before, Labels(cuts, modes), first, k, centred);
    }
    l := Labels(cuts, modes);
  }

  lemma EncodesNext(l: Labels, l': Labels, first: int, k: int, flags: seq<bool>)
    requires k < |flags| && Encodes(l, first, k, flags)
    requires l' == if flags[k] == flags[k - 1] then l
                   else Labels(l.cuts + [first + k], l.modes + [Name(flags[k])])
    ensures Encodes(l', first, k + 1, flags)
  {
    if l' != l {
      assert l'.cuts[..|l'.cuts| - 1] == l.cuts;
    }
    forall sf | first <= sf < first + k + 1
      ensures ModeAt(l', sf) == Name(flags[sf - first])
    {
      if sf == first + k {
        CutsBeforeIs(l.cuts, sf, |l.cuts|);
      } else {
        assert ModeAt(l, sf) == Name(flags[sf - first]);
      }
    }
  }

  /** A canonical labelling is determined by what it shows: the encoding loses and adds nothing. */
  lemma CanonicalUnique(first: int, end: int, a: Labels, b: Labels)
    requires Valid(first, end, a) && Valid(first, end, b) && Canonical(a) && Canonical(b)
    requires first < end && forall sf | first <= sf < end :: ModeAt(a, sf) == ModeAt(b, sf)
    ensures a == b
  {
    forall c ensures c in a.cuts <==> c in b.cuts {
      CutWhereModeChanges(first, end, a, c);
      CutWhereModeChanges(first, end, b, c);
    }
    SameIncreasing(a.cuts, b.cuts);
    forall i | 0 <= i < |a.modes| ensures a.modes[i] == b.modes[i] {
      ShotsExpand(first, end, a, i);
      ShotsExpand(first, end, b, i);
      assert ModeAt(a, Shots(first, end, a)[i].from) == a.modes[i];
      assert ModeAt(b, Shots(first, end, b)[i].from) == b.modes[i];
    }
  }

  lemma CutWhereModeChanges(first: int, end: int, l: Labels, c: int)
    requires Valid(first, end, l) && Canonical(l)
    ensures c in l.cuts <==> first < c < end && ModeAt(l, c - 1) != ModeAt(l, c)
  {
    if first < c < end {
      var n := CutsBefore(l.cuts, c - 1);
      CutsBeforeFacts(l.cuts, c - 1);
      if i :| 0 <= i < |l.cuts| && l.cuts[i] == c {
        CutsBeforeIs(l.cuts, c - 1, i);
        CutsBeforeIs(l.cuts, c, i + 1);
      } else {
        CutsBeforeIs(l.cuts, c, n);
      }
    }
  }

  lemma {:induction false} CutsBeforeFacts(cuts: seq<int>, sf: int)
    requires forall i, j | 0 <= i < j < |cuts| :: cuts[i] < cuts[j]
    ensures forall i | 0 <= i < CutsBefore(cuts, sf) :: cuts[i] <= sf
    ensures forall i | CutsBefore(cuts, sf) <= i < |cuts| :: sf < cuts[i]
    decreases |cuts|
  {
    if cuts != [] {
      CutsBeforeFacts(cuts[..|cuts| - 1], sf);
      var front := cuts[..|cuts| - 1];
      var n := CutsBefore(front, sf);
      assert n < |front| ==> sf < front[n] && front[n] == cuts[n] && cuts[n] < cuts[|cuts| - 1];
      assert forall i | 0 <= i < |front| :: front[i] == cuts[i];
    }
  }

  lemma HasFirst(s: seq<int>)
    requires s != []
    ensures s[0] in s
  {
  }

  lemma BelowLast(s: seq<int>, c: int)
    requires s != [] && Increasing(s)
    ensures c in s[..|s| - 1] <==> c in s && c < s[|s| - 1]
  {
    var front := s[..|s| - 1];
    if i :| 0 <= i < |front| && front[i] == c {
      assert s[i] == c;
    }
    if i :| 0 <= i < |s| && s[i] == c && c < s[|s| - 1] {
      assert front[i] == c;
    }
  }

  lemma LastAtMost(s: seq<int>, t: seq<int>)
    requires s != [] && t != [] && Increasing(t) && forall c | c in s :: c in t
    ensures s[|s| - 1] <= t[|t| - 1]
  {
    var x := s[|s| - 1];
    assert x in s;
    var j :| 0 <= j < |t| && t[j] == x;
    assert j < |t| - 1 ==> t[j] < t[|t| - 1];
  }

  lemma {:induction false} SameIncreasing(s: seq<int>, t: seq<int>)
    requires Increasing(s) && Increasing(t) && forall c :: c in s <==> c in t
    ensures s == t
    decreases |s|
  {
    if s != [] {
      HasFirst(s);
    }
    if t != [] {
      HasFirst(t);
    }
    if s != [] {
      LastAtMost(s, t);
      LastAtMost(t, s);
      var a, b := s[..|s| - 1], t[..|t| - 1];
      forall c ensures c in a <==> c in b {
        BelowLast(s, c);
        BelowLast(t, c);
      }
      SameIncreasing(a, b);
      assert s == a + [s[|s| - 1]] && t == b + [t[|t| - 1]];
    }
  }
}
