/** Word timing on the output grid: the reference (`ref_word_frames`, `ref_speech_spans`), the
    production lookup through source-ordered runs, and what both keep. */
module Words {
  import opened Arithmetic
  import opened OutputMap
  import opened Pieces
  import opened Wrappers

  /** `floor(numerator / denominator + 1/2)`. */
  function RoundHalfUp(numerator: int, denominator: int): int
    requires denominator > 0
  {
    (2 * numerator + denominator) / (2 * denominator)
  }

  lemma RoundMonotone(x: int, y: int, d: int)
    requires d > 0 && x <= y
    ensures RoundHalfUp(x, d) <= RoundHalfUp(y, d)
  {
    DivOrder(2 * x + d, 2 * y + d, 2 * d);
  }

  function Scale(fps: Fps): int { 1000 * fps.den }

  /** The word's midpoint `(s + e) / 2` ms lies in the piece's source span (both sides of the
      comparison of fractions multiplied out). */
  predicate HoldsMid(p: Piece, s: int, e: int, fps: Fps) {
    2 * p.inSf * Scale(fps) <= (s + e) * fps.num < 2 * p.outSf * Scale(fps)
  }

  function Onset(p: Piece, ms: int, fps: Fps): int
    requires ValidFps(fps)
  {
    p.outF0 + RoundHalfUp(ms * fps.num - p.inSf * Scale(fps), Scale(fps))
  }

  /** The frames `[on, off)` of a word shown in `p`. */
  function FramesIn(p: Piece, s: int, e: int, fps: Fps): (r: (int, int))
    requires ValidFps(fps)
    ensures p.outF0 <= r.0 <= r.1 <= p.outF0 + p.frames
  {
    var last := p.outF0 + p.frames;
    var on := Clamp(Onset(p, s, fps), p.outF0, last);
    var off := Clamp(Onset(p, e, fps), p.outF0, last);
    (on, if off > on then off else on)
  }

  /** `ref_word_frames`: the first piece that holds the midpoint, if any. */
  function WordFrames(l: seq<Piece>, s: int, e: int, fps: Fps): Option<(int, int)>
    requires ValidFps(fps)
  {
    if l == [] then None
    else if HoldsMid(l[0], s, e, fps) then Some(FramesIn(l[0], s, e, fps))
    else WordFrames(l[1..], s, e, fps)
  }

  lemma {:induction false} WordFramesAt(l: seq<Piece>, s: int, e: int, fps: Fps) returns (k: nat)
    requires ValidFps(fps) && WordFrames(l, s, e, fps).Some?
    ensures k < |l| && HoldsMid(l[k], s, e, fps) && WordFrames(l, s, e, fps).value == FramesIn(l[k], s, e, fps)
    ensures forall j | 0 <= j < k :: !HoldsMid(l[j], s, e, fps)
  {
    if HoldsMid(l[0], s, e, fps) {
      k := 0;
    } else {
      k := WordFramesAt(l[1..], s, e, fps);
      k := k + 1;
    }
  }

  // --- one segment --------------------------------------------------------------------------------

  /** The pieces of one segment, in order. */
  function Scope(l: seq<Piece>, seg: string): seq<Piece> {
    if l == [] then []
    else (if l[0].seg == seg then [l[0]] else []) + Scope(l[1..], seg)
  }

  /** Source order and output order agree, without overlap in either. */
  ghost predicate Follows(p: Piece, q: Piece) {
    p.outSf <= q.inSf && p.outF0 + p.frames <= q.outF0
  }

  ghost predicate ScopeOrdered(l: seq<Piece>) {
    forall j, k | 0 <= j < k < |l| :: Follows(l[j], l[k])
  }

  lemma {:induction false} ScopeMembers(l: seq<Piece>, seg: string)
    ensures forall p :: p in Scope(l, seg) <==> p in l && p.seg == seg
  {
    if l != [] {
      ScopeMembers(l[1..], seg);
      assert l == [l[0]] + l[1..];
    }
  }

  lemma {:induction false} ScopeIsOrdered(l: seq<Piece>, seg: string)
    requires forall j, k | 0 <= j < k < |l| && l[j].seg == seg && l[k].seg == seg :: Follows(l[j], l[k])
    ensures ScopeOrdered(Scope(l, seg))
  {
    if l != [] {
      var rest := Scope(l[1..], seg);
      ScopeIsOrdered(l[1..], seg);
      ScopeMembers(l[1..], seg);
      if l[0].seg == seg {
        forall k | 0 <= k < |rest| ensures Follows(l[0], rest[k]) {
          assert rest[k] in l[1..];
          var j :| 0 <= j < |l[1..]| && l[1..][j] == rest[k];
          assert l[j + 1] == rest[k];
        }
      }
    }
  }

  lemma SameSegment(segments: seq<Segment>, i: nat, j: nat)
    requires DistinctIds(segments) && i < |segments| && j < |segments| && segments[i].id == segments[j].id
    ensures i == j
  {
  }

  lemma SegmentScopeOrdered(segments: seq<Segment>, removals: seq<Removal>, seg: string)
    requires DistinctIds(segments)
    ensures ScopeOrdered(Scope(PiecesOf(segments, removals), seg))
  {
    var l, owner := PiecesOf(segments, removals), Owners(segments, removals);
    PiecesAreTheMaximalRuns(segments, removals);
    forall j, k | 0 <= j < k < |l| && l[j].seg == seg && l[k].seg == seg
      ensures Follows(l[j], l[k])
    {
      TilesOrdered(l, j, k);
      assert IsPieceOf(l[j], segments[owner[j]], removals) && IsPieceOf(l[k], segments[owner[k]], removals);
      SameSegment(segments, owner[j], owner[k]);
    }
    ScopeIsOrdered(l, seg);
  }

  /** At most one piece of a segment holds a midpoint, and an earlier midpoint is never held by a
      later piece. */
  lemma MidpointOrder(l: seq<Piece>, j: nat, k: nat, s: int, e: int, s': int, e': int, fps: Fps)
    requires ValidFps(fps) && ScopeOrdered(l) && j < |l| && k < |l|
    requires HoldsMid(l[j], s, e, fps) && HoldsMid(l[k], s', e', fps)
    requires s + e <= s' + e'
    ensures j <= k
  {
    if k < j {
      assert Follows(l[k], l[j]);
      MulOrder(l[k].outSf, l[j].inSf, 2 * Scale(fps));
      MulOrder(s + e, s' + e', fps.num);
    }
  }

  /** Word order is kept: within one segment a word that starts and ends no later is shown no
      later, on and off, even when a cut lies between the two. */
  lemma WordOrderKept(l: seq<Piece>, s: int, e: int, s': int, e': int, fps: Fps)
    requires ValidFps(fps) && ScopeOrdered(l)
    requires s <= s' && e <= e'
    requires WordFrames(l, s, e, fps).Some? && WordFrames(l, s', e', fps).Some?
    ensures WordFrames(l, s, e, fps).value.0 <= WordFrames(l, s', e', fps).value.0
    ensures WordFrames(l, s, e, fps).value.1 <= WordFrames(l, s', e', fps).value.1
  {
    var j := WordFramesAt(l, s, e, fps);
    var k := WordFramesAt(l, s', e', fps);
    MidpointOrder(l, j, k, s, e, s', e', fps);
    if j < k {
      assert Follows(l[j], l[k]);
    } else {
      OnsetMonotone(l[j], s, s', fps);
      OnsetMonotone(l[j], e, e', fps);
    }
  }

  lemma OnsetMonotone(p: Piece, ms: int, ms': int, fps: Fps)
    requires ValidFps(fps) && ms <= ms'
    ensures Onset(p, ms, fps) <= Onset(p, ms', fps)
  {
    MulOrder(ms, ms', fps.num);
    RoundMonotone(ms * fps.num - p.inSf * Scale(fps), ms' * fps.num - p.inSf * Scale(fps), Scale(fps));
  }

  /** The unclamped onset is the frame boundary nearest to the word's time (ties go up): the source
      frame it names is at most half a frame from `ms`. */
  lemma OnsetNearest(p: Piece, ms: int, fps: Fps)
    requires ValidFps(fps)
    ensures var sf := Onset(p, ms, fps) - p.outF0 + p.inSf;
            2 * ms * fps.num - Scale(fps) < 2 * sf * Scale(fps) <= 2 * ms * fps.num + Scale(fps)
  {
    var d := Scale(fps);
    var x := ms * fps.num - p.inSf * d;
    var q := RoundHalfUp(x, d);
    FloorBetween(2 * x + d, 2 * d, q);
    FloorBetween(2 * x + d, 2 * d, q + 1);
    assert q * (2 * d) <= 2 * x + d < (q + 1) * (2 * d);
    assert (q + 1) * (2 * d) == q * (2 * d) + 2 * d;
    assert 2 * (q + p.inSf) * d == q * (2 * d) + 2 * (p.inSf * d);
  }

  // --- in milliseconds ----------------------------------------------------------------------------------

  /** Frame `f` of the piece is the one whose source time is nearest to `ms`, ties up, or the end of the piece
      that is nearer to it. */
  ghost predicate NearestIn(p: Piece, f: int, ms: int, fps: Fps) {
    var sf, d := f - p.outF0 + p.inSf, 1000 * fps.den;
    && p.outF0 <= f <= p.outF0 + p.frames
    && (f > p.outF0 ==> 2 * sf * d <= 2 * ms * fps.num + d)
    && (f < p.outF0 + p.frames ==> 2 * ms * fps.num - d < 2 * sf * d)
  }

  /** The source span of the piece holds the midpoint of the word. */
  ghost predicate Holds(p: Piece, s: int, e: int, fps: Fps) {
    2 * p.inSf * (1000 * fps.den) <= (s + e) * fps.num < 2 * p.outSf * (1000 * fps.den)
  }

  /** The word is not shown, or from its start to its end in the first piece that holds its midpoint. */
  ghost predicate TimedIn(l: seq<Piece>, s: int, e: int, fps: Fps, frames: Option<(int, int)>) {
    && (frames.None? <==> forall k | 0 <= k < |l| :: !Holds(l[k], s, e, fps))
    && (frames.Some? ==> exists k :: 0 <= k < |l| && ShownBy(l, k, s, e, fps, frames.value))
  }

  ghost predicate ShownBy(l: seq<Piece>, k: nat, s: int, e: int, fps: Fps, frames: (int, int))
    requires k < |l|
  {
    && Holds(l[k], s, e, fps) && (forall j | 0 <= j < k :: !Holds(l[j], s, e, fps))
    && NearestIn(l[k], frames.0, s, fps)
    && (if s <= e then NearestIn(l[k], frames.1, e, fps) else frames.1 >= frames.0)
  }

  lemma ClampedNearest(p: Piece, ms: int, fps: Fps)
    requires ValidFps(fps) && p.frames >= 0
    ensures NearestIn(p, Clamp(Onset(p, ms, fps), p.outF0, p.outF0 + p.frames), ms, fps)
  {
    OnsetNearest(p, ms, fps);
    var q, d := Onset(p, ms, fps) - p.outF0 + p.inSf, 1000 * fps.den;
    var f := Clamp(Onset(p, ms, fps), p.outF0, p.outF0 + p.frames) - p.outF0 + p.inSf;
    if f <= q {
      MulOrder(f, q, d);
    } else {
      MulOrder(q, f, d);
    }
    assert 2 * q * d == 2 * (q * d) && 2 * f * d == 2 * (f * d);
  }

  lemma FramesNearest(p: Piece, s: int, e: int, fps: Fps)
    requires ValidFps(fps)
    ensures NearestIn(p, FramesIn(p, s, e, fps).0, s, fps)
    ensures s <= e ==> NearestIn(p, FramesIn(p, s, e, fps).1, e, fps)
  {
    ClampedNearest(p, s, fps);
    ClampedNearest(p, e, fps);
    if s <= e {
      OnsetMonotone(p, s, e, fps);
    }
  }

  /** The reference times every word so. */
  lemma {:induction false} WordFramesTimed(l: seq<Piece>, s: int, e: int, fps: Fps)
    requires ValidFps(fps)
    ensures TimedIn(l, s, e, fps, WordFrames(l, s, e, fps))
  {
    forall k | 0 <= k < |l| ensures HoldsMid(l[k], s, e, fps) <==> Holds(l[k], s, e, fps) {
    }
    if WordFrames(l, s, e, fps).Some? {
      var k := WordFramesAt(l, s, e, fps);
      FramesNearest(l[k], s, e, fps);
      assert ShownBy(l, k, s, e, fps, WordFrames(l, s, e, fps).value);
    } else {
      NoneHolds(l, s, e, fps);
    }
  }

  lemma {:induction false} NoneHolds(l: seq<Piece>, s: int, e: int, fps: Fps)
    requires ValidFps(fps) && WordFrames(l, s, e, fps).None?
    ensures forall k | 0 <= k < |l| :: !HoldsMid(l[k], s, e, fps)
  {
    if l != [] {
      NoneHolds(l[1..], s, e, fps);
      forall k | 0 <= k < |l| ensures !HoldsMid(l[k], s, e, fps) {
        assert k > 0 ==> l[k] == l[1..][k - 1];
      }
    }
  }

  // --- production: runs and bisection ---------------------------------------------------------------

  /** Consecutive pieces that ascend in the source. */
  ghost predicate RunOfPieces(run: seq<Piece>) {
    && (forall p | p in run :: p.inSf < p.outSf)
    && (forall j, k | 0 <= j < k < |run| :: run[j].outSf <= run[k].inSf)
  }

  function Flatten(runs: seq<seq<Piece>>): seq<Piece> {
    if runs == [] then [] else Flatten(runs[..|runs| - 1]) + runs[|runs| - 1]
  }

  /** `_Index`: the pieces cut into source-ascending runs. */
  method BuildIndex(l: seq<Piece>) returns (runs: seq<seq<Piece>>)
    requires forall p | p in l :: p.inSf < p.outSf
    ensures Flatten(runs) == l
    ensures forall r | 0 <= r < |runs| :: RunOfPieces(runs[r])
  {
    runs := [];
    for k := 0 to |l|
      invariant Flatten(runs) == l[..k] && AreRuns(runs)
    {
      assert l[k] in l;
      runs := AddPiece(runs, l[k]);
      assert l[..k + 1] == l[..k] + [l[k]];
    }
    assert l[..|l|] == l;
  }

  /** A piece joins the last run where it ascends, else it opens a run. */
  method AddPiece(before: seq<seq<Piece>>, p: Piece) returns (runs: seq<seq<Piece>>)
    requires AreRuns(before) && p.inSf < p.outSf
    ensures AreRuns(runs) && Flatten(runs) == Flatten(before) + [p]
  {
    var last := |before| - 1;
    if before != [] && before[last][|before[last]| - 1].outSf <= p.inSf {
      LastRunGrows(before, p);
      runs := before[last := before[last] + [p]];
    } else {
      RunAdded(before, p);
      runs := before + [[p]];
    }
  }

  ghost predicate AreRuns(runs: seq<seq<Piece>>) {
    forall r | 0 <= r < |runs| :: runs[r] != [] && RunOfPieces(runs[r])
  }

  lemma RunAdded(runs: seq<seq<Piece>>, p: Piece)
    requires AreRuns(runs) && p.inSf < p.outSf
    ensures Flatten(runs + [[p]]) == Flatten(runs) + [p] && AreRuns(runs + [[p]])
  {
    assert (runs + [[p]])[..|runs|] == runs;
  }

  lemma LastRunGrows(runs: seq<seq<Piece>>, p: Piece)
    requires runs != [] && AreRuns(runs) && p.inSf < p.outSf
    requires runs[|runs| - 1][|runs[|runs| - 1]| - 1].outSf <= p.inSf
    ensures Flatten(runs[|runs| - 1 := runs[|runs| - 1] + [p]]) == Flatten(runs) + [p]
    ensures AreRuns(runs[|runs| - 1 := runs[|runs| - 1] + [p]])
  {
    RunGrows(runs[|runs| - 1], p);
    var last := |runs| - 1;
    var grown := runs[last := runs[last] + [p]];
    assert grown[..last] == runs[..last];
    assert Flatten(grown) == Flatten(runs[..last]) + (runs[last] + [p]);
  }

  lemma RunGrows(run: seq<Piece>, p: Piece)
    requires RunOfPieces(run) && run != [] && run[|run| - 1].outSf <= p.inSf && p.inSf < p.outSf
    ensures RunOfPieces(run + [p])
  {
    forall j | 0 <= j < |run| ensures run[j].outSf <= p.inSf {
      assert run[|run| - 1] in run;
    }
  }

  /** The frame that contains the midpoint decides: floor division replaces the fractions. */
  lemma MidFrame(p: Piece, s: int, e: int, fps: Fps)
    requires ValidFps(fps)
    ensures HoldsMid(p, s, e, fps) <==> p.inSf <= (s + e) * fps.num / (2 * Scale(fps)) < p.outSf
  {
    FloorBetween((s + e) * fps.num, 2 * Scale(fps), p.inSf);
    FloorBetween((s + e) * fps.num, 2 * Scale(fps), p.outSf);
  }

  lemma {:induction false} WordFramesConcat(a: seq<Piece>, b: seq<Piece>, s: int, e: int, fps: Fps)
    requires ValidFps(fps)
    ensures WordFrames(a + b, s, e, fps)
         == if WordFrames(a, s, e, fps).Some? then WordFrames(a, s, e, fps) else WordFrames(b, s, e, fps)
    decreases |a|
  {
    if a == [] {
      assert a + b == b;
    } else {
      assert (a + b)[1..] == a[1..] + b;
      WordFramesConcat(a[1..], b, s, e, fps);
    }
  }

  lemma {:induction false} WordFramesIs(l: seq<Piece>, k: nat, s: int, e: int, fps: Fps)
    requires ValidFps(fps) && k <= |l|
    requires forall j | 0 <= j < k :: !HoldsMid(l[j], s, e, fps)
    requires k < |l| ==> HoldsMid(l[k], s, e, fps)
    ensures WordFrames(l, s, e, fps) == if k < |l| then Some(FramesIn(l[k], s, e, fps)) else None
    decreases k
  {
    if k > 0 {
      assert !HoldsMid(l[0], s, e, fps);
      WordFramesIs(l[1..], k - 1, s, e, fps);
    }
  }

  datatype Timing = Timed(frames: Option<(int, int)>) | BadWord

  /** The bisected position is the only one in the run that can hold the midpoint. */
  lemma BisectedRun(run: seq<Piece>, starts: seq<int>, mid: int, after: nat, s: int, e: int, fps: Fps)
    requires ValidFps(fps) && RunOfPieces(run) && mid == (s + e) * fps.num / (2 * Scale(fps))
    requires |starts| == |run| && forall j | 0 <= j < |run| :: starts[j] == run[j].inSf
    requires after <= |run|
    requires forall j | 0 <= j < after :: starts[j] <= mid
    requires forall j | after <= j < |run| :: mid < starts[j]
    ensures forall j | 0 <= j < |run| ::
              HoldsMid(run[j], s, e, fps) <==> j == after - 1 && mid < run[j].outSf
  {
    forall j: int | 0 <= j < |run|
      ensures HoldsMid(run[j], s, e, fps) <==> j == after - 1 && mid < run[j].outSf
    {
      MidFrame(run[j], s, e, fps);
      if j < after - 1 {
        assert run[j].outSf <= run[after - 1].inSf == starts[after - 1];
      }
    }
  }

  /** One run: at most its last piece that starts at or before the midpoint's frame can hold it. */
  method LookInRun(run: seq<Piece>, s: int, e: int, fps: Fps) returns (frames: Option<(int, int)>)
    requires ValidFps(fps) && RunOfPieces(run)
    ensures frames == WordFrames(run, s, e, fps)
  {
    var mid := (s + e) * fps.num / (2 * Scale(fps));
    var starts := seq(|run|, k requires 0 <= k < |run| => run[k].inSf);
    forall i, j | 0 <= i < j < |starts| ensures starts[i] < starts[j] {
      assert run[i] in run;
    }
    var after := BisectRight(starts, mid);
    BisectedRun(run, starts, mid, after, s, e, fps);
    if after == 0 || mid >= run[after - 1].outSf {
      WordFramesIs(run, |run|, s, e, fps);
      return None;
    }
    WordFramesIs(run, after - 1, s, e, fps);
    var placed := PlaceIn(run[after - 1], s, e, fps);
    frames := Some(placed);
  }

  /** The frames of a word in the piece that holds its midpoint. */
  method PlaceIn(piece: Piece, s: int, e: int, fps: Fps) returns (frames: (int, int))
    requires ValidFps(fps)
    ensures frames == FramesIn(piece, s, e, fps)
  {
    var base := piece.inSf * Scale(fps);
    var last := piece.outF0 + piece.frames;
    var on := piece.outF0 + RoundHalfUp(s * fps.num - base, Scale(fps));
    var off := piece.outF0 + RoundHalfUp(e * fps.num - base, Scale(fps));
    on := Clamp(on, piece.outF0, last);
    off := Clamp(off, piece.outF0, last);
    frames := (on, if off > on then off else on);
  }

  /** `word_frames` of the production time map finds what the reference finds. */
  method IndexedWordFrames(s: int, e: int, l: seq<Piece>, fps: Fps) returns (r: Timing)
    requires ValidFps(fps) && forall p | p in l :: p.inSf < p.outSf
    ensures r == if e < s then BadWord else Timed(WordFrames(l, s, e, fps))
    ensures r.Timed? ==> TimedIn(l, s, e, fps, r.frames)
  {
    WordFramesTimed(l, s, e, fps);
    if e < s {
      return BadWord;
    }
    var runs := BuildIndex(l);
    assert runs[..0] == [];
    for k := 0 to |runs|
      invariant WordFrames(Flatten(runs[..k]), s, e, fps) == None
    {
      var found := LookInRun(runs[k], s, e, fps);
      assert runs[..k + 1][..k] == runs[..k];
      WordFramesConcat(Flatten(runs[..k]), runs[k], s, e, fps);
      if found.Some? {
        FlattenPrefix(runs, k + 1, s, e, fps);
        return Timed(found);
      }
    }
    assert runs[..|runs|] == runs;
    r := Timed(None);
  }

  lemma {:induction false} FlattenPrefix(runs: seq<seq<Piece>>, k: nat, s: int, e: int, fps: Fps)
    requires ValidFps(fps) && k <= |runs| && WordFrames(Flatten(runs[..k]), s, e, fps).Some?
    ensures WordFrames(Flatten(runs), s, e, fps) == WordFrames(Flatten(runs[..k]), s, e, fps)
    decreases |runs| - k
  {
    if k < |runs| {
      assert runs[..k + 1][..k] == runs[..k];
      WordFramesConcat(Flatten(runs[..k]), runs[k], s, e, fps);
      FlattenPrefix(runs, k + 1, s, e, fps);
    } else {
      assert runs[..k] == runs;
    }
  }
}
