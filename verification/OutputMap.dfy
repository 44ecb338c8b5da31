/** Output frame to source frame, by linear scan (reference) and by bisection (production), and the
    exact sample counts of the pieces. */
module OutputMap {
  import opened Arithmetic
  import opened Pieces
  import opened Runs

  predicate Shows(p: Piece, n: int) { p.outF0 <= n < p.outF0 + p.frames }

  /** The lookup of `_out_samples`: the first piece that shows frame `n`. */
  function FirstShowing(l: seq<Piece>, n: nat): (k: nat)
    ensures k <= |l| && (k < |l| ==> Shows(l[k], n)) && forall j | 0 <= j < k :: !Shows(l[j], n)
  {
    if l == [] || Shows(l[0], n) then 0 else 1 + FirstShowing(l[1..], n)
  }

  lemma {:induction false} TotalOfPrefix(l: seq<Piece>, k: nat)
    requires k < |l|
    ensures Total(l[..k + 1]) == Total(l[..k]) + l[k].frames
  {
    assert l[..k + 1] == l[..k] + [l[k]];
    TotalOfConcat(l[..k], [l[k]]);
    assert [l[k]][1..] == [];
  }

  lemma {:induction false} PrefixGrows(l: seq<Piece>, j: nat, k: nat)
    requires j <= k <= |l|
    ensures Total(l[..j]) <= Total(l[..k])
    decreases k - j
  {
    if j < k {
      PrefixGrows(l, j, k - 1);
      TotalOfPrefix(l, k - 1);
    }
  }

  /** In a tiling the pieces follow each other without overlap. */
  lemma TilesOrdered(l: seq<Piece>, j: nat, k: nat)
    requires TilesFrom(l, 0, 0) && j < k < |l|
    ensures l[j].outF0 + l[j].frames <= l[k].outF0
  {
    TilesAt(l, 0, 0, j);
    TilesAt(l, 0, 0, k);
    TotalOfPrefix(l, j);
    PrefixGrows(l, j + 1, k);
  }

  lemma {:induction false} TilesCover(l: seq<Piece>, i: nat, f0: nat, n: nat)
    requires TilesFrom(l, i, f0) && f0 <= n < f0 + Total(l)
    ensures exists k :: 0 <= k < |l| && Shows(l[k], n)
    decreases |l|
  {
    if l != [] {
      if Shows(l[0], n) {
        assert 0 <= 0 < |l|;
      } else {
        TilesCover(l[1..], i + 1, f0 + l[0].frames, n);
        var k :| 0 <= k < |l[1..]| && Shows(l[1..][k], n);
        assert Shows(l[k + 1], n);
      }
    }
  }

  lemma TilesEnd(l: seq<Piece>, k: nat)
    requires TilesFrom(l, 0, 0) && k < |l|
    ensures l[k].outF0 + l[k].frames <= Total(l)
  {
    TilesAt(l, 0, 0, k);
    TotalOfPrefix(l, k);
    PrefixGrows(l, k + 1, |l|);
    assert l[..|l|] == l;
  }

  /** Every output frame of a tiling is shown by exactly one piece; no other frame by any. */
  lemma ShownOnce(l: seq<Piece>, n: int)
    requires TilesFrom(l, 0, 0)
    ensures 0 <= n < Total(l) <==> exists k :: 0 <= k < |l| && Shows(l[k], n)
    ensures forall j, k | 0 <= j < |l| && 0 <= k < |l| && Shows(l[j], n) && Shows(l[k], n) :: j == k
  {
    if 0 <= n < Total(l) {
      TilesCover(l, 0, 0, n);
    }
    if k :| 0 <= k < |l| && Shows(l[k], n) {
      TilesEnd(l, k);
    }
    forall j, k | 0 <= j < |l| && 0 <= k < |l| && Shows(l[j], n) && Shows(l[k], n)
      ensures j == k
    {
      if j < k {
        TilesOrdered(l, j, k);
      } else if k < j {
        TilesOrdered(l, k, j);
      }
    }
  }

  /** The source frame that piece `p` shows at output frame `n`. */
  function SourceFrame(p: Piece, n: int): int { p.inSf + n - p.outF0 }

  /** The (segment, source frame) pair on screen at output frame `n`. */
  function OutToSource(l: seq<Piece>, n: nat): (string, int)
    requires FirstShowing(l, n) < |l|
  {
    var p := l[FirstShowing(l, n)];
    (p.seg, SourceFrame(p, n))
  }

  ghost predicate DistinctIds(segments: seq<Segment>) {
    forall i, j | 0 <= i < j < |segments| :: segments[i].id != segments[j].id
  }

  /** A frame survives when it is unremoved and so is a neighbour of it in its segment. */
  ghost predicate Survives(segments: seq<Segment>, removals: seq<Removal>, f: (string, int)) {
    exists s :: 0 <= s < |segments| && segments[s].id == f.0
      && Shown(segments[s], removals)(f.1)
      && (Shown(segments[s], removals)(f.1 - 1) || Shown(segments[s], removals)(f.1 + 1))
  }

  lemma OutputLandsOnSurvivors(segments: seq<Segment>, removals: seq<Removal>, n: nat)
    requires n < Total(PiecesOf(segments, removals))
    ensures FirstShowing(PiecesOf(segments, removals), n) < |PiecesOf(segments, removals)|
    ensures Survives(segments, removals, OutToSource(PiecesOf(segments, removals), n))
  {
    var l := PiecesOf(segments, removals);
    FromTiles(segments, removals, 0, 0);
    ShownOnce(l, n);
    var k := FirstShowing(l, n);
    TilesAt(l, 0, 0, k);
    var s := PieceOwner(segments, removals, k);
    var sf := SourceFrame(l[k], n);
    assert l[k].inSf <= sf < l[k].outSf;
    RunOfTwo(Kept(segments[s], removals), sf, segments[s].inSf, segments[s].outSf);
  }

  /** The piece a surviving frame of segment `s` lies in. */
  lemma SurvivorPiece(segments: seq<Segment>, removals: seq<Removal>, s: nat, sf: int) returns (k: nat)
    requires s < |segments| && Shown(segments[s], removals)(sf)
    requires Shown(segments[s], removals)(sf - 1) || Shown(segments[s], removals)(sf + 1)
    ensures k < |PiecesOf(segments, removals)|
    ensures PiecesOf(segments, removals)[k].seg == segments[s].id
    ensures PiecesOf(segments, removals)[k].inSf <= sf < PiecesOf(segments, removals)[k].outSf
  {
    var l, owner := PiecesOf(segments, removals), Owners(segments, removals);
    PiecesAreTheMaximalRuns(segments, removals);
    RunOfTwo(Kept(segments[s], removals), sf, segments[s].inSf, segments[s].outSf);
    var lo, hi :| lo <= sf < hi && Run(Shown(segments[s], removals), 2, lo, hi);
    assert HasPiece(l, owner, s, lo, hi);
    k :| 0 <= k < |l| && owner[k] == s && l[k].inSf == lo && l[k].outSf == hi;
    assert IsPieceOf(l[k], segments[owner[k]], removals);
  }

  /** Every surviving frame is on screen at some output frame. */
  lemma SurvivorsAreShown(segments: seq<Segment>, removals: seq<Removal>, f: (string, int)) returns (n: nat)
    requires Survives(segments, removals, f)
    ensures n < Total(PiecesOf(segments, removals))
    ensures FirstShowing(PiecesOf(segments, removals), n) < |PiecesOf(segments, removals)|
    ensures OutToSource(PiecesOf(segments, removals), n) == f
  {
    var s :| 0 <= s < |segments| && segments[s].id == f.0 && Shown(segments[s], removals)(f.1)
      && (Shown(segments[s], removals)(f.1 - 1) || Shown(segments[s], removals)(f.1 + 1));
    var k := SurvivorPiece(segments, removals, s, f.1);
    var l := PiecesOf(segments, removals);
    FromTiles(segments, removals, 0, 0);
    n := PlaceOf(l, k, f.1);
  }

  lemma PlaceOf(l: seq<Piece>, k: nat, sf: int) returns (n: nat)
    requires TilesFrom(l, 0, 0) && k < |l| && l[k].inSf <= sf < l[k].outSf
    ensures n < Total(l) && FirstShowing(l, n) < |l| && OutToSource(l, n) == (l[k].seg, sf)
  {
    TilesAt(l, 0, 0, k);
    TilesEnd(l, k);
    n := l[k].outF0 + (sf - l[k].inSf);
    ShownOnce(l, n);
    assert Shows(l[k], n) && FirstShowing(l, n) == k;
  }

  /** With distinct segment ids no source frame is shown twice. */
  lemma OutputIsInjective(segments: seq<Segment>, removals: seq<Removal>, m: nat, n: nat)
    requires DistinctIds(segments)
    requires m < n < Total(PiecesOf(segments, removals))
    ensures FirstShowing(PiecesOf(segments, removals), m) < |PiecesOf(segments, removals)|
    ensures FirstShowing(PiecesOf(segments, removals), n) < |PiecesOf(segments, removals)|
    ensures OutToSource(PiecesOf(segments, removals), m) != OutToSource(PiecesOf(segments, removals), n)
  {
    var l, owner := PiecesOf(segments, removals), Owners(segments, removals);
    PiecesAreTheMaximalRuns(segments, removals);
    ShownOnce(l, m);
    ShownOnce(l, n);
    var j, k := FirstShowing(l, m), FirstShowing(l, n);
    TilesAt(l, 0, 0, j);
    TilesAt(l, 0, 0, k);
    assert IsPieceOf(l[j], segments[owner[j]], removals) && IsPieceOf(l[k], segments[owner[k]], removals);
    if k < j {
      TilesOrdered(l, k, j);
    }
    if j < k && owner[j] != owner[k] {
      assert segments[owner[j]].id != segments[owner[k]].id;
    }
  }

  // --- production: bisection ----------------------------------------------------------------------

  /** `bisect.bisect_right` on an increasing list. */
  method BisectRight(s: seq<int>, x: int) returns (k: nat)
    requires Increasing(s)
    ensures k <= |s|
    ensures forall j | 0 <= j < k :: s[j] <= x
    ensures forall j | k <= j < |s| :: x < s[j]
  {
    var lo, hi := 0, |s|;
    while lo < hi
      invariant 0 <= lo <= hi <= |s|
      invariant forall j | 0 <= j < lo :: s[j] <= x
      invariant forall j | hi <= j < |s| :: x < s[j]
    {
      var mid := (lo + hi) / 2;
      if x < s[mid] {
        hi := mid;
      } else {
        lo := mid + 1;
      }
    }
    k := lo;
  }

  datatype Lookup = Found(piece: Piece, sf: int) | Outside

  /** `out_to_src` of the production time map: the reference lookup, or a ValueError exactly
      outside `[0, total)`. */
  method OutToSrc(n: int, l: seq<Piece>) returns (r: Lookup)
    requires TilesFrom(l, 0, 0)
    ensures r.Outside? <==> !(0 <= n < Total(l))
    ensures r.Found? ==> var k := FirstShowing(l, n);
              k < |l| && r.piece == l[k] && (r.piece.seg, r.sf) == OutToSource(l, n)
    ensures r.Found? ==> FoundAt(l, n, r.piece, r.sf)
  {
    var total := if l == [] then 0 else l[|l| - 1].outF0 + l[|l| - 1].frames;
    if l != [] {
      TilesAt(l, 0, 0, |l| - 1);
      TotalOfPrefix(l, |l| - 1);
      assert l[..|l|] == l;
    }
    if !(0 <= n < total) {
      return Outside;
    }
    var starts := seq(|l|, k requires 0 <= k < |l| => l[k].outF0);
    forall i, j | 0 <= i < j < |starts| ensures starts[i] < starts[j] {
      TilesOrdered(l, i, j);
      TilesAt(l, 0, 0, i);
    }
    var after := BisectRight(starts, n);
    TilesAt(l, 0, 0, 0);
    assert l[..0] == [] && starts[0] == l[0].outF0;
    var piece := l[after - 1];
    ShownOnce(l, n);
    var k := FirstShowing(l, n);
    assert starts[after - 1] == piece.outF0 && starts[k] == l[k].outF0;
    if after - 1 < k {
      assert false;
    }
    if k < after - 1 {
      TilesOrdered(l, k, after - 1);
    }
    r := Found(piece, piece.inSf + (n - piece.outF0));
  }

  // --- the order of the map ---------------------------------------------------------------------------

  /** Piece `p` shows frame `n`, and `sf` is as far into its source span as `n` into its output span. */
  ghost predicate FoundAt(l: seq<Piece>, n: int, p: Piece, sf: int) {
    p in l && p.outF0 <= n < p.outF0 + p.frames && sf - p.inSf == n - p.outF0
  }

  /** A piece plays from its first source frame to its last, one after the other. */
  lemma PiecePlays(l: seq<Piece>, p: Piece)
    requires TilesFrom(l, 0, 0) && p in l
    ensures FoundAt(l, p.outF0, p, p.inSf) && FoundAt(l, p.outF0 + p.frames - 1, p, p.outSf - 1)
    ensures forall n, sf, m, sf' | FoundAt(l, n, p, sf) && FoundAt(l, m, p, sf') && m == n + 1 :: sf' == sf + 1
  {
    var k :| 0 <= k < |l| && l[k] == p;
    TilesAt(l, 0, 0, k);
  }

  /** Within one segment the map ascends: a later output frame shows a later source frame. */
  lemma LookupsAscend(segments: seq<Segment>, removals: seq<Removal>, m: int, n: int, p: Piece, sf: int,
                      q: Piece, sf': int)
    requires DistinctIds(segments) && m < n && p.seg == q.seg
    requires FoundAt(PiecesOf(segments, removals), m, p, sf) && FoundAt(PiecesOf(segments, removals), n, q, sf')
    ensures sf < sf'
  {
    var l := PiecesOf(segments, removals);
    var j :| 0 <= j < |l| && l[j] == p;
    var k :| 0 <= k < |l| && l[k] == q;
    FromTiles(segments, removals, 0, 0);
    TilesAt(l, 0, 0, j);
    TilesAt(l, 0, 0, k);
    if k < j {
      TilesOrdered(l, k, j);
    } else if j < k {
      PiecesAscend(segments, removals, j, k);
    }
  }

  /** What the owner of a piece says about it. */
  lemma PieceOwner(segments: seq<Segment>, removals: seq<Removal>, k: nat) returns (s: nat)
    requires k < |PiecesOf(segments, removals)|
    ensures |Owners(segments, removals)| == |PiecesOf(segments, removals)| && s == Owners(segments, removals)[k]
    ensures s < |segments| && IsPieceOf(PiecesOf(segments, removals)[k], segments[s], removals)
  {
    FromArranged(segments, removals, 0, 0);
    s := Owners(segments, removals)[k];
  }

  lemma OwnersInOrder(segments: seq<Segment>, removals: seq<Removal>, j: nat, k: nat)
    requires j < k < |PiecesOf(segments, removals)|
    ensures |Owners(segments, removals)| == |PiecesOf(segments, removals)|
    ensures var l, owner := PiecesOf(segments, removals), Owners(segments, removals);
            owner[j] < owner[k] || (owner[j] == owner[k] && l[j].outSf < l[k].inSf)
  {
    FromArranged(segments, removals, 0, 0);
  }

  /** Two pieces of one segment. */
  lemma PiecesAscend(segments: seq<Segment>, removals: seq<Removal>, j: nat, k: nat)
    requires DistinctIds(segments) && j < k < |PiecesOf(segments, removals)|
    requires PiecesOf(segments, removals)[j].seg == PiecesOf(segments, removals)[k].seg
    ensures PiecesOf(segments, removals)[j].outSf <= PiecesOf(segments, removals)[k].inSf
  {
    var s := PieceOwner(segments, removals, j);
    var t := PieceOwner(segments, removals, k);
    OwnersInOrder(segments, removals, j, k);
  }

  /** `sf` is a frame of the segment that no removal takes out. */
  ghost predicate InSegment(segment: Segment, removals: seq<Removal>, sf: int) {
    && segment.inSf <= sf < segment.outSf
    && forall x | x in removals && x.seg == segment.id :: !(x.inSf <= sf < x.outSf)
  }

  /** What is shown is a frame of the segment that the piece names, and so is a frame beside it. */
  lemma FoundInSegment(segments: seq<Segment>, removals: seq<Removal>, n: int, p: Piece, sf: int) returns (s: nat)
    requires FoundAt(PiecesOf(segments, removals), n, p, sf)
    ensures s < |segments| && segments[s].id == p.seg && segments[s].role == p.role
    ensures InSegment(segments[s], removals, sf)
    ensures InSegment(segments[s], removals, sf - 1) || InSegment(segments[s], removals, sf + 1)
  {
    var l := PiecesOf(segments, removals);
    var k :| 0 <= k < |l| && l[k] == p;
    FromTiles(segments, removals, 0, 0);
    TilesAt(l, 0, 0, k);
    s := PieceOwner(segments, removals, k);
    PieceInSegment(p, segments[s], removals, sf);
    PieceInSegment(p, segments[s], removals, if sf > p.inSf then sf - 1 else sf + 1);
  }

  lemma PieceInSegment(p: Piece, segment: Segment, removals: seq<Removal>, sf: int)
    requires IsPieceOf(p, segment, removals) && p.inSf <= sf < p.outSf
    ensures InSegment(segment, removals, sf)
  {
    assert Shown(segment, removals)(sf);
  }

  /** And every frame of a segment that is not taken out is shown, if its neighbour in the segment is not
      taken out either. */
  lemma SegmentIsFound(segments: seq<Segment>, removals: seq<Removal>, s: nat, sf: int) returns (n: nat, p: Piece)
    requires s < |segments| && InSegment(segments[s], removals, sf)
    requires InSegment(segments[s], removals, sf - 1) || InSegment(segments[s], removals, sf + 1)
    ensures FoundAt(PiecesOf(segments, removals), n, p, sf) && p.seg == segments[s].id
  {
    var l := PiecesOf(segments, removals);
    forall x ensures InSegment(segments[s], removals, x) <==> Shown(segments[s], removals)(x) {
      assert Shown(segments[s], removals)(x)
         <==> segments[s].inSf <= x < segments[s].outSf && !Removed(removals, segments[s].id, x);
    }
    var k := SurvivorPiece(segments, removals, s, sf);
    FromTiles(segments, removals, 0, 0);
    TilesAt(l, 0, 0, k);
    p := l[k];
    n := p.outF0 + (sf - p.inSf);
  }

  // --- samples ------------------------------------------------------------------------------------

  datatype Fps = Fps(num: int, den: int)

  ghost predicate ValidFps(fps: Fps) { fps.num > 0 && fps.den > 0 }

  /** `smp` (and `ref_smp`): the first sample of output frame `n`. */
  function Smp(n: int, fps: Fps, rate: int): int
    requires ValidFps(fps)
  {
    n * rate * fps.den / fps.num
  }

  /** Each boundary is less than one sample after no more than its exact time. */
  lemma BoundaryError(n: int, fps: Fps, rate: int)
    requires ValidFps(fps)
    ensures 0 <= n * rate * fps.den - Smp(n, fps, rate) * fps.num < fps.num
  {
    var x := n * rate * fps.den;
    assert x == (x / fps.num) * fps.num + x % fps.num;
  }

  /** The samples `harness_audio_fragment` gives one piece. */
  function SampleCount(p: Piece, fps: Fps, rate: int): int
    requires ValidFps(fps)
  {
    Smp(p.outF0 + p.frames, fps, rate) - Smp(p.outF0, fps, rate)
  }

  function SampleTotal(l: seq<Piece>, fps: Fps, rate: int): int
    requires ValidFps(fps)
  {
    if l == [] then 0 else SampleCount(l[0], fps, rate) + SampleTotal(l[1..], fps, rate)
  }

  /** The pieces' sample counts sum to the clip's: nothing drifts, for any rate. */
  lemma {:induction false} SamplesConserved(l: seq<Piece>, i: nat, f0: nat, fps: Fps, rate: int)
    requires ValidFps(fps) && TilesFrom(l, i, f0)
    ensures SampleTotal(l, fps, rate) == Smp(f0 + Total(l), fps, rate) - Smp(f0, fps, rate)
    decreases |l|
  {
    if l != [] {
      SamplesConserved(l[1..], i + 1, f0 + l[0].frames, fps, rate);
    }
  }

  lemma ClipSamples(segments: seq<Segment>, removals: seq<Removal>, fps: Fps, rate: int)
    requires ValidFps(fps)
    ensures SampleTotal(PiecesOf(segments, removals), fps, rate)
         == Smp(Total(PiecesOf(segments, removals)), fps, rate)
  {
    PiecesAreTheMaximalRuns(segments, removals);
    SamplesConserved(PiecesOf(segments, removals), 0, 0, fps, rate);
    assert 0 / fps.num == 0;
  }

  lemma SmpMonotone(m: int, n: int, fps: Fps, rate: int)
    requires ValidFps(fps) && rate >= 0 && m <= n
    ensures Smp(m, fps, rate) <= Smp(n, fps, rate)
  {
    var k := rate * fps.den;
    assert m * k <= n * k by { MulOrder(m, n, k); }
    assert m * rate * fps.den == m * k && n * rate * fps.den == n * k;
    DivOrder(m * k, n * k, fps.num);
  }
}
