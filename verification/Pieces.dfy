/** Segments minus removals as output pieces: the frame-by-frame reference of
    `scripts/edit_v2/gen_timemap_vectors.py` (`ref_pieces`) and what it promises. */
module Pieces {
  import opened Runs

  const MIN_PIECE_FRAMES: nat := 2

  datatype Segment = Segment(id: string, role: string, inSf: int, outSf: int)
  datatype Removal = Removal(seg: string, inSf: int, outSf: int)
  datatype Piece = Piece(i: nat, seg: string, role: string, inSf: int, outSf: int,
                         outF0: nat, frames: nat)

  predicate Removed(removals: seq<Removal>, id: string, sf: int) {
    exists r | r in removals :: r.seg == id && r.inSf <= sf < r.outSf
  }

  function Kept(seg: Segment, removals: seq<Removal>): int -> bool {
    (sf: int) => !Removed(removals, seg.id, sf)
  }

  /** The frames of `seg` that survive, as a predicate on all source frames. */
  ghost function Shown(seg: Segment, removals: seq<Removal>): int -> bool {
    Within(Kept(seg, removals), seg.inSf, seg.outSf)
  }

  function SegmentRuns(seg: Segment, removals: seq<Removal>): seq<(int, int)> {
    if seg.inSf <= seg.outSf
    then Scan(Kept(seg, removals), MIN_PIECE_FRAMES, seg.inSf, seg.inSf, seg.outSf)
    else []
  }

  lemma SegmentRunsAreRuns(seg: Segment, removals: seq<Removal>)
    ensures ListsRuns(Shown(seg, removals), MIN_PIECE_FRAMES, SegmentRuns(seg, removals))
  {
    if seg.inSf <= seg.outSf {
      ScanIsRunList(Kept(seg, removals), MIN_PIECE_FRAMES, seg.inSf, seg.outSf);
    } else {
      assert forall lo, hi :: Run(Shown(seg, removals), MIN_PIECE_FRAMES, lo, hi) ==> Shown(seg, removals)(lo);
    }
  }

  // --- layout -----------------------------------------------------------------------------------

  function Length(r: (int, int)): nat { if r.0 <= r.1 then r.1 - r.0 else 0 }

  /** The runs of one segment laid out from output frame `f0`, numbered from `i`. */
  function Lay(runs: seq<(int, int)>, seg: Segment, i: nat, f0: nat): (l: seq<Piece>)
    ensures |l| == |runs|
    decreases |runs|
  {
    if runs == [] then []
    else [Piece(i, seg.id, seg.role, runs[0].0, runs[0].1, f0, Length(runs[0]))]
         + Lay(runs[1..], seg, i + 1, f0 + Length(runs[0]))
  }

  function Total(pieces: seq<Piece>): nat {
    if pieces == [] then 0 else pieces[0].frames + Total(pieces[1..])
  }

  function From(segments: seq<Segment>, removals: seq<Removal>, i: nat, f0: nat): seq<Piece>
    decreases |segments|
  {
    if segments == [] then []
    else
      var head := Lay(SegmentRuns(segments[0], removals), segments[0], i, f0);
      head + From(segments[1..], removals, i + |head|, f0 + Total(head))
  }

  function PiecesOf(segments: seq<Segment>, removals: seq<Removal>): seq<Piece> {
    From(segments, removals, 0, 0)
  }

  /** Pieces tile the output: numbered from `i`, back to back from `f0`, two frames or more. */
  ghost predicate TilesFrom(l: seq<Piece>, i: nat, f0: nat) {
    l == [] ||
    (&& l[0].i == i && l[0].outF0 == f0
     && l[0].frames == l[0].outSf - l[0].inSf && l[0].frames >= MIN_PIECE_FRAMES
     && TilesFrom(l[1..], i + 1, f0 + l[0].frames))
  }

  lemma {:induction false} TilesAt(l: seq<Piece>, i: nat, f0: nat, k: nat)
    requires TilesFrom(l, i, f0) && k < |l|
    ensures l[k].i == i + k && l[k].outF0 == f0 + Total(l[..k])
    ensures l[k].frames == l[k].outSf - l[k].inSf && l[k].frames >= MIN_PIECE_FRAMES
    decreases k
  {
    if k > 0 {
      TilesAt(l[1..], i + 1, f0 + l[0].frames, k - 1);
      assert l[..k][1..] == l[1..][..k - 1];
    }
  }

  lemma {:induction false} TotalOfConcat(a: seq<Piece>, b: seq<Piece>)
    ensures Total(a + b) == Total(a) + Total(b)
    decreases |a|
  {
    if a == [] {
      assert a + b == b;
    } else {
      assert (a + b)[1..] == a[1..] + b;
      TotalOfConcat(a[1..], b);
    }
  }

  lemma {:induction false} TilesConcat(a: seq<Piece>, b: seq<Piece>, i: nat, f0: nat)
    requires TilesFrom(a, i, f0) && TilesFrom(b, i + |a|, f0 + Total(a))
    ensures TilesFrom(a + b, i, f0)
    decreases |a|
  {
    if a == [] {
      assert a + b == b;
    } else {
      assert (a + b)[1..] == a[1..] + b;
      TilesConcat(a[1..], b, i + 1, f0 + a[0].frames);
    }
  }

  ghost predicate Long(runs: seq<(int, int)>) {
    forall k | 0 <= k < |runs| :: runs[k].0 + MIN_PIECE_FRAMES <= runs[k].1
  }

  lemma {:induction false} LayTiles(runs: seq<(int, int)>, seg: Segment, i: nat, f0: nat)
    requires Long(runs)
    ensures TilesFrom(Lay(runs, seg, i, f0), i, f0)
    decreases |runs|
  {
    if runs != [] {
      assert Lay(runs, seg, i, f0)[1..] == Lay(runs[1..], seg, i + 1, f0 + Length(runs[0]));
      LayTiles(runs[1..], seg, i + 1, f0 + Length(runs[0]));
    }
  }

  lemma {:induction false} LayAt(runs: seq<(int, int)>, seg: Segment, i: nat, f0: nat, k: nat)
    requires k < |runs|
    ensures var p := Lay(runs, seg, i, f0)[k];
            p.seg == seg.id && p.role == seg.role && (p.inSf, p.outSf) == runs[k]
    decreases |runs|
  {
    if k > 0 {
      LayAt(runs[1..], seg, i + 1, f0 + Length(runs[0]), k - 1);
    }
  }

  lemma SegmentRunsLong(seg: Segment, removals: seq<Removal>)
    ensures Long(SegmentRuns(seg, removals))
  {
    SegmentRunsAreRuns(seg, removals);
    var runs := SegmentRuns(seg, removals);
    forall k | 0 <= k < |runs| ensures runs[k].0 + MIN_PIECE_FRAMES <= runs[k].1 {
      assert runs[k] in runs;
    }
  }

  /** `p` is one of the maximal runs of `seg`. */
  ghost predicate IsPieceOf(p: Piece, seg: Segment, removals: seq<Removal>) {
    && p.seg == seg.id && p.role == seg.role
    && Run(Shown(seg, removals), MIN_PIECE_FRAMES, p.inSf, p.outSf)
  }

  /** Every piece has an owner among the segments. */
  ghost predicate Owned(l: seq<Piece>, segments: seq<Segment>, removals: seq<Removal>, owner: seq<nat>) {
    && |owner| == |l|
    && (forall k | 0 <= k < |l| :: owner[k] < |segments| && IsPieceOf(l[k], segments[owner[k]], removals))
  }

  /** Owners ascend, and the pieces of one owner ascend with a gap. */
  ghost predicate InSourceOrder(l: seq<Piece>, owner: seq<nat>)
    requires |owner| == |l|
  {
    forall j, k | 0 <= j < k < |l| :: owner[j] < owner[k] || (owner[j] == owner[k] && l[j].outSf < l[k].inSf)
  }

  ghost predicate HasPiece(l: seq<Piece>, owner: seq<nat>, s: nat, lo: int, hi: int)
    requires |owner| == |l|
  {
    exists k :: 0 <= k < |l| && owner[k] == s && l[k].inSf == lo && l[k].outSf == hi
  }

  /** No maximal run of any segment is missing. */
  ghost predicate Complete(l: seq<Piece>, segments: seq<Segment>, removals: seq<Removal>, owner: seq<nat>)
    requires |owner| == |l|
  {
    forall s, lo, hi | 0 <= s < |segments| && Run(Shown(segments[s], removals), MIN_PIECE_FRAMES, lo, hi) ::
      HasPiece(l, owner, s, lo, hi)
  }

  lemma {:induction false} FromTiles(segments: seq<Segment>, removals: seq<Removal>, i: nat, f0: nat)
    ensures TilesFrom(From(segments, removals, i, f0), i, f0)
    decreases |segments|
  {
    if segments != [] {
      var runs := SegmentRuns(segments[0], removals);
      SegmentRunsLong(segments[0], removals);
      LayTiles(runs, segments[0], i, f0);
      var head := Lay(runs, segments[0], i, f0);
      var tail := From(segments[1..], removals, i + |head|, f0 + Total(head));
      FromTiles(segments[1..], removals, i + |head|, f0 + Total(head));
      TilesConcat(head, tail, i, f0);
    }
  }

  /** The owners of the pieces that `From` lays out. */
  ghost function Owners(segments: seq<Segment>, removals: seq<Removal>): (owner: seq<nat>)
    decreases |segments|
  {
    if segments == [] then []
    else
      var rest := Owners(segments[1..], removals);
      seq(|SegmentRuns(segments[0], removals)|, _ => 0)
      + seq(|rest|, k requires 0 <= k < |rest| => rest[k] + 1)
  }

  /** Owned, in source order and complete. */
  ghost predicate Arranged(l: seq<Piece>, segments: seq<Segment>, removals: seq<Removal>, owner: seq<nat>) {
    Owned(l, segments, removals, owner) && InSourceOrder(l, owner) && Complete(l, segments, removals, owner)
  }

  lemma {:induction false} FromArranged(segments: seq<Segment>, removals: seq<Removal>, i: nat, f0: nat)
    ensures Arranged(From(segments, removals, i, f0), segments, removals, Owners(segments, removals))
    decreases |segments|
  {
    if segments != [] {
      var head, tail := SplitFirst(segments, removals, i, f0);
      var rest, owner := Owners(segments[1..], removals), Owners(segments, removals);
      FromArranged(segments[1..], removals, i + |head|, f0 + Total(head));
      ArrangedConcat(head, tail, segments, segments[1..], removals, rest, owner);
    }
  }

  lemma ArrangedConcat(head: seq<Piece>, tail: seq<Piece>, segments: seq<Segment>, others: seq<Segment>,
                       removals: seq<Removal>, rest: seq<nat>, owner: seq<nat>)
    requires Split(head, tail, segments, removals, rest, owner) && others == segments[1..]
    requires Arranged(tail, others, removals, rest)
    ensures Arranged(head + tail, segments, removals, owner)
  {
    OwnedConcat(head, tail, segments, removals, rest, owner);
    OrderConcat(head, tail, segments, removals, rest, owner);
    CompleteConcat(head, tail, segments, removals, rest, owner);
  }

  /** The first segment owns its runs; the other owners move up by one. */
  lemma OwnersUnfold(segments: seq<Segment>, removals: seq<Removal>, rest: seq<nat>, owner: seq<nat>)
    requires segments != [] && rest == Owners(segments[1..], removals) && owner == Owners(segments, removals)
    ensures var n := |SegmentRuns(segments[0], removals)|;
            |owner| == n + |rest| && (forall k | 0 <= k < n :: owner[k] == 0)
            && forall k | 0 <= k < |rest| :: owner[n + k] == rest[k] + 1
  {
  }

  lemma FromHead(segments: seq<Segment>, removals: seq<Removal>, i: nat, f0: nat, head: seq<Piece>, tail: seq<Piece>)
    requires segments != [] && head == Lay(SegmentRuns(segments[0], removals), segments[0], i, f0)
    requires tail == From(segments[1..], removals, i + |head|, f0 + Total(head))
    ensures From(segments, removals, i, f0) == head + tail
  {
  }

  lemma SplitFirst(segments: seq<Segment>, removals: seq<Removal>, i: nat, f0: nat)
      returns (head: seq<Piece>, tail: seq<Piece>)
    requires segments != []
    ensures From(segments, removals, i, f0) == head + tail
    ensures tail == From(segments[1..], removals, i + |head|, f0 + Total(head))
    ensures |Owners(segments[1..], removals)| == |tail| ==>
              Split(head, tail, segments, removals, Owners(segments[1..], removals), Owners(segments, removals))
  {
    head := Lay(SegmentRuns(segments[0], removals), segments[0], i, f0);
    tail := From(segments[1..], removals, i + |head|, f0 + Total(head));
    FromHead(segments, removals, i, f0, head, tail);
    LayHeads(segments[0], removals, i, f0);
    OwnersUnfold(segments, removals, Owners(segments[1..], removals), Owners(segments, removals));
  }

  /** `head` shows the maximal runs of `seg`. */
  ghost predicate Heads(head: seq<Piece>, seg: Segment, removals: seq<Removal>) {
    var runs := SegmentRuns(seg, removals);
    && ListsRuns(Shown(seg, removals), MIN_PIECE_FRAMES, runs)
    && |head| == |runs|
    && forall k | 0 <= k < |runs| ::
         head[k].seg == seg.id && head[k].role == seg.role && (head[k].inSf, head[k].outSf) == runs[k]
  }

  lemma LayHeads(seg: Segment, removals: seq<Removal>, i: nat, f0: nat)
    ensures Heads(Lay(SegmentRuns(seg, removals), seg, i, f0), seg, removals)
  {
    var runs := SegmentRuns(seg, removals);
    SegmentRunsAreRuns(seg, removals);
    forall k | 0 <= k < |runs|
      ensures var p := Lay(runs, seg, i, f0)[k];
              p.seg == seg.id && p.role == seg.role && (p.inSf, p.outSf) == runs[k]
    {
      LayAt(runs, seg, i, f0, k);
    }
  }

  /** `head` lays out the runs of the first segment, `tail` the pieces of the others. */
  ghost predicate Split(head: seq<Piece>, tail: seq<Piece>, segments: seq<Segment>, removals: seq<Removal>,
                        rest: seq<nat>, owner: seq<nat>) {
    && segments != [] && |rest| == |tail| && |owner| == |head| + |tail|
    && Heads(head, segments[0], removals)
    && (forall k | 0 <= k < |head| :: owner[k] == 0)
    && (forall k | 0 <= k < |tail| :: owner[|head| + k] == rest[k] + 1)
  }

  lemma OwnedConcat(head: seq<Piece>, tail: seq<Piece>, segments: seq<Segment>, removals: seq<Removal>,
                    rest: seq<nat>, owner: seq<nat>)
    requires Split(head, tail, segments, removals, rest, owner)
    requires Owned(tail, segments[1..], removals, rest)
    ensures Owned(head + tail, segments, removals, owner)
  {
    var l := head + tail;
    forall k | 0 <= k < |l|
      ensures owner[k] < |segments| && IsPieceOf(l[k], segments[owner[k]], removals)
    {
      if k < |head| {
        assert SegmentRuns(segments[0], removals)[k] in SegmentRuns(segments[0], removals);
      } else {
        assert owner[|head| + (k - |head|)] == rest[k - |head|] + 1;
        assert segments[1..][rest[k - |head|]] == segments[owner[k]];
      }
    }
  }

  lemma OrderConcat(head: seq<Piece>, tail: seq<Piece>, segments: seq<Segment>, removals: seq<Removal>,
                    rest: seq<nat>, owner: seq<nat>)
    requires Split(head, tail, segments, removals, rest, owner)
    requires InSourceOrder(tail, rest)
    ensures InSourceOrder(head + tail, owner)
  {
    var l, runs := head + tail, SegmentRuns(segments[0], removals);
    forall j, k | 0 <= j < k < |l|
      ensures owner[j] < owner[k] || (owner[j] == owner[k] && l[j].outSf < l[k].inSf)
    {
      if k < |head| {
        assert runs[j].1 < runs[k].0;
      } else {
        assert owner[|head| + (k - |head|)] == rest[k - |head|] + 1;
        if j >= |head| {
          assert owner[|head| + (j - |head|)] == rest[j - |head|] + 1;
        }
      }
    }
  }

  lemma CompleteConcat(head: seq<Piece>, tail: seq<Piece>, segments: seq<Segment>, removals: seq<Removal>,
                       rest: seq<nat>, owner: seq<nat>)
    requires Split(head, tail, segments, removals, rest, owner)
    requires Complete(tail, segments[1..], removals, rest)
    ensures Complete(head + tail, segments, removals, owner)
  {
    var l, runs := head + tail, SegmentRuns(segments[0], removals);
    forall s, lo, hi | 0 <= s < |segments| && Run(Shown(segments[s], removals), MIN_PIECE_FRAMES, lo, hi)
      ensures HasPiece(l, owner, s, lo, hi)
    {
      if s == 0 {
        assert (lo, hi) in runs;
        var k :| 0 <= k < |runs| && runs[k] == (lo, hi);
        assert l[k] == head[k];
      } else {
        assert segments[s] == segments[1..][s - 1];
        assert HasPiece(tail, rest, s - 1, lo, hi);
        var k :| 0 <= k < |tail| && rest[k] == s - 1 && tail[k].inSf == lo && tail[k].outSf == hi;
        assert l[|head| + k] == tail[k] && owner[|head| + k] == s;
      }
    }
  }

  /** The main statement about `ref_pieces`: exactly the maximal runs of at least two unremoved
      frames of each segment, in source order, tiling `[0, total)`. */
  lemma PiecesAreTheMaximalRuns(segments: seq<Segment>, removals: seq<Removal>)
    ensures TilesFrom(PiecesOf(segments, removals), 0, 0)
    ensures Owned(PiecesOf(segments, removals), segments, removals, Owners(segments, removals))
    ensures InSourceOrder(PiecesOf(segments, removals), Owners(segments, removals))
    ensures Complete(PiecesOf(segments, removals), segments, removals, Owners(segments, removals))
  {
    FromTiles(segments, removals, 0, 0);
    FromArranged(segments, removals, 0, 0);
  }

  ghost predicate SameFrames(segments: seq<Segment>, removals: seq<Removal>, removals': seq<Removal>) {
    forall s, sf | 0 <= s < |segments| && segments[s].inSf <= sf < segments[s].outSf ::
      Removed(removals, segments[s].id, sf) == Removed(removals', segments[s].id, sf)
  }

  lemma SegmentRunsCongruent(seg: Segment, removals: seq<Removal>, removals': seq<Removal>)
    requires forall sf | seg.inSf <= sf < seg.outSf ::
               Removed(removals, seg.id, sf) == Removed(removals', seg.id, sf)
    ensures SegmentRuns(seg, removals) == SegmentRuns(seg, removals')
  {
    if seg.inSf <= seg.outSf {
      ScanCongruent(Kept(seg, removals), Kept(seg, removals'), MIN_PIECE_FRAMES,
                    seg.inSf, seg.inSf, seg.outSf);
    }
  }

  lemma SameFramesOfRest(segments: seq<Segment>, rest: seq<Segment>, removals: seq<Removal>, removals': seq<Removal>)
    requires segments != [] && rest == segments[1..] && SameFrames(segments, removals, removals')
    ensures SameFrames(rest, removals, removals')
  {
    forall s, sf | 0 <= s < |rest| && rest[s].inSf <= sf < rest[s].outSf
      ensures Removed(removals, rest[s].id, sf) == Removed(removals', rest[s].id, sf)
    {
      assert rest[s] == segments[s + 1];
    }
  }

  lemma {:induction false} FromCongruent(segments: seq<Segment>, removals: seq<Removal>,
                                         removals': seq<Removal>, i: nat, f0: nat)
    requires SameFrames(segments, removals, removals')
    ensures From(segments, removals, i, f0) == From(segments, removals', i, f0)
    decreases |segments|
  {
    if segments != [] {
      var head := Lay(SegmentRuns(segments[0], removals), segments[0], i, f0);
      var j, f1 := i + |head|, f0 + Total(head);
      SegmentRunsCongruent(segments[0], removals, removals');
      SameFramesOfRest(segments, segments[1..], removals, removals');
      FromCongruent(segments[1..], removals, removals', j, f1);
      FromHead(segments, removals, i, f0, head, From(segments[1..], removals, j, f1));
      FromHead(segments, removals', i, f0, head, From(segments[1..], removals', j, f1));
    }
  }

  /** Only the set of removed frames inside the segments matters: order, overlap, repetition,
      frames outside and unknown segment names do not. */
  lemma OnlyRemovedFramesMatter(segments: seq<Segment>, removals: seq<Removal>, removals': seq<Removal>)
    requires SameFrames(segments, removals, removals')
    ensures PiecesOf(segments, removals) == PiecesOf(segments, removals')
  {
    FromCongruent(segments, removals, removals', 0, 0);
  }

  // --- the loops ---------------------------------------------------------------------------------

  lemma {:induction false} LayConcat(a: seq<(int, int)>, b: seq<(int, int)>, seg: Segment, i: nat, f0: nat)
    ensures Lay(a + b, seg, i, f0) == Lay(a, seg, i, f0) + Lay(b, seg, i + |a|, f0 + Total(Lay(a, seg, i, f0)))
    decreases |a|
  {
    if a == [] {
      assert a + b == b;
    } else {
      var f1 := f0 + Length(a[0]);
      assert (a + b)[1..] == a[1..] + b;
      LayConcat(a[1..], b, seg, i + 1, f1);
      assert Lay(a, seg, i, f0)[1..] == Lay(a[1..], seg, i + 1, f1);
    }
  }

  lemma LayNext(closed: seq<(int, int)>, r: (int, int), seg: Segment, i: nat, f0: nat, piece: Piece)
    requires piece == Piece(i + |closed|, seg.id, seg.role, r.0, r.1,
                            f0 + Total(Lay(closed, seg, i, f0)), Length(r))
    ensures Lay(closed + [r], seg, i, f0) == Lay(closed, seg, i, f0) + [piece]
    ensures Total(Lay(closed + [r], seg, i, f0)) == Total(Lay(closed, seg, i, f0)) + Length(r)
  {
    LayConcat(closed, [r], seg, i, f0);
    assert [r][1..] == [];
    TotalOfConcat(Lay(closed, seg, i, f0), [piece]);
    assert [piece][1..] == [];
  }

  /** What the scan still lists from frame `sf` on. */
  function Rest(kept: int -> bool, lo: int, sf: int, end: int): seq<(int, int)> {
    if sf <= end then Scan(kept, MIN_PIECE_FRAMES, lo, sf, end) else []
  }

  lemma ScanCloses(kept: int -> bool, lo: int, sf: int, end: int,
                   closed: seq<(int, int)>, goal: seq<(int, int)>)
    requires lo <= sf <= end && goal == closed + Rest(kept, lo, sf, end)
    requires !(sf < end && kept(sf))
    ensures goal == closed + (if sf - lo >= MIN_PIECE_FRAMES then [(lo, sf)] else [])
                    + Rest(kept, sf + 1, sf + 1, end)
  {
  }

  lemma Associate(a: seq<Piece>, b: seq<Piece>, c: seq<Piece>)
    ensures a + (b + c) == (a + b) + c
  {
  }

  lemma FromUnfold(segments: seq<Segment>, removals: seq<Removal>, s: nat, i: nat, f0: nat, head: seq<Piece>)
      returns (tail: seq<Piece>)
    requires s < |segments| && head == Lay(SegmentRuns(segments[s], removals), segments[s], i, f0)
    ensures tail == From(segments[s + 1..], removals, i + |head|, f0 + Total(head))
    ensures From(segments[s..], removals, i, f0) == head + tail
  {
    assert segments[s..][1..] == segments[s + 1..];
    tail := From(segments[s + 1..], removals, i + |head|, f0 + Total(head));
  }

  /** The removed frames of one segment, as the set the scan tests against. */
  method MarkRemoved(removals: seq<Removal>, id: string) returns (removed: set<int>)
    ensures forall sf :: sf in removed <==> Removed(removals, id, sf)
  {
    removed := {};
    for r := 0 to |removals|
      invariant forall sf :: sf in removed <==> Removed(removals[..r], id, sf)
    {
      assert removals[..r + 1] == removals[..r] + [removals[r]];
      if removals[r].seg == id {
        for sf := removals[r].inSf
          to if removals[r].outSf < removals[r].inSf then removals[r].inSf else removals[r].outSf
          invariant forall x :: x in removed <==> Removed(removals[..r], id, x) || removals[r].inSf <= x < sf
        {
          removed := removed + {sf};
        }
      }
    }
    assert removals[..|removals|] == removals;
  }

  /** One segment of `ref_pieces`: the run grows frame by frame and is laid out when it closes. */
  method AppendRuns(segment: Segment, ghost removals: seq<Removal>, removed: set<int>,
                    done: seq<Piece>, start: nat) returns (result: seq<Piece>, outF0: nat)
    requires forall sf :: sf in removed <==> Removed(removals, segment.id, sf)
    ensures result == done + Lay(SegmentRuns(segment, removals), segment, |done|, start)
    ensures outF0 == start + Total(Lay(SegmentRuns(segment, removals), segment, |done|, start))
  {
    result, outF0 := done, start;
    if segment.inSf > segment.outSf {
      return;
    }
    var run: seq<int> := [];
    ghost var closed: seq<(int, int)> := [];  // the runs laid out so far
    ghost var laid: seq<Piece> := [];
    ghost var kept, goal := Kept(segment, removals), SegmentRuns(segment, removals);
    var sf := segment.inSf;
    while sf < segment.outSf + 1
      invariant segment.inSf <= sf <= segment.outSf + 1
      invariant forall k | 0 <= k < |run| :: run[k] == sf - |run| + k
      invariant goal == closed + Rest(kept, sf - |run|, sf, segment.outSf)
      invariant laid == Lay(closed, segment, |done|, start)
      invariant result == done + laid && outF0 == start + Total(laid)
    {
      if sf < segment.outSf && sf !in removed {
        run := run + [sf];
        sf := sf + 1;
        continue;
      }
      ScanCloses(kept, sf - |run|, sf, segment.outSf, closed, goal);
      if |run| >= MIN_PIECE_FRAMES {
        var frames := |run|;
        ghost var r := (sf - frames, sf);
        var piece := Piece(|result|, segment.id, segment.role, run[0], run[frames - 1] + 1, outF0, frames);
        LayNext(closed, r, segment, |done|, start, piece);
        assert result + [piece] == done + (laid + [piece]);
        result := result + [piece];
        outF0 := outF0 + frames;
        closed, laid := closed + [r], laid + [piece];
      } else {
        assert closed + [] == closed;
      }
      run := [];
      sf := sf + 1;
    }
    assert closed + [] == closed;
  }

  /** `ref_pieces`. */
  method RefPieces(segments: seq<Segment>, removals: seq<Removal>) returns (result: seq<Piece>)
    ensures result == PiecesOf(segments, removals)
  {
    result := [];
    var outF0: nat := 0;
    ghost var goal := PiecesOf(segments, removals);
    assert segments[0..] == segments;
    ghost var tail := goal;  // what is left to lay out
    for s := 0 to |segments|
      invariant tail == From(segments[s..], removals, |result|, outF0)
      invariant goal == result + tail
    {
      var removed := MarkRemoved(removals, segments[s].id);
      ghost var head := Lay(SegmentRuns(segments[s], removals), segments[s], |result|, outF0);
      tail := FromUnfold(segments, removals, s, |result|, outF0, head);
      Associate(result, head, tail);
      result, outF0 := AppendRuns(segments[s], removals, removed, result, outF0);
    }
  }
}
