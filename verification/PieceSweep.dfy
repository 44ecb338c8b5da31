/** The production time map's sweep over sorted cuts (`src/ai_clipper/edit_v2/timemap.py`,
    `_kept_ranges` and `pieces`) refines the frame-by-frame reference. */
module PieceSweep {
  import opened Pieces
  import opened Runs
  import opened Sorting

  /** `Invalid` stands for the ValueError of an empty or reversed removal or segment. */
  datatype Outcome = Ok(pieces: seq<Piece>) | Invalid

  function CutLe(x: (int, int), y: (int, int)): bool {
    x.0 < y.0 || (x.0 == y.0 && x.1 <= y.1)
  }

  predicate CutAt(cuts: seq<(int, int)>, sf: int) {
    exists c | c in cuts :: c.0 <= sf < c.1
  }

  ghost function Free(cuts: seq<(int, int)>, inSf: int, outSf: int): int -> bool {
    Within(sf => !CutAt(cuts, sf), inSf, outSf)
  }

  ghost predicate Covered(l: seq<(int, int)>, sf: int) {
    exists r :: r in l && r.0 <= sf < r.1
  }

  /** Runs of any length: enough to know that all listed are maximal and every free frame is in
      one of them. */
  lemma CoverListsRuns(free: int -> bool, l: seq<(int, int)>)
    requires Ascending(l)
    requires forall r | r in l :: Run(free, 1, r.0, r.1)
    requires forall sf | free(sf) :: Covered(l, sf)
    ensures ListsRuns(free, 1, l)
  {
    forall lo, hi | Run(free, 1, lo, hi)
      ensures (lo, hi) in l
    {
      assert free(lo) && Covered(l, lo);
      var r :| r in l && r.0 <= lo < r.1;
      assert lo == r.0 || free(lo - 1);
      assert hi >= r.1 || free(hi);
      assert hi <= r.1 || free(r.1);
    }
  }

  function DropShort(l: seq<(int, int)>): seq<(int, int)> {
    if l == [] then []
    else (if l[0].1 - l[0].0 >= MIN_PIECE_FRAMES then [l[0]] else []) + DropShort(l[1..])
  }

  lemma {:induction false} DropShortLists(free: int -> bool, l: seq<(int, int)>)
    requires Ascending(l)
    ensures forall r :: r in DropShort(l) <==> r in l && r.0 + MIN_PIECE_FRAMES <= r.1
    ensures Ascending(DropShort(l))
  {
    if l != [] {
      DropShortLists(free, l[1..]);
      assert l == [l[0]] + l[1..];
      var rest := DropShort(l[1..]);
      forall j | 0 <= j < |rest| ensures l[0].1 < rest[j].0 {
        assert rest[j] in l[1..];
      }
    }
  }

  lemma DropShortRuns(free: int -> bool, l: seq<(int, int)>)
    requires ListsRuns(free, 1, l)
    ensures ListsRuns(free, MIN_PIECE_FRAMES, DropShort(l))
  {
    DropShortLists(free, l);
    forall lo, hi | Run(free, MIN_PIECE_FRAMES, lo, hi)
      ensures (lo, hi) in DropShort(l)
    {
      assert Run(free, 1, lo, hi);
      assert (lo, hi) in l;
    }
  }

  /** What the sweep knows after `k` of the sorted cuts. */
  ghost predicate Swept(cuts: seq<(int, int)>, k: nat, inSf: int, outSf: int, cursor: int,
                        kept: seq<(int, int)>)
    requires k <= |cuts|
  {
    && inSf <= cursor <= outSf
    && (cursor == inSf || CutAt(cuts, cursor - 1))
    && (forall sf | cursor <= sf < outSf :: !CutAt(cuts[..k], sf))
    && (forall sf | sf < cursor && Free(cuts, inSf, outSf)(sf) :: Covered(kept, sf))
    && (forall r | r in kept :: Run(Free(cuts, inSf, outSf), 1, r.0, r.1) && r.1 < cursor)
    && Ascending(kept)
  }

  /** The open stretch before a cut at `start` is a maximal run. */
  lemma ClosesRun(cuts: seq<(int, int)>, k: nat, inSf: int, outSf: int, cursor: int,
                  kept: seq<(int, int)>, start: int)
    requires SortedBy(CutLe, cuts) && k < |cuts|
    requires Swept(cuts, k, inSf, outSf, cursor, kept)
    requires cuts[k].0 < cuts[k].1 && start == cuts[k].0 && cursor < start < outSf
    ensures Run(Free(cuts, inSf, outSf), 1, cursor, start)
  {
    forall sf | cursor <= sf < start
      ensures !CutAt(cuts, sf)
    {
      assert !CutAt(cuts[..k], sf);
      forall c | c in cuts ensures !(c.0 <= sf < c.1) {
        var j :| 0 <= j < |cuts| && cuts[j] == c;
        if j < k {
          assert c in cuts[..k];
        } else {
          assert j == k || CutLe(cuts[k], cuts[j]);
        }
      }
    }
    assert cuts[k] in cuts;
  }

  lemma CutAtNext(cuts: seq<(int, int)>, k: nat, sf: int)
    requires k < |cuts|
    ensures CutAt(cuts[..k + 1], sf) <==> CutAt(cuts[..k], sf) || cuts[k].0 <= sf < cuts[k].1
  {
    assert cuts[..k + 1] == cuts[..k] + [cuts[k]];
  }

  lemma SweepStep(cuts: seq<(int, int)>, k: nat, inSf: int, outSf: int, cursor: int, kept: seq<(int, int)>,
                  cursor': int, kept': seq<(int, int)>)
    requires SortedBy(CutLe, cuts) && k < |cuts|
    requires Swept(cuts, k, inSf, outSf, cursor, kept)
    requires
      var start := if cuts[k].0 > inSf then cuts[k].0 else inSf;
      var end := if cuts[k].1 < outSf then cuts[k].1 else outSf;
      if start >= end then cursor' == cursor && kept' == kept
      else kept' == (if start > cursor then kept + [(cursor, start)] else kept)
           && cursor' == (if cursor > end then cursor else end)
    ensures Swept(cuts, k + 1, inSf, outSf, cursor', kept')
  {
    var start := if cuts[k].0 > inSf then cuts[k].0 else inSf;
    var end := if cuts[k].1 < outSf then cuts[k].1 else outSf;
    assert cuts[k] in cuts;
    if start >= end {
      UncutBehind(cuts, k, cuts[..k + 1], inSf, outSf, cursor, kept, cursor);
    } else {
      SweepAdvances(cuts, k, inSf, outSf, cursor, kept, start, end, cursor', kept');
    }
  }

  /** The cut at `k` reaches into the segment: the stretch before it is closed, the cursor moves on. */
  lemma SweepAdvances(cuts: seq<(int, int)>, k: nat, inSf: int, outSf: int, cursor: int, kept: seq<(int, int)>,
                      start: int, end: int, cursor': int, kept': seq<(int, int)>)
    requires SortedBy(CutLe, cuts) && k < |cuts| && Swept(cuts, k, inSf, outSf, cursor, kept)
    requires start == (if cuts[k].0 > inSf then cuts[k].0 else inSf)
    requires end == (if cuts[k].1 < outSf then cuts[k].1 else outSf) && start < end
    requires kept' == if start > cursor then kept + [(cursor, start)] else kept
    requires cursor' == if cursor > end then cursor else end
    ensures Swept(cuts, k + 1, inSf, outSf, cursor', kept')
  {
    UncutBehind(cuts, k, cuts[..k + 1], inSf, outSf, cursor, kept, cursor');
    CoversBefore(cuts, k, inSf, outSf, cursor, kept, start, end, kept');
    RunsBefore(cuts, k, inSf, outSf, cursor, kept, start, end, kept');
    assert cuts[k] in cuts;
    assert CutAt(cuts, end - 1);
  }

  lemma RunsBefore(cuts: seq<(int, int)>, k: nat, inSf: int, outSf: int, cursor: int, kept: seq<(int, int)>,
                   start: int, end: int, kept': seq<(int, int)>)
    requires SortedBy(CutLe, cuts) && k < |cuts| && Swept(cuts, k, inSf, outSf, cursor, kept)
    requires start == (if cuts[k].0 > inSf then cuts[k].0 else inSf) && start < end <= cuts[k].1 && end <= outSf
    requires kept' == if start > cursor then kept + [(cursor, start)] else kept
    ensures forall r | r in kept' ::
              Run(Free(cuts, inSf, outSf), 1, r.0, r.1) && r.1 < (if cursor > end then cursor else end)
    ensures Ascending(kept')
  {
    if start > cursor {
      ClosesRun(cuts, k, inSf, outSf, cursor, kept, start);
      assert forall j | 0 <= j < |kept| :: kept[j] in kept;
    }
  }

  lemma UncutBehind(cuts: seq<(int, int)>, k: nat, upTo: seq<(int, int)>, inSf: int, outSf: int, cursor: int,
                    kept: seq<(int, int)>, cursor': int)
    requires k < |cuts| && Swept(cuts, k, inSf, outSf, cursor, kept)
    requires cursor' >= cursor && upTo == cuts[..k + 1]
    requires cuts[k].0 >= outSf || cuts[k].1 <= cursor' || outSf <= cursor' || cuts[k].0 >= cuts[k].1
    ensures forall sf | cursor' <= sf < outSf :: !CutAt(upTo, sf)
  {
    forall sf | cursor' <= sf < outSf ensures !CutAt(upTo, sf) {
      CutAtNext(cuts, k, sf);
    }
  }

  lemma CoversBefore(cuts: seq<(int, int)>, k: nat, inSf: int, outSf: int, cursor: int, kept: seq<(int, int)>,
                     start: int, end: int, kept': seq<(int, int)>)
    requires k < |cuts| && Swept(cuts, k, inSf, outSf, cursor, kept)
    requires start == (if cuts[k].0 > inSf then cuts[k].0 else inSf) && start < end <= cuts[k].1
    requires kept' == if start > cursor then kept + [(cursor, start)] else kept
    ensures forall sf | (sf < cursor || sf < end) && Free(cuts, inSf, outSf)(sf) :: Covered(kept', sf)
  {
    forall sf | (sf < cursor || sf < end) && Free(cuts, inSf, outSf)(sf)
      ensures Covered(kept', sf)
    {
      if sf < cursor {
        assert Covered(kept, sf);
        var r :| r in kept && r.0 <= sf < r.1;
        assert r in kept';
      } else {
        assert sf < cuts[k].0 || CutAt(cuts, sf);
        assert (cursor, start).0 <= sf < (cursor, start).1;
        assert (cursor, start) in kept';
      }
    }
  }

  /** `_kept_ranges`. */
  method KeptRanges(inSf: int, outSf: int, cuts: seq<(int, int)>) returns (ranges: seq<(int, int)>)
    requires inSf < outSf
    ensures ListsRuns(Free(cuts, inSf, outSf), MIN_PIECE_FRAMES, ranges)
  {
    var ordered := Sort(CutLe, cuts);
    SortSorted(CutLe, cuts);
    var kept: seq<(int, int)> := [];
    var cursor := inSf;
    for k := 0 to |ordered|
      invariant Swept(ordered, k, inSf, outSf, cursor, kept)
    {
      ghost var cursor0, kept0 := cursor, kept;
      var start := if ordered[k].0 > inSf then ordered[k].0 else inSf;
      var end := if ordered[k].1 < outSf then ordered[k].1 else outSf;
      if start < end {
        if start > cursor {
          kept := kept + [(cursor, start)];
        }
        cursor := if cursor > end then cursor else end;
      }
      SweepStep(ordered, k, inSf, outSf, cursor0, kept0, cursor, kept);
    }
    ghost var before := kept;
    if cursor < outSf {
      kept := kept + [(cursor, outSf)];
    }
    SweepEnds(ordered, inSf, outSf, cursor, before, kept);
    DropShortRuns(Free(ordered, inSf, outSf), kept);
    ranges := DropShort(kept);
    SortMembers(CutLe, cuts);
    SameRuns(Free(ordered, inSf, outSf), Free(cuts, inSf, outSf), ranges);
  }

  lemma SweepEnds(cuts: seq<(int, int)>, inSf: int, outSf: int, cursor: int, kept: seq<(int, int)>,
                  kept': seq<(int, int)>)
    requires Swept(cuts, |cuts|, inSf, outSf, cursor, kept)
    requires kept' == if cursor < outSf then kept + [(cursor, outSf)] else kept
    ensures ListsRuns(Free(cuts, inSf, outSf), 1, kept')
  {
    assert cuts[..|cuts|] == cuts;
    var free := Free(cuts, inSf, outSf);
    assert forall j | 0 <= j < |kept| :: kept[j] in kept;
    forall sf | free(sf) ensures Covered(kept', sf) {
      if sf < cursor {
        assert Covered(kept, sf);
        var r :| r in kept && r.0 <= sf < r.1;
        assert r in kept';
      } else {
        assert (cursor, outSf) in kept' && (cursor, outSf).0 <= sf < (cursor, outSf).1;
      }
    }
    CoverListsRuns(free, kept');
  }

  lemma SameRuns(free: int -> bool, free': int -> bool, l: seq<(int, int)>)
    requires forall sf :: free(sf) == free'(sf)
    requires ListsRuns(free, MIN_PIECE_FRAMES, l)
    ensures ListsRuns(free', MIN_PIECE_FRAMES, l)
  {
    assert forall lo, hi :: Run(free', MIN_PIECE_FRAMES, lo, hi) ==> Run(free, MIN_PIECE_FRAMES, lo, hi);
  }

  ghost predicate ValidRemovals(removals: seq<Removal>) {
    forall k | 0 <= k < |removals| :: removals[k].inSf < removals[k].outSf
  }

  ghost predicate ValidSegments(segments: seq<Segment>) {
    forall k | 0 <= k < |segments| :: 0 <= segments[k].inSf < segments[k].outSf
  }

  /** The cuts filed under each name cut exactly the frames its removals remove. */
  ghost predicate Grouped(cuts: map<string, seq<(int, int)>>, removals: seq<Removal>) {
    forall id, sf {:trigger Removed(removals, id, sf)} ::
      CutAt(if id in cuts then cuts[id] else [], sf) == Removed(removals, id, sf)
  }

  lemma GroupedNext(before: map<string, seq<(int, int)>>, cuts: map<string, seq<(int, int)>>,
                    removals: seq<Removal>, removal: Removal)
    requires Grouped(before, removals)
    requires cuts == before[removal.seg := (if removal.seg in before then before[removal.seg] else [])
                                           + [(removal.inSf, removal.outSf)]]
    ensures Grouped(cuts, removals + [removal])
  {
    forall id, sf
      ensures CutAt(if id in cuts then cuts[id] else [], sf) == Removed(removals + [removal], id, sf)
    {
      assert Removed(removals + [removal], id, sf)
         <==> Removed(removals, id, sf) || (removal.seg == id && removal.inSf <= sf < removal.outSf);
      var mine := if id in before then before[id] else [];
      if id == removal.seg {
        assert cuts[id] == mine + [(removal.inSf, removal.outSf)];
      }
    }
  }

  /** The first loop of `pieces`: removals checked and filed by segment name. */
  method GroupCuts(removals: seq<Removal>) returns (ok: bool, cuts: map<string, seq<(int, int)>>)
    ensures ok <==> ValidRemovals(removals)
    ensures ok ==> Grouped(cuts, removals)
  {
    cuts := map[];
    for k := 0 to |removals|
      invariant ValidRemovals(removals[..k])
      invariant Grouped(cuts, removals[..k])
    {
      var start, end := removals[k].inSf, removals[k].outSf;
      if end <= start {
        return false, cuts;
      }
      var seg := removals[k].seg;
      ghost var before := cuts;
      cuts := cuts[seg := (if seg in cuts then cuts[seg] else []) + [(start, end)]];
      GroupedNext(before, cuts, removals[..k], removals[k]);
      assert removals[..k + 1] == removals[..k] + [removals[k]];
    }
    assert removals[..|removals|] == removals;
    ok := true;
  }

  /** `pieces` of the production time map: the same pieces as `ref_pieces`, or a ValueError exactly
      when a removal or a segment is empty, reversed or (a segment) negative. */
  method SweepPieces(segments: seq<Segment>, removals: seq<Removal>) returns (r: Outcome)
    ensures r.Ok? <==> ValidRemovals(removals) && ValidSegments(segments)
    ensures r.Ok? ==> r.pieces == PiecesOf(segments, removals)
  {
    var ok, cuts := GroupCuts(removals);
    if !ok {
      return Invalid;
    }
    var result: seq<Piece> := [];
    var outF0: nat := 0;
    ghost var goal := PiecesOf(segments, removals);
    assert segments[0..] == segments;
    ghost var tail := goal;
    for s := 0 to |segments|
      invariant forall k | 0 <= k < s :: 0 <= segments[k].inSf < segments[k].outSf
      invariant tail == From(segments[s..], removals, |result|, outF0)
      invariant goal == result + tail
    {
      if segments[s].inSf < 0 || segments[s].outSf <= segments[s].inSf {
        return Invalid;
      }
      result, outF0, tail := SweepSegment(segments, removals, cuts, s, result, outF0, tail);
    }
    r := Ok(result);
  }

  /** The pieces of one segment, behind those of the segments before it. */
  method SweepSegment(segments: seq<Segment>, ghost removals: seq<Removal>, cuts: map<string, seq<(int, int)>>, s: nat,
                      before: seq<Piece>, f0: nat, ghost tail: seq<Piece>)
      returns (result: seq<Piece>, outF0: nat, ghost rest: seq<Piece>)
    requires s < |segments| && segments[s].inSf < segments[s].outSf && Grouped(cuts, removals)
    requires tail == From(segments[s..], removals, |before|, f0)
    ensures rest == From(segments[s + 1..], removals, |result|, outF0)
    ensures before + tail == result + rest
  {
    var segment := segments[s];
    var ranges := SegmentRanges(segment, removals, cuts);
    ghost var head := Lay(ranges, segment, |before|, f0);
    rest := FromUnfold(segments, removals, s, |before|, f0, head);
    Associate(before, head, rest);
    result, outF0 := AppendRanges(segment, ranges, before, f0);
  }

  method SegmentRanges(segment: Segment, ghost removals: seq<Removal>, cuts: map<string, seq<(int, int)>>)
      returns (ranges: seq<(int, int)>)
    requires segment.inSf < segment.outSf && Grouped(cuts, removals)
    ensures ranges == SegmentRuns(segment, removals) && Long(ranges)
  {
    SegmentRunsLong(segment, removals);
    var own := if segment.id in cuts then cuts[segment.id] else [];
    ranges := KeptRanges(segment.inSf, segment.outSf, own);
    SweepMatchesScan(segment, removals, cuts, own, ranges);
  }

  lemma SweepMatchesScan(segment: Segment, removals: seq<Removal>, cuts: map<string, seq<(int, int)>>,
                         own: seq<(int, int)>, ranges: seq<(int, int)>)
    requires Grouped(cuts, removals)
    requires own == if segment.id in cuts then cuts[segment.id] else []
    requires ListsRuns(Free(own, segment.inSf, segment.outSf), MIN_PIECE_FRAMES, ranges)
    ensures ranges == SegmentRuns(segment, removals)
  {
    forall sf
      ensures Free(own, segment.inSf, segment.outSf)(sf) == Shown(segment, removals)(sf)
    {
      assert CutAt(own, sf) == Removed(removals, segment.id, sf);
    }
    SameRuns(Free(own, segment.inSf, segment.outSf), Shown(segment, removals), ranges);
    SegmentRunsAreRuns(segment, removals);
    RunListUnique(Shown(segment, removals), MIN_PIECE_FRAMES, ranges, SegmentRuns(segment, removals));
  }

  /** The inner loop of `pieces`: the ranges laid back to back. */
  method AppendRanges(segment: Segment, ranges: seq<(int, int)>, done: seq<Piece>, start: nat)
      returns (result: seq<Piece>, outF0: nat)
    requires forall k | 0 <= k < |ranges| :: ranges[k].0 <= ranges[k].1
    ensures result == done + Lay(ranges, segment, |done|, start)
    ensures outF0 == start + Total(Lay(ranges, segment, |done|, start))
  {
    result, outF0 := done, start;
    ghost var laid: seq<Piece> := [];
    for k := 0 to |ranges|
      invariant laid == Lay(ranges[..k], segment, |done|, start)
      invariant result == done + laid && outF0 == start + Total(laid)
    {
      var frames := ranges[k].1 - ranges[k].0;
      var piece := Piece(|result|, segment.id, segment.role, ranges[k].0, ranges[k].1, outF0, frames);
      LayNext(ranges[..k], ranges[k], segment, |done|, start, piece);
      assert ranges[..k + 1] == ranges[..k] + [ranges[k]];
      assert result + [piece] == done + (laid + [piece]);
      result, laid, outF0 := result + [piece], laid + [piece], outF0 + frames;
    }
    assert ranges[..|ranges|] == ranges;
  }
}
