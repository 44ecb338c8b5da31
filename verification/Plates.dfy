/** The plate cells and the frames played from them (`Workspace.cells` and `plate_sequence` of
    `scripts/parity/frame_identity.py`). */
module Plates {
  import opened OutputMap
  import opened Pieces

  /** A rendered cell: one that some source frame on screen falls into. */
  ghost predicate Wanted(l: seq<Piece>, size: nat, k: int)
    requires size > 0
  {
    exists n, p, sf :: FoundAt(l, n, p, sf) && sf / size == k
  }

  /** The frame of the cells for what is on screen at `n`, without a cache: `sf` counts from the first frame
      of cell 0. */
  ghost predicate PlaysAt<Frame>(l: seq<Piece>, size: nat, decode: int -> seq<Frame>, n: int, frame: Frame)
    requires size > 0
  {
    exists p, sf :: FoundAt(l, n, p, sf) && sf % size < |decode(sf / size)| && frame == decode(sf / size)[sf % size]
  }

  /** The decoded files hold the frames that are read from them. */
  ghost predicate CellsHold<Frame>(l: seq<Piece>, size: nat, decode: int -> seq<Frame>)
    requires size > 0
  {
    forall n, p, sf | FoundAt(l, n, p, sf) :: sf % size < |decode(sf / size)|
  }

  /** `plate_sequence`: with one cached cell the frames are those without a cache; only rendered cells
      are decoded, every one of them is, and none twice in a row. */
  method PlateSequence<Frame>(l: seq<Piece>, size: nat, decode: int -> seq<Frame>)
      returns (frames: seq<Frame>, decoded: seq<int>)
    requires TilesFrom(l, 0, 0) && size > 0 && CellsHold(l, size, decode)
    ensures |frames| == Total(l) && forall n | 0 <= n < |frames| :: PlaysAt(l, size, decode, n, frames[n])
    ensures forall k :: k in decoded <==> Wanted(l, size, k)
    ensures forall i | 0 < i < |decoded| :: decoded[i] != decoded[i - 1]
  {
    frames, decoded := [], [];
    var cached: seq<Frame> := [];
    for n := 0 to Total(l)
      invariant |frames| == n && forall m | 0 <= m < n :: PlaysAt(l, size, decode, m, frames[m])
      invariant forall i | 0 <= i < |decoded| :: Wanted(l, size, decoded[i])
      invariant forall m, p, sf | m < n && FoundAt(l, m, p, sf) :: sf / size in decoded
      invariant forall i | 0 < i < |decoded| :: decoded[i] != decoded[i - 1]
      invariant decoded != [] ==> cached == decode(decoded[|decoded| - 1])
    {
      var found := OutToSrc(n, l);
      var k := found.sf / size;
      assert Wanted(l, size, k);
      if decoded == [] || k != decoded[|decoded| - 1] {
        decoded := decoded + [k];
        cached := decode(k);
      }
      frames := frames + [cached[found.sf % size]];
      OnlyOneFound(l, n, found.piece, found.sf);
    }
    forall k | Wanted(l, size, k) ensures k in decoded {
      var m, p, sf :| FoundAt(l, m, p, sf) && sf / size == k;
      FoundInside(l, m, p, sf);
    }
  }

  lemma OnlyOneFound(l: seq<Piece>, n: int, p: Piece, sf: int)
    requires TilesFrom(l, 0, 0) && FoundAt(l, n, p, sf)
    ensures forall q, sf' | FoundAt(l, n, q, sf') :: q == p && sf' == sf
  {
    ShownOnce(l, n);
    forall q, sf' | FoundAt(l, n, q, sf') ensures q == p {
      var j :| 0 <= j < |l| && l[j] == p;
      var k :| 0 <= k < |l| && l[k] == q;
      assert Shows(l[j], n) && Shows(l[k], n);
    }
  }

  lemma FoundInside(l: seq<Piece>, n: int, p: Piece, sf: int)
    requires TilesFrom(l, 0, 0) && FoundAt(l, n, p, sf)
    ensures 0 <= n < Total(l)
  {
    ShownOnce(l, n);
    var k :| 0 <= k < |l| && l[k] == p;
    assert Shows(l[k], n);
  }

  /** Frame `sf` of the piece falls into cell `k`. */
  ghost predicate FallsInto(p: Piece, size: nat, sf: int, k: int)
    requires size > 0
  {
    p.inSf <= sf < p.outSf && sf / size == k
  }

  /** `wanted` of `Workspace.cells`: the same cells, listed from the pieces. */
  lemma WantedFromPieces(l: seq<Piece>, size: nat, k: int)
    requires TilesFrom(l, 0, 0) && size > 0
    ensures Wanted(l, size, k) <==> exists j, sf :: 0 <= j < |l| && FallsInto(l[j], size, sf, k)
  {
    if Wanted(l, size, k) {
      var n, p, sf :| FoundAt(l, n, p, sf) && sf / size == k;
      var j :| 0 <= j < |l| && l[j] == p;
      TilesAt(l, 0, 0, j);
      assert FallsInto(l[j], size, sf, k);
    }
    if j, sf :| 0 <= j < |l| && FallsInto(l[j], size, sf, k) {
      TilesAt(l, 0, 0, j);
      assert FoundAt(l, l[j].outF0 + (sf - l[j].inSf), l[j], sf);
    }
  }
}
