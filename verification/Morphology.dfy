/** Erosion and dilation in two passes: `interior_mask` of `scripts/parity/compare.py` and
    `text_mask` of `scripts/parity/join_gates.py`. */
module Morphology {
  import opened Images
  import opened Rows

  // --- interior_mask ----------------------------------------------------------------------------------

  ghost predicate Exact(a: Image, target: seq<Byte>, x: int, y: int)
    requires WellFormed(a)
  {
    Inside(a, x, y) && Pixel(a, x, y) == target
  }

  /** The pixel and its `r` neighbours on both sides of its row. */
  ghost predicate ExactRun(a: Image, target: seq<Byte>, r: nat, x: int, y: int)
    requires WellFormed(a)
  {
    forall u | x - r <= u <= x + r :: Exact(a, target, u, y)
  }

  /** The whole `(2r+1)` square, all of it inside the image. */
  ghost predicate ExactSquare(a: Image, target: seq<Byte>, r: nat, x: int, y: int)
    requires WellFormed(a)
  {
    forall u, v | x - r <= u <= x + r && y - r <= v <= y + r :: Exact(a, target, u, v)
  }

  predicate All(flags: seq<bool>) {
    forall k | 0 <= k < |flags| :: flags[k]
  }

  /** Row `y` of `exact`. */
  method ExactLine(a: Image, target: seq<Byte>, y: nat) returns (line: seq<bool>)
    requires WellFormed(a) && y < a.height
    ensures |line| == a.width
    ensures forall x | 0 <= x < a.width :: line[x] <==> Exact(a, target, x, y)
  {
    line := [];
    for x := 0 to a.width
      invariant |line| == x
      invariant forall u | 0 <= u < x :: line[u] <==> Exact(a, target, u, y)
    {
      line := line + [Pixel(a, x, y) == target];
    }
  }

  /** Row `y` of `horizontal`: the positions without room for a whole run stay false. */
  method HorizontalLine(a: Image, target: seq<Byte>, r: nat, y: nat) returns (runs: seq<bool>)
    requires WellFormed(a) && y < a.height
    ensures |runs| == a.width
    ensures forall x | 0 <= x < a.width :: runs[x] <==> ExactRun(a, target, r, x, y)
  {
    var line := ExactLine(a, target, y);
    runs := [];
    for x := 0 to a.width
      invariant |runs| == x
      invariant forall u | 0 <= u < x :: runs[u] <==> ExactRun(a, target, r, u, y)
    {
      var fits := r <= x < a.width - r;
      var run := fits && All(line[x - r..x + r + 1]);
      if fits {
        var part := line[x - r..x + r + 1];
        assert forall u | x - r <= u <= x + r :: part[u - (x - r)] == line[u];
      } else {
        assert !Exact(a, target, x - r, y) || !Exact(a, target, x + r, y);
      }
      runs := runs + [run];
    }
  }

  /** Erosion by rows, then by columns, is erosion by the square. */
  lemma RunsMakeSquare(a: Image, target: seq<Byte>, r: nat, x: int, y: int)
    requires WellFormed(a)
    ensures ExactSquare(a, target, r, x, y) <==> forall v | y - r <= v <= y + r :: ExactRun(a, target, r, x, v)
  {
    if forall v | y - r <= v <= y + r :: ExactRun(a, target, r, x, v) {
      forall u, v | x - r <= u <= x + r && y - r <= v <= y + r ensures Exact(a, target, u, v) {
        assert ExactRun(a, target, r, x, v);
      }
    }
  }

  method HorizontalRuns(a: Image, target: seq<Byte>, r: nat) returns (horizontal: seq<seq<bool>>)
    requires WellFormed(a)
    ensures |horizontal| == a.height && forall y | 0 <= y < a.height :: |horizontal[y]| == a.width
    ensures forall x, y | Inside(a, x, y) :: horizontal[y][x] <==> ExactRun(a, target, r, x, y)
  {
    horizontal := [];
    for y := 0 to a.height
      invariant |horizontal| == y && forall v | 0 <= v < y :: |horizontal[v]| == a.width
      invariant forall x, v | 0 <= v < y && 0 <= x < a.width :: horizontal[v][x] <==> ExactRun(a, target, r, x, v)
    {
      var line := HorizontalLine(a, target, r, y);
      horizontal := horizontal + [line];
    }
  }

  /** `all(horizontal[yy][x] for yy in ...)`. */
  method ColumnAll(ghost a: Image, ghost target: seq<Byte>, ghost r: nat, horizontal: seq<seq<bool>>, x: int,
                   y0: int, y1: int)
    returns (all: bool)
    requires WellFormed(a) && 0 <= x < a.width && 0 <= y0 <= y1 <= a.height
    requires |horizontal| == a.height && forall y | 0 <= y < a.height :: |horizontal[y]| == a.width
    requires forall x, y | Inside(a, x, y) :: horizontal[y][x] <==> ExactRun(a, target, r, x, y)
    ensures all <==> forall v | y0 <= v < y1 :: ExactRun(a, target, r, x, v)
  {
    for v := y0 to y1
      invariant forall u | y0 <= u < v :: ExactRun(a, target, r, x, u)
    {
      assert Inside(a, x, v);
      if !horizontal[v][x] {
        return false;
      }
    }
    return true;
  }

  lemma NoSquareAtTheEdge(a: Image, target: seq<Byte>, r: nat, x: int, y: int)
    requires WellFormed(a) && !(r <= x < a.width - r && r <= y < a.height - r)
    ensures !ExactSquare(a, target, r, x, y)
  {
    assert !Exact(a, target, x - r, y - r) || !Exact(a, target, x + r, y + r);
  }

  /** `bytes(color[:c])`. */
  function Target(color: seq<Byte>, c: nat): seq<Byte> {
    if c <= |color| then color[..c] else color
  }

  /** `interior_mask`: exactly the pixels whose whole square has the colour. */
  method InteriorMask(a: Image, color: seq<Byte>, radius: nat) returns (mask: set<(int, int)>)
    requires WellFormed(a)
    ensures forall x, y ::
      (x, y) in mask <==>
        ExactSquare(a, if a.channels <= |color| then color[..a.channels] else color, radius, x, y)
  {
    var target := Target(color, a.channels);
    var horizontal := HorizontalRuns(a, target, radius);
    mask := {};
    for y := radius to if radius <= a.height - radius then a.height - radius else radius
      invariant forall u, v ::
        (u, v) in mask <==> (radius <= u < a.width - radius && radius <= v < y && ExactSquare(a, target, radius, u, v))
    {
      for x := radius to if radius <= a.width - radius then a.width - radius else radius
        invariant forall u, v ::
          (u, v) in mask <==> (radius <= u < a.width - radius && radius <= v && (v < y || (v == y && u < x))
                               && ExactSquare(a, target, radius, u, v))
      {
        var all := ColumnAll(a, target, radius, horizontal, x, y - radius, y + radius + 1);
        RunsMakeSquare(a, target, radius, x, y);
        if all {
          mask := mask + {(x, y)};
        }
      }
    }
    forall x, y | !(radius <= x < a.width - radius && radius <= y < a.height - radius)
      ensures !ExactSquare(a, target, radius, x, y)
    {
      NoSquareAtTheEdge(a, target, radius, x, y);
    }
  }

  // --- text_mask: planes --------------------------------------------------------------------------------

  const CHROMA_REACH: int := 3

  predicate InGrid(w: nat, h: nat, x: int, y: int) {
    0 <= x < w && 0 <= y < h
  }

  /** The index of a sample in a plane `w` samples wide. */
  function Index(w: nat, x: int, y: int): int {
    y * w + x
  }

  lemma IndexFits(w: nat, h: nat, x: int, y: int)
    requires InGrid(w, h, x, y)
    ensures 0 <= Index(w, x, y) < w * h
  {
    assert y * w <= (h - 1) * w;
    assert (h - 1) * w == w * h - w;
  }

  lemma IndexTells(w: nat, h: nat, x: int, y: int, u: int, v: int)
    requires InGrid(w, h, x, y) && InGrid(w, h, u, v)
    ensures Index(w, x, y) == Index(w, u, v) <==> x == u && y == v
  {
    if y < v {
      assert (y + 1) * w <= v * w;
    } else if v < y {
      assert (v + 1) * w <= y * w;
    }
  }

  /** The flag at a sample. */
  ghost predicate At(plane: seq<bool>, w: nat, x: int, y: int) {
    0 <= Index(w, x, y) < |plane| && plane[Index(w, x, y)]
  }

  lemma SetAt(plane: seq<bool>, w: nat, h: nat, x: int, y: int, u: int, v: int)
    requires |plane| == w * h && InGrid(w, h, x, y) && InGrid(w, h, u, v)
    ensures 0 <= Index(w, x, y) < |plane|
    ensures At(plane[Index(w, x, y) := true], w, u, v) <==> At(plane, w, u, v) || (u == x && v == y)
  {
    IndexFits(w, h, x, y);
    IndexFits(w, h, u, v);
    IndexTells(w, h, x, y, u, v);
  }

  /** Within three samples along both axes. */
  predicate Within(p: int, q: int, u: int, v: int) {
    -3 <= u - p <= 3 && -3 <= v - q <= 3
  }

  /** Within reach along one axis: 0 along the row, 1 along the column. */
  predicate Near(axis: int, x: int, y: int, u: int, v: int) {
    if axis == 0 then v == y && -CHROMA_REACH <= u - x <= CHROMA_REACH
    else u == x && -CHROMA_REACH <= v - y <= CHROMA_REACH
  }

  // --- text_mask: the passes ------------------------------------------------------------------------------

  /** The inner loop: every sample near `(x, y)` along the axis is set. */
  method Spread(wide: array<bool>, w: nat, h: nat, axis: int, x: int, y: int)
    requires wide.Length == w * h && InGrid(w, h, x, y)
    modifies wide
    ensures forall u, v | InGrid(w, h, u, v) ::
      At(wide[..], w, u, v) <==> At(old(wide[..]), w, u, v) || Near(axis, x, y, u, v)
  {
    var at, end := if axis == 0 then x else y, if axis == 0 then w else h;
    var from := if at - CHROMA_REACH > 0 then at - CHROMA_REACH else 0;
    var to := if at + CHROMA_REACH + 1 < end then at + CHROMA_REACH + 1 else end;
    ghost var was := wide[..];
    for d := from to to
      invariant forall u, v | InGrid(w, h, u, v) ::
        At(wide[..], w, u, v) <==> At(was, w, u, v) || (Near(axis, x, y, u, v) && (if axis == 0 then u else v) < d)
    {
      var px, py := if axis == 0 then d else x, if axis == 0 then y else d;
      SetOne(wide, w, h, px, py);
    }
  }

  method SetOne(wide: array<bool>, w: nat, h: nat, x: int, y: int)
    requires wide.Length == w * h && InGrid(w, h, x, y)
    modifies wide
    ensures forall u, v | InGrid(w, h, u, v) ::
      At(wide[..], w, u, v) <==> At(old(wide[..]), w, u, v) || (u == x && v == y)
  {
    ghost var was := wide[..];
    IndexFits(w, h, x, y);
    wide[Index(w, x, y)] := true;
    assert wide[..] == was[Index(w, x, y) := true];
    forall u, v | InGrid(w, h, u, v) ensures At(wide[..], w, u, v) <==> At(was, w, u, v) || (u == x && v == y) {
      SetAt(was, w, h, x, y, u, v);
    }
  }

  /** Samples in reading order before `(x, y)`. */
  predicate Before(u: int, v: int, x: int, y: int) {
    v < y || (v == y && u < x)
  }

  /** A set sample, read before `(x, y)`, reaches `(u, v)` along the axis. */
  ghost predicate Reached(changed: seq<bool>, w: nat, h: nat, axis: int, x: int, y: int, u: int, v: int) {
    exists p, q :: InGrid(w, h, p, q) && Before(p, q, x, y) && At(changed, w, p, q) && Near(axis, p, q, u, v)
  }

  lemma ReachedNext(changed: seq<bool>, w: nat, h: nat, axis: int, x: int, y: int, u: int, v: int)
    requires InGrid(w, h, x, y)
    ensures Reached(changed, w, h, axis, x + 1, y, u, v)
       <==> Reached(changed, w, h, axis, x, y, u, v) || (At(changed, w, x, y) && Near(axis, x, y, u, v))
  {
    if At(changed, w, x, y) && Near(axis, x, y, u, v) {
      assert Before(x, y, x + 1, y);
    }
  }

  lemma ReachedNextRow(changed: seq<bool>, w: nat, h: nat, axis: int, y: int, u: int, v: int)
    ensures Reached(changed, w, h, axis, w, y, u, v) <==> Reached(changed, w, h, axis, 0, y + 1, u, v)
  {
    if Reached(changed, w, h, axis, 0, y + 1, u, v) {
      var p, q :| InGrid(w, h, p, q) && Before(p, q, 0, y + 1) && At(changed, w, p, q) && Near(axis, p, q, u, v);
      assert Before(p, q, w, y);
    }
    if Reached(changed, w, h, axis, w, y, u, v) {
      var p, q :| InGrid(w, h, p, q) && Before(p, q, w, y) && At(changed, w, p, q) && Near(axis, p, q, u, v);
      assert Before(p, q, 0, y + 1);
    }
  }

  /** What a pass has set when it has read everything before `(x, y)`. */
  ghost predicate Passed(changed: seq<bool>, w: nat, h: nat, axis: int, x: int, y: int, wide: seq<bool>) {
    forall u, v | InGrid(w, h, u, v) :: At(wide, w, u, v) <==> Reached(changed, w, h, axis, x, y, u, v)
  }

  /** One pass over the plane. */
  method Dilate(changed: array<bool>, w: nat, h: nat, axis: int) returns (wide: array<bool>)
    requires changed.Length == w * h
    ensures fresh(wide) && wide.Length == w * h && Passed(changed[..], w, h, axis, 0, h, wide[..])
  {
    wide := new bool[w * h](_ => false);
    for y := 0 to h
      invariant fresh(wide) && wide.Length == w * h && Passed(changed[..], w, h, axis, 0, y, wide[..])
    {
      for x := 0 to w
        invariant Passed(changed[..], w, h, axis, x, y, wide[..])
      {
        Step(changed, wide, w, h, axis, x, y);
      }
      PassedRow(changed[..], w, h, axis, y, wide[..]);
    }
  }

  lemma PassedRow(changed: seq<bool>, w: nat, h: nat, axis: int, y: int, wide: seq<bool>)
    requires Passed(changed, w, h, axis, w, y, wide)
    ensures Passed(changed, w, h, axis, 0, y + 1, wide)
  {
    forall u, v | InGrid(w, h, u, v) ensures At(wide, w, u, v) <==> Reached(changed, w, h, axis, 0, y + 1, u, v) {
      ReachedNextRow(changed, w, h, axis, y, u, v);
    }
  }

  /** One sample of a pass. */
  method Step(changed: array<bool>, wide: array<bool>, w: nat, h: nat, axis: int, x: int, y: int)
    requires changed.Length == w * h && wide.Length == w * h && changed != wide && InGrid(w, h, x, y)
    requires Passed(changed[..], w, h, axis, x, y, wide[..])
    modifies wide
    ensures Passed(changed[..], w, h, axis, x + 1, y, wide[..])
  {
    ghost var was := wide[..];
    IndexFits(w, h, x, y);
    var flag := changed[Index(w, x, y)];
    if flag {
      Spread(wide, w, h, axis, x, y);
    }
    forall u, v | InGrid(w, h, u, v)
      ensures At(wide[..], w, u, v) <==> Reached(changed[..], w, h, axis, x + 1, y, u, v)
    {
      ReachedNext(changed[..], w, h, axis, x, y, u, v);
    }
  }

  /** Some set sample within reach in both directions. */
  ghost predicate NearSet(changed: seq<bool>, w: nat, h: nat, u: int, v: int) {
    exists p, q :: InGrid(w, h, p, q) && At(changed, w, p, q) && Within(p, q, u, v)
  }

  /** A finished pass, sample by sample. */
  lemma PassedAt(changed: seq<bool>, w: nat, h: nat, axis: int, wide: seq<bool>, u: int, v: int)
    requires Passed(changed, w, h, axis, 0, h, wide) && InGrid(w, h, u, v)
    ensures At(wide, w, u, v) <==>
      exists p, q :: InGrid(w, h, p, q) && At(changed, w, p, q) && Near(axis, p, q, u, v)
  {
    if p, q :| InGrid(w, h, p, q) && At(changed, w, p, q) && Near(axis, p, q, u, v) {
      assert Before(p, q, 0, h);
    }
  }

  /** `to` holds where `from` holds within reach along the axis. */
  ghost predicate Reaches(from: (int, int) -> bool, w: nat, h: nat, axis: int, to: (int, int) -> bool) {
    forall u, v {:trigger to(u, v)} | InGrid(w, h, u, v) ::
      to(u, v) <==> exists p, q {:trigger from(p, q)} :: InGrid(w, h, p, q) && from(p, q) && Near(axis, p, q, u, v)
  }

  /** Dilation by rows, then by columns, is dilation by the square. */
  lemma TwoPasses(w: nat, h: nat, from: (int, int) -> bool, rows: (int, int) -> bool, both: (int, int) -> bool,
                  u: int, v: int)
    requires Reaches(from, w, h, 0, rows) && Reaches(rows, w, h, 1, both) && InGrid(w, h, u, v)
    ensures both(u, v) <==>
      exists p, q {:trigger from(p, q)} :: InGrid(w, h, p, q) && from(p, q) && Within(p, q, u, v)
  {
    if both(u, v) {
      var p, q :| InGrid(w, h, p, q) && rows(p, q) && Near(1, p, q, u, v);
      var s, t :| InGrid(w, h, s, t) && from(s, t) && Near(0, s, t, p, q);
    }
    if p, q {:trigger from(p, q)} :| InGrid(w, h, p, q) && from(p, q) && Within(p, q, u, v) {
      assert Near(0, p, q, u, q) && InGrid(w, h, u, q) && rows(u, q);
      assert Near(1, u, q, u, v);
    }
  }

  lemma PassesMakeSquare(changed: seq<bool>, rows: seq<bool>, both: seq<bool>, w: nat, h: nat, u: int, v: int)
    requires Passed(changed, w, h, 0, 0, h, rows) && Passed(rows, w, h, 1, 0, h, both) && InGrid(w, h, u, v)
    ensures At(both, w, u, v) <==> NearSet(changed, w, h, u, v)
  {
    var a, b, c := (x, y) => At(changed, w, x, y), (x, y) => At(rows, w, x, y), (x, y) => At(both, w, x, y);
    PassReaches(changed, w, h, 0, rows, a, b);
    PassReaches(rows, w, h, 1, both, b, c);
    TwoPasses(w, h, a, b, c, u, v);
  }

  lemma PassReaches(changed: seq<bool>, w: nat, h: nat, axis: int, wide: seq<bool>, from: (int, int) -> bool,
                    to: (int, int) -> bool)
    requires Passed(changed, w, h, axis, 0, h, wide)
    requires forall x, y :: from(x, y) <==> At(changed, w, x, y)
    requires forall x, y :: to(x, y) <==> At(wide, w, x, y)
    ensures Reaches(from, w, h, axis, to)
  {
    forall u, v | InGrid(w, h, u, v)
      ensures to(u, v) <==> exists p, q :: InGrid(w, h, p, q) && from(p, q) && Near(axis, p, q, u, v)
    {
      PassedAt(changed, w, h, axis, wide, u, v);
    }
  }

  // --- text_mask ------------------------------------------------------------------------------------------

  /** A `yuv420p` frame: an even size, the luma plane, then two planes of half the width and height. */
  predicate Frame(frame: seq<Byte>, width: nat, height: nat) {
    width % 2 == 0 && height % 2 == 0
    && |frame| == width * height + 2 * ((width / 2) * (height / 2))
  }

  /** Either chroma plane differs at this sample. */
  ghost predicate ChromaDiffers(cut: seq<Byte>, notext: seq<Byte>, width: nat, height: nat, u: int, v: int)
    requires Frame(cut, width, height) && Frame(notext, width, height)
    requires InGrid(width / 2, height / 2, u, v)
  {
    IndexFits(width / 2, height / 2, u, v);
    var i := width * height + Index(width / 2, u, v);
    var j := i + (width / 2) * (height / 2);
    cut[i] != notext[i] || cut[j] != notext[j]
  }

  ghost predicate LumaDiffers(cut: seq<Byte>, notext: seq<Byte>, width: nat, height: nat, x: int, y: int)
    requires Frame(cut, width, height) && Frame(notext, width, height) && InGrid(width, height, x, y)
  {
    IndexFits(width, height, x, y);
    cut[Index(width, x, y)] != notext[Index(width, x, y)]
  }

  /** `changed` after both planes. */
  method ChangedChroma(cut: seq<Byte>, notext: seq<Byte>, width: nat, height: nat) returns (changed: array<bool>)
    requires Frame(cut, width, height) && Frame(notext, width, height)
    ensures fresh(changed) && changed.Length == (width / 2) * (height / 2)
    ensures forall u, v | InGrid(width / 2, height / 2, u, v) ::
      At(changed[..], width / 2, u, v) <==> ChromaDiffers(cut, notext, width, height, u, v)
  {
    var luma, size := width * height, (width / 2) * (height / 2);
    changed := new bool[size](_ => false);
    for plane := 0 to 2
      invariant fresh(changed) && changed.Length == size
      invariant forall i | 0 <= i < size ::
        changed[i] <==> ((plane > 0 && cut[luma + i] != notext[luma + i])
                         || (plane > 1 && cut[luma + size + i] != notext[luma + size + i]))
    {
      var offset := luma + if plane == 0 then 0 else size;
      MarkPlane(changed, cut, notext, offset);
    }
    forall u, v | InGrid(width / 2, height / 2, u, v)
      ensures At(changed[..], width / 2, u, v) <==> ChromaDiffers(cut, notext, width, height, u, v)
    {
      IndexFits(width / 2, height / 2, u, v);
    }
  }

  method MarkPlane(changed: array<bool>, cut: seq<Byte>, notext: seq<Byte>, offset: nat)
    requires offset + changed.Length <= |cut| == |notext|
    modifies changed
    ensures forall i | 0 <= i < changed.Length ::
      changed[i] <==> old(changed[i]) || cut[offset + i] != notext[offset + i]
  {
    for index := 0 to changed.Length
      invariant forall i | index <= i < changed.Length :: changed[i] == old(changed[i])
      invariant forall i | 0 <= i < index :: changed[i] <==> old(changed[i]) || cut[offset + i] != notext[offset + i]
    {
      if cut[offset + index] != notext[offset + index] {
        changed[index] := true;
      }
    }
  }

  /** The samples within `CHROMA_REACH` of a changed one, in both directions. */
  method WideChroma(changed: array<bool>, w: nat, h: nat) returns (wide: array<bool>)
    requires changed.Length == w * h
    ensures fresh(wide) && wide.Length == w * h
    ensures forall u, v | InGrid(w, h, u, v) :: At(wide[..], w, u, v) <==> NearSet(changed[..], w, h, u, v)
  {
    var rows := Dilate(changed, w, h, 0);
    wide := Dilate(rows, w, h, 1);
    forall u, v | InGrid(w, h, u, v) ensures At(wide[..], w, u, v) <==> NearSet(changed[..], w, h, u, v) {
      PassesMakeSquare(changed[..], rows[..], wide[..], w, h, u, v);
    }
  }

  /** A chroma sample within reach of the pixel's own that differs in some plane. */
  ghost predicate ReadsChange(cut: seq<Byte>, notext: seq<Byte>, width: nat, height: nat, x: int, y: int)
    requires Frame(cut, width, height) && Frame(notext, width, height)
  {
    exists u, v :: InGrid(width / 2, height / 2, u, v) && ChromaDiffers(cut, notext, width, height, u, v)
      && Within(u, v, x / 2, y / 2)
  }

  /** `text_mask`: exactly the pixels whose luma changed or that read a changed chroma sample. */
  method TextMask(cut: seq<Byte>, notext: seq<Byte>, width: nat, height: nat) returns (mask: array<bool>)
    requires Frame(cut, width, height) && Frame(notext, width, height)
    ensures fresh(mask) && mask.Length == width * height
    ensures forall x, y | InGrid(width, height, x, y) ::
      At(mask[..], width, x, y) <==>
        (LumaDiffers(cut, notext, width, height, x, y) || ReadsChange(cut, notext, width, height, x, y))
  {
    var changed := ChangedChroma(cut, notext, width, height);
    ghost var chroma := changed[..];
    var wide := WideChroma(changed, width / 2, height / 2);
    mask := Lift(cut, notext, width, height, wide);
    forall x, y | InGrid(width, height, x, y)
      ensures At(mask[..], width, x, y)
        <==> LumaDiffers(cut, notext, width, height, x, y) || ReadsChange(cut, notext, width, height, x, y)
    {
      ReadsMarked(cut, notext, width, height, chroma, x, y);
    }
  }

  lemma ReadsMarked(cut: seq<Byte>, notext: seq<Byte>, width: nat, height: nat, chroma: seq<bool>, x: int, y: int)
    requires Frame(cut, width, height) && Frame(notext, width, height)
    requires forall u, v | InGrid(width / 2, height / 2, u, v) ::
      At(chroma, width / 2, u, v) <==> ChromaDiffers(cut, notext, width, height, u, v)
    ensures NearSet(chroma, width / 2, height / 2, x / 2, y / 2) <==> ReadsChange(cut, notext, width, height, x, y)
  {
  }

  /** The last loop: luma, or the chroma sample that covers the pixel. */
  method Lift(cut: seq<Byte>, notext: seq<Byte>, width: nat, height: nat, wide: array<bool>) returns (mask: array<bool>)
    requires Frame(cut, width, height) && Frame(notext, width, height)
    requires wide.Length == (width / 2) * (height / 2)
    ensures fresh(mask) && mask.Length == width * height
    ensures forall x, y | InGrid(width, height, x, y) ::
      At(mask[..], width, x, y) <==>
        (LumaDiffers(cut, notext, width, height, x, y) || At(wide[..], width / 2, x / 2, y / 2))
  {
    mask := new bool[width * height](_ => false);
    for y := 0 to height
      invariant fresh(mask) && mask.Length == width * height
      invariant Lifted(cut, notext, width, height, wide[..], mask[..], 0, y)
    {
      for x := 0 to width
        invariant Lifted(cut, notext, width, height, wide[..], mask[..], x, y)
      {
        LiftOne(cut, notext, width, height, wide, mask, x, y);
      }
    }
  }

  ghost predicate Lifted(cut: seq<Byte>, notext: seq<Byte>, width: nat, height: nat, wide: seq<bool>, mask: seq<bool>,
                         x: int, y: int)
    requires Frame(cut, width, height) && Frame(notext, width, height)
  {
    forall u, v | InGrid(width, height, u, v) :: At(mask, width, u, v) <==>
      Before(u, v, x, y)
      && (LumaDiffers(cut, notext, width, height, u, v) || At(wide, width / 2, u / 2, v / 2))
  }

  method LiftOne(cut: seq<Byte>, notext: seq<Byte>, width: nat, height: nat, wide: array<bool>, mask: array<bool>,
                 x: int, y: int)
    requires Frame(cut, width, height) && Frame(notext, width, height) && InGrid(width, height, x, y)
    requires wide.Length == (width / 2) * (height / 2) && mask.Length == width * height && mask != wide
    requires Lifted(cut, notext, width, height, wide[..], mask[..], x, y)
    modifies mask
    ensures Lifted(cut, notext, width, height, wide[..], mask[..], x + 1, y)
  {
    IndexFits(width, height, x, y);
    IndexFits(width / 2, height / 2, x / 2, y / 2);
    var index := Index(width, x, y);
    if cut[index] != notext[index] || wide[Index(width / 2, x / 2, y / 2)] {
      SetOne(mask, width, height, x, y);
    }
  }
}
