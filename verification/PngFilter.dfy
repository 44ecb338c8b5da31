/** PNG scanline filters (section 6 of RFC 2083) and their inverse, `_unfilter` of
    `scripts/parity/compare.py`. */
module PngFilter {
  import opened Arithmetic
  import opened Rows
  import opened Wrappers

  /** `_paeth`. */
  function Paeth(left: Byte, up: Byte, upperLeft: Byte): Byte {
    var p := left + up - upperLeft;
    var pa, pb, pc := Abs(p - left), Abs(p - up), Abs(p - upperLeft);
    if pa <= pb && pa <= pc then left else if pb <= pc then up else upperLeft
  }

  /** The neighbour nearest to `left + up - upperLeft`; ties go to the left, then to the one above. */
  ghost predicate IsNearest(r: Byte, left: Byte, up: Byte, upperLeft: Byte) {
    var p := left + up - upperLeft;
    && (r == left || r == up || r == upperLeft)
    && Abs(p - r) <= Abs(p - left) && Abs(p - r) <= Abs(p - up) && Abs(p - r) <= Abs(p - upperLeft)
    && (Abs(p - left) == Abs(p - r) ==> r == left)
    && (Abs(p - up) == Abs(p - r) ==> r == left || r == up)
  }

  lemma PaethIsNearest(left: Byte, up: Byte, upperLeft: Byte)
    ensures IsNearest(Paeth(left, up, upperLeft), left, up, upperLeft)
    ensures forall r | IsNearest(r, left, up, upperLeft) :: r == Paeth(left, up, upperLeft)
  {
  }

  /** What the standard makes of byte `raw` behind filter type `kind`. */
  ghost predicate StandardByte(kind: Byte, raw: Byte, left: Byte, up: Byte, upperLeft: Byte, out: Byte) {
    && (kind == 0 ==> out == raw)
    && (kind == 1 ==> out == (raw + left) % 256)
    && (kind == 2 ==> out == (raw + up) % 256)
    && (kind == 3 ==> out == (raw + (left + up) / 2) % 256)
    && (kind == 4 ==> exists near :: IsNearest(near, left, up, upperLeft) && out == (raw + near) % 256)
  }

  /** What filter `kind` predicts from the neighbours (the standard's five types). */
  function Predict(kind: Byte, left: Byte, up: Byte, upperLeft: Byte): Byte {
    match kind
    case 1 => left
    case 2 => up
    case 3 => (left + up) / 2
    case 4 => Paeth(left, up, upperLeft)
    case _ => 0
  }

  function At(s: seq<Byte>, i: int): Byte
    requires i < |s|
  {
    if i < 0 then 0 else s[i]
  }

  /** The prediction for position `i`, from the bytes already known of the row and the row above. */
  function PredictAt(kind: Byte, known: seq<Byte>, prior: seq<Byte>, bpp: nat, i: nat): Byte
    requires bpp >= 1 && i <= |known| && i < |prior|
  {
    Predict(kind, At(known, i - bpp), prior[i], At(prior, i - bpp))
  }

  /** The standard's filter of one row. */
  function FilterRow(kind: Byte, row: seq<Byte>, prior: seq<Byte>, bpp: nat): (r: seq<Byte>)
    requires bpp >= 1 && |row| == |prior|
    ensures |r| == |row|
  {
    seq(|row|, i requires 0 <= i < |row| => (row[i] - PredictAt(kind, row, prior, bpp, i)) % 256)
  }

  /** Its inverse, byte by byte: the first `n` bytes of the row. */
  function UnfilterTo(kind: Byte, line: seq<Byte>, prior: seq<Byte>, bpp: nat, n: nat): (r: seq<Byte>)
    requires bpp >= 1 && |line| == |prior| && n <= |line|
    ensures |r| == n
  {
    if n == 0 then []
    else
      var known := UnfilterTo(kind, line, prior, bpp, n - 1);
      known + [(line[n - 1] + PredictAt(kind, known, prior, bpp, n - 1)) % 256]
  }

  function UnfilterRow(kind: Byte, line: seq<Byte>, prior: seq<Byte>, bpp: nat): (r: seq<Byte>)
    requires bpp >= 1 && |line| == |prior|
    ensures |r| == |line|
  {
    UnfilterTo(kind, line, prior, bpp, |line|)
  }

  lemma {:induction false} UnfilterPrefix(kind: Byte, line: seq<Byte>, prior: seq<Byte>, bpp: nat, m: nat, n: nat)
    requires bpp >= 1 && |line| == |prior| && m <= n <= |line|
    ensures UnfilterTo(kind, line, prior, bpp, m) == UnfilterTo(kind, line, prior, bpp, n)[..m]
    decreases n
  {
    if m < n {
      UnfilterPrefix(kind, line, prior, bpp, m, n - 1);
    }
  }

  /** The prediction needs only the bytes before it. */
  lemma KnownIsEnough(kind: Byte, row: seq<Byte>, prior: seq<Byte>, bpp: nat, i: nat)
    requires bpp >= 1 && |row| == |prior| && i < |row|
    ensures PredictAt(kind, row[..i], prior, bpp, i) == PredictAt(kind, row, prior, bpp, i)
  {
  }

  lemma AddBack(x: Byte, p: Byte)
    ensures ((x - p) % 256 + p) % 256 == x
  {
  }

  lemma {:induction false} UnfilterUndoesTo(kind: Byte, row: seq<Byte>, prior: seq<Byte>, bpp: nat, n: nat)
    requires bpp >= 1 && |row| == |prior| && n <= |row|
    ensures UnfilterTo(kind, FilterRow(kind, row, prior, bpp), prior, bpp, n) == row[..n]
  {
    if n > 0 {
      UnfilterUndoesTo(kind, row, prior, bpp, n - 1);
      KnownIsEnough(kind, row, prior, bpp, n - 1);
      AddBack(row[n - 1], PredictAt(kind, row, prior, bpp, n - 1));
      assert row[..n] == row[..n - 1] + [row[n - 1]];
    }
  }

  /** Row by row, each is the inverse of the other, for every type and every bytes-per-pixel. */
  lemma UnfilterUndoesFilter(kind: Byte, row: seq<Byte>, prior: seq<Byte>, bpp: nat)
    requires bpp >= 1 && |row| == |prior|
    ensures UnfilterRow(kind, FilterRow(kind, row, prior, bpp), prior, bpp) == row
  {
    UnfilterUndoesTo(kind, row, prior, bpp, |row|);
    assert row[..|row|] == row;
  }

  lemma FilterUndoesUnfilter(kind: Byte, line: seq<Byte>, prior: seq<Byte>, bpp: nat)
    requires bpp >= 1 && |line| == |prior|
    ensures FilterRow(kind, UnfilterRow(kind, line, prior, bpp), prior, bpp) == line
  {
    var row := UnfilterRow(kind, line, prior, bpp);
    forall i | 0 <= i < |line|
      ensures FilterRow(kind, row, prior, bpp)[i] == line[i]
    {
      UnfilteredAt(kind, line, prior, bpp, i);
      TakeBack(line[i], PredictAt(kind, row, prior, bpp, i));
    }
  }

  lemma UnfilteredAt(kind: Byte, line: seq<Byte>, prior: seq<Byte>, bpp: nat, i: nat)
    requires bpp >= 1 && |line| == |prior| && i < |line|
    ensures var row := UnfilterRow(kind, line, prior, bpp);
            row[i] == (line[i] + PredictAt(kind, row, prior, bpp, i)) % 256
  {
    var row := UnfilterRow(kind, line, prior, bpp);
    UnfilterPrefix(kind, line, prior, bpp, i, |line|);
    UnfilterPrefix(kind, line, prior, bpp, i + 1, |line|);
    assert row[i] == UnfilterTo(kind, line, prior, bpp, i + 1)[i];
    KnownIsEnough(kind, row, prior, bpp, i);
  }

  lemma TakeBack(x: Byte, p: Byte)
    ensures ((x + p) % 256 - p) % 256 == x
  {
  }

  /** Byte `i` of a row, from the line, the row so far and the row above; beside them there are zeros. */
  ghost predicate RowByte(kind: Byte, line: seq<Byte>, prior: seq<Byte>, bpp: nat, row: seq<Byte>, i: nat)
    requires bpp >= 1 && |line| == |prior| == |row| && i < |row|
  {
    StandardByte(kind, line[i], if i >= bpp then row[i - bpp] else 0, prior[i],
                 if i >= bpp then prior[i - bpp] else 0, row[i])
  }

  lemma UnfilteredByte(kind: Byte, line: seq<Byte>, prior: seq<Byte>, bpp: nat, i: nat)
    requires bpp >= 1 && |line| == |prior| && i < |line|
    ensures RowByte(kind, line, prior, bpp, UnfilterRow(kind, line, prior, bpp), i)
  {
    var row := UnfilterRow(kind, line, prior, bpp);
    UnfilteredAt(kind, line, prior, bpp, i);
    PredictsStandard(kind, line[i], At(row, i - bpp), prior[i], At(prior, i - bpp), row[i]);
  }

  lemma PredictsStandard(kind: Byte, raw: Byte, left: Byte, up: Byte, upperLeft: Byte, out: Byte)
    requires out == (raw + Predict(kind, left, up, upperLeft)) % 256
    ensures StandardByte(kind, raw, left, up, upperLeft, out)
  {
    PaethIsNearest(left, up, upperLeft);
  }

  // --- images -------------------------------------------------------------------------------------

  function Zeros(n: nat): (z: seq<Byte>)
    ensures |z| == n
  {
    seq(n, _ => 0)
  }

  /** The row above row `y`: zeros above the first. */
  function Above(rows: seq<seq<Byte>>, stride: nat, y: nat): seq<Byte>
    requires y <= |rows|
  {
    if y == 0 then Zeros(stride) else rows[y - 1]
  }

  /** The lines an encoder writes: each row filtered behind the type chosen for it. */
  function FilterRows(kinds: seq<Byte>, rows: seq<seq<Byte>>, stride: nat, bpp: nat): (lines: seq<seq<Byte>>)
    requires bpp >= 1 && |kinds| == |rows| && Uniform(rows, stride)
    ensures |lines| == |rows| && Uniform(lines, 1 + stride)
  {
    seq(|rows|, y requires 0 <= y < |rows| =>
      [kinds[y]] + FilterRow(kinds[y], rows[y], Above(rows, stride, y), bpp))
  }

  /** The rows that the first `n` lines decode to; `None` for a filter type that does not exist. */
  function UnfilterRows(lines: seq<seq<Byte>>, stride: nat, bpp: nat, n: nat): (r: Option<seq<seq<Byte>>>)
    requires bpp >= 1 && Uniform(lines, 1 + stride) && n <= |lines|
    ensures r.Some? ==> |r.value| == n && Uniform(r.value, stride)
  {
    if n == 0 then Some([])
    else
      var done := UnfilterRows(lines, stride, bpp, n - 1);
      if done.None? || lines[n - 1][0] > 4 then None
      else
        Some(done.value + [UnfilterRow(lines[n - 1][0], lines[n - 1][1..], Above(done.value, stride, n - 1), bpp)])
  }

  lemma LastRowDecodes(kinds: seq<Byte>, rows: seq<seq<Byte>>, stride: nat, bpp: nat, y: nat)
    requires bpp >= 1 && |kinds| == |rows| && Uniform(rows, stride) && y < |rows|
    ensures var line := FilterRows(kinds, rows, stride, bpp)[y];
            line[0] == kinds[y] && UnfilterRow(line[0], line[1..], Above(rows[..y], stride, y), bpp) == rows[y]
  {
    var above := Above(rows, stride, y);
    var line := FilterRows(kinds, rows, stride, bpp)[y];
    assert line[1..] == FilterRow(kinds[y], rows[y], above, bpp);
    assert Above(rows[..y], stride, y) == above;
    UnfilterUndoesFilter(kinds[y], rows[y], above, bpp);
  }

  ghost predicate DecodesTo(line: seq<Byte>, rows: seq<seq<Byte>>, stride: nat, bpp: nat, y: nat)
    requires bpp >= 1 && Uniform(rows, stride) && y < |rows| && |line| == 1 + stride
  {
    line[0] <= 4 && UnfilterRow(line[0], line[1..], Above(rows[..y], stride, y), bpp) == rows[y]
  }

  lemma {:induction false} LinesDecodeTo(lines: seq<seq<Byte>>, rows: seq<seq<Byte>>, stride: nat, bpp: nat, n: nat)
    requires bpp >= 1 && Uniform(rows, stride) && Uniform(lines, 1 + stride) && n <= |lines| == |rows|
    requires forall y | 0 <= y < |rows| :: DecodesTo(lines[y], rows, stride, bpp, y)
    ensures UnfilterRows(lines, stride, bpp, n) == Some(rows[..n])
  {
    if n > 0 {
      LinesDecodeTo(lines, rows, stride, bpp, n - 1);
      assert DecodesTo(lines[n - 1], rows, stride, bpp, n - 1);
      assert rows[..n] == rows[..n - 1] + [rows[n - 1]];
    }
  }

  /** Whatever types an encoder chose row by row, decoding gives back its rows. */
  lemma UnfilterUndoesFilterRows(kinds: seq<Byte>, rows: seq<seq<Byte>>, stride: nat, bpp: nat)
    requires bpp >= 1 && |kinds| == |rows| && Uniform(rows, stride)
    requires forall k | 0 <= k < |kinds| :: kinds[k] <= 4
    ensures UnfilterRows(FilterRows(kinds, rows, stride, bpp), stride, bpp, |rows|) == Some(rows)
  {
    var lines := FilterRows(kinds, rows, stride, bpp);
    forall y | 0 <= y < |rows| ensures DecodesTo(lines[y], rows, stride, bpp, y) {
      LastRowDecodes(kinds, rows, stride, bpp, y);
    }
    LinesDecodeTo(lines, rows, stride, bpp, |rows|);
    assert rows[..|rows|] == rows;
  }

  /** Each decoded row comes from its line and the row above. */
  lemma {:induction false} RowsDecode(lines: seq<seq<Byte>>, stride: nat, bpp: nat, n: nat, rows: seq<seq<Byte>>)
    requires bpp >= 1 && Uniform(lines, 1 + stride) && n <= |lines| && Uniform(rows, stride)
    requires UnfilterRows(lines, stride, bpp, n) == Some(rows)
    ensures |rows| == n && forall y | 0 <= y < n :: DecodesTo(lines[y], rows, stride, bpp, y)
  {
    if n > 0 {
      var done := UnfilterRows(lines, stride, bpp, n - 1).value;
      RowsDecode(lines, stride, bpp, n - 1, done);
      forall y | 0 <= y < n ensures DecodesTo(lines[y], rows, stride, bpp, y) {
        assert rows[..y] == done[..y];
        assert y < n - 1 ==> DecodesTo(lines[y], done, stride, bpp, y);
      }
    }
  }

  lemma DecodedLineBack(kinds: seq<Byte>, line: seq<Byte>, rows: seq<seq<Byte>>, stride: nat, bpp: nat, y: nat)
    requires bpp >= 1 && |kinds| == |rows| && Uniform(rows, stride) && y < |rows| && |line| == 1 + stride
    requires DecodesTo(line, rows, stride, bpp, y) && kinds[y] == line[0]
    ensures FilterRows(kinds, rows, stride, bpp)[y] == line
  {
    FilterUndoesUnfilter(line[0], line[1..], Above(rows[..y], stride, y), bpp);
    assert Above(rows[..y], stride, y) == Above(rows, stride, y);
    assert line == [line[0]] + line[1..];
  }

  /** And the other way: what was decoded filters back to the same lines, so no two images share
      their bytes and no accepted bytes are lost. */
  lemma FilterUndoesUnfilterRows(lines: seq<seq<Byte>>, stride: nat, bpp: nat, n: nat)
    requires bpp >= 1 && Uniform(lines, 1 + stride) && n <= |lines|
    requires UnfilterRows(lines, stride, bpp, n).Some?
    ensures var kinds := seq(n, y requires 0 <= y < n => lines[y][0]);
            FilterRows(kinds, UnfilterRows(lines, stride, bpp, n).value, stride, bpp) == lines[..n]
  {
    var rows := UnfilterRows(lines, stride, bpp, n).value;
    var kinds := seq(n, y requires 0 <= y < n => lines[y][0]);
    RowsDecode(lines, stride, bpp, n, rows);
    forall y | 0 <= y < n ensures FilterRows(kinds, rows, stride, bpp)[y] == lines[y] {
      DecodedLineBack(kinds, lines[y], rows, stride, bpp, y);
    }
    SameLines(FilterRows(kinds, rows, stride, bpp), lines, n);
  }

  lemma SameLines(a: seq<seq<Byte>>, b: seq<seq<Byte>>, n: nat)
    requires |a| == n <= |b| && forall y | 0 <= y < n :: a[y] == b[y]
    ensures a == b[..n]
  {
  }

  // --- the loops ----------------------------------------------------------------------------------

  /** One row of `_unfilter`, in place. */
  method UnfilterLine(kind: Byte, line: array<Byte>, prior: seq<Byte>, bpp: nat)
    requires bpp >= 1 && line.Length == |prior|
    modifies line
    ensures line[..] == UnfilterRow(kind, old(line[..]), prior, bpp)
    ensures forall i: nat | i < line.Length :: RowByte(kind, old(line[..]), prior, bpp, line[..], i)
  {
    ghost var before := line[..];
    var i := 0;
    while i < line.Length
      invariant 0 <= i <= line.Length
      invariant line[..i] == UnfilterTo(kind, before, prior, bpp, i)
      invariant line[i..] == before[i..]
    {
      var left: Byte := if i >= bpp then line[i - bpp] else 0;
      var upperLeft: Byte := if i >= bpp then prior[i - bpp] else 0;
      assert line[i] == line[i..][0] == before[i];
      assert i >= bpp ==> line[..i][i - bpp] == left;
      line[i] := (line[i] + Predict(kind, left, prior[i], upperLeft)) % 256;
      i := i + 1;
    }
    assert line[..line.Length] == line[..];
    forall i: nat | i < line.Length ensures RowByte(kind, before, prior, bpp, line[..], i) {
      UnfilteredByte(kind, before, prior, bpp, i);
    }
  }

  method DecodedLine(kind: Byte, bytes: seq<Byte>, prior: seq<Byte>, bpp: nat) returns (row: seq<Byte>)
    requires bpp >= 1 && |bytes| == |prior|
    ensures row == UnfilterRow(kind, bytes, prior, bpp)
  {
    var line := new Byte[|bytes|](i requires 0 <= i < |bytes| => bytes[i]);
    assert line[..] == bytes;
    UnfilterLine(kind, line, prior, bpp);
    row := line[..];
  }

  /** The bytes of a filtered picture: `height * (1 + width * bpp)`. */
  function RawSize(width: nat, height: nat, bpp: nat): nat { Times(height, 1 + Stride(width, bpp)) }

  lemma SizesAreProducts(width: nat, height: nat, bpp: nat)
    ensures Stride(width, bpp) == width * bpp
    ensures RawSize(width, height, bpp) == height * (1 + width * bpp)
  {
    TimesIsProduct(width, bpp);
    TimesIsProduct(height, 1 + width * bpp);
  }

  /** What `_unfilter` gives for `raw`. */
  function Decoded(raw: seq<Byte>, width: nat, height: nat, bpp: nat): Option<seq<Byte>>
    requires bpp >= 1 && |raw| == RawSize(width, height, bpp)
  {
    var stride := Stride(width, bpp);
    var rows := UnfilterRows(Lines(raw, 1 + stride, height), stride, bpp, height);
    if rows.Some? then Some(Flat(rows.value)) else None
  }

  lemma {:induction false} BadLineSpoilsAll(lines: seq<seq<Byte>>, stride: nat, bpp: nat, m: nat, n: nat)
    requires bpp >= 1 && Uniform(lines, 1 + stride) && m <= n <= |lines|
    requires UnfilterRows(lines, stride, bpp, m).None?
    ensures UnfilterRows(lines, stride, bpp, n).None?
    decreases n
  {
    if m < n {
      BadLineSpoilsAll(lines, stride, bpp, m, n - 1);
    }
  }

  // --- the bytes of a picture -------------------------------------------------------------------------

  function ByteAt(s: seq<Byte>, k: int): Byte { if 0 <= k < |s| then s[k] else 0 }

  /** Row `y` names no filter. */
  ghost predicate BadRow(raw: seq<Byte>, stride: nat, y: nat) {
    ByteAt(raw, y * (1 + stride)) > 4
  }

  /** Byte `i` of row `y` of the picture `out`, from the filtered bytes and the neighbours in the picture;
      beside and above it there are zeros. */
  ghost predicate PictureByte(raw: seq<Byte>, out: seq<Byte>, stride: nat, bpp: nat, y: nat, i: nat) {
    StandardByte(ByteAt(raw, y * (1 + stride)), ByteAt(raw, y * (1 + stride) + 1 + i),
                 if i >= bpp then ByteAt(out, y * stride + i - bpp) else 0,
                 if y >= 1 then ByteAt(out, (y - 1) * stride + i) else 0,
                 if y >= 1 && i >= bpp then ByteAt(out, (y - 1) * stride + i - bpp) else 0,
                 ByteAt(out, y * stride + i))
  }

  /** `out` is what the standard makes of `raw`, byte by byte. */
  ghost predicate StandardPicture(raw: seq<Byte>, width: nat, height: nat, bpp: nat, out: seq<Byte>) {
    && |raw| == height * (1 + width * bpp) && |out| == height * (width * bpp)
    && (forall y: nat | y < height :: !BadRow(raw, width * bpp, y))
    && forall y: nat, i: nat | y < height && i < width * bpp :: PictureByte(raw, out, width * bpp, bpp, y, i)
  }

  /** Byte `k` of line `y`. */
  lemma LineByte(raw: seq<Byte>, width: nat, n: nat, y: nat, k: nat)
    requires |raw| == Times(n, width) && y < n && k < width
    ensures |raw| == n * width && Lines(raw, width, n)[y][k] == ByteAt(raw, y * width + k)
  {
    TimesIsProduct(y, width);
    TimesIsProduct(n, width);
    LineFits(y, n, width);
  }

  lemma FlatByte(rows: seq<seq<Byte>>, width: nat, y: nat, k: nat)
    requires Uniform(rows, width) && y < |rows| && k < width
    ensures rows[y][k] == ByteAt(Flat(rows), y * width + k)
  {
    FlatLine(rows, width, y);
    LineByte(Flat(rows), width, |rows|, y, k);
  }

  lemma {:induction false} BadLineIsFirst(lines: seq<seq<Byte>>, stride: nat, bpp: nat, n: nat)
    requires bpp >= 1 && Uniform(lines, 1 + stride) && n <= |lines|
    ensures UnfilterRows(lines, stride, bpp, n).None? <==> exists y :: 0 <= y < n && lines[y][0] > 4
  {
    if n > 0 {
      BadLineIsFirst(lines, stride, bpp, n - 1);
    }
  }

  lemma AboveByte(rows: seq<seq<Byte>>, stride: nat, y: nat, k: nat)
    requires Uniform(rows, stride) && y < |rows| && k < stride
    ensures Above(rows[..y], stride, y)[k] == if y >= 1 then ByteAt(Flat(rows), (y - 1) * stride + k) else 0
  {
    if y >= 1 {
      assert rows[..y][y - 1] == rows[y - 1];
      FlatByte(rows, stride, y - 1, k);
    }
  }

  lemma RowsArePicture(raw: seq<Byte>, rows: seq<seq<Byte>>, stride: nat, bpp: nat, height: nat, y: nat, i: nat)
    requires bpp >= 1 && |raw| == Times(height, 1 + stride) && Uniform(rows, stride) && |rows| == height
    requires y < height && i < stride
    requires DecodesTo(Lines(raw, 1 + stride, height)[y], rows, stride, bpp, y)
    ensures PictureByte(raw, Flat(rows), stride, bpp, y, i)
  {
    var line, above := Lines(raw, 1 + stride, height)[y], Above(rows[..y], stride, y);
    UnfilteredByte(line[0], line[1..], above, bpp, i);
    assert RowByte(line[0], line[1..], above, bpp, rows[y], i);
    LineByte(raw, 1 + stride, height, y, 0);
    LineByte(raw, 1 + stride, height, y, i + 1);
    FlatByte(rows, stride, y, i);
    AboveByte(rows, stride, y, i);
    if i >= bpp {
      FlatByte(rows, stride, y, i - bpp);
      AboveByte(rows, stride, y, i - bpp);
    }
    SameByte(raw, Flat(rows), stride, bpp, y, i, line, above, rows[y]);
  }

  lemma SameByte(raw: seq<Byte>, out: seq<Byte>, stride: nat, bpp: nat, y: nat, i: nat,
                 line: seq<Byte>, above: seq<Byte>, row: seq<Byte>)
    requires bpp >= 1 && |line| == 1 + stride && |above| == |row| == stride && i < stride
    requires RowByte(line[0], line[1..], above, bpp, row, i)
    requires line[0] == ByteAt(raw, y * (1 + stride)) && line[1 + i] == ByteAt(raw, y * (1 + stride) + 1 + i)
    requires row[i] == ByteAt(out, y * stride + i) && (i >= bpp ==> row[i - bpp] == ByteAt(out, y * stride + i - bpp))
    requires above[i] == if y >= 1 then ByteAt(out, (y - 1) * stride + i) else 0
    requires i >= bpp ==> above[i - bpp] == if y >= 1 then ByteAt(out, (y - 1) * stride + i - bpp) else 0
    ensures PictureByte(raw, out, stride, bpp, y, i)
  {
  }

  /** What `_unfilter` gives is what the standard makes of every byte; it gives nothing exactly when a row
      names no filter. */
  lemma DecodedIsStandard(raw: seq<Byte>, width: nat, height: nat, bpp: nat)
    requires bpp >= 1 && |raw| == RawSize(width, height, bpp)
    ensures Decoded(raw, width, height, bpp).None? <==> exists y: nat :: y < height && BadRow(raw, width * bpp, y)
    ensures var r := Decoded(raw, width, height, bpp);
            r.Some? ==> StandardPicture(raw, width, height, bpp, r.value)
  {
    SizesAreProducts(width, height, bpp);
    DecodedBytes(raw, width, height, bpp, width * bpp);
  }

  lemma DecodedBytes(raw: seq<Byte>, width: nat, height: nat, bpp: nat, stride: nat)
    requires bpp >= 1 && |raw| == RawSize(width, height, bpp) && stride == Stride(width, bpp) == width * bpp
    ensures Decoded(raw, width, height, bpp).None? <==> exists y: nat :: y < height && BadRow(raw, stride, y)
    ensures var r := Decoded(raw, width, height, bpp);
            r.Some? ==> StandardPicture(raw, width, height, bpp, r.value)
  {
    var lines := Lines(raw, 1 + stride, height);
    BadLineIsFirst(lines, stride, bpp, height);
    forall y: nat | y < height ensures lines[y][0] > 4 <==> BadRow(raw, stride, y) {
      LineByte(raw, 1 + stride, height, y, 0);
    }
    var done := UnfilterRows(lines, stride, bpp, height);
    if done.Some? {
      var rows := done.value;
      RowsDecode(lines, stride, bpp, height, rows);
      FlatSize(rows, stride);
      TimesIsProduct(height, stride);
      SizesAreProducts(width, height, bpp);
      forall y: nat, i: nat | y < height && i < stride ensures PictureByte(raw, Flat(rows), stride, bpp, y, i) {
        RowsArePicture(raw, rows, stride, bpp, height, y, i);
      }
    }
  }

  /** `_unfilter`: the rows back to back, or its ValueError exactly when a row names no filter. */
  method Unfilter(raw: seq<Byte>, width: nat, height: nat, bpp: nat) returns (r: Option<seq<Byte>>)
    requires bpp >= 1 && |raw| == RawSize(width, height, bpp)
    ensures r == Decoded(raw, width, height, bpp)
    ensures r.None? <==> exists y: nat :: y < height && BadRow(raw, width * bpp, y)
    ensures r.Some? ==> StandardPicture(raw, width, height, bpp, r.value)
  {
    SizesAreProducts(width, height, bpp);
    DecodedIsStandard(raw, width, height, bpp);
    r := UnfilterLines(raw, width * bpp, height, bpp);
  }

  method UnfilterLines(raw: seq<Byte>, stride: nat, height: nat, bpp: nat) returns (r: Option<seq<Byte>>)
    requires bpp >= 1 && |raw| == Times(height, 1 + stride)
    ensures var rows := UnfilterRows(Lines(raw, 1 + stride, height), stride, bpp, height);
            r == if rows.Some? then Some(Flat(rows.value)) else None
  {
    var out: seq<Byte> := [];
    var prior := Zeros(stride);
    var offset := 0;
    ghost var lines := Lines(raw, 1 + stride, height);
    ghost var rows: seq<seq<Byte>> := [];
    for y := 0 to height
      invariant offset == Times(y, 1 + stride)
      invariant |rows| == y && prior == Above(rows, stride, y) && |prior| == stride
      invariant UnfilterRows(lines, stride, bpp, y) == Some(rows)
      invariant out == Flat(rows)
    {
      LineParts(raw, stride, height, y);
      var kind := raw[offset];
      if kind > 4 {
        BadLineSpoilsAll(lines, stride, bpp, y + 1, height);
        return None;
      }
      prior := DecodedLine(kind, raw[offset + 1..offset + 1 + stride], prior, bpp);
      RowNext(lines, stride, bpp, y, rows, prior);
      offset := offset + 1 + stride;
      out := out + prior;
      rows := rows + [prior];
    }
    r := Some(out);
  }

  lemma RowNext(lines: seq<seq<Byte>>, stride: nat, bpp: nat, y: nat, rows: seq<seq<Byte>>, row: seq<Byte>)
    requires bpp >= 1 && Uniform(lines, 1 + stride) && y < |lines| && lines[y][0] <= 4
    requires UnfilterRows(lines, stride, bpp, y) == Some(rows) && |Above(rows, stride, y)| == stride
    requires row == UnfilterRow(lines[y][0], lines[y][1..], Above(rows, stride, y), bpp)
    ensures UnfilterRows(lines, stride, bpp, y + 1) == Some(rows + [row])
    ensures Flat(rows + [row]) == Flat(rows) + row && Above(rows + [row], stride, y + 1) == row
  {
    FlatLast(rows, row);
  }

  /** Where the loop finds line `y`. */
  lemma LineParts(raw: seq<Byte>, stride: nat, height: nat, y: nat)
    requires |raw| == Times(height, 1 + stride) && y < height
    ensures var offset, line := Times(y, 1 + stride), Lines(raw, 1 + stride, height)[y];
            && offset + 1 + stride == Times(y + 1, 1 + stride) <= |raw|
            && line[0] == raw[offset] && line[1..] == raw[offset + 1..offset + 1 + stride]
  {
    LineFits(y, height, 1 + stride);
  }

  /** For every picture and every choice of filter types row by row, `_unfilter` inverts the
      standard's filters. */
  lemma DecodedInvertsFilters(kinds: seq<Byte>, rows: seq<seq<Byte>>, width: nat, bpp: nat)
    requires bpp >= 1 && |kinds| == |rows| && Uniform(rows, Stride(width, bpp))
    requires forall k | 0 <= k < |kinds| :: kinds[k] <= 4
    ensures var raw := Flat(FilterRows(kinds, rows, Stride(width, bpp), bpp));
            |raw| == RawSize(width, |rows|, bpp) && Decoded(raw, width, |rows|, bpp) == Some(Flat(rows))
  {
    var lines := FilterRows(kinds, rows, Stride(width, bpp), bpp);
    LinesOfFlat(lines, 1 + Stride(width, bpp));
    UnfilterUndoesFilterRows(kinds, rows, Stride(width, bpp), bpp);
  }
}
