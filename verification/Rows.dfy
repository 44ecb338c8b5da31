/** Bytes, and pictures as rows of bytes laid back to back. */
module Rows {
  type Byte = x: int | 0 <= x < 256

  ghost predicate Uniform(rows: seq<seq<Byte>>, stride: nat) {
    forall y | 0 <= y < |rows| :: |rows[y]| == stride
  }

  function Flat(rows: seq<seq<Byte>>): seq<Byte> {
    if rows == [] then [] else Flat(rows[..|rows| - 1]) + rows[|rows| - 1]
  }

  /** `n * width`, by adding. */
  function Times(n: nat, width: nat): nat {
    if n == 0 then 0 else Times(n - 1, width) + width
  }

  lemma {:induction false} TimesIsProduct(n: nat, width: nat)
    ensures Times(n, width) == n * width
  {
    if n > 0 {
      TimesIsProduct(n - 1, width);
      assert n * width == (n - 1) * width + width;
    }
  }

  lemma {:induction false} LineFits(y: nat, n: nat, width: nat)
    requires y < n
    ensures Times(y, width) + width == Times(y + 1, width) <= Times(n, width)
    decreases n
  {
    if y + 1 < n {
      LineFits(y, n - 1, width);
    }
  }

  function Line(raw: seq<Byte>, width: nat, n: nat, y: nat): (line: seq<Byte>)
    requires |raw| == Times(n, width) && y < n
    ensures |line| == width
  {
    LineFits(y, n, width);
    raw[Times(y, width)..Times(y, width) + width]
  }

  lemma ByteOfLine(raw: seq<Byte>, width: nat, n: nat, y: nat, k: nat)
    requires |raw| == Times(n, width) && y < n && k < width
    ensures 0 <= y * width + k < |raw| && Line(raw, width, n, y)[k] == raw[y * width + k]
  {
    LineFits(y, n, width);
    TimesIsProduct(y, width);
  }

  /** The `n` lines of `width` bytes in `raw`. */
  function Lines(raw: seq<Byte>, width: nat, n: nat): (lines: seq<seq<Byte>>)
    requires |raw| == Times(n, width)
    ensures |lines| == n && Uniform(lines, width)
  {
    seq(n, y requires 0 <= y < n => Line(raw, width, n, y))
  }

  lemma {:induction false} FlatSize(rows: seq<seq<Byte>>, width: nat)
    requires Uniform(rows, width)
    ensures |Flat(rows)| == Times(|rows|, width)
    decreases |rows|
  {
    if rows != [] {
      FlatSize(rows[..|rows| - 1], width);
    }
  }

  lemma {:induction false} FlatLine(rows: seq<seq<Byte>>, width: nat, y: nat)
    requires Uniform(rows, width) && y < |rows|
    ensures |Flat(rows)| == Times(|rows|, width)
    ensures Line(Flat(rows), width, |rows|, y) == rows[y]
    decreases |rows|
  {
    FlatSize(rows, width);
    LineFits(y, |rows|, width);
    var front := rows[..|rows| - 1];
    FlatSize(front, width);
    if y < |front| {
      FlatLine(front, width, y);
      LineFits(y, |front|, width);
    }
  }

  lemma LinesOfFlat(rows: seq<seq<Byte>>, width: nat)
    requires Uniform(rows, width)
    ensures |Flat(rows)| == Times(|rows|, width) && Lines(Flat(rows), width, |rows|) == rows
  {
    FlatSize(rows, width);
    forall y | 0 <= y < |rows| ensures Lines(Flat(rows), width, |rows|)[y] == rows[y] {
      FlatLine(rows, width, y);
    }
  }

  lemma {:induction false} FlatOfLines(raw: seq<Byte>, width: nat, n: nat, k: nat)
    requires |raw| == Times(n, width) && k <= n
    ensures Times(k, width) <= |raw| && Flat(Lines(raw, width, n)[..k]) == raw[..Times(k, width)]
    decreases k
  {
    if k > 0 {
      FlatOfLines(raw, width, n, k - 1);
      LineFits(k - 1, n, width);
      var lines := Lines(raw, width, n);
      assert lines[..k][..k - 1] == lines[..k - 1];
      assert raw[..Times(k, width)] == raw[..Times(k - 1, width)] + Line(raw, width, n, k - 1);
    }
  }

  lemma FlatLast(rows: seq<seq<Byte>>, row: seq<Byte>)
    ensures Flat(rows + [row]) == Flat(rows) + row
  {
    assert (rows + [row])[..|rows|] == rows;
  }

  /** The bytes of one row. */
  function Stride(width: nat, bpp: nat): nat { Times(width, bpp) }
}
