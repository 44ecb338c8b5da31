/** 8-bit images of `scripts/parity/compare.py`: row-major, interleaved channels. */
module Images {
  import opened Arithmetic
  import opened Rows

  datatype Image = Image(width: nat, height: nat, channels: nat, data: seq<Byte>)

  /** Half-open pixel box `[x0, x1) x [y0, y1)`. */
  datatype Box = Box(x0: int, y0: int, x1: int, y1: int)

  /** What `Image.__post_init__` checks. */
  ghost predicate WellFormed(image: Image) {
    |image.data| == Times(image.height, Stride(image.width, image.channels))
  }

  predicate SameShape(a: Image, b: Image) {
    a.width == b.width && a.height == b.height && a.channels == b.channels
  }

  /** Two images that can be compared: what `_check_pair` lets through. */
  ghost predicate Pair(a: Image, b: Image) {
    WellFormed(a) && WellFormed(b) && SameShape(a, b) && a.channels >= 1
  }

  /** `Image.row`. */
  function Row(image: Image, y: nat): (row: seq<Byte>)
    requires WellFormed(image) && y < image.height
    ensures |row| == Stride(image.width, image.channels)
  {
    Line(image.data, Stride(image.width, image.channels), image.height, y)
  }

  predicate Inside(image: Image, x: int, y: int) {
    0 <= x < image.width && 0 <= y < image.height
  }

  function Pixel(image: Image, x: int, y: int): (p: seq<Byte>)
    requires WellFormed(image) && Inside(image, x, y)
    ensures |p| == image.channels
  {
    Line(Row(image, y), image.channels, image.width, x)
  }

  /** Where channel `ch` of a pixel is in the data. */
  lemma PixelInData(image: Image, x: int, y: int, ch: nat)
    requires WellFormed(image) && Inside(image, x, y) && ch < image.channels
    ensures 0 <= (y * image.width + x) * image.channels + ch < |image.data|
    ensures Pixel(image, x, y)[ch] == image.data[(y * image.width + x) * image.channels + ch]
  {
    var c, w := image.channels, image.width;
    ByteOfLine(Row(image, y), c, w, x, ch);
    ByteOfLine(image.data, Stride(w, c), image.height, y, x * c + ch);
    TimesIsProduct(w, c);
    PixelOffset(y, w, x, c);
  }

  lemma PixelOffset(y: int, w: int, x: int, c: int)
    ensures y * (w * c) + x * c == (y * w + x) * c
  {
  }

  ghost predicate Differs(a: Image, b: Image, x: int, y: int)
    requires Pair(a, b)
  {
    Inside(a, x, y) && Pixel(a, x, y) != Pixel(b, x, y)
  }

  // --- bytes and pixels of a row ----------------------------------------------------------------------

  /** Byte `k` of a row belongs to pixel `k / c`. */
  lemma ByteInPixel(k: nat, c: nat, width: nat)
    requires c >= 1 && k < Times(width, c)
    ensures 0 <= k / c < width && Times(k / c, c) <= k < Times(k / c, c) + c
  {
    TimesIsProduct(k / c, c);
    TimesIsProduct(width, c);
    FloorBetween(k, c, width);
    FloorBetween(k, c, k / c + 1);
    FloorBetween(k, c, k / c);
    assert (k / c + 1) * c == (k / c) * c + c;
  }

  lemma PixelOfByte(k: nat, c: nat, x: nat)
    requires c >= 1 && Times(x, c) <= k < Times(x, c) + c
    ensures k / c == x
  {
    TimesIsProduct(x, c);
    QuotientUnique(k, c, x, k - x * c);
  }

  /** Two rows differ at a byte exactly when the pixel that holds it differs. */
  lemma PixelsOfRows(a: Image, b: Image, y: nat, x: nat)
    requires Pair(a, b) && y < a.height && x < a.width
    ensures Differs(a, b, x, y)
       <==> exists k :: 0 <= k < |Row(a, y)| && k / a.channels == x && Row(a, y)[k] != Row(b, y)[k]
  {
    var c := a.channels;
    var p, q, r, s := Pixel(a, x, y), Pixel(b, x, y), Row(a, y), Row(b, y);
    LineFits(x, a.width, c);
    if p != q {
      var i :| 0 <= i < c && p[i] != q[i];
      PixelOfByte(Times(x, c) + i, c, x);
      assert r[Times(x, c) + i] != s[Times(x, c) + i];
    }
    if k :| 0 <= k < |r| && k / c == x && r[k] != s[k] {
      ByteInPixel(k, c, a.width);
      assert p[k - Times(x, c)] != q[k - Times(x, c)];
    }
  }

  lemma EqualRowsEqualPixels(a: Image, b: Image, y: nat)
    requires Pair(a, b) && y < a.height && Row(a, y) == Row(b, y)
    ensures forall x :: !Differs(a, b, x, y)
  {
  }

  /** No pixel differs exactly when the images are equal. */
  lemma NoDifferenceIsEquality(a: Image, b: Image)
    requires Pair(a, b)
    ensures (forall x, y :: !Differs(a, b, x, y)) <==> a == b
  {
    if forall x, y :: !Differs(a, b, x, y) {
      var stride := Stride(a.width, a.channels);
      forall y | 0 <= y < a.height ensures Lines(a.data, stride, a.height)[y] == Lines(b.data, stride, a.height)[y] {
        RowsWithoutDifference(a, b, y);
      }
      assert Lines(a.data, stride, a.height) == Lines(b.data, stride, a.height);
      FlatOfLines(a.data, stride, a.height, a.height);
      FlatOfLines(b.data, stride, a.height, a.height);
      var lines := Lines(a.data, stride, a.height);
      assert lines[..a.height] == lines;
      assert a.data[..|a.data|] == a.data && b.data[..|a.data|] == b.data;
    }
  }

  lemma RowsWithoutDifference(a: Image, b: Image, y: nat)
    requires Pair(a, b) && y < a.height && forall x :: !Differs(a, b, x, y)
    ensures Row(a, y) == Row(b, y)
  {
    var r, s := Row(a, y), Row(b, y);
    forall k | 0 <= k < |r| ensures r[k] == s[k] {
      ByteInPixel(k, a.channels, a.width);
      PixelsOfRows(a, b, y, k / a.channels);
      assert !Differs(a, b, k / a.channels, y);
    }
  }
}
