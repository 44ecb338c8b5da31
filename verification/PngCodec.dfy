/** `read_png` and `encode_png` of `scripts/parity/compare.py`, with zlib and the checksum as
    functions. */
module PngCodec {
  import opened PngFilter
  import opened Rows
  import opened Wrappers
  import opened Images
  import opened PngChunks

  /** `zlib.decompress`, `zlib.compress` and `zlib.crc32`. */
  datatype Zlib = Zlib(decompress: seq<Byte> -> Option<seq<Byte>>, compress: seq<Byte> -> seq<Byte>,
                       crc: seq<Byte> -> int)

  /** The one law the round trip needs. */
  ghost predicate Inverse(z: Zlib) {
    forall raw :: z.decompress(z.compress(raw)) == Some(raw)
  }

  datatype Error = NotPng | ShortField | NoHeader | Unsupported | BadStream | Truncated | BadFilter | BadImage

  datatype Result<T> = Ok(value: T) | Err(error: Error)

  /** `_PNG_CHANNELS`; 0 stands for an unknown colour type. */
  function ChannelsOf(color: Byte): nat {
    if color == 0 then 1 else if color == 2 then 3 else if color == 6 then 4 else 0
  }

  // --- reading --------------------------------------------------------------------------------------

  /** The fields of an IHDR that the reader looks at. */
  datatype Fields = Fields(width: nat, height: nat, depth: Byte, color: Byte, interlace: Byte)

  function FieldsOf(h: seq<Byte>): Fields
    requires |h| == 13
  {
    Fields(Value(h[0..4]), Value(h[4..8]), h[8], h[9], h[12])
  }

  predicate Supported(f: Fields) { f.depth == 8 && ChannelsOf(f.color) != 0 && f.interlace == 0 }

  /** What follows the loop of `read_png`. */
  function Interpret(seen: Parsed, z: Zlib): Result<Image>
    requires seen.header.Some? ==> |seen.header.value| == 13
  {
    if seen.header.None? then Err(NoHeader)
    else
      var f := FieldsOf(seen.header.value);
      if !Supported(f) then Err(Unsupported)
      else if z.decompress(seen.idat).None? then Err(BadStream)
      else Picture(z.decompress(seen.idat).value, f.width, f.height, ChannelsOf(f.color))
  }

  function Picture(raw: seq<Byte>, width: nat, height: nat, channels: nat): Result<Image>
    requires channels >= 1
  {
    if |raw| != RawSize(width, height, channels) then Err(Truncated)
    else
      var data := Decoded(raw, width, height, channels);
      if data.None? then Err(BadFilter) else Ok(Image(width, height, channels, data.value))
  }

  const NOTHING_SEEN := Parsed(None, [])

  lemma {:induction false} WalkHeaderSize(rest: seq<Byte>, seen: Parsed)
    requires seen.header.Some? ==> |seen.header.value| == 13
    ensures var r := Walk(rest, seen);
            r.Some? && r.value.header.Some? ==> |r.value.header.value| == 13
    decreases |rest|
  {
    if |rest| >= 8 {
      var next := rest[Least(Extent(rest), |rest|)..];
      if |Payload(rest)| == 13 {
        WalkHeaderSize(next, seen.(header := Some(Payload(rest))));
      }
      WalkHeaderSize(next, seen.(idat := seen.idat + Payload(rest)));
      WalkHeaderSize(next, seen);
    }
  }

  function ReadOf(blob: seq<Byte>, z: Zlib): Result<Image> {
    if !HasSignature(blob) then Err(Error.NotPng)
    else
      var seen := Walk(blob[8..], NOTHING_SEEN);
      if seen.None? then Err(ShortField)
      else
        WalkHeaderSize(blob[8..], NOTHING_SEEN);
        Interpret(seen.value, z)
  }

  /** `read_png` on the file's bytes. */
  method ReadPng(blob: seq<Byte>, z: Zlib) returns (r: Result<Image>)
    ensures r == ReadOf(blob, z)
  {
    if blob[..Least(8, |blob|)] != SIGNATURE {
      return Err(Error.NotPng);
    }
    var seen := ReadChunks(blob);
    if seen.None? {
      return Err(ShortField);
    }
    r := DecodePicture(seen.value.header, seen.value.idat, z);
  }

  /** The loop of `read_png`; `None` is its struct.error. */
  method ReadChunks(blob: seq<Byte>) returns (r: Option<Parsed>)
    requires |blob| >= 8
    ensures r == Walk(blob[8..], NOTHING_SEEN)
    ensures r.Some? && r.value.header.Some? ==> |r.value.header.value| == 13
  {
    var offset: nat := 8;
    var seen, ended := NOTHING_SEEN, false;
    while !ended && offset + 8 <= |blob|
      invariant 8 <= offset && Reading(blob, offset, ended, seen)
      decreases !ended, |blob| - offset
    {
      var next := ReadChunk(blob, offset, seen);
      if next.None? {
        return None;
      }
      offset, ended, seen := next.value.0, next.value.1, next.value.2;
    }
    r := Some(seen);
  }

  /** One turn: where the next chunk starts, whether this was the last, and what has been collected. */
  method ReadChunk(blob: seq<Byte>, offset: nat, seen: Parsed) returns (r: Option<(nat, bool, Parsed)>)
    requires 8 <= offset && offset + 8 <= |blob| && Reading(blob, offset, false, seen)
    ensures r.None? ==> Walk(blob[8..], NOTHING_SEEN).None?
    ensures r.Some? ==> offset + 12 <= r.value.0 && Reading(blob, r.value.0, r.value.1, r.value.2)
  {
    var length := Value(blob[offset..offset + 4]);
    var kind := blob[offset + 4..offset + 8];
    var payload := blob[offset + 8..Least(offset + 8 + length, |blob|)];
    r := CollectChunk(kind, payload, offset + 12 + length, seen);
    ReadNext(blob, offset, length, kind, payload, seen, r);
  }

  /** What a chunk adds: the next offset, whether it is the last, and what has been collected. */
  function Collected(kind: seq<Byte>, payload: seq<Byte>, next: nat, seen: Parsed): (r: Option<(nat, bool, Parsed)>)
    ensures r.Some? ==> r.value.0 == next
    ensures r.Some? && (seen.header.Some? ==> |seen.header.value| == 13) && r.value.2.header.Some? ==>
      |r.value.2.header.value| == 13
  {
    if kind == IHDR then
      if |payload| != 13 then None else Some((next, false, seen.(header := Some(payload))))
    else if kind == IDAT then Some((next, false, seen.(idat := seen.idat + payload)))
    else Some((next, kind == IEND, seen))
  }

  method CollectChunk(kind: seq<Byte>, payload: seq<Byte>, next: nat, seen: Parsed)
      returns (r: Option<(nat, bool, Parsed)>)
    ensures r == Collected(kind, payload, next, seen)
  {
    if kind == IHDR {
      if |payload| != 13 {
        return None;
      }
      return Some((next, false, seen.(header := Some(payload))));
    } else if kind == IDAT {
      return Some((next, false, seen.(idat := seen.idat + payload)));
    }
    return Some((next, kind == IEND, seen));
  }

  /** `read_png` after its loop. */
  method DecodePicture(header: Option<seq<Byte>>, idat: seq<Byte>, z: Zlib) returns (r: Result<Image>)
    requires header.Some? ==> |header.value| == 13
    ensures r == Interpret(Parsed(header, idat), z)
  {
    if header.None? {
      return Err(NoHeader);
    }
    var f := FieldsOf(header.value);
    if !Supported(f) {
      return Err(Unsupported);
    }
    var raw := z.decompress(idat);
    if raw.None? {
      return Err(BadStream);
    }
    r := DecodeRaw(raw.value, f.width, f.height, ChannelsOf(f.color));
  }

  method DecodeRaw(raw: seq<Byte>, width: nat, height: nat, channels: nat) returns (r: Result<Image>)
    requires channels >= 1
    ensures r == Picture(raw, width, height, channels)
  {
    if |raw| != RawSize(width, height, channels) {
      return Err(Truncated);
    }
    var data := Unfilter(raw, width, height, channels);
    if data.None? {
      return Err(BadFilter);
    }
    r := Ok(Image(width, height, channels, data.value));
  }

  lemma PartsAt(blob: seq<Byte>, offset: nat, length: nat)
    requires offset + 8 <= |blob| && length == Value(blob[offset..offset + 4])
    ensures var rest := blob[offset..];
            && blob[offset + 4..offset + 8] == Name(rest)
            && blob[offset + 8..Least(offset + 8 + length, |blob|)] == Payload(rest)
            && blob[Least(offset + 12 + length, |blob|)..] == rest[Least(Extent(rest), |rest|)..]
  {
    assert blob[offset..][..4] == blob[offset..offset + 4];
  }

  /** Where the loop of `read_png` stands. */
  ghost predicate Reading(blob: seq<Byte>, offset: nat, ended: bool, seen: Parsed)
    requires |blob| >= 8
  {
    && (seen.header.Some? ==> |seen.header.value| == 13)
    && Walk(blob[8..], NOTHING_SEEN) == if ended then Some(seen) else Walk(blob[Least(offset, |blob|)..], seen)
  }

  /** One turn of the loop. */
  lemma ReadNext(blob: seq<Byte>, offset: nat, length: nat, kind: seq<Byte>, payload: seq<Byte>, seen: Parsed,
                 r: Option<(nat, bool, Parsed)>)
    requires 8 <= offset && offset + 8 <= |blob| && Reading(blob, offset, false, seen)
    requires length == Value(blob[offset..offset + 4]) && kind == blob[offset + 4..offset + 8]
    requires payload == blob[offset + 8..Least(offset + 8 + length, |blob|)]
    requires r == Collected(kind, payload, offset + 12 + length, seen)
    ensures r.None? ==> Walk(blob[8..], NOTHING_SEEN).None?
    ensures r.Some? ==> offset + 12 <= r.value.0 && Reading(blob, r.value.0, r.value.1, r.value.2)
  {
    WalkNext(blob, offset, length, kind, payload, seen);
  }

  /** The walk after a chunk that gave `r`, with `tail` behind it. */
  function After(r: Option<(nat, bool, Parsed)>, tail: seq<Byte>): Option<Parsed> {
    if r.None? then None else if r.value.1 then Some(r.value.2) else Walk(tail, r.value.2)
  }

  lemma WalkUnfold(rest: seq<Byte>, seen: Parsed, next: nat)
    requires |rest| >= 8
    ensures Walk(rest, seen)
         == After(Collected(Name(rest), Payload(rest), next, seen), rest[Least(Extent(rest), |rest|)..])
  {
  }

  lemma WalkNext(blob: seq<Byte>, offset: nat, length: nat, kind: seq<Byte>, payload: seq<Byte>, seen: Parsed)
    requires offset + 8 <= |blob| && length == Value(blob[offset..offset + 4]) && kind == blob[offset + 4..offset + 8]
    requires payload == blob[offset + 8..Least(offset + 8 + length, |blob|)]
    ensures Walk(blob[offset..], seen)
         == After(Collected(kind, payload, offset + 12 + length, seen), blob[Least(offset + 12 + length, |blob|)..])
  {
    PartsAt(blob, offset, length);
    WalkUnfold(blob[offset..], seen, offset + 12 + length);
  }

  /** Stripping a picture's file leaves the picture, or the error, that `read_png` gives: for every
      input that `strip_png` accepts. */
  lemma StripKeepsThePicture(raw: seq<Byte>, z: Zlib)
    requires StripOf(raw).Bytes?
    ensures ReadOf(StripOf(raw).value, z) == ReadOf(raw, z)
  {
    StripKeepsCritical(raw);
    StripKeepsWhatIsRead(raw, NOTHING_SEEN);
  }

  // --- writing --------------------------------------------------------------------------------------

  /** `_chunk`; `BadImage` for a payload whose length does not fit the field. */
  function Chunk(kind: seq<Byte>, payload: seq<Byte>, z: Zlib): seq<Byte>
    requires |payload| < WORD
  {
    Framed(BigEndian(|payload|), kind, payload, BigEndian(z.crc(kind + payload) % WORD))
  }

  function Framed(length: seq<Byte>, kind: seq<Byte>, payload: seq<Byte>, check: seq<Byte>): seq<Byte> {
    length + kind + payload + check
  }

  /** The raw stream: every row behind filter type 0. */
  function RawOf(image: Image): seq<Byte>
    requires WellFormed(image)
  {
    var rows := Lines(image.data, Stride(image.width, image.channels), image.height);
    Flat(seq(image.height, y requires 0 <= y < image.height => [0] + rows[y]))
  }

  function HeaderOf(image: Image, color: Byte): (h: seq<Byte>)
    requires image.width < WORD && image.height < WORD
    ensures |h| == 13
  {
    BigEndian(image.width) + BigEndian(image.height) + [8, color, 0, 0, 0]
  }

  /** `encode_png`: an error for a channel count it has no colour type for, or for sizes that do not
      fit their fields. */
  function Encode(image: Image, z: Zlib): Result<seq<Byte>>
    requires WellFormed(image)
  {
    if image.channels !in {1, 3, 4} || image.width >= WORD || image.height >= WORD then Err(BadImage)
    else
      var stream := z.compress(RawOf(image));
      if |stream| >= WORD then Err(BadImage)
      else Ok(FileOf(HeaderOf(image, ColorOf(image.channels)), stream, z))
  }

  function ColorOf(channels: nat): Byte {
    if channels == 1 then 0 else if channels == 3 then 2 else 6
  }

  function FileOf(header: seq<Byte>, stream: seq<Byte>, z: Zlib): seq<Byte>
    requires |header| == 13 && |stream| < WORD
  {
    SIGNATURE + Chunk(IHDR, header, z) + Chunk(IDAT, stream, z) + Chunk(IEND, [], z)
  }

  lemma ChunkParts(length: seq<Byte>, kind: seq<Byte>, payload: seq<Byte>, check: seq<Byte>)
    requires |length| == |kind| == |check| == 4 && Value(length) == |payload|
    ensures var c := Framed(length, kind, payload, check);
            && Complete(c) && |c| == 12 + |payload| && Name(c) == kind && Payload(c) == payload
            && c[4..|c| - 4] == kind + payload && c[|c| - 4..] == check
  {
    var c := Framed(length, kind, payload, check);
    assert c[..4] == length;
    assert c[4..8] == kind;
    assert c[8..8 + |payload|] == payload;
    assert c[4..|c| - 4] == kind + payload;
    assert c[|c| - 4..] == check;
  }

  /** Three complete chunks: a header, a stream and the end. */
  ghost predicate FileChunks(a: seq<Byte>, b: seq<Byte>, c: seq<Byte>, header: seq<Byte>, stream: seq<Byte>) {
    && |a| >= 8 && |b| >= 8 && |c| >= 8 && Complete(a) && Complete(b) && Complete(c)
    && Name(a) == IHDR && Name(b) == IDAT && Name(c) == IEND && Payload(a) == header && Payload(b) == stream
  }

  lemma FileWalk(a: seq<Byte>, b: seq<Byte>, c: seq<Byte>, header: seq<Byte>, stream: seq<Byte>)
    requires FileChunks(a, b, c, header, stream) && |header| == 13
    ensures Walk(a + b + c, NOTHING_SEEN) == Some(Parsed(Some(header), stream))
  {
    ThreeChunks(a, b, c);
    WalkIsChunkwise(a + b + c, NOTHING_SEEN);
    WalkByStep(a, [b, c], NOTHING_SEEN);
    WalkByStep(b, [c], Parsed(Some(header), []));
    assert [] + stream == stream;
    WalkByStep(c, [], Parsed(Some(header), stream));
    assert [a] + [b, c] == [a, b, c] && [b] + [c] == [b, c] && [c] + [] == [c];
  }

  lemma ReadsChunks(a: seq<Byte>, b: seq<Byte>, c: seq<Byte>, header: seq<Byte>, stream: seq<Byte>, z: Zlib)
    requires FileChunks(a, b, c, header, stream) && |header| == 13
    ensures ReadOf(SIGNATURE + a + b + c, z) == Interpret(Parsed(Some(header), stream), z)
  {
    AfterSignature(a, b, c);
    FileWalk(a, b, c, header, stream);
  }

  lemma ThreeChunks(a: seq<Byte>, b: seq<Byte>, c: seq<Byte>)
    requires Complete(a) && Complete(b) && Complete(c)
    ensures Split(a + b + c) == Some([a, b, c])
  {
    assert [c][1..] == [] && [b, c][1..] == [c] && [a, b, c][1..] == [b, c];
    assert Chain([]) && Chain([c]) && Chain([b, c]) && Chain([a, b, c]);
    assert Join([c]) == c + [] == c;
    assert Join([b, c]) == b + c;
    assert Join([a, b, c]) == a + (b + c) == a + b + c;
    ChainIsSplit([a, b, c]);
  }

  /** Filter type 0 writes the row itself. */
  lemma RawIsFilteredWithZero(image: Image)
    requires image.channels >= 1 && WellFormed(image)
    ensures var stride := Stride(image.width, image.channels);
            var rows := Lines(image.data, stride, image.height);
            RawOf(image) == Flat(FilterRows(Zeros(image.height), rows, stride, image.channels))
  {
    var stride := Stride(image.width, image.channels);
    var rows := Lines(image.data, stride, image.height);
    var lines := seq(image.height, y requires 0 <= y < image.height => [0] + rows[y]);
    forall y | 0 <= y < image.height
      ensures lines[y] == FilterRows(Zeros(image.height), rows, stride, image.channels)[y]
    {
      assert FilterRow(0, rows[y], Above(rows, stride, y), image.channels) == rows[y];
    }
    assert lines == FilterRows(Zeros(image.height), rows, stride, image.channels);
  }

  /** The stream that `encode_png` compresses decodes to the picture's bytes. */
  lemma RawDecodes(image: Image)
    requires image.channels >= 1 && WellFormed(image)
    ensures |RawOf(image)| == RawSize(image.width, image.height, image.channels)
    ensures Decoded(RawOf(image), image.width, image.height, image.channels) == Some(image.data)
  {
    var stride := Stride(image.width, image.channels);
    var rows := Lines(image.data, stride, image.height);
    RawIsFilteredWithZero(image);
    DecodedInvertsFilters(Zeros(image.height), rows, image.width, image.channels);
    FlatOfLines(image.data, stride, image.height, image.height);
    assert rows[..image.height] == rows && image.data[..|image.data|] == image.data;
  }

  /** Reading back what was written gives the same picture: for 1, 3 and 4 channels and every size,
      the empty ones included. */
  lemma EncodeThenRead(image: Image, z: Zlib)
    requires WellFormed(image) && Inverse(z) && Encode(image, z).Ok?
    ensures ReadOf(Encode(image, z).value, z) == Ok(image)
  {
    var color, stream := ColorOf(image.channels), z.compress(RawOf(image));
    var header := HeaderOf(image, color);
    FileRead(header, stream, z);
    HeaderRead(image, color);
    PictureRead(image, stream, z);
  }

  lemma FileRead(header: seq<Byte>, stream: seq<Byte>, z: Zlib)
    requires |header| == 13 && |stream| < WORD
    ensures ReadOf(FileOf(header, stream, z), z) == Interpret(Parsed(Some(header), stream), z)
  {
    var a, b, c := Chunk(IHDR, header, z), Chunk(IDAT, stream, z), Chunk(IEND, [], z);
    ChunkWritten(IHDR, header, z);
    ChunkWritten(IDAT, stream, z);
    ChunkWritten(IEND, [], z);
    ReadsChunks(a, b, c, header, stream, z);
  }

  /** What `_chunk` writes is complete, and has the checksum that `_chunk_ok` asks for. */
  lemma ChunkWritten(kind: seq<Byte>, payload: seq<Byte>, z: Zlib)
    requires |kind| == 4 && |payload| < WORD
    ensures var c := Chunk(kind, payload, z);
            Complete(c) && |c| >= 12 && Name(c) == kind && Payload(c) == payload && Sound(c, z.crc)
  {
    ChunkParts(BigEndian(|payload|), kind, payload, BigEndian(z.crc(kind + payload) % WORD));
  }

  /** `_chunk_ok` accepts every file that `encode_png` writes. */
  lemma EncodedIsSound(image: Image, z: Zlib)
    requires WellFormed(image) && Encode(image, z).Ok?
    ensures HasSignature(Encode(image, z).value) && ChunksOk(Encode(image, z).value[8..], z.crc) == Some(true)
  {
    var header, stream := HeaderOf(image, ColorOf(image.channels)), z.compress(RawOf(image));
    var a, b, c := Chunk(IHDR, header, z), Chunk(IDAT, stream, z), Chunk(IEND, [], z);
    ChunkWritten(IHDR, header, z);
    ChunkWritten(IDAT, stream, z);
    ChunkWritten(IEND, [], z);
    ThreeSound(a, b, c, z.crc);
    AfterSignature(a, b, c);
  }

  lemma AfterSignature(a: seq<Byte>, b: seq<Byte>, c: seq<Byte>)
    ensures var blob := SIGNATURE + a + b + c; HasSignature(blob) && blob[8..] == a + b + c
  {
    var blob := SIGNATURE + a + b + c;
    assert blob == SIGNATURE + (a + b + c);
    assert blob[..8] == SIGNATURE;
  }

  lemma ThreeSound(a: seq<Byte>, b: seq<Byte>, c: seq<Byte>, crc: seq<Byte> -> int)
    requires Sound(a, crc) && Sound(b, crc) && Sound(c, crc)
    ensures ChunksOk(a + b + c, crc) == Some(true)
  {
    ThreeChunks(a, b, c);
    ChunksOkMeans(a + b + c, crc);
  }

  lemma PictureRead(image: Image, stream: seq<Byte>, z: Zlib)
    requires WellFormed(image) && image.channels >= 1 && Inverse(z) && stream == z.compress(RawOf(image))
    ensures z.decompress(stream) == Some(RawOf(image))
    ensures Picture(RawOf(image), image.width, image.height, image.channels) == Ok(image)
  {
    RawDecodes(image);
  }

  lemma HeaderRead(image: Image, color: Byte)
    requires image.width < WORD && image.height < WORD
    ensures FieldsOf(HeaderOf(image, color)) == Fields(image.width, image.height, 8, color, 0)
  {
    var h := HeaderOf(image, color);
    assert h[0..4] == BigEndian(image.width) && h[4..8] == BigEndian(image.height);
  }

  // --- the bytes of a file ----------------------------------------------------------------------------

  /** The fields of a file with one stream. `rest` is what follows the sizes: depth, colour type,
      compression, filter and interlace. */
  datatype Parts = Parts(width: seq<Byte>, height: seq<Byte>, rest: seq<Byte>, length: seq<Byte>, stream: seq<Byte>,
                         check1: seq<Byte>, check2: seq<Byte>, check3: seq<Byte>)

  ghost predicate Fields4(p: Parts) {
    && |p.width| == |p.height| == |p.length| == |p.check1| == |p.check2| == |p.check3| == 4 && |p.rest| == 5
    && Horner(p.length[0], p.length[1], p.length[2], p.length[3]) == |p.stream|
  }

  /** A file of the signature, a header, one stream and the end. */
  function BytesOf(p: Parts): seq<Byte> {
    [137, 80, 78, 71, 13, 10, 26, 10]
    + Framed([0, 0, 0, 13], [73, 72, 68, 82], p.width + p.height + p.rest, p.check1)
    + Framed(p.length, [73, 68, 65, 84], p.stream, p.check2)
    + Framed([0, 0, 0, 0], [73, 69, 78, 68], [], p.check3)
  }

  /** The sizes that the header gives. */
  ghost predicate Sizes(p: Parts, w: nat, h: nat)
    requires Fields4(p)
  {
    && w == Horner(p.width[0], p.width[1], p.width[2], p.width[3])
    && h == Horner(p.height[0], p.height[1], p.height[2], p.height[3])
  }

  /** How many channels a colour type has, if `read_png` knows it. */
  ghost predicate HasChannels(color: Byte, n: nat) {
    (color == 0 && n == 1) || (color == 2 && n == 3) || (color == 6 && n == 4)
  }

  /** What is read from a header and a stream: the picture that the standard makes of it, or the first error
      that applies. */
  ghost predicate ReadAs(w: nat, h: nat, rest: seq<Byte>, raw: Option<seq<Byte>>, r: Result<Image>)
    requires |rest| == 5
  {
    if rest[0] != 8 || rest[4] != 0 || rest[1] !in {0, 2, 6} then r == Err(Unsupported)
    else if raw.None? then r == Err(BadStream)
    else exists n :: HasChannels(rest[1], n) && DecodedAs(raw.value, w, h, n, r)
  }

  ghost predicate DecodedAs(raw: seq<Byte>, w: nat, h: nat, n: nat, r: Result<Image>) {
    if |raw| != h * (1 + w * n) then r == Err(Truncated)
    else if exists y: nat :: y < h && BadRow(raw, w * n, y) then r == Err(BadFilter)
    else
      r.Ok? && r.value.width == w && r.value.height == h && r.value.channels == n
      && StandardPicture(raw, w, h, n, r.value.data)
  }

  /** Such a file reads so, whatever its checksums are. */
  lemma ReadsStandardFile(p: Parts, z: Zlib, w: nat, h: nat)
    requires Fields4(p) && Sizes(p, w, h)
    ensures ReadAs(w, h, p.rest, z.decompress(p.stream), ReadOf(BytesOf(p), z))
  {
    var header := p.width + p.height + p.rest;
    ChunkParts([0, 0, 0, 13], IHDR, header, p.check1);
    ChunkParts(p.length, IDAT, p.stream, p.check2);
    ChunkParts([0, 0, 0, 0], IEND, [], p.check3);
    ReadsChunks(Framed([0, 0, 0, 13], IHDR, header, p.check1), Framed(p.length, IDAT, p.stream, p.check2),
                Framed([0, 0, 0, 0], IEND, [], p.check3), header, p.stream, z);
    HeaderMeans(header, p.width, p.height, p.rest, w, h, p.stream, z);
  }

  lemma HeaderMeans(header: seq<Byte>, width: seq<Byte>, height: seq<Byte>, rest: seq<Byte>, w: nat, h: nat,
                    stream: seq<Byte>, z: Zlib)
    requires |width| == |height| == 4 && |rest| == 5 && header == width + height + rest
    requires w == Value(width) && h == Value(height)
    ensures ReadAs(w, h, rest, z.decompress(stream), Interpret(Parsed(Some(header), stream), z))
  {
    assert header[0..4] == width && header[4..8] == height;
    assert header[8] == rest[0] && header[9] == rest[1] && header[12] == rest[4];
    var n := ChannelsOf(rest[1]);
    if z.decompress(stream).Some? && n != 0 {
      PictureMeans(z.decompress(stream).value, w, h, n);
      assert HasChannels(rest[1], n);
    }
  }

  lemma PictureMeans(raw: seq<Byte>, w: nat, h: nat, n: nat)
    requires n >= 1
    ensures DecodedAs(raw, w, h, n, Picture(raw, w, h, n))
  {
    SizesAreProducts(w, h, n);
    if |raw| == RawSize(w, h, n) {
      DecodedIsStandard(raw, w, h, n);
    }
  }

  /** Row `y` is behind filter type 0. */
  ghost predicate Unfiltered(raw: seq<Byte>, stride: nat, y: nat) {
    ByteAt(raw, y * (1 + stride)) == 0
  }

  /** What `encode_png` writes is such a file: its stream holds the picture's rows behind filter type 0. */
  lemma EncodesStandardFile(image: Image, z: Zlib, blob: seq<Byte>) returns (p: Parts, raw: seq<Byte>)
    requires WellFormed(image) && Encode(image, z) == Ok(blob)
    ensures Fields4(p) && Sizes(p, image.width, image.height) && blob == BytesOf(p)
    ensures p.rest == [8, p.rest[1], 0, 0, 0] && HasChannels(p.rest[1], image.channels)
    ensures p.stream == z.compress(raw)
    ensures StandardPicture(raw, image.width, image.height, image.channels, image.data)
    ensures forall y: nat | y < image.height :: Unfiltered(raw, image.width * image.channels, y)
  {
    raw := RawOf(image);
    var color, stream := ColorOf(image.channels), z.compress(raw);
    var header := HeaderOf(image, color);
    p := Parts(BigEndian(image.width), BigEndian(image.height), [8, color, 0, 0, 0], BigEndian(|stream|), stream,
               BigEndian(z.crc(IHDR + header) % WORD), BigEndian(z.crc(IDAT + stream) % WORD),
               BigEndian(z.crc(IEND + []) % WORD));
    HeaderBytes(image, p.width, p.height, color);
    FileBytes(header, color, p, z);
    RawIsStandard(image, raw);
  }

  lemma HeaderBytes(image: Image, width: seq<Byte>, height: seq<Byte>, color: Byte)
    requires image.width < WORD && image.height < WORD
    requires width == BigEndian(image.width) && height == BigEndian(image.height)
    ensures HeaderOf(image, color) == width + height + [8, color, 0, 0, 0]
  {
  }

  lemma FileBytes(header: seq<Byte>, color: Byte, p: Parts, z: Zlib)
    requires |header| == 13 && header == p.width + p.height + p.rest && |p.stream| < WORD
    requires p.length == BigEndian(|p.stream|) && p.check1 == BigEndian(z.crc(IHDR + header) % WORD)
    requires p.check2 == BigEndian(z.crc(IDAT + p.stream) % WORD) && p.check3 == BigEndian(z.crc(IEND + []) % WORD)
    ensures FileOf(header, p.stream, z) == BytesOf(p)
  {
    FixedLengths();
    ThreeFrames(header, p.length, p.stream, p.check1, p.check2, p.check3);
  }

  /** The names in bytes. */
  lemma ThreeFrames(header: seq<Byte>, length: seq<Byte>, stream: seq<Byte>, check1: seq<Byte>, check2: seq<Byte>,
                    check3: seq<Byte>)
    ensures Framed([0, 0, 0, 13], IHDR, header, check1) == Framed([0, 0, 0, 13], [73, 72, 68, 82], header, check1)
    ensures Framed(length, IDAT, stream, check2) == Framed(length, [73, 68, 65, 84], stream, check2)
    ensures Framed([0, 0, 0, 0], IEND, [], check3) == Framed([0, 0, 0, 0], [73, 69, 78, 68], [], check3)
  {
  }

  lemma FixedLengths()
    ensures BigEndian(13) == [0, 0, 0, 13] && BigEndian(0) == [0, 0, 0, 0]
  {
    SmallLength(13);
    SmallLength(0);
  }

  lemma SmallLength(n: nat)
    requires n < 256
    ensures BigEndian(n) == [0, 0, 0, n]
  {
    var b := BigEndian(n);
    assert n / 256 == 0 && n % 256 == n;
    assert b[0] == 0 && b[1] == 0 && b[2] == 0 && b[3] == n;
  }

  lemma RawIsStandard(image: Image, raw: seq<Byte>)
    requires WellFormed(image) && image.channels >= 1 && raw == RawOf(image)
    ensures StandardPicture(raw, image.width, image.height, image.channels, image.data)
    ensures forall y: nat | y < image.height :: Unfiltered(raw, image.width * image.channels, y)
  {
    RawDecodes(image);
    DecodedIsStandard(raw, image.width, image.height, image.channels);
    forall y: nat | y < image.height ensures Unfiltered(raw, image.width * image.channels, y) {
      RawRow(image, y);
    }
  }

  lemma RawRow(image: Image, y: nat)
    requires WellFormed(image) && y < image.height
    ensures Unfiltered(RawOf(image), image.width * image.channels, y)
  {
    var stride := Stride(image.width, image.channels);
    var rows := Lines(image.data, stride, image.height);
    var lines := seq(image.height, k requires 0 <= k < image.height => [0] + rows[k]);
    SizesAreProducts(image.width, image.height, image.channels);
    FlatByte(lines, 1 + stride, y, 0);
  }

  // --- more than one stream chunk ---------------------------------------------------------------------

  ghost predicate StreamChunk(c: seq<Byte>) {
    |c| >= 8 && Complete(c) && Name(c) == IDAT
  }

  /** The payloads one after another. */
  function Streams(l: seq<seq<Byte>>): seq<Byte>
  {
    if l == [] || |l[0]| < 8 then [] else Payload(l[0]) + Streams(l[1..])
  }

  lemma {:induction false} StreamsWalk(l: seq<seq<Byte>>, end: seq<Byte>, seen: Parsed)
    requires (forall c | c in l :: StreamChunk(c)) && |end| >= 8 && Name(end) == IEND
    ensures WalkChunks(l + [end], seen) == Some(seen.(idat := seen.idat + Streams(l)))
    decreases |l|
  {
    if l == [] {
      assert l + [end] == [end] && seen.idat + [] == seen.idat;
    } else {
      assert l[0] in l && l + [end] == [l[0]] + (l[1..] + [end]);
      var next := seen.(idat := seen.idat + Payload(l[0]));
      WalkByStep(l[0], l[1..] + [end], seen);
      StreamsWalk(l[1..], end, next);
      StreamFirst(l, seen.idat);
    }
  }

  lemma StreamFirst(l: seq<seq<Byte>>, before: seq<Byte>)
    requires l != [] && |l[0]| >= 8
    ensures before + Payload(l[0]) + Streams(l[1..]) == before + Streams(l)
  {
  }

  lemma {:induction false} CompleteChain(l: seq<seq<Byte>>)
    requires forall c | c in l :: Complete(c)
    ensures Chain(l)
    decreases |l|
  {
    if l != [] {
      assert l[0] in l;
      CompleteChain(l[1..]);
    }
  }

  /** However many chunks the stream is cut into, the file reads as if it were in one. */
  lemma StreamsJoin(a: seq<Byte>, l: seq<seq<Byte>>, end: seq<Byte>, header: seq<Byte>, z: Zlib)
    requires |a| >= 8 && Complete(a) && Name(a) == IHDR && Payload(a) == header && |header| == 13
    requires (forall c | c in l :: StreamChunk(c)) && |end| >= 8 && Complete(end) && Name(end) == IEND
    ensures ReadOf(SIGNATURE + Join([a] + l + [end]), z) == Interpret(Parsed(Some(header), Streams(l)), z)
  {
    var all := [a] + l + [end];
    CompleteChain(all);
    ChainIsSplit(all);
    WalkIsChunkwise(Join(all), NOTHING_SEEN);
    assert all == [a] + (l + [end]);
    WalkByStep(a, l + [end], NOTHING_SEEN);
    StreamsWalk(l, end, Parsed(Some(header), []));
    assert [] + Streams(l) == Streams(l);
    BehindSignature(Join(all));
  }

  lemma BehindSignature(body: seq<Byte>)
    ensures HasSignature(SIGNATURE + body) && (SIGNATURE + body)[8..] == body
  {
    assert (SIGNATURE + body)[..8] == SIGNATURE;
  }
}
