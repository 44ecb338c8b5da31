/** PNG chunk streams: how `read_png` walks one (`scripts/parity/compare.py`) and what `strip_png`
    and `_chunk_ok` (`scripts/editor/make_pack_thumbs.py`) do to it. */
module PngChunks {
  import opened Rows
  import opened Sorting
  import opened Wrappers

  const SIGNATURE: seq<Byte> := [137, 80, 78, 71, 13, 10, 26, 10]
  const IHDR: seq<Byte> := [73, 72, 68, 82]
  const PLTE: seq<Byte> := [80, 76, 84, 69]
  const IDAT: seq<Byte> := [73, 68, 65, 84]
  const IEND: seq<Byte> := [73, 69, 78, 68]

  predicate IsCritical(name: seq<Byte>) { name == IHDR || name == PLTE || name == IDAT || name == IEND }

  // --- 32-bit big-endian ----------------------------------------------------------------------------

  const WORD: int := 0x1_0000_0000

  /** The first byte is the highest. */
  function Horner(b0: int, b1: int, b2: int, b3: int): int {
    ((b0 * 256 + b1) * 256 + b2) * 256 + b3
  }

  /** `struct.unpack(">I", b)`. */
  function Value(b: seq<Byte>): (v: nat)
    requires |b| == 4
    ensures v < WORD && v == Horner(b[0], b[1], b[2], b[3])
  {
    var b0: int, b1: int, b2: int, b3: int := b[0], b[1], b[2], b[3];
    b0 * 0x100_0000 + b1 * 0x1_0000 + b2 * 0x100 + b3
  }

  /** `struct.pack(">I", n)`. */
  function BigEndian(n: nat): (b: seq<Byte>)
    requires n < WORD
    ensures |b| == 4 && Value(b) == n
  {
    var (n1, n2, n3) := (n / 256, n / 256 / 256, n / 256 / 256 / 256);
    [n3, n2 % 256, n1 % 256, n % 256]
  }

  function Least(x: nat, y: nat): nat { if x < y then x else y }

  // --- chunks ---------------------------------------------------------------------------------------

  /** The length field plus the twelve bytes around the payload. */
  function Extent(rest: seq<Byte>): nat
    requires |rest| >= 4
  {
    12 + Value(rest[..4])
  }

  /** The four bytes after the length (fewer at the end of the data). */
  function Name(rest: seq<Byte>): seq<Byte>
    requires |rest| >= 4
  {
    rest[4..Least(8, |rest|)]
  }

  function Payload(rest: seq<Byte>): seq<Byte>
    requires |rest| >= 8
  {
    rest[8..Least(Extent(rest) - 4, |rest|)]
  }

  function Prepend(c: seq<Byte>, rest: Option<seq<seq<Byte>>>): Option<seq<seq<Byte>>> {
    if rest.Some? then Some([c] + rest.value) else None
  }

  /** The stream cut at the chunk boundaries; the last chunk may be cut short by the end of the
      data. `None`: a length field is cut short. */
  function Split(rest: seq<Byte>): Option<seq<seq<Byte>>> {
    if rest == [] then Some([])
    else if |rest| < 4 then None
    else if Extent(rest) >= |rest| then Some([rest])
    else Prepend(rest[..Extent(rest)], Split(rest[Extent(rest)..]))
  }

  function Join(l: seq<seq<Byte>>): seq<Byte> {
    if l == [] then [] else l[0] + Join(l[1..])
  }

  ghost predicate Complete(c: seq<Byte>) { |c| >= 4 && |c| == Extent(c) }

  ghost predicate Cut(c: seq<Byte>) { |c| >= 4 && |c| <= Extent(c) }

  /** Complete chunks, the last one possibly cut short. */
  ghost predicate Chain(l: seq<seq<Byte>>) {
    l == [] || (Cut(l[0]) && (|l| > 1 ==> Complete(l[0])) && Chain(l[1..]))
  }

  lemma {:induction false} SplitIsChain(rest: seq<Byte>)
    requires Split(rest).Some?
    ensures Chain(Split(rest).value) && Join(Split(rest).value) == rest
    decreases |rest|
  {
    if rest != [] {
      if Extent(rest) >= |rest| {
        assert Split(rest).value[1..] == [];
      } else {
        var c, tail := rest[..Extent(rest)], rest[Extent(rest)..];
        SplitIsChain(tail);
        assert c[..4] == rest[..4];
        assert Split(rest).value[1..] == Split(tail).value;
        assert rest == c + tail;
      }
    }
  }

  /** The chunks of a chain can be read back from its bytes. */
  lemma {:induction false} ChainIsSplit(l: seq<seq<Byte>>)
    requires Chain(l)
    ensures Split(Join(l)) == Some(l)
    decreases |l|
  {
    if l != [] {
      var rest := Join(l);
      ChainIsSplit(l[1..]);
      assert rest[..4] == l[0][..4];
      if |l| == 1 {
        assert l == [l[0]] && Join(l[1..]) == [] && rest == l[0];
      } else {
        JoinNonempty(l[1..]);
        assert rest[..Extent(rest)] == l[0] && rest[Extent(rest)..] == Join(l[1..]);
        assert l == [l[0]] + l[1..];
      }
    }
  }

  lemma JoinNonempty(l: seq<seq<Byte>>)
    requires Chain(l) && l != []
    ensures |Join(l)| >= 4
  {
  }

  function Critical(l: seq<seq<Byte>>): seq<seq<Byte>>
    requires forall c | c in l :: |c| >= 4
  {
    if l == [] then []
    else
      assert l[0] in l;
      (if IsCritical(Name(l[0])) then [l[0]] else []) + Critical(l[1..])
  }

  lemma {:induction false} ChainMembers(l: seq<seq<Byte>>)
    requires Chain(l)
    ensures forall c | c in l :: Cut(c)
    decreases |l|
  {
    if l != [] {
      ChainMembers(l[1..]);
      assert l == [l[0]] + l[1..];
    }
  }

  lemma {:induction false} CriticalIsChain(l: seq<seq<Byte>>)
    requires Chain(l)
    ensures forall c | c in l :: |c| >= 4
    ensures forall c | c in Critical(l) :: |c| >= 4 && c in l
    ensures Chain(Critical(l)) && Critical(Critical(l)) == Critical(l)
    ensures |Critical(l)| <= |l|
    decreases |l|
  {
    ChainMembers(l);
    if l != [] {
      CriticalIsChain(l[1..]);
      var rest := Critical(l[1..]);
      if IsCritical(Name(l[0])) {
        assert Critical(l)[1..] == rest;
      } else {
        assert Critical(l) == rest;
      }
    }
  }

  // --- strip_png ------------------------------------------------------------------------------------

  /** `NotPng` is the signature's ValueError, `BadStruct` the struct.error of a short field. */
  datatype Stripped = Bytes(value: seq<Byte>) | NotPng | BadStruct

  function HasSignature(raw: seq<Byte>): bool { raw[..Least(8, |raw|)] == SIGNATURE }

  function StripOf(raw: seq<Byte>): Stripped {
    if !HasSignature(raw) then NotPng
    else if Split(raw[8..]).None? then BadStruct
    else
      SplitIsChain(raw[8..]);
      CriticalIsChain(Split(raw[8..]).value);
      Bytes(SIGNATURE + Join(Critical(Split(raw[8..]).value)))
  }

  /** Stripping keeps exactly the critical chunks, byte for byte and in order. */
  lemma StripKeepsCritical(raw: seq<Byte>)
    requires StripOf(raw).Bytes?
    ensures var s := StripOf(raw).value;
            && HasSignature(s)
            && Chain(Split(raw[8..]).value) && (forall c | c in Split(raw[8..]).value :: |c| >= 4)
            && Split(s[8..]) == Some(Critical(Split(raw[8..]).value))
            && raw == SIGNATURE + Join(Split(raw[8..]).value)
  {
    SplitIsChain(raw[8..]);
    var l := Split(raw[8..]).value;
    CriticalIsChain(l);
    ChainIsSplit(Critical(l));
    var s := StripOf(raw).value;
    assert s[..8] == SIGNATURE && s[8..] == Join(Critical(l));
    assert raw == raw[..8] + raw[8..];
  }

  ghost predicate CriticalAt(l: seq<seq<Byte>>, k: nat)
    requires k < |l|
  {
    |l[k]| >= 4 && IsCritical(Name(l[k]))
  }

  /** The positions of the critical chunks. */
  lemma {:induction false} CriticalPositions(l: seq<seq<Byte>>) returns (at: seq<nat>)
    requires forall c | c in l :: |c| >= 4
    ensures Picks(at, l, Critical(l))
    ensures forall k: nat | k < |l| :: k in at <==> CriticalAt(l, k)
    decreases |l|
  {
    at := [];
    if l != [] {
      var front, c := l[..|l| - 1], l[|l| - 1];
      assert l == front + [c];
      forall x | x in front + [c] ensures |x| >= 4 {
        assert x in l;
      }
      var before := CriticalPositions(front);
      CriticalGrows(front, c);
      PicksMore(before, front, Critical(front), c);
      at := before + if IsCritical(Name(c)) then [|front|] else [];
      PositionsGrow(front, c, l, before, at);
    }
  }

  lemma PositionsGrow(front: seq<seq<Byte>>, c: seq<Byte>, l: seq<seq<Byte>>, before: seq<nat>, at: seq<nat>)
    requires l == front + [c] && |c| >= 4 && forall k | 0 <= k < |before| :: before[k] < |front|
    requires forall k: nat | k < |front| :: k in before <==> CriticalAt(front, k)
    requires at == before + if IsCritical(Name(c)) then [|front|] else []
    ensures forall k: nat | k < |l| :: k in at <==> CriticalAt(l, k)
  {
    forall k: nat | k < |l| ensures k in at <==> CriticalAt(l, k) {
      assert k < |front| ==> l[k] == front[k];
    }
  }

  lemma CriticalGrows(front: seq<seq<Byte>>, c: seq<Byte>)
    requires (forall x | x in front :: |x| >= 4) && (forall x | x in front + [c] :: |x| >= 4) && |c| >= 4
    ensures Critical(front + [c]) == Critical(front) + if IsCritical(Name(c)) then [c] else []
  {
    var last := [c];
    CriticalConcat(front, last);
    assert last[1..] == [];
  }

  /** As long as the length field says, but for a last chunk that is cut short. */
  ghost predicate Sized(c: seq<Byte>, last: bool) {
    |c| >= 4 && var size := 12 + Horner(c[0], c[1], c[2], c[3]); if last then |c| <= size else |c| == size
  }

  /** Named IHDR, PLTE, IDAT or IEND. */
  ghost predicate NamedCritical(c: seq<Byte>) {
    |c| >= 8 && (c[4..8] == [73, 72, 68, 82] || c[4..8] == [80, 76, 84, 69]
                 || c[4..8] == [73, 68, 65, 84] || c[4..8] == [73, 69, 78, 68])
  }

  lemma CriticalIsNamed(c: seq<Byte>)
    requires |c| >= 4
    ensures IsCritical(Name(c)) <==> NamedCritical(c)
  {
  }

  lemma ChunkIsSized(l: seq<seq<Byte>>, k: nat)
    requires Chain(l) && k < |l|
    ensures Sized(l[k], k == |l| - 1)
  {
    ChainAt(l, k);
    var c := l[k];
    assert c[..4][0] == c[0] && c[..4][1] == c[1] && c[..4][2] == c[2] && c[..4][3] == c[3];
  }

  /** In bytes: `at` lists the critical chunks, and those are what is left, in order. */
  lemma StripInBytes(raw: seq<Byte>) returns (at: seq<nat>)
    requires StripOf(raw).Bytes?
    ensures raw[..8] == StripOf(raw).value[..8] == [137, 80, 78, 71, 13, 10, 26, 10]
    ensures Split(raw[8..]).Some? && Split(StripOf(raw).value[8..]).Some?
    ensures Picks(at, Split(raw[8..]).value, Split(StripOf(raw).value[8..]).value)
    ensures var l := Split(raw[8..]).value;
            forall k: nat | k < |l| :: Sized(l[k], k == |l| - 1) && (k in at <==> NamedCritical(l[k]))
  {
    StripKeepsCritical(raw);
    var l := Split(raw[8..]).value;
    at := CriticalPositions(l);
    forall k: nat | k < |l| ensures Sized(l[k], k == |l| - 1) && (k in at <==> NamedCritical(l[k])) {
      ChunkIsSized(l, k);
      CriticalIsNamed(l[k]);
    }
  }

  lemma {:induction false} ChainAt(l: seq<seq<Byte>>, k: nat)
    requires Chain(l) && k < |l|
    ensures Cut(l[k]) && (k < |l| - 1 ==> Complete(l[k]))
    decreases k
  {
    if k > 0 {
      ChainAt(l[1..], k - 1);
    }
  }

  lemma StripIsIdempotent(raw: seq<Byte>)
    requires StripOf(raw).Bytes?
    ensures StripOf(StripOf(raw).value) == StripOf(raw)
  {
    StripKeepsCritical(raw);
    CriticalIsChain(Split(raw[8..]).value);
  }

  /** What the loop has done when it stands at `offset`. */
  ghost predicate Stripping(raw: seq<Byte>, offset: nat, done: seq<seq<Byte>>, out: seq<Byte>)
    requires |raw| >= 8
  {
    && Split(raw[8..]) == Before(done, Split(raw[Least(offset, |raw|)..]))
    && (forall c | c in done :: |c| >= 4)
    && out == SIGNATURE + Join(Critical(done))
  }

  /** `strip_png`. */
  method StripPng(raw: seq<Byte>) returns (r: Stripped)
    ensures r == StripOf(raw)
  {
    if raw[..Least(8, |raw|)] != SIGNATURE {
      return NotPng;
    }
    var out := raw[..8];
    var offset := 8;
    ghost var done: seq<seq<Byte>> := [];
    BeforeNothing(Split(raw[8..]));
    while offset < |raw|
      invariant 8 <= offset && Stripping(raw, offset, done, out)
      decreases |raw| - offset
    {
      if |raw| - offset < 4 {
        return BadStruct;
      }
      var length := Value(raw[offset..offset + 4]);
      var name := raw[offset + 4..Least(offset + 8, |raw|)];
      var end := offset + 12 + length;
      var chunk := raw[offset..Least(end, |raw|)];
      StripNext(raw, offset, length, end, done, name, chunk, out);
      if IsCritical(name) {
        out := out + chunk;
      }
      done := done + [chunk];
      offset := end;
    }
    StripEnds(raw, offset, done, out);
    r := Bytes(out);
  }

  lemma StripEnds(raw: seq<Byte>, offset: nat, done: seq<seq<Byte>>, out: seq<Byte>)
    requires |raw| >= 8 && HasSignature(raw) && offset >= |raw| && Stripping(raw, offset, done, out)
    ensures StripOf(raw) == Bytes(out)
  {
    assert raw[|raw|..] == [];
    assert done + [] == done;
  }

  /** The slices the loop takes are the parts of the stream's first chunk. */
  lemma ChunkAt(raw: seq<Byte>, offset: nat, length: nat, end: nat)
    requires offset + 4 <= |raw| && length == Value(raw[offset..offset + 4]) && end == offset + 12 + length
    ensures var rest := raw[offset..];
            var size := Least(Extent(rest), |rest|);
            && raw[offset + 4..Least(offset + 8, |raw|)] == Name(rest)
            && raw[offset..Least(end, |raw|)] == rest[..size]
            && raw[Least(end, |raw|)..] == rest[size..]
  {
    var rest := raw[offset..];
    assert rest[..4] == raw[offset..offset + 4];
  }

  /** One turn of the loop. */
  lemma StripNext(raw: seq<Byte>, offset: nat, length: nat, end: nat, done: seq<seq<Byte>>, name: seq<Byte>,
                  chunk: seq<Byte>, out: seq<Byte>)
    requires 8 <= offset && offset + 4 <= |raw| && Stripping(raw, offset, done, out)
    requires length == Value(raw[offset..offset + 4]) && end == offset + 12 + length
    requires name == raw[offset + 4..Least(offset + 8, |raw|)] && chunk == raw[offset..Least(end, |raw|)]
    ensures Stripping(raw, end, done + [chunk], if IsCritical(name) then out + chunk else out)
  {
    ChunkAt(raw, offset, length, end);
    SplitNext(raw[offset..], raw[Least(end, |raw|)..], done, chunk);
    OutNext(done, chunk, name, out);
  }

  lemma SplitNext(rest: seq<Byte>, tail: seq<Byte>, done: seq<seq<Byte>>, chunk: seq<Byte>)
    requires |rest| >= 4 && chunk == rest[..Least(Extent(rest), |rest|)] && tail == rest[|chunk|..]
    ensures |chunk| >= 4 && Name(chunk) == Name(rest)
    ensures Before(done, Split(rest)) == Before(done + [chunk], Split(tail))
  {
    ChunkNext(rest, done);
  }

  lemma OutNext(done: seq<seq<Byte>>, chunk: seq<Byte>, name: seq<Byte>, out: seq<Byte>)
    requires (forall c | c in done :: |c| >= 4) && |chunk| >= 4 && name == Name(chunk)
    requires out == SIGNATURE + Join(Critical(done))
    ensures forall c | c in done + [chunk] :: |c| >= 4
    ensures (if IsCritical(name) then out + chunk else out) == SIGNATURE + Join(Critical(done + [chunk]))
  {
    CriticalLast(done, chunk);
  }

  function Before(done: seq<seq<Byte>>, rest: Option<seq<seq<Byte>>>): Option<seq<seq<Byte>>> {
    if rest.Some? then Some(done + rest.value) else None
  }

  lemma BeforeNothing(rest: Option<seq<seq<Byte>>>)
    ensures Before([], rest) == rest
  {
    if rest.Some? {
      assert [] + rest.value == rest.value;
    }
  }

  lemma ChunkNext(rest: seq<Byte>, done: seq<seq<Byte>>)
    requires |rest| >= 4
    ensures var chunk := rest[..Least(Extent(rest), |rest|)];
            && |chunk| >= 4 && Name(chunk) == Name(rest)
            && Before(done, Split(rest)) == Before(done + [chunk], Split(rest[|chunk|..]))
  {
    var chunk := rest[..Least(Extent(rest), |rest|)];
    var tail := Split(rest[|chunk|..]);
    if Extent(rest) >= |rest| {
      assert chunk == rest && rest[|chunk|..] == [];
      assert done + [chunk] + [] == done + [chunk];
    } else if tail.Some? {
      assert done + ([chunk] + tail.value) == (done + [chunk]) + tail.value;
    }
  }

  lemma {:induction false} CriticalConcat(a: seq<seq<Byte>>, b: seq<seq<Byte>>)
    requires (forall c | c in a :: |c| >= 4) && (forall c | c in b :: |c| >= 4)
    ensures Critical(a + b) == Critical(a) + Critical(b)
    decreases |a|
  {
    if a == [] {
      assert a + b == b;
    } else {
      assert (a + b)[1..] == a[1..] + b;
      CriticalConcat(a[1..], b);
    }
  }

  lemma {:induction false} JoinConcat(a: seq<seq<Byte>>, b: seq<seq<Byte>>)
    ensures Join(a + b) == Join(a) + Join(b)
    decreases |a|
  {
    if a == [] {
      assert a + b == b;
    } else {
      assert (a + b)[1..] == a[1..] + b;
      JoinConcat(a[1..], b);
    }
  }

  lemma CriticalLast(done: seq<seq<Byte>>, chunk: seq<Byte>)
    requires (forall c | c in done :: |c| >= 4) && |chunk| >= 4
    ensures Join(Critical(done + [chunk]))
         == Join(Critical(done)) + if IsCritical(Name(chunk)) then chunk else []
  {
    CriticalConcat(done, [chunk]);
    JoinConcat(Critical(done), Critical([chunk]));
    assert [chunk][1..] == [];
    assert Join([chunk]) == chunk + Join([]);
  }

  // --- _chunk_ok ------------------------------------------------------------------------------------

  /** A complete chunk whose stored checksum is that of its name and body. */
  ghost predicate Sound(c: seq<Byte>, crc: seq<Byte> -> int) {
    Complete(c) && Value(c[|c| - 4..]) == crc(c[4..|c| - 4]) % WORD
  }

  /** `_chunk_ok` from the first chunk on; `None` is its struct.error. */
  function ChunksOk(rest: seq<Byte>, crc: seq<Byte> -> int): Option<bool> {
    if rest == [] then Some(true)
    else if |rest| < 4 then None
    else if |rest| < Extent(rest) then None
    else if Value(rest[Extent(rest) - 4..Extent(rest)]) != crc(rest[4..Extent(rest) - 4]) % WORD then Some(false)
    else ChunksOk(rest[Extent(rest)..], crc)
  }

  /** It accepts exactly the streams of sound chunks. */
  lemma {:induction false} ChunksOkMeans(rest: seq<Byte>, crc: seq<Byte> -> int)
    ensures ChunksOk(rest, crc) == Some(true)
       <==> Split(rest).Some? && forall c | c in Split(rest).value :: Sound(c, crc)
    decreases |rest|
  {
    if |rest| >= 4 {
      if Extent(rest) >= |rest| {
        if Extent(rest) == |rest| {
          assert ChunksOk(rest[|rest|..], crc) == Some(true);
          assert rest[Extent(rest) - 4..Extent(rest)] == rest[|rest| - 4..];
        }
        assert rest in Split(rest).value;
      } else {
        var c, tail := rest[..Extent(rest)], rest[Extent(rest)..];
        assert c[..4] == rest[..4] && c[|c| - 4..] == rest[Extent(rest) - 4..Extent(rest)];
        assert c[4..|c| - 4] == rest[4..Extent(rest) - 4];
        ChunksOkMeans(tail, crc);
        if Split(tail).Some? {
          assert c in Split(rest).value && forall x | x in Split(tail).value :: x in Split(rest).value;
        }
      }
    } else if rest != [] {
      assert Split(rest).None?;
    }
  }

  /** Stripping a stream that `_chunk_ok` accepts gives one that it accepts. */
  lemma StripPreservesSoundness(raw: seq<Byte>, crc: seq<Byte> -> int)
    requires HasSignature(raw) && ChunksOk(raw[8..], crc) == Some(true)
    ensures StripOf(raw).Bytes? && ChunksOk(StripOf(raw).value[8..], crc) == Some(true)
  {
    ChunksOkMeans(raw[8..], crc);
    StripKeepsCritical(raw);
    CriticalIsChain(Split(raw[8..]).value);
    ChunksOkMeans(StripOf(raw).value[8..], crc);
  }

  lemma FieldsAt(raw: seq<Byte>, offset: nat, length: nat)
    requires offset + 4 <= |raw| && length == Value(raw[offset..offset + 4])
    ensures Extent(raw[offset..]) == 12 + length
    ensures var rest := raw[offset..];
            offset + 12 + length <= |raw| ==>
              && raw[offset + 4..offset + 8 + length] == rest[4..Extent(rest) - 4]
              && raw[offset + 8 + length..offset + 12 + length] == rest[Extent(rest) - 4..Extent(rest)]
              && raw[offset + 12 + length..] == rest[Extent(rest)..]
  {
    assert raw[offset..][..4] == raw[offset..offset + 4];
  }

  /** `_chunk_ok`. */
  method ChunkOk(raw: seq<Byte>, crc: seq<Byte> -> int) returns (r: Option<bool>)
    ensures r == ChunksOk(raw[Least(8, |raw|)..], crc)
  {
    var offset := 8;
    ghost var goal := ChunksOk(raw[Least(8, |raw|)..], crc);
    while offset < |raw|
      invariant 8 <= offset && (offset <= |raw| || offset == 8)
      invariant goal == ChunksOk(raw[Least(offset, |raw|)..], crc)
      decreases |raw| - offset
    {
      if |raw| - offset < 4 {
        return None;
      }
      var length := Value(raw[offset..offset + 4]);
      FieldsAt(raw, offset, length);
      if |raw| < offset + 12 + length {
        return None;
      }
      var signed := raw[offset + 4..offset + 8 + length];
      var stored := Value(raw[offset + 8 + length..offset + 12 + length]);
      if crc(signed) % WORD != stored {
        return Some(false);
      }
      offset := offset + 12 + length;
    }
    r := Some(true);
  }

  // --- read_png's walk ------------------------------------------------------------------------------

  datatype Parsed = Parsed(header: Option<seq<Byte>>, idat: seq<Byte>)

  /** The loop of `read_png`: the last IHDR, the IDAT payloads in order, up to IEND or the end of
      the data. `None` is the struct.error of an IHDR that is not 13 bytes. */
  function Walk(rest: seq<Byte>, seen: Parsed): Option<Parsed> {
    if |rest| < 8 then Some(seen)
    else
      var next := rest[Least(Extent(rest), |rest|)..];
      if Name(rest) == IHDR then
        if |Payload(rest)| != 13 then None else Walk(next, seen.(header := Some(Payload(rest))))
      else if Name(rest) == IDAT then Walk(next, seen.(idat := seen.idat + Payload(rest)))
      else if Name(rest) == IEND then Some(seen)
      else Walk(next, seen)
  }

  /** The same walk, chunk by chunk. */
  function WalkChunks(l: seq<seq<Byte>>, seen: Parsed): Option<Parsed> {
    if l == [] || |l[0]| < 8 then Some(seen)
    else if Name(l[0]) == IHDR then
      if |Payload(l[0])| != 13 then None else WalkChunks(l[1..], seen.(header := Some(Payload(l[0]))))
    else if Name(l[0]) == IDAT then WalkChunks(l[1..], seen.(idat := seen.idat + Payload(l[0])))
    else if Name(l[0]) == IEND then Some(seen)
    else WalkChunks(l[1..], seen)
  }

  lemma {:induction false} WalkIsChunkwise(rest: seq<Byte>, seen: Parsed)
    requires Split(rest).Some?
    ensures Walk(rest, seen) == WalkChunks(Split(rest).value, seen)
    decreases |rest|
  {
    if |rest| >= 8 {
      var l := Split(rest).value;
      var next := rest[Least(Extent(rest), |rest|)..];
      assert l[0] == rest[..Least(Extent(rest), |rest|)] && l[0][..4] == rest[..4];
      assert Payload(l[0]) == Payload(rest) && Name(l[0]) == Name(rest);
      if Extent(rest) >= |rest| {
        assert next == [] && l[1..] == [];
      } else {
        assert l[1..] == Split(next).value;
      }
      WalkIsChunkwise(next, seen.(header := Some(Payload(rest))));
      WalkIsChunkwise(next, seen.(idat := seen.idat + Payload(rest)));
      WalkIsChunkwise(next, seen);
    }
  }

  /** One step of the chunkwise walk: stop with a result, or go on with more seen. */
  datatype Step = Stop(result: Option<Parsed>) | Go(seen: Parsed)

  function StepOf(c: seq<Byte>, seen: Parsed): Step {
    if |c| < 8 then Stop(Some(seen))
    else if Name(c) == IHDR then
      if |Payload(c)| != 13 then Stop(None) else Go(seen.(header := Some(Payload(c))))
    else if Name(c) == IDAT then Go(seen.(idat := seen.idat + Payload(c)))
    else if Name(c) == IEND then Stop(Some(seen))
    else Go(seen)
  }

  lemma WalkByStep(c: seq<Byte>, rest: seq<seq<Byte>>, seen: Parsed)
    ensures var step := StepOf(c, seen);
            WalkChunks([c] + rest, seen) == if step.Stop? then step.result else WalkChunks(rest, step.seen)
  {
    assert ([c] + rest)[1..] == rest;
  }

  /** Dropping the other chunks changes nothing of what the walk collects. */
  lemma {:induction false} WalkIgnoresOthers(l: seq<seq<Byte>>, seen: Parsed)
    requires Chain(l) && forall c | c in l :: |c| >= 4
    ensures WalkChunks(Critical(l), seen) == WalkChunks(l, seen)
    decreases |l|
  {
    if l != [] {
      var c, rest := l[0], l[1..];
      assert l == [c] + rest && c in l;
      WalkByStep(c, rest, seen);
      if StepOf(c, seen).Go? {
        WalkIgnoresOthers(rest, StepOf(c, seen).seen);
      }
      if IsCritical(Name(c)) {
        WalkByStep(c, Critical(rest), seen);
      } else {
        assert Critical(l) == Critical(rest);
        assert StepOf(c, seen).Stop? ==> rest == [];
      }
    }
  }

  /** What `read_png` collects from a stripped file is what it collects from the original: for
      every input that `strip_png` accepts, broken ones included. */
  lemma StripKeepsWhatIsRead(raw: seq<Byte>, seen: Parsed)
    requires StripOf(raw).Bytes?
    ensures Walk(StripOf(raw).value[8..], seen) == Walk(raw[8..], seen)
  {
    StripKeepsCritical(raw);
    WalkIsChunkwise(raw[8..], seen);
    WalkIsChunkwise(StripOf(raw).value[8..], seen);
    WalkIgnoresOthers(Split(raw[8..]).value, seen);
  }
}
