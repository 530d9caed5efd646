/**
 decodePng: the chunk walk, the checks, and the expansion to RGBA. Inflate is a parameter, since zlib is
 foreign code: any function from compressed bytes to inflated bytes, or None where the decoder throws.
 */
module Png {
  import opened Bytes
  import opened PngFilter

  datatype PngError =
    | TooShort | BadSignature | ChunkTruncated | InvalidIhdr | BadBitDepth | BadMethod | Interlaced
    | BadDimensions | BadColorType | IdatBeforeIhdr | MissingIhdr | MissingIend | NoIdat
    | InflateFailed | InflatedShort | BadFilterType

  datatype Outcome<+T> = Ok(value: T) | Err(error: PngError)

  datatype Header = Header(width: nat, height: nat, colorType: nat)

  /** Tightly packed 8-bit RGBA. */
  datatype PngImage = PngImage(width: nat, height: nat, rgba: bytes)

  /** The walk's state: the header once seen, the compressed bytes gathered, and whether IEND was met. */
  datatype Scan = Scan(header: Option<Header>, idat: bytes, sawIend: bool)

  const START := Scan(None, [], false)
  const SIGNATURE: bytes := [0x89, 0x50, 0x4e, 0x47, 0x0d, 0x0a, 0x1a, 0x0a]
  const IHDR: bytes := [0x49, 0x48, 0x44, 0x52]
  const IDAT: bytes := [0x49, 0x44, 0x41, 0x54]
  const IEND: bytes := [0x49, 0x45, 0x4e, 0x44]

  function ReadU32(data: bytes, offset: nat): (v: int)
    requires offset + 4 <= |data|
    ensures 0 <= v < 0x1_0000_0000
  {
    data[offset] as int * 0x100_0000 + data[offset + 1] as int * 0x1_0000
      + data[offset + 2] as int * 0x100 + data[offset + 3] as int
  }

  function BytesPerPixel(colorType: nat): (bpp: nat)
    requires ValidColorType(colorType)
    ensures 1 <= bpp <= 4
  {
    if colorType == 0 then 1 else if colorType == 2 then 3 else if colorType == 4 then 2 else 4
  }

  predicate ValidColorType(colorType: nat) {
    colorType == 0 || colorType == 2 || colorType == 4 || colorType == 6
  }

  predicate ValidHeader(h: Header) {
    1 <= h.width <= 65536 && 1 <= h.height <= 65536 && ValidColorType(h.colorType)
  }

  /** Bytes in a raw row, and in the raw image. */
  function Stride(h: Header): nat
    requires ValidHeader(h)
  {
    h.width * BytesPerPixel(h.colorType)
  }

  function RawSize(h: Header): nat
    requires ValidHeader(h)
  {
    Times(h.height, Stride(h))
  }

  /** The IHDR branch, its checks in order. */
  function ParseHeader(data: bytes): Outcome<Header> {
    if |data| < 13 then Err(InvalidIhdr)
    else if data[8] != 8 then Err(BadBitDepth)
    else if data[10] != 0 || data[11] != 0 then Err(BadMethod)
    else if data[12] != 0 then Err(Interlaced)
    else
      var width, height := ReadU32(data, 0), ReadU32(data, 4);
      if width == 0 || height == 0 || width > 65536 || height > 65536 then Err(BadDimensions)
      else if !ValidColorType(data[9]) then Err(BadColorType)
      else Ok(Header(width, height, data[9]))
  }

  /** The switch on the chunk type. */
  function OnChunk(st: Scan, kind: bytes, data: bytes): Outcome<Scan> {
    if kind == IHDR then
      if st.header.Some? then Err(InvalidIhdr)
      else
        match ParseHeader(data)
        case Err(e) => Err(e)
        case Ok(h) => Ok(st.(header := Some(h)))
    else if kind == IDAT then
      if st.header.None? then Err(IdatBeforeIhdr) else Ok(st.(idat := st.idat + data))
    else if kind == IEND then Ok(st.(sawIend := true))
    else Ok(st)
  }

  /** The chunk loop on the bytes from its current offset. */
  function Walk(rest: bytes, st: Scan): Outcome<Scan> {
    if |rest| < 12 || st.sawIend then Ok(st)
    else
      var length := ReadU32(rest, 0);
      if 12 + length > |rest| then Err(ChunkTruncated)
      else
        var r := OnChunk(st, rest[4..8], rest[8..8 + length]);
        if r.Err? then r else Walk(rest[12 + length..], r.value)
  }

  /** The four bytes of pixel `i`. */
  function Pixel(raw: bytes, colorType: nat, i: nat): (pixel: bytes)
    requires ValidColorType(colorType) && |raw| >= (i + 1) * BytesPerPixel(colorType)
    ensures |pixel| == 4
  {
    if colorType == 0 then [raw[i], raw[i], raw[i], 255]
    else if colorType == 2 then [raw[3 * i], raw[3 * i + 1], raw[3 * i + 2], 255]
    else if colorType == 4 then [raw[2 * i], raw[2 * i], raw[2 * i], raw[2 * i + 1]]
    else raw[4 * i..4 * i + 4]
  }

  /** The first `n` pixels, expanded. */
  function Rgba(raw: bytes, colorType: nat, n: nat): (rgba: bytes)
    requires ValidColorType(colorType) && |raw| >= n * BytesPerPixel(colorType)
    ensures |rgba| == 4 * n
  {
    if n == 0 then [] else Rgba(raw, colorType, n - 1) + Pixel(raw, colorType, n - 1)
  }

  function Zeros(n: nat): (z: bytes)
    ensures |z| == n
  {
    seq(n, _ => 0)
  }

  /** After the walk: the checks, inflate, unfilter, expand. */
  function Finish(st: Scan, inflate: bytes -> Option<bytes>): Outcome<PngImage>
    requires st.header.Some? ==> ValidHeader(st.header.value)
  {
    if st.header.None? then Err(MissingIhdr)
    else if !st.sawIend then Err(MissingIend)
    else if st.idat == [] then Err(NoIdat)
    else
      match inflate(st.idat)
      case None => Err(InflateFailed)
      case Some(inflated) => Expand(st.header.value, inflated)
  }

  function Expand(h: Header, inflated: bytes): Outcome<PngImage>
    requires ValidHeader(h)
  {
    var stride := Stride(h);
    if |inflated| < Times(h.height, stride + 1) then Err(InflatedShort)
    else
      match UnfilterRows(inflated, Zeros(stride), stride, h.height, BytesPerPixel(h.colorType))
      case None => Err(BadFilterType)
      case Some(raw) => Ok(Image(h, raw))
  }

  /** The decoded image with these raw bytes. */
  function Image(h: Header, raw: bytes): PngImage
    requires ValidHeader(h) && |raw| == RawSize(h)
  {
    PixelBytes(h);
    PngImage(h.width, h.height, Rgba(raw, h.colorType, h.width * h.height))
  }

  lemma PixelBytes(h: Header)
    requires ValidHeader(h)
    ensures RawSize(h) == (h.width * h.height) * BytesPerPixel(h.colorType)
  {
    var bpp := BytesPerPixel(h.colorType);
    TimesIsProduct(h.height, h.width * bpp);
    assert h.height * (h.width * bpp) == (h.width * h.height) * bpp;
  }

  function Decode(data: bytes, inflate: bytes -> Option<bytes>): Outcome<PngImage> {
    if |data| < 8 then Err(TooShort)
    else if data[..8] != SIGNATURE then Err(BadSignature)
    else
      HeaderChecked(data[8..], START);
      match Walk(data[8..], START)
      case Err(e) => Err(e)
      case Ok(st) => Finish(st, inflate)
  }

  /** A header that the walk keeps has passed the checks. */
  lemma {:induction false} HeaderChecked(rest: bytes, st: Scan)
    requires st.header.Some? ==> ValidHeader(st.header.value)
    ensures var r := Walk(rest, st);
            r.Ok? && r.value.header.Some? ==> ValidHeader(r.value.header.value)
    decreases |rest|
  {
    if |rest| >= 12 && !st.sawIend {
      var length := ReadU32(rest, 0);
      if 12 + length <= |rest| && OnChunk(st, rest[4..8], rest[8..8 + length]).Ok? {
        HeaderChecked(rest[12 + length..], OnChunk(st, rest[4..8], rest[8..8 + length]).value);
      }
    }
  }

  /** Every successful decode has a size the header allows and exactly width * height * 4 bytes. */
  lemma DecodedSize(data: bytes, inflate: bytes -> Option<bytes>)
    requires Decode(data, inflate).Ok?
    ensures var image := Decode(data, inflate).value;
            1 <= image.width <= 65536 && 1 <= image.height <= 65536 && |image.rgba| == image.width * image.height * 4
  {
    HeaderChecked(data[8..], START);
    var h := Walk(data[8..], START).value.header.value;
    assert 4 * (h.width * h.height) == h.width * h.height * 4;
  }

  // ---------- files as lists of chunks ----------

  datatype Chunk = Chunk(kind: bytes, data: bytes, crc: bytes)

  predicate ValidChunk(c: Chunk) {
    |c.kind| == 4 && |c.data| < 0x1_0000_0000 && |c.crc| == 4
  }

  predicate ValidChunks(cs: seq<Chunk>) {
    forall k :: 0 <= k < |cs| ==> ValidChunk(cs[k])
  }

  function U32Bytes(v: nat): (b: bytes)
    requires v < 0x1_0000_0000
    ensures |b| == 4 && ReadU32(b, 0) == v
  {
    var b3 := v / 0x100_0000;
    var v3 := v - b3 * 0x100_0000;
    var b2 := v3 / 0x1_0000;
    var v2 := v3 - b2 * 0x1_0000;
    var b1 := v2 / 0x100;
    [b3, b2, b1, v2 - b1 * 0x100]
  }

  function ChunkBytes(c: Chunk): (b: bytes)
    requires ValidChunk(c)
    ensures |b| == 12 + |c.data|
  {
    U32Bytes(|c.data|) + c.kind + c.data + c.crc
  }

  function FileBody(cs: seq<Chunk>): bytes
    requires ValidChunks(cs)
  {
    if cs == [] then [] else ChunkBytes(cs[0]) + FileBody(cs[1..])
  }

  /** What the chunks mean: fold the switch over them, stopping at the first error or after IEND. */
  function Interpret(cs: seq<Chunk>, st: Scan): Outcome<Scan> {
    if cs == [] || st.sawIend then Ok(st)
    else
      var r := OnChunk(st, cs[0].kind, cs[0].data);
      if r.Err? then r else Interpret(cs[1..], r.value)
  }

  lemma WalkChunk(c: Chunk, tail: bytes, st: Scan)
    requires ValidChunk(c) && !st.sawIend
    ensures var r := OnChunk(st, c.kind, c.data);
            Walk(ChunkBytes(c) + tail, st) == if r.Err? then r else Walk(tail, r.value)
  {
    var rest := ChunkBytes(c) + tail;
    var length := U32Bytes(|c.data|);
    assert rest[0] == length[0] && rest[1] == length[1] && rest[2] == length[2] && rest[3] == length[3];
    assert ReadU32(rest, 0) == ReadU32(length, 0) == |c.data|;
    assert rest[4..8] == c.kind && rest[8..8 + |c.data|] == c.data && rest[12 + |c.data|..] == tail;
  }

  /** Walking a file's bytes is interpreting its chunks; what follows matters only while there was no IEND. */
  lemma {:induction false} WalkFile(cs: seq<Chunk>, tail: bytes, st: Scan)
    requires ValidChunks(cs)
    ensures var r := Interpret(cs, st);
            Walk(FileBody(cs) + tail, st) == if r.Err? || r.value.sawIend then r else Walk(tail, r.value)
  {
    if cs == [] {
      assert FileBody(cs) + tail == tail;
    } else if !st.sawIend {
      assert FileBody(cs) + tail == ChunkBytes(cs[0]) + (FileBody(cs[1..]) + tail);
      WalkChunk(cs[0], FileBody(cs[1..]) + tail, st);
      if OnChunk(st, cs[0].kind, cs[0].data).Ok? {
        WalkFile(cs[1..], tail, OnChunk(st, cs[0].kind, cs[0].data).value);
      }
    }
  }

  lemma {:induction false} InterpretAppend(a: seq<Chunk>, b: seq<Chunk>, st: Scan)
    ensures var r := Interpret(a, st);
            Interpret(a + b, st) == if r.Err? then r else Interpret(b, r.value)
  {
    if a == [] {
      assert a + b == b;
    } else {
      assert (a + b)[1..] == a[1..] + b;
      if !st.sawIend && OnChunk(st, a[0].kind, a[0].data).Ok? {
        InterpretAppend(a[1..], b, OnChunk(st, a[0].kind, a[0].data).value);
      }
    }
  }

  /** IDAT chunks with these payloads. */
  predicate AreIdats(cs: seq<Chunk>, parts: seq<bytes>) {
    |cs| == |parts| && forall k :: 0 <= k < |cs| ==> cs[k].kind == IDAT && cs[k].data == parts[k]
  }

  /** One IDAT chunk or many: only the concatenated payload matters. */
  lemma {:induction false} InterpretIdats(cs: seq<Chunk>, parts: seq<bytes>, st: Scan)
    requires AreIdats(cs, parts) && cs != [] && !st.sawIend
    ensures Interpret(cs, st)
      == if st.header.None? then Err(IdatBeforeIhdr) else Ok(st.(idat := st.idat + Flatten(parts)))
  {
    if st.header.Some? {
      var st' := st.(idat := st.idat + parts[0]);
      assert OnChunk(st, cs[0].kind, cs[0].data) == Ok(st');
      if |cs| == 1 {
        assert cs[1..] == [] && parts[1..] == [];
        assert Flatten(parts) == parts[0];
      } else {
        InterpretIdats(cs[1..], parts[1..], st');
        assert (st.idat + parts[0]) + Flatten(parts[1..]) == st.idat + (parts[0] + Flatten(parts[1..]));
      }
    }
  }

  predicate Unknown(c: Chunk) {
    c.kind != IHDR && c.kind != IDAT && c.kind != IEND
  }

  lemma {:induction false} InterpretUnknown(cs: seq<Chunk>, st: Scan)
    requires forall k :: 0 <= k < |cs| ==> Unknown(cs[k])
    ensures Interpret(cs, st) == Ok(st)
  {
    if cs != [] && !st.sawIend {
      InterpretUnknown(cs[1..], st);
    }
  }

  /** A file whose outcome is settled by its chunks: an error, or an IEND. */
  predicate Complete(cs: seq<Chunk>) {
    Interpret(cs, START).Err? || Interpret(cs, START).value.sawIend
  }

  function PngFile(cs: seq<Chunk>, trailing: bytes): bytes
    requires ValidChunks(cs)
  {
    SIGNATURE + (FileBody(cs) + trailing)
  }

  /** Decoding a complete file depends on the interpretation of its chunks only. */
  lemma DecodeComplete(cs: seq<Chunk>, trailing: bytes, inflate: bytes -> Option<bytes>)
    requires ValidChunks(cs) && Complete(cs)
    ensures var r := Interpret(cs, START);
            && (r.Ok? && r.value.header.Some? ==> ValidHeader(r.value.header.value))
            && Decode(PngFile(cs, trailing), inflate) == if r.Err? then Err(r.error) else Finish(r.value, inflate)
  {
    var data := PngFile(cs, trailing);
    assert data[..8] == SIGNATURE && data[8..] == FileBody(cs) + trailing;
    WalkFile(cs, trailing, START);
    HeaderChecked(data[8..], START);
  }

  /** Splitting the compressed stream differently over IDAT chunks, anywhere in a file, changes nothing. */
  lemma ResplitIdats(
    a: seq<Chunk>, cs: seq<Chunk>, cs': seq<Chunk>, b: seq<Chunk>, parts: seq<bytes>, parts': seq<bytes>)
    requires AreIdats(cs, parts) && AreIdats(cs', parts') && cs != [] && cs' != [] && Flatten(parts) == Flatten(parts')
    ensures Interpret(a + cs + b, START) == Interpret(a + cs' + b, START)
  {
    InterpretAppend(a + cs, b, START);
    InterpretAppend(a + cs', b, START);
    InterpretAppend(a, cs, START);
    InterpretAppend(a, cs', START);
    if Interpret(a, START).Ok? && !Interpret(a, START).value.sawIend {
      InterpretIdats(cs, parts, Interpret(a, START).value);
      InterpretIdats(cs', parts', Interpret(a, START).value);
    }
  }

  /** Unknown chunks inserted at any chunk boundary change nothing. */
  lemma InsertUnknown(a: seq<Chunk>, unknown: seq<Chunk>, b: seq<Chunk>)
    requires forall k :: 0 <= k < |unknown| ==> Unknown(unknown[k])
    ensures Interpret(a + unknown + b, START) == Interpret(a + b, START)
  {
    InterpretAppend(a + unknown, b, START);
    InterpretAppend(a, unknown, START);
    InterpretAppend(a, b, START);
    if Interpret(a, START).Ok? {
      InterpretUnknown(unknown, Interpret(a, START).value);
    }
  }

  /** The same chunks, but for their checksums. */
  predicate SameContents(cs: seq<Chunk>, cs': seq<Chunk>) {
    |cs| == |cs'| && forall k :: 0 <= k < |cs| ==> cs[k].kind == cs'[k].kind && cs[k].data == cs'[k].data
  }

  lemma {:induction false} InterpretContents(cs: seq<Chunk>, cs': seq<Chunk>, st: Scan)
    requires SameContents(cs, cs')
    ensures Interpret(cs, st) == Interpret(cs', st)
  {
    if cs != [] && !st.sawIend && OnChunk(st, cs[0].kind, cs[0].data).Ok? {
      InterpretContents(cs[1..], cs'[1..], OnChunk(st, cs[0].kind, cs[0].data).value);
    }
  }

  /** Decoding does not see checksums, nor bytes after the end. */
  lemma ChecksumsDoNotMatter(
    cs: seq<Chunk>, cs': seq<Chunk>, trailing: bytes, trailing': bytes, inflate: bytes -> Option<bytes>)
    requires ValidChunks(cs) && ValidChunks(cs') && SameContents(cs, cs') && Complete(cs)
    ensures Decode(PngFile(cs, trailing), inflate) == Decode(PngFile(cs', trailing'), inflate)
  {
    InterpretContents(cs, cs', START);
    DecodeInvariant(cs, cs', trailing, trailing', inflate);
  }

  /** What two files' chunks mean is all that decoding sees: not the IDAT split, and no chunk it does not know. */
  lemma DecodeInvariant(
    cs: seq<Chunk>, cs': seq<Chunk>, trailing: bytes, trailing': bytes, inflate: bytes -> Option<bytes>)
    requires ValidChunks(cs) && ValidChunks(cs') && Complete(cs)
    requires Interpret(cs, START) == Interpret(cs', START)
    ensures Decode(PngFile(cs, trailing), inflate) == Decode(PngFile(cs', trailing'), inflate)
  {
    DecodeComplete(cs, trailing, inflate);
    DecodeComplete(cs', trailing', inflate);
  }

  // ---------- every file is one of chunks ----------

  lemma U32BytesOf(b: bytes, v: nat)
    requires |b| >= 4 && v == ReadU32(b, 0)
    ensures U32Bytes(v) == b[..4]
  {
    assert v / 0x100_0000 == b[0];
    var v3: int := v - (v / 0x100_0000) * 0x100_0000;
    assert v3 / 0x1_0000 == b[1];
    var v2: int := v3 - (v3 / 0x1_0000) * 0x1_0000;
    assert v2 / 0x100 == b[2];
  }

  /** The chunk at the front, once it is known to be there. */
  lemma FrontChunk(rest: bytes) returns (c: Chunk)
    requires |rest| >= 12 && 12 + ReadU32(rest, 0) <= |rest|
    ensures ValidChunk(c) && |c.data| == ReadU32(rest, 0)
    ensures c.kind == rest[4..8] && c.data == rest[8..8 + |c.data|]
    ensures rest == ChunkBytes(c) + rest[12 + |c.data|..]
  {
    var length := ReadU32(rest, 0);
    c := Chunk(rest[4..8], rest[8..8 + length], rest[8 + length..12 + length]);
    U32BytesOf(rest, length);
    SplitAt(rest, 12 + length);
    TakeMore(rest, 8 + length, 4);
    TakeMore(rest, 8, length);
    TakeMore(rest, 4, 4);
  }

  /** The bytes are these chunks, and then a rest at which the walk of the chunks stops. */
  predicate MadeOf(rest: bytes, st: Scan, cs: seq<Chunk>, tail: bytes) {
    && ValidChunks(cs) && rest == FileBody(cs) + tail
    && (Interpret(cs, st).Err? || Interpret(cs, st).value.sawIend || |tail| < 12)
  }

  lemma MadeOfCons(c: Chunk, after: bytes, st: Scan, cs: seq<Chunk>, tail: bytes)
    requires ValidChunk(c) && !st.sawIend && OnChunk(st, c.kind, c.data).Ok?
    requires MadeOf(after, OnChunk(st, c.kind, c.data).value, cs, tail)
    ensures MadeOf(ChunkBytes(c) + after, st, [c] + cs, tail)
  {
    assert ([c] + cs)[1..] == cs;
    Assoc(ChunkBytes(c), FileBody(cs), tail);
  }

  lemma MadeOfOne(c: Chunk, after: bytes, st: Scan)
    requires ValidChunk(c) && !st.sawIend && OnChunk(st, c.kind, c.data).Err?
    ensures MadeOf(ChunkBytes(c) + after, st, [c], after)
  {
    assert [c][1..] == [] && ChunkBytes(c) + [] == ChunkBytes(c);
  }

  lemma {:induction false} WalkedIsChunks(rest: bytes, st: Scan) returns (cs: seq<Chunk>, tail: bytes)
    requires Walk(rest, st) != Err(ChunkTruncated)
    ensures MadeOf(rest, st, cs, tail)
    decreases |rest|
  {
    if |rest| < 12 || st.sawIend {
      cs, tail := [], rest;
      assert [] + rest == rest;
    } else {
      var c := FrontChunk(rest);
      var after := rest[12 + |c.data|..];
      if OnChunk(st, c.kind, c.data).Err? {
        MadeOfOne(c, after, st);
        cs, tail := [c], after;
      } else {
        cs, tail := WalkedIsChunks(after, OnChunk(st, c.kind, c.data).value);
        MadeOfCons(c, after, st, cs, tail);
        cs := [c] + cs;
      }
    }
  }

  lemma {:induction false} NeverTruncated(cs: seq<Chunk>, st: Scan)
    ensures Interpret(cs, st) != Err(ChunkTruncated)
  {
    if cs != [] && !st.sawIend && OnChunk(st, cs[0].kind, cs[0].data).Ok? {
      NeverTruncated(cs[1..], OnChunk(st, cs[0].kind, cs[0].data).value);
    }
  }

  /** The walk gets through exactly the bytes that are made of chunks up to where it stops; others are cut off. */
  lemma TruncatedIff(rest: bytes, st: Scan)
    ensures Walk(rest, st) != Err(ChunkTruncated) <==> exists cs, tail :: MadeOf(rest, st, cs, tail)
  {
    if Walk(rest, st) != Err(ChunkTruncated) {
      var cs, tail := WalkedIsChunks(rest, st);
    }
    forall cs, tail | MadeOf(rest, st, cs, tail) ensures Walk(rest, st) != Err(ChunkTruncated) {
      WalkFile(cs, tail, st);
      NeverTruncated(cs, st);
    }
  }

  // ---------- the whole round trip ----------

  function HeaderBytes(h: Header): (b: bytes)
    requires ValidHeader(h)
    ensures |b| == 13
  {
    U32Bytes(h.width) + U32Bytes(h.height) + [8, h.colorType, 0, 0, 0]
  }

  lemma ParseHeaderBytes(h: Header)
    requires ValidHeader(h)
    ensures ParseHeader(HeaderBytes(h)) == Ok(h)
  {
    var b, w, t := HeaderBytes(h), U32Bytes(h.width), U32Bytes(h.height);
    assert b[0] == w[0] && b[1] == w[1] && b[2] == w[2] && b[3] == w[3];
    assert b[4] == t[0] && b[5] == t[1] && b[6] == t[2] && b[7] == t[3];
    assert ReadU32(b, 0) == ReadU32(w, 0) && ReadU32(b, 4) == ReadU32(t, 0);
  }

  /** The chunks an encoder writes: header, the compressed stream cut anywhere, end. */
  function EncodedChunks(h: Header, idats: seq<Chunk>, crc: bytes): seq<Chunk>
    requires ValidHeader(h)
  {
    [Chunk(IHDR, HeaderBytes(h), crc)] + idats + [Chunk(IEND, [], crc)]
  }

  lemma InterpretEncoded(h: Header, idats: seq<Chunk>, parts: seq<bytes>, crc: bytes)
    requires ValidHeader(h) && AreIdats(idats, parts) && idats != []
    ensures Interpret(EncodedChunks(h, idats, crc), START) == Ok(Scan(Some(h), Flatten(parts), true))
  {
    var first, last := Chunk(IHDR, HeaderBytes(h), crc), Chunk(IEND, [], crc);
    var st := Scan(Some(h), [], false);
    ParseHeaderBytes(h);
    assert [first][1..] == [] && [last][1..] == [];
    assert Interpret([first], START) == Ok(st);
    InterpretAppend([first] + idats, [last], START);
    InterpretAppend([first], idats, START);
    InterpretIdats(idats, parts, st);
    assert st.idat + Flatten(parts) == Flatten(parts);
    assert OnChunk(Scan(Some(h), Flatten(parts), false), IEND, []) == Ok(Scan(Some(h), Flatten(parts), true));
  }

  /** The uncompressed stream an encoder writes for a raw image with these filter types. */
  function FilteredImage(h: Header, types: bytes, raw: bytes): bytes
    requires ValidHeader(h) && ValidTypes(types) && |types| == h.height && |raw| == RawSize(h)
  {
    FilterRows(types, raw, Zeros(Stride(h)), Stride(h), BytesPerPixel(h.colorType))
  }

  /** Expanding a filtered image gives its raw bytes as RGBA. */
  lemma ExpandFiltered(h: Header, types: bytes, raw: bytes)
    requires ValidHeader(h) && ValidTypes(types) && |types| == h.height && |raw| == RawSize(h)
    ensures Expand(h, FilteredImage(h, types, raw)) == Ok(Image(h, raw))
  {
    UnfilterFiltered(types, raw, Zeros(Stride(h)), Stride(h), BytesPerPixel(h.colorType));
  }

  /**
   Decoding what an encoder writes, with any filter type per row and any cut of the compressed stream,
   gives the raw image expanded to RGBA, provided inflate undoes the compression of that stream.
   */
  lemma DecodeEncoded(
    h: Header, types: bytes, raw: bytes, idats: seq<Chunk>, parts: seq<bytes>, crc: bytes, trailing: bytes,
    inflate: bytes -> Option<bytes>)
    requires ValidHeader(h) && ValidTypes(types) && |types| == h.height && |raw| == RawSize(h)
    requires ValidChunks(idats) && AreIdats(idats, parts) && idats != [] && Flatten(parts) != [] && |crc| == 4
    requires inflate(Flatten(parts)) == Some(FilteredImage(h, types, raw))
    ensures ValidChunks(EncodedChunks(h, idats, crc))
    ensures Decode(PngFile(EncodedChunks(h, idats, crc), trailing), inflate) == Ok(Image(h, raw))
  {
    InterpretEncoded(h, idats, parts, crc);
    DecodeComplete(EncodedChunks(h, idats, crc), trailing, inflate);
    ExpandFiltered(h, types, raw);
  }
}
