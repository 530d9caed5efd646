/** Which files png.dart decodes, exactly, and to what: those that encode an image, to that image. */
module PngFiles {
  import opened Bytes
  import opened PngFilter
  import opened Png

  // ---------- the files that are decoded ----------

  /** The data of a header chunk says this; what may follow the 13 bytes is ignored. */
  predicate IsHeader(data: bytes, h: Header) {
    |data| >= 13 && ValidHeader(h) && data[..13] == HeaderBytes(h)
  }

  lemma ParsedHeader(data: bytes)
    requires ParseHeader(data).Ok?
    ensures IsHeader(data, ParseHeader(data).value)
  {
    var h := ParseHeader(data).value;
    U32BytesOf(data, h.width);
    assert ReadU32(data[4..], 0) == ReadU32(data, 4);
    U32BytesOf(data[4..], h.height);
    assert data[..13] == data[..4] + data[4..8] + data[8..13];
    assert data[8..13] == [8, h.colorType, 0, 0, 0];
  }

  lemma ParseHeaderOf(data: bytes, h: Header)
    requires IsHeader(data, h)
    ensures ParseHeader(data) == Ok(h)
  {
    ParseHeaderBytes(h);
    var b := data[..13];
    assert forall k :: 0 <= k < 13 ==> b[k] == data[k];
    assert ReadU32(b, 0) == ReadU32(data, 0) && ReadU32(b, 4) == ReadU32(data, 4);
  }

  /** Exactly the data that an encoder writes for a header is read as that header. */
  lemma ParseHeaderIff(data: bytes, h: Header)
    ensures ParseHeader(data) == Ok(h) <==> IsHeader(data, h)
  {
    if ParseHeader(data) == Ok(h) {
      ParsedHeader(data);
    }
    if IsHeader(data, h) {
      ParseHeaderOf(data, h);
    }
  }

  predicate NoneOf(cs: seq<Chunk>, kind: bytes) {
    forall k :: 0 <= k < |cs| ==> cs[k].kind != kind
  }

  /** One header, before all image data. */
  ghost predicate Headed(cs: seq<Chunk>, h: Header) {
    exists k :: 0 <= k < |cs| && HeadedAt(cs, h, k)
  }

  predicate HeadedAt(cs: seq<Chunk>, h: Header, k: nat)
    requires k < |cs|
  {
    && cs[k].kind == IHDR && IsHeader(cs[k].data, h)
    && NoneOf(cs[..k], IHDR) && NoneOf(cs[..k], IDAT) && NoneOf(cs[k + 1..], IHDR)
  }

  /** The image data, over all its chunks. */
  function Payload(cs: seq<Chunk>): bytes {
    if cs == [] then []
    else Payload(cs[..|cs| - 1]) + if cs[|cs| - 1].kind == IDAT then cs[|cs| - 1].data else []
  }

  /** The walk's state after chunks without an end: what they say, and nothing else. */
  ghost predicate Says(cs: seq<Chunk>, st: Scan) {
    && st.idat == Payload(cs) && !st.sawIend
    && if st.header.None? then NoneOf(cs, IHDR) && NoneOf(cs, IDAT) else Headed(cs, st.header.value)
  }

  lemma InterpretSnoc(init: seq<Chunk>, c: Chunk)
    ensures var r := Interpret(init, START);
      Interpret(init + [c], START)
      == if r.Err? || r.value.sawIend then r else OnChunk(r.value, c.kind, c.data)
  {
    InterpretAppend(init, [c], START);
    assert [c][1..] == [];
  }

  lemma HeadedAtSnoc(init: seq<Chunk>, c: Chunk, h: Header, k: nat)
    requires c.kind != IHDR && k < |init|
    ensures HeadedAt(init + [c], h, k) <==> HeadedAt(init, h, k)
  {
    var all := init + [c];
    assert all[..k] == init[..k] && all[k + 1..] == init[k + 1..] + [c];
    NoneSnoc(init[k + 1..], c, IHDR);
  }

  lemma NoneSnoc(init: seq<Chunk>, c: Chunk, kind: bytes)
    ensures NoneOf(init + [c], kind) <==> NoneOf(init, kind) && c.kind != kind
  {
    var all := init + [c];
    assert all[|init|] == c;
    if NoneOf(all, kind) {
      forall k | 0 <= k < |init| ensures init[k].kind != kind {
        assert all[k] == init[k];
      }
    }
  }

  lemma HeadedSnoc(init: seq<Chunk>, c: Chunk, h: Header)
    requires c.kind != IHDR
    ensures Headed(init + [c], h) <==> Headed(init, h)
  {
    var all := init + [c];
    if k :| 0 <= k < |init| && HeadedAt(init, h, k) {
      HeadedAtSnoc(init, c, h, k);
    }
    if k :| 0 <= k < |all| && HeadedAt(all, h, k) {
      assert all[|init|] == c;
      HeadedAtSnoc(init, c, h, k);
    }
  }

  lemma NewlyHeaded(init: seq<Chunk>, c: Chunk, h: Header)
    requires c.kind == IHDR && IsHeader(c.data, h) && NoneOf(init, IHDR) && NoneOf(init, IDAT)
    ensures Headed(init + [c], h)
  {
    var all := init + [c];
    assert all[..|init|] == init && all[|init| + 1..] == [];
    assert HeadedAt(all, h, |init|);
  }

  lemma SaysStep(init: seq<Chunk>, c: Chunk, st: Scan)
    requires Says(init, st) && c.kind != IEND && OnChunk(st, c.kind, c.data).Ok?
    ensures Says(init + [c], OnChunk(st, c.kind, c.data).value)
  {
    if c.kind == IHDR {
      HeaderSays(init, c, st);
    } else {
      OtherSays(init, c, st);
    }
  }

  lemma PayloadSnoc(init: seq<Chunk>, c: Chunk)
    ensures Payload(init + [c]) == if c.kind == IDAT then Payload(init) + c.data else Payload(init)
  {
    assert (init + [c])[..|init|] == init && Payload(init) + [] == Payload(init);
  }

  lemma HeaderSays(init: seq<Chunk>, c: Chunk, st: Scan)
    requires Says(init, st) && c.kind == IHDR && OnChunk(st, c.kind, c.data).Ok?
    ensures Says(init + [c], OnChunk(st, c.kind, c.data).value)
  {
    ParsedHeader(c.data);
    NewlyHeaded(init, c, ParseHeader(c.data).value);
    PayloadSnoc(init, c);
  }

  lemma OtherSays(init: seq<Chunk>, c: Chunk, st: Scan)
    requires Says(init, st) && c.kind != IEND && c.kind != IHDR && OnChunk(st, c.kind, c.data).Ok?
    ensures Says(init + [c], OnChunk(st, c.kind, c.data).value)
  {
    PayloadSnoc(init, c);
    NoneSnoc(init, c, IHDR);
    NoneSnoc(init, c, IDAT);
    if st.header.Some? {
      HeadedSnoc(init, c, st.header.value);
    }
  }

  lemma {:induction false} InterpretSays(cs: seq<Chunk>)
    requires NoneOf(cs, IEND) && Interpret(cs, START).Ok?
    ensures Says(cs, Interpret(cs, START).value)
  {
    if cs != [] {
      var init, c := cs[..|cs| - 1], cs[|cs| - 1];
      assert cs == init + [c];
      InterpretSnoc(init, c);
      InterpretSays(init);
      SaysStep(init, c, Interpret(init, START).value);
    }
  }

  lemma {:induction false} NothingSaid(cs: seq<Chunk>)
    requires NoneOf(cs, IEND) && NoneOf(cs, IHDR) && NoneOf(cs, IDAT)
    ensures Interpret(cs, START) == Ok(START)
  {
    InterpretUnknown(cs, START);
  }

  /** The header's place is the only one of its kind. */
  lemma HeaderPlace(cs: seq<Chunk>, h: Header, k: nat, j: nat)
    requires k < |cs| && j < |cs| && HeadedAt(cs, h, k) && cs[j].kind == IHDR
    ensures j == k
  {
    assert forall i :: 0 <= i < k ==> cs[..k][i] == cs[i];
    assert forall i :: k + 1 <= i < |cs| ==> cs[k + 1..][i - k - 1] == cs[i];
  }

  lemma OneHeader(cs: seq<Chunk>, h: Header, h': Header)
    requires Headed(cs, h) && Headed(cs, h')
    ensures h == h'
  {
    var k :| 0 <= k < |cs| && HeadedAt(cs, h, k);
    var j :| 0 <= j < |cs| && HeadedAt(cs, h', j);
    HeaderPlace(cs, h, k, j);
    ParseHeaderOf(cs[k].data, h);
    ParseHeaderOf(cs[k].data, h');
  }

  /** Chunks with one header before all image data are accepted, whatever else is between them. */
  lemma {:induction false} HeadedIsRead(cs: seq<Chunk>, h: Header)
    requires NoneOf(cs, IEND) && Headed(cs, h)
    ensures Interpret(cs, START) == Ok(Scan(Some(h), Payload(cs), false))
  {
    var init, c := cs[..|cs| - 1], cs[|cs| - 1];
    assert cs == init + [c];
    InterpretSnoc(init, c);
    if c.kind == IHDR {
      HeaderIsLast(cs, h);
      NothingSaid(init);
      ParseHeaderOf(c.data, h);
    } else {
      HeadedSnoc(init, c, h);
      HeadedIsRead(init, h);
    }
    InterpretSays(cs);
    OneHeader(cs, h, Interpret(cs, START).value.header.value);
  }

  lemma HeaderIsLast(cs: seq<Chunk>, h: Header)
    requires Headed(cs, h) && cs != [] && cs[|cs| - 1].kind == IHDR
    ensures var init := cs[..|cs| - 1]; NoneOf(init, IHDR) && NoneOf(init, IDAT) && IsHeader(cs[|cs| - 1].data, h)
  {
    var k :| 0 <= k < |cs| && HeadedAt(cs, h, k);
    HeaderPlace(cs, h, k, |cs| - 1);
  }

  lemma {:induction false} FileBodyAppend(a: seq<Chunk>, b: seq<Chunk>)
    requires ValidChunks(a) && ValidChunks(b)
    ensures ValidChunks(a + b) && FileBody(a + b) == FileBody(a) + FileBody(b)
  {
    if a == [] {
      assert a + b == b;
    } else {
      assert (a + b)[1..] == a[1..] + b;
      FileBodyAppend(a[1..], b);
      Assoc(ChunkBytes(a[0]), FileBody(a[1..]), FileBody(b));
    }
  }

  /** The chunks before the first end, and the bytes behind it. */
  lemma {:induction false} EndFound(cs: seq<Chunk>, st: Scan) returns (k: nat)
    requires !st.sawIend && Interpret(cs, st).Ok? && Interpret(cs, st).value.sawIend
    ensures k < |cs| && cs[k].kind == IEND && NoneOf(cs[..k], IEND)
  {
    if cs[0].kind == IEND {
      k := 0;
    } else {
      k := EndFound(cs[1..], OnChunk(st, cs[0].kind, cs[0].data).value);
      k := k + 1;
      assert forall j :: 1 <= j < k ==> cs[..k][j] == cs[1..][..k - 1][j - 1];
    }
  }

  /** The file has this header, and this image data before its end. */
  ghost predicate IsPng(data: bytes, h: Header, idat: bytes) {
    exists front, end, trailing :: IsPngOf(data, h, idat, front, end, trailing)
  }

  ghost predicate IsPngOf(data: bytes, h: Header, idat: bytes, front: seq<Chunk>, end: Chunk, trailing: bytes) {
    && ValidChunks(front + [end]) && data == PngFile(front + [end], trailing)
    && NoneOf(front, IEND) && end.kind == IEND && Headed(front, h) && idat == Payload(front) != []
  }

  lemma IsPngIsRead(data: bytes, h: Header, idat: bytes, front: seq<Chunk>, end: Chunk, trailing: bytes)
    requires IsPngOf(data, h, idat, front, end, trailing)
    ensures |data| >= 8 && data[..8] == SIGNATURE && Walk(data[8..], START) == Ok(Scan(Some(h), idat, true))
  {
    HeadedIsRead(front, h);
    InterpretSnoc(front, end);
    assert data[..8] == SIGNATURE && data[8..] == FileBody(front + [end]) + trailing;
    WalkFile(front + [end], trailing, START);
  }

  /** Chunks behind the end are not looked at. */
  lemma FrontRead(front: seq<Chunk>, end: Chunk, behind: seq<Chunk>, st: Scan)
    requires NoneOf(front, IEND) && end.kind == IEND && Interpret(front + [end] + behind, START) == Ok(st)
    ensures Interpret(front, START) == Ok(st.(sawIend := false)) && st.sawIend
  {
    InterpretAppend(front + [end], behind, START);
    InterpretSnoc(front, end);
    if Interpret(front, START).Ok? {
      InterpretSays(front);
    }
  }

  lemma BodyParts(front: seq<Chunk>, end: Chunk, behind: seq<Chunk>, tail: bytes)
    requires ValidChunks(front + [end]) && ValidChunks(behind)
    ensures ValidChunks(front + [end] + behind)
    ensures FileBody(front + [end] + behind) + tail == FileBody(front + [end]) + (FileBody(behind) + tail)
  {
    FileBodyAppend(front + [end], behind);
    Assoc(FileBody(front + [end]), FileBody(behind), tail);
  }

  lemma CutAt(cs: seq<Chunk>, k: nat)
    requires k < |cs|
    ensures cs == cs[..k] + [cs[k]] + cs[k + 1..]
  {
  }

  lemma ValidParts(a: seq<Chunk>, b: seq<Chunk>)
    requires ValidChunks(a + b)
    ensures ValidChunks(a) && ValidChunks(b)
  {
    assert forall k :: 0 <= k < |a| ==> (a + b)[k] == a[k];
    assert forall k :: 0 <= k < |b| ==> (a + b)[|a| + k] == b[k];
  }

  lemma FrontIsPng(data: bytes, front: seq<Chunk>, end: Chunk, behind: seq<Chunk>, tail: bytes, st: Scan)
    requires NoneOf(front, IEND) && end.kind == IEND
    requires Interpret(front + [end] + behind, START) == Ok(st) && st.header.Some? && st.idat != []
    requires ValidChunks(front + [end] + behind) && data == SIGNATURE + (FileBody(front + [end] + behind) + tail)
    ensures ValidChunks(behind) && IsPngOf(data, st.header.value, st.idat, front, end, FileBody(behind) + tail)
  {
    ValidParts(front + [end], behind);
    FrontRead(front, end, behind, st);
    InterpretSays(front);
    BodyParts(front, end, behind, tail);
  }

  /** A walk that met an end walked these chunks, and what follows them does not matter. */
  lemma WalkedToEnd(rest: bytes, st: Scan) returns (cs: seq<Chunk>, tail: bytes)
    requires Walk(rest, START) == Ok(st) && st.sawIend
    ensures ValidChunks(cs) && rest == FileBody(cs) + tail && Interpret(cs, START) == Ok(st)
  {
    cs, tail := WalkedIsChunks(rest, START);
    WalkFile(cs, tail, START);
  }

  lemma ChunksArePng(data: bytes, cs: seq<Chunk>, tail: bytes, st: Scan)
    requires ValidChunks(cs) && data == SIGNATURE + (FileBody(cs) + tail)
    requires Interpret(cs, START) == Ok(st) && st.sawIend && st.header.Some? && st.idat != []
    ensures IsPng(data, st.header.value, st.idat)
  {
    var k := EndFound(cs, START);
    CutAt(cs, k);
    FrontIsPng(data, cs[..k], cs[k], cs[k + 1..], tail, st);
  }

  lemma ReadIsPng(data: bytes, st: Scan)
    requires |data| >= 8 && data[..8] == SIGNATURE && Walk(data[8..], START) == Ok(st)
    requires st.sawIend && st.header.Some? && st.idat != []
    ensures IsPng(data, st.header.value, st.idat)
  {
    SplitAt(data, 8);
    var cs, tail := WalkedToEnd(data[8..], st);
    ChunksArePng(data, cs, tail, st);
  }

  // ---------- what they decode to ----------

  lemma {:induction false} UnfilterPrefix(stream: bytes, above: bytes, stride: nat, height: nat, bpp: nat)
    requires |stream| >= Times(height, stride + 1) && |above| == stride && 0 < bpp
    ensures UnfilterRows(stream[..Times(height, stride + 1)], above, stride, height, bpp)
      == UnfilterRows(stream, above, stride, height, bpp)
    decreases height
  {
    if height > 0 && stream[0] <= 4 {
      var n := Times(height, stride + 1);
      var recon := Reconstruct(stream[0], stream[1..stride + 1], above, bpp);
      assert stream[..n][1..stride + 1] == stream[1..stride + 1];
      assert stream[..n][stride + 1..] == stream[stride + 1..][..Times(height - 1, stride + 1)];
      UnfilterPrefix(stream[stride + 1..], recon, stride, height - 1, bpp);
    }
  }

  /** The inflated data is the stream of this raw image, for some filter types; what may follow it is ignored. */
  ghost predicate IsStreamOf(inflated: bytes, h: Header, raw: bytes)
    requires ValidHeader(h)
  {
    |raw| == RawSize(h)
    && (exists types, rest ::
          ValidTypes(types) && |types| == h.height && inflated == FilteredImage(h, types, raw) + rest)
  }

  lemma ExpandIsStream(h: Header, inflated: bytes)
    requires ValidHeader(h) && Expand(h, inflated).Ok?
    ensures exists raw :: IsStreamOf(inflated, h, raw) && Expand(h, inflated) == Ok(Image(h, raw))
  {
    var stride, bpp := Stride(h), BytesPerPixel(h.colorType);
    var n := Times(h.height, stride + 1);
    var stream := inflated[..n];
    UnfilterPrefix(inflated, Zeros(stride), stride, h.height, bpp);
    var raw := UnfilterRows(stream, Zeros(stride), stride, h.height, bpp).value;
    FilterUnfiltered(stream, raw, Zeros(stride), stride, h.height, bpp);
    SplitAt(inflated, n);
    assert inflated == FilteredImage(h, TypesOf(stream, stride, h.height), raw) + inflated[n..];
    assert IsStreamOf(inflated, h, raw);
  }

  lemma StreamExpands(h: Header, inflated: bytes, raw: bytes)
    requires ValidHeader(h) && IsStreamOf(inflated, h, raw)
    ensures Expand(h, inflated) == Ok(Image(h, raw))
  {
    var types, rest :| ValidTypes(types) && |types| == h.height && inflated == FilteredImage(h, types, raw) + rest;
    var stride, bpp := Stride(h), BytesPerPixel(h.colorType);
    var stream := FilteredImage(h, types, raw);
    assert inflated[..|stream|] == stream;
    UnfilterPrefix(inflated, Zeros(stride), stride, h.height, bpp);
    UnfilterFiltered(types, raw, Zeros(stride), stride, bpp);
  }

  /** The file holds the compressed stream of this raw image. */
  ghost predicate IsEncoding(data: bytes, inflate: bytes -> Option<bytes>, h: Header, raw: bytes) {
    ValidHeader(h)
    && (exists idat :: IsPng(data, h, idat) && inflate(idat).Some? && IsStreamOf(inflate(idat).value, h, raw))
  }

  lemma EncodingDecodes(data: bytes, inflate: bytes -> Option<bytes>, h: Header, raw: bytes)
    requires IsEncoding(data, inflate, h, raw)
    ensures |raw| == RawSize(h) && Decode(data, inflate) == Ok(Image(h, raw))
  {
    var idat :| IsPng(data, h, idat) && inflate(idat).Some? && IsStreamOf(inflate(idat).value, h, raw);
    var front, end, trailing :| IsPngOf(data, h, idat, front, end, trailing);
    IsPngIsRead(data, h, idat, front, end, trailing);
    StreamExpands(h, inflate(idat).value, raw);
  }

  lemma DecodedIsEncoding(data: bytes, inflate: bytes -> Option<bytes>)
    requires Decode(data, inflate).Ok?
    ensures exists h, raw :: IsEncoding(data, inflate, h, raw) && Decode(data, inflate) == Ok(Image(h, raw))
  {
    HeaderChecked(data[8..], START);
    var st := Walk(data[8..], START).value;
    ReadIsPng(data, st);
    ExpandIsStream(st.header.value, inflate(st.idat).value);
    var raw :| IsStreamOf(inflate(st.idat).value, st.header.value, raw)
      && Expand(st.header.value, inflate(st.idat).value) == Ok(Image(st.header.value, raw));
    assert IsEncoding(data, inflate, st.header.value, raw);
  }

  /**
   Exactly the files are decoded that encode an image: the signature, chunks with one header before the image data and
   an end behind it, and a compressed stream of filtered rows; and they are decoded to that image.
   */
  lemma DecodeIff(data: bytes, inflate: bytes -> Option<bytes>, image: PngImage)
    ensures Decode(data, inflate) == Ok(image)
      <==> exists h, raw :: IsEncoding(data, inflate, h, raw) && |raw| == RawSize(h) && image == Image(h, raw)
  {
    if Decode(data, inflate) == Ok(image) {
      DecodedIsEncoding(data, inflate);
      var h, raw :| IsEncoding(data, inflate, h, raw) && Decode(data, inflate) == Ok(Image(h, raw));
      EncodingDecodes(data, inflate, h, raw);
    }
    if h, raw :| IsEncoding(data, inflate, h, raw) && |raw| == RawSize(h) && image == Image(h, raw) {
      EncodingDecodes(data, inflate, h, raw);
    }
  }
}
