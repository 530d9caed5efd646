/** The loops of png.dart over its byte buffers, each proved to compute the function that specifies it. */
module PngDecoder {
  import opened Bytes
  import opened PngFilter
  import opened Png

  /** The loops of _unfilter, one for each filter type. */
  method UnfilterNone(row: bytes, prev: array<byte>, bpp: nat, recon: array<byte>)
    requires |row| == prev.Length == recon.Length && recon != prev && 0 < bpp
    modifies recon
    ensures recon[..] == Reconstruct(0, row, prev[..], bpp)
  {
    forall i | 0 <= i < |row| {
      recon[i] := row[i];
    }
    UnfilteredRow(row, prev[..], bpp);
    assert recon[..] == row;
  }

  lemma {:induction false} UnfilteredRow(row: bytes, above: bytes, bpp: nat)
    requires |row| <= |above| && 0 < bpp
    ensures Reconstruct(0, row, above, bpp) == row
  {
    if row != [] {
      UnfilteredRow(row[..|row| - 1], above, bpp);
      assert row == row[..|row| - 1] + [row[|row| - 1]];
    }
  }

  method UnfilterSub(row: bytes, prev: array<byte>, bpp: nat, recon: array<byte>)
    requires |row| == prev.Length == recon.Length && recon != prev && 0 < bpp
    modifies recon
    ensures recon[..] == Reconstruct(1, row, prev[..], bpp)
  {
    for i := 0 to |row|
      invariant recon[..i] == Reconstruct(1, row[..i], prev[..], bpp)
    {
      RowGrows(1, row, prev[..], i, bpp);
      BytesWrap(row[i], Predict(1, recon[..i], prev[..], i, bpp));
      var left := if i >= bpp then recon[i - bpp] else 0;
      recon[i] := (row[i] as int + left as int) % 256;
      assert recon[..i + 1] == recon[..i] + [recon[i]];
    }
    assert row[..|row|] == row && recon[..] == recon[..|row|];
  }

  method UnfilterUp(row: bytes, prev: array<byte>, bpp: nat, recon: array<byte>)
    requires |row| == prev.Length == recon.Length && recon != prev && 0 < bpp
    modifies recon
    ensures recon[..] == Reconstruct(2, row, prev[..], bpp)
  {
    for i := 0 to |row|
      invariant recon[..i] == Reconstruct(2, row[..i], prev[..], bpp)
    {
      RowGrows(2, row, prev[..], i, bpp);
      BytesWrap(row[i], Predict(2, recon[..i], prev[..], i, bpp));
      recon[i] := (row[i] as int + prev[i] as int) % 256;
      assert recon[..i + 1] == recon[..i] + [recon[i]];
    }
    assert row[..|row|] == row && recon[..] == recon[..|row|];
  }

  method UnfilterAverage(row: bytes, prev: array<byte>, bpp: nat, recon: array<byte>)
    requires |row| == prev.Length == recon.Length && recon != prev && 0 < bpp
    modifies recon
    ensures recon[..] == Reconstruct(3, row, prev[..], bpp)
  {
    for i := 0 to |row|
      invariant recon[..i] == Reconstruct(3, row[..i], prev[..], bpp)
    {
      RowGrows(3, row, prev[..], i, bpp);
      BytesWrap(row[i], Predict(3, recon[..i], prev[..], i, bpp));
      var left := if i >= bpp then recon[i - bpp] else 0;
      recon[i] := (row[i] as int + (left as int + prev[i] as int) / 2) % 256;
      assert recon[..i + 1] == recon[..i] + [recon[i]];
    }
    assert row[..|row|] == row && recon[..] == recon[..|row|];
  }

  method UnfilterPaeth(row: bytes, prev: array<byte>, bpp: nat, recon: array<byte>)
    requires |row| == prev.Length == recon.Length && recon != prev && 0 < bpp
    modifies recon
    ensures recon[..] == Reconstruct(4, row, prev[..], bpp)
  {
    for i := 0 to |row|
      invariant recon[..i] == Reconstruct(4, row[..i], prev[..], bpp)
    {
      RowGrows(4, row, prev[..], i, bpp);
      BytesWrap(row[i], Predict(4, recon[..i], prev[..], i, bpp));
      var left := if i >= bpp then recon[i - bpp] else 0;
      var upLeft := if i >= bpp then prev[i - bpp] else 0;
      recon[i] := (row[i] as int + Paeth(left, prev[i], upLeft) as int) % 256;
      assert recon[..i + 1] == recon[..i] + [recon[i]];
    }
    assert row[..|row|] == row && recon[..] == recon[..|row|];
  }

  method UnfilterRow(filter: byte, row: bytes, prev: array<byte>, bpp: nat) returns (recon: array<byte>)
    requires filter <= 4 && |row| == prev.Length && 0 < bpp
    ensures fresh(recon) && recon[..] == Reconstruct(filter, row, prev[..], bpp)
  {
    recon := new byte[|row|];
    match filter
    case 0 => UnfilterNone(row, prev, bpp, recon);
    case 1 => UnfilterSub(row, prev, bpp, recon);
    case 2 => UnfilterUp(row, prev, bpp, recon);
    case 3 => UnfilterAverage(row, prev, bpp, recon);
    case _ => UnfilterPaeth(row, prev, bpp, recon);
  }

  lemma RowGrows(filter: byte, row: bytes, above: bytes, i: nat, bpp: nat)
    requires filter <= 4 && i < |row| <= |above| && 0 < bpp
    ensures var recon := Reconstruct(filter, row[..i], above, bpp);
            Reconstruct(filter, row[..i + 1], above, bpp)
              == recon + [AddByte(row[i], Predict(filter, recon, above, i, bpp))]
  {
    assert row[..i + 1][..i] == row[..i];
  }

  /** `done` is in the output; unfiltering the rest of the stream gives the rest of the whole. */
  ghost predicate Unfiltered(whole: Option<bytes>, done: bytes, rest: Option<bytes>) {
    whole == if rest.Some? then Some(done + rest.value) else None
  }

  /** The state of the row loop with `left` rows to go. */
  ghost predicate AtRow(
    whole: Option<bytes>, done: bytes, inflated: bytes, inOff: nat, above: bytes, stride: nat, left: nat, bpp: nat)
  {
    && |above| == stride && 0 < bpp && inOff + Times(left, stride + 1) <= |inflated|
    && Unfiltered(whole, done, UnfilterRows(inflated[inOff..], above, stride, left, bpp))
  }

  /** One turn of the row loop, with `left` rows to go. */
  method TakeRow(
    ghost whole: Option<bytes>, inflated: bytes, inOff: nat, stride: nat, prev: array<byte>, out: array<byte>,
    outOff: nat, ghost left: nat, bpp: nat)
    returns (ok: bool)
    requires out != prev && prev.Length == stride && left > 0 && outOff + Times(left, stride) == out.Length
    requires AtRow(whole, out[..outOff], inflated, inOff, prev[..], stride, left, bpp)
    modifies out, prev
    ensures !ok ==> whole.None?
    ensures outOff + stride + Times(left - 1, stride) == out.Length
    ensures ok ==> AtRow(whole, out[..outOff + stride], inflated, inOff + 1 + stride, prev[..], stride, left - 1, bpp)
  {
    RowStep(whole, out[..outOff], inflated, inOff, prev[..], stride, left, bpp);
    ok := NextRow(inflated[inOff], inflated[inOff + 1..inOff + 1 + stride], bpp, prev, out, outOff);
  }

  /** The row loop of _unfilter; false where the source throws on an unknown filter type. */
  method FillRows(
    ghost whole: Option<bytes>, inflated: bytes, stride: nat, prev: array<byte>, out: array<byte>, height: nat,
    bpp: nat)
    returns (ok: bool)
    requires out != prev && prev.Length == stride && out.Length == Times(height, stride)
    requires AtRow(whole, [], inflated, 0, prev[..], stride, height, bpp)
    modifies out, prev
    ensures ok <==> whole.Some?
    ensures ok ==> whole == Some(out[..])
  {
    var inOff: nat, outOff: nat := 0, 0;
    ghost var left := height;
    for y := 0 to height
      invariant left == height - y && outOff + Times(left, stride) == out.Length
      invariant AtRow(whole, out[..outOff], inflated, inOff, prev[..], stride, left, bpp)
    {
      ok := TakeRow(whole, inflated, inOff, stride, prev, out, outOff, left, bpp);
      if !ok {
        return;
      }
      inOff, outOff, left := inOff + 1 + stride, outOff + stride, left - 1;
    }
    AfterLastRow(whole, out[..outOff], inflated, inOff, prev[..], stride, bpp);
    assert outOff == out.Length && out[..outOff] == out[..];
    ok := true;
  }

  /** _unfilter; None where the source throws. */
  method Unfilter(inflated: bytes, stride: nat, height: nat, bpp: nat) returns (r: Option<array<byte>>)
    requires |inflated| >= Times(height, stride + 1) && 0 < bpp
    ensures r.Some? <==> UnfilterRows(inflated, Zeros(stride), stride, height, bpp).Some?
    ensures r.Some? ==> Some(r.value[..]) == UnfilterRows(inflated, Zeros(stride), stride, height, bpp)
  {
    ghost var whole := UnfilterRows(inflated, Zeros(stride), stride, height, bpp);
    TimesIsProduct(height, stride);
    var out := new byte[stride * height];
    var prev := new byte[stride](_ => 0);
    Begin(whole, inflated, prev[..], stride, height, bpp);
    var ok := FillRows(whole, inflated, stride, prev, out, height, bpp);
    r := if ok then Some(out) else None;
  }

  /** One turn of the loop: reconstruct the row, append it to the output, keep it as the row above. */
  method NextRow(filter: byte, row: bytes, bpp: nat, prev: array<byte>, out: array<byte>, outOff: nat)
    returns (ok: bool)
    requires |row| == prev.Length && outOff + |row| <= out.Length && out != prev && 0 < bpp
    modifies prev, out
    ensures ok <==> filter <= 4
    ensures ok ==> prev[..] == Reconstruct(filter, row, old(prev[..]), bpp)
    ensures ok ==> out[..outOff + |row|] == old(out[..outOff]) + prev[..]
  {
    if filter > 4 {
      return false;
    }
    var recon := UnfilterRow(filter, row, prev, bpp);
    StoreRow(out, outOff, prev, recon);
    ok := true;
  }

  lemma Begin(whole: Option<bytes>, inflated: bytes, above: bytes, stride: nat, height: nat, bpp: nat)
    requires |inflated| >= Times(height, stride + 1) && 0 < bpp
    requires |above| == stride && forall i :: 0 <= i < stride ==> above[i] == 0
    requires whole == UnfilterRows(inflated, Zeros(stride), stride, height, bpp)
    ensures AtRow(whole, [], inflated, 0, above, stride, height, bpp)
  {
    assert inflated[0..] == inflated && above == Zeros(stride);
    assert whole.Some? ==> [] + whole.value == whole.value;
  }

  lemma AfterLastRow(
    whole: Option<bytes>, done: bytes, inflated: bytes, inOff: nat, above: bytes, stride: nat, bpp: nat)
    requires AtRow(whole, done, inflated, inOff, above, stride, 0, bpp)
    ensures whole == Some(done)
  {
    assert done + [] == done;
  }

  /** One row of the loop: a bad type fails the whole, a good one moves its row to what is done. */
  lemma RowStep(
    whole: Option<bytes>, done: bytes, inflated: bytes, inOff: nat, above: bytes, stride: nat, left: nat, bpp: nat)
    requires left > 0 && AtRow(whole, done, inflated, inOff, above, stride, left, bpp)
    ensures inOff + 1 + stride <= |inflated|
    ensures inflated[inOff] > 4 ==> whole.None?
    ensures inflated[inOff] <= 4 ==>
      var recon := Reconstruct(inflated[inOff], inflated[inOff + 1..inOff + 1 + stride], above, bpp);
      AtRow(whole, done + recon, inflated, inOff + 1 + stride, recon, stride, left - 1, bpp)
  {
    var rest := inflated[inOff..];
    assert rest[0] == inflated[inOff] && rest[1..stride + 1] == inflated[inOff + 1..inOff + 1 + stride];
    assert rest[stride + 1..] == inflated[inOff + 1 + stride..];
    if rest[0] <= 4 {
      var recon := Reconstruct(rest[0], rest[1..stride + 1], above, bpp);
      var tail := UnfilterRows(rest[stride + 1..], recon, stride, left - 1, bpp);
      if tail.Some? {
        Assoc(done, recon, tail.value);
      }
    }
  }

  method StoreRow(out: array<byte>, outOff: nat, prev: array<byte>, recon: array<byte>)
    requires outOff + recon.Length <= out.Length && prev.Length == recon.Length
    requires out != prev && recon != out && recon != prev
    modifies out, prev
    ensures out[..outOff + recon.Length] == old(out[..outOff]) + recon[..] && prev[..] == recon[..]
  {
    forall i | 0 <= i < recon.Length {
      out[outOff + i] := recon[i];
    }
    forall i | 0 <= i < recon.Length {
      prev[i] := recon[i];
    }
  }

  /** The loops of _toRgba, one for each colour type. */
  method GrayToRgba(raw: bytes, n: nat, out: array<byte>)
    requires |raw| == n * 1 && out.Length == n * 4
    modifies out
    ensures out[..] == Rgba(raw, 0, n)
  {
    var si, di := 0, 0;
    for i := 0 to n
      invariant si == 1 * i && di == 4 * i && out[..di] == Rgba(raw, 0, i)
    {
      var g := raw[si];
      out[di], out[di + 1], out[di + 2], out[di + 3] := g, g, g, 255;
      si, di := si + 1, di + 4;
      assert out[..di] == out[..4 * i] + Pixel(raw, 0, i);
    }
    assert out[..] == out[..di];
  }

  method RgbToRgba(raw: bytes, n: nat, out: array<byte>)
    requires |raw| == n * 3 && out.Length == n * 4
    modifies out
    ensures out[..] == Rgba(raw, 2, n)
  {
    var si, di := 0, 0;
    for i := 0 to n
      invariant si == 3 * i && di == 4 * i && out[..di] == Rgba(raw, 2, i)
    {
      out[di], out[di + 1], out[di + 2], out[di + 3] := raw[si], raw[si + 1], raw[si + 2], 255;
      si, di := si + 3, di + 4;
      assert out[..di] == out[..4 * i] + Pixel(raw, 2, i);
    }
    assert out[..] == out[..di];
  }

  method GrayAlphaToRgba(raw: bytes, n: nat, out: array<byte>)
    requires |raw| == n * 2 && out.Length == n * 4
    modifies out
    ensures out[..] == Rgba(raw, 4, n)
  {
    var si, di := 0, 0;
    for i := 0 to n
      invariant si == 2 * i && di == 4 * i && out[..di] == Rgba(raw, 4, i)
    {
      var g, a := raw[si], raw[si + 1];
      out[di], out[di + 1], out[di + 2], out[di + 3] := g, g, g, a;
      si, di := si + 2, di + 4;
      assert out[..di] == out[..4 * i] + Pixel(raw, 4, i);
    }
    assert out[..] == out[..di];
  }

  method ToRgba(raw: bytes, n: nat, colorType: nat) returns (out: array<byte>)
    requires ValidColorType(colorType) && |raw| == n * BytesPerPixel(colorType)
    ensures out[..] == Rgba(raw, colorType, n)
  {
    out := new byte[n * 4];
    if colorType == 0 {
      GrayToRgba(raw, n, out);
    } else if colorType == 2 {
      RgbToRgba(raw, n, out);
    } else if colorType == 4 {
      GrayAlphaToRgba(raw, n, out);
    } else {
      forall k | 0 <= k < n * 4 {
        out[k] := raw[k];
      }
      RgbaIsRaw(raw, n);
      assert out[..] == raw[..4 * n];
    }
  }

  lemma {:induction false} RgbaIsRaw(raw: bytes, n: nat)
    requires |raw| >= 4 * n
    ensures Rgba(raw, 6, n) == raw[..4 * n]
  {
    if n > 0 {
      RgbaIsRaw(raw, n - 1);
      assert raw[..4 * n] == raw[..4 * (n - 1)] + raw[4 * (n - 1)..4 * (n - 1) + 4];
    }
  }

  /** decodePng */
  method DecodePng(data: bytes, inflate: bytes -> Option<bytes>) returns (r: Outcome<PngImage>)
    ensures r == Decode(data, inflate)
  {
    if |data| < 8 {
      return Err(TooShort);
    }
    if data[..8] != SIGNATURE {
      return Err(BadSignature);
    }
    var offset := 8;
    var header: Option<Header> := None;
    var idat: bytes := [];
    var sawIend := false;
    HeaderChecked(data[8..], START);
    while offset + 12 <= |data| && !sawIend
      invariant 8 <= offset <= |data|
      invariant Walk(data[8..], START) == Walk(data[offset..], Scan(header, idat, sawIend))
      decreases |data| - offset
    {
      ghost var rest, st := data[offset..], Scan(header, idat, sawIend);
      var length := ReadU32(data, offset);
      assert length == ReadU32(rest, 0);
      var dataStart := offset + 8;
      var dataEnd := dataStart + length;
      if dataEnd + 4 > |data| {
        return Err(ChunkTruncated);
      }
      var kind, chunk := data[offset + 4..offset + 8], data[dataStart..dataEnd];
      assert kind == rest[4..8] && chunk == rest[8..8 + length];
      offset := dataEnd + 4;
      assert data[offset..] == rest[12 + length..];
      if kind == IHDR {
        if header.Some? || length < 13 {
          return Err(InvalidIhdr);
        }
        var parsed := ParseHeader(chunk);
        if parsed.Err? {
          return Err(parsed.error);
        }
        header := Some(parsed.value);
      } else if kind == IDAT {
        if header.None? {
          return Err(IdatBeforeIhdr);
        }
        idat := idat + chunk;
      } else if kind == IEND {
        sawIend := true;
      }
    }
    if header.None? {
      return Err(MissingIhdr);
    }
    if !sawIend {
      return Err(MissingIend);
    }
    if idat == [] {
      return Err(NoIdat);
    }
    var inflated := inflate(idat);
    if inflated.None? {
      return Err(InflateFailed);
    }
    r := ExpandImage(header.value, inflated.value);
  }

  /** The tail of decodePng. */
  method ExpandImage(h: Header, inflated: bytes) returns (r: Outcome<PngImage>)
    requires ValidHeader(h)
    ensures r == Expand(h, inflated)
  {
    var stride := h.width * BytesPerPixel(h.colorType);
    var expected := (stride + 1) * h.height;
    ExpectedSize(h, stride);
    if |inflated| < expected {
      return Err(InflatedShort);
    }
    var raw := Unfilter(inflated, stride, h.height, BytesPerPixel(h.colorType));
    if raw.None? {
      return Err(BadFilterType);
    }
    var image := ColorImage(h, raw.value[..]);
    r := Ok(image);
  }

  method ColorImage(h: Header, raw: bytes) returns (image: PngImage)
    requires ValidHeader(h) && |raw| == RawSize(h)
    ensures image == Image(h, raw)
  {
    PixelBytes(h);
    var rgba := ToRgba(raw, h.width * h.height, h.colorType);
    image := PngImage(h.width, h.height, rgba[..]);
  }

  lemma ExpectedSize(h: Header, stride: nat)
    requires ValidHeader(h) && stride == h.width * BytesPerPixel(h.colorType)
    ensures stride == Stride(h) && (stride + 1) * h.height == Times(h.height, stride + 1)
  {
    TimesIsProduct(h.height, stride + 1);
  }
}
