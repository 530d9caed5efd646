/**
 The PNG Specification (Second Edition) itself: the filters of section 9.2 byte by byte, over whole images, and the
 colour types of section 6.1 pixel by pixel.
 */
module PngStandard {
  import opened Bytes
  import opened PngFilter
  import opened Png

  // ---------- filters ----------

  /** `r` is the nearest of left, up and up-left to left + up - up-left; of equally near ones the earlier. */
  predicate IsNearest(left: byte, up: byte, upLeft: byte, r: byte) {
    var p := left as int + up as int - upLeft as int;
    && (r == left || r == up || r == upLeft)
    && Abs(p - r) <= Abs(p - left) && Abs(p - r) <= Abs(p - up) && Abs(p - r) <= Abs(p - upLeft)
    && (r != left ==> Abs(p - r) < Abs(p - left))
    && (r != left && r != up ==> Abs(p - r) < Abs(p - up))
  }

  lemma PaethIsNearest(left: byte, up: byte, upLeft: byte, r: byte)
    ensures IsNearest(left, up, upLeft, r) <==> r == Paeth(left, up, upLeft)
  {
    PaethNearest(left, up, upLeft);
  }

  /** `filtered` is what each filter type makes of the byte `x` between these neighbours. */
  ghost predicate IsFiltered(filter: byte, filtered: byte, x: byte, left: byte, up: byte, upLeft: byte) {
    match filter
    case 0 => filtered == x
    case 1 => filtered as int == (x as int - left as int) % 256
    case 2 => filtered as int == (x as int - up as int) % 256
    case 3 => filtered as int == (x as int - (left as int + up as int) / 2) % 256
    case 4 => exists p: byte :: IsNearest(left, up, upLeft, p) && filtered as int == (x as int - p as int) % 256
    case _ => false
  }

  /** The neighbours of byte `k` of a row: `bpp` bytes before it, above it, and above that; 0 outside of the image. */
  function LeftOf(row: bytes, k: nat, bpp: nat): byte
    requires k < |row|
  {
    if 0 < bpp <= k then row[k - bpp] else 0
  }

  /** The encoder's filter is that of the standard, for each byte of a row. */
  lemma FilterRowIs(filter: byte, raw: bytes, above: bytes, bpp: nat, k: nat)
    requires filter <= 4 && k < |raw| <= |above| && 0 < bpp
    ensures IsFiltered(filter, FilterRow(filter, raw, above, bpp)[k], raw[k],
                       LeftOf(raw, k, bpp), above[k], LeftOf(above, k, bpp))
  {
    var left, up, upLeft := LeftOf(raw, k, bpp), above[k], LeftOf(above, k, bpp);
    FilterRowAt(filter, raw, above, bpp, k);
    BytesWrap(raw[k], Predict(filter, raw, above, k, bpp));
    PaethIsNearest(left, up, upLeft, Paeth(left, up, upLeft));
  }

  /** And what the decoder reconstructs filters to what it was given, by the standard's filter. */
  lemma ReconstructIs(filter: byte, row: bytes, above: bytes, bpp: nat, k: nat)
    requires filter <= 4 && k < |row| <= |above| && 0 < bpp
    ensures var recon := Reconstruct(filter, row, above, bpp);
      IsFiltered(filter, row[k], recon[k], LeftOf(recon, k, bpp), above[k], LeftOf(above, k, bpp))
  {
    var recon := Reconstruct(filter, row, above, bpp);
    FilterReconstructed(filter, row, above, bpp);
    FilterRowIs(filter, recon, above, bpp, k);
  }

  // ---------- the filtered stream of an image ----------

  lemma FilterRowsHead(types: bytes, raw: bytes, above: bytes, stride: nat, bpp: nat)
    requires ValidTypes(types) && types != [] && |raw| == Times(|types|, stride) && |above| == stride && 0 < bpp
    ensures var stream := FilterRows(types, raw, above, stride, bpp);
      && stream[0] == types[0] && stream[1..stride + 1] == FilterRow(types[0], raw[..stride], above, bpp)
      && stream[stride + 1..] == FilterRows(types[1..], raw[stride..], raw[..stride], stride, bpp)
  {
  }

  /** The row above row `y`. */
  function RowAbove(raw: bytes, above: bytes, stride: nat, y: nat): (row: bytes)
    requires Times(y, stride) <= |raw| && |above| == stride
    ensures |row| == stride
  {
    if y == 0 then above else raw[Times(y - 1, stride)..Times(y, stride)]
  }

  lemma RowsFit(y: nat, height: nat, stride: nat)
    requires y < height
    ensures Times(y, stride) + stride == Times(y + 1, stride) <= Times(height, stride)
  {
    TimesMonotone(y + 1, height, stride);
  }

  /** At `at` stands a row, filtered, behind its filter type. */
  ghost predicate RowIsAt(stream: bytes, at: nat, filter: byte, row: bytes, above: bytes, bpp: nat)
    requires filter <= 4 && |row| <= |above| && 0 < bpp
  {
    && at + 1 + |row| <= |stream| && stream[at] == filter
    && stream[at + 1..at + 1 + |row|] == FilterRow(filter, row, above, bpp)
  }

  lemma RowBehind(stream: bytes, n: nat, at: nat, filter: byte, row: bytes, above: bytes, bpp: nat)
    requires filter <= 4 && |row| <= |above| && 0 < bpp && n <= |stream|
    requires RowIsAt(stream[n..], at, filter, row, above, bpp)
    ensures RowIsAt(stream, at + n, filter, row, above, bpp)
  {
    assert stream[n..][at + 1..at + 1 + |row|] == stream[at + n + 1..at + n + 1 + |row|];
  }

  function RawRow(raw: bytes, stride: nat, y: nat): (row: bytes)
    requires Times(y, stride) + stride <= |raw|
    ensures |row| == stride
  {
    raw[Times(y, stride)..Times(y, stride) + stride]
  }

  /** Row `y` of the filtered stream is that of the raw image. */
  lemma {:induction false} FilterRowsAt(
    stream: bytes, types: bytes, raw: bytes, above: bytes, stride: nat, bpp: nat, y: nat, row: bytes, rowAbove: bytes)
    requires ValidTypes(types) && |raw| == Times(|types|, stride) && |above| == stride && 0 < bpp && y < |types|
    requires stream == FilterRows(types, raw, above, stride, bpp)
    requires Times(y, stride) + stride <= |raw|
    requires row == RawRow(raw, stride, y) && rowAbove == RowAbove(raw, above, stride, y)
    ensures RowIsAt(stream, Times(y, stride + 1), types[y], row, rowAbove, bpp)
  {
    FilterRowsHead(types, raw, above, stride, bpp);
    if y > 0 {
      RowsBehind(raw, above, stride, y);
      FilterRowsAt(stream[stride + 1..], types[1..], raw[stride..], raw[..stride], stride, bpp, y - 1, row, rowAbove);
      RowBehind(stream, stride + 1, Times(y - 1, stride + 1), types[y], row, rowAbove, bpp);
    }
  }

  lemma RowsBehind(raw: bytes, above: bytes, stride: nat, y: nat)
    requires y > 0 && Times(y, stride) + stride <= |raw| && |above| == stride
    ensures Times(y, stride) == Times(y - 1, stride) + stride
    ensures RawRow(raw[stride..], stride, y - 1) == RawRow(raw, stride, y)
    ensures RowAbove(raw[stride..], raw[..stride], stride, y - 1) == RowAbove(raw, above, stride, y)
  {
    SliceBehind(raw, stride, Times(y - 1, stride), stride);
    if y > 1 {
      SliceBehind(raw, stride, Times(y - 2, stride), stride);
    }
  }

  lemma SliceBehind(raw: bytes, k: nat, at: nat, n: nat)
    requires k + at + n <= |raw|
    ensures raw[k..][at..at + n] == raw[at + k..at + k + n]
  {
  }

  /** The byte at column `x` of row `y`, in rows of `stride` bytes; 0 outside of the image. */
  function ByteAt(raw: bytes, stride: nat, y: int, x: int): byte {
    if 0 <= y && 0 <= x < stride && Times(y, stride) + x < |raw| then raw[Times(y, stride) + x] else 0
  }

  lemma ByteOfRow(raw: bytes, stride: nat, height: nat, y: nat, x: nat)
    requires |raw| == Times(height, stride) && y < height && x < stride
    ensures Times(y, stride) + stride <= |raw|
    ensures RawRow(raw, stride, y)[x] == ByteAt(raw, stride, y, x)
  {
    RowsFit(y, height, stride);
  }

  lemma LaterAbove(raw: bytes, stride: nat, height: nat, z: nat, y: nat, x: nat)
    requires |raw| == Times(height, stride) && y == z + 1 < height && x < stride
    ensures Times(y, stride) <= |raw|
    ensures RowAbove(raw, Zeros(stride), stride, y)[x] == ByteAt(raw, stride, z, x)
  {
    RowsFit(z, height, stride);
    RowsFit(y, height, stride);
    ByteOfRow(raw, stride, height, z, x);
    assert RowAbove(raw, Zeros(stride), stride, y) == RawRow(raw, stride, z);
  }

  lemma ByteAbove(raw: bytes, stride: nat, height: nat, y: nat, x: nat)
    requires |raw| == Times(height, stride) && y < height && x < stride
    ensures Times(y, stride) <= |raw|
    ensures RowAbove(raw, Zeros(stride), stride, y)[x] == ByteAt(raw, stride, y - 1, x)
  {
    if y == 0 {
      NothingAbove(raw, stride, x);
    } else {
      LaterAbove(raw, stride, height, y - 1, y, x);
    }
  }

  lemma NothingAbove(raw: bytes, stride: nat, x: nat)
    requires x < stride
    ensures RowAbove(raw, Zeros(stride), stride, 0)[x] == 0 == ByteAt(raw, stride, -1, x)
  {
  }

  /**
   The stream whose decoding gives the raw image: each row behind its filter type, each byte filtered with the bytes of
   the raw image to its left, above it and above that.
   */
  lemma StreamIsFiltered(h: Header, types: bytes, raw: bytes, y: nat, x: nat)
    requires ValidHeader(h) && ValidTypes(types) && |types| == h.height && |raw| == RawSize(h)
    requires y < h.height && x < Stride(h)
    ensures var stream, stride, bpp := FilteredImage(h, types, raw), Stride(h), BytesPerPixel(h.colorType);
      var at := Times(y, stride + 1);
      && at + 1 + x < |stream| && stream[at] == types[y]
      && IsFiltered(types[y], stream[at + 1 + x], ByteAt(raw, stride, y, x), ByteAt(raw, stride, y, x - bpp),
                    ByteAt(raw, stride, y - 1, x), ByteAt(raw, stride, y - 1, x - bpp))
  {
    StreamByte(FilteredImage(h, types, raw), types, raw, Stride(h), BytesPerPixel(h.colorType), y, x);
  }

  lemma StreamByte(stream: bytes, types: bytes, raw: bytes, stride: nat, bpp: nat, y: nat, x: nat)
    requires ValidTypes(types) && |raw| == Times(|types|, stride) && 0 < bpp && y < |types| && x < stride
    requires stream == FilterRows(types, raw, Zeros(stride), stride, bpp)
    ensures var at := Times(y, stride + 1);
      && at + 1 + x < |stream| && stream[at] == types[y]
      && IsFiltered(types[y], stream[at + 1 + x], ByteAt(raw, stride, y, x), ByteAt(raw, stride, y, x - bpp),
                    ByteAt(raw, stride, y - 1, x), ByteAt(raw, stride, y - 1, x - bpp))
  {
    RowsFit(y, |types|, stride);
    var row, above := RawRow(raw, stride, y), RowAbove(raw, Zeros(stride), stride, y);
    FilterRowsAt(stream, types, raw, Zeros(stride), stride, bpp, y, row, above);
    RowElement(stream, Times(y, stride + 1) + 1, stride, x);
    FilterRowIs(types[y], row, above, bpp, x);
    Neighbours(raw, stride, |types|, bpp, y, x);
  }

  lemma Neighbours(raw: bytes, stride: nat, height: nat, bpp: nat, y: nat, x: nat)
    requires |raw| == Times(height, stride) && y < height && x < stride && 0 < bpp
    ensures Times(y, stride) + stride <= |raw|
    ensures var row, above := RawRow(raw, stride, y), RowAbove(raw, Zeros(stride), stride, y);
      && row[x] == ByteAt(raw, stride, y, x) && LeftOf(row, x, bpp) == ByteAt(raw, stride, y, x - bpp)
      && above[x] == ByteAt(raw, stride, y - 1, x) && LeftOf(above, x, bpp) == ByteAt(raw, stride, y - 1, x - bpp)
  {
    ByteOfRow(raw, stride, height, y, x);
    ByteAbove(raw, stride, height, y, x);
    if x >= bpp {
      ByteOfRow(raw, stride, height, y, x - bpp);
      ByteAbove(raw, stride, height, y, x - bpp);
    }
  }

  lemma RowElement(stream: bytes, at: nat, n: nat, x: nat)
    requires at + n <= |stream| && x < n
    ensures stream[at..at + n][x] == stream[at + x]
  {
  }

  // ---------- numbers and pixels ----------

  lemma Digits(v: nat, b0: byte, b1: byte, b2: byte, b3: byte)
    requires v == b0 as int * 0x100_0000 + b1 as int * 0x1_0000 + b2 as int * 0x100 + b3 as int
    ensures v / 0x100_0000 == b0 && v / 0x1_0000 % 0x100 == b1 && v / 0x100 % 0x100 == b2 && v % 0x100 == b3
  {
    assert v / 0x1_0000 == b0 as int * 0x100 + b1 as int;
    assert v / 0x100 == b0 as int * 0x1_0000 + b1 as int * 0x100 + b2 as int;
  }

  /** Four bytes, the highest first. */
  lemma HighestFirst(v: nat)
    requires v < 0x1_0000_0000
    ensures U32Bytes(v) == [v / 0x100_0000, v / 0x1_0000 % 0x100, v / 0x100 % 0x100, v % 0x100]
  {
    var b := U32Bytes(v);
    assert v == b[0] as int * 0x100_0000 + b[1] as int * 0x1_0000 + b[2] as int * 0x100 + b[3] as int;
    Digits(v, b[0], b[1], b[2], b[3]);
  }

  /** Gray, RGB, gray with alpha, and RGBA. */
  function Samples(colorType: nat): nat
    requires ValidColorType(colorType)
  {
    match colorType
    case 0 => 1
    case 2 => 3
    case 4 => 2
    case _ => 4
  }

  lemma MoreSamples(i: nat, n: nat, k: nat)
    requires i <= n
    ensures i * k <= n * k
  {
  }

  lemma {:induction false} RgbaPrefix(raw: bytes, colorType: nat, i: nat, n: nat)
    requires ValidColorType(colorType) && |raw| >= n * BytesPerPixel(colorType) && i <= n
    ensures |raw| >= i * BytesPerPixel(colorType) && Rgba(raw, colorType, i) <= Rgba(raw, colorType, n)
  {
    if i < n {
      RgbaGrows(raw, colorType, n);
      RgbaPrefix(raw, colorType, i, n - 1);
    }
  }

  lemma RgbaGrows(raw: bytes, colorType: nat, n: nat)
    requires ValidColorType(colorType) && |raw| >= n * BytesPerPixel(colorType) && n > 0
    ensures |raw| >= (n - 1) * BytesPerPixel(colorType) && Rgba(raw, colorType, n - 1) <= Rgba(raw, colorType, n)
  {
    MoreSamples(n - 1, n, BytesPerPixel(colorType));
  }

  lemma RgbaAt(raw: bytes, colorType: nat, n: nat, i: nat)
    requires ValidColorType(colorType) && |raw| >= n * BytesPerPixel(colorType) && i < n
    ensures |raw| >= (i + 1) * BytesPerPixel(colorType)
    ensures Rgba(raw, colorType, n)[4 * i..4 * i + 4] == Pixel(raw, colorType, i)
  {
    RgbaPrefix(raw, colorType, i + 1, n);
    LastPixel(raw, colorType, i);
    SameSlice(Rgba(raw, colorType, i + 1), Rgba(raw, colorType, n), 4 * i, 4 * i + 4);
  }

  lemma SameSlice(a: bytes, b: bytes, i: nat, j: nat)
    requires a <= b && i <= j <= |a|
    ensures a[i..j] == b[i..j]
  {
  }

  lemma LastPixel(raw: bytes, colorType: nat, i: nat)
    requires ValidColorType(colorType) && |raw| >= (i + 1) * BytesPerPixel(colorType)
    ensures Rgba(raw, colorType, i + 1)[4 * i..4 * i + 4] == Pixel(raw, colorType, i)
  {
    MoreSamples(i, i + 1, BytesPerPixel(colorType));
    SliceOfConcat(Rgba(raw, colorType, i), Pixel(raw, colorType, i), 4 * i, 4 * i + 4);
  }

  /** A pixel of these samples; without alpha it is opaque. */
  function PixelOf(colorType: nat, samples: bytes): bytes
    requires ValidColorType(colorType) && |samples| == Samples(colorType)
  {
    match colorType
    case 0 => [samples[0], samples[0], samples[0], 255]
    case 2 => [samples[0], samples[1], samples[2], 255]
    case 4 => [samples[0], samples[0], samples[0], samples[1]]
    case _ => samples
  }

  lemma PixelIs(raw: bytes, colorType: nat, i: nat)
    requires ValidColorType(colorType) && |raw| >= (i + 1) * BytesPerPixel(colorType)
    ensures Samples(colorType) == BytesPerPixel(colorType)
    ensures Samples(colorType) * i + Samples(colorType) <= |raw|
    ensures Pixel(raw, colorType, i)
      == PixelOf(colorType, raw[Samples(colorType) * i..Samples(colorType) * i + Samples(colorType)])
  {
    if colorType == 0 {
      assert raw[i..i + 1] == [raw[i]];
    } else if colorType == 2 {
      assert raw[3 * i..3 * i + 3] == [raw[3 * i], raw[3 * i + 1], raw[3 * i + 2]];
    } else if colorType == 4 {
      assert raw[2 * i..2 * i + 2] == [raw[2 * i], raw[2 * i + 1]];
    }
  }

  /** Each pixel of a decoded image is that of its samples in the raw one. */
  lemma ImagePixels(h: Header, raw: bytes, i: nat)
    requires ValidHeader(h) && |raw| == RawSize(h) && i < h.width * h.height
    ensures Image(h, raw).width == h.width && Image(h, raw).height == h.height
    ensures |raw| == (h.width * h.height) * Samples(h.colorType) && |Image(h, raw).rgba| == 4 * (h.width * h.height)
    ensures var at, n := Samples(h.colorType) * i, Samples(h.colorType);
      && at + n <= |raw| && Image(h, raw).rgba[4 * i..4 * i + 4] == PixelOf(h.colorType, raw[at..at + n])
  {
    PixelBytes(h);
    RgbaAt(raw, h.colorType, h.width * h.height, i);
    PixelIs(raw, h.colorType, i);
  }
}
