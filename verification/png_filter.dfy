/**
 The row filters of png.dart: the decoder's reconstruction loops, and the encoder-side filter of section 9.2
 of the PNG Specification (Second Edition), of which they are the two-sided inverse.
 */
module PngFilter {
  import opened Bytes

  function Abs(x: int): nat {
    if x < 0 then -x else x
  }

  /** _paeth */
  function Paeth(a: byte, b: byte, c: byte): byte {
    var p := a as int + b as int - c as int;
    var pa, pb, pc := Abs(p - a), Abs(p - b), Abs(p - c);
    if pa <= pb && pa <= pc then a else if pb <= pc then b else c
  }

  /** The predictor is the nearest of left, up and up-left to left + up - up-left, earlier ones winning ties. */
  lemma PaethNearest(a: byte, b: byte, c: byte)
    ensures var p, r := a as int + b as int - c as int, Paeth(a, b, c);
            && (r == a || r == b || r == c)
            && Abs(p - r) <= Abs(p - a) && Abs(p - r) <= Abs(p - b) && Abs(p - r) <= Abs(p - c)
            && (r != a ==> Abs(p - r) < Abs(p - a))
            && (r != a && r != b ==> Abs(p - r) < Abs(p - b))
  {
  }

  function Average(a: byte, b: byte): byte {
    (a as int + b as int) / 2
  }

  /** The predicted value of byte `i`, from the bytes before it in its row and from the row above. */
  function Predict(filter: byte, row: bytes, above: bytes, i: nat, bpp: nat): byte
    requires filter <= 4 && i <= |row| && i < |above| && 0 < bpp
  {
    var left := if i >= bpp then row[i - bpp] else 0;
    var up := above[i];
    var upLeft := if i >= bpp then above[i - bpp] else 0;
    match filter
    case 0 => 0
    case 1 => left
    case 2 => up
    case 3 => Average(left, up)
    case 4 => Paeth(left, up, upLeft)
  }

  /** Sum and difference of two bytes, kept to their low eight bits. */
  function AddByte(x: byte, p: byte): byte {
    if x as int + p as int < 256 then x + p else x - 256 + p
  }

  function SubByte(x: byte, p: byte): byte {
    if p <= x then x - p else x + (256 - p)
  }

  lemma BytesWrap(x: byte, p: byte)
    ensures AddByte(x, p) == (x as int + p as int) % 256
    ensures SubByte(x, p) == (x as int - p as int) % 256
  {
  }

  /** What the decoder's loops compute: each byte is the filtered one plus the prediction, modulo 256. */
  function Reconstruct(filter: byte, row: bytes, above: bytes, bpp: nat): (recon: bytes)
    requires filter <= 4 && |row| <= |above| && 0 < bpp
    ensures |recon| == |row|
  {
    if row == [] then []
    else
      var i := |row| - 1;
      var recon := Reconstruct(filter, row[..i], above, bpp);
      recon + [AddByte(row[i], Predict(filter, recon, above, i, bpp))]
  }

  /** The encoder's filter: each byte minus the prediction from the unfiltered bytes, modulo 256. */
  function FilterRow(filter: byte, raw: bytes, above: bytes, bpp: nat): (row: bytes)
    requires filter <= 4 && |raw| <= |above| && 0 < bpp
    ensures |row| == |raw|
  {
    if raw == [] then []
    else
      var i := |raw| - 1;
      FilterRow(filter, raw[..i], above, bpp) + [SubByte(raw[i], Predict(filter, raw[..i], above, i, bpp))]
  }

  /** Byte by byte, as the standard writes it: Filt(x) = Orig(x) - Predict(x). */
  lemma {:induction false} FilterRowAt(filter: byte, raw: bytes, above: bytes, bpp: nat, k: nat)
    requires filter <= 4 && k < |raw| <= |above| && 0 < bpp
    ensures FilterRow(filter, raw, above, bpp)[k] == SubByte(raw[k], Predict(filter, raw, above, k, bpp))
  {
    var i := |raw| - 1;
    if k < i {
      FilterRowAt(filter, raw[..i], above, bpp, k);
    }
  }

  /** Reconstructing a filtered row gives the row back. */
  lemma {:induction false} ReconstructFiltered(filter: byte, raw: bytes, above: bytes, bpp: nat)
    requires filter <= 4 && |raw| <= |above| && 0 < bpp
    ensures Reconstruct(filter, FilterRow(filter, raw, above, bpp), above, bpp) == raw
  {
    if raw != [] {
      var i := |raw| - 1;
      var front, p := FilterRow(filter, raw[..i], above, bpp), Predict(filter, raw[..i], above, i, bpp);
      ReconstructFiltered(filter, raw[..i], above, bpp);
      assert (front + [SubByte(raw[i], p)])[..i] == front;
      assert raw == raw[..i] + [raw[i]];
    }
  }

  /** Filtering a reconstructed row gives the filtered row back. */
  lemma {:induction false} FilterReconstructed(filter: byte, row: bytes, above: bytes, bpp: nat)
    requires filter <= 4 && |row| <= |above| && 0 < bpp
    ensures FilterRow(filter, Reconstruct(filter, row, above, bpp), above, bpp) == row
  {
    if row != [] {
      var i := |row| - 1;
      var front := Reconstruct(filter, row[..i], above, bpp);
      var p := Predict(filter, front, above, i, bpp);
      DropFront(front, [AddByte(row[i], p)]);
      TakeSnoc(row, i);
      FilterReconstructed(filter, row[..i], above, bpp);
      assert row[..i + 1] == row;
    }
  }

  // ---------- whole images ----------

  /** Rows of `stride` filtered bytes, each behind its filter type; None for a type above 4. */
  function UnfilterRows(stream: bytes, above: bytes, stride: nat, height: nat, bpp: nat): (raw: Option<bytes>)
    requires |stream| >= Times(height, stride + 1) && |above| == stride && 0 < bpp
    ensures raw.Some? ==> |raw.value| == Times(height, stride)
    decreases height
  {
    if height == 0 then Some([])
    else if stream[0] > 4 then None
    else
      var recon := Reconstruct(stream[0], stream[1..stride + 1], above, bpp);
      match UnfilterRows(stream[stride + 1..], recon, stride, height - 1, bpp)
      case None => None
      case Some(rest) => Some(recon + rest)
  }

  predicate ValidTypes(types: bytes) {
    forall k :: 0 <= k < |types| ==> types[k] <= 4
  }

  /** The stream an encoder writes for raw rows with the given filter type for each. */
  function FilterRows(types: bytes, raw: bytes, above: bytes, stride: nat, bpp: nat): (stream: bytes)
    requires ValidTypes(types) && |raw| == Times(|types|, stride) && |above| == stride && 0 < bpp
    ensures |stream| == Times(|types|, stride + 1)
  {
    if types == [] then []
    else
      [types[0]] + FilterRow(types[0], raw[..stride], above, bpp)
        + FilterRows(types[1..], raw[stride..], raw[..stride], stride, bpp)
  }

  lemma FilterRowsCons(types: bytes, row: bytes, rest: bytes, above: bytes, stride: nat, bpp: nat)
    requires ValidTypes(types) && types != [] && 0 < bpp
    requires |row| == stride == |above| && |rest| == Times(|types| - 1, stride)
    ensures FilterRows(types, row + rest, above, stride, bpp)
         == [types[0]] + FilterRow(types[0], row, above, bpp) + FilterRows(types[1..], rest, row, stride, bpp)
  {
    assert (row + rest)[..stride] == row && (row + rest)[stride..] == rest;
  }

  lemma UnfilterCons(filter: byte, row: bytes, rest: bytes, above: bytes, stride: nat, height: nat, bpp: nat)
    requires filter <= 4 && |row| == stride == |above| && |rest| >= Times(height, stride + 1) && 0 < bpp
    ensures var recon := Reconstruct(filter, row, above, bpp);
            var tail := UnfilterRows(rest, recon, stride, height, bpp);
            UnfilterRows([filter] + row + rest, above, stride, height + 1, bpp)
              == if tail.Some? then Some(recon + tail.value) else None
  {
    var stream := [filter] + row + rest;
    assert stream[0] == filter && stream[1..stride + 1] == row && stream[stride + 1..] == rest;
  }

  /** Unfiltering what the encoder wrote, with any filter type per row, gives the raw image. */
  lemma {:induction false} UnfilterFiltered(types: bytes, raw: bytes, above: bytes, stride: nat, bpp: nat)
    requires ValidTypes(types) && |raw| == Times(|types|, stride) && |above| == stride && 0 < bpp
    ensures UnfilterRows(FilterRows(types, raw, above, stride, bpp), above, stride, |types|, bpp) == Some(raw)
  {
    if types != [] {
      SplitAt(raw, stride);
      UnfilterFiltered(types[1..], raw[stride..], raw[..stride], stride, bpp);
      UnfilterFirst(types, raw[..stride], raw[stride..], above, stride, bpp);
    }
  }

  /** If the rows behind the first come out, all do. */
  lemma UnfilterFirst(types: bytes, first: bytes, others: bytes, above: bytes, stride: nat, bpp: nat)
    requires ValidTypes(types) && types != [] && 0 < bpp
    requires |first| == stride == |above| && |others| == Times(|types| - 1, stride)
    requires UnfilterRows(FilterRows(types[1..], others, first, stride, bpp), first, stride, |types| - 1, bpp)
      == Some(others)
    ensures UnfilterRows(FilterRows(types, first + others, above, stride, bpp), above, stride, |types|, bpp)
      == Some(first + others)
  {
    FilterRowsCons(types, first, others, above, stride, bpp);
    ReconstructFiltered(types[0], first, above, bpp);
    UnfilterCons(types[0], FilterRow(types[0], first, above, bpp), FilterRows(types[1..], others, first, stride, bpp),
                 above, stride, |types| - 1, bpp);
  }

  /** The filter types a stream carries. */
  function TypesOf(stream: bytes, stride: nat, height: nat): (types: bytes)
    requires |stream| >= Times(height, stride + 1)
    ensures |types| == height
    decreases height
  {
    if height == 0 then [] else [stream[0]] + TypesOf(stream[stride + 1..], stride, height - 1)
  }

  lemma TypesSplit(stream: bytes, stride: nat, height: nat)
    requires height > 0 && |stream| >= Times(height, stride + 1)
    ensures var types, rest := TypesOf(stream, stride, height), TypesOf(stream[stride + 1..], stride, height - 1);
            types[0] == stream[0] && types[1..] == rest && (ValidTypes(types) <==> stream[0] <= 4 && ValidTypes(rest))
  {
    var types, rest := TypesOf(stream, stride, height), TypesOf(stream[stride + 1..], stride, height - 1);
    assert types == [stream[0]] + rest;
    assert types[0] == stream[0] && forall k :: 0 <= k < |rest| ==> rest[k] == types[k + 1];
  }

  /** Unfiltering fails exactly when some row's filter type is above 4. */
  lemma {:induction false} UnfilterFails(stream: bytes, above: bytes, stride: nat, height: nat, bpp: nat)
    requires |stream| >= Times(height, stride + 1) && |above| == stride && 0 < bpp
    ensures UnfilterRows(stream, above, stride, height, bpp).Some? <==> ValidTypes(TypesOf(stream, stride, height))
    decreases height
  {
    if height > 0 {
      TypesSplit(stream, stride, height);
      if stream[0] <= 4 {
        var recon := Reconstruct(stream[0], stream[1..stride + 1], above, bpp);
        UnfilterFails(stream[stride + 1..], recon, stride, height - 1, bpp);
      }
    }
  }

  /** Filtering an unfiltered stream again with the row types it came with gives the stream back. */
  lemma {:induction false} FilterUnfiltered(stream: bytes, raw: bytes, above: bytes, stride: nat, height: nat, bpp: nat)
    requires |stream| == Times(height, stride + 1) && |above| == stride && 0 < bpp
    requires UnfilterRows(stream, above, stride, height, bpp) == Some(raw)
    ensures ValidTypes(TypesOf(stream, stride, height))
    ensures FilterRows(TypesOf(stream, stride, height), raw, above, stride, bpp) == stream
    decreases height
  {
    if height == 0 {
      return;
    }
    UnfilterFails(stream, above, stride, height, bpp);
    TypesSplit(stream, stride, height);
    UnfilterHead(stream, raw, above, stride, height, bpp);
    FilterUnfiltered(stream[stride + 1..], raw[stride..], raw[..stride], stride, height - 1, bpp);
    FilterFirstAgain(stream, TypesOf(stream, stride, height), raw, above, stride, bpp);
  }

  /** If the rows behind the first come out again, and the first was reconstructed, all do. */
  lemma FilterFirstAgain(stream: bytes, types: bytes, raw: bytes, above: bytes, stride: nat, bpp: nat)
    requires |stream| > stride == |above| && 0 < bpp && ValidTypes(types) && types != [] && types[0] == stream[0]
    requires |raw| >= stride && |raw[stride..]| == Times(|types| - 1, stride)
    requires raw[..stride] == Reconstruct(stream[0], stream[1..stride + 1], above, bpp)
    requires FilterRows(types[1..], raw[stride..], raw[..stride], stride, bpp) == stream[stride + 1..]
    ensures FilterRows(types, raw, above, stride, bpp) == stream
  {
    HeadRowTail(stream, stride);
    SplitAt(raw, stride);
    FilterReconstructed(stream[0], stream[1..stride + 1], above, bpp);
    FilterRowsBack(types, stream[1..stride + 1], stream[stride + 1..], raw[..stride], raw[stride..], above, stride,
                   bpp);
  }

  lemma HeadRowTail(stream: bytes, stride: nat)
    requires |stream| > stride
    ensures stream == [stream[0]] + stream[1..stride + 1] + stream[stride + 1..]
  {
  }

  /** The rows of a stream, filtered again one by one. */
  lemma FilterRowsBack(
    types: bytes, row: bytes, tail: bytes, recon: bytes, rest: bytes, above: bytes, stride: nat, bpp: nat)
    requires ValidTypes(types) && types != [] && 0 < bpp && |recon| == stride == |above|
    requires |rest| == Times(|types| - 1, stride)
    requires FilterRow(types[0], recon, above, bpp) == row && FilterRows(types[1..], rest, recon, stride, bpp) == tail
    ensures FilterRows(types, recon + rest, above, stride, bpp) == [types[0]] + row + tail
  {
    FilterRowsCons(types, recon, rest, above, stride, bpp);
  }

  lemma UnfilterHead(stream: bytes, raw: bytes, above: bytes, stride: nat, height: nat, bpp: nat)
    requires height > 0 && |stream| == Times(height, stride + 1) && |above| == stride && 0 < bpp
    requires UnfilterRows(stream, above, stride, height, bpp) == Some(raw)
    ensures stream[0] <= 4 && raw[..stride] == Reconstruct(stream[0], stream[1..stride + 1], above, bpp)
    ensures UnfilterRows(stream[stride + 1..], raw[..stride], stride, height - 1, bpp) == Some(raw[stride..])
  {
    var recon := Reconstruct(stream[0], stream[1..stride + 1], above, bpp);
    var rest := UnfilterRows(stream[stride + 1..], recon, stride, height - 1, bpp).value;
    assert raw == recon + rest;
    assert raw[..stride] == recon && raw[stride..] == rest;
  }
}
