/**
 parse_env_blob of buf.rs: pairs of a key and a value, each followed by a NUL. Strings are kept as the bytes they
 are encoded in, which from_utf8 has to accept.
 */
module EnvBlob {
  import opened Bytes

  datatype EnvError = MissingKeyNul | KeyNotUtf8 | MissingValue | MissingValueNul | ValueNotUtf8

  datatype Pair = Pair(key: bytes, value: bytes)

  datatype Parsed = Ok(pairs: seq<Pair>) | Err(error: EnvError)

  predicate Continues(s: bytes, i: nat) {
    i < |s| && 0x80 <= s[i] < 0xC0
  }

  /** The length of the character at the front, 0 if there is none: section 4 of RFC 3629. */
  function CharLength(s: bytes): (n: nat)
    ensures n <= |s|
  {
    if s == [] then 0
    else if s[0] < 0x80 then 1
    else if 0xC2 <= s[0] <= 0xDF && Continues(s, 1) then 2
    else if Continues(s, 1) && Continues(s, 2) && Second(s[0], s[1], 0xE0, 0xA0, 0xED, 0xA0) && s[0] <= 0xEF then 3
    else if Continues(s, 1) && Continues(s, 2) && Continues(s, 3) && Second(s[0], s[1], 0xF0, 0x90, 0xF4, 0x90)
            && s[0] <= 0xF4 then 4
    else 0
  }

  /** The second byte after a lead from `first` on: at least `least` after `first`, below `bound` after `last`. */
  predicate Second(lead: byte, second: byte, first: byte, least: byte, last: byte, bound: byte) {
    lead >= first && (lead == first ==> second >= least) && (lead == last ==> second < bound)
  }

  predicate IsUtf8(s: bytes) {
    s == [] || (CharLength(s) > 0 && IsUtf8(s[CharLength(s)..]))
  }

  /** One pair from the front, and how many bytes it took. */
  datatype Taken = Took(pair: Pair, size: nat) | Failed(error: EnvError)

  function TakePair(blob: bytes): (taken: Taken)
    ensures taken.Took? ==> 0 < taken.size <= |blob|
  {
    var keyEnd := FindNul(blob);
    if keyEnd == |blob| then Failed(MissingKeyNul)
    else if !IsUtf8(blob[..keyEnd]) then Failed(KeyNotUtf8)
    else TakeValue(blob[..keyEnd], blob[keyEnd + 1..], keyEnd + 1)
  }

  /** The value after a key; `before` bytes were taken for that. */
  function TakeValue(key: bytes, s: bytes, before: nat): (taken: Taken)
    ensures taken.Took? ==> before < taken.size <= before + |s|
  {
    var valueEnd := FindNul(s);
    if s == [] then Failed(MissingValue)
    else if valueEnd == |s| then Failed(MissingValueNul)
    else if !IsUtf8(s[..valueEnd]) then Failed(ValueNotUtf8)
    else Took(Pair(key, s[..valueEnd]), before + valueEnd + 1)
  }

  function Parse(blob: bytes): Parsed {
    if blob == [] then Ok([])
    else
      var taken := TakePair(blob);
      if taken.Failed? then Err(taken.error) else After([taken.pair], Parse(blob[taken.size..]))
  }

  function After(front: seq<Pair>, rest: Parsed): Parsed {
    if rest.Ok? then Ok(front + rest.pairs) else rest
  }

  function PrintPair(pair: Pair): bytes {
    pair.key + [NUL] + (pair.value + [NUL])
  }

  /** The printer: KEY NUL VALUE NUL for each pair. */
  function Print(pairs: seq<Pair>): bytes {
    if pairs == [] then [] else PrintPair(pairs[0]) + Print(pairs[1..])
  }

  predicate Clean(s: bytes) {
    IsUtf8(s) && NulFree(s)
  }

  predicate AllClean(pairs: seq<Pair>) {
    forall k :: 0 <= k < |pairs| ==> Clean(pairs[k].key) && Clean(pairs[k].value)
  }

  /** A clean string up to its NUL is found as it is. */
  lemma FieldIsFound(field: bytes, rest: bytes)
    requires Clean(field)
    ensures var s := field + [NUL] + rest;
      s != [] && FindNul(s) == |field| && |field| < |s| && s[..|field|] == field && s[|field| + 1..] == rest
  {
    FindNulIs(field + [NUL] + rest, |field|);
  }

  lemma PairParts(pair: Pair, rest: bytes)
    ensures PrintPair(pair) + rest == pair.key + [NUL] + (pair.value + [NUL] + rest)
  {
  }

  lemma PairIsTaken(pair: Pair, rest: bytes)
    requires Clean(pair.key) && Clean(pair.value)
    ensures TakePair(PrintPair(pair) + rest) == Took(pair, |PrintPair(pair)|)
  {
    PairParts(pair, rest);
    FieldIsFound(pair.value, rest);
    FieldIsFound(pair.key, pair.value + [NUL] + rest);
  }

  /** Parsing what was printed gives the pairs back. */
  lemma {:induction false} ParsePrinted(pairs: seq<Pair>)
    requires AllClean(pairs)
    ensures Parse(Print(pairs)) == Ok(pairs)
  {
    if pairs != [] {
      assert [pairs[0]] + pairs[1..] == pairs;
      DropFront(PrintPair(pairs[0]), Print(pairs[1..]));
      PairIsTaken(pairs[0], Print(pairs[1..]));
      ParsePrinted(pairs[1..]);
    }
  }

  lemma FieldIsSplit(s: bytes)
    requires FindNul(s) < |s|
    ensures s[..FindNul(s)] + [NUL] == s[..FindNul(s) + 1]
  {
    FindNulIsFirst(s);
    TakeSnoc(s, FindNul(s));
  }

  lemma SliceFrom(s: bytes, n: nat, m: nat)
    requires n <= |s| && m <= |s| - n
    ensures s[..n] + s[n..][..m] == s[..n + m]
  {
  }

  lemma TakenIsPrinted(blob: bytes)
    requires TakePair(blob).Took?
    ensures var taken := TakePair(blob);
      PrintPair(taken.pair) == blob[..taken.size] && Clean(taken.pair.key) && Clean(taken.pair.value)
  {
    var n := FindNul(blob) + 1;
    FindNulIsFirst(blob);
    FindNulIsFirst(blob[n..]);
    FieldIsSplit(blob);
    FieldIsSplit(blob[n..]);
    SliceFrom(blob, n, FindNul(blob[n..]) + 1);
  }

  /** Printing what was parsed gives the blob back; there was no NUL in a string, and each was UTF-8. */
  lemma {:induction false} PrintParsed(blob: bytes)
    requires Parse(blob).Ok?
    ensures Print(Parse(blob).pairs) == blob && AllClean(Parse(blob).pairs)
  {
    if blob != [] {
      var taken := TakePair(blob);
      var rest := Parse(blob[taken.size..]).pairs;
      SplitAt(blob, taken.size);
      assert ([taken.pair] + rest)[1..] == rest;
      TakenIsPrinted(blob);
      PrintParsed(blob[taken.size..]);
    }
  }

  /** Exactly the printed lists of clean pairs are parsed. */
  lemma ParsesIffPrinted(blob: bytes)
    ensures Parse(blob).Ok? <==> exists pairs :: AllClean(pairs) && Print(pairs) == blob
  {
    if Parse(blob).Ok? {
      PrintParsed(blob);
    }
    forall pairs | AllClean(pairs) && Print(pairs) == blob ensures Parse(blob).Ok? {
      ParsePrinted(pairs);
    }
  }

  lemma AfterAfter(front: seq<Pair>, pair: Pair, rest: Parsed)
    ensures After(front, After([pair], rest)) == After(front + [pair], rest)
  {
    if rest.Ok? {
      Assoc(front, [pair], rest.pairs);
    }
  }

  /** The body of the loop: one pair from position `i` on. */
  method ReadPair(blob: bytes, i: nat) returns (taken: Taken)
    requires i < |blob|
    ensures taken == TakePair(blob[i..])
  {
    var keyEnd := Position(blob[i..]);
    if keyEnd == |blob[i..]| {
      return Failed(MissingKeyNul);
    }
    var key := blob[i..i + keyEnd];
    SlicesFrom(blob, i, keyEnd);
    if !IsUtf8(key) {
      return Failed(KeyNotUtf8);
    }
    taken := ReadValue(blob, i + keyEnd + 1, key, keyEnd + 1);
  }

  method ReadValue(blob: bytes, i: nat, key: bytes, before: nat) returns (taken: Taken)
    requires i <= |blob|
    ensures taken == TakeValue(key, blob[i..], before)
  {
    if i >= |blob| {
      return Failed(MissingValue);
    }
    var valueEnd := Position(blob[i..]);
    if valueEnd == |blob[i..]| {
      return Failed(MissingValueNul);
    }
    var value := blob[i..i + valueEnd];
    SlicesFrom(blob, i, valueEnd);
    if !IsUtf8(value) {
      return Failed(ValueNotUtf8);
    }
    return Took(Pair(key, value), before + valueEnd + 1);
  }

  lemma DropDrop(s: bytes, i: nat, n: nat)
    requires i <= |s| && n <= |s| - i
    ensures s[i..][n..] == s[i + n..]
  {
  }

  /** When `out` was read, `rest` is still to be parsed. */
  ghost predicate Remains(whole: Parsed, out: seq<Pair>, rest: bytes) {
    whole == After(out, Parse(rest))
  }

  /** One turn of the loop: a failure is the result, a pair is read. */
  lemma PairRead(whole: Parsed, out: seq<Pair>, rest: bytes, taken: Taken)
    requires rest != [] && Remains(whole, out, rest) && taken == TakePair(rest)
    ensures taken.Failed? ==> whole == Err(taken.error)
    ensures taken.Took? ==> Remains(whole, out + [taken.pair], rest[taken.size..])
  {
    if taken.Took? {
      AfterAfter(out, taken.pair, Parse(rest[taken.size..]));
    }
  }

  /** The loop has come to `i`. */
  ghost predicate CameTo(whole: Parsed, blob: bytes, out: seq<Pair>, i: nat) {
    i <= |blob| && Remains(whole, out, blob[i..])
  }

  lemma PairReadAt(whole: Parsed, out: seq<Pair>, blob: bytes, i: nat, taken: Taken)
    requires i < |blob| && CameTo(whole, blob, out, i) && taken == TakePair(blob[i..])
    ensures taken.Failed? ==> whole == Err(taken.error)
    ensures taken.Took? ==> taken.size > 0 && CameTo(whole, blob, out + [taken.pair], i + taken.size)
  {
    if taken.Took? {
      DropDrop(blob, i, taken.size);
    }
    PairRead(whole, out, blob[i..], taken);
  }

  lemma ParseEnds(whole: Parsed, blob: bytes, out: seq<Pair>, i: nat)
    requires i >= |blob| && CameTo(whole, blob, out, i)
    ensures whole == Ok(out)
  {
    assert blob[i..] == [] && out + [] == out;
  }

  lemma ParseBegins(blob: bytes)
    ensures CameTo(Parse(blob), blob, [], 0)
  {
    assert blob[0..] == blob;
    if Parse(blob).Ok? {
      assert [] + Parse(blob).pairs == Parse(blob).pairs;
    }
  }

  /** One turn of the loop from position `i`: the result if it fails, else the next position. */
  method ReadNext(ghost whole: Parsed, blob: bytes, i: nat, out: seq<Pair>)
    returns (error: Option<EnvError>, next: nat, pairs: seq<Pair>)
    requires i < |blob| && CameTo(whole, blob, out, i)
    ensures error.Some? ==> whole == Err(error.value)
    ensures error.None? ==> i < next && CameTo(whole, blob, pairs, next)
  {
    var taken := ReadPair(blob, i);
    PairReadAt(whole, out, blob, i, taken);
    if taken.Failed? {
      return Some(taken.error), i, out;
    }
    return None, i + taken.size, out + [taken.pair];
  }

  method ParseEnvBlob(blob: bytes) returns (result: Parsed)
    ensures result == Parse(blob)
  {
    var out: seq<Pair>, i: nat := [], 0;
    ghost var whole := Parse(blob);
    ParseBegins(blob);
    while i < |blob|
      invariant CameTo(whole, blob, out, i)
      decreases |blob| - i
    {
      var error, next, pairs := ReadNext(whole, blob, i, out);
      if error.Some? {
        return Err(error.value);
      }
      i, out := next, pairs;
    }
    ParseEnds(whole, blob, out, i);
    return Ok(out);
  }
}
