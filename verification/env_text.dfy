/**
 What the environment parser accepts and refuses, exactly: its strings are the UTF-8 encodings of section 3 of
 RFC 3629, and each of its errors says what is wrong with the first pair that is not one.
 */
module EnvText {
  import opened Bytes
  import opened EnvBlob

  // ---------- UTF-8 ----------

  /** A Unicode scalar value: not a surrogate. */
  predicate IsScalar(c: int) {
    0 <= c <= 0x10FFFF && !(0xD800 <= c <= 0xDFFF)
  }

  /** Six bits, in a continuation byte. */
  function Six(x: int): byte {
    0x80 + x % 0x40
  }

  function EncodeChar(c: int): (s: bytes)
    requires IsScalar(c)
    ensures 1 <= |s| <= 4
  {
    if c < 0x80 then [c]
    else if c < 0x800 then [0xC0 + c / 0x40, Six(c)]
    else if c < 0x1_0000 then [0xE0 + c / 0x1000, Six(c / 0x40), Six(c)]
    else [0xF0 + c / 0x4_0000, Six(c / 0x1000), Six(c / 0x40), Six(c)]
  }

  predicate AllScalar(cs: seq<int>) {
    forall k :: 0 <= k < |cs| ==> IsScalar(cs[k])
  }

  function Encode(cs: seq<int>): bytes
    requires AllScalar(cs)
  {
    if cs == [] then [] else EncodeChar(cs[0]) + Encode(cs[1..])
  }

  lemma EncodedLength(c: int, rest: bytes)
    requires IsScalar(c)
    ensures CharLength(EncodeChar(c) + rest) == |EncodeChar(c)|
  {
    var s := EncodeChar(c) + rest;
    assert forall k :: 0 <= k < |EncodeChar(c)| ==> s[k] == EncodeChar(c)[k];
  }

  lemma {:induction false} EncodedIsUtf8(cs: seq<int>)
    requires AllScalar(cs)
    ensures IsUtf8(Encode(cs))
  {
    if cs != [] {
      EncodedLength(cs[0], Encode(cs[1..]));
      DropFront(EncodeChar(cs[0]), Encode(cs[1..]));
      EncodedIsUtf8(cs[1..]);
    }
  }

  lemma SixOf(high: int, low: byte)
    requires 0 <= high && 0x80 <= low < 0xC0
    ensures Six(high * 0x40 + (low as int - 0x80)) == low && (high * 0x40 + (low as int - 0x80)) / 0x40 == high
  {
  }

  /** The character that the first bytes encode. */
  lemma DecodeTwo(s: bytes) returns (c: int)
    requires CharLength(s) == 2
    ensures IsScalar(c) && EncodeChar(c) == s[..2]
  {
    var a := s[0] as int - 0xC0;
    SixOf(a, s[1]);
    c := a * 0x40 + (s[1] as int - 0x80);
    assert s[..2] == [s[0], s[1]];
  }

  lemma DecodeThree(s: bytes) returns (c: int)
    requires CharLength(s) == 3
    ensures IsScalar(c) && EncodeChar(c) == s[..3]
  {
    var a := s[0] as int - 0xE0;
    SixOf(a, s[1]);
    var b := a * 0x40 + (s[1] as int - 0x80);
    SixOf(b, s[2]);
    c := b * 0x40 + (s[2] as int - 0x80);
    assert c / 0x1000 == c / 0x40 / 0x40;
    assert s[..3] == [s[0], s[1], s[2]];
  }

  lemma DecodeFour(s: bytes) returns (c: int)
    requires CharLength(s) == 4
    ensures IsScalar(c) && EncodeChar(c) == s[..4]
  {
    var a := s[0] as int - 0xF0;
    SixOf(a, s[1]);
    var b := a * 0x40 + (s[1] as int - 0x80);
    SixOf(b, s[2]);
    var d := b * 0x40 + (s[2] as int - 0x80);
    SixOf(d, s[3]);
    c := d * 0x40 + (s[3] as int - 0x80);
    assert c / 0x1000 == c / 0x40 / 0x40 && c / 0x4_0000 == c / 0x40 / 0x40 / 0x40;
    assert s[..4] == [s[0], s[1], s[2], s[3]];
  }

  lemma DecodeChar(s: bytes) returns (c: int)
    requires CharLength(s) > 0
    ensures IsScalar(c) && EncodeChar(c) == s[..CharLength(s)]
  {
    if CharLength(s) == 1 {
      c := s[0];
    } else if CharLength(s) == 2 {
      c := DecodeTwo(s);
    } else if CharLength(s) == 3 {
      c := DecodeThree(s);
    } else {
      c := DecodeFour(s);
    }
  }

  lemma {:induction false} Decode(s: bytes) returns (cs: seq<int>)
    requires IsUtf8(s)
    ensures AllScalar(cs) && Encode(cs) == s
  {
    if s == [] {
      cs := [];
    } else {
      var c := DecodeChar(s);
      var rest := Decode(s[CharLength(s)..]);
      cs := [c] + rest;
      assert cs[1..] == rest;
      SplitAt(s, CharLength(s));
    }
  }

  /** Exactly the encodings of scalar values are accepted. */
  lemma Utf8Iff(s: bytes)
    ensures IsUtf8(s) <==> exists cs :: AllScalar(cs) && Encode(cs) == s
  {
    if IsUtf8(s) {
      var cs := Decode(s);
    }
    if cs :| AllScalar(cs) && Encode(cs) == s {
      EncodedIsUtf8(cs);
    }
  }

  // ---------- errors ----------

  /** What is wrong at the front of the bytes: `key` is all or the first string of them, `value` what follows it. */
  predicate IsWrong(s: bytes, error: EnvError, key: bytes, value: bytes, rest: bytes) {
    && NulFree(key) && NulFree(value)
    && match error
       case MissingKeyNul => s == key != []
       case KeyNotUtf8 => s == key + [NUL] + rest && !IsUtf8(key)
       case MissingValue => s == key + [NUL] && IsUtf8(key)
       case MissingValueNul => s == key + [NUL] + value && value != [] && IsUtf8(key)
       case ValueNotUtf8 => s == key + [NUL] + (value + [NUL] + rest) && IsUtf8(key) && !IsUtf8(value)
  }

  lemma FieldFound(field: bytes, rest: bytes)
    requires NulFree(field)
    ensures var s := field + [NUL] + rest;
      FindNul(s) == |field| && |field| < |s| && s[..|field|] == field && s[|field| + 1..] == rest
    ensures FindNul(field) == |field|
  {
    FindNulIs(field + [NUL] + rest, |field|);
    FindNulIs(field, |field|);
  }

  lemma FieldSplits(s: bytes) returns (field: bytes, rest: bytes)
    ensures NulFree(field) && field == s[..FindNul(s)]
    ensures if FindNul(s) < |s| then s == field + [NUL] + rest && rest == s[FindNul(s) + 1..] else s == field
  {
    FindNulIsFirst(s);
    field := s[..FindNul(s)];
    rest := if FindNul(s) < |s| then s[FindNul(s) + 1..] else [];
  }

  lemma WrongIsFound(s: bytes, error: EnvError, key: bytes, value: bytes, rest: bytes)
    requires IsWrong(s, error, key, value, rest)
    ensures s != [] && TakePair(s) == Failed(error)
  {
    match error
    case MissingKeyNul => FieldFound(key, []);
    case KeyNotUtf8 => FieldFound(key, rest);
    case MissingValue =>
      assert key + [NUL] + [] == s;
      FieldFound(key, []);
    case MissingValueNul =>
      FieldFound(key, value);
      FieldFound(value, []);
    case ValueNotUtf8 =>
      FieldFound(key, value + [NUL] + rest);
      FieldFound(value, rest);
  }

  lemma FoundIsWrong(s: bytes) returns (key: bytes, value: bytes, rest: bytes)
    requires s != [] && TakePair(s).Failed?
    ensures IsWrong(s, TakePair(s).error, key, value, rest)
  {
    key, rest := FieldSplits(s);
    value := [];
    if FindNul(s) < |s| && IsUtf8(key) {
      value, rest := FieldSplits(rest);
    }
  }

  ghost predicate FailsWith(s: bytes, error: EnvError) {
    exists key, value, rest :: IsWrong(s, error, key, value, rest)
  }

  lemma FailsIff(s: bytes, error: EnvError)
    requires s != []
    ensures TakePair(s) == Failed(error) <==> FailsWith(s, error)
  {
    if TakePair(s) == Failed(error) {
      var key, value, rest := FoundIsWrong(s);
    }
    if key, value, rest :| IsWrong(s, error, key, value, rest) {
      WrongIsFound(s, error, key, value, rest);
    }
  }

  /** The bytes are these pairs, and then something that is wrong so. */
  ghost predicate BreaksOff(blob: bytes, error: EnvError, pairs: seq<Pair>, tail: bytes) {
    AllClean(pairs) && blob == Print(pairs) + tail && tail != [] && FailsWith(tail, error)
  }

  lemma {:induction false} ErrorFound(blob: bytes, error: EnvError, pairs: seq<Pair>, tail: bytes)
    requires BreaksOff(blob, error, pairs, tail)
    ensures Parse(blob) == Err(error)
    decreases pairs
  {
    if pairs == [] {
      assert blob == tail;
      FailsIff(tail, error);
    } else {
      ErrorFound(Print(pairs[1..]) + tail, error, pairs[1..], tail);
      Assoc(PrintPair(pairs[0]), Print(pairs[1..]), tail);
      ErrorBehind(pairs[0], Print(pairs[1..]) + tail, error);
    }
  }

  lemma ErrorBehind(pair: Pair, behind: bytes, error: EnvError)
    requires Clean(pair.key) && Clean(pair.value) && Parse(behind) == Err(error)
    ensures Parse(PrintPair(pair) + behind) == Err(error)
  {
    PairIsTaken(pair, behind);
    DropFront(PrintPair(pair), behind);
  }

  lemma {:induction false} ErrorPlace(blob: bytes) returns (pairs: seq<Pair>, tail: bytes)
    requires Parse(blob).Err?
    ensures BreaksOff(blob, Parse(blob).error, pairs, tail)
  {
    var taken := TakePair(blob);
    if taken.Failed? {
      FailsIff(blob, taken.error);
      BreaksAtOnce(blob, taken.error);
      pairs, tail := [], blob;
    } else {
      pairs, tail := ErrorPlace(blob[taken.size..]);
      TakenIsPrinted(blob);
      SplitAt(blob, taken.size);
      BreaksBehind(taken.pair, blob[taken.size..], Parse(blob).error, pairs, tail);
      pairs := [taken.pair] + pairs;
    }
  }

  lemma BreaksAtOnce(blob: bytes, error: EnvError)
    requires blob != [] && FailsWith(blob, error)
    ensures BreaksOff(blob, error, [], blob)
  {
    assert [] + blob == blob;
  }

  lemma BreaksBehind(pair: Pair, behind: bytes, error: EnvError, pairs: seq<Pair>, tail: bytes)
    requires Clean(pair.key) && Clean(pair.value) && BreaksOff(behind, error, pairs, tail)
    ensures BreaksOff(PrintPair(pair) + behind, error, [pair] + pairs, tail)
  {
    assert ([pair] + pairs)[1..] == pairs;
    Assoc(PrintPair(pair), Print(pairs), tail);
  }

  /** Exactly then the parser fails, and with that error: after some good pairs comes one that is wrong so. */
  lemma ParseFailsIff(blob: bytes, error: EnvError)
    ensures Parse(blob) == Err(error) <==> exists pairs, tail :: BreaksOff(blob, error, pairs, tail)
  {
    if Parse(blob) == Err(error) {
      var pairs, tail := ErrorPlace(blob);
    }
    if pairs, tail :| BreaksOff(blob, error, pairs, tail) {
      ErrorFound(blob, error, pairs, tail);
    }
  }
}
