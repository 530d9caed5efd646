/** Trimming of strings. */
module Texts {

  /** The characters that trim and trimLeft remove: white space and the byte order mark. */
  predicate IsSpace(c: char) {
    var n := c as int;
    9 <= n <= 13 || n == 0x20 || n == 0x85 || n == 0xA0 || n == 0x1680 || 0x2000 <= n <= 0x200A
    || n == 0x2028 || n == 0x2029 || n == 0x202F || n == 0x205F || n == 0x3000 || n == 0xFEFF
  }

  function TrimLeft(s: string): string {
    if s != [] && IsSpace(s[0]) then TrimLeft(s[1..]) else s
  }

  function TrimRight(s: string): string {
    if s != [] && IsSpace(s[|s| - 1]) then TrimRight(s[..|s| - 1]) else s
  }

  function Trim(s: string): string {
    TrimRight(TrimLeft(s))
  }

  /** What `\s` matches in a regular expression; U+0085 is not among it. */
  predicate IsRegExpSpace(c: char) {
    IsSpace(c) && c as int != 0x85
  }

  /** The string without the match of `\s+$`. */
  function DropTrailing(s: string): string {
    if s != [] && IsRegExpSpace(s[|s| - 1]) then DropTrailing(s[..|s| - 1]) else s
  }

  // ---------- what they leave ----------

  predicate AllSpace(s: string) {
    forall k :: 0 <= k < |s| ==> IsSpace(s[k])
  }

  predicate AllRegExpSpace(s: string) {
    forall k :: 0 <= k < |s| ==> IsRegExpSpace(s[k])
  }

  lemma {:induction false} TrimLeftOf(front: string, rest: string)
    requires AllSpace(front) && (rest == "" || !IsSpace(rest[0]))
    ensures TrimLeft(front + rest) == rest
  {
    if front == "" {
      assert front + rest == rest;
    } else {
      assert (front + rest)[1..] == front[1..] + rest;
      TrimLeftOf(front[1..], rest);
    }
  }

  lemma {:induction false} TrimRightOf(rest: string, back: string)
    requires AllSpace(back) && (rest == "" || !IsSpace(rest[|rest| - 1]))
    ensures TrimRight(rest + back) == rest
  {
    if back == "" {
      assert rest + back == rest;
    } else {
      assert (rest + back)[..|rest + back| - 1] == rest + back[..|back| - 1];
      TrimRightOf(rest, back[..|back| - 1]);
    }
  }

  lemma {:induction false} TrimLeftSplits(s: string) returns (front: string)
    ensures AllSpace(front) && s == front + TrimLeft(s) && (TrimLeft(s) == "" || !IsSpace(TrimLeft(s)[0]))
  {
    if s != "" && IsSpace(s[0]) {
      front := TrimLeftSplits(s[1..]);
      front := [s[0]] + front;
      assert s == [s[0]] + s[1..];
    } else {
      front := "";
      assert front + s == s;
    }
  }

  lemma {:induction false} TrimRightSplits(s: string) returns (back: string)
    ensures AllSpace(back) && s == TrimRight(s) + back
    ensures TrimRight(s) == "" || !IsSpace(TrimRight(s)[|TrimRight(s)| - 1])
  {
    if s != "" && IsSpace(s[|s| - 1]) {
      back := TrimRightSplits(s[..|s| - 1]);
      back := back + [s[|s| - 1]];
      assert s == s[..|s| - 1] + [s[|s| - 1]];
    } else {
      back := "";
      assert s + back == s;
    }
  }

  lemma {:induction false} DropTrailingSplits(s: string) returns (back: string)
    ensures AllRegExpSpace(back) && s == DropTrailing(s) + back
    ensures DropTrailing(s) == "" || !IsRegExpSpace(DropTrailing(s)[|DropTrailing(s)| - 1])
  {
    if s != "" && IsRegExpSpace(s[|s| - 1]) {
      back := DropTrailingSplits(s[..|s| - 1]);
      back := back + [s[|s| - 1]];
      assert s == s[..|s| - 1] + [s[|s| - 1]];
    } else {
      back := "";
      assert s + back == s;
    }
  }

  /** `t` is `s` but for the white space around it. */
  predicate IsTrimmed(front: string, t: string, back: string) {
    && AllSpace(front) && AllSpace(back)
    && (t == "" || (!IsSpace(t[0]) && !IsSpace(t[|t| - 1])))
  }

  lemma TrimOf(front: string, t: string, back: string)
    requires IsTrimmed(front, t, back)
    ensures Trim(front + t + back) == t
  {
    if t == "" {
      assert front + t + back == (front + back) + "";
      TrimLeftOf(front + back, "");
    } else {
      assert front + t + back == front + (t + back);
      TrimLeftOf(front, t + back);
      TrimRightOf(t, back);
    }
  }

  lemma TrimSplits(s: string) returns (front: string, back: string)
    ensures IsTrimmed(front, Trim(s), back) && s == front + Trim(s) + back
  {
    front := TrimLeftSplits(s);
    back := TrimRightSplits(TrimLeft(s));
    var t := Trim(s);
    assert t != "" ==> t[0] == TrimLeft(s)[0];
    assert s == front + t + back;
  }

  /** Trimming leaves exactly what stands between white space, and neither begins nor ends with any. */
  lemma TrimIff(s: string, t: string)
    ensures t == Trim(s) <==> exists front, back :: IsTrimmed(front, t, back) && s == front + t + back
  {
    if t == Trim(s) {
      var front, back := TrimSplits(s);
    }
    if front, back :| IsTrimmed(front, t, back) && s == front + t + back {
      TrimOf(front, t, back);
    }
  }
}
