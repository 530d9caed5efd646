/**
 The boot-noise filter of product_session.dart: complete banner lines are dropped from the guest's output, and a
 partial line is held back while it looks like the beginning of one. Text is a sequence of characters; all
 characters of a banner are one code unit long, so the lengths compared are those of the source.
 */
module BootNoise {
  import opened Bytes
  import opened Texts

  const HEADS: seq<string> := ["memcontainers", "Booting", "Loading image", "Mounting "]

  /** _isBootNoiseLine */
  predicate IsNoise(line: string) {
    exists h :: 0 <= h < |HEADS| && HEADS[h] <= TrimLeft(line)
  }

  /** _isIncompleteBootPrefix */
  predicate IsHeld(partial: string) {
    |TrimLeft(partial)| >= 6 && exists h :: 0 <= h < |HEADS| && TrimLeft(partial) <= HEADS[h]
  }

  /** Exactly the lines are noise that begin with one of the heads, but for white space before it. */
  lemma NoiseIff(line: string)
    ensures IsNoise(line) <==>
      exists h: nat, front, rest :: h < |HEADS| && AllSpace(front) && line == front + (HEADS[h] + rest)
  {
    if IsNoise(line) {
      var h :| 0 <= h < |HEADS| && HEADS[h] <= TrimLeft(line);
      var front := TrimLeftSplits(line);
      assert TrimLeft(line) == HEADS[h] + TrimLeft(line)[|HEADS[h]|..];
    }
    if h: nat, front, rest :| h < |HEADS| && AllSpace(front) && line == front + (HEADS[h] + rest) {
      TrimLeftOf(front, HEADS[h] + rest);
    }
  }

  /** Exactly the partial lines are held that are six characters or more of a head, but for white space before them. */
  lemma HeldIff(partial: string)
    ensures IsHeld(partial) <==>
      exists h: nat, front, n: nat ::
        h < |HEADS| && AllSpace(front) && 6 <= n <= |HEADS[h]| && partial == front + HEADS[h][..n]
  {
    if IsHeld(partial) {
      var h :| 0 <= h < |HEADS| && TrimLeft(partial) <= HEADS[h];
      var front := TrimLeftSplits(partial);
      assert TrimLeft(partial) == HEADS[h][..|TrimLeft(partial)|];
    }
    if h: nat, front, n: nat :|
      h < |HEADS| && AllSpace(front) && 6 <= n <= |HEADS[h]| && partial == front + HEADS[h][..n] {
      TrimLeftOf(front, HEADS[h][..n]);
    }
  }

  /** What the filter gives out, and what it keeps for the next chunk. */
  datatype Filtered = Filtered(out: string, carry: string)

  predicate NoNewline(s: string) {
    forall k :: 0 <= k < |s| ==> s[k] != '\n'
  }

  /** The length of the first line, its newline included; 0 if no line is complete. */
  function FirstLine(text: string): (n: nat)
    ensures n <= |text|
    ensures n == 0 <==> NoNewline(text)
    ensures n > 0 ==> IsLine(text[..n])
  {
    if text == [] then 0
    else if text[0] == '\n' then 1
    else
      var n := FirstLine(text[1..]);
      assert n > 0 ==> text[n] == text[1..][n - 1];
      assert n == 0 ==> forall k :: 1 <= k < |text| ==> text[k] == text[1..][k - 1];
      if n == 0 then 0 else n + 1
  }

  predicate IsLine(line: string) {
    line != [] && line[|line| - 1] == '\n' && forall k :: 0 <= k < |line| - 1 ==> line[k] != '\n'
  }

  function Strip(text: string): Filtered {
    var n := FirstLine(text);
    if n == 0 then if IsHeld(text) then Filtered("", text) else Filtered(text, "")
    else
      var rest := Strip(text[n..]);
      Filtered((if IsNoise(text[..n]) then "" else text[..n]) + rest.out, rest.carry)
  }

  /** What stands after the last newline. */
  function Tail(text: string): string {
    var n := FirstLine(text);
    if n == 0 then text else Tail(text[n..])
  }

  // ---------- lines ----------

  function Kept(lines: seq<string>): seq<string> {
    if lines == [] then []
    else if IsNoise(lines[0]) then Kept(lines[1..])
    else [lines[0]] + Kept(lines[1..])
  }

  lemma {:induction false} FirstLineIs(line: string, rest: string)
    requires IsLine(line)
    ensures FirstLine(line + rest) == |line|
  {
    if |line| > 1 {
      assert (line + rest)[1..] == line[1..] + rest;
      FirstLineIs(line[1..], rest);
    }
  }

  /** A line in front is dropped or kept, and changes nothing else. */
  lemma StripCons(line: string, rest: string)
    requires IsLine(line)
    ensures Strip(line + rest)
      == Filtered((if IsNoise(line) then "" else line) + Strip(rest).out, Strip(rest).carry)
  {
    assert (line + rest)[..|line|] == line && (line + rest)[|line|..] == rest;
    FirstLineIs(line, rest);
  }

  /** However a text is made of lines and a last part: the banner lines are dropped, all else is kept, in order. */
  lemma {:induction false} StripLines(lines: seq<string>, last: string)
    requires AreLines(lines) && NoNewline(last)
    ensures Strip(Flatten(lines) + last)
      == if IsHeld(last) then Filtered(Flatten(Kept(lines)), last) else Filtered(Flatten(Kept(lines)) + last, "")
  {
    if lines == [] {
      assert Flatten(lines) + last == last;
    } else {
      var kept := Flatten(Kept(lines[1..]));
      Assoc(lines[0], Flatten(lines[1..]), last);
      Assoc(lines[0], kept, last);
      EmptyFront(kept);
      EmptyFront(kept + last);
      StripLines(lines[1..], last);
      StripCons(lines[0], Flatten(lines[1..]) + last);
      FlattenCons(lines[0], Kept(lines[1..]));
    }
  }

  lemma EmptyFront(s: string)
    ensures "" + s == s
  {
  }

  lemma FlattenCons(line: string, lines: seq<string>)
    ensures Flatten([line] + lines) == line + Flatten(lines)
  {
    assert ([line] + lines)[1..] == lines;
  }

  predicate AreLines(lines: seq<string>) {
    forall k :: 0 <= k < |lines| ==> IsLine(lines[k])
  }

  /** Every text is made of lines and a last part. */
  lemma {:induction false} TextIsLines(text: string) returns (lines: seq<string>)
    ensures AreLines(lines) && NoNewline(Tail(text))
    ensures text == Flatten(lines) + Tail(text)
  {
    var n := FirstLine(text);
    if n == 0 {
      lines := [];
    } else {
      SplitAt(text, n);
      var others := TextIsLines(text[n..]);
      Assoc(text[..n], Flatten(others), Tail(text));
      FlattenCons(text[..n], others);
      lines := [text[..n]] + others;
    }
  }

  /** The carry is empty, or a beginning of a banner, six characters or more once trimmed, without a newline. */
  lemma {:induction false} CarryIsHeld(text: string)
    ensures var carry := Strip(text).carry; carry == "" || (IsHeld(carry) && NoNewline(carry) && carry == Tail(text))
  {
    var n := FirstLine(text);
    if n > 0 {
      CarryIsHeld(text[n..]);
    }
  }

  // ---------- chunks ----------

  /** The output comes in chunks; the carry goes in front of the next one. */
  function Feed(carry: string, chunks: seq<string>): Filtered
    decreases chunks
  {
    if chunks == [] then Filtered("", carry)
    else
      var first := Strip(carry + chunks[0]);
      var rest := Feed(first.carry, chunks[1..]);
      Filtered(first.out + rest.out, rest.carry)
  }

  /** Nothing was given out before its line was complete. */
  predicate Settled(text: string) {
    Tail(text) == "" || IsHeld(Tail(text))
  }

  /** Filtering `a`, then `b` with the carry, is the same as filtering both at once. */
  predicate Seamless(a: string, b: string) {
    var first := Strip(a);
    var second := Strip(first.carry + b);
    Strip(a + b) == Filtered(first.out + second.out, second.carry)
  }

  /** A seam is where it is whatever lines stand before. */
  lemma SeamCons(line: string, rest: string, b: string)
    requires IsLine(line)
    ensures Seamless(line + rest, b) <==> Seamless(rest, b)
  {
    Assoc(line, rest, b);
    StripCons(line, rest);
    StripCons(line, rest + b);
    var first := Strip(rest);
    Cancel(if IsNoise(line) then "" else line, Strip(rest + b).out, first.out, Strip(first.carry + b).out);
  }

  lemma Cancel(front: string, whole: string, a: string, b: string)
    ensures front + whole == (front + a) + b <==> whole == a + b
  {
    assert (front + whole)[|front|..] == whole;
    assert ((front + a) + b)[|front|..] == a + b;
    assert (front + a) + b == front + (a + b);
  }

  lemma HeldIsSeamless(a: string, b: string)
    requires FirstLine(a) == 0 && (a == "" || IsHeld(a))
    ensures Seamless(a, b)
  {
    assert "" + b == b && (a == "" ==> a + b == b) && !IsHeld("");
    assert "" + Strip(a + b).out == Strip(a + b).out;
  }

  lemma {:induction false} SettledIsSeamless(a: string, b: string)
    requires Settled(a)
    ensures Seamless(a, b)
  {
    var n := FirstLine(a);
    if n == 0 {
      HeldIsSeamless(a, b);
    } else {
      SettledIsSeamless(a[n..], b);
      SplitAt(a, n);
      SeamCons(a[..n], a[n..], b);
    }
  }

  const BANNER := "Booting\n"

  lemma BannerIsNoise()
    ensures IsLine(BANNER) && IsNoise(BANNER)
  {
    assert TrimLeft(BANNER) == BANNER && HEADS[1] <= BANNER;
  }

  lemma BannerEndsLine(t: string)
    requires NoNewline(t)
    ensures IsLine(t + BANNER)
  {
  }

  lemma Alone(line: string)
    requires IsLine(line)
    ensures Strip(line) == Filtered(if IsNoise(line) then "" else line, "")
  {
    assert line + "" == line && !IsHeld("");
    StripCons(line, "");
  }

  lemma JoinedBanner(a: string)
    requires NoNewline(a) && a != ""
    ensures |Strip(a + BANNER).out| != |a|
  {
    BannerEndsLine(a);
    Alone(a + BANNER);
  }

  /** A part given out early, then a banner: at once this is one line, dropped or kept; in chunks, only the part. */
  lemma UnsettledPartHasSeam(a: string)
    requires NoNewline(a) && a != "" && !IsHeld(a)
    ensures !Seamless(a, BANNER)
  {
    JoinedBanner(a);
    BannerIsNoise();
    Alone(BANNER);
    assert Strip(a).carry + BANNER == BANNER;
    assert |Strip(a).out + Strip(BANNER).out| == |a|;
  }

  lemma {:induction false} UnsettledHasSeam(a: string)
    requires !Settled(a)
    ensures !Seamless(a, BANNER)
  {
    var n := FirstLine(a);
    if n == 0 {
      UnsettledPartHasSeam(a);
    } else {
      UnsettledHasSeam(a[n..]);
      SplitAt(a, n);
      SeamCons(a[..n], a[n..], BANNER);
    }
  }

  /** Exactly the chunk ends at which filtering does not depend on what comes next. */
  lemma SeamlessIff(a: string)
    ensures Settled(a) <==> forall b: string :: Seamless(a, b)
  {
    if Settled(a) {
      forall b: string ensures Seamless(a, b) {
        SettledIsSeamless(a, b);
      }
    } else {
      UnsettledHasSeam(a);
    }
  }

  /** Every chunk but the last ends at the end of a line, or within a beginning of a banner. */
  predicate AllSettled(carry: string, chunks: seq<string>)
    decreases chunks
  {
    |chunks| <= 1
    || (Settled(carry + chunks[0]) && AllSettled(Strip(carry + chunks[0]).carry, chunks[1..]))
  }

  /** Then the chunks give what the joined text gives. */
  lemma {:induction false} ChunkIndependence(carry: string, chunks: seq<string>)
    requires chunks != [] && AllSettled(carry, chunks)
    ensures Feed(carry, chunks) == Strip(carry + Flatten(chunks))
    decreases chunks
  {
    var text := carry + chunks[0];
    var first := Strip(text);
    Assoc(carry, chunks[0], Flatten(chunks[1..]));
    if |chunks| == 1 {
      assert chunks[1..] == [] && first.out + "" == first.out && text + "" == text;
    } else {
      ChunkIndependence(first.carry, chunks[1..]);
      SettledIsSeamless(text, Flatten(chunks[1..]));
    }
  }

  // ---------- nothing is made up ----------

  /** The characters of `s` stand in `t`, in this order. */
  predicate Subsequence(s: string, t: string) {
    s == "" || (t != "" && ((s[0] == t[0] && Subsequence(s[1..], t[1..])) || Subsequence(s, t[1..])))
  }

  lemma {:induction false} SubsequenceOfSelf(s: string)
    ensures Subsequence(s, s)
  {
    if s != "" {
      SubsequenceOfSelf(s[1..]);
    }
  }

  lemma {:induction false} SubsequenceBehind(s: string, t: string, front: string)
    requires Subsequence(s, t)
    ensures Subsequence(s, front + t)
  {
    if front == "" {
      assert front + t == t;
    } else {
      SubsequenceBehind(s, t, front[1..]);
      assert (front + t)[1..] == front[1..] + t;
    }
  }

  /** Behind something that stays, or that is dropped. */
  lemma {:induction false} SubsequenceJoin(s: string, t: string, s': string, t': string)
    requires Subsequence(s, t) && Subsequence(s', t')
    ensures Subsequence(s + s', t + t')
  {
    if s == "" {
      assert s + s' == s';
      SubsequenceBehind(s', t', t);
    } else {
      assert (s + s')[1..] == s[1..] + s' && (t + t')[1..] == t[1..] + t';
      if s[0] == t[0] && Subsequence(s[1..], t[1..]) {
        SubsequenceJoin(s[1..], t[1..], s', t');
      } else {
        SubsequenceJoin(s, t[1..], s', t');
      }
    }
  }

  lemma {:induction false} SubsequenceTrans(s: string, t: string, u: string)
    requires Subsequence(s, t) && Subsequence(t, u)
    ensures Subsequence(s, u)
  {
    if s != "" {
      if t[0] == u[0] && Subsequence(t[1..], u[1..]) {
        if s[0] == t[0] && Subsequence(s[1..], t[1..]) {
          SubsequenceTrans(s[1..], t[1..], u[1..]);
        } else {
          SubsequenceTrans(s, t[1..], u[1..]);
        }
      } else {
        SubsequenceTrans(s, t, u[1..]);
      }
    }
  }

  /** What the filter gives out and keeps is the text with some of it left out. */
  lemma {:induction false} StripMakesNothingUp(text: string)
    ensures Subsequence(Strip(text).out + Strip(text).carry, text)
  {
    var n := FirstLine(text);
    if n == 0 {
      assert "" + text == text && text + "" == text;
      SubsequenceOfSelf(text);
    } else {
      var kept, rest := if IsNoise(text[..n]) then "" else text[..n], Strip(text[n..]);
      StripMakesNothingUp(text[n..]);
      SubsequenceOfSelf(text[..n]);
      SubsequenceJoin(kept, text[..n], rest.out + rest.carry, text[n..]);
      SplitAt(text, n);
      Assoc(kept, rest.out, rest.carry);
    }
  }

  /** Wherever the chunks end: what is given out, and the carry after it, is the joined text with some left out. */
  lemma {:induction false} FeedMakesNothingUp(carry: string, chunks: seq<string>)
    ensures Subsequence(Feed(carry, chunks).out + Feed(carry, chunks).carry, carry + Flatten(chunks))
    decreases chunks
  {
    if chunks == [] {
      assert "" + carry == carry && carry + "" == carry;
      SubsequenceOfSelf(carry);
    } else {
      var text := carry + chunks[0];
      var first, more := Strip(text), Flatten(chunks[1..]);
      var rest := Feed(first.carry, chunks[1..]);
      FeedMakesNothingUp(first.carry, chunks[1..]);
      FirstThenRest(text, first, more, rest);
      Assoc(carry, chunks[0], more);
    }
  }

  lemma FirstThenRest(text: string, first: Filtered, more: string, rest: Filtered)
    requires first == Strip(text) && Subsequence(rest.out + rest.carry, first.carry + more)
    ensures Subsequence(first.out + rest.out + rest.carry, text + more)
  {
    SubsequenceOfSelf(first.out);
    SubsequenceJoin(first.out, first.out, rest.out + rest.carry, first.carry + more);
    StripMakesNothingUp(text);
    SubsequenceOfSelf(more);
    SubsequenceJoin(first.out + first.carry, text, more, more);
    Assoc(first.out, rest.out, rest.carry);
    Assoc(first.out, first.carry, more);
    SubsequenceTrans(first.out + (rest.out + rest.carry), first.out + (first.carry + more), text + more);
  }

  // ---------- the flush ----------

  /** _flushBootCarry: what it writes to the terminal. */
  function Flushed(carry: string): string {
    if IsNoise(carry) || IsHeld(carry) then "" else carry
  }

  /** No carry the filter leaves is ever written: the flush only throws away. */
  lemma {:induction false} FlushNeverWrites(text: string)
    ensures Flushed(Strip(text).carry) == ""
  {
    CarryIsHeld(text);
  }

  // ---------- the methods ----------

  method IsBootNoiseLine(line: string) returns (noise: bool)
    ensures noise <==> IsNoise(line)
  {
    var t := TrimLeft(line);
    if t == [] {
      assert forall h :: 0 <= h < |HEADS| ==> HEADS[h] != [];
      return false;
    }
    for h := 0 to |HEADS|
      invariant forall k :: 0 <= k < h ==> !(HEADS[k] <= t)
    {
      if HEADS[h] <= t {
        return true;
      }
    }
    return false;
  }

  method IsIncompleteBootPrefix(partial: string) returns (held: bool)
    ensures held <==> IsHeld(partial)
  {
    var t := TrimLeft(partial);
    if |t| < 6 {
      return false;
    }
    for h := 0 to |HEADS|
      invariant forall k :: 0 <= k < h ==> !(t <= HEADS[k])
    {
      if t <= HEADS[h] {
        return true;
      }
    }
    return false;
  }

  /** What is left to do from `start` on, when `out` was given out before. */
  ghost predicate Remaining(whole: Filtered, text: string, out: string, start: nat)
    requires start <= |text|
  {
    whole == Filtered(out + Strip(text[start..]).out, Strip(text[start..]).carry)
  }

  lemma RemainingAtFirst(text: string)
    ensures Remaining(Strip(text), text, "", 0)
  {
    assert text[0..] == text && "" + Strip(text).out == Strip(text).out;
  }

  lemma LineSplits(text: string, start: nat, i: nat)
    requires start <= i < |text| && text[i] == '\n' && forall k :: start <= k < i ==> text[k] != '\n'
    ensures IsLine(text[start..i + 1]) && text[start..] == text[start..i + 1] + text[i + 1..]
  {
  }

  lemma LineAt(whole: Filtered, out: string, text: string, start: nat, i: nat)
    requires start <= i < |text| && text[i] == '\n' && forall k :: start <= k < i ==> text[k] != '\n'
    requires Remaining(whole, text, out, start)
    ensures var line := text[start..i + 1];
      Remaining(whole, text, if IsNoise(line) then out else out + line, i + 1)
  {
    LineSplits(text, start, i);
    GivenOut(out, text[start..i + 1], text[i + 1..]);
  }

  /** What is given out stays in front when the next line is dropped or kept. */
  lemma GivenOut(out: string, line: string, rest: string)
    requires IsLine(line)
    ensures out + Strip(line + rest).out == (if IsNoise(line) then out else out + line) + Strip(rest).out
    ensures Strip(line + rest).carry == Strip(rest).carry
  {
    Assoc(out, line, Strip(rest).out);
    assert "" + Strip(rest).out == Strip(rest).out;
    StripCons(line, rest);
  }

  /** One complete line, from `start` to the newline at `i`. */
  method TakeLine(ghost whole: Filtered, text: string, out: string, start: nat, i: nat) returns (kept: string)
    requires start <= i < |text| && text[i] == '\n' && forall k :: start <= k < i ==> text[k] != '\n'
    requires Remaining(whole, text, out, start)
    ensures Remaining(whole, text, kept, i + 1)
  {
    var line := text[start..i + 1];
    LineAt(whole, out, text, start, i);
    var noise := IsBootNoiseLine(line);
    kept := if noise then out else out + line;
  }

  /** The loop has come to `i`, and no line is complete between `start` and there. */
  ghost predicate CameTo(whole: Filtered, text: string, out: string, start: nat, i: nat) {
    && start <= i <= |text| && (forall k :: start <= k < i ==> text[k] != '\n')
    && Remaining(whole, text, out, start)
  }

  /** The body of the loop. */
  method TakeChar(ghost whole: Filtered, text: string, out: string, start: nat, i: nat)
    returns (kept: string, next: nat)
    requires i < |text| && CameTo(whole, text, out, start, i)
    ensures CameTo(whole, text, kept, next, i + 1)
  {
    if text[i] != '\n' {
      return out, start;
    }
    kept := TakeLine(whole, text, out, start, i);
    next := i + 1;
  }

  /** The loop over the complete lines; the rest begins at `start`. */
  method CompleteLines(ghost whole: Filtered, text: string) returns (out: string, start: nat)
    requires CameTo(whole, text, "", 0, 0)
    ensures CameTo(whole, text, out, start, |text|)
  {
    out, start := "", 0;
    for i := 0 to |text|
      invariant CameTo(whole, text, out, start, i)
    {
      out, start := TakeChar(whole, text, out, start, i);
    }
  }

  /** After the complete lines the rest is held, or given out too. */
  lemma LastPart(whole: Filtered, text: string, out: string, start: nat)
    requires CameTo(whole, text, out, start, |text|)
    ensures whole == if start < |text| && IsHeld(text[start..]) then Filtered(out, text[start..])
                     else if start < |text| then Filtered(out + text[start..], "")
                     else Filtered(out, "")
  {
    assert NoNewline(text[start..]) && out + "" == out;
    if start == |text| {
      assert text[start..] == "";
    }
  }

  class BootFilter {
    var carry: string

    constructor ()
      ensures carry == ""
    {
      carry := "";
    }

    method StripBootNoise(chunk: string) returns (out: string)
      modifies this
      ensures Filtered(out, carry) == Strip(old(carry) + chunk)
    {
      var text := carry + chunk;
      ghost var whole := Strip(text);
      RemainingAtFirst(text);
      var start;
      out, start := CompleteLines(whole, text);
      LastPart(whole, text, out, start);
      carry := "";
      if start < |text| {
        var partial := text[start..];
        var held := IsIncompleteBootPrefix(partial);
        if held {
          carry := partial;
        } else {
          out := out + partial;
        }
      }
    }

    /** Gives what is written to the terminal, if anything is. */
    method FlushBootCarry() returns (written: string)
      modifies this
      ensures written == Flushed(old(carry)) && carry == ""
    {
      if carry == "" {
        return "";
      }
      var noise := IsBootNoiseLine(carry);
      var held := IsIncompleteBootPrefix(carry);
      written := if noise || held then "" else carry;
      carry := "";
    }
  }
}
