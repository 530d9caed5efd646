/** The newline normaliser of terminal.dart: a carriage return goes before each line feed that has none. */
module Newlines {
  import opened Bytes

  const CR: byte := 0x0d
  const LF: byte := 0x0a

  /** The byte at `i` is a line feed without a carriage return before it. */
  predicate Lone(data: bytes, i: nat)
    requires i < |data|
  {
    data[i] == LF && (i == 0 || data[i - 1] != CR)
  }

  function Normalize(data: bytes): bytes {
    if data == [] then []
    else
      var n := |data| - 1;
      Normalize(data[..n]) + if Lone(data, n) then [CR, LF] else [data[n]]
  }

  method NormalizeNewlines(data: bytes) returns (out: bytes)
    ensures out == Normalize(data)
  {
    out := [];
    for i := 0 to |data|
      invariant out == Normalize(data[..i])
    {
      assert data[..i + 1][..i] == data[..i];
      var b := data[i];
      ghost var before := out;
      if b == LF && (i == 0 || data[i - 1] != CR) {
        out := out + [CR];
        assert before + [CR] + [b] == before + [CR, LF];
      }
      out := out + [b];
    }
    assert data[..|data|] == data;
  }

  /** Each line feed has a carriage return before it. */
  predicate NoLone(data: bytes) {
    forall i :: 0 <= i < |data| ==> !Lone(data, i)
  }

  lemma {:induction false} NormalizeEnds(data: bytes)
    ensures data == [] <==> Normalize(data) == []
    ensures data != [] ==> Normalize(data)[|Normalize(data)| - 1] == data[|data| - 1]
  {
  }

  lemma NoLoneSnoc(data: bytes, part: bytes)
    requires NoLone(data) && part != []
    requires if part[0] == LF then |part| == 1 && data != [] && data[|data| - 1] == CR
             else |part| == 1 || part == [CR, LF]
    ensures NoLone(data + part)
  {
    forall i | 0 <= i < |data + part| ensures !Lone(data + part, i) {
      if i < |data| {
        assert !Lone(data, i);
      }
    }
  }

  lemma {:induction false} NormalizedHasNoLone(data: bytes)
    ensures NoLone(Normalize(data))
  {
    if data != [] {
      var n := |data| - 1;
      NormalizedHasNoLone(data[..n]);
      NormalizeEnds(data[..n]);
      NoLoneSnoc(Normalize(data[..n]), if Lone(data, n) then [CR, LF] else [data[n]]);
    }
  }

  lemma {:induction false} NoLoneIsFixed(data: bytes)
    requires NoLone(data)
    ensures Normalize(data) == data
  {
    if data != [] {
      var n := |data| - 1;
      assert forall i :: 0 <= i < n ==> !Lone(data, i) && Lone(data[..n], i) == Lone(data, i);
      NoLoneIsFixed(data[..n]);
      SplitAt(data, n);
    }
  }

  /** The texts the normaliser leaves alone are exactly those with no lone line feed. */
  lemma FixedIff(data: bytes)
    ensures Normalize(data) == data <==> NoLone(data)
  {
    NormalizedHasNoLone(data);
    if NoLone(data) {
      NoLoneIsFixed(data);
    }
  }

  lemma Idempotent(data: bytes)
    ensures Normalize(Normalize(data)) == Normalize(data)
  {
    NormalizedHasNoLone(data);
    NoLoneIsFixed(Normalize(data));
  }

  // ---------- nothing else is added ----------

  /** The text without the carriage returns that stand before a line feed. */
  function Bare(data: bytes): bytes {
    if data == [] then []
    else if |data| >= 2 && data[0] == CR && data[1] == LF then [LF] + Bare(data[2..])
    else [data[0]] + Bare(data[1..])
  }

  function LoneCount(data: bytes): nat {
    if data == [] then 0
    else LoneCount(data[..|data| - 1]) + if Lone(data, |data| - 1) then 1 else 0
  }

  lemma {:induction false} BareOfJoin(a: bytes, b: bytes)
    requires a == [] || b == [] || a[|a| - 1] != CR || b[0] != LF
    ensures Bare(a + b) == Bare(a) + Bare(b)
  {
    if a == [] {
      assert a + b == b;
    } else if b == [] {
      assert a + b == a && Bare(a) + [] == Bare(a);
    } else if |a| >= 2 && a[0] == CR && a[1] == LF {
      assert (a + b)[2..] == a[2..] + b;
      BareOfJoin(a[2..], b);
      Assoc([LF], Bare(a[2..]), Bare(b));
    } else {
      assert (a + b)[1..] == a[1..] + b;
      BareOfJoin(a[1..], b);
      Assoc([a[0]], Bare(a[1..]), Bare(b));
    }
  }

  /** A line feed after a carriage return takes that away. */
  lemma BareOfLine(a: bytes)
    ensures Bare(a + [CR, LF]) == Bare(a) + [LF]
    ensures Bare(a + [CR]) == Bare(a) + [CR]
  {
    BareOfJoin(a, [CR, LF]);
    BareOfJoin(a, [CR]);
    assert Bare([CR, LF]) == [LF] by {
      assert [CR, LF][2..] == [] && [LF] + [] == [LF];
    }
    assert Bare([CR]) == [CR] by {
      assert [CR][1..] == [] && [CR] + [] == [CR];
    }
  }

  lemma BareOfOne(x: byte)
    ensures Bare([x]) == [x]
  {
    assert [x][1..] == [] && [x] + [] == [x];
  }

  /** But for those carriage returns the text is the same, and as many bytes longer as it had lone line feeds. */
  lemma {:induction false} AddsOnlyReturns(data: bytes)
    ensures Bare(Normalize(data)) == Bare(data)
    ensures |Normalize(data)| == |data| + LoneCount(data)
  {
    if data != [] {
      var n := |data| - 1;
      var init, x := data[..n], data[n];
      AddsOnlyReturns(init);
      SplitAt(data, n);
      assert data == init + [x];
      BareOfOne(x);
      if x == LF && n > 0 && data[n - 1] == CR {
        AfterReturn(init);
      } else {
        BareOfJoin(init, [x]);
        NormalizeEnds(init);
        if Lone(data, n) {
          BareOfLine(Normalize(init));
        } else {
          BareOfJoin(Normalize(init), [x]);
        }
      }
    }
  }

  lemma BareAfterReturn(init: bytes)
    requires init != [] && init[|init| - 1] == CR
    ensures Bare(init) != [] && Bare(init + [LF]) == Bare(init)[..|Bare(init)| - 1] + [LF]
  {
    var a := init[..|init| - 1];
    LastReturn(init);
    BareOfLine(a);
    DropFront(Bare(a), [CR]);
  }

  lemma LastReturn(init: bytes)
    requires init != [] && init[|init| - 1] == CR
    ensures var a := init[..|init| - 1]; init == a + [CR] && init + [LF] == a + [CR, LF]
  {
  }

  lemma AfterReturn(init: bytes)
    requires init != [] && init[|init| - 1] == CR && Bare(Normalize(init)) == Bare(init)
    ensures Bare(Normalize(init) + [LF]) == Bare(init + [LF])
  {
    NormalizeEnds(init);
    BareAfterReturn(init);
    BareAfterReturn(Normalize(init));
  }

  // ---------- texts in parts ----------

  predicate Split(a: bytes, b: bytes) {
    a != [] && b != [] && a[|a| - 1] == CR && b[0] == LF
  }

  lemma {:induction false} NormalizeParts(a: bytes, b: bytes)
    ensures !Split(a, b) ==> Normalize(a + b) == Normalize(a) + Normalize(b)
    ensures Split(a, b) ==> |Normalize(a + b)| + 1 == |Normalize(a) + Normalize(b)|
  {
    if b == [] {
      assert a + b == a;
    } else {
      var m := |b| - 1;
      var part := if Lone(b, m) then [CR, LF] else [b[m]];
      assert (a + b)[..|a| + m] == a + b[..m] && (a + b)[|a| + m] == b[m];
      NormalizeParts(a, b[..m]);
      Assoc(Normalize(a), Normalize(b[..m]), part);
      assert m > 0 ==> Lone(a + b, |a| + m) == Lone(b, m);
    }
  }

  /** Exactly when a text may be normalised in two parts. */
  lemma DistributesIff(a: bytes, b: bytes)
    ensures Normalize(a + b) == Normalize(a) + Normalize(b)
      <==> !(a != [] && b != [] && a[|a| - 1] == CR && b[0] == LF)
  {
    NormalizeParts(a, b);
  }
}
