/** Bytes, fixed-width integers and the few sequence facts that several modules need. */
module Bytes {

  datatype Option<+T> = None | Some(value: T)

  type byte = x: int | 0 <= x < 256

  type bytes = seq<byte>

  function Min(a: int, b: int): int {
    if a <= b then a else b
  }

  /** The cast `x as i32` of a wider integer: keep the low 32 bits, read them as two's complement. */
  function AsI32(x: int): int {
    (x + 0x8000_0000) % 0x1_0000_0000 - 0x8000_0000
  }

  const NUL: byte := 0

  predicate NulFree(s: bytes) {
    forall k :: 0 <= k < |s| ==> s[k] != NUL
  }

  /** The position of the first NUL, or the length. */
  function FindNul(s: bytes): (n: nat)
    ensures n <= |s|
  {
    if s == [] || s[0] == NUL then 0 else 1 + FindNul(s[1..])
  }

  lemma {:induction false} FindNulIsFirst(s: bytes)
    ensures FindNul(s) < |s| ==> s[FindNul(s)] == NUL
    ensures forall k :: 0 <= k < FindNul(s) ==> s[k] != NUL
  {
    if s != [] && s[0] != NUL {
      FindNulIsFirst(s[1..]);
      forall k | 0 <= k < FindNul(s) ensures s[k] != NUL {
        if k > 0 {
          assert s[k] == s[1..][k - 1];
        }
      }
    }
  }

  lemma {:induction false} FindNulIs(s: bytes, n: nat)
    requires n <= |s| && (n < |s| ==> s[n] == NUL) && forall k :: 0 <= k < n ==> s[k] != NUL
    ensures FindNul(s) == n
  {
    if n > 0 {
      FindNulIs(s[1..], n - 1);
    }
  }

  method Position(s: bytes) returns (n: nat)
    ensures n == FindNul(s)
  {
    n := 0;
    while n < |s| && s[n] != NUL
      invariant n <= |s| && forall k :: 0 <= k < n ==> s[k] != NUL
    {
      n := n + 1;
    }
    FindNulIs(s, n);
  }

  /** The concatenation of a list of sequences. */
  function Flatten<T>(parts: seq<seq<T>>): seq<T> {
    if parts == [] then [] else parts[0] + Flatten(parts[1..])
  }

  lemma {:induction false} FlattenLast<T>(front: seq<seq<T>>, last: seq<T>)
    ensures Flatten(front + [last]) == Flatten(front) + last
  {
    if front == [] {
      assert [last][1..] == [];
    } else {
      assert (front + [last])[1..] == front[1..] + [last];
      FlattenLast(front[1..], last);
      Assoc(front[0], Flatten(front[1..]), last);
    }
  }

  /** `s` without the element at position `i`. */
  function Without<T>(s: seq<T>, i: nat): (r: seq<T>)
    requires i < |s|
    ensures |r| == |s| - 1
    ensures forall k :: 0 <= k < |r| ==> r[k] == s[if k < i then k else k + 1]
  {
    s[..i] + s[i + 1..]
  }

  /** n * k, by repeated addition: the size of n rows of k bytes. */
  function Times(n: nat, k: nat): nat {
    if n == 0 then 0 else k + Times(n - 1, k)
  }

  lemma {:induction false} TimesIsProduct(n: nat, k: nat)
    ensures Times(n, k) == n * k
  {
    if n > 0 {
      TimesIsProduct(n - 1, k);
      assert n * k == (n - 1) * k + k;
    }
  }

  lemma {:induction false} TimesMonotone(a: nat, b: nat, k: nat)
    requires a <= b
    ensures Times(a, k) <= Times(b, k)
  {
    if a < b {
      TimesMonotone(a, b - 1, k);
    }
  }

  lemma Assoc<T>(a: seq<T>, b: seq<T>, c: seq<T>)
    ensures (a + b) + c == a + (b + c)
  {
  }

  lemma SplitAt<T>(s: seq<T>, n: nat)
    requires n <= |s|
    ensures s == s[..n] + s[n..]
  {
  }

  lemma TakeSnoc<T>(s: seq<T>, n: nat)
    requires n < |s|
    ensures s[..n] + [s[n]] == s[..n + 1]
  {
  }

  lemma TakeMore<T>(s: seq<T>, a: nat, n: nat)
    requires a + n <= |s|
    ensures s[..a] + s[a..a + n] == s[..a + n]
  {
  }

  lemma DropFront<T>(a: seq<T>, b: seq<T>)
    ensures (a + b)[|a|..] == b && (a + b)[..|a|] == a
  {
  }

  lemma SlicesFrom<T>(s: seq<T>, i: nat, n: nat)
    requires i <= |s| && n < |s| - i
    ensures s[i..][..n] == s[i..i + n] && s[i..][n + 1..] == s[i + n + 1..]
  {
  }

  lemma SliceOfConcat<T>(a: seq<T>, b: seq<T>, i: nat, j: nat)
    ensures i <= j <= |a| ==> (a + b)[i..j] == a[i..j]
    ensures i == |a| && j == |a| + |b| ==> (a + b)[i..j] == b
  {
  }
}
