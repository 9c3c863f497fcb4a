/** Value types shared by every component. */
module Basics {

  datatype Option<+T> = None | Some(value: T)

  datatype Result<+T, +E> = Ok(value: T) | Err(error: E)

  type Byte = b: int | 0 <= b < 0x100

  const U64_MODULUS := 0x1_0000_0000_0000_0000

  /** A `u64`: the unbounded value of an expression is brought back by `Wrap64` or `Saturate64`. */
  type U64 = n: int | 0 <= n < U64_MODULUS

  /** Wrapping addition's result: the value modulo 2^64. */
  function Wrap64(n: nat): U64 {
    if n < U64_MODULUS then n else Wrap64(n - U64_MODULUS)
  }

  lemma {:induction false} WrapIsModulo(n: nat)
    ensures Wrap64(n) == n % U64_MODULUS
  {
    if n >= U64_MODULUS {
      WrapIsModulo(n - U64_MODULUS);
    }
  }

  /** Wrapping early and wrapping late agree. */
  lemma {:induction false} WrapAdd(a: nat, b: nat)
    ensures Wrap64(Wrap64(a) + b) == Wrap64(a + b)
  {
    if a >= U64_MODULUS {
      WrapAdd(a - U64_MODULUS, b);
    }
  }

  function Saturate64(n: nat): U64 {
    if n < U64_MODULUS then n else U64_MODULUS - 1
  }

  function Min(a: int, b: int): int {
    if a < b then a else b
  }

  /** A one-element list on a condition. */
  function When<T(!new)>(condition: bool, value: T): (r: seq<T>)
    ensures forall x :: x in r <==> condition && x == value
  {
    if condition then [value] else []
  }

  // ---- Joining sequences ----

  lemma HeadFirst<T>(a: seq<T>, b: seq<T>)
    requires a != []
    ensures a + b == [a[0]] + (a[1..] + b)
  {
  }

  lemma NothingFirst<T>(a: seq<T>)
    ensures [] + a == a
  {
  }

  lemma MiddleMoves<T>(a: seq<T>, x: T, b: seq<T>)
    ensures a + ([x] + b) == a + [x] + b
  {
  }

  lemma NothingLast<T>(a: seq<T>)
    ensures a + [] == a
  {
  }

  lemma LastApart<T>(a: seq<T>)
    requires a != []
    ensures a == a[..|a| - 1] + [a[|a| - 1]]
  {
  }

  lemma FirstApart<T>(a: seq<T>)
    requires a != []
    ensures a == [a[0]] + a[1..]
  {
  }

  lemma Regroup<T>(a: seq<T>, b: seq<T>, c: seq<T>)
    ensures a + (b + c) == a + b + c
  {
  }

  lemma SliceOfSlice<T>(s: seq<T>, a: nat, b: nat, c: nat, d: nat)
    requires a <= b <= |s| && c <= d <= b - a
    ensures s[a..b][c..d] == s[a + c..a + d]
  {
    assert forall k :: 0 <= k < d - c ==> s[a..b][c..d][k] == s[a..b][c + k] == s[a + (c + k)];
  }

  /** Two joins that agree, cut at the same distance from the end, agree on both sides of the cut. */
  lemma SameCut<T>(a: seq<T>, b: seq<T>, a': seq<T>, b': seq<T>)
    requires a + b == a' + b' && |b| == |b'|
    ensures a == a' && b == b'
  {
    assert a == (a + b)[..|a|] && a' == (a' + b')[..|a'|];
    assert b == (a + b)[|a|..] && b' == (a' + b')[|a'|..];
  }
}
