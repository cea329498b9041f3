/** Machine integers, byte strings and the small sequence facts the other modules share. */
module Bytes {
  const U32 := 0x1_0000_0000
  const U64 := 0x1_0000_0000_0000_0000

  type byte = b: int | 0 <= b < 0x100
  type uint16 = n: int | 0 <= n < 0x1_0000
  type uint32 = n: int | 0 <= n < 0x1_0000_0000
  type uint64 = n: int | 0 <= n < 0x1_0000_0000_0000_0000
  type int64 = n: int | -0x8000_0000_0000_0000 <= n < 0x8000_0000_0000_0000

  datatype Option<+T> = None | Some(value: T)

  function Min(a: int, b: int): int {
    if a <= b then a else b
  }

  function Zeros(n: nat): seq<byte> {
    seq(n, _ => 0)
  }

  /** How many steps of width `step` it takes to cover `length`. */
  function CeilDiv(length: nat, step: nat): nat
    requires 0 < step
  {
    (length + step - 1) / step
  }

  /** The concatenation of a list of byte strings. */
  function Concat(parts: seq<seq<byte>>): seq<byte> {
    if parts == [] then [] else parts[0] + Concat(parts[1..])
  }

  /** An iteration order: every element of `s` exactly once. */
  ghost predicate Enumerates<T(!new)>(order: seq<T>, s: set<T>) {
    && (forall i, j :: 0 <= i < j < |order| ==> order[i] != order[j])
    && (forall x :: x in order <==> x in s)
  }

  ghost predicate NoDuplicates<T>(xs: seq<T>) {
    forall i, j :: 0 <= i < j < |xs| ==> xs[i] != xs[j]
  }

  /** All elements but `x`, in order. */
  function Without<T(==)>(xs: seq<T>, x: T): seq<T> {
    if xs == [] then []
    else if xs[0] == x then Without(xs[1..], x)
    else [xs[0]] + Without(xs[1..], x)
  }

  /** What remains is in its order. */
  lemma {:induction false} WithoutInOrder<T>(xs: seq<T>, y: T, x: T)
    ensures Without(xs + [y], x) == Without(xs, x) + if y == x then [] else [y]
  {
    if xs == [] {
      assert xs + [y] == [y];
    } else {
      assert (xs + [y])[1..] == xs[1..] + [y];
      WithoutInOrder(xs[1..], y, x);
    }
  }

  lemma {:induction false} WithoutElements<T>(xs: seq<T>, x: T)
    ensures |Without(xs, x)| <= |xs|
    ensures forall y :: y in Without(xs, x) <==> y in xs && y != x
    ensures NoDuplicates(xs) ==> NoDuplicates(Without(xs, x))
    ensures x !in xs ==> Without(xs, x) == xs
    ensures NoDuplicates(xs) && x in xs ==> |Without(xs, x)| == |xs| - 1
  {
    if xs != [] {
      var rest := Without(xs[1..], x);
      WithoutElements(xs[1..], x);
      assert xs == [xs[0]] + xs[1..];
      if NoDuplicates(xs) {
        assert NoDuplicates(xs[1..]) && xs[0] !in xs[1..];
        assert xs[0] !in rest;
      }
    }
  }
}
