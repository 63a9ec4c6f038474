/** Small things about numbers and sequences that several components use. */
module Basics {
  function Min(a: int, b: int): int { if a < b then a else b }

  function Max(a: int, b: int): int { if a < b then b else a }

  /** The first `n` elements, or all of fewer. */
  function Take<T>(s: seq<T>, n: nat): (r: seq<T>)
    ensures |r| <= n && r <= s
  {
    if |s| <= n then s else s[..n]
  }

  /** The last `n` elements, or all of fewer. */
  function Last<T>(s: seq<T>, n: nat): (r: seq<T>)
    ensures |r| <= n
    ensures forall x | x in r :: x in s
  {
    if |s| <= n then s else s[|s| - n..]
  }

  predicate EndsWith<T(==)>(s: seq<T>, tail: seq<T>) { |tail| <= |s| && s[|s| - |tail|..] == tail }

  predicate Distinct<T(==)>(s: seq<T>) { forall i, j | 0 <= i < j < |s| :: s[i] != s[j] }
}
