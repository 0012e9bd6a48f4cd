/** Permutations of sequences, and sums over them. */
module Sequences {

  /** A permutation of `init + [x]` is a permutation of `init` with x put in somewhere. */
  lemma {:induction false} TakeOut<T>(b: seq<T>, init: seq<T>, x: T) returns (before: seq<T>, after: seq<T>)
    requires multiset(b) == multiset(init + [x])
    ensures b == before + [x] + after && multiset(before + after) == multiset(init)
  {
    assert x in multiset(b);
    var k :| 0 <= k < |b| && b[k] == x;
    before, after := b[..k], b[k + 1..];
    assert b == before + [x] + after;
    assert multiset(before + after) == multiset(b) - multiset{x};
    assert multiset(init) == multiset(init + [x]) - multiset{x};
  }

  /** The sum of f over the first n elements. */
  function SumBy<T>(f: T -> int, s: seq<T>, n: nat): int
    requires n <= |s|
  {
    if n == 0 then 0 else SumBy(f, s, n - 1) + f(s[n - 1])
  }

  lemma {:induction false} SumByPrefix<T>(f: T -> int, a: seq<T>, b: seq<T>, n: nat)
    requires n <= |a| && n <= |b| && forall i :: 0 <= i < n ==> a[i] == b[i]
    ensures SumBy(f, a, n) == SumBy(f, b, n)
  {
    if n > 0 {
      SumByPrefix(f, a, b, n - 1);
    }
  }

  lemma {:induction false} SumByConcat<T>(f: T -> int, a: seq<T>, b: seq<T>, n: nat)
    requires n <= |b|
    ensures SumBy(f, a + b, |a| + n) == SumBy(f, a, |a|) + SumBy(f, b, n)
  {
    if n == 0 {
      SumByPrefix(f, a + b, a, |a|);
    } else {
      SumByConcat(f, a, b, n - 1);
    }
  }
}
