/** Decimal digit strings, powers of ten, and rounding to the nearest integer: the mathematics that
    the three money implementations are measured against. */
module Decimals {

  const ZERO: char := '0'
  const ONE: char := '1'
  const NINE: char := '9'

  predicate IsDigit(c: char) {
    '0' <= c <= '9'
  }

  predicate AllDigits(s: string) {
    forall i :: 0 <= i < |s| ==> IsDigit(s[i])
  }

  function DigitValue(c: char): int {
    c as int - '0' as int
  }

  function DigitChar(d: nat): char
    requires d < 10
  {
    '0' + d as char
  }

  /** The number followed by n zeros. */
  function Shift(x: int, n: nat): int {
    if n == 0 then x else 10 * Shift(x, n - 1)
  }

  function Pow10(n: nat): (p: int)
    ensures p >= 1
  {
    if n == 0 then 1 else 10 * Pow10(n - 1)
  }

  /** Moving the decimal point n places to the right, and to the left. */
  function Times10(x: real, n: nat): real {
    if n == 0 then x else 10.0 * Times10(x, n - 1)
  }

  function Over10(x: real, n: nat): real {
    if n == 0 then x else Over10(x, n - 1) / 10.0
  }

  /** The number written by the first n digits. */
  function Prefix(s: string, n: nat): int
    requires n <= |s|
  {
    if n == 0 then 0 else 10 * Prefix(s, n - 1) + DigitValue(s[n - 1])
  }

  /** The number written by a digit string, most significant digit first. */
  function Value(s: string): int {
    Prefix(s, |s|)
  }

  function Zeros(n: nat): (s: string)
    ensures |s| == n
  {
    seq(n, _ => ZERO)
  }

  /** A digit string without superfluous leading zeros. */
  predicate Canonical(s: string) {
    |s| > 0 && AllDigits(s) && (|s| > 1 ==> s[0] != ZERO)
  }

  /** The canonical digits of a number. */
  function Print(n: nat): string {
    if n < 10 then [DigitChar(n)] else Print(n / 10) + [DigitChar(n % 10)]
  }

  lemma {:induction false} ShiftLinear(x: int, y: int, n: nat)
    ensures Shift(x + y, n) == Shift(x, n) + Shift(y, n)
    ensures Shift(-x, n) == -Shift(x, n)
    ensures Shift(10 * x, n) == Shift(x, n + 1)
    ensures x >= 0 ==> Shift(x, n) >= x
  {
    if n == 0 {
      assert Shift(x, 1) == 10 * Shift(x, 0);
    } else {
      ShiftLinear(x, y, n - 1);
    }
  }

  /** A column total may be written as a digit and ten of the next carry, at any position. */
  lemma {:induction false} ShiftColumn(a: int, b: int, carry: int, digit: int, carry': int, n: nat)
    requires a + b + carry == digit + 10 * carry'
    ensures Shift(a, n) + Shift(b, n) + Shift(carry, n) == Shift(digit, n) + Shift(carry', n + 1)
  {
    if n == 0 {
      assert Shift(carry', 1) == 10 * Shift(carry', 0);
    } else {
      ShiftColumn(a, b, carry, digit, carry', n - 1);
      assert Shift(carry', n + 1) == 10 * Shift(carry', n);
    }
  }

  lemma {:induction false} ShiftIsProduct(x: int, n: nat)
    ensures Shift(x, n) == x * Pow10(n)
  {
    if n > 0 {
      ShiftIsProduct(x, n - 1);
    }
  }

  lemma {:induction false} ShiftTwice(x: int, a: nat, b: nat)
    ensures Shift(Shift(x, a), b) == Shift(x, a + b)
  {
    if b == 0 {
    } else {
      ShiftTwice(x, a, b - 1);
    }
  }

  lemma {:induction false} ShiftGrows(x: int, n: nat)
    requires x >= 1
    ensures Shift(x, n) >= Pow10(n)
  {
    if n == 0 {
    } else {
      ShiftGrows(x, n - 1);
    }
  }

  /** A difference taken column by column, when the subtrahend is not the larger, borrows nothing
      from beyond its last column. */
  lemma {:induction false} NoBorrow(l: int, r: int, high: int, low: int, borrow: int, difference: int, n: nat)
    requires high >= 0 && borrow >= 0 && difference < Pow10(n)
    requires difference - Shift(borrow, n) == l - low
    requires r == Shift(high, n) + low && r <= l
    ensures difference == l - r
  {
    ShiftLinear(high, borrow, n);
    ShiftLinear(0, 0, n);
    if high + borrow >= 1 {
      ShiftGrows(high + borrow, n);
    }
  }

  lemma {:induction false} PrefixSame(a: string, b: string, n: nat)
    requires n <= |a| && n <= |b| && forall i :: 0 <= i < n ==> a[i] == b[i]
    ensures Prefix(a, n) == Prefix(b, n)
  {
    if n > 0 {
      PrefixSame(a, b, n - 1);
    }
  }

  lemma {:induction false} PrefixConcat(a: string, b: string, k: nat)
    requires k <= |b|
    ensures Prefix(a + b, |a| + k) == Shift(Value(a), k) + Prefix(b, k)
  {
    if k == 0 {
      PrefixSame(a + b, a, |a|);
    } else {
      PrefixConcat(a, b, k - 1);
      assert (a + b)[|a| + k - 1] == b[k - 1];
    }
  }

  lemma {:induction false} ValueConcat(a: string, b: string)
    ensures Value(a + b) == Shift(Value(a), |b|) + Value(b)
  {
    PrefixConcat(a, b, |b|);
  }

  lemma {:induction false} PrefixBound(s: string, n: nat)
    requires n <= |s| && AllDigits(s)
    ensures 0 <= Prefix(s, n) < Pow10(n)
  {
    if n > 0 {
      PrefixBound(s, n - 1);
      assert IsDigit(s[n - 1]);
    }
  }

  lemma {:induction false} ValueBound(s: string)
    requires AllDigits(s)
    ensures 0 <= Value(s) < Pow10(|s|)
  {
    PrefixBound(s, |s|);
  }

  /** Digits that are all zero from position n on only shift what stands before. */
  lemma {:induction false} ZeroTail(s: string, n: nat, m: nat)
    requires n <= m <= |s| && forall i :: n <= i < m ==> s[i] == ZERO
    ensures Prefix(s, m) == Shift(Prefix(s, n), m - n)
  {
    if n < m {
      ZeroTail(s, n, m - 1);
    }
  }

  lemma {:induction false} ValueZeros(n: nat)
    ensures Value(Zeros(n)) == 0
  {
    ZeroTail(Zeros(n), 0, n);
    ShiftLinear(0, 0, n);
  }

  /** Appending zeros scales, prepending zeros changes nothing. */
  lemma {:induction false} ValuePadding(s: string, n: nat)
    ensures Value(s + Zeros(n)) == Shift(Value(s), n)
    ensures Value(Zeros(n) + s) == Value(s)
  {
    ValueZeros(n);
    ValueConcat(s, Zeros(n));
    ValueConcat(Zeros(n), s);
    ShiftLinear(0, 0, |s|);
  }

  /** The string with zeros put before it, up to the given length. */
  function PadStart(s: string, length: nat): (r: string)
    ensures |r| == if |s| >= length then |s| else length
    ensures Value(r) == Value(s)
    ensures AllDigits(s) ==> AllDigits(r)
  {
    if |s| >= length then s else ValuePadding(s, length - |s|); Zeros(length - |s|) + s
  }

  lemma {:induction false} PrintIsCanonical(n: nat)
    ensures Canonical(Print(n)) && Value(Print(n)) == n
    ensures Print(n)[0] == ZERO <==> n == 0
  {
    if n < 10 {
      SingleDigit(DigitChar(n));
    } else {
      PrintIsCanonical(n / 10);
      ValueConcat(Print(n / 10), [DigitChar(n % 10)]);
      SingleDigit(DigitChar(n % 10));
      ShiftOnce(n / 10);
    }
  }

  lemma {:induction false} SingleDigit(c: char)
    ensures Value([c]) == DigitValue(c)
  {
    assert Prefix([c], 1) == 10 * Prefix([c], 0) + DigitValue(c);
  }

  lemma {:induction false} ShiftOnce(x: int)
    ensures Shift(x, 1) == 10 * x
  {
  }

  /** A canonical string is the only canonical way to write its value. */
  lemma {:induction false} CanonicalIsPrint(s: string)
    requires Canonical(s)
    ensures Value(s) >= 0 && s == Print(Value(s))
  {
    ValueBound(s);
    PrefixIsPrint(s, |s|);
    assert s[..|s|] == s;
  }

  lemma {:induction false} PrefixIsPrint(s: string, n: nat)
    requires Canonical(s) && 1 <= n <= |s|
    ensures Prefix(s, n) >= 0 && s[..n] == Print(Prefix(s, n))
    ensures s[0] != ZERO ==> Prefix(s, n) >= 1
  {
    var d := s[n - 1];
    assert IsDigit(d) && DigitChar(DigitValue(d)) == d;
    if n == 1 {
      SingleDigit(d);
      assert s[..1] == [d];
      assert Prefix(s, 1) == 10 * Prefix(s, 0) + DigitValue(d);
    } else {
      PrefixIsPrint(s, n - 1);
      assert s[..n] == s[..n - 1] + [d];
    }
  }

  /** Nearest integer of a non-negative number, halves upwards. */
  function RoundHalfUp(x: real): int {
    (x + 0.5).Floor
  }

  /** Nearest integer, halves away from zero. */
  function RoundHalfAway(x: real): int {
    if x < 0.0 then -RoundHalfUp(-x) else RoundHalfUp(x)
  }

  lemma {:induction false} RoundHalfUpNearest(x: real)
    ensures RoundHalfUp(x) as real - 0.5 <= x < RoundHalfUp(x) as real + 0.5
  {
  }

  /** The nearest integer, and at a half the one further from zero. */
  lemma {:induction false} RoundHalfAwayNearest(x: real)
    ensures RoundHalfAway(x) as real - 0.5 <= x <= RoundHalfAway(x) as real + 0.5
    ensures x > 0.0 ==> x < RoundHalfAway(x) as real + 0.5
    ensures x < 0.0 ==> x > RoundHalfAway(x) as real - 0.5
    ensures RoundHalfAway(-x) == -RoundHalfAway(x)
  {
  }

  lemma {:induction false} RoundHalfUpUnique(x: real, n: int)
    requires n as real - 0.5 <= x < n as real + 0.5
    ensures RoundHalfUp(x) == n
  {
  }

  lemma {:induction false} Times10Linear(x: real, y: real, n: nat)
    ensures Times10(x + y, n) == Times10(x, n) + Times10(y, n)
    ensures Times10(-x, n) == -Times10(x, n)
    ensures Times10(10.0 * x, n) == Times10(x, n + 1)
    ensures x <= y <==> Times10(x, n) <= Times10(y, n)
  {
    if n == 0 {
      assert Times10(x, 1) == 10.0 * Times10(x, 0);
    } else {
      Times10Linear(x, y, n - 1);
    }
  }

  lemma {:induction false} Over10Linear(x: real, y: real, n: nat)
    ensures Over10(x + y, n) == Over10(x, n) + Over10(y, n)
    ensures Over10(-x, n) == -Over10(x, n)
    ensures Over10(x / 10.0, n) == Over10(x, n + 1)
    ensures x <= y <==> Over10(x, n) <= Over10(y, n)
  {
    if n == 0 {
      assert Over10(x, 1) == Over10(x, 0) / 10.0;
    } else {
      Over10Linear(x, y, n - 1);
    }
  }

  lemma {:induction false} ZeroStaysZero(x: real, z: int, n: nat)
    requires x == 0.0 && z == 0
    ensures Times10(x, n) == 0.0 && Over10(x, n) == 0.0 && Shift(z, n) == 0
  {
    if n > 0 {
      ZeroStaysZero(x, z, n - 1);
    }
  }

  lemma {:induction false} NegatedScale(x: real, z: int, n: nat)
    ensures Times10(-x, n) == -Times10(x, n) && Over10(-x, n) == -Over10(x, n)
    ensures Shift(-z, n) == -Shift(z, n)
  {
    if n > 0 {
      NegatedScale(x, z, n - 1);
    }
  }

  /** Moving the point left a places and right a + b places moves it right b places. */
  lemma {:induction false} PointMoved(v: int, a: nat, b: nat, c: nat)
    requires c == a + b
    ensures Times10(Over10(v as real, a), c) == Shift(v, b) as real
    decreases c
  {
    if a > 0 {
      PointMoved(v, a - 1, b, c - 1);
      Times10Linear(Over10(v as real, a), 0.0, c - 1);
      assert 10.0 * Over10(v as real, a) == Over10(v as real, a - 1);
    } else if b > 0 {
      PointMoved(v, a, b - 1, c - 1);
    }
  }

  /** Moving the point left a + b places and right b places moves it left a places. */
  lemma {:induction false} PointMovedBack(x: real, a: nat, b: nat, c: nat)
    requires c == a + b
    ensures Times10(Over10(x, c), b) == Over10(x, a)
  {
    if b > 0 {
      PointMovedBack(x, a, b - 1, c - 1);
      Times10Linear(Over10(x, c), 0.0, b - 1);
      assert 10.0 * Over10(x, c) == Over10(x, c - 1);
    }
  }

  lemma {:induction false} ShiftOver10(v: int, a: nat, b: nat, c: nat)
    requires c == a + b
    ensures Over10(Shift(v, b) as real, c) == Over10(v as real, a)
  {
    if b > 0 {
      ShiftOver10(v, a, b - 1, c - 1);
      Over10Linear(Shift(v, b) as real, 0.0, c - 1);
      assert Shift(v, b) as real / 10.0 == Shift(v, b - 1) as real;
    }
  }

  /** A digit string read as a fraction lies between its first digit and the next, in tenths. */
  lemma {:induction false} FractionBounds(s: string, n: nat)
    requires |s| > 0 && AllDigits(s) && n == |s|
    ensures DigitValue(s[0]) as real / 10.0 <= Over10(Value(s) as real, n)
    ensures Over10(Value(s) as real, n) < (DigitValue(s[0]) + 1) as real / 10.0
  {
    var tail := s[1..];
    assert s == [s[0]] + tail;
    LeadingDigit(s[0], tail);
    ShiftOver10(DigitValue(s[0]), 1, |tail|, n);
    Over10Linear(Shift(DigitValue(s[0]), |tail|) as real, Value(tail) as real, n);
    assert Over10(DigitValue(s[0]) as real, 1) == Over10(DigitValue(s[0]) as real, 0) / 10.0;
    if |tail| == 0 {
      assert Over10(Value(tail) as real, 1) == Over10(0.0, 0) / 10.0;
    } else {
      FractionBounds(tail, |tail|);
      assert IsDigit(tail[0]);
    }
  }

  lemma {:induction false} LeadingDigit(c: char, s: string)
    ensures Value([c] + s) == Shift(DigitValue(c), |s|) + Value(s)
  {
    ValueConcat([c], s);
    SingleDigit(c);
  }

  /** Dropping the digits after the point, and looking only at the first one dropped, rounds half up. */
  lemma {:induction false} RoundByFirstDropped(kept: string, dropped: string, n: nat)
    requires AllDigits(kept) && AllDigits(dropped) && |dropped| > 0 && n == |dropped|
    ensures RoundHalfUp(Over10(Value(kept + dropped) as real, n))
         == Value(kept) + if dropped[0] >= '5' then 1 else 0
  {
    ValueConcat(kept, dropped);
    ShiftOver10(Value(kept), 0, n, n);
    Over10Linear(Shift(Value(kept), n) as real, Value(dropped) as real, n);
    FractionBounds(dropped, n);
    assert IsDigit(dropped[0]);
  }

  lemma {:induction false} PointRestored(x: real, n: nat)
    ensures Over10(Times10(x, n), n) == x
  {
    if n > 0 {
      PointRestored(x, n - 1);
      Over10Linear(Times10(x, n), 0.0, n - 1);
      assert Times10(x, n) / 10.0 == Times10(x, n - 1);
    }
  }

  lemma {:induction false} RoundWhole(n: int)
    ensures RoundHalfAway(n as real) == n
  {
  }
}
