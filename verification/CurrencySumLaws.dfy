/** What a caller can rely on about currency sums: the laws of the exact sum, carried over to the
    printed result. */
module CurrencySumLaws {
  import opened Decimals
  import opened Sequences
  import opened WebMoney
  import CurrencyFormat
  import DecimalText

  // ---------------------------------------------------------------- the exact sum

  lemma {:induction false} SumToPrefix(xs: seq<real>, ys: seq<real>, n: nat)
    requires n <= |xs| && n <= |ys| && forall i :: 0 <= i < n ==> xs[i] == ys[i]
    ensures SumTo(xs, n) == SumTo(ys, n)
  {
    if n > 0 {
      SumToPrefix(xs, ys, n - 1);
    }
  }

  lemma {:induction false} SumToConcat(xs: seq<real>, ys: seq<real>, n: nat)
    requires n <= |ys|
    ensures SumTo(xs + ys, |xs| + n) == SumTo(xs, |xs|) + SumTo(ys, n)
  {
    if n == 0 {
      SumToPrefix(xs + ys, xs, |xs|);
    } else {
      SumToConcat(xs, ys, n - 1);
      assert (xs + ys)[|xs| + n - 1] == ys[n - 1];
    }
  }

  lemma {:induction false} SumOfConcat(a: seq<string>, b: seq<string>)
    ensures ExactSum(a + b) == ExactSum(a) + ExactSum(b)
  {
    assert ExactAmounts(a + b) == ExactAmounts(a) + ExactAmounts(b);
    SumToConcat(ExactAmounts(a), ExactAmounts(b), |b|);
  }

  lemma {:induction false} SumOfOne(v: string)
    ensures ExactSum([v]) == ExactAmount(v)
  {
    var xs := ExactAmounts([v]);
    assert SumTo(xs, 1) == SumTo(xs, 0) + xs[0];
  }

  lemma {:induction false} SumOfInsert(before: seq<string>, x: string, after: seq<string>)
    ensures ExactSum(before + [x] + after) == ExactSum(before + after) + ExactAmount(x)
  {
    SumOfOne(x);
    SumOfConcat(before, after);
    SumOfConcat(before, [x]);
    SumOfConcat(before + [x], after);
  }

  lemma {:induction false} PermutationKeepsExactSum(a: seq<string>, b: seq<string>)
    requires multiset(a) == multiset(b)
    ensures ExactSum(a) == ExactSum(b)
  {
    if |a| == 0 {
      assert |multiset(b)| == |b|;
    } else {
      var init, x := a[..|a| - 1], a[|a| - 1];
      assert a == init + [x];
      var before, after := TakeOut(b, init, x);
      PermutationKeepsExactSum(init, before + after);
      SumOfOne(x);
      SumOfConcat(init, [x]);
      SumOfInsert(before, x, after);
    }
  }

  /** The order of the amounts does not matter. */
  lemma {:induction false} OrderIndependent(a: seq<string>, b: seq<string>, fractionDigits: nat)
    requires multiset(a) == multiset(b)
    ensures CurrencySum(a, fractionDigits) == CurrencySum(b, fractionDigits)
  {
    PermutationKeepsExactSum(a, b);
  }

  // ---------------------------------------------------------------- spelling of the amounts

  /** The amount strings that the parser recognises: an optional minus sign before a decimal. */
  function AmountText(negative: bool, d: DecimalText.Digits): string {
    (if negative then "-" else "") + DecimalText.Text(d)
  }

  lemma {:induction false} AmountTextIsExact(negative: bool, d: DecimalText.Digits)
    requires DecimalText.WellFormed(d)
    ensures ExactAmount(AmountText(negative, d)) == if negative then -DecimalText.Exact(d) else DecimalText.Exact(d)
  {
    var text := DecimalText.Text(d);
    DecimalText.MatchIsInverseOfText(text, d);
    assert IsDigit(d.whole[0]) && text[0] == d.whole[0];
    if negative {
      assert AmountText(negative, d)[1..] == text;
    } else {
      assert AmountText(negative, d) == text;
    }
  }

  /** Zeros at the end of a fraction, or a fraction of zeros after a whole number, change nothing. */
  lemma {:induction false} TrailingZerosIgnored(values: seq<string>, i: nat, negative: bool, d: DecimalText.Digits, n: nat,
                             fractionDigits: nat)
    requires i < |values| && DecimalText.WellFormed(d) && values[i] == AmountText(negative, d)
    ensures var padded := AmountText(negative, DecimalText.Digits(d.whole, d.fraction + Zeros(n)));
            CurrencySum(values[i := padded], fractionDigits) == CurrencySum(values, fractionDigits)
  {
    var e := DecimalText.Digits(d.whole, d.fraction + Zeros(n));
    DecimalText.TrailingZeros(d, n);
    AmountTextIsExact(negative, d);
    AmountTextIsExact(negative, e);
    SameAmounts(values, values[i := AmountText(negative, e)]);
  }

  lemma {:induction false} SameAmounts(a: seq<string>, b: seq<string>)
    requires |a| == |b| && forall i :: 0 <= i < |a| ==> ExactAmount(a[i]) == ExactAmount(b[i])
    ensures ExactSum(a) == ExactSum(b)
  {
    SumToPrefix(ExactAmounts(a), ExactAmounts(b), |a|);
  }

  // ---------------------------------------------------------------- sign

  ghost predicate WellFormedAmount(v: string) {
    exists negative, d :: DecimalText.WellFormed(d) && v == AmountText(negative, d)
  }

  function Negate(v: string): string {
    if |v| > 0 && v[0] == '-' then v[1..] else "-" + v
  }

  lemma {:induction false} NegatedAmount(v: string)
    requires WellFormedAmount(v)
    ensures ExactAmount(Negate(v)) == -ExactAmount(v)
  {
  }

  lemma {:induction false} NegatedSums(xs: seq<real>, ys: seq<real>, n: nat)
    requires n <= |xs| && n <= |ys| && forall i :: 0 <= i < n ==> ys[i] == -xs[i]
    ensures SumTo(ys, n) == -SumTo(xs, n)
  {
    if n > 0 {
      NegatedSums(xs, ys, n - 1);
    }
  }

  function NegateAll(values: seq<string>): (r: seq<string>) {
    seq(|values|, i requires 0 <= i < |values| => Negate(values[i]))
  }

  /** A printed sum with the opposite sign; zero has none. */
  function Opposite(sum: string): string {
    if sum == [ZERO] then sum else Negate(sum)
  }

  lemma {:induction false} OppositeOfPrinted(n: int)
    ensures Opposite(PrintSigned(n)) == PrintSigned(-n)
  {
    if n != 0 {
      PrintIsCanonical(if n < 0 then -n else n);
      assert IsDigit(Print(if n < 0 then -n else n)[0]);
    }
  }

  lemma {:induction false} NegatedExactSum(values: seq<string>)
    requires forall i :: 0 <= i < |values| ==> WellFormedAmount(values[i])
    ensures ExactSum(NegateAll(values)) == -ExactSum(values)
  {
    var xs, ys := ExactAmounts(values), ExactAmounts(NegateAll(values));
    forall i | 0 <= i < |values|
      ensures ys[i] == -xs[i]
    {
      NegatedAmount(values[i]);
    }
    NegatedSums(xs, ys, |values|);
  }

  lemma {:induction false} NegatedRounding(x: real, y: real, fractionDigits: nat)
    requires y == -x
    ensures RoundHalfAway(Times10(y, fractionDigits)) == -RoundHalfAway(Times10(x, fractionDigits))
  {
    NegatedScale(x, 0, fractionDigits);
    RoundHalfAwayNearest(Times10(x, fractionDigits));
  }

  /** Negating every amount negates the sum. */
  lemma {:induction false} NegationNegatesSum(values: seq<string>, fractionDigits: nat)
    requires forall i :: 0 <= i < |values| ==> WellFormedAmount(values[i])
    ensures CurrencySum(NegateAll(values), fractionDigits) == Opposite(CurrencySum(values, fractionDigits))
  {
    NegatedExactSum(values);
    NegatedRounding(ExactSum(values), ExactSum(NegateAll(values)), fractionDigits);
    OppositeOfPrinted(RoundHalfAway(Times10(ExactSum(values), fractionDigits)));
  }

  /** The result is never negative zero: a minus sign is always followed by a non-zero digit. */
  lemma {:induction false} NeverNegativeZero(values: seq<string>, fractionDigits: nat)
    ensures var r := CurrencySum(values, fractionDigits);
            |r| > 0 && (r[0] == '-' ==> |r| > 1 && r[1] != ZERO)
  {
    var n := RoundHalfAway(Times10(ExactSum(values), fractionDigits));
    PrintIsCanonical(if n < 0 then -n else n);
    assert IsDigit(Print(if n < 0 then -n else n)[0]);
  }

  lemma {:induction false} SumIsCanonical(values: seq<string>, fractionDigits: nat)
    ensures Canonical(CurrencyFormat.Magnitude(CurrencySum(values, fractionDigits)))
  {
    var n := RoundHalfAway(Times10(ExactSum(values), fractionDigits));
    var digits := Print(if n < 0 then -n else n);
    PrintIsCanonical(if n < 0 then -n else n);
    assert IsDigit(digits[0]);
    assert ("-" + digits)[1..] == digits;
  }

  /** Two sums that are displayed alike are the same number of minor units, in every locale that tells
      negative amounts by a minus sign. */
  lemma {:induction false} SumsShownAlikeAreEqual(
      a: seq<string>, b: seq<string>, fractionDigits: nat, plain: CurrencyFormat.Layout, minus: CurrencyFormat.Layout)
    requires CurrencyFormat.Decorative(plain) && CurrencyFormat.Decorative(minus)
    requires CurrencyFormat.ShowsMinus(fractionDigits, minus) && !CurrencyFormat.ShowsMinus(fractionDigits, plain)
    requires CurrencyFormat.Formatted(CurrencySum(a, fractionDigits), fractionDigits, plain, minus)
          == CurrencyFormat.Formatted(CurrencySum(b, fractionDigits), fractionDigits, plain, minus)
    ensures CurrencySum(a, fractionDigits) == CurrencySum(b, fractionDigits)
  {
    hide *;
    SumIsCanonical(a, fractionDigits);
    SumIsCanonical(b, fractionDigits);
    CurrencyFormat.FormattingIsInjective(
      CurrencySum(a, fractionDigits), CurrencySum(b, fractionDigits), fractionDigits, plain, minus);
  }
}
