/** Laws of the BigInt money operations, and their agreement with the digit-string sums. */
module MoneyLaws {
  import opened Wrappers
  import opened Decimals
  import opened SharedMoney
  import opened Trimming
  import DecimalText
  import WebMoney

  /** Normalising rounds the exact number once and is within half a cent of it, at any length of
      fraction; it refuses exactly the texts that are not unsigned decimals once trimmed. */
  lemma {:induction false} NormalizeRounds(value: string)
    ensures NormalizeMoney(value).Ok? <==> DecimalText.Match(Trim(value)).Some?
    ensures forall d :: DecimalText.Match(Trim(value)) == Some(d) ==>
              var units := RoundHalfUp(Times10(DecimalText.Exact(d), MONEY_SCALE));
              && units >= 0 && NormalizeMoney(value) == Ok(FormatUnits(units))
              && units as real - 0.5 <= Times10(DecimalText.Exact(d), MONEY_SCALE) < units as real + 0.5
  {
    match DecimalText.Match(Trim(value))
    case None =>
    case Some(d) =>
      DecimalText.MatchSound(Trim(value));
      UnitsAreRounded(d, MONEY_SCALE);
      RoundHalfUpNearest(Times10(DecimalText.Exact(d), MONEY_SCALE));
  }

  lemma {:induction false} NormalizeIsIdempotent(value: string)
    ensures var r := NormalizeMoney(value); r.Ok? ==> NormalizeMoney(r.value) == r
  {
    match ToScaledUnits(value, MONEY_SCALE)
    case Err(_) =>
    case Ok(units) => ReadsWhatItPrints(units);
  }

  lemma {:induction false} RoundIsMonotone(x: real, y: real)
    requires x <= y
    ensures RoundHalfUp(x) <= RoundHalfUp(y)
  {
  }

  /** A larger decimal never normalises to fewer cents. */
  lemma {:induction false} NormalizeIsMonotone(low: DecimalText.Digits, high: DecimalText.Digits)
    requires DecimalText.WellFormed(low) && DecimalText.WellFormed(high)
    requires DecimalText.Exact(low) <= DecimalText.Exact(high)
    ensures exists l: nat, h: nat :: l <= h
              && NormalizeMoney(DecimalText.Text(low)) == Ok(FormatUnits(l))
              && NormalizeMoney(DecimalText.Text(high)) == Ok(FormatUnits(h))
  {
    var l, h := UnitsOfDigits(low, MONEY_SCALE), UnitsOfDigits(high, MONEY_SCALE);
    ReadsText(low);
    ReadsText(high);
    UnitsAreRounded(low, MONEY_SCALE);
    UnitsAreRounded(high, MONEY_SCALE);
    Times10Linear(DecimalText.Exact(low), DecimalText.Exact(high), MONEY_SCALE);
    RoundIsMonotone(Times10(DecimalText.Exact(low), MONEY_SCALE), Times10(DecimalText.Exact(high), MONEY_SCALE));
    assert NormalizeMoney(DecimalText.Text(low)) == Ok(FormatUnits(l));
    assert NormalizeMoney(DecimalText.Text(high)) == Ok(FormatUnits(h));
  }

  lemma {:induction false} ReadsText(d: DecimalText.Digits)
    requires DecimalText.WellFormed(d)
    ensures ToScaledUnits(DecimalText.Text(d), MONEY_SCALE) == Ok(UnitsOfDigits(d, MONEY_SCALE))
  {
    PrintedHasNoSpace(d);
    DecimalText.MatchIsInverseOfText(DecimalText.Text(d), d);
  }

  lemma {:induction false} RoundedHundredths(quantityUnits: nat, unitPriceUnits: nat, exact: real)
    requires exact == (quantityUnits * unitPriceUnits) as real / 100.0
    ensures LineUnits(quantityUnits, unitPriceUnits) == RoundHalfUp(exact)
  {
  }

  /** The cents an unsigned decimal stands for, rounded half up. */
  function CentsOf(d: DecimalText.Digits): int {
    RoundHalfUp(Times10(DecimalText.Exact(d), MONEY_SCALE))
  }

  /** A product is refused exactly when one of the texts is no unsigned decimal once trimmed; otherwise it
      is the product of the two amounts, each rounded to hundredths, rounded half up to cents. */
  lemma {:induction false} LineIsRoundedProduct(quantity: string, unitPrice: string)
    ensures MultiplyMoney(quantity, unitPrice).Ok?
       <==> DecimalText.Match(Trim(quantity)).Some? && DecimalText.Match(Trim(unitPrice)).Some?
    ensures MultiplyMoney(quantity, unitPrice).Ok? ==>
              var (d, e) := (DecimalText.Match(Trim(quantity)).value, DecimalText.Match(Trim(unitPrice)).value);
              var exact := (CentsOf(d) * CentsOf(e)) as real / 100.0;
              var line := RoundHalfUp(exact);
              && line >= 0 && MultiplyMoney(quantity, unitPrice) == Ok(FormatUnits(line))
              && line as real - 0.5 <= exact < line as real + 0.5
  {
    hide DecimalText.Match, DecimalText.Exact, UnitsOfDigits, RoundHalfUp, FormatUnits, LineUnits, Trim;
    if MultiplyMoney(quantity, unitPrice).Ok? {
      var d, e := DecimalText.Match(Trim(quantity)).value, DecimalText.Match(Trim(unitPrice)).value;
      DecimalText.MatchSound(Trim(quantity));
      DecimalText.MatchSound(Trim(unitPrice));
      UnitsAreRounded(d, MONEY_SCALE);
      UnitsAreRounded(e, MONEY_SCALE);
      var exact := (CentsOf(d) * CentsOf(e)) as real / 100.0;
      RoundedHundredths(UnitsOfDigits(d, MONEY_SCALE), UnitsOfDigits(e, MONEY_SCALE), exact);
      RoundHalfUpNearest(exact);
    }
  }

  // ---------------------------------------------------------------- sums

  lemma {:induction false} UnitsOfPrefix(a: seq<Result<nat, Error>>, b: seq<Result<nat, Error>>, n: nat)
    requires n <= |a| && n <= |b| && forall i :: 0 <= i < n ==> a[i] == b[i]
    ensures UnitsTo(a, n) == UnitsTo(b, n)
  {
    if n > 0 {
      UnitsOfPrefix(a, b, n - 1);
    }
  }

  lemma {:induction false} UnitsOfConcat(a: seq<Result<nat, Error>>, b: seq<Result<nat, Error>>, n: nat)
    requires n <= |b| && UnitsTo(a, |a|).Ok? && UnitsTo(b, n).Ok?
    ensures UnitsTo(a + b, |a| + n) == Ok(UnitsTo(a, |a|).value + UnitsTo(b, n).value)
  {
    if n == 0 {
      UnitsOfPrefix(a + b, a, |a|);
    } else {
      UnitsOfConcat(a, b, n - 1);
      assert (a + b)[|a| + n - 1] == b[n - 1];
    }
  }

  lemma {:induction false} SumOfTwo(x: string, y: string, u: nat, v: nat)
    requires ToScaledUnits(x, MONEY_SCALE) == Ok(u) && ToScaledUnits(y, MONEY_SCALE) == Ok(v)
    ensures SumMoney([x, y]) == Ok(FormatUnits(u + v))
  {
    var amounts := MoneyUnits([x, y]);
    assert amounts[0] == Ok(u) && amounts[1] == Ok(v);
    assert UnitsTo(amounts, 1) == Ok(u);
  }

  lemma {:induction false} MoneyUnitsConcat(a: seq<string>, b: seq<string>)
    ensures MoneyUnits(a + b) == MoneyUnits(a) + MoneyUnits(b)
  {
  }

  lemma {:induction false} UnitsOfAll(x: seq<Result<nat, Error>>, y: seq<Result<nat, Error>>, z: seq<Result<nat, Error>>,
                   u: nat, v: nat)
    requires z == x + y && UnitsTo(x, |x|) == Ok(u) && UnitsTo(y, |y|) == Ok(v)
    ensures UnitsTo(z, |z|) == Ok(u + v)
  {
    UnitsOfConcat(x, y, |y|);
  }

  lemma {:induction false} SumIsPrinted(values: seq<string>, amounts: seq<Result<nat, Error>>, units: nat)
    requires amounts == MoneyUnits(values) && UnitsTo(amounts, |amounts|) == Ok(units)
    ensures SumMoney(values) == Ok(FormatUnits(units))
  {
  }

  lemma {:induction false} SumOfAll(a: seq<string>, b: seq<string>, x: seq<Result<nat, Error>>,
                                    y: seq<Result<nat, Error>>, u: nat, v: nat)
    requires x == MoneyUnits(a) && y == MoneyUnits(b)
    requires UnitsTo(x, |x|) == Ok(u) && UnitsTo(y, |y|) == Ok(v)
    ensures SumMoney(a + b) == Ok(FormatUnits(u + v))
  {
    hide *;
    MoneyUnitsConcat(a, b);
    UnitsOfAll(x, y, x + y, u, v);
    SumIsPrinted(a + b, x + y, u + v);
  }

  /** Summing two partial sums is summing everything at once: no rounding is lost between them. */
  lemma {:induction false} SumOfPartialSums(a: seq<string>, b: seq<string>)
    requires SumMoney(a).Ok? && SumMoney(b).Ok?
    ensures SumMoney(a + b) == SumMoney([SumMoney(a).value, SumMoney(b).value])
  {
    var u, v := UnitsTo(MoneyUnits(a), |a|).value, UnitsTo(MoneyUnits(b), |b|).value;
    SumOfAll(a, b, MoneyUnits(a), MoneyUnits(b), u, v);
    ReadsWhatItPrints(u);
    ReadsWhatItPrints(v);
    SumOfTwo(SumMoney(a).value, SumMoney(b).value, u, v);
  }

  // ---------------------------------------------------------------- agreement with the web sums

  /** The values both implementations read alike: unsigned decimals without surrounding space. */
  predicate Plain(values: seq<string>) {
    forall i :: 0 <= i < |values| ==> DecimalText.Match(values[i]).Some?
  }

  predicate CentsOnly(values: seq<string>) {
    && Plain(values)
    && forall i :: 0 <= i < |values| ==> |DecimalText.Match(values[i]).value.fraction| <= MONEY_SCALE
  }

  function Abs(x: real): real {
    if x < 0.0 then -x else x
  }

  lemma {:induction false} PlainAmount(value: string)
    requires DecimalText.Match(value).Some?
    ensures var d := DecimalText.Match(value).value;
            && DecimalText.WellFormed(d) && WebMoney.ExactAmount(value) == DecimalText.Exact(d)
            && ToScaledUnits(value, MONEY_SCALE) == Ok(UnitsOfDigits(d, MONEY_SCALE))
  {
    var d := DecimalText.Match(value).value;
    DecimalText.MatchSound(value);
    ReadsText(d);
    assert IsDigit(d.whole[0]) && value[0] == d.whole[0];
  }

  /** An amount was read within half a unit of the number it stands for, or exactly. */
  ghost predicate Near(amount: Result<nat, Error>, x: real, exact: bool) {
    && amount.Ok?
    && Abs(amount.value as real - Times10(x, MONEY_SCALE)) <= 0.5
    && (exact ==> amount.value as real == Times10(x, MONEY_SCALE))
  }

  lemma {:induction false} SumsStayClose(amounts: seq<Result<nat, Error>>, xs: seq<real>, n: nat, exact: bool)
    requires n <= |amounts| && n <= |xs| && forall i :: 0 <= i < n ==> Near(amounts[i], xs[i], exact)
    ensures UnitsTo(amounts, n).Ok?
    ensures var drift := UnitsTo(amounts, n).value as real - Times10(WebMoney.SumTo(xs, n), MONEY_SCALE);
            && Abs(drift) <= n as real / 2.0
            && (exact ==> drift == 0.0)
  {
    if n == 0 {
      ZeroStaysZero(WebMoney.SumTo(xs, n), 0, MONEY_SCALE);
    } else {
      SumsStayClose(amounts, xs, n - 1, exact);
      assert Near(amounts[n - 1], xs[n - 1], exact);
      Times10Linear(WebMoney.SumTo(xs, n - 1), xs[n - 1], MONEY_SCALE);
    }
  }

  lemma {:induction false} PlainIsNear(value: string, exact: bool)
    requires DecimalText.Match(value).Some?
    requires exact ==> |DecimalText.Match(value).value.fraction| <= MONEY_SCALE
    ensures Near(ToScaledUnits(value, MONEY_SCALE), WebMoney.ExactAmount(value), exact)
  {
    var d := DecimalText.Match(value).value;
    PlainAmount(value);
    UnitsAreRounded(d, MONEY_SCALE);
    RoundHalfUpNearest(Times10(DecimalText.Exact(d), MONEY_SCALE));
    if |d.fraction| <= MONEY_SCALE {
      UnitsAreExact(d, MONEY_SCALE);
    }
  }

  lemma {:induction false} PlainAreNear(values: seq<string>, i: nat)
    requires Plain(values) && i < |values|
    ensures Near(MoneyUnits(values)[i], WebMoney.ExactAmounts(values)[i], CentsOnly(values))
  {
    PlainIsNear(values[i], CentsOnly(values));
  }

  ghost predicate AllNear(amounts: seq<Result<nat, Error>>, xs: seq<real>, exact: bool) {
    |amounts| == |xs| && forall i :: 0 <= i < |xs| ==> Near(amounts[i], xs[i], exact)
  }

  lemma {:induction false} PlainAreAllNear(values: seq<string>)
    requires Plain(values)
    ensures AllNear(MoneyUnits(values), WebMoney.ExactAmounts(values), CentsOnly(values))
  {
    forall i | 0 <= i < |values|
      ensures Near(MoneyUnits(values)[i], WebMoney.ExactAmounts(values)[i], CentsOnly(values))
    {
      PlainAreNear(values, i);
    }
  }

  lemma {:induction false} CloseAfterSumming(amounts: seq<Result<nat, Error>>, xs: seq<real>, exact: bool)
      returns (web: int, shared: nat)
    requires AllNear(amounts, xs, exact)
    ensures UnitsTo(amounts, |amounts|) == Ok(shared)
    ensures web == RoundHalfAway(Times10(WebMoney.SumTo(xs, |xs|), MONEY_SCALE))
    ensures -(|xs| + 1) <= 2 * (web - shared) <= |xs| + 1
    ensures exact ==> web == shared
  {
    SumsStayClose(amounts, xs, |xs|, exact);
    var x := Times10(WebMoney.SumTo(xs, |xs|), MONEY_SCALE);
    web, shared := RoundHalfAway(x), UnitsTo(amounts, |amounts|).value;
    CloseAfterRounding(x, shared, |xs|);
  }

  /** On n unsigned decimals and a currency of two fraction digits, the numbers of cents that the two sums
      print differ by at most (n + 1) / 2, and not at all when no amount has more than two fraction digits. */
  lemma {:induction false} SumsAgree(values: seq<string>)
    requires Plain(values)
    ensures var web := WebMoney.ExactAmount(WebMoney.CurrencySum(values, MONEY_SCALE));
            && SumMoney(values).Ok?
            && var shared := Times10(WebMoney.ExactAmount(SumMoney(values).value), MONEY_SCALE);
               && Abs(web - shared) <= (|values| + 1) as real / 2.0
               && (CentsOnly(values) ==> web == shared)
  {
    PlainAreAllNear(values);
    var web, shared := CloseAfterSumming(MoneyUnits(values), WebMoney.ExactAmounts(values), CentsOnly(values));
    WebMoney.SumReadsBack(values, MONEY_SCALE);
    UnitsReadBack(shared);
  }

  lemma {:induction false} UnitsReadBack(units: nat)
    ensures Times10(WebMoney.ExactAmount(FormatUnits(units)), MONEY_SCALE) == units as real
  {
    hide *;
    PrintedDigitsWellFormed(units);
    DecimalText.MatchIsInverseOfText(FormatUnits(units), PrintedDigits(units));
    PlainAmount(FormatUnits(units));
    UnitsAreExact(PrintedDigits(units), MONEY_SCALE);
  }

  lemma {:induction false} CloseAfterRounding(x: real, shared: nat, n: nat)
    requires Abs(shared as real - x) <= n as real / 2.0
    ensures -(n + 1) <= 2 * (RoundHalfAway(x) - shared) <= n + 1
    ensures shared as real == x ==> RoundHalfAway(x) == shared
  {
  }

  /** Every text the shared code accepts is read alike by both exactly when nothing was trimmed from it
      or it stands for zero: the shared code trims, the dashboard counts what it cannot match as zero. */
  lemma {:induction false} AmountsAreReadAlikeExactlyWhen(value: string, d: DecimalText.Digits)
    requires DecimalText.Match(Trim(value)) == Some(d)
    ensures ToScaledUnits(value, MONEY_SCALE) == Ok(UnitsOfDigits(d, MONEY_SCALE))
    ensures WebMoney.ExactAmount(value) == DecimalText.Exact(d) <==> Trim(value) == value || DecimalText.Exact(d) == 0.0
  {
    hide DecimalText.Exact, UnitsOfDigits;
    DecimalText.MatchSound(Trim(value));
    if Trim(value) == value {
      PlainAmount(value);
    } else {
      TrimmedTextIsNotMatched(value, d);
    }
  }

  lemma {:induction false} TrimmedTextIsNotMatched(value: string, d: DecimalText.Digits)
    requires DecimalText.Match(Trim(value)) == Some(d) && Trim(value) != value
    ensures WebMoney.ExactAmount(value) == 0.0
  {
    DecimalText.MatchSound(Trim(value));
    assert IsDigit(Trim(value)[0]);
    StartsLikeTrimmed(value);
    hide Trim, DecimalText.Exact;
    if DecimalText.Match(value).Some? {
      DecimalText.MatchSound(value);
      PrintedHasNoSpace(DecimalText.Match(value).value);
    }
  }

  lemma {:induction false} StartsLikeTrimmed(value: string)
    requires |Trim(value)| > 0
    ensures |value| > 0 && (value[0] == Trim(value)[0] || IsSpace(value[0]))
  {
  }

  /** A leading space makes them disagree on every amount but zero. */
  lemma {:induction false} SpacedAmountsDisagree(d: DecimalText.Digits)
    requires DecimalText.WellFormed(d)
    ensures ToScaledUnits(" " + DecimalText.Text(d), MONEY_SCALE) == Ok(UnitsOfDigits(d, MONEY_SCALE))
    ensures WebMoney.ExactAmount(" " + DecimalText.Text(d)) == 0.0
    ensures WebMoney.ExactAmount(" " + DecimalText.Text(d)) == DecimalText.Exact(d) <==> DecimalText.Exact(d) == 0.0
  {
    var text := DecimalText.Text(d);
    PrintedHasNoSpace(d);
    assert IsDigit(d.whole[0]) && text[0] == d.whole[0];
    TrimIgnoresLeadingSpace(" " + text, text);
    DecimalText.MatchIsInverseOfText(text, d);
    hide UnitsOfDigits, DecimalText.Exact, Trim, DecimalText.Match;
    AmountsAreReadAlikeExactlyWhen(" " + text, d);
    TrimmedTextIsNotMatched(" " + text, d);
  }

  /** One such input: " 1" is a hundred cents to the shared code and nothing to the dashboard. */
  lemma {:induction false} SpacedOne()
    ensures ToScaledUnits(" 1", MONEY_SCALE) == Ok(100) && WebMoney.ExactAmount(" 1") == 0.0
  {
    var d := DecimalText.Digits([ONE], []);
    assert DecimalText.WellFormed(d) && " " + DecimalText.Text(d) == " 1";
    hide ToScaledUnits, WebMoney.ExactAmount;
    SpacedAmountsDisagree(d);
    OneIsHundredCents(d, MONEY_SCALE);
  }

  lemma {:induction false} OneIsHundredCents(d: DecimalText.Digits, scale: nat)
    requires d == DecimalText.Digits([ONE], []) && scale == MONEY_SCALE
    ensures UnitsOfDigits(d, scale) == 100
  {
    SingleDigit(ONE);
    ShiftByScale(1, scale);
    ValueZeros(scale);
    assert PadEnd([], scale) == Zeros(scale);
  }

  lemma {:induction false} TrimIgnoresLeadingSpace(spaced: string, text: string)
    requires spaced == " " + text && |text| > 0 && !IsSpace(text[0]) && Trim(text) == text
    ensures Trim(spaced) == text
  {
    assert SkipSpace(spaced, 0) == 1;
    assert forall k :: 0 <= k < |text| ==> spaced[k + 1] == text[k];
    var n, m := DropSpace(spaced, 1, |spaced|), DropSpace(text, 0, |text|);
    assert |text[0..m]| == |text|;
    assert !IsSpace(text[|text| - 1]);
    assert spaced[1..|spaced|] == text;
  }
}
