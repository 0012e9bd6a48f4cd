/** BigInt money arithmetic of packages/shared/src/money.ts, on decimal strings. */
module SharedMoney {
  import opened Wrappers
  import opened Decimals
  import opened Trimming
  import DecimalText

  const MONEY_SCALE: nat := 2

  datatype Error = InvalidDecimal(text: string)

  // ---------------------------------------------------------------- reading and printing units

  function PadEnd(s: string, length: nat): (r: string)
    requires |s| <= length
    ensures |r| == length
  {
    s + Zeros(length - |s|)
  }

  /** Reads digits at a fixed scale, rounding up by one unit when the first dropped digit is 5 or more. */
  function UnitsOfDigits(d: DecimalText.Digits, scale: nat): int {
    var kept := PadEnd(if |d.fraction| <= scale then d.fraction else d.fraction[..scale], scale);
    Shift(Value(d.whole), scale) + Value(kept)
    + if |d.fraction| > scale && d.fraction[scale] >= '5' then 1 else 0
  }

  function ToScaledUnits(value: string, scale: nat): Result<nat, Error> {
    var text := Trim(value);
    match DecimalText.Match(text)
    case None => Err(InvalidDecimal(text))
    case Some(d) =>
      DecimalText.MatchSound(text);
      UnitsNonNegative(d, scale);
      Ok(UnitsOfDigits(d, scale))
  }

  /** Reading rounds the exact number once, half up. */
  lemma {:induction false} UnitsAreRounded(d: DecimalText.Digits, scale: nat)
    requires DecimalText.WellFormed(d)
    ensures UnitsOfDigits(d, scale) == RoundHalfUp(Times10(DecimalText.Exact(d), scale))
  {
    var f := |d.fraction|;
    if f <= scale {
      UnitsAreExact(d, scale);
      RoundHalfUpUnique(UnitsOfDigits(d, scale) as real, UnitsOfDigits(d, scale));
    } else {
      var kept, dropped := d.fraction[..scale], d.fraction[scale..];
      assert kept + Zeros(scale - |kept|) == kept;
      assert d.whole + d.fraction == (d.whole + kept) + dropped;
      ValueConcat(d.whole, kept);
      RoundByFirstDropped(d.whole + kept, dropped, f - scale);
      PointMovedBack(Value(d.whole + d.fraction) as real, f - scale, scale, f);
    }
  }

  lemma {:induction false} UnitsAreExact(d: DecimalText.Digits, scale: nat)
    requires |d.fraction| <= scale
    ensures UnitsOfDigits(d, scale) as real == Times10(DecimalText.Exact(d), scale)
  {
    var n := scale - |d.fraction|;
    DecimalText.ExactScaled(d, scale);
    ValuePadding(d.whole + d.fraction, n);
    assert d.whole + d.fraction + Zeros(n) == d.whole + PadEnd(d.fraction, scale);
    ValueConcat(d.whole, PadEnd(d.fraction, scale));
  }

  lemma {:induction false} ScaledNonNegative(x: real, n: nat)
    requires x >= 0.0
    ensures Times10(x, n) >= 0.0
  {
    if n > 0 {
      ScaledNonNegative(x, n - 1);
    }
  }

  lemma {:induction false} UnitsNonNegative(d: DecimalText.Digits, scale: nat)
    requires DecimalText.WellFormed(d)
    ensures UnitsOfDigits(d, scale) >= 0
  {
    DecimalText.ExactIsNonNegative(d);
    ScaledNonNegative(DecimalText.Exact(d), scale);
    UnitsAreRounded(d, scale);
  }

  /** Prints a number of hundredths. */
  function FormatUnits(units: nat): string {
    Print(units / 100) + "." + PadStart(Print(units % 100), MONEY_SCALE)
  }

  lemma {:induction false} CentDigits(cents: nat)
    requires cents < 100
    ensures var s := PadStart(Print(cents), MONEY_SCALE);
            |s| == MONEY_SCALE && AllDigits(s) && Value(s) == cents
  {
    PrintIsCanonical(cents);
    if cents >= 10 {
      assert |Print(cents / 10)| == 1;
    }
  }

  lemma {:induction false} ShiftByScale(x: int, n: nat)
    requires n == MONEY_SCALE
    ensures Shift(x, n) == 100 * x
  {
    assert Shift(x, n) == 10 * Shift(x, n - 1);
    assert Shift(x, n - 1) == 10 * Shift(x, n - 2);
  }

  /** The digits that a printed amount consists of. */
  function PrintedDigits(units: nat): DecimalText.Digits {
    DecimalText.Digits(Print(units / 100), PadStart(Print(units % 100), MONEY_SCALE))
  }

  lemma {:induction false} PrintedDigitsWellFormed(units: nat)
    ensures var d := PrintedDigits(units);
            && DecimalText.WellFormed(d) && |d.fraction| == MONEY_SCALE
            && FormatUnits(units) == DecimalText.Text(d)
            && UnitsOfDigits(d, MONEY_SCALE) == units
  {
    var d := PrintedDigits(units);
    PrintIsCanonical(units / 100);
    CentDigits(units % 100);
    ShiftByScale(units / 100, MONEY_SCALE);
    assert PadEnd(d.fraction, MONEY_SCALE) == d.fraction;
    assert FormatUnits(units) == d.whole + ("." + d.fraction);
  }

  /** Reading what was printed gives the units back, for every amount. */
  lemma {:induction false} ReadsWhatItPrints(units: nat)
    ensures ToScaledUnits(FormatUnits(units), MONEY_SCALE) == Ok(units)
  {
    PrintedDigitsWellFormed(units);
    PrintedHasNoSpace(PrintedDigits(units));
    DecimalText.MatchIsInverseOfText(FormatUnits(units), PrintedDigits(units));
  }

  lemma {:induction false} PrintedHasNoSpace(d: DecimalText.Digits)
    requires DecimalText.WellFormed(d)
    ensures Trim(DecimalText.Text(d)) == DecimalText.Text(d)
  {
  }

  // ---------------------------------------------------------------- the exported operations

  function NormalizeMoney(value: string): Result<string, Error> {
    match ToScaledUnits(value, MONEY_SCALE)
    case Err(e) => Err(e)
    case Ok(units) => Ok(FormatUnits(units))
  }

  function LineUnits(quantityUnits: nat, unitPriceUnits: nat): nat {
    ProductNonNegative(quantityUnits, unitPriceUnits);
    (quantityUnits * unitPriceUnits + 50) / 100
  }

  lemma {:induction false} ProductNonNegative(x: nat, y: nat)
    ensures x * y >= 0
  {
  }

  function MultiplyMoney(quantity: string, unitPrice: string): Result<string, Error> {
    var quantityUnits, unitPriceUnits := ToScaledUnits(quantity, MONEY_SCALE), ToScaledUnits(unitPrice, MONEY_SCALE);
    if quantityUnits.Err? then Err(quantityUnits.error)
    else if unitPriceUnits.Err? then Err(unitPriceUnits.error)
    else Ok(FormatUnits(LineUnits(quantityUnits.value, unitPriceUnits.value)))
  }

  /** The sum of the first n amounts read, or the first error among them. */
  function UnitsTo(amounts: seq<Result<nat, Error>>, n: nat): Result<nat, Error>
    requires n <= |amounts|
  {
    if n == 0 then Ok(0)
    else
      var sum, amount := UnitsTo(amounts, n - 1), amounts[n - 1];
      if sum.Err? then sum else if amount.Err? then amount else Ok(sum.value + amount.value)
  }

  function MoneyUnits(values: seq<string>): seq<Result<nat, Error>> {
    seq(|values|, i requires 0 <= i < |values| => ToScaledUnits(values[i], MONEY_SCALE))
  }

  function SumMoney(values: seq<string>): Result<string, Error> {
    match UnitsTo(MoneyUnits(values), |values|)
    case Err(e) => Err(e)
    case Ok(units) => Ok(FormatUnits(units))
  }
}
