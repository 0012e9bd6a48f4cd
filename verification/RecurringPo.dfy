/** Bounded decimal fields and totals of recurring purchase orders, from
    packages/shared/src/schemas/recurring-po.ts. */
module RecurringPo {
  import opened Wrappers
  import opened Decimals
  import opened Sequences
  import opened Trimming
  import DecimalText
  import SharedMoney

  const MONEY_SCALE: nat := 2
  const QUANTITY_SCALE: nat := 2
  const MAX_TOTAL_UNITS: nat := 99_999_999_999_999
  const MAX_UNIT_PRICE_UNITS: nat := 999_999_999_999
  const MAX_QUANTITY_UNITS: nat := 9_999_999_999

  datatype Line = Line(quantity: string, unitPrice: string)

  datatype Amounts = Amounts(lineTotals: seq<string>, subtotal: string)

  datatype Error = InvalidDecimals | LineOutOfRange | TotalOutOfRange

  /** The exact units of an unsigned decimal, or nothing when it needs more than `scale` digits. */
  function DecimalUnits(value: string, scale: nat): Option<nat> {
    match DecimalText.Match(value)
    case None => None
    case Some(d) =>
      if |d.fraction| > scale then None
      else
        DecimalText.MatchSound(value);
        SharedMoney.UnitsNonNegative(d, scale);
        Some(SharedMoney.UnitsOfDigits(d, scale))
  }

  /** What a decimal field accepts, and the text it is replaced by. */
  function DecimalField(value: string, maxUnits: nat, requirePositive: bool): Option<string> {
    match DecimalUnits(Trim(value), MONEY_SCALE)
    case None => None
    case Some(units) =>
      if units > maxUnits || (requirePositive && units == 0) then None else Some(SharedMoney.FormatUnits(units))
  }

  /** A decimal that needs no rounding is read alike by both BigInt codecs, and exactly. */
  lemma {:induction false} ExactDecimal(value: string)
    requires DecimalUnits(value, MONEY_SCALE).Some?
    ensures SharedMoney.ToScaledUnits(value, MONEY_SCALE) == Ok(DecimalUnits(value, MONEY_SCALE).value)
    ensures DecimalUnits(value, MONEY_SCALE).value as real
         == Times10(DecimalText.Exact(DecimalText.Match(value).value), MONEY_SCALE)
  {
    hide SharedMoney.UnitsOfDigits, DecimalText.Exact, DecimalText.Match, Trim;
    var d := DecimalText.Match(value).value;
    DecimalText.MatchSound(value);
    SharedMoney.PrintedHasNoSpace(d);
    SharedMoney.UnitsAreExact(d, MONEY_SCALE);
  }

  lemma {:induction false} PrintedUnits(units: nat)
    ensures DecimalUnits(SharedMoney.FormatUnits(units), MONEY_SCALE) == Some(units)
    ensures Trim(SharedMoney.FormatUnits(units)) == SharedMoney.FormatUnits(units)
  {
    hide SharedMoney.UnitsOfDigits, DecimalText.Match, Trim, SharedMoney.FormatUnits;
    var d := SharedMoney.PrintedDigits(units);
    SharedMoney.PrintedDigitsWellFormed(units);
    DecimalText.MatchIsInverseOfText(SharedMoney.FormatUnits(units), d);
    SharedMoney.PrintedHasNoSpace(d);
  }

  /** Accepted fields are stored in one normal form, which the field accepts again unchanged. */
  lemma {:induction false} FieldIsNormalizing(value: string, maxUnits: nat, requirePositive: bool)
    ensures var r := DecimalField(value, maxUnits, requirePositive);
            r.Some? ==> DecimalField(r.value, maxUnits, requirePositive) == r
  {
    hide Trim, SharedMoney.FormatUnits, DecimalUnits;
    var units := DecimalUnits(Trim(value), MONEY_SCALE);
    if units.Some? {
      PrintedUnits(units.value);
    }
  }

  /** A field is accepted exactly for decimals with at most two fraction digits, at most the given number
      of hundredths, and positive where that is asked for. */
  lemma {:induction false} FieldAccepts(value: string, maxUnits: nat, requirePositive: bool)
    ensures DecimalField(value, maxUnits, requirePositive).Some?
       <==> match DecimalText.Match(Trim(value))
            case None => false
            case Some(d) => |d.fraction| <= MONEY_SCALE && DecimalText.Exact(d) * 100.0 <= maxUnits as real
                            && (requirePositive ==> DecimalText.Exact(d) > 0.0)
  {
    hide Trim, SharedMoney.FormatUnits, DecimalText.Match, DecimalText.Exact;
    var text := Trim(value);
    if DecimalUnits(text, MONEY_SCALE).Some? {
      ExactDecimal(text);
      TwoPlaces(DecimalText.Exact(DecimalText.Match(text).value), MONEY_SCALE);
    }
  }

  lemma {:induction false} TwoPlaces(x: real, n: nat)
    requires n == MONEY_SCALE
    ensures Times10(x, n) == 100.0 * x
  {
    assert Times10(x, n) == 10.0 * Times10(x, n - 1) && Times10(x, n - 1) == 10.0 * Times10(x, n - 2);
  }

  // ---------------------------------------------------------------- line totals

  predicate ValidLine(line: Line) {
    DecimalUnits(line.quantity, QUANTITY_SCALE).Some? && DecimalUnits(line.unitPrice, MONEY_SCALE).Some?
  }

  /** The line's total in cents, rounded half up; zero for a line that is not valid. */
  function LineUnits(line: Line): nat {
    if ValidLine(line)
    then SharedMoney.LineUnits(DecimalUnits(line.quantity, QUANTITY_SCALE).value,
                               DecimalUnits(line.unitPrice, MONEY_SCALE).value)
    else 0
  }

  /** The line the schema makes of a quantity and a unit price. */
  function LineFields(quantity: string, unitPrice: string): Option<Line> {
    match (DecimalField(quantity, MAX_QUANTITY_UNITS, true), DecimalField(unitPrice, MAX_UNIT_PRICE_UNITS, false))
    case (Some(q), Some(p)) => Some(Line(q, p))
    case _ => None
  }

  /** A line from the schema has a positive quantity and a price in range, and can always be calculated:
      only its size can still be a fault. */
  lemma {:induction false} SchemaLineIsValid(quantity: string, unitPrice: string)
    requires LineFields(quantity, unitPrice).Some?
    ensures var line := LineFields(quantity, unitPrice).value;
            && ValidLine(line)
            && 0 < DecimalUnits(line.quantity, QUANTITY_SCALE).value <= MAX_QUANTITY_UNITS
            && DecimalUnits(line.unitPrice, MONEY_SCALE).value <= MAX_UNIT_PRICE_UNITS
    ensures var line := LineFields(quantity, unitPrice).value;
            Fault([line], 0) == if LineUnits(line) > MAX_TOTAL_UNITS then Some(LineOutOfRange) else None
  {
    hide DecimalUnits, SharedMoney.FormatUnits, SharedMoney.LineUnits, Trim;
    var q, p := DecimalUnits(Trim(quantity), MONEY_SCALE).value, DecimalUnits(Trim(unitPrice), MONEY_SCALE).value;
    PrintedUnits(q);
    PrintedUnits(p);
    var line := LineFields(quantity, unitPrice).value;
    assert TotalTo([line], 1) == TotalTo([line], 0) + LineUnits(line);
  }

  function LineCents(line: Line): int {
    LineUnits(line)
  }

  lemma {:induction false} TotalIsNonNegative(lines: seq<Line>, n: nat)
    requires n <= |lines|
    ensures SumBy(LineCents, lines, n) >= 0
  {
    hide LineUnits;
    if n > 0 {
      TotalIsNonNegative(lines, n - 1);
    }
  }

  function TotalTo(lines: seq<Line>, n: nat): nat
    requires n <= |lines|
  {
    TotalIsNonNegative(lines, n);
    SumBy(LineCents, lines, n)
  }

  function Total(lines: seq<Line>): nat {
    TotalTo(lines, |lines|)
  }

  lemma {:induction false} TotalGrows(lines: seq<Line>, n: nat, m: nat)
    requires n <= m <= |lines|
    ensures TotalTo(lines, n) <= TotalTo(lines, m)
  {
    if n < m {
      TotalGrows(lines, n, m - 1);
    }
  }

  /** The reason line k stops the calculation, when every line before it went through. */
  function Fault(lines: seq<Line>, k: nat): Option<Error>
    requires k < |lines|
  {
    if !ValidLine(lines[k]) then Some(InvalidDecimals)
    else if LineUnits(lines[k]) > MAX_TOTAL_UNITS then Some(LineOutOfRange)
    else if TotalTo(lines, k + 1) > MAX_TOTAL_UNITS then Some(TotalOutOfRange)
    else None
  }

  /** Rounds each line to cents, then adds; stops at the first line that cannot be used. */
  method CalculateRecurringPoAmounts(lines: seq<Line>) returns (r: Result<Amounts, Error>)
    ensures r.Ok? <==> (forall k :: 0 <= k < |lines| ==> ValidLine(lines[k])) && Total(lines) <= MAX_TOTAL_UNITS
    ensures r.Ok? ==> r.value.subtotal == SharedMoney.FormatUnits(Total(lines)) && |r.value.lineTotals| == |lines|
    ensures r.Ok? ==> forall k :: 0 <= k < |lines| ==>
                        r.value.lineTotals[k] == SharedMoney.FormatUnits(LineUnits(lines[k]))
    ensures r.Err? ==> exists k :: 0 <= k < |lines| && Fault(lines, k) == Some(r.error)
                                 && forall j :: 0 <= j < k ==> Fault(lines, j) == None
  {
    hide SharedMoney.FormatUnits, DecimalUnits, SharedMoney.LineUnits;
    var subtotalUnits: nat := 0;
    var lineTotals := [];
    for i := 0 to |lines|
      invariant subtotalUnits == TotalTo(lines, i) && subtotalUnits <= MAX_TOTAL_UNITS && |lineTotals| == i
      invariant forall k :: 0 <= k < i ==> ValidLine(lines[k]) && Fault(lines, k) == None
      invariant forall k :: 0 <= k < i ==> lineTotals[k] == SharedMoney.FormatUnits(LineUnits(lines[k]))
    {
      var quantityUnits := DecimalUnits(lines[i].quantity, QUANTITY_SCALE);
      var unitPriceUnits := DecimalUnits(lines[i].unitPrice, MONEY_SCALE);
      if quantityUnits.None? || unitPriceUnits.None? {
        assert Fault(lines, i) == Some(InvalidDecimals);
        return Err(InvalidDecimals);
      }
      var lineTotalUnits := SharedMoney.LineUnits(quantityUnits.value, unitPriceUnits.value);
      TotalGrows(lines, i + 1, |lines|);
      if lineTotalUnits > MAX_TOTAL_UNITS {
        assert Fault(lines, i) == Some(LineOutOfRange);
        return Err(LineOutOfRange);
      }
      subtotalUnits := subtotalUnits + lineTotalUnits;
      if subtotalUnits > MAX_TOTAL_UNITS {
        assert Fault(lines, i) == Some(TotalOutOfRange);
        return Err(TotalOutOfRange);
      }
      lineTotals := lineTotals + [SharedMoney.FormatUnits(lineTotalUnits)];
    }
    r := Ok(Amounts(lineTotals, SharedMoney.FormatUnits(subtotalUnits)));
  }

  // ---------------------------------------------------------------- laws

  lemma {:induction false} TotalOfInsert(before: seq<Line>, x: Line, after: seq<Line>)
    ensures Total(before + [x] + after) == Total(before + after) + LineUnits(x)
  {
    hide LineUnits;
    SumByConcat(LineCents, before + [x], after, |after|);
    SumByConcat(LineCents, before, [x], 1);
    SumByConcat(LineCents, before, after, |after|);
    assert SumBy(LineCents, [x], 1) == SumBy(LineCents, [x], 0) + LineUnits(x);
  }

  /** The order of the lines changes neither the total nor, therefore, whether it is in range. */
  lemma {:induction false} OrderIndependent(a: seq<Line>, b: seq<Line>)
    requires multiset(a) == multiset(b)
    ensures Total(a) == Total(b)
    ensures (forall k :: 0 <= k < |a| ==> ValidLine(a[k])) <==> (forall k :: 0 <= k < |b| ==> ValidLine(b[k]))
  {
    hide LineUnits, ValidLine;
    if |a| == 0 {
      assert |multiset(b)| == |b|;
    } else {
      var init, x := a[..|a| - 1], a[|a| - 1];
      assert a == init + [x];
      var before, after := TakeOut(b, init, x);
      OrderIndependent(init, before + after);
      TotalOfInsert(before, x, after);
      TotalOfInsert(init, x, []);
      assert init + [x] + [] == a && init + [] == init;
      SameMembers(a, b);
    }
  }

  lemma {:induction false} SameMembers(a: seq<Line>, b: seq<Line>)
    requires multiset(a) == multiset(b)
    ensures (forall k :: 0 <= k < |a| ==> ValidLine(a[k])) <==> (forall k :: 0 <= k < |b| ==> ValidLine(b[k]))
  {
    hide ValidLine;
    assert forall k :: 0 <= k < |a| ==> a[k] in multiset(b);
    assert forall k :: 0 <= k < |b| ==> b[k] in multiset(a);
  }

  /** Each line total is what multiplyMoney gives for the same quantity and price. */
  lemma {:induction false} LineIsMultiplyMoney(line: Line)
    requires ValidLine(line)
    ensures SharedMoney.MultiplyMoney(line.quantity, line.unitPrice) == Ok(SharedMoney.FormatUnits(LineUnits(line)))
  {
    hide DecimalUnits, SharedMoney.ToScaledUnits, SharedMoney.LineUnits, SharedMoney.FormatUnits;
    ExactDecimal(line.quantity);
    ExactDecimal(line.unitPrice);
  }

  lemma {:induction false} SubtotalUnits(lines: seq<Line>, amounts: seq<Result<nat, SharedMoney.Error>>, n: nat)
    requires n <= |lines| && |amounts| == |lines|
    requires forall k :: 0 <= k < n ==> amounts[k] == Ok(LineUnits(lines[k]))
    ensures SharedMoney.UnitsTo(amounts, n) == Ok(TotalTo(lines, n))
  {
    hide LineUnits;
    if n > 0 {
      SubtotalUnits(lines, amounts, n - 1);
    }
  }

  /** The subtotal is what sumMoney gives for the printed line totals: printing loses nothing. */
  lemma {:induction false} SubtotalIsSumMoney(lines: seq<Line>, lineTotals: seq<string>)
    requires |lineTotals| == |lines|
    requires forall k :: 0 <= k < |lines| ==> lineTotals[k] == SharedMoney.FormatUnits(LineUnits(lines[k]))
    ensures SharedMoney.SumMoney(lineTotals) == Ok(SharedMoney.FormatUnits(Total(lines)))
  {
    hide LineUnits, SharedMoney.FormatUnits, SharedMoney.ToScaledUnits;
    forall k | 0 <= k < |lines|
      ensures SharedMoney.MoneyUnits(lineTotals)[k] == Ok(LineUnits(lines[k]))
    {
      SharedMoney.ReadsWhatItPrints(LineUnits(lines[k]));
    }
    SubtotalUnits(lines, SharedMoney.MoneyUnits(lineTotals), |lines|);
  }

  // ---------------------------------------------------------------- the cross-field check

  datatype Issue = LinesOutOfRange | TotalMismatch

  /** The check that a stated total equals the lines' subtotal; absent fields are not checked. */
  method TotalMatchesLines(totalAmount: Option<string>, lines: Option<seq<Line>>) returns (issue: Option<Issue>)
    ensures lines.None? ==> issue == None
    ensures lines.Some? ==> (issue == Some(LinesOutOfRange) <==>
              !((forall k :: 0 <= k < |lines.value| ==> ValidLine(lines.value[k])) && Total(lines.value) <= MAX_TOTAL_UNITS))
    ensures lines.Some? && issue != Some(LinesOutOfRange) ==>
              (issue == None <==> totalAmount.None? || totalAmount.value == SharedMoney.FormatUnits(Total(lines.value)))
  {
    if lines.None? {
      return None;
    }
    hide SharedMoney.FormatUnits, ValidLine, Total;
    var amounts := CalculateRecurringPoAmounts(lines.value);
    if amounts.Err? {
      return Some(LinesOutOfRange);
    }
    if totalAmount.None? || totalAmount.value == amounts.value.subtotal {
      return None;
    }
    return Some(TotalMismatch);
  }

  /** On a total that the schema has put into normal form, comparing texts compares amounts. */
  lemma {:induction false} MatchingTextIsMatchingAmount(value: string, total: nat)
    requires DecimalField(value, MAX_TOTAL_UNITS, false).Some?
    ensures DecimalField(value, MAX_TOTAL_UNITS, false).value == SharedMoney.FormatUnits(total)
       <==> DecimalUnits(Trim(value), MONEY_SCALE) == Some(total)
  {
    hide SharedMoney.FormatUnits, DecimalUnits, Trim;
    PrintedUnits(DecimalUnits(Trim(value), MONEY_SCALE).value);
    PrintedUnits(total);
  }
}
