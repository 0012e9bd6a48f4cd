/** Digit-string money arithmetic of apps/web/src/lib/money.ts. */
module WebMoney {
  import opened Wrappers
  import opened Decimals
  import DecimalText

  datatype SignedInteger = SignedInteger(negative: bool, digits: string)

  datatype DecimalAmount = DecimalAmount(amount: SignedInteger, scale: nat)

  // ---------------------------------------------------------------- signed integers

  /** A normalised signed integer: canonical digits and no negative zero. */
  predicate Normalized(x: SignedInteger) {
    Canonical(x.digits) && (x.negative ==> x.digits != [ZERO])
  }

  function ToInt(x: SignedInteger): int {
    Signed(x.negative, Value(x.digits))
  }

  function FromInt(n: int): SignedInteger {
    if n < 0 then SignedInteger(true, Print(-n)) else SignedInteger(false, Print(n))
  }

  function PrintSigned(n: int): string {
    if n < 0 then "-" + Print(-n) else Print(n)
  }

  lemma {:induction false} NormalizedIsFromInt(x: SignedInteger)
    requires Normalized(x)
    ensures x == FromInt(ToInt(x))
  {
    CanonicalIsPrint(x.digits);
    PrintIsCanonical(Value(x.digits));
    assert Print(0) == [ZERO];
  }

  function TrimLeadingZeroes(value: string): (r: string)
    ensures Value(r) == Value(value)
    ensures AllDigits(value) ==> AllDigits(r)
    ensures AllDigits(value) && |value| > 0 ==> Canonical(r)
  {
    if |value| >= 2 && value[0] == ZERO && IsDigit(value[1]) then
      assert value == Zeros(1) + value[1..];
      ValuePadding(value[1..], 1);
      TrimLeadingZeroes(value[1..])
    else
      value
  }

  lemma {:induction false} ZeroString()
    ensures Value([ZERO]) == 0 && Canonical([ZERO])
  {
    ValueZeros(1);
    assert Zeros(1) == [ZERO];
  }

  /** Trimmed digits, where no digits at all become [ZERO]. */
  function TrimmedOrZero(value: string): (r: string)
    requires AllDigits(value)
    ensures Canonical(r) && Value(r) == Value(value)
  {
    ZeroString();
    var trimmed := TrimLeadingZeroes(value);
    if |trimmed| == 0 then [ZERO] else trimmed
  }

  function NormalizedInteger(negative: bool, digits: string): (r: SignedInteger)
    requires AllDigits(digits)
    ensures Normalized(r) && ToInt(r) == Signed(negative, Value(digits))
  {
    ZeroString();
    var normalizedDigits := TrimmedOrZero(digits);
    SignedInteger(negative && normalizedDigits != [ZERO], normalizedDigits)
  }

  // ---------------------------------------------------------------- digit-string loops

  function Reverse(s: string): (r: string)
    ensures |r| == |s|
    ensures AllDigits(s) ==> AllDigits(r)
  {
    if |s| == 0 then s else [s[|s| - 1]] + Reverse(s[..|s| - 1])
  }

  /** The k-th digit from the end; zero beyond the first digit. */
  function DigitFromEnd(s: string, k: nat): int {
    if k < |s| then DigitValue(s[|s| - 1 - k]) else 0
  }

  /** The number written by the last k digits. */
  function LowValue(s: string, k: nat): int {
    if k == 0 then 0 else LowValue(s, k - 1) + Shift(DigitFromEnd(s, k - 1), k - 1)
  }

  lemma {:induction false} LowValueIsSuffix(s: string, k: nat)
    requires k <= |s|
    ensures LowValue(s, k) == Value(s[|s| - k..])
  {
    if k > 0 {
      LowValueIsSuffix(s, k - 1);
      var tail := s[|s| - (k - 1)..];
      assert s[|s| - k..] == [s[|s| - k]] + tail;
      LeadingDigit(s[|s| - k], tail);
    }
  }

  lemma {:induction false} LowValueIsValue(s: string, k: nat)
    requires k >= |s|
    ensures LowValue(s, k) == Value(s)
  {
    if k == |s| {
      LowValueIsSuffix(s, k);
      assert s[|s| - k..] == s;
    } else {
      LowValueIsValue(s, k - 1);
      ShiftLinear(0, 0, k - 1);
    }
  }

  lemma {:induction false} ReversePush(digits: string, c: char)
    ensures Value(Reverse(digits + [c])) == Shift(DigitValue(c), |digits|) + Value(Reverse(digits))
  {
    assert (digits + [c])[..|digits|] == digits;
    LeadingDigit(c, Reverse(digits));
  }

  /** Raising digit `index` of `value` by one and zeroing what follows shifts the raised prefix. */
  lemma {:induction false} RaisedDigit(value: string, r: string, index: nat)
    requires |r| == |value| && index < |value| && AllDigits(value) && value[index] != NINE
    requires forall j :: 0 <= j < index ==> r[j] == value[j]
    requires r[index] as int == value[index] as int + 1
    requires forall j :: index < j < |r| ==> r[j] == ZERO
    ensures AllDigits(r)
    ensures Value(r) == Shift(Prefix(value, index + 1) + 1, |value| - index - 1)
  {
    assert IsDigit(value[index]);
    PrefixSame(value, r, index);
    ZeroTail(r, index + 1, |r|);
  }

  lemma {:induction false} CarriedOut(r: string, carry: int, n: nat)
    requires |r| == n + 1 && r[0] == ONE && carry == 1
    requires forall j :: 1 <= j < |r| ==> r[j] == ZERO
    ensures AllDigits(r) && Value(r) == Shift(carry, n)
  {
    ZeroTail(r, 1, |r|);
    assert Prefix(r, 1) == 10 * Prefix(r, 0) + DigitValue(r[0]);
  }

  lemma {:induction false} NothingCarried(value: string, n: nat, done: nat)
    requires n == |value| && done == 0
    ensures Value(value) + 1 == Shift(Prefix(value, n) + 1, done)
  {
  }

  lemma {:induction false} CarryPastNine(value: string, index: nat, done: nat)
    requires index < |value| && value[index] == NINE
    ensures Shift(Prefix(value, index + 1) + 1, done) == Shift(Prefix(value, index) + 1, done + 1)
  {
    ShiftLinear(Prefix(value, index) + 1, 0, done);
  }

  /** Adds one to a digit string of any length, in place on its split digits. */
  method Increment(value: string) returns (r: string)
    requires AllDigits(value)
    ensures AllDigits(r) && Value(r) == Value(value) + 1
  {
    var digits := new char[|value|](i requires 0 <= i < |value| => value[i]);
    var index := digits.Length - 1;
    NothingCarried(value, index + 1, |value| - index - 1);
    while index >= 0
      invariant -1 <= index < digits.Length
      invariant forall j :: 0 <= j <= index ==> digits[j] == value[j]
      invariant forall j :: index < j < digits.Length ==> digits[j] == ZERO
      invariant Value(value) + 1 == Shift(Prefix(value, index + 1) + 1, |value| - index - 1)
    {
      var digit := digits[index];
      assert IsDigit(value[index]);
      if digit != NINE {
        digits[index] := DigitChar(DigitValue(digit) + 1);
        r := digits[..];
        assert Value(r) == Value(value) + 1 && AllDigits(r) by {
          RaisedDigit(value, r, index);
        }
        return;
      }
      digits[index] := ZERO;
      CarryPastNine(value, index, |value| - index - 1);
      index := index - 1;
    }
    r := [ONE] + digits[..];
    CarriedOut(r, Prefix(value, 0) + 1, |value|);
  }

  function Signed(minus: bool, n: int): int {
    if minus then -n else n
  }

  /** The columns written so far, with the pending carry (negative for a borrow), make up the sum or
      difference of the last columns of `left` and `right`. */
  predicate Written(digits: string, carry: int, left: string, right: string, minus: bool) {
    && AllDigits(digits)
    && Value(Reverse(digits)) + Shift(carry, |digits|)
       == LowValue(left, |digits|) + Signed(minus, LowValue(right, |digits|))
  }

  /** Writing one more column, as a digit and ten of the next carry. */
  lemma {:induction false} WriteColumn(digits: string, carry: int, left: string, right: string, minus: bool, digit: nat, carry': int)
    requires Written(digits, carry, left, right, minus) && digit < 10
    requires DigitFromEnd(left, |digits|) + Signed(minus, DigitFromEnd(right, |digits|)) + carry == digit + 10 * carry'
    ensures Written(digits + [DigitChar(digit)], carry', left, right, minus)
  {
    var k, l, r := |digits|, DigitFromEnd(left, |digits|), DigitFromEnd(right, |digits|);
    ReversePush(digits, DigitChar(digit));
    ShiftColumn(l, Signed(minus, r), carry, digit, carry', k);
    ShiftLinear(r, 0, k);
  }

  lemma {:induction false} AddColumn(digits: string, carry: int, left: string, right: string)
    requires AllDigits(left) && AllDigits(right) && 0 <= carry <= 1
    requires Written(digits, carry, left, right, false)
    ensures var sum := DigitFromEnd(left, |digits|) + DigitFromEnd(right, |digits|) + carry;
            0 <= sum <= 19 && Written(digits + [DigitChar(sum % 10)], sum / 10, left, right, false)
  {
    var sum := DigitFromEnd(left, |digits|) + DigitFromEnd(right, |digits|) + carry;
    WriteColumn(digits, carry, left, right, false, sum % 10, sum / 10);
  }

  method AddIntegerStrings(left: string, right: string) returns (r: string)
    requires AllDigits(left) && AllDigits(right)
    ensures AllDigits(r) && Value(r) == Value(left) + Value(right)
  {
    var digits := left[..0];
    var carry := 0;
    var leftIndex, rightIndex := |left| - 1, |right| - 1;
    while leftIndex >= 0 || rightIndex >= 0 || carry > 0
      invariant leftIndex == |left| - 1 - |digits| && rightIndex == |right| - 1 - |digits|
      invariant 0 <= carry <= 1
      invariant Written(digits, carry, left, right, false)
      decreases if leftIndex < 0 && rightIndex < 0 then 0
                else if leftIndex < rightIndex then rightIndex + 1 else leftIndex + 1, carry
    {
      AddColumn(digits, carry, left, right);
      var leftDigit := if leftIndex >= 0 then DigitValue(left[leftIndex]) else 0;
      var rightDigit := if rightIndex >= 0 then DigitValue(right[rightIndex]) else 0;
      var sum := leftDigit + rightDigit + carry;
      digits := digits + [DigitChar(sum % 10)];
      carry := sum / 10;
      leftIndex, rightIndex := leftIndex - 1, rightIndex - 1;
    }
    r := Reverse(digits);
    ShiftLinear(0, 0, |digits|);
    LowValueIsValue(left, |digits|);
    LowValueIsValue(right, |digits|);
  }

  lemma {:induction false} SubtractColumn(digits: string, borrow: int, left: string, right: string)
    requires AllDigits(left) && AllDigits(right) && 0 <= borrow <= 1 && |digits| < |left|
    requires Written(digits, -borrow, left, right, true)
    ensures var difference := DigitFromEnd(left, |digits|) - borrow - DigitFromEnd(right, |digits|);
            && -10 <= difference <= 9
            && (difference < 0 ==> Written(digits + [DigitChar(difference + 10)], -1, left, right, true))
            && (difference >= 0 ==> Written(digits + [DigitChar(difference)], 0, left, right, true))
  {
    var difference := DigitFromEnd(left, |digits|) - borrow - DigitFromEnd(right, |digits|);
    assert IsDigit(left[|left| - 1 - |digits|]);
    if difference < 0 {
      WriteColumn(digits, -borrow, left, right, true, difference + 10, -1);
    } else {
      WriteColumn(digits, -borrow, left, right, true, difference, 0);
    }
  }

  /** Subtracts column by column over the columns of `left`; a borrow out of the first column is
      dropped, which cannot happen when `right` is not the larger. */
  method SubtractIntegerStrings(left: string, right: string) returns (r: string)
    requires AllDigits(left) && AllDigits(right)
    ensures Canonical(r)
    ensures Value(right) <= Value(left) ==> Value(r) == Value(left) - Value(right)
  {
    var digits := left[..0];
    var borrow := 0;
    var leftIndex, rightIndex := |left| - 1, |right| - 1;
    while leftIndex >= 0
      invariant -1 <= leftIndex
      invariant leftIndex == |left| - 1 - |digits| && rightIndex == |right| - 1 - |digits|
      invariant 0 <= borrow <= 1
      invariant Written(digits, -borrow, left, right, true)
    {
      SubtractColumn(digits, borrow, left, right);
      var difference := DigitValue(left[leftIndex]) - borrow
                        - if rightIndex >= 0 then DigitValue(right[rightIndex]) else 0;
      if difference < 0 {
        difference := difference + 10;
        borrow := 1;
      } else {
        borrow := 0;
      }
      digits := digits + [DigitChar(difference)];
      leftIndex, rightIndex := leftIndex - 1, rightIndex - 1;
    }
    r := TrimmedOrZero(Reverse(digits));
    NoBorrowLeft(left, right, digits, borrow);
  }

  lemma {:induction false} NoBorrowLeft(left: string, right: string, digits: string, borrow: int)
    requires borrow >= 0
    requires AllDigits(left) && AllDigits(right) && |digits| == |left|
    requires Written(digits, -borrow, left, right, true)
    ensures Value(right) <= Value(left) ==> Value(Reverse(digits)) == Value(left) - Value(right)
  {
    var n := |left|;
    LowValueIsValue(left, n);
    ValueBound(Reverse(digits));
    ValueBound(left);
    var high := HighPart(right, n);
    ShiftLinear(borrow, 0, n);
    if Value(right) <= Value(left) {
      NoBorrow(Value(left), Value(right), high, LowValue(right, n), borrow, Value(Reverse(digits)), n);
    }
  }

  lemma {:induction false} HighPart(s: string, n: nat) returns (high: nat)
    requires AllDigits(s)
    ensures Value(s) == Shift(high, n) + LowValue(s, n)
  {
    if n <= |s| {
      var cut := |s| - n;
      ValueBound(s[..cut]);
      high := Value(s[..cut]);
      assert s == s[..cut] + s[cut..];
      ValueConcat(s[..cut], s[cut..]);
      LowValueIsSuffix(s, n);
    } else {
      high := 0;
      ShiftLinear(0, 0, n);
      LowValueIsValue(s, n);
    }
  }

  // ---------------------------------------------------------------- signed addition

  /** Negative, zero or positive as the first of two equally long digit strings sorts before, with or
      after the second. */
  function CompareDigits(left: string, right: string, from: nat): int
    requires |left| == |right| && from <= |left|
    decreases |left| - from
  {
    if from == |left| then 0
    else if left[from] != right[from] then left[from] as int - right[from] as int
    else CompareDigits(left, right, from + 1)
  }

  function CompareIntegerStrings(left: string, right: string): int {
    if |left| != |right| then |left| - |right| else CompareDigits(left, right, 0)
  }

  lemma {:induction false} PrefixOrder(left: string, right: string, n: nat, m: nat)
    requires n <= m <= |left| && m <= |right| && AllDigits(left) && AllDigits(right)
    requires Prefix(left, n) < Prefix(right, n)
    ensures Prefix(left, m) < Prefix(right, m)
  {
    if n < m {
      PrefixOrder(left, right, n, m - 1);
      assert IsDigit(left[m - 1]) && IsDigit(right[m - 1]);
    }
  }

  lemma {:induction false} CompareDigitsIsOrder(left: string, right: string, from: nat)
    requires |left| == |right| && from <= |left| && AllDigits(left) && AllDigits(right)
    requires Prefix(left, from) == Prefix(right, from)
    ensures CompareDigits(left, right, from) < 0 <==> Value(left) < Value(right)
    ensures CompareDigits(left, right, from) == 0 <==> Value(left) == Value(right)
    decreases |left| - from
  {
    if from == |left| {
    } else if left[from] == right[from] {
      CompareDigitsIsOrder(left, right, from + 1);
    } else if left[from] < right[from] {
      PrefixOrder(left, right, from + 1, |left|);
    } else {
      PrefixOrder(right, left, from + 1, |left|);
    }
  }

  lemma {:induction false} LongerIsLarger(short: string, long: string)
    requires Canonical(short) && Canonical(long) && |short| < |long|
    ensures Value(short) < Value(long)
  {
    ValueBound(short);
    LeadingDigitCounts(long, |long|);
    PowersGrow(|short|, |long| - 1);
  }

  lemma {:induction false} PowersGrow(a: nat, b: nat)
    requires a <= b
    ensures Pow10(a) <= Pow10(b)
  {
    if a < b {
      PowersGrow(a, b - 1);
    }
  }

  lemma {:induction false} LeadingDigitCounts(s: string, n: nat)
    requires Canonical(s) && s[0] != ZERO && 1 <= n <= |s|
    ensures Prefix(s, n) >= Pow10(n - 1)
  {
    assert IsDigit(s[n - 1]);
    if n > 1 {
      LeadingDigitCounts(s, n - 1);
    }
  }

  /** On canonical digits, comparing lengths and then characters is comparing numbers. */
  lemma {:induction false} CompareIsOrder(left: string, right: string)
    requires Canonical(left) && Canonical(right)
    ensures CompareIntegerStrings(left, right) < 0 <==> Value(left) < Value(right)
    ensures CompareIntegerStrings(left, right) == 0 <==> Value(left) == Value(right)
  {
    if |left| < |right| {
      LongerIsLarger(left, right);
    } else if |right| < |left| {
      LongerIsLarger(right, left);
    } else {
      CompareDigitsIsOrder(left, right, 0);
    }
  }

  /** Adds two normalised signed integers. By NormalizedIsFromInt there is only one such result. */
  method AddSignedIntegers(left: SignedInteger, right: SignedInteger) returns (r: SignedInteger)
    requires Normalized(left) && Normalized(right)
    ensures Normalized(r) && ToInt(r) == ToInt(left) + ToInt(right)
  {
    CompareIsOrder(left.digits, right.digits);
    if left.negative == right.negative {
      var sum := AddIntegerStrings(left.digits, right.digits);
      r := NormalizedInteger(left.negative, sum);
    } else {
      var comparison := CompareIntegerStrings(left.digits, right.digits);
      if comparison == 0 {
        ZeroString();
        r := SignedInteger(false, [ZERO]);
      } else if comparison > 0 {
        var difference := SubtractIntegerStrings(left.digits, right.digits);
        r := NormalizedInteger(left.negative, difference);
      } else {
        var difference := SubtractIntegerStrings(right.digits, left.digits);
        r := NormalizedInteger(right.negative, difference);
      }
    }
  }

  // ---------------------------------------------------------------- parsing

  function Unsigned(value: string): string {
    if |value| > 0 && value[0] == '-' then value[1..] else value
  }

  /** Anything but an optional minus sign, digits, and an optional fraction counts as zero. */
  function ParseDecimal(value: string): (r: DecimalAmount)
    ensures Normalized(r.amount)
  {
    match DecimalText.Match(Unsigned(value))
    case None => ZeroString(); DecimalAmount(SignedInteger(false, [ZERO]), 0)
    case Some(d) =>
      DecimalText.MatchSound(Unsigned(value));
      DecimalAmount(NormalizedInteger(|value| > 0 && value[0] == '-', d.whole + d.fraction), |d.fraction|)
  }

  /** The exact number an amount string stands for. */
  function ExactAmount(value: string): real {
    if |value| > 0 && value[0] == '-' then -ExactUnsigned(value[1..]) else ExactUnsigned(value)
  }

  function ExactUnsigned(value: string): real {
    match DecimalText.Match(value)
    case None => 0.0
    case Some(d) => DecimalText.Exact(d)
  }

  /** Texts and the numbers they stand for. */
  lemma {:induction false} AmountsRead()
    ensures ExactAmount("-12.34") == -12.34 && ExactAmount("12.34") == 12.34 && ExactAmount("7") == 7.0 && ExactAmount(" 7") == 0.0
  {
    DecimalText.MatchIsInverseOfText("12.34", DecimalText.Digits("12", "34"));
    DecimalText.MatchIsInverseOfText("7", DecimalText.Digits("7", ""));
    assert "-12.34"[1..] == "12.34";
    assert "12" + "34" == "1234" && "7" + "" == "7";
    assert Prefix("1234", 1) == 1 && Prefix("1234", 2) == 12 && Prefix("1234", 3) == 123 && Value("1234") == 1234;
    assert Over10(1234.0, 1) == 123.4;
    assert Prefix("7", 0) == 0 && Value("7") == 7;
  }

  lemma {:induction false} ParsedShape(value: string)
    ensures var a := ParseDecimal(value);
            var negative := |value| > 0 && value[0] == '-';
            match DecimalText.Match(Unsigned(value))
            case None => a.scale == 0 && ToInt(a.amount) == 0 && ExactAmount(value) == 0.0
            case Some(d) =>
              && DecimalText.WellFormed(d)
              && a == DecimalAmount(NormalizedInteger(negative, d.whole + d.fraction), |d.fraction|)
              && ExactAmount(value) == if negative then -DecimalText.Exact(d) else DecimalText.Exact(d)
  {
    ZeroString();
    if DecimalText.Match(Unsigned(value)).Some? {
      DecimalText.MatchSound(Unsigned(value));
    }
  }

  lemma {:induction false} ParsedAmountIsExact(value: string, scale: nat)
    requires ParseDecimal(value).scale <= scale
    ensures var a := ParseDecimal(value);
            Times10(ExactAmount(value), scale) == Shift(ToInt(a.amount), scale - a.scale) as real
  {
    hide *;
    ParsedShape(value);
    match DecimalText.Match(Unsigned(value))
    case None =>
      ZeroStaysZero(ExactAmount(value), ToInt(ParseDecimal(value).amount), scale);
    case Some(d) =>
      SignedDigits(d, |value| > 0 && value[0] == '-', scale);
  }

  lemma {:induction false} SignedDigits(d: DecimalText.Digits, negative: bool, scale: nat)
    requires DecimalText.WellFormed(d) && |d.fraction| <= scale
    ensures Times10(if negative then -DecimalText.Exact(d) else DecimalText.Exact(d), scale)
         == Shift(ToInt(NormalizedInteger(negative, d.whole + d.fraction)), scale - |d.fraction|) as real
  {
    DecimalText.ExactScaled(d, scale);
    NegatedScale(DecimalText.Exact(d), 0, scale);
    NegatedScale(DecimalText.Exact(d), Value(d.whole + d.fraction), scale - |d.fraction|);
  }

  // ---------------------------------------------------------------- rounding and summing

  /** Rounds an integer number of 10^-sourceScale to an integer number of 10^-fractionDigits, halves
      away from zero. */
  method RoundToMinorUnits(amount: SignedInteger, sourceScale: nat, fractionDigits: nat)
      returns (r: SignedInteger)
    requires Normalized(amount)
    ensures r == FromInt(RoundHalfAway(Times10(Over10(ToInt(amount) as real, sourceScale), fractionDigits)))
  {
    if sourceScale <= fractionDigits {
      r := NormalizedInteger(amount.negative, amount.digits + Zeros(fractionDigits - sourceScale));
      ValuePadding(amount.digits, fractionDigits - sourceScale);
      WholeUnits(amount, sourceScale, fractionDigits);
    } else {
      var paddedDigits := PadStart(amount.digits, sourceScale + 1);
      var cut := |paddedDigits| - (sourceScale - fractionDigits);
      var keptDigits, discardedDigits := paddedDigits[..cut], paddedDigits[cut..];
      assert paddedDigits == keptDigits + discardedDigits;
      DroppedUnits(amount, keptDigits, discardedDigits, sourceScale, fractionDigits);
      var roundedDigits := keptDigits;
      if discardedDigits[0] >= '5' {
        roundedDigits := Increment(keptDigits);
      }
      r := NormalizedInteger(amount.negative, roundedDigits);
    }
    NormalizedIsFromInt(r);
  }

  lemma {:induction false} WholeUnits(amount: SignedInteger, sourceScale: nat, fractionDigits: nat)
    requires sourceScale <= fractionDigits
    ensures RoundHalfAway(Times10(Over10(ToInt(amount) as real, sourceScale), fractionDigits))
         == Signed(amount.negative, Shift(Value(amount.digits), fractionDigits - sourceScale))
  {
    var n := fractionDigits - sourceScale;
    PointMoved(ToInt(amount), sourceScale, n, fractionDigits);
    NegatedScale(0.0, Value(amount.digits), n);
    RoundWhole(Shift(ToInt(amount), n));
  }

  lemma {:induction false} DroppedUnits(amount: SignedInteger, kept: string, dropped: string, sourceScale: nat, fractionDigits: nat)
    requires Normalized(amount) && sourceScale > fractionDigits && |dropped| == sourceScale - fractionDigits
    requires AllDigits(kept) && AllDigits(dropped) && Value(kept + dropped) == Value(amount.digits)
    ensures RoundHalfAway(Times10(Over10(ToInt(amount) as real, sourceScale), fractionDigits))
         == Signed(amount.negative, Value(kept) + if dropped[0] >= '5' then 1 else 0)
  {
    var n, v := sourceScale - fractionDigits, Value(amount.digits);
    PointMovedBack(ToInt(amount) as real, n, fractionDigits, sourceScale);
    RoundByFirstDropped(kept, dropped, n);
    NegatedScale(v as real, v, n);
    ValueBound(amount.digits);
    Over10Linear(0.0, v as real, n);
    ZeroStaysZero(0.0, 0, n);
    RoundHalfAwayNearest(Over10(v as real, n));
  }

  function SumTo(xs: seq<real>, n: nat): real
    requires n <= |xs|
  {
    if n == 0 then 0.0 else SumTo(xs, n - 1) + xs[n - 1]
  }

  function ExactAmounts(values: seq<string>): seq<real> {
    seq(|values|, i requires 0 <= i < |values| => ExactAmount(values[i]))
  }

  /** The exact sum of the amounts, with no rounding anywhere. */
  function ExactSum(values: seq<string>): real {
    SumTo(ExactAmounts(values), |values|)
  }

  /** What the dashboard's sum must be: the exact sum, rounded once, halves away from zero, written in
      minor units. */
  function CurrencySum(values: seq<string>, fractionDigits: nat): string {
    PrintSigned(RoundHalfAway(Times10(ExactSum(values), fractionDigits)))
  }

  lemma {:induction false} PrintReadsBack(n: nat)
    ensures ExactUnsigned(Print(n)) == n as real && IsDigit(Print(n)[0])
  {
    var d := DecimalText.Digits(Print(n), "");
    PrintIsCanonical(n);
    DecimalText.MatchIsInverseOfText(Print(n), d);
    assert d.whole + d.fraction == Print(n);
    assert Over10(n as real, 0) == n as real;
  }

  /** The text of a number of minor units is an amount that the parser reads as that number; it is written
      without leading zeros, and zero without a sign. */
  lemma {:induction false} SignedReadsBack(n: int)
    ensures ExactAmount(PrintSigned(n)) == n as real
    ensures Canonical(Unsigned(PrintSigned(n))) && PrintSigned(n) != "-0"
  {
    var digits := Print(if n < 0 then -n else n);
    PrintReadsBack(if n < 0 then -n else n);
    PrintIsCanonical(if n < 0 then -n else n);
    assert ("-" + digits)[1..] == digits;
    hide Print, ExactUnsigned;
    assert PrintSigned(n) == if n < 0 then "-" + digits else digits;
    if n < 0 {
      assert digits[0] != '0';
      assert PrintSigned(n)[1] != '0';
    }
  }

  /** Read as an amount, the printed sum is the exact sum in minor units, rounded once. */
  lemma {:induction false} SumReadsBack(values: seq<string>, fractionDigits: nat)
    ensures var r := CurrencySum(values, fractionDigits);
            && ExactAmount(r) == RoundHalfAway(Times10(ExactSum(values), fractionDigits)) as real
            && Canonical(Unsigned(r)) && r != "-0"
  {
    SignedReadsBack(RoundHalfAway(Times10(ExactSum(values), fractionDigits)));
  }

  function MaxScale(amounts: seq<DecimalAmount>, n: nat): (m: nat)
    requires n <= |amounts|
    ensures forall i :: 0 <= i < n ==> amounts[i].scale <= m
  {
    if n == 0 then 0
    else
      var rest := MaxScale(amounts, n - 1);
      if amounts[n - 1].scale > rest then amounts[n - 1].scale else rest
  }

  /** The amount's digits at a finer scale. */
  function Align(a: DecimalAmount, scale: nat): (r: SignedInteger)
    requires Normalized(a.amount) && a.scale <= scale
    ensures Normalized(r) && ToInt(r) == Shift(ToInt(a.amount), scale - a.scale)
  {
    ValuePadding(a.amount.digits, scale - a.scale);
    NegatedScale(0.0, Value(a.amount.digits), scale - a.scale);
    NormalizedInteger(a.amount.negative, a.amount.digits + Zeros(scale - a.scale))
  }

  /** The total, held at the given scale, is exactly the given number. */
  ghost predicate Holds(total: SignedInteger, exact: real, scale: nat) {
    Normalized(total) && ToInt(total) as real == Times10(exact, scale)
  }

  /** The fold's starting value. */
  method EmptyTotal(scale: nat) returns (total: SignedInteger, ghost exact: real)
    ensures exact == 0.0 && Holds(total, exact, scale)
  {
    total, exact := SignedInteger(false, [ZERO]), 0.0;
    ZeroString();
    ZeroStaysZero(exact, ToInt(total), scale);
  }

  /** The parsed amount is exactly the given number. */
  ghost predicate Represents(amount: DecimalAmount, exact: real, scale: nat) {
    && Normalized(amount.amount) && amount.scale <= scale
    && Times10(exact, scale) == Shift(ToInt(amount.amount), scale - amount.scale) as real
  }

  lemma {:induction false} AlignedAmount(amount: DecimalAmount, x: real, scale: nat, total: SignedInteger, exact: real,
                      total': SignedInteger)
    requires Represents(amount, x, scale) && Holds(total, exact, scale) && Normalized(total')
    requires ToInt(total') == ToInt(total) + ToInt(Align(amount, scale))
    ensures Holds(total', exact + x, scale)
  {
    Times10Linear(exact, x, scale);
  }

  function Render(x: SignedInteger): string {
    (if x.negative then "-" else "") + x.digits
  }

  /** Rounding a total held at the source scale is rounding the exact sum it stands for. */
  lemma {:induction false} RenderedTotal(values: seq<string>, rounded: SignedInteger, total: SignedInteger,
                                         sourceScale: nat, fractionDigits: nat)
    requires Holds(total, ExactSum(values), sourceScale)
    requires rounded == FromInt(RoundHalfAway(Times10(Over10(ToInt(total) as real, sourceScale), fractionDigits)))
    ensures Render(rounded) == CurrencySum(values, fractionDigits)
  {
    PointRestored(ExactSum(values), sourceScale);
  }

  lemma {:induction false} ParsedAmountsRepresent(values: seq<string>, amounts: seq<DecimalAmount>, scale: nat)
    requires |amounts| == |values| && forall i :: 0 <= i < |values| ==> amounts[i] == ParseDecimal(values[i])
    requires forall i :: 0 <= i < |values| ==> amounts[i].scale <= scale
    ensures |ExactAmounts(values)| == |amounts|
    ensures forall i :: 0 <= i < |amounts| ==> Represents(amounts[i], ExactAmounts(values)[i], scale)
  {
    forall i | 0 <= i < |values|
      ensures Represents(amounts[i], ExactAmounts(values)[i], scale)
    {
      assert amounts[i] == ParseDecimal(values[i]) && amounts[i].scale <= scale;
      ParsedAmountIsExact(values[i], scale);
    }
  }

  /** Folds the parsed amounts, each aligned to the common scale, into one exact total. */
  method TotalAtScale(amounts: seq<DecimalAmount>, scale: nat, ghost exacts: seq<real>)
      returns (total: SignedInteger)
    requires |amounts| == |exacts|
    requires forall i :: 0 <= i < |amounts| ==> Represents(amounts[i], exacts[i], scale)
    ensures Holds(total, SumTo(exacts, |exacts|), scale)
  {
    hide Times10, Shift, Value, Canonical, NormalizedInteger, Align, ToInt;
    ghost var exact;
    total, exact := EmptyTotal(scale);
    for i := 0 to |amounts|
      invariant exact == SumTo(exacts, i) && Holds(total, exact, scale)
    {
      assert Represents(amounts[i], exacts[i], scale);
      var sum := AddSignedIntegers(total, Align(amounts[i], scale));
      AlignedAmount(amounts[i], exacts[i], scale, total, exact, sum);
      total := sum;
      exact := SumTo(exacts, i + 1);
    }
  }

  /** Sums API decimal strings exactly and rounds the total once. */
  method SumCurrencyAmounts(values: seq<string>, fractionDigits: nat) returns (r: string)
    ensures r == CurrencySum(values, fractionDigits)
    ensures ExactAmount(r) == RoundHalfAway(Times10(ExactSum(values), fractionDigits)) as real
    ensures Canonical(Unsigned(r)) && r != "-0"
  {
    SumReadsBack(values, fractionDigits);
    hide ExactAmount, RoundHalfAway, Unsigned, Times10;
    var amounts := seq(|values|, i requires 0 <= i < |values| => ParseDecimal(values[i]));
    var sourceScale := MaxScale(amounts, |amounts|);
    ParsedAmountsRepresent(values, amounts, sourceScale);
    var total := TotalAtScale(amounts, sourceScale, ExactAmounts(values));
    assert Holds(total, ExactSum(values), sourceScale);
    var rounded := RoundToMinorUnits(total, sourceScale, fractionDigits);
    RenderedTotal(values, rounded, total, sourceScale, fractionDigits);
    r := Render(rounded);
  }
}
