/** The shared shape of the repository's decimal regular expressions: a whole part, then optionally a
    dot and a fraction. */
module DecimalText {
  import opened Wrappers
  import opened Decimals

  datatype Digits = Digits(whole: string, fraction: string)

  predicate WellFormed(d: Digits) {
    |d.whole| > 0 && AllDigits(d.whole) && AllDigits(d.fraction)
  }

  function Text(d: Digits): string {
    d.whole + if |d.fraction| == 0 then "" else "." + d.fraction
  }

  /** Where the run of digits that starts at position i ends. */
  function DigitEnd(s: string, i: nat): (n: nat)
    requires i <= |s|
    ensures i <= n <= |s| && (forall k :: i <= k < n ==> IsDigit(s[k]))
    ensures n < |s| ==> !IsDigit(s[n])
    decreases |s| - i
  {
    if i < |s| && IsDigit(s[i]) then DigitEnd(s, i + 1) else i
  }

  /** The length of the longest run of digits that starts the string. */
  function DigitRun(s: string): (n: nat)
    ensures n <= |s| && AllDigits(s[..n])
    ensures n < |s| ==> !IsDigit(s[n])
  {
    DigitEnd(s, 0)
  }

  /** Matches a digit run, optionally followed by a dot and a second, non-empty digit run. */
  function Match(s: string): Option<Digits> {
    var n := DigitRun(s);
    if n == 0 then None
    else if n == |s| then Some(Digits(s, ""))
    else if s[n] == '.' && n + 1 < |s| && AllDigits(s[n + 1..]) then Some(Digits(s[..n], s[n + 1..]))
    else None
  }

  lemma {:induction false} DigitRunUnique(s: string, n: nat)
    requires n <= |s| && AllDigits(s[..n])
    requires n < |s| ==> !IsDigit(s[n])
    ensures DigitRun(s) == n
  {
  }

  /** The matcher accepts exactly the texts of well-formed digit pairs, and recovers the pair. */
  lemma {:induction false} MatchIsInverseOfText(s: string, d: Digits)
    ensures Match(s) == Some(d) <==> WellFormed(d) && s == Text(d)
  {
    if WellFormed(d) && s == Text(d) {
      var n := |d.whole|;
      assert s[..n] == d.whole;
      DigitRunUnique(s, n);
      if |d.fraction| == 0 {
        assert s == d.whole;
      } else {
        assert s[n] == '.';
        assert s[n + 1..] == d.fraction;
        assert Match(s) == Some(Digits(d.whole, d.fraction));
      }
    }
    if Match(s) == Some(d) {
      MatchSound(s);
    }
  }

  lemma {:induction false} MatchSound(s: string)
    requires Match(s).Some?
    ensures WellFormed(Match(s).value) && s == Text(Match(s).value)
  {
  }

  /** The exact number a digit pair denotes. */
  function Exact(d: Digits): real {
    Over10(Value(d.whole + d.fraction) as real, |d.fraction|)
  }

  lemma {:induction false} ExactScaled(d: Digits, scale: nat)
    requires |d.fraction| <= scale
    ensures Times10(Exact(d), scale) == Shift(Value(d.whole + d.fraction), scale - |d.fraction|) as real
  {
    PointMoved(Value(d.whole + d.fraction), |d.fraction|, scale - |d.fraction|, scale);
  }

  lemma {:induction false} ExactIsNonNegative(d: Digits)
    requires WellFormed(d)
    ensures Exact(d) >= 0.0
  {
    ValueBound(d.whole + d.fraction);
    Over10Linear(0.0, Value(d.whole + d.fraction) as real, |d.fraction|);
  }

  /** Zeros appended to the fraction do not change the number. */
  lemma {:induction false} TrailingZeros(d: Digits, n: nat)
    ensures Exact(Digits(d.whole, d.fraction + Zeros(n))) == Exact(d)
  {
    assert d.whole + (d.fraction + Zeros(n)) == d.whole + d.fraction + Zeros(n);
    ValuePadding(d.whole + d.fraction, n);
    ShiftOver10(Value(d.whole + d.fraction), |d.fraction|, n, |d.fraction + Zeros(n)|);
  }
}
