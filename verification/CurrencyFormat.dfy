/** Formatting of exact minor units in apps/web/src/lib/money.ts. The locale's currency template, a
    sequence of parts, is a parameter. */
module CurrencyFormat {
  import opened Decimals
  import opened DecimalText

  datatype Part = IntegerPart | FractionPart | Literal(text: string)

  const COMMA: char := ','

  predicate IsWord(c: char) {
    IsDigit(c) || 'a' <= c <= 'z' || 'A' <= c <= 'Z' || c == '_'
  }

  /** The grouping expression matches between two characters: before a maximal run of digits whose
      length is a multiple of three, inside a word. */
  predicate SeparatorAt(s: string, i: nat)
    requires i < |s|
  {
    i > 0 && IsWord(s[i - 1]) && IsDigit(s[i]) && (DigitEnd(s, i) - i) % 3 == 0
  }

  function GroupFrom(s: string, i: nat): string
    requires i <= |s|
    decreases |s| - i
  {
    if i == |s| then []
    else (if SeparatorAt(s, i) then [COMMA, s[i]] else [s[i]]) + GroupFrom(s, i + 1)
  }

  function Group(s: string): string {
    GroupFrom(s, 0)
  }

  function Magnitude(amount: string): string {
    if |amount| > 0 && amount[0] == '-' then amount[1..] else amount
  }

  function FormatPart(part: Part, whole: string, fraction: string): string {
    match part
    case IntegerPart => Group(whole)
    case FractionPart => fraction
    case Literal(text) => text
  }

  function FormatParts(parts: seq<Part>, whole: string, fraction: string): string {
    if |parts| == 0 then []
    else FormatParts(parts[..|parts| - 1], whole, fraction) + FormatPart(parts[|parts| - 1], whole, fraction)
  }

  /** Formats an amount of minor units with the template for its sign. */
  function FormatCurrencyMinorUnits(amount: string, fractionDigits: nat, plain: seq<Part>, minus: seq<Part>): string {
    var padded := PadStart(Magnitude(amount), fractionDigits + 1);
    var cut := |padded| - fractionDigits;
    FormatParts(if |amount| > 0 && amount[0] == '-' then minus else plain, padded[..cut], padded[cut..])
  }

  // ---------------------------------------------------------------- grouping

  /** The usual notation, defined from the other end: three digits at a time from the right. */
  function Grouped(s: string): string {
    if |s| <= 3 then s else Grouped(s[..|s| - 3]) + [COMMA] + s[|s| - 3..]
  }

  lemma {:induction false} SeparatorInDigits(s: string, i: nat)
    requires AllDigits(s) && i < |s|
    ensures SeparatorAt(s, i) <==> i > 0 && (|s| - i) % 3 == 0
  {
  }

  lemma {:induction false} LastGroup(s: string, i: nat)
    requires AllDigits(s) && |s| <= i + 3 && i <= |s| && (i > 0 ==> |s| < i + 3)
    ensures GroupFrom(s, i) == s[i..]
    decreases |s| - i
  {
    if i < |s| {
      SeparatorInDigits(s, i);
      LastGroup(s, i + 1);
    }
  }

  /** The character at i, led by a separator where one belongs. */
  function Lead(s: string, i: nat): string
    requires i < |s|
  {
    if SeparatorAt(s, i) then [COMMA, s[i]] else [s[i]]
  }

  lemma {:induction false} GroupStep(s: string, i: nat)
    requires i < |s|
    ensures GroupFrom(s, i) == Lead(s, i) + GroupFrom(s, i + 1)
  {
    hide SeparatorAt;
  }

  lemma {:induction false} LeadInHead(s: string, head: string, i: nat)
    requires AllDigits(s) && |s| > 3 && head == s[..|s| - 3] && i < |head|
    ensures Lead(s, i) == Lead(head, i)
  {
    SeparatorInDigits(s, i);
    SeparatorInDigits(head, i);
    hide SeparatorAt;
  }

  lemma {:induction false} LeadOfLastGroup(s: string, i: nat)
    requires AllDigits(s) && |s| > 3 && i == |s| - 3
    ensures Lead(s, i) + s[i + 1..] == [COMMA] + s[i..] && GroupFrom(s[..i], i) == []
  {
    SeparatorInDigits(s, i);
    hide SeparatorAt;
  }

  lemma {:induction false} Regroup(a: string, b: string, c: string, d: string)
    ensures a + (b + c + d) == a + b + c + d && [] + c + d == c + d
  {
  }

  lemma {:induction false} SplitLastGroup(s: string, i: nat)
    requires AllDigits(s) && i <= |s| - 3 && |s| > 3
    ensures GroupFrom(s, i) == GroupFrom(s[..|s| - 3], i) + [COMMA] + s[|s| - 3..]
    decreases |s| - i
  {
    hide *;
    var n, head := |s| - 3, s[..|s| - 3];
    GroupStep(s, i);
    if i == n {
      LastGroup(s, n + 1);
      LeadOfLastGroup(s, n);
      Regroup([], [], [COMMA], s[n..]);
    } else {
      SplitLastGroup(s, i + 1);
      GroupStep(head, i);
      LeadInHead(s, head, i);
      Regroup(Lead(s, i), GroupFrom(head, i + 1), [COMMA], s[n..]);
    }
  }

  /** The regular expression's separators are the usual ones, for every number of digits. */
  lemma {:induction false} GroupIsGrouped(s: string)
    requires AllDigits(s)
    ensures Group(s) == Grouped(s)
  {
    if |s| <= 3 {
      LastGroup(s, 0);
    } else {
      SplitLastGroup(s, 0);
      GroupIsGrouped(s[..|s| - 3]);
    }
  }

  // ---------------------------------------------------------------- nothing is lost

  function DigitsOf(s: string): string {
    if |s| == 0 then [] else DigitsOf(s[..|s| - 1]) + if IsDigit(s[|s| - 1]) then [s[|s| - 1]] else []
  }

  lemma {:induction false} DigitsOfConcat(a: string, b: string)
    ensures DigitsOf(a + b) == DigitsOf(a) + DigitsOf(b)
  {
    if |b| == 0 {
      assert a + b == a;
    } else {
      var init := b[..|b| - 1];
      DigitsOfConcat(a, init);
      assert (a + b)[..|a + b| - 1] == a + init;
    }
  }

  lemma {:induction false} DigitsOfDigits(s: string)
    requires AllDigits(s)
    ensures DigitsOf(s) == s
  {
    if |s| > 0 {
      DigitsOfDigits(s[..|s| - 1]);
      assert s == s[..|s| - 1] + [s[|s| - 1]];
    }
  }

  lemma {:induction false} DigitsOfGrouped(s: string)
    requires AllDigits(s)
    ensures DigitsOf(Grouped(s)) == s
  {
    if |s| <= 3 {
      DigitsOfDigits(s);
    } else {
      var head, last, comma := s[..|s| - 3], s[|s| - 3..], [COMMA];
      DigitsOfGrouped(head);
      DigitsOfDigits(last);
      assert comma[..|comma| - 1] == [] && DigitsOf(comma) == [];
      DigitsOfConcat(Grouped(head), comma);
      DigitsOfConcat(Grouped(head) + comma, last);
      assert s == head + last;
    }
  }

  /** Parts that show neither the integer nor the fraction, and no digits. */
  predicate Decoration(parts: seq<Part>) {
    forall i :: 0 <= i < |parts| ==> parts[i].Literal? && DigitsOf(parts[i].text) == []
  }

  /** The texts of the literals, one after the other, in full. */
  function Shown(parts: seq<Part>): string {
    if |parts| == 0 then ""
    else Shown(parts[..|parts| - 1]) + if parts[|parts| - 1].Literal? then parts[|parts| - 1].text else ""
  }

  lemma {:induction false} FormatConcat(a: seq<Part>, b: seq<Part>, whole: string, fraction: string)
    ensures FormatParts(a + b, whole, fraction) == FormatParts(a, whole, fraction) + FormatParts(b, whole, fraction)
  {
    hide FormatPart;
    if |b| == 0 {
      assert a + b == a;
    } else {
      var init, last := b[..|b| - 1], FormatPart(b[|b| - 1], whole, fraction);
      FormatConcat(a, init, whole, fraction);
      assert (a + b)[..|a + b| - 1] == a + init;
      Regroup(FormatParts(a, whole, fraction), FormatParts(init, whole, fraction), last, []);
    }
  }

  lemma {:induction false} DecorationIsShown(parts: seq<Part>, whole: string, fraction: string)
    requires Decoration(parts)
    ensures FormatParts(parts, whole, fraction) == Shown(parts) && DigitsOf(Shown(parts)) == []
  {
    if |parts| > 0 {
      var init, last := parts[..|parts| - 1], parts[|parts| - 1];
      DecorationIsShown(init, whole, fraction);
      DigitsOfConcat(Shown(init), last.text);
    }
  }

  lemma {:induction false} SinglePart(part: Part, whole: string, fraction: string)
    ensures FormatParts([part], whole, fraction) == FormatPart(part, whole, fraction)
  {
  }

  /** The decoration of a locale's currency template. */
  datatype Layout = Layout(before: seq<Part>, middle: seq<Part>, after: seq<Part>)

  /** The templates the formatter understands: the integer, then the fraction if the currency has one,
      with decoration around and between them. */
  function Template(fractionDigits: nat, layout: Layout): seq<Part> {
    if fractionDigits == 0 then layout.before + [IntegerPart] + layout.after
    else layout.before + [IntegerPart] + layout.middle + [FractionPart] + layout.after
  }

  predicate Decorative(layout: Layout) {
    Decoration(layout.before) && Decoration(layout.middle) && Decoration(layout.after)
  }

  /** The text the template stands for: digits grouped in threes, and exactly the currency's fraction. */
  function LaidOut(fractionDigits: nat, layout: Layout, padded: string): string
    requires |padded| > fractionDigits
  {
    var cut := |padded| - fractionDigits;
    Shown(layout.before) + Grouped(padded[..cut])
    + (if fractionDigits == 0 then "" else Shown(layout.middle) + padded[cut..])
    + Shown(layout.after)
  }

  lemma {:induction false} TemplateIsLaidOut(fractionDigits: nat, layout: Layout, padded: string)
    requires Decorative(layout) && |padded| > fractionDigits && AllDigits(padded)
    ensures var cut := |padded| - fractionDigits;
            FormatParts(Template(fractionDigits, layout), padded[..cut], padded[cut..])
            == LaidOut(fractionDigits, layout, padded)
  {
    hide Decoration, FormatParts, Group, Grouped, DigitsOf, Shown;
    var cut := |padded| - fractionDigits;
    var w, f := padded[..cut], padded[cut..];
    DecorationIsShown(layout.before, w, f);
    DecorationIsShown(layout.middle, w, f);
    DecorationIsShown(layout.after, w, f);
    SinglePart(IntegerPart, w, f);
    SinglePart(FractionPart, w, f);
    GroupIsGrouped(w);
    FormatConcat(layout.before, [IntegerPart], w, f);
    if fractionDigits == 0 {
      FormatConcat(layout.before + [IntegerPart], layout.after, w, f);
      assert Shown(layout.before) + Grouped(w) + "" == Shown(layout.before) + Grouped(w);
    } else {
      FormatConcat(layout.before + [IntegerPart], layout.middle, w, f);
      FormatConcat(layout.before + [IntegerPart] + layout.middle, [FractionPart], w, f);
      FormatConcat(layout.before + [IntegerPart] + layout.middle + [FractionPart], layout.after, w, f);
      assert Shown(layout.before) + Grouped(w) + Shown(layout.middle) + f
          == Shown(layout.before) + Grouped(w) + (Shown(layout.middle) + f);
    }
  }

  lemma {:induction false} DigitsLaidOut(fractionDigits: nat, layout: Layout, padded: string)
    requires Decorative(layout) && |padded| > fractionDigits && AllDigits(padded)
    ensures DigitsOf(LaidOut(fractionDigits, layout, padded)) == padded
  {
    hide Decoration, Grouped, DigitsOf, Shown;
    var cut := |padded| - fractionDigits;
    var before, whole, middle, fraction, after :=
      Shown(layout.before), padded[..cut], Shown(layout.middle), padded[cut..], Shown(layout.after);
    DecorationIsShown(layout.before, "", "");
    DecorationIsShown(layout.middle, "", "");
    DecorationIsShown(layout.after, "", "");
    DigitsOfGrouped(whole);
    DigitsOfDigits(fraction);
    var tail := if fractionDigits == 0 then "" else middle + fraction;
    DigitsOfConcat(middle, fraction);
    NoDigits(fraction, tail);
    DigitsOfConcat(before, Grouped(whole));
    DigitsOfConcat(before + Grouped(whole), tail);
    DigitsOfConcat(before + Grouped(whole) + tail, after);
    assert padded == whole + fraction;
  }

  lemma {:induction false} NoDigits(fraction: string, tail: string)
    ensures |tail| == 0 ==> DigitsOf(tail) == []
  {
  }

  predicate Negative(amount: string) {
    |amount| > 0 && amount[0] == '-'
  }

  /** The template for the amount's sign, out of the locale's two. */
  function LayoutFor(amount: string, plain: Layout, minus: Layout): Layout {
    if Negative(amount) then minus else plain
  }

  function Formatted(amount: string, fractionDigits: nat, plain: Layout, minus: Layout): string {
    FormatCurrencyMinorUnits(amount, fractionDigits, Template(fractionDigits, plain), Template(fractionDigits, minus))
  }

  /** With any such templates, the formatted text is the padded amount, cut so that exactly the currency's
      fraction digits come last, grouped and decorated; its digits are those of the padded amount. */
  lemma {:induction false} FormattingLosesNothing(amount: string, fractionDigits: nat, plain: Layout, minus: Layout)
    requires AllDigits(Magnitude(amount)) && Decorative(plain) && Decorative(minus)
    ensures var padded := PadStart(Magnitude(amount), fractionDigits + 1);
            && Formatted(amount, fractionDigits, plain, minus)
               == LaidOut(fractionDigits, LayoutFor(amount, plain, minus), padded)
            && DigitsOf(Formatted(amount, fractionDigits, plain, minus)) == padded
  {
    hide Decorative, DigitsOf, FormatParts, Template, LaidOut;
    var padded := PadStart(Magnitude(amount), fractionDigits + 1);
    TemplateIsLaidOut(fractionDigits, LayoutFor(amount, plain, minus), padded);
    DigitsLaidOut(fractionDigits, LayoutFor(amount, plain, minus), padded);
  }

  // ---------------------------------------------------------------- the sign

  /** The layout shows a minus sign somewhere. */
  predicate ShowsMinus(fractionDigits: nat, layout: Layout) {
    '-' in Shown(layout.before) || '-' in Shown(layout.after) || (fractionDigits > 0 && '-' in Shown(layout.middle))
  }

  lemma {:induction false} GroupedHasNoMinus(s: string)
    requires AllDigits(s)
    ensures '-' !in Grouped(s)
  {
    if |s| > 3 {
      GroupedHasNoMinus(s[..|s| - 3]);
    }
  }

  /** Where only the template for negative amounts shows a minus sign, the text has one exactly when the
      amount is negative. */
  lemma {:induction false} MinusIsShownExactlyWhenNegative(
      amount: string, fractionDigits: nat, plain: Layout, minus: Layout)
    requires AllDigits(Magnitude(amount)) && Decorative(plain) && Decorative(minus)
    requires ShowsMinus(fractionDigits, minus) && !ShowsMinus(fractionDigits, plain)
    ensures '-' in Formatted(amount, fractionDigits, plain, minus) <==> Negative(amount)
  {
    hide Decorative, DigitsOf, FormatParts, Template, Grouped, FormatCurrencyMinorUnits, Shown;
    var padded := PadStart(Magnitude(amount), fractionDigits + 1);
    FormattingLosesNothing(amount, fractionDigits, plain, minus);
    GroupedHasNoMinus(padded[..|padded| - fractionDigits]);
  }

  lemma {:induction false} PaddingIsInjective(a: string, b: string, length: nat)
    requires Canonical(a) && Canonical(b) && PadStart(a, length) == PadStart(b, length)
    ensures a == b
  {
    CanonicalIsPrint(a);
    CanonicalIsPrint(b);
  }

  /** Different amounts look different: equal texts come from the same canonical amount, sign included. */
  lemma {:induction false} FormattingIsInjective(
      a: string, b: string, fractionDigits: nat, plain: Layout, minus: Layout)
    requires Canonical(Magnitude(a)) && Canonical(Magnitude(b)) && Decorative(plain) && Decorative(minus)
    requires ShowsMinus(fractionDigits, minus) && !ShowsMinus(fractionDigits, plain)
    requires Formatted(a, fractionDigits, plain, minus) == Formatted(b, fractionDigits, plain, minus)
    ensures a == b
  {
    hide Decorative, ShowsMinus, DigitsOf, Formatted, PadStart, Value, Print;
    FormattingLosesNothing(a, fractionDigits, plain, minus);
    FormattingLosesNothing(b, fractionDigits, plain, minus);
    MinusIsShownExactlyWhenNegative(a, fractionDigits, plain, minus);
    MinusIsShownExactlyWhenNegative(b, fractionDigits, plain, minus);
    PaddingIsInjective(Magnitude(a), Magnitude(b), fractionDigits + 1);
    assert Negative(a) ==> a == ['-'] + Magnitude(a);
    assert Negative(b) ==> b == ['-'] + Magnitude(b);
  }
}
