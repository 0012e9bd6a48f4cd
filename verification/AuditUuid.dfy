/** UUID normalisation and per-tenant advisory lock keys of packages/db/src/audit-integrity.ts. */
module AuditUuid {
  import opened Wrappers

  const DASH: char := '-'

  datatype Error = NotAUuid

  predicate IsHex(c: char) {
    '0' <= c <= '9' || 'a' <= c <= 'f' || 'A' <= c <= 'F'
  }

  function Lower(c: char): char {
    if 'A' <= c <= 'F' then (c as int + 32) as char else c
  }

  function LowerAll(s: string): string {
    seq(|s|, i requires 0 <= i < |s| => Lower(s[i]))
  }

  function Unwrap(value: string): string {
    if |value| >= 2 && value[0] == '{' && value[|value| - 1] == '}' then value[1..|value| - 1] else value
  }

  function DropDashes(s: string): string {
    if |s| == 0 then s
    else DropDashes(s[..|s| - 1]) + if s[|s| - 1] == DASH then [] else [s[|s| - 1]]
  }

  predicate HexDigits(s: string) {
    |s| == 32 && forall i :: 0 <= i < 32 ==> IsHex(s[i])
  }

  /** 32 lower-case hexadecimal digits. */
  predicate LowerHex(s: string) {
    HexDigits(s) && forall i :: 0 <= i < 32 ==> !('A' <= s[i] <= 'F')
  }

  function UuidHex(value: string): (hex: Option<string>)
    ensures hex.Some? ==> LowerHex(hex.value)
  {
    var hex := DropDashes(Unwrap(value));
    if HexDigits(hex) then Some(LowerAll(hex)) else None
  }

  predicate IsUuid(value: string) {
    UuidHex(value).Some?
  }

  function FormatUuid(hex: string): string
    requires |hex| == 32
  {
    hex[..8] + [DASH] + hex[8..12] + [DASH] + hex[12..16] + [DASH] + hex[16..20] + [DASH] + hex[20..]
  }

  function NormalizeUuid(value: string): string {
    match UuidHex(value)
    case Some(hex) => FormatUuid(hex)
    case None => value
  }

  function RequireUuid(value: string): Result<string, Error> {
    match UuidHex(value)
    case Some(hex) => Ok(FormatUuid(hex))
    case None => Err(NotAUuid)
  }

  // ---------------------------------------------------------------- one spelling per UUID

  lemma {:induction false} DropDashesConcat(a: string, b: string)
    ensures DropDashes(a + b) == DropDashes(a) + DropDashes(b)
  {
    if |b| == 0 {
      assert a + b == a;
    } else {
      DropDashesConcat(a, b[..|b| - 1]);
      assert (a + b)[..|a + b| - 1] == a + b[..|b| - 1];
    }
  }

  lemma {:induction false} NoDashes(s: string)
    requires forall i :: 0 <= i < |s| ==> s[i] != DASH
    ensures DropDashes(s) == s
  {
    if |s| > 0 {
      NoDashes(s[..|s| - 1]);
      assert s == s[..|s| - 1] + [s[|s| - 1]];
    }
  }

  lemma {:induction false} DashDropped(a: string, b: string)
    ensures DropDashes(a + [DASH] + b) == DropDashes(a) + DropDashes(b)
  {
    DropDashesConcat(a + [DASH], b);
    assert (a + [DASH])[..|a|] == a;
  }

  lemma {:induction false} FormattedHex(hex: string)
    requires LowerHex(hex)
    ensures DropDashes(FormatUuid(hex)) == hex
  {
    var p0, p1, p2, p3, p4 := hex[..8], hex[8..12], hex[12..16], hex[16..20], hex[20..];
    NoDashes(p0);
    NoDashes(p1);
    NoDashes(p2);
    NoDashes(p3);
    NoDashes(p4);
    hide DropDashes;
    DashDropped(p0, p1);
    DashDropped(p0 + [DASH] + p1, p2);
    DashDropped(p0 + [DASH] + p1 + [DASH] + p2, p3);
    DashDropped(p0 + [DASH] + p1 + [DASH] + p2 + [DASH] + p3, p4);
    assert hex == p0 + p1 + p2 + p3 + p4;
  }

  lemma {:induction false} LowerIsFixed(hex: string)
    requires LowerHex(hex)
    ensures LowerAll(hex) == hex
  {
  }

  /** The usual spelling of 32 lower-case digits is the normal form of those digits. */
  lemma {:induction false} FormattedIsNormal(hex: string)
    requires LowerHex(hex)
    ensures UuidHex(FormatUuid(hex)) == Some(hex) && RequireUuid(FormatUuid(hex)) == Ok(FormatUuid(hex))
  {
    FormattedHex(hex);
    LowerIsFixed(hex);
    LowerIsHex(hex);
    hide DropDashes, LowerAll, HexDigits;
    assert FormatUuid(hex)[0] == hex[0];
  }

  /** The normal form of a UUID is itself a spelling of that UUID, and its own normal form. */
  lemma {:induction false} NormalFormIsFixed(value: string)
    ensures var r := RequireUuid(value);
            r.Ok? ==> UuidHex(r.value) == UuidHex(value) && RequireUuid(r.value) == r && NormalizeUuid(r.value) == r.value
  {
    hide DropDashes, LowerAll, HexDigits, FormatUuid;
    match UuidHex(value)
    case None =>
    case Some(hex) => FormattedIsNormal(hex);
  }

  /** The normal form is the digits in lower case, in groups of eight, four, four, four and twelve; what is no
      UUID is left as it is. */
  lemma {:induction false} NormalFormLayout(value: string)
    ensures match UuidHex(value)
            case None => NormalizeUuid(value) == value && RequireUuid(value) == Err(NotAUuid)
            case Some(hex) =>
              var r := NormalizeUuid(value);
              && RequireUuid(value) == Ok(r) && |r| == 36 && hex == LowerAll(DropDashes(Unwrap(value)))
              && r[..8] == hex[..8] && r[9..13] == hex[8..12] && r[14..18] == hex[12..16] && r[19..23] == hex[16..20]
              && r[24..] == hex[20..] && r[8] == r[13] == r[18] == r[23] == '-'
  {
    hide DropDashes, LowerAll, Unwrap, FormatUuid;
    match UuidHex(value)
    case None =>
    case Some(hex) => FormatLayout(hex);
  }

  lemma {:induction false} FormatLayout(hex: string)
    requires |hex| == 32
    ensures var r := FormatUuid(hex);
            && |r| == 36 && r[8] == r[13] == r[18] == r[23] == '-' && r[..8] == hex[..8] && r[9..13] == hex[8..12]
            && r[14..18] == hex[12..16] && r[19..23] == hex[16..20] && r[24..] == hex[20..]
  {
    var r := FormatUuid(hex);
    assert r[..8] == hex[..8] && r[8] == '-' && r[13] == '-' && r[18] == '-' && r[23] == '-';
    assert forall k :: 9 <= k < 13 ==> r[k] == hex[k - 1];
    assert forall k :: 14 <= k < 18 ==> r[k] == hex[k - 2];
    assert forall k :: 19 <= k < 23 ==> r[k] == hex[k - 3];
    assert r[9..13] == hex[8..12] && r[14..18] == hex[12..16] && r[19..23] == hex[16..20];
    assert r[24..] == hex[20..];
  }

  lemma {:induction false} LowerIsHex(hex: string)
    requires LowerHex(hex)
    ensures HexDigits(hex) && hex[0] != '{'
  {
  }

  /** A normalised text names the UUID it named before, and is no UUID if it was none. */
  lemma {:induction false} NormalizedNamesTheSame(value: string)
    ensures UuidHex(NormalizeUuid(value)) == UuidHex(value)
  {
    hide UuidHex, FormatUuid;
    match UuidHex(value)
    case None =>
    case Some(hex) => FormattedIsNormal(hex);
  }

  /** Braces, dashes and letter case do not tell tenants apart: any 32 hexadecimal digits, in either
      case, broken by a dash anywhere and wrapped in braces or not, name the same UUID. */
  lemma {:induction false} SpellingsAgree(a: string, b: string)
    requires HexDigits(a + b)
    ensures var plain := RequireUuid(LowerAll(a + b));
            && plain.Ok? && RequireUuid(a + b) == plain && RequireUuid(a + [DASH] + b) == plain
            && RequireUuid(['{'] + (a + [DASH] + b) + ['}']) == plain
  {
    var digits, dashed := a + b, a + [DASH] + b;
    HexHasNoDashes(digits);
    LowerDigits(digits);
    WithoutDashes(a, b);
    NoDashes(LowerAll(digits));
    hide *;
    BodySpelling(digits, digits);
    BodySpelling(dashed, digits);
    BodySpelling(LowerAll(digits), LowerAll(digits));
  }

  /** What is left of a spelling when braces, dashes and letter case are gone. */
  function BareDigits(value: string): string {
    LowerAll(DropDashes(Unwrap(value)))
  }

  /** Two spellings name the same UUID exactly when they agree once braces, every dash and letter case are
      gone; a text is a spelling exactly when 32 hexadecimal digits are left. */
  lemma {:induction false} SpellingsAgreeExactlyWhen(a: string, b: string)
    ensures RequireUuid(a).Ok? <==> HexDigits(BareDigits(a))
    ensures RequireUuid(a).Ok? && RequireUuid(b).Ok?
            ==> (RequireUuid(a) == RequireUuid(b) <==> BareDigits(a) == BareDigits(b))
  {
    LowerKeepsHex(DropDashes(Unwrap(a)));
    if RequireUuid(a).Ok? && RequireUuid(b).Ok? {
      FormattedHex(UuidHex(a).value);
      FormattedHex(UuidHex(b).value);
    }
  }

  lemma {:induction false} LowerKeepsHex(s: string)
    ensures HexDigits(LowerAll(s)) <==> HexDigits(s)
  {
    assert forall i :: 0 <= i < |s| ==> (IsHex(LowerAll(s)[i]) <==> IsHex(s[i]));
  }

  lemma {:induction false} WithoutDashes(a: string, b: string)
    requires HexDigits(a + b)
    ensures DropDashes(a + b) == a + b && DropDashes(a + [DASH] + b) == a + b
    ensures (a + [DASH] + b)[0] != '{' && (a + b)[0] != '{'
  {
    var digits := a + b;
    HexHasNoDashes(digits);
    assert forall i :: 0 <= i < |a| ==> a[i] == digits[i];
    assert forall i :: 0 <= i < |b| ==> b[i] == digits[|a| + i];
    hide HexDigits, DropDashes;
    NoDashes(a);
    NoDashes(b);
    NoDashes(digits);
    DashDropped(a, b);
  }

  lemma {:induction false} BodySpelling(body: string, digits: string)
    requires |body| > 0 && body[0] != '{' && DropDashes(body) == digits && HexDigits(digits)
    ensures RequireUuid(body) == Ok(FormatUuid(LowerAll(digits)))
    ensures RequireUuid(['{'] + body + ['}']) == RequireUuid(body)
  {
  }

  lemma {:induction false} HexHasNoDashes(digits: string)
    requires HexDigits(digits)
    ensures |digits| == 32 && forall i :: 0 <= i < 32 ==> digits[i] != DASH && digits[i] != '{'
  {
  }

  lemma {:induction false} LowerDigits(digits: string)
    requires HexDigits(digits)
    ensures HexDigits(LowerAll(digits)) && LowerAll(LowerAll(digits)) == LowerAll(digits)
    ensures forall i :: 0 <= i < 32 ==> LowerAll(digits)[i] != DASH && LowerAll(digits)[i] != '{'
  {
  }

  // ---------------------------------------------------------------- lock keys

  function HexValue(c: char): int {
    if '0' <= c <= '9' then c as int - '0' as int
    else if 'a' <= c <= 'f' then c as int - 'a' as int + 10
    else c as int - 'A' as int + 10
  }

  /** The number written by n hexadecimal digits from position `from`. */
  function ParseHex(s: string, from: nat, n: nat): int
    requires from + n <= |s|
  {
    if n == 0 then 0 else 16 * ParseHex(s, from, n - 1) + HexValue(s[from + n - 1])
  }

  function ToSignedInt32(value: int): int {
    if value > 0x7fffffff then value - 0x1_0000_0000 else value
  }

  function LockKeysOfHex(hex: string): (int, int)
    requires |hex| == 32
  {
    (ToSignedInt32(ParseHex(hex, 0, 8)), ToSignedInt32(ParseHex(hex, 24, 8)))
  }

  function AuditAdvisoryLockKeys(organizationId: string): Result<(int, int), Error> {
    match RequireUuid(organizationId)
    case Err(e) => Err(e)
    case Ok(uuid) =>
      NormalFormIsFixed(organizationId);
      FormattedHex(UuidHex(organizationId).value);
      Ok(LockKeysOfHex(DropDashes(uuid)))
  }

  function Pow16(n: nat): int {
    if n == 0 then 1 else 16 * Pow16(n - 1)
  }

  lemma {:induction false} ParseHexBound(s: string, from: nat, n: nat)
    requires from + n <= |s| && forall i :: 0 <= i < |s| ==> IsHex(s[i])
    ensures 0 <= ParseHex(s, from, n) < Pow16(n)
  {
    if n > 0 {
      ParseHexBound(s, from, n - 1);
      assert IsHex(s[from + n - 1]);
    }
  }

  lemma {:induction false} ParseHexInjective(s: string, t: string, from: nat, n: nat)
    requires LowerHex(s) && LowerHex(t) && from + n <= 32
    ensures ParseHex(s, from, n) == ParseHex(t, from, n) <==> s[from..from + n] == t[from..from + n]
  {
    if n > 0 {
      ParseHexInjective(s, t, from, n - 1);
      var k := from + n - 1;
      assert IsHex(s[k]) && IsHex(t[k]);
      assert s[from..from + n] == s[from..k] + [s[k]] && t[from..from + n] == t[from..k] + [t[k]];
      if s[from..from + n] == t[from..from + n] {
        assert s[from..k] == s[from..from + n][..n - 1] && t[from..k] == t[from..from + n][..n - 1];
        assert s[k] == s[from..from + n][n - 1] && t[k] == t[from..from + n][n - 1];
      }
    }
  }

  lemma {:induction false} EightHexDigits(s: string, from: nat)
    requires HexDigits(s) && from + 8 <= 32
    ensures 0 <= ParseHex(s, from, 8) < 0x1_0000_0000
  {
    ParseHexBound(s, from, 8);
    assert Pow16(2) == 256 && Pow16(4) == 0x10000;
    assert Pow16(6) == 0x1000000;
  }

  /** The keys depend on the UUID and not on its spelling, fit PostgreSQL's 32-bit lock arguments, and
      are shared by two tenants exactly when their UUIDs agree in the first and last eight digits. */
  lemma {:induction false} LockKeysAreStable(a: string, b: string)
    requires UuidHex(a).Some? && UuidHex(b).Some?
    ensures var (x, y) := (AuditAdvisoryLockKeys(a), AuditAdvisoryLockKeys(b));
            var (s, t) := (UuidHex(a).value, UuidHex(b).value);
            && x.Ok? && y.Ok?
            && -0x8000_0000 <= x.value.0 <= 0x7fff_ffff && -0x8000_0000 <= x.value.1 <= 0x7fff_ffff
            && x.value.0 % 0x1_0000_0000 == ParseHex(s, 0, 8) && x.value.1 % 0x1_0000_0000 == ParseHex(s, 24, 8)
            && (x == y <==> s[..8] == t[..8] && s[24..32] == t[24..32])
  {
    var s, t := UuidHex(a).value, UuidHex(b).value;
    hide DropDashes, ParseHex, UuidHex, Unwrap;
    FormattedHex(s);
    FormattedHex(t);
    EightHexDigits(s, 0);
    EightHexDigits(s, 24);
    EightHexDigits(t, 0);
    EightHexDigits(t, 24);
    ParseHexInjective(s, t, 0, 8);
    ParseHexInjective(s, t, 24, 8);
  }

  /** Hexadecimal digits stand for their number, most significant first, in either case. */
  lemma {:induction false} SampleHex()
    ensures ParseHex("1a", 0, 2) == 26 && ParseHex("F09", 1, 2) == 9 && ParseHex("F0", 0, 2) == 240
  {
    assert ParseHex("1a", 0, 1) == 1 && ParseHex("F09", 1, 1) == 0 && ParseHex("F0", 0, 1) == 15;
  }
}
