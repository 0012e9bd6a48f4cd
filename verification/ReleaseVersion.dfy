/** The release-version recogniser of packages/shared/src/release-version.ts against the grammar of
    Semantic Versioning 2.0.0, clauses 2 and 9, without build metadata. */
module ReleaseVersion {
  import opened Wrappers
  import opened Decimals
  import opened Trimming

  // ---------------------------------------------------------------- splitting and joining

  /** The first place of c in s, or the length of s. */
  function Find(s: string, c: char, from: nat): (i: nat)
    requires from <= |s|
    ensures from <= i <= |s| && (i < |s| ==> s[i] == c) && forall k :: from <= k < i ==> s[k] != c
    decreases |s| - from
  {
    if from == |s| || s[from] == c then from else Find(s, c, from + 1)
  }

  function Split(s: string, c: char): (parts: seq<string>)
    ensures |parts| > 0
    decreases |s|
  {
    var i := Find(s, c, 0);
    if i == |s| then [s] else [s[..i]] + Split(s[i + 1..], c)
  }

  function Join(parts: seq<string>, c: char): string
    requires |parts| > 0
  {
    if |parts| == 1 then parts[0] else parts[0] + [c] + Join(parts[1..], c)
  }

  predicate Avoid(parts: seq<string>, c: char) {
    forall i :: 0 <= i < |parts| ==> c !in parts[i]
  }

  lemma {:induction false} JoinOfSplit(s: string, c: char)
    ensures Join(Split(s, c), c) == s && Avoid(Split(s, c), c)
    decreases |s|
  {
    var i := Find(s, c, 0);
    if i < |s| {
      JoinOfSplit(s[i + 1..], c);
      assert ([s[..i]] + Split(s[i + 1..], c))[1..] == Split(s[i + 1..], c);
      assert s == s[..i] + [c] + s[i + 1..];
    }
  }

  lemma {:induction false} FindIsFirst(head: string, c: char, tail: string)
    requires c !in head
    ensures Find(head, c, 0) == |head| && Find(head + [c] + tail, c, 0) == |head|
  {
    var i := Find(head + [c] + tail, c, 0);
    assert forall k :: 0 <= k < |head| ==> (head + [c] + tail)[k] == head[k];
    assert (head + [c] + tail)[|head|] == c;
  }

  lemma {:induction false} SplitOfJoin(parts: seq<string>, c: char)
    requires |parts| > 0 && Avoid(parts, c)
    ensures Split(Join(parts, c), c) == parts
  {
    if |parts| == 1 {
      FindIsFirst(parts[0], c, []);
    } else {
      var rest := Join(parts[1..], c);
      FindIsFirst(parts[0], c, rest);
      assert (parts[0] + [c] + rest)[..|parts[0]|] == parts[0];
      assert (parts[0] + [c] + rest)[|parts[0]| + 1..] == rest;
      SplitOfJoin(parts[1..], c);
      assert parts == [parts[0]] + parts[1..];
    }
  }

  lemma {:induction false} JoinAvoids(parts: seq<string>, c: char, other: char)
    requires |parts| > 0 && Avoid(parts, other) && c != other
    ensures other !in Join(parts, c)
  {
    if |parts| > 1 {
      JoinAvoids(parts[1..], c, other);
    }
  }

  // ---------------------------------------------------------------- the grammar

  /** A numeric identifier, or one with at least one character that is not a digit. */
  datatype Identifier = Number(n: nat) | Word(text: string)

  datatype Version = Version(major: nat, minor: nat, patch: nat, prerelease: seq<Identifier>)

  predicate IsLetter(c: char) {
    'A' <= c <= 'Z' || 'a' <= c <= 'z'
  }

  predicate IsIdentifierChar(c: char) {
    IsDigit(c) || IsLetter(c) || c == '-'
  }

  predicate WellFormedIdentifier(id: Identifier) {
    id.Word? ==> (forall i :: 0 <= i < |id.text| ==> IsIdentifierChar(id.text[i])) && !AllDigits(id.text)
  }

  predicate WellFormed(v: Version) {
    forall i :: 0 <= i < |v.prerelease| ==> WellFormedIdentifier(v.prerelease[i])
  }

  function RenderIdentifier(id: Identifier): string {
    match id
    case Number(n) => Print(n)
    case Word(text) => text
  }

  function RenderAll(ids: seq<Identifier>): (r: seq<string>)
    ensures |r| == |ids|
  {
    seq(|ids|, i requires 0 <= i < |ids| => RenderIdentifier(ids[i]))
  }

  function Core(v: Version): (r: seq<string>)
    ensures |r| == 3
  {
    [Print(v.major), Print(v.minor), Print(v.patch)]
  }

  function Render(v: Version): string {
    if |v.prerelease| == 0 then Join(Core(v), '.') else Join(Core(v), '.') + ['-'] + Join(RenderAll(v.prerelease), '.')
  }

  ghost predicate IsVersion(value: string) {
    exists v :: WellFormed(v) && Render(v) == value
  }

  // ---------------------------------------------------------------- the recogniser

  predicate IsValidNumericIdentifier(value: string) {
    if |value| == 0 || (|value| > 1 && value[0] == '0') then false else AllDigits(value)
  }

  predicate IdentifierText(value: string) {
    |value| > 0 && (forall i :: 0 <= i < |value| ==> IsIdentifierChar(value[i]))
    && (AllDigits(value) ==> IsValidNumericIdentifier(value))
  }

  method IsValidPrereleaseIdentifier(value: string) returns (r: bool)
    ensures r <==> IdentifierText(value)
  {
    if |value| == 0 {
      return false;
    }
    var hasNonDigit := false;
    for i := 0 to |value|
      invariant forall k :: 0 <= k < i ==> IsIdentifierChar(value[k])
      invariant hasNonDigit <==> exists k :: 0 <= k < i && !IsDigit(value[k])
    {
      if !IsDigit(value[i]) && !IsLetter(value[i]) && value[i] != '-' {
        return false;
      }
      if !IsDigit(value[i]) {
        hasNonDigit := true;
      }
    }
    r := hasNonDigit || IsValidNumericIdentifier(value);
  }

  predicate IsValidSemanticVersion(value: string) {
    if |value| == 0 || |value| > 127 || '+' in value then false
    else
      var separator := Find(value, '-', 0);
      var core := value[..separator];
      var identifiers := Split(core, '.');
      if |identifiers| != 3 || exists i :: 0 <= i < |identifiers| && !IsValidNumericIdentifier(identifiers[i]) then false
      else
        separator == |value|
        || var prerelease := Split(value[separator + 1..], '.');
        forall i :: 0 <= i < |prerelease| ==> IdentifierText(prerelease[i])
  }

  // ---------------------------------------------------------------- the recogniser accepts the grammar

  lemma {:induction false} NumericIsPrint(value: string)
    requires IsValidNumericIdentifier(value)
    ensures Value(value) >= 0 && value == Print(Value(value))
  {
    CanonicalIsPrint(value);
  }

  function ReadIdentifier(text: string): (id: Identifier)
    requires IdentifierText(text)
    ensures WellFormedIdentifier(id) && RenderIdentifier(id) == text
  {
    if AllDigits(text) then
      NumericIsPrint(text);
      Number(Value(text))
    else Word(text)
  }

  lemma {:induction false} AcceptedIsVersion(value: string)
    requires IsValidSemanticVersion(value)
    ensures IsVersion(value)
  {
    hide Print, Value, IsValidNumericIdentifier, IdentifierText, Join, Split;
    var separator := Find(value, '-', 0);
    var parts := Split(value[..separator], '.');
    JoinOfSplit(value[..separator], '.');
    NumericIsPrint(parts[0]);
    NumericIsPrint(parts[1]);
    NumericIsPrint(parts[2]);
    var ids: seq<Identifier> := [];
    if separator < |value| {
      var texts := Split(value[separator + 1..], '.');
      JoinOfSplit(value[separator + 1..], '.');
      ids := seq(|texts|, i requires 0 <= i < |texts| => ReadIdentifier(texts[i]));
      assert RenderAll(ids) == texts;
      assert value == value[..separator] + ['-'] + value[separator + 1..];
    } else {
      assert value[..separator] == value;
    }
    var v := Version(Value(parts[0]), Value(parts[1]), Value(parts[2]), ids);
    assert Core(v) == parts;
    assert Render(v) == value && WellFormed(v);
  }

  lemma {:induction false} PrintIsNumeric(n: nat)
    ensures IsValidNumericIdentifier(Print(n)) && forall c :: c in Print(n) ==> IsDigit(c)
  {
    PrintIsCanonical(n);
    hide Value, Print;
  }

  lemma {:induction false} RenderedIdentifier(id: Identifier)
    requires WellFormedIdentifier(id)
    ensures IdentifierText(RenderIdentifier(id)) && '.' !in RenderIdentifier(id) && '+' !in RenderIdentifier(id)
  {
    hide Print;
    if id.Number? {
      PrintIsNumeric(id.n);
    }
  }

  lemma {:induction false} RenderedCore(v: Version)
    ensures Avoid(Core(v), '.') && Avoid(Core(v), '-') && Avoid(Core(v), '+')
    ensures forall i :: 0 <= i < 3 ==> IsValidNumericIdentifier(Core(v)[i])
    ensures |Join(Core(v), '.')| > 0
  {
    hide Print;
    PrintIsNumeric(v.major);
    PrintIsNumeric(v.minor);
    PrintIsNumeric(v.patch);
  }

  lemma {:induction false} VersionIsAccepted(v: Version)
    requires WellFormed(v) && |Render(v)| <= 127
    ensures IsValidSemanticVersion(Render(v))
  {
    hide Print, IdentifierText, IsValidNumericIdentifier, Join, Split, Core;
    var core := Join(Core(v), '.');
    RenderedCore(v);
    SplitOfJoin(Core(v), '.');
    JoinAvoids(Core(v), '.', '-');
    JoinAvoids(Core(v), '.', '+');
    if |v.prerelease| == 0 {
      FindIsFirst(core, '-', []);
      assert core[..|core|] == core;
    } else {
      var texts := RenderAll(v.prerelease);
      forall i | 0 <= i < |texts|
        ensures IdentifierText(texts[i]) && '.' !in texts[i] && '+' !in texts[i]
      {
        RenderedIdentifier(v.prerelease[i]);
      }
      SplitOfJoin(texts, '.');
      JoinAvoids(texts, '.', '+');
      var tail := Join(texts, '.');
      FindIsFirst(core, '-', tail);
      assert Render(v) == core + ['-'] + tail;
      assert (core + ['-'] + tail)[..|core|] == core;
      assert (core + ['-'] + tail)[|core| + 1..] == tail;
    }
  }

  /** The recogniser accepts exactly the renderings of versions of at most 127 characters. */
  lemma {:induction false} RecogniserIsExact(value: string)
    ensures IsValidSemanticVersion(value) <==> |value| <= 127 && IsVersion(value)
  {
    hide WellFormed, Render;
    if IsValidSemanticVersion(value) {
      AcceptedIsVersion(value);
    }
    if |value| <= 127 && IsVersion(value) {
      var v :| WellFormed(v) && Render(v) == value;
      VersionIsAccepted(v);
    }
  }

  /** A version is determined by its text. */
  lemma {:induction false} RenderIsInjective(v: Version, w: Version)
    requires WellFormed(v) && WellFormed(w) && Render(v) == Render(w)
    ensures v == w
  {
    hide Print, Join, Split;
    CoreIsFirst(v);
    CoreIsFirst(w);
    RenderedCore(v);
    RenderedCore(w);
    SplitOfJoin(Core(v), '.');
    SplitOfJoin(Core(w), '.');
    assert Core(v) == Core(w);
    PrintIsInjective(v.major, w.major);
    PrintIsInjective(v.minor, w.minor);
    PrintIsInjective(v.patch, w.patch);
    var n := |Join(Core(v), '.')|;
    if n < |Render(v)| {
      assert Join(RenderAll(v.prerelease), '.') == Render(v)[n + 1..];
      assert Join(RenderAll(w.prerelease), '.') == Render(w)[n + 1..];
      IdentifiersAreInjective(v.prerelease, w.prerelease);
    }
  }

  lemma {:induction false} CoreIsFirst(v: Version)
    ensures var core := Join(Core(v), '.');
            && Find(Render(v), '-', 0) == |core| && core == Render(v)[..|core|]
            && (|core| < |Render(v)| <==> |v.prerelease| > 0)
  {
    hide Print;
    var core := Join(Core(v), '.');
    RenderedCore(v);
    JoinAvoids(Core(v), '.', '-');
    hide Join;
    FindIsFirst(core, '-', if |v.prerelease| > 0 then Join(RenderAll(v.prerelease), '.') else []);
    assert core[..|core|] == core;
    assert |v.prerelease| > 0 ==> Render(v)[..|core|] == core;
  }

  lemma {:induction false} PrintIsInjective(a: nat, b: nat)
    requires Print(a) == Print(b)
    ensures a == b
  {
    hide Print;
    PrintIsCanonical(a);
    PrintIsCanonical(b);
  }

  lemma {:induction false} IdentifiersAreInjective(a: seq<Identifier>, b: seq<Identifier>)
    requires |a| > 0 && |b| > 0 && Join(RenderAll(a), '.') == Join(RenderAll(b), '.')
    requires forall i :: 0 <= i < |a| ==> WellFormedIdentifier(a[i])
    requires forall i :: 0 <= i < |b| ==> WellFormedIdentifier(b[i])
    ensures a == b
  {
    hide Print, Join, Split, WellFormedIdentifier;
    forall i | 0 <= i < |a|
      ensures '.' !in RenderAll(a)[i]
    {
      RenderedIdentifier(a[i]);
    }
    forall i | 0 <= i < |b|
      ensures '.' !in RenderAll(b)[i]
    {
      RenderedIdentifier(b[i]);
    }
    SplitOfJoin(RenderAll(a), '.');
    SplitOfJoin(RenderAll(b), '.');
    forall i | 0 <= i < |a|
      ensures a[i] == b[i]
    {
      assert RenderAll(a)[i] == RenderAll(b)[i];
      IdentifierIsInjective(a[i], b[i]);
    }
  }

  lemma {:induction false} IdentifierIsInjective(a: Identifier, b: Identifier)
    requires WellFormedIdentifier(a) && WellFormedIdentifier(b) && RenderIdentifier(a) == RenderIdentifier(b)
    ensures a == b
  {
    hide Print;
    if a.Number? {
      PrintIsNumeric(a.n);
    }
    if b.Number? {
      PrintIsNumeric(b.n);
    }
    if a.Number? && b.Number? {
      PrintIsInjective(a.n, b.n);
    }
  }

  // ---------------------------------------------------------------- normalising

  predicate IsHexDigit(c: char) {
    IsDigit(c) || 'a' <= c <= 'f' || 'A' <= c <= 'F'
  }

  /** The pattern for image tags made from a commit hash, in either case. */
  predicate IsShaTag(s: string) {
    && 11 <= |s| <= 68 && (s[0] == 's' || s[0] == 'S') && (s[1] == 'h' || s[1] == 'H') && (s[2] == 'a' || s[2] == 'A')
    && s[3] == '-' && forall i :: 4 <= i < |s| ==> IsHexDigit(s[i])
  }

  function LowerLetter(c: char): char {
    if 'A' <= c <= 'Z' then c - 'A' + 'a' else c
  }

  /** A commit tag is "sha-" in any case, followed by 7 to 64 hexadecimal digits. */
  lemma {:induction false} ShaTagShape(s: string)
    ensures IsShaTag(s) <==>
              && |s| >= 4 && [LowerLetter(s[0]), LowerLetter(s[1]), LowerLetter(s[2]), s[3]] == "sha-"
              && 7 <= |s[4..]| <= 64 && forall c :: c in s[4..] ==> c in "0123456789abcdefABCDEF"
  {
    if |s| >= 4 {
      assert forall i :: 4 <= i < |s| ==> s[i] == s[4..][i - 4];
      assert forall c :: IsHexDigit(c) <==> c in "0123456789abcdefABCDEF";
    }
  }

  lemma {:induction false} LettersByName(c: char)
    ensures IsLetter(c) <==> c in "ABCDEFGHIJKLMNOPQRSTUVWXYZ" || c in "abcdefghijklmnopqrstuvwxyz"
  {
  }

  function NormalizeReleaseVersion(value: string): Option<string> {
    var trimmed := Trim(value);
    if |trimmed| == 0 then None
    else
      var semver := if trimmed[0] == 'v' then trimmed[1..] else trimmed;
      if IsValidSemanticVersion(semver) then Some(semver)
      else if IsShaTag(trimmed) then Some(trimmed)
      else None
  }

  lemma {:induction false} VersionEnds(value: string)
    requires IsValidSemanticVersion(value)
    ensures |value| > 0 && IsDigit(value[0]) && IsIdentifierChar(value[|value| - 1])
  {
    hide Print, Value, IsValidNumericIdentifier, IdentifierText, Join, Split;
    var separator := Find(value, '-', 0);
    var parts := Split(value[..separator], '.');
    JoinOfSplit(value[..separator], '.');
    NumericText(parts[0]);
    NumericText(parts[2]);
    JoinEnds(parts, '.');
    assert value[0] == value[..separator][0];
    if separator == |value| {
      assert value[..separator] == value;
    } else {
      var texts := Split(value[separator + 1..], '.');
      JoinOfSplit(value[separator + 1..], '.');
      IdentifierNonEmpty(texts[0]);
      IdentifierNonEmpty(texts[|texts| - 1]);
      JoinEnds(texts, '.');
    }
  }

  lemma {:induction false} NumericText(value: string)
    requires IsValidNumericIdentifier(value)
    ensures |value| > 0 && AllDigits(value)
  {
  }

  lemma {:induction false} IdentifierNonEmpty(value: string)
    requires IdentifierText(value)
    ensures |value| > 0 && IsIdentifierChar(value[|value| - 1])
  {
  }

  lemma {:induction false} JoinEnds(parts: seq<string>, c: char)
    requires |parts| > 0 && |parts[0]| > 0 && |parts[|parts| - 1]| > 0
    ensures var (s, last) := (Join(parts, c), parts[|parts| - 1]);
            |s| > 0 && s[0] == parts[0][0] && s[|s| - 1] == last[|last| - 1]
  {
    JoinStart(parts, c);
    JoinEnd(parts, c);
  }

  lemma {:induction false} JoinStart(parts: seq<string>, c: char)
    requires |parts| > 0 && |parts[0]| > 0
    ensures |Join(parts, c)| > 0 && Join(parts, c)[0] == parts[0][0]
  {
  }

  lemma {:induction false} JoinEnd(parts: seq<string>, c: char)
    requires |parts| > 0 && |parts[|parts| - 1]| > 0
    ensures var (s, last) := (Join(parts, c), parts[|parts| - 1]);
            |s| > 0 && s[|s| - 1] == last[|last| - 1]
  {
    if |parts| > 1 {
      JoinEnd(parts[1..], c);
    }
  }

  lemma {:induction false} ShaTagIsNoVersion(s: string)
    requires IsShaTag(s)
    ensures !IsValidSemanticVersion(s) && s[0] != 'v' && Trim(s) == s
  {
  }

  /** What was normalised once stays as it is. */
  lemma {:induction false} NormalizeIsIdempotent(value: string)
    requires NormalizeReleaseVersion(value).Some?
    ensures NormalizeReleaseVersion(NormalizeReleaseVersion(value).value) == NormalizeReleaseVersion(value)
  {
    hide IsValidSemanticVersion, IsShaTag, Trim;
    var r := NormalizeReleaseVersion(value).value;
    if IsValidSemanticVersion(r) {
      VersionEnds(r);
      TrimKeeps(r);
    } else {
      ShaTagIsNoVersion(r);
    }
  }

  /** A version of at most 127 characters. */
  ghost predicate IsShortVersion(s: string) {
    |s| <= 127 && IsVersion(s)
  }

  /** The result is the text after one leading "v" where that makes a version, the trimmed text itself where it
      is a version or a commit tag, and otherwise there is none. */
  lemma {:induction false} NormalizeAccepts(value: string)
    ensures var trimmed := Trim(value);
            NormalizeReleaseVersion(value)
            == if |trimmed| > 0 && trimmed[0] == 'v' && IsShortVersion(trimmed[1..]) then Some(trimmed[1..])
               else if IsShortVersion(trimmed) || IsShaTag(trimmed) then Some(trimmed)
               else None
  {
    hide IsValidSemanticVersion, Trim, IsVersion, IsShaTag;
    var trimmed := Trim(value);
    RecogniserIsExact(trimmed);
    if |trimmed| > 0 {
      RecogniserIsExact(trimmed[1..]);
      if IsValidSemanticVersion(trimmed) {
        VersionEnds(trimmed);
      }
    }
    EmptyIsNothing(trimmed);
  }

  lemma {:induction false} EmptyIsNothing(s: string)
    ensures |s| == 0 ==> !IsValidSemanticVersion(s) && !IsShaTag(s)
  {
  }
}
