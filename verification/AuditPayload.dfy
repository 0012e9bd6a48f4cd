/** The canonical hash payload of packages/db/src/audit-integrity.ts: one JSON object per audit entry,
    with strings quoted as in section 7 of RFC 8259. */
module AuditPayload {
  import opened Wrappers

  const QUOTE: char := '\"'
  const BACKSLASH: char := '\\'
  const COMMA: char := ','
  const COLON: char := ':'
  const CLOSE: char := '}'

  /** What the entry hash covers, as projected by the database. */
  datatype HashFields = HashFields(
    id: string,
    organizationId: string,
    userId: Option<string>,
    entityType: string,
    entityId: string,
    action: string,
    changesJson: string,
    metadataJson: string,
    createdAtText: string,
    prevHash: Option<string>
  )

  function HexDigit(n: nat): char
    requires n < 16
  {
    if n < 10 then '0' + n as char else 'a' + (n - 10) as char
  }

  /** One character inside a JSON string. */
  function Escape(c: char): string {
    if c == QUOTE || c == BACKSLASH then [BACKSLASH, c]
    else if c as int >= 32 then [c]
    else if c as int == 8 then [BACKSLASH, 'b']
    else if c as int == 9 then [BACKSLASH, 't']
    else if c as int == 10 then [BACKSLASH, 'n']
    else if c as int == 12 then [BACKSLASH, 'f']
    else if c as int == 13 then [BACKSLASH, 'r']
    else [BACKSLASH, 'u', '0', '0', HexDigit(c as int / 16), HexDigit(c as int % 16)]
  }

  /** The rest of a quoted string from character i on, with its closing quote. */
  function Quoted(s: string, i: nat): string
    requires i <= |s|
    decreases |s| - i
  {
    if i == |s| then [QUOTE] else Escape(s[i]) + Quoted(s, i + 1)
  }

  function Quote(s: string): string {
    [QUOTE] + Quoted(s, 0)
  }

  function JsonValue(v: Option<string>): string {
    match v
    case None => ['n', 'u', 'l', 'l']
    case Some(s) => Quote(s)
  }

  /** The members of an object from index i on, each led by a comma, and the closing brace. */
  function Members(fields: seq<(string, Option<string>)>, i: nat): string
    requires i <= |fields|
    decreases |fields| - i
  {
    if i == |fields| then [CLOSE]
    else [COMMA] + (Quote(fields[i].0) + ([COLON] + (JsonValue(fields[i].1) + Members(fields, i + 1))))
  }

  function FieldList(f: HashFields): seq<(string, Option<string>)> {
    [("id", Some(f.id)),
     ("organizationId", Some(f.organizationId)),
     ("userId", f.userId),
     ("entityType", Some(f.entityType)),
     ("entityId", Some(f.entityId)),
     ("action", Some(f.action)),
     ("changes", Some(f.changesJson)),
     ("metadata", Some(f.metadataJson)),
     ("createdAt", Some(f.createdAtText)),
     ("prevHash", f.prevHash)]
  }

  function CanonicalPayload(f: HashFields): string {
    "{\"version\":1" + Members(FieldList(f), 0)
  }

  // ---------------------------------------------------------------- injectivity

  lemma {:induction false} CancelPrefix(p: string, x: string, y: string)
    requires p + x == p + y
    ensures x == y
  {
    assert x == (p + x)[|p|..] && y == (p + y)[|p|..];
  }

  /** Escaped characters form a prefix code, and none of them starts like the end of the string. */
  lemma {:induction false} EscapeIsPrefixCode(c: char, d: char, x: string, y: string)
    requires Escape(c) + x == Escape(d) + y
    ensures c == d && x == y
  {
    var u, v := Escape(c) + x, Escape(d) + y;
    assert u[0] == Escape(c)[0] && v[0] == Escape(d)[0];
    if Escape(c)[0] == BACKSLASH {
      assert |Escape(c)| >= 2 && |Escape(d)| >= 2;
      assert u[1] == Escape(c)[1] && v[1] == Escape(d)[1];
      if Escape(c)[1] == 'u' && Escape(d)[1] == 'u' {
        assert u[4] == Escape(c)[4] && v[4] == Escape(d)[4];
        assert u[5] == Escape(c)[5] && v[5] == Escape(d)[5];
      }
    }
    assert c == d;
    CancelPrefix(Escape(c), x, y);
  }

  lemma {:induction false} QuotedStart(s: string, i: nat)
    requires i <= |s|
    ensures |Quoted(s, i)| > 0 && (Quoted(s, i)[0] == QUOTE <==> i == |s|)
  {
  }

  lemma {:induction false} QuotedCancel(a: string, i: nat, b: string, j: nat, x: string, y: string)
    requires i <= |a| && j <= |b| && Quoted(a, i) + x == Quoted(b, j) + y
    ensures a[i..] == b[j..] && x == y
    decreases |a| - i
  {
    hide Escape;
    QuotedStart(a, i);
    QuotedStart(b, j);
    assert (Quoted(a, i) + x)[0] == Quoted(a, i)[0] && (Quoted(b, j) + y)[0] == Quoted(b, j)[0];
    if i == |a| {
      CancelPrefix([QUOTE], x, y);
    } else {
      QuotedStep(a, i, x);
      QuotedStep(b, j, y);
      EscapeIsPrefixCode(a[i], b[j], Quoted(a, i + 1) + x, Quoted(b, j + 1) + y);
      QuotedCancel(a, i + 1, b, j + 1, x, y);
      assert a[i..] == [a[i]] + a[i + 1..] && b[j..] == [b[j]] + b[j + 1..];
    }
  }

  lemma {:induction false} QuotedStep(s: string, i: nat, x: string)
    requires i < |s|
    ensures Quoted(s, i) + x == Escape(s[i]) + (Quoted(s, i + 1) + x)
  {
  }

  lemma {:induction false} QuoteCancel(a: string, b: string, x: string, y: string)
    requires Quote(a) + x == Quote(b) + y
    ensures a == b && x == y
  {
    hide Escape, Quoted;
    assert Quote(a) + x == [QUOTE] + (Quoted(a, 0) + x);
    assert Quote(b) + y == [QUOTE] + (Quoted(b, 0) + y);
    CancelPrefix([QUOTE], Quoted(a, 0) + x, Quoted(b, 0) + y);
    QuotedCancel(a, 0, b, 0, x, y);
    assert a[0..] == a && b[0..] == b;
  }

  lemma {:induction false} JsonValueCancel(a: Option<string>, b: Option<string>, x: string, y: string)
    requires JsonValue(a) + x == JsonValue(b) + y
    ensures a == b && x == y
  {
    hide Quoted;
    var u, v := JsonValue(a) + x, JsonValue(b) + y;
    assert u[0] == JsonValue(a)[0] && v[0] == JsonValue(b)[0];
    if a.None? {
      CancelPrefix(JsonValue(a), x, y);
    } else {
      QuoteCancel(a.value, b.value, x, y);
    }
  }

  /** Two member lists that read the same are the same, names and values. */
  lemma {:induction false} MembersInjective(f: seq<(string, Option<string>)>, i: nat,
                                            g: seq<(string, Option<string>)>, j: nat)
    requires i <= |f| && j <= |g| && Members(f, i) == Members(g, j)
    ensures f[i..] == g[j..]
    decreases |f| - i
  {
    hide Quote, JsonValue;
    var u, v := Members(f, i), Members(g, j);
    assert u[0] == v[0];
    if i < |f| && j < |g| {
      var x, y := JsonValue(f[i].1) + Members(f, i + 1), JsonValue(g[j].1) + Members(g, j + 1);
      CancelPrefix([COMMA], Quote(f[i].0) + ([COLON] + x), Quote(g[j].0) + ([COLON] + y));
      QuoteCancel(f[i].0, g[j].0, [COLON] + x, [COLON] + y);
      CancelPrefix([COLON], x, y);
      JsonValueCancel(f[i].1, g[j].1, Members(f, i + 1), Members(g, j + 1));
      MembersInjective(f, i + 1, g, j + 1);
      assert f[i..] == [f[i]] + f[i + 1..] && g[j..] == [g[j]] + g[j + 1..];
    }
  }

  /** No two different entries have the same payload, whatever text their fields hold. */
  lemma {:induction false} CanonicalPayloadInjective(f: HashFields, g: HashFields)
    requires CanonicalPayload(f) == CanonicalPayload(g)
    ensures f == g
  {
    hide Members;
    CancelPrefix("{\"version\":1", Members(FieldList(f), 0), Members(FieldList(g), 0));
    MembersInjective(FieldList(f), 0, FieldList(g), 0);
    var a, b := FieldList(f), FieldList(g);
    assert a[0..] == a && b[0..] == b;
    assert forall k :: 0 <= k < 10 ==> a[k] == b[k];
    assert a[0].1 == b[0].1 && a[1].1 == b[1].1 && a[2].1 == b[2].1 && a[3].1 == b[3].1 && a[4].1 == b[4].1;
    assert a[5].1 == b[5].1 && a[6].1 == b[6].1 && a[7].1 == b[7].1 && a[8].1 == b[8].1 && a[9].1 == b[9].1;
  }
}
