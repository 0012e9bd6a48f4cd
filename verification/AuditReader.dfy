/** A reader of JSON objects whose members are strings or null, after sections 4 and 7 of RFC 8259, and what it
    finds in a canonical hash payload of packages/db/src/audit-integrity.ts. */
module AuditReader {
  import opened Wrappers
  import opened AuditPayload
  import opened AuditChain

  // ---------------------------------------------------------------- reading

  function HexValue(c: char): Option<nat> {
    if '0' <= c <= '9' then Some(c as int - '0' as int)
    else if 'a' <= c <= 'f' then Some(c as int - 'a' as int + 10)
    else if 'A' <= c <= 'F' then Some(c as int - 'A' as int + 10)
    else None
  }

  /** Four hexadecimal digits; halves of a surrogate pair are not read. */
  function ReadUnicode(s: string): Option<char>
    requires |s| >= 4
  {
    var (a, b, c, d) := (HexValue(s[0]), HexValue(s[1]), HexValue(s[2]), HexValue(s[3]));
    if a.None? || b.None? || c.None? || d.None? then None
    else
      var n := 4096 * a.value + 256 * b.value + 16 * c.value + d.value;
      if n < 0xD800 then Some(n as char) else None
  }

  /** The first character of a string body, and what follows it. */
  function ReadChar(s: string): (r: Option<(char, string)>)
    ensures r.Some? ==> |r.value.1| < |s|
  {
    if |s| == 0 || s[0] as int < 32 || s[0] == '\"' then None
    else if s[0] != '\\' then Some((s[0], s[1..]))
    else if |s| == 1 then None
    else
      match s[1]
      case '\"' => Some(('\"', s[2..]))
      case '\\' => Some(('\\', s[2..]))
      case '/' => Some(('/', s[2..]))
      case 'b' => Some((8 as char, s[2..]))
      case 'f' => Some((12 as char, s[2..]))
      case 'n' => Some((10 as char, s[2..]))
      case 'r' => Some((13 as char, s[2..]))
      case 't' => Some((9 as char, s[2..]))
      case 'u' =>
        if |s| < 6 || ReadUnicode(s[2..]).None? then None else Some((ReadUnicode(s[2..]).value, s[6..]))
      case _ => None
  }

  /** A string body up to its closing quote, and what follows that. */
  function ReadString(s: string): (r: Option<(string, string)>)
    ensures r.Some? ==> |r.value.1| < |s|
    decreases |s|
  {
    if |s| > 0 && s[0] == '\"' then Some(("", s[1..]))
    else
      match ReadChar(s)
      case None => None
      case Some((c, rest)) =>
        match ReadString(rest)
        case None => None
        case Some((text, after)) => Some(([c] + text, after))
  }

  /** A string or null, and what follows it. */
  function ReadValue(s: string): (r: Option<(Option<string>, string)>)
    ensures r.Some? ==> |r.value.1| < |s|
  {
    if |s| > 0 && s[0] == '\"' then
      match ReadString(s[1..])
      case None => None
      case Some((text, rest)) => Some((Some(text), rest))
    else if "null" <= s then Some((None, s[4..]))
    else None
  }

  /** The members up to the closing brace, each with a comma before it. */
  function ReadMembers(s: string): Option<seq<(string, Option<string>)>>
    decreases |s|
  {
    if s == "}" then Some([])
    else if |s| < 2 || s[0] != ',' || s[1] != '\"' then None
    else
      match ReadString(s[2..])
      case None => None
      case Some((name, rest)) =>
        if |rest| == 0 || rest[0] != ':' then None
        else
          match ReadValue(rest[1..])
          case None => None
          case Some((value, after)) =>
            match ReadMembers(after)
            case None => None
            case Some(members) => Some([(name, value)] + members)
  }

  /** The members behind the version number. */
  function ReadPayload(s: string): Option<seq<(string, Option<string>)>> {
    var start := "{\"version\":1";
    if start <= s then ReadMembers(s[|start|..]) else None
  }

  /** The value of the first member with that name. */
  function Member(members: seq<(string, Option<string>)>, name: string): Option<Option<string>> {
    if |members| == 0 then None
    else if members[0].0 == name then Some(members[0].1)
    else Member(members[1..], name)
  }

  // ---------------------------------------------------------------- reading what was written

  lemma {:induction false} EscapeReads(c: char, rest: string)
    ensures ReadChar(Escape(c) + rest) == Some((c, rest)) && Escape(c)[0] != '\"'
  {
    var s := Escape(c) + rest;
    if |Escape(c)| == 1 {
      assert s[1..] == rest;
    } else if |Escape(c)| == 2 {
      assert s[2..] == rest;
    } else {
      assert s[2..] == ['0', '0', HexDigit(c as int / 16), HexDigit(c as int % 16)] + rest;
      HexReads(c as int / 16);
      HexReads(c as int % 16);
      assert s[6..] == rest;
    }
  }

  lemma {:induction false} HexReads(n: nat)
    requires n < 16
    ensures HexValue(HexDigit(n)) == Some(n)
  {
  }

  lemma {:induction false} QuotedReads(s: string, i: nat, rest: string)
    requires i <= |s|
    ensures ReadString(Quoted(s, i) + rest) == Some((s[i..], rest))
    decreases |s| - i
  {
    hide Escape, ReadChar;
    if i == |s| {
      assert ([QUOTE] + rest)[1..] == rest;
    } else {
      QuotedStep(s, i, rest);
      EscapeReads(s[i], Quoted(s, i + 1) + rest);
      assert (Escape(s[i]) + (Quoted(s, i + 1) + rest))[0] == Escape(s[i])[0];
      QuotedReads(s, i + 1, rest);
      assert s[i..] == [s[i]] + s[i + 1..];
    }
  }

  lemma {:induction false} ValueReads(v: Option<string>, rest: string)
    ensures ReadValue(JsonValue(v) + rest) == Some((v, rest))
  {
    hide Quoted, ReadString;
    var s := JsonValue(v) + rest;
    match v
    case None =>
      assert JsonValue(v) == "null" && s == "null" + rest;
      assert s[0] == 'n' && s[4..] == rest && "null" <= s;
    case Some(text) =>
      assert s == ['\"'] + (Quoted(text, 0) + rest);
      assert s[1..] == Quoted(text, 0) + rest;
      QuotedReads(text, 0, rest);
      assert text[0..] == text;
      assert ReadString(s[1..]) == Some((text, rest));
  }

  lemma {:induction false} MembersRead(fields: seq<(string, Option<string>)>, i: nat)
    requires i <= |fields|
    ensures ReadMembers(Members(fields, i)) == Some(fields[i..])
    decreases |fields| - i
  {
    hide Quoted, ReadString, ReadValue, JsonValue;
    if i < |fields| {
      var (name, value) := fields[i];
      var behind := JsonValue(value) + Members(fields, i + 1);
      var s := Members(fields, i);
      assert s[1] == '\"' && s[2..] == Quoted(name, 0) + ([COLON] + behind);
      QuotedReads(name, 0, [COLON] + behind);
      assert name[0..] == name;
      assert ([COLON] + behind)[1..] == behind;
      ValueReads(value, Members(fields, i + 1));
      MembersRead(fields, i + 1);
      assert s[0] == ',' && s != "}";
      assert ReadMembers(s) == Some([fields[i]] + fields[i + 1..]);
      assert fields[i..] == [fields[i]] + fields[i + 1..];
    } else {
      assert Members(fields, i) == "}" && fields[i..] == [];
    }
  }

  lemma {:induction false} MemberAt(members: seq<(string, Option<string>)>, k: nat)
    requires k < |members| && forall j :: 0 <= j < k ==> members[j].0 != members[k].0
    ensures Member(members, members[k].0) == Some(members[k].1)
  {
    if k > 0 {
      MemberAt(members[1..], k - 1);
    }
  }

  /** A JSON reader gets every field back from the payload under its own name. */
  lemma {:induction false} PayloadReads(f: HashFields)
    ensures var read := ReadPayload(CanonicalPayload(f));
            && read.Some? && |read.value| == 10
            && Member(read.value, "id") == Some(Some(f.id)) && Member(read.value, "organizationId") == Some(Some(f.organizationId))
            && Member(read.value, "userId") == Some(f.userId) && Member(read.value, "entityType") == Some(Some(f.entityType))
            && Member(read.value, "entityId") == Some(Some(f.entityId)) && Member(read.value, "action") == Some(Some(f.action))
            && Member(read.value, "changes") == Some(Some(f.changesJson)) && Member(read.value, "metadata") == Some(Some(f.metadataJson))
            && Member(read.value, "createdAt") == Some(Some(f.createdAtText)) && Member(read.value, "prevHash") == Some(f.prevHash)
  {
    hide Members, ReadMembers;
    var start, fields := "{\"version\":1", FieldList(f);
    assert CanonicalPayload(f)[..|start|] == start && CanonicalPayload(f)[|start|..] == Members(fields, 0);
    MembersRead(fields, 0);
    assert fields[0..] == fields;
    forall k | 0 <= k < 10
      ensures Member(fields, fields[k].0) == Some(fields[k].1)
    {
      MemberAt(fields, k);
    }
    hide Member;
    assert fields[0] == ("id", Some(f.id)) && fields[1] == ("organizationId", Some(f.organizationId)) && fields[2] == ("userId", f.userId);
    assert fields[3] == ("entityType", Some(f.entityType)) && fields[4] == ("entityId", Some(f.entityId));
    assert fields[5] == ("action", Some(f.action)) && fields[6] == ("changes", Some(f.changesJson));
    assert fields[7] == ("metadata", Some(f.metadataJson)) && fields[8] == ("createdAt", Some(f.createdAtText));
    assert fields[9] == ("prevHash", f.prevHash);
  }

  /** What is hashed for a row is an object that holds each of its columns, but its own hash, under its name. */
  lemma {:induction false} HashedTextReads(env: Env, row: Row)
    ensures ComputeEntryHash(env, row) == env.hash(Payload(env, row))
    ensures var read := ReadPayload(Payload(env, row));
            && read.Some?
            && Member(read.value, "id") == Some(Some(row.id)) && Member(read.value, "organizationId") == Some(Some(row.organizationId))
            && Member(read.value, "userId") == Some(row.userId) && Member(read.value, "entityType") == Some(Some(row.entityType))
            && Member(read.value, "entityId") == Some(Some(row.entityId)) && Member(read.value, "action") == Some(Some(row.action))
            && Member(read.value, "changes") == Some(Some(row.changes)) && Member(read.value, "metadata") == Some(Some(row.metadata))
            && Member(read.value, "createdAt") == Some(Some(env.stamp(row.createdAt)))
            && Member(read.value, "prevHash") == Some(row.prevHash)
  {
    hide Member, ReadPayload, CanonicalPayload;
    PayloadReads(Fields(env, row));
  }
}
