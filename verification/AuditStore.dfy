/** The audit tables as one transaction under the tenant's lock sees them, with the two appending
    operations of packages/db/src/audit-integrity.ts as methods that change them. */
module AuditStore {
  import opened Wrappers
  import opened AuditChain
  import opened AuditAppend
  import Uuid = AuditUuid

  /** The unique key of an idempotency claim. */
  datatype ClaimKey = ClaimKey(organizationId: string, action: string, key: string)

  /** A claim points to its row's id, or to nothing while the row is being appended. */
  type Claims = map<ClaimKey, Option<string>>

  datatype Mode = Keyed(key: string) | ById(id: string)

  datatype Tables = Tables(log: seq<Row>, claims: Claims)

  function FindRowTo(log: seq<Row>, id: string, organizationId: string, n: nat): (r: Option<Row>)
    requires n <= |log|
    ensures r.Some? ==> r.value.id == id && r.value.organizationId == organizationId && r.value in log
    ensures r.Some? <==> exists i :: 0 <= i < n && log[i].id == id && log[i].organizationId == organizationId
  {
    if n == 0 then None
    else
      var earlier := FindRowTo(log, id, organizationId, n - 1);
      if earlier.Some? then earlier
      else if log[n - 1].id == id && log[n - 1].organizationId == organizationId then Some(log[n - 1])
      else None
  }

  function FindRow(log: seq<Row>, id: string, organizationId: string): Option<Row> {
    FindRowTo(log, id, organizationId, |log|)
  }

  function AfterAppend(tables: Tables, r: Result<Row, Error>): Tables {
    if r.Ok? then tables.(log := tables.log + [r.value]) else tables
  }

  /** What appendAuditLogIfAbsent leaves behind and returns. */
  function IfAbsent(env: Env, tables: Tables, input: Input, mode: Mode, newId: string): (Tables, Result<Row, Error>) {
    match Uuid.RequireUuid(input.organizationId)
    case Err(_) => (tables, Err(NotAUuid))
    case Ok(organizationId) =>
      match mode
      case Keyed(key) =>
        var claim := ClaimKey(organizationId, input.action, key);
        if claim in tables.claims then (tables, Claimed(tables, claim))
        else
          var r := Append(env, tables.log, input.(id := None, organizationId := organizationId), newId);
          var claimed := tables.(claims := tables.claims[claim := if r.Ok? then Some(r.value.id) else None]);
          (AfterAppend(claimed, r), r)
      case ById(id) =>
        var existing := FindRow(tables.log, Uuid.NormalizeUuid(id), organizationId);
        if !Uuid.IsUuid(Uuid.NormalizeUuid(id)) then (tables, Err(InvalidUuidColumn))
        else if existing.Some? then
          (tables, if existing.value.entryHash.None? then Err(BackfillIncomplete) else Ok(existing.value))
        else
          var r := Append(env, tables.log, input.(id := Some(Uuid.NormalizeUuid(id)), organizationId := organizationId), newId);
          (AfterAppend(tables, r), r)
  }

  /** What an existing claim answers. */
  function Claimed(tables: Tables, claim: ClaimKey): Result<Row, Error>
    requires claim in tables.claims
  {
    match tables.claims[claim]
    case None => Err(ClaimIncomplete)
    case Some(id) =>
      var existing := FindRow(tables.log, id, claim.organizationId);
      if existing.None? || existing.value.entryHash.None? then Err(ClaimInvalid) else Ok(existing.value)
  }

  /** The entry that a call of the given mode wants recorded. */
  function EntryOf(input: Input, mode: Mode): Input {
    match mode
    case Keyed(_) => input.(id := None)
    case ById(id) => input.(id := Some(id))
  }

  /** Nothing says that the entry was appended before: the key is unclaimed, or no row has the id. */
  predicate Fresh(tables: Tables, input: Input, mode: Mode) {
    && Uuid.IsUuid(input.organizationId)
    && match mode
       case Keyed(key) => ClaimKey(Uuid.NormalizeUuid(input.organizationId), input.action, key) !in tables.claims
       case ById(id) =>
         && Uuid.IsUuid(id)
         && !exists i :: 0 <= i < |tables.log| && tables.log[i].id == Uuid.NormalizeUuid(id)
              && tables.log[i].organizationId == Uuid.NormalizeUuid(input.organizationId)
  }

  /** What a call on a fresh entry does: it fails for the first obstacle, adding no row, or adds one row that
      records the entry, and settles its claim. */
  predicate AppendedOnce(tables: Tables, input: Input, mode: Mode, newId: string, after: Tables, r: Result<Row, Error>) {
    match Obstacle(tables.log, EntryOf(input, mode), newId)
    case Some(e) => r == Err(e) && after.log == tables.log
    case None =>
      && r.Ok? && after.log == tables.log + [r.value] && Stored(tables.log, r.value, EntryOf(input, mode), newId)
      && after.claims == match mode
                         case Keyed(key) => tables.claims[ClaimKey(r.value.organizationId, input.action, key) := Some(r.value.id)]
                         case ById(_) => tables.claims
  }

  function InNormalSpelling(input: Input): Input {
    input.(organizationId := Uuid.NormalizeUuid(input.organizationId),
           id := if input.id.Some? then Some(Uuid.NormalizeUuid(input.id.value)) else None)
  }

  lemma {:induction false} SameObstacle(log: seq<Row>, input: Input, newId: string)
    requires Uuid.IsUuid(input.organizationId) && (input.id.Some? ==> Uuid.IsUuid(input.id.value))
    ensures Obstacle(log, InNormalSpelling(input), newId) == Obstacle(log, input, newId)
  {
    hide Uuid.IsUuid, Uuid.NormalizeUuid, TipUnhashed, HasId, SameUuid;
    SpelledNormally(input.organizationId);
    NormalIsRequired(input.organizationId);
    if input.id.Some? {
      SpelledNormally(input.id.value);
      NormalIsRequired(input.id.value);
    }
  }

  lemma {:induction false} SameStored(log: seq<Row>, row: Row, input: Input, newId: string)
    requires Uuid.IsUuid(input.organizationId) && (input.id.Some? ==> Uuid.IsUuid(input.id.value))
    requires Stored(log, row, InNormalSpelling(input), newId)
    ensures Stored(log, row, input, newId)
  {
    SpelledNormally(input.organizationId);
    if input.id.Some? {
      SpelledNormally(input.id.value);
    }
    hide Uuid.UuidHex, Uuid.NormalizeUuid;
  }

  lemma {:induction false} NormalIsRequired(value: string)
    ensures Uuid.RequireUuid(value) == if Uuid.IsUuid(value) then Ok(Uuid.NormalizeUuid(value)) else Err(Uuid.NotAUuid)
    ensures Uuid.IsUuid(Uuid.NormalizeUuid(value)) == Uuid.IsUuid(value)
  {
    Uuid.NormalizedNamesTheSame(value);
    hide Uuid.UuidHex;
  }

  lemma {:induction false} FreshKeyIsAppended(env: Env, tables: Tables, input: Input, key: string, newId: string)
    requires Fresh(tables, input, Keyed(key))
    ensures var (after, r) := IfAbsent(env, tables, input, Keyed(key), newId);
            AppendedOnce(tables, input, Keyed(key), newId, after, r)
  {
    hide Append, Obstacle, Stored, Uuid.IsUuid, Uuid.NormalizeUuid, Uuid.RequireUuid, FindRow;
    var spelled := InNormalSpelling(EntryOf(input, Keyed(key)));
    NormalIsRequired(input.organizationId);
    NormalIsRequired(spelled.organizationId);
    SpelledNormally(input.organizationId);
    SameObstacle(tables.log, EntryOf(input, Keyed(key)), newId);
    AppendSucceedsExactlyWhen(env, tables.log, spelled, newId);
    if Append(env, tables.log, spelled, newId).Ok? {
      SameStored(tables.log, Append(env, tables.log, spelled, newId).value, EntryOf(input, Keyed(key)), newId);
      AppendedTenant(env, tables.log, spelled, newId);
    }
  }

  lemma {:induction false} FreshIdIsAppended(env: Env, tables: Tables, input: Input, id: string, newId: string)
    requires Fresh(tables, input, ById(id))
    ensures var (after, r) := IfAbsent(env, tables, input, ById(id), newId);
            AppendedOnce(tables, input, ById(id), newId, after, r)
  {
    hide Append, Obstacle, Stored, Uuid.IsUuid, Uuid.NormalizeUuid, Uuid.RequireUuid, FindRowTo;
    var spelled := InNormalSpelling(EntryOf(input, ById(id)));
    NormalIsRequired(input.organizationId);
    NormalIsRequired(id);
    SameObstacle(tables.log, EntryOf(input, ById(id)), newId);
    AppendSucceedsExactlyWhen(env, tables.log, spelled, newId);
    if Append(env, tables.log, spelled, newId).Ok? {
      SameStored(tables.log, Append(env, tables.log, spelled, newId).value, EntryOf(input, ById(id)), newId);
    }
  }

  lemma {:induction false} AppendedTenant(env: Env, log: seq<Row>, input: Input, newId: string)
    requires Append(env, log, input, newId).Ok?
    ensures Uuid.RequireUuid(input.organizationId) == Ok(Append(env, log, input, newId).value.organizationId)
  {
    hide NewRow, Latest, Uuid.RequireUuid;
  }

  /** A hashed row of the tenant that the claim points to, or that has the id. */
  predicate Found(tables: Tables, input: Input, mode: Mode, row: Row) {
    && row in tables.log && row.entryHash.Some? && row.organizationId == Uuid.NormalizeUuid(input.organizationId)
    && match mode
       case Keyed(key) =>
         var claim := ClaimKey(row.organizationId, input.action, key);
         claim in tables.claims && tables.claims[claim] == Some(row.id)
       case ById(id) => row.id == Uuid.NormalizeUuid(id)
  }

  lemma {:induction false} KnownIsFound(env: Env, tables: Tables, input: Input, mode: Mode, newId: string)
    requires !Fresh(tables, input, mode)
    ensures var (after, r) := IfAbsent(env, tables, input, mode, newId);
            after == tables && (r.Ok? ==> Found(tables, input, mode, r.value))
  {
    NormalIsRequired(input.organizationId);
    hide Append, Uuid.IsUuid, Uuid.NormalizeUuid, Uuid.RequireUuid, FindRowTo;
    match mode
    case Keyed(key) =>
    case ById(id) => NormalIsRequired(id);
  }

  /** A fresh entry is appended once; for any other the tables stay as they are, and the row that is returned
      is the one appended before. */
  predicate AppendedOrFound(tables: Tables, input: Input, mode: Mode, newId: string, after: Tables, r: Result<Row, Error>) {
    if Fresh(tables, input, mode) then AppendedOnce(tables, input, mode, newId, after, r)
    else after == tables && (r.Ok? ==> Found(tables, input, mode, r.value))
  }

  lemma {:induction false} FreshIsAppended(env: Env, tables: Tables, input: Input, mode: Mode, newId: string)
    ensures var (after, r) := IfAbsent(env, tables, input, mode, newId);
            AppendedOrFound(tables, input, mode, newId, after, r)
  {
    hide IfAbsent, AppendedOnce, Fresh;
    if Fresh(tables, input, mode) {
      match mode
      case Keyed(key) => FreshKeyIsAppended(env, tables, input, key, newId);
      case ById(id) => FreshIdIsAppended(env, tables, input, id, newId);
    } else {
      KnownIsFound(env, tables, input, mode, newId);
    }
  }

  class Store {
    const env: Env
    var log: seq<Row>
    var claims: Claims

    constructor (env: Env, log: seq<Row>, claims: Claims)
      ensures this.env == env && this.log == log && this.claims == claims
    {
      this.env, this.log, this.claims := env, log, claims;
    }

    function View(): Tables
      reads this
    {
      Tables(log, claims)
    }

    /** Appends one entry at the end of its tenant's chain. */
    method AppendAuditLog(input: Input, newId: string) returns (r: Result<Row, Error>)
      modifies this`log
      ensures r == Append(env, old(log), input, newId)
      ensures log == if r.Ok? then old(log) + [r.value] else old(log)
      ensures match Obstacle(old(log), input, newId)
              case Some(e) => r == Err(e)
              case None => r.Ok? && Stored(old(log), r.value, input, newId)
    {
      hide Latest, NewRow, Obstacle, Stored;
      AppendSucceedsExactlyWhen(env, log, input, newId);
      var organizationId := Uuid.RequireUuid(input.organizationId);
      if organizationId.Err? {
        return Err(NotAUuid);
      }
      var previous := Latest(log, organizationId.value);
      var row := NewRow(env, input, organizationId.value, newId, previous);
      if row.Err? {
        return row;
      }
      if exists i :: 0 <= i < |log| && log[i].id == row.value.id {
        return Err(DuplicateId);
      }
      log := log + [row.value];
      r := row;
    }

    /** Appends an entry unless its claim or its id shows that it was appended before. */
    method AppendAuditLogIfAbsent(input: Input, mode: Mode, newId: string) returns (r: Result<Row, Error>)
      modifies this
      ensures (View(), r) == IfAbsent(env, old(View()), input, mode, newId)
      ensures AppendedOrFound(old(View()), input, mode, newId, View(), r)
    {
      hide Append, FindRow, AppendedOrFound, Obstacle, Stored;
      FreshIsAppended(env, View(), input, mode, newId);
      var tenant := Uuid.RequireUuid(input.organizationId);
      if tenant.Err? {
        return Err(NotAUuid);
      }
      var organizationId := tenant.value;
      match mode
      case Keyed(key) =>
        var claim := ClaimKey(organizationId, input.action, key);
        if claim in claims {
          if claims[claim].None? {
            return Err(ClaimIncomplete);
          }
          var existing := FindRow(log, claims[claim].value, organizationId);
          if existing.None? || existing.value.entryHash.None? {
            return Err(ClaimInvalid);
          }
          return Ok(existing.value);
        }
        claims := claims[claim := None];
        r := AppendAuditLog(input.(id := None, organizationId := organizationId), newId);
        if r.Ok? {
          claims := claims[claim := Some(r.value.id)];
          assert claims == old(claims)[claim := Some(r.value.id)];
        }
      case ById(id) =>
        if !Uuid.IsUuid(Uuid.NormalizeUuid(id)) {
          return Err(InvalidUuidColumn);
        }
        var existing := FindRow(log, Uuid.NormalizeUuid(id), organizationId);
        if existing.Some? {
          if existing.value.entryHash.None? {
            return Err(BackfillIncomplete);
          }
          return Ok(existing.value);
        }
        r := AppendAuditLog(input.(id := Some(Uuid.NormalizeUuid(id)), organizationId := organizationId), newId);
    }
  }

  // ---------------------------------------------------------------- idempotency

  /** Some row is the claim's row: same tenant and action, hashed, and named by the claim. */
  predicate Answers(log: seq<Row>, claim: ClaimKey, id: string) {
    exists i :: 0 <= i < |log| && IsAnswer(log[i], claim, id)
  }

  predicate IsAnswer(row: Row, claim: ClaimKey, id: string) {
    row.id == id && row.organizationId == claim.organizationId && row.action == claim.action && row.entryHash.Some?
  }

  /** Every claim points to a hashed row of its tenant and action. */
  predicate ClaimsAnswered(tables: Tables) {
    forall claim :: claim in tables.claims ==>
      tables.claims[claim].Some? && Answers(tables.log, claim, tables.claims[claim].value)
  }

  lemma {:induction false} AnswerFound(log: seq<Row>, claim: ClaimKey, id: string)
    requires UniqueIds(log) && Answers(log, claim, id)
    ensures FindRow(log, id, claim.organizationId).Some?
    ensures IsAnswer(FindRow(log, id, claim.organizationId).value, claim, id)
  {
    var i :| 0 <= i < |log| && IsAnswer(log[i], claim, id);
    FoundIsUnique(log, id, claim.organizationId, |log|, i);
  }

  lemma {:induction false} FoundIsUnique(log: seq<Row>, id: string, organizationId: string, n: nat, i: nat)
    requires i < n <= |log| && UniqueIds(log) && log[i].id == id && log[i].organizationId == organizationId
    ensures FindRowTo(log, id, organizationId, n) == Some(log[i])
  {
    if i < n - 1 {
      FoundIsUnique(log, id, organizationId, n - 1, i);
    } else {
      assert forall k :: 0 <= k < n - 1 ==> log[k].id != log[i].id;
    }
  }

  lemma {:induction false} AnswersPersist(log: seq<Row>, more: seq<Row>, claim: ClaimKey, id: string)
    requires Answers(log, claim, id)
    ensures Answers(log + more, claim, id)
  {
    var i :| 0 <= i < |log| && IsAnswer(log[i], claim, id);
    assert IsAnswer((log + more)[i], claim, id);
  }

  /** What a committed call does to the tables; a call that throws is rolled back with its transaction. */
  function Committed(env: Env, tables: Tables, input: Input, mode: Mode, newId: string): Tables {
    var (after, r) := IfAbsent(env, tables, input, mode, newId);
    if r.Ok? then after else tables
  }

  predicate Consistent(tables: Tables) {
    UniqueIds(tables.log) && ClaimsAnswered(tables)
  }

  lemma {:induction false} AppendedRow(env: Env, log: seq<Row>, input: Input, newId: string)
    requires Append(env, log, input, newId).Ok?
    ensures var row := Append(env, log, input, newId).value;
            && row.entryHash.Some? && row.action == input.action && !HasId(log, row.id)
            && Uuid.RequireUuid(input.organizationId) == Ok(row.organizationId)
  {
    hide NewRow, Latest;
  }

  lemma {:induction false} AppendedStaysUnique(log: seq<Row>, row: Row)
    requires UniqueIds(log) && !HasId(log, row.id)
    ensures UniqueIds(log + [row])
  {
  }

  lemma {:induction false} AddedAnswers(tables: Tables, row: Row, claims: Claims)
    requires ClaimsAnswered(tables)
    requires forall claim :: claim in claims ==>
               (claim in tables.claims && claims[claim] == tables.claims[claim])
               || (claims[claim] == Some(row.id) && IsAnswer(row, claim, row.id))
    ensures ClaimsAnswered(Tables(tables.log + [row], claims))
  {
    hide Answers;
    forall claim | claim in claims
      ensures claims[claim].Some? && Answers(tables.log + [row], claim, claims[claim].value)
    {
      if claim in tables.claims && claims[claim] == tables.claims[claim] {
        AnswersPersist(tables.log, [row], claim, claims[claim].value);
      } else {
        AnswersItself(tables.log, row, claim);
      }
    }
  }

  /** One committed call keeps ids unique, every claim answered, every row in place and every earlier
      claim untouched. */
  lemma {:induction false} CallKeepsConsistent(env: Env, tables: Tables, input: Input, mode: Mode, newId: string)
    requires Consistent(tables)
    ensures var after := Committed(env, tables, input, mode, newId);
            && Consistent(after) && tables.log <= after.log && |after.log| <= |tables.log| + 1
            && (forall claim :: claim in tables.claims ==> claim in after.claims && after.claims[claim] == tables.claims[claim])
  {
    var (after, r) := IfAbsent(env, tables, input, mode, newId);
    if r.Ok? && after.log != tables.log {
      hide Append, ClaimsAnswered, FindRow, Uuid.IsUuid, Uuid.NormalizeUuid, Uuid.RequireUuid, UniqueIds, HasId;
      var organizationId := Uuid.RequireUuid(input.organizationId).value;
      NormalIsRequired(input.organizationId);
      NormalIsRequired(organizationId);
      SpelledNormally(input.organizationId);
      var given := if mode.Keyed? then None else Some(Uuid.NormalizeUuid(mode.id));
      AppendedRow(env, tables.log, input.(id := given, organizationId := organizationId), newId);
      AppendedStaysUnique(tables.log, r.value);
      AddedAnswers(tables, r.value, after.claims);
    } else {
      hide Append, Answers, FindRow, Uuid.IsUuid, Uuid.NormalizeUuid, Uuid.RequireUuid;
    }
  }

  lemma {:induction false} AnswersItself(log: seq<Row>, row: Row, claim: ClaimKey)
    requires IsAnswer(row, claim, row.id)
    ensures Answers(log + [row], claim, row.id)
  {
    assert (log + [row])[|log|] == row;
  }

  // ---------------------------------------------------------------- whole runs of calls

  datatype Call = Call(input: Input, mode: Mode, newId: string)

  /** The tables after the first n committed or rolled-back calls of a run. */
  function TablesAfter(env: Env, tables: Tables, calls: seq<Call>, n: nat): Tables
    requires n <= |calls|
  {
    if n == 0 then tables
    else
      var before := TablesAfter(env, tables, calls, n - 1);
      Committed(env, before, calls[n - 1].input, calls[n - 1].mode, calls[n - 1].newId)
  }

  /** What call i of the run returns. */
  function Returned(env: Env, tables: Tables, calls: seq<Call>, i: nat): Result<Row, Error>
    requires i < |calls|
  {
    IfAbsent(env, TablesAfter(env, tables, calls, i), calls[i].input, calls[i].mode, calls[i].newId).1
  }

  lemma {:induction false} RunKeepsConsistent(env: Env, tables: Tables, calls: seq<Call>, m: nat, n: nat)
    requires Consistent(tables) && m <= n <= |calls|
    ensures var (early, late) := (TablesAfter(env, tables, calls, m), TablesAfter(env, tables, calls, n));
            && Consistent(early) && Consistent(late) && early.log <= late.log
            && (forall claim :: claim in early.claims ==> claim in late.claims && late.claims[claim] == early.claims[claim])
  {
    hide Consistent, Committed;
    if n > 0 {
      var call := calls[n - 1];
      if m < n {
        RunKeepsConsistent(env, tables, calls, m, n - 1);
        CallKeepsConsistent(env, TablesAfter(env, tables, calls, n - 1), call.input, call.mode, call.newId);
      } else {
        RunKeepsConsistent(env, tables, calls, n - 1, n - 1);
        CallKeepsConsistent(env, TablesAfter(env, tables, calls, n - 1), call.input, call.mode, call.newId);
      }
    }
  }

  /** The row an answered claim yields, whatever was appended since. */
  lemma {:induction false} ClaimedRowPersists(early: Tables, late: Tables, claim: ClaimKey)
    requires Consistent(early) && UniqueIds(late.log) && early.log <= late.log
    requires claim in early.claims && claim in late.claims && late.claims[claim] == early.claims[claim]
    ensures Claimed(early, claim).Ok? && Claimed(late, claim) == Claimed(early, claim)
  {
    var id := early.claims[claim].value;
    AnswerFound(early.log, claim, id);
    var i :| 0 <= i < |early.log| && early.log[i].id == id && early.log[i].organizationId == claim.organizationId;
    FoundIsUnique(early.log, id, claim.organizationId, |early.log|, i);
    FoundIsUnique(late.log, id, claim.organizationId, |late.log|, i);
  }

  predicate SameClaim(a: Call, b: Call) {
    && a.mode.Keyed? && b.mode.Keyed? && a.mode.key == b.mode.key && a.input.action == b.input.action
    && Uuid.RequireUuid(a.input.organizationId) == Uuid.RequireUuid(b.input.organizationId)
  }

  function ClaimFor(call: Call): ClaimKey
    requires call.mode.Keyed? && Uuid.RequireUuid(call.input.organizationId).Ok?
  {
    ClaimKey(Uuid.RequireUuid(call.input.organizationId).value, call.input.action, call.mode.key)
  }

  lemma {:induction false} KeyedCallClaims(env: Env, tables: Tables, call: Call)
    requires Consistent(tables) && call.mode.Keyed?
    requires IfAbsent(env, tables, call.input, call.mode, call.newId).1.Ok?
    ensures Uuid.RequireUuid(call.input.organizationId).Ok?
    ensures var claim := ClaimFor(call);
            var after := Committed(env, tables, call.input, call.mode, call.newId);
            && claim in after.claims
            && Claimed(after, claim) == IfAbsent(env, tables, call.input, call.mode, call.newId).1
  {
    hide Append, Answers, FindRow;
    var claim := ClaimFor(call);
    var after := Committed(env, tables, call.input, call.mode, call.newId);
    if claim !in tables.claims {
      Uuid.NormalFormIsFixed(call.input.organizationId);
      var input := call.input.(id := None, organizationId := claim.organizationId);
      AppendedRow(env, tables.log, input, call.newId);
      var row := Append(env, tables.log, input, call.newId).value;
      AppendedStaysUnique(tables.log, row);
      FoundAtEnd(tables.log, row);
    }
  }

  lemma {:induction false} FoundAtEnd(log: seq<Row>, row: Row)
    requires UniqueIds(log + [row])
    ensures FindRow(log + [row], row.id, row.organizationId) == Some(row)
  {
    FoundIsUnique(log + [row], row.id, row.organizationId, |log| + 1, |log|);
  }

  /** In any run, once a keyed call has succeeded, every later call with the same tenant (in any
      spelling), action and key returns that very row and changes neither log nor claims. */
  lemma {:induction false} RetriesReturnTheSameRow(env: Env, tables: Tables, calls: seq<Call>, i: nat, j: nat)
    requires Consistent(tables) && i < j < |calls| && SameClaim(calls[i], calls[j])
    requires Returned(env, tables, calls, i).Ok?
    ensures Returned(env, tables, calls, j) == Returned(env, tables, calls, i)
    ensures TablesAfter(env, tables, calls, j + 1) == TablesAfter(env, tables, calls, j)
  {
    hide Consistent, Append, FindRow, IfAbsent;
    var first, later := calls[i], calls[j];
    var early, late := TablesAfter(env, tables, calls, i + 1), TablesAfter(env, tables, calls, j);
    RunKeepsConsistent(env, tables, calls, i, j);
    RunKeepsConsistent(env, tables, calls, i + 1, j);
    KeyedCallClaims(env, TablesAfter(env, tables, calls, i), first);
    var claim := ClaimFor(first);
    assert claim in early.claims;
    ConsistentIsUnique(late);
    ClaimedRowPersists(early, late, claim);
    KnownClaimIsAnswered(env, late, later);
  }

  lemma {:induction false} KnownClaimIsAnswered(env: Env, tables: Tables, call: Call)
    requires call.mode.Keyed? && Uuid.RequireUuid(call.input.organizationId).Ok?
    requires ClaimFor(call) in tables.claims
    ensures IfAbsent(env, tables, call.input, call.mode, call.newId) == (tables, Claimed(tables, ClaimFor(call)))
  {
  }

  predicate SameId(a: Call, b: Call) {
    && a.mode.ById? && b.mode.ById? && Uuid.NormalizeUuid(a.mode.id) == Uuid.NormalizeUuid(b.mode.id)
    && Uuid.RequireUuid(a.input.organizationId) == Uuid.RequireUuid(b.input.organizationId)
  }

  lemma {:induction false} ByIdCallFinds(env: Env, tables: Tables, call: Call)
    requires Consistent(tables) && call.mode.ById?
    requires IfAbsent(env, tables, call.input, call.mode, call.newId).1.Ok?
    ensures Uuid.RequireUuid(call.input.organizationId).Ok? && Uuid.IsUuid(Uuid.NormalizeUuid(call.mode.id))
    ensures var (after, r) := IfAbsent(env, tables, call.input, call.mode, call.newId);
            && r.value.entryHash.Some? && Consistent(after)
            && FindRow(after.log, Uuid.NormalizeUuid(call.mode.id), Uuid.RequireUuid(call.input.organizationId).value)
               == Some(r.value)
  {
    CallKeepsConsistent(env, tables, call.input, call.mode, call.newId);
    var organizationId := Uuid.RequireUuid(call.input.organizationId).value;
    var id := Uuid.NormalizeUuid(call.mode.id);
    hide Append, FindRow, Consistent;
    if FindRow(tables.log, id, organizationId).None? {
      var input := call.input.(id := Some(id), organizationId := organizationId);
      Uuid.NormalFormIsFixed(call.input.organizationId);
      AppendedRow(env, tables.log, input, call.newId);
      AppendedId(env, tables.log, input, call.newId);
      var row := Append(env, tables.log, input, call.newId).value;
      AppendedUnderNormalId(call.mode.id);
      assert Consistent(tables.(log := tables.log + [row]));
      ConsistentIsUnique(tables.(log := tables.log + [row]));
      FoundAtEnd(tables.log, row);
    }
  }

  lemma {:induction false} ConsistentIsUnique(tables: Tables)
    requires Consistent(tables)
    ensures UniqueIds(tables.log)
  {
  }

  lemma {:induction false} AppendedId(env: Env, log: seq<Row>, input: Input, newId: string)
    requires Append(env, log, input, newId).Ok? && input.id.Some?
    ensures Append(env, log, input, newId).value.id == Uuid.NormalizeUuid(input.id.value)
  {
    hide Latest, Uuid.NormalizeUuid, Uuid.UuidHex, ComputeEntryHash;
  }

  lemma {:induction false} AppendedUnderNormalId(id: string)
    ensures Uuid.NormalizeUuid(Uuid.NormalizeUuid(id)) == Uuid.NormalizeUuid(id)
  {
    Uuid.NormalFormIsFixed(id);
    hide Uuid.UuidHex;
  }

  /** The same for calls that name the row: once one has succeeded, later calls with that id and tenant,
      in any spelling, return that very row and change nothing. */
  lemma {:induction false} RetriesByIdReturnTheSameRow(env: Env, tables: Tables, calls: seq<Call>, i: nat, j: nat)
    requires Consistent(tables) && i < j < |calls| && SameId(calls[i], calls[j])
    requires Returned(env, tables, calls, i).Ok?
    ensures Returned(env, tables, calls, j) == Returned(env, tables, calls, i)
    ensures TablesAfter(env, tables, calls, j + 1) == TablesAfter(env, tables, calls, j)
  {
    hide Consistent, Append, FindRow, IfAbsent;
    var first, later := calls[i], calls[j];
    var start, late := TablesAfter(env, tables, calls, i), TablesAfter(env, tables, calls, j);
    RunKeepsConsistent(env, tables, calls, i, j);
    RunKeepsConsistent(env, tables, calls, i + 1, j);
    ByIdCallFinds(env, start, first);
    var row := Returned(env, tables, calls, i).value;
    FoundRowPersists(TablesAfter(env, tables, calls, i + 1), late, Uuid.NormalizeUuid(first.mode.id),
                     Uuid.RequireUuid(first.input.organizationId).value);
    KnownIdIsReturned(env, late, later, row);
  }

  lemma {:induction false} KnownIdIsReturned(env: Env, tables: Tables, call: Call, row: Row)
    requires call.mode.ById? && Uuid.RequireUuid(call.input.organizationId).Ok? && row.entryHash.Some?
    requires Uuid.IsUuid(Uuid.NormalizeUuid(call.mode.id))
    requires FindRow(tables.log, Uuid.NormalizeUuid(call.mode.id), Uuid.RequireUuid(call.input.organizationId).value) == Some(row)
    ensures IfAbsent(env, tables, call.input, call.mode, call.newId) == (tables, Ok(row))
  {
  }

  lemma {:induction false} FoundRowPersists(early: Tables, late: Tables, id: string, organizationId: string)
    requires Consistent(early) && Consistent(late) && early.log <= late.log
    requires FindRow(early.log, id, organizationId).Some?
    ensures FindRow(late.log, id, organizationId) == FindRow(early.log, id, organizationId)
  {
    var i :| 0 <= i < |early.log| && early.log[i].id == id && early.log[i].organizationId == organizationId;
    FoundIsUnique(early.log, id, organizationId, |early.log|, i);
    FoundIsUnique(late.log, id, organizationId, |late.log|, i);
  }

  // ---------------------------------------------------------------- swallowed errors

  /** Errors raised by the database abort the transaction; the others are thrown before a statement fails. */
  predicate RaisedByDatabase(error: Error) {
    error.InvalidUuidColumn? || error.DuplicateId?
  }

  /** What a caller leaves behind that swallows an error and commits. An aborted transaction is rolled back. */
  function Kept(env: Env, tables: Tables, call: Call): Tables {
    var (after, r) := IfAbsent(env, tables, call.input, call.mode, call.newId);
    if r.Err? && RaisedByDatabase(r.error) then tables else after
  }

  lemma {:induction false} AppendThrowsExactlyWhen(env: Env, log: seq<Row>, input: Input, newId: string)
    requires Uuid.RequireUuid(input.organizationId).Ok?
    ensures var r := Append(env, log, input, newId);
            && (r.Err? && !RaisedByDatabase(r.error)
                <==> TipUnhashed(log, Uuid.RequireUuid(input.organizationId).value) || Unusable(input))
            && r != Err(ClaimIncomplete)
  {
    hide Latest, Uuid.NormalizeUuid, Uuid.UuidHex, ComputeEntryHash, Uuid.RequireUuid;
  }

  /** The one way to break this: a caller that swallows the error of a keyed append on a fresh key and
      commits leaves an incomplete claim, and every retry then fails, exactly when the tenant's latest row
      was unhashed, the requested time was no date, or a value had no JSON text. */
  lemma {:induction false} SwallowedErrorPoisonsTheKey(env: Env, tables: Tables, call: Call, retry: Call)
    requires call.mode.Keyed? && SameClaim(call, retry) && Uuid.RequireUuid(call.input.organizationId).Ok?
    requires ClaimFor(call) !in tables.claims
    ensures var kept := Kept(env, tables, call);
            var poisoned := TipUnhashed(tables.log, ClaimFor(call).organizationId) || Unusable(call.input);
            && (ClaimFor(call) in kept.claims && kept.claims[ClaimFor(call)].None? <==> poisoned)
            && (IfAbsent(env, kept, retry.input, retry.mode, retry.newId).1 == Err(ClaimIncomplete) <==> poisoned)
  {
    hide Append, FindRow, TipUnhashed, RaisedByDatabase;
    var organizationId := ClaimFor(call).organizationId;
    Uuid.NormalFormIsFixed(call.input.organizationId);
    hide Uuid.RequireUuid;
    AppendThrowsExactlyWhen(env, tables.log, call.input.(id := None, organizationId := organizationId), call.newId);
    AppendThrowsExactlyWhen(env, tables.log, retry.input.(id := None, organizationId := organizationId), retry.newId);
  }

  /** Such an input: a keyed append for a tenant whose only row was written before rows were hashed. */
  lemma {:induction false} UnhashedRowPoisonsAKey(env: Env) returns (tables: Tables, call: Call)
    ensures Consistent(tables) && call.mode.Keyed? && !Unusable(call.input)
    ensures IfAbsent(env, Kept(env, tables, call), call.input, call.mode, call.newId).1 == Err(ClaimIncomplete)
  {
    var hex := seq(32, _ => '0');
    Uuid.FormattedIsNormal(hex);
    var uuid := Uuid.FormatUuid(hex);
    hide Uuid.FormatUuid, Uuid.UuidHex, Uuid.NormalizeUuid, Uuid.RequireUuid, IfAbsent, Kept;
    var row := Row(uuid, uuid, None, "user", uuid, "create", "{}", "{}", 0, None, None);
    tables := Tables([row], map[]);
    call := Call(Input(None, uuid, None, "user", uuid, "create", Some("{}"), Some("{}"), Some(1)), Keyed("key"), uuid);
    OnlyRowIsLatest(row);
    SwallowedErrorPoisonsTheKey(env, tables, call, call);
  }

  lemma {:induction false} OnlyRowIsLatest(row: Row)
    ensures Latest([row], row.organizationId) == Some(row)
  {
    OfOne(row, row.organizationId);
    assert GreatestTo([row], 1) == Some([row][0]);
  }
}
