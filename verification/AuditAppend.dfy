/** Appending audit entries inside a transaction that holds the tenant's lock, from
    packages/db/src/audit-integrity.ts. */
module AuditAppend {
  import opened Wrappers
  import opened AuditChain
  import Uuid = AuditUuid

  /** An entry to append. `changes` and `metadata` are canonical JSON text, and None for a value that cannot
      be written as JSON; `requestedAt` is the caller's time or the clock's, in milliseconds, and None for an
      invalid Date. */
  datatype Input = Input(
    id: Option<string>,
    organizationId: string,
    userId: Option<string>,
    entityType: string,
    entityId: string,
    action: string,
    changes: Option<string>,
    metadata: Option<string>,
    requestedAt: Option<int>
  )

  datatype Error =
    | NotAUuid
    | BackfillIncomplete
    | InvalidDate
    | NoJsonText
    | InvalidUuidColumn
    | DuplicateId
    | ClaimIncomplete
    | ClaimInvalid

  // ---------------------------------------------------------------- the tenant's latest row

  /** The tenant's rows, in table order. */
  function OfTo(rows: seq<Row>, organizationId: string, n: nat): seq<Row>
    requires n <= |rows|
  {
    if n == 0 then []
    else if rows[n - 1].organizationId == organizationId then OfTo(rows, organizationId, n - 1) + [rows[n - 1]]
    else OfTo(rows, organizationId, n - 1)
  }

  function Of(rows: seq<Row>, organizationId: string): seq<Row> {
    OfTo(rows, organizationId, |rows|)
  }

  lemma {:induction false} OfPrefix(a: seq<Row>, b: seq<Row>, organizationId: string, n: nat)
    requires n <= |a| && n <= |b| && a[..n] == b[..n]
    ensures OfTo(a, organizationId, n) == OfTo(b, organizationId, n)
  {
    if n > 0 {
      assert a[..n - 1] == a[..n][..n - 1] && b[..n - 1] == b[..n][..n - 1];
      assert a[n - 1] == a[..n][n - 1] && b[n - 1] == b[..n][n - 1];
      OfPrefix(a, b, organizationId, n - 1);
    }
  }

  lemma {:induction false} OfConcatTo(a: seq<Row>, b: seq<Row>, organizationId: string, n: nat)
    requires n <= |b|
    ensures OfTo(a + b, organizationId, |a| + n) == Of(a, organizationId) + OfTo(b, organizationId, n)
  {
    if n == 0 {
      assert (a + b)[..|a|] == a[..|a|];
      OfPrefix(a + b, a, organizationId, |a|);
    } else {
      OfConcatTo(a, b, organizationId, n - 1);
      assert (a + b)[|a| + n - 1] == b[n - 1];
    }
  }

  lemma {:induction false} OfConcat(a: seq<Row>, b: seq<Row>, organizationId: string)
    ensures Of(a + b, organizationId) == Of(a, organizationId) + Of(b, organizationId)
  {
    OfConcatTo(a, b, organizationId, |b|);
  }

  lemma {:induction false} OfNone(rows: seq<Row>, organizationId: string, n: nat)
    requires n <= |rows| && forall i :: 0 <= i < n ==> rows[i].organizationId != organizationId
    ensures OfTo(rows, organizationId, n) == []
  {
    if n > 0 {
      OfNone(rows, organizationId, n - 1);
    }
  }

  lemma {:induction false} OfOne(row: Row, organizationId: string)
    ensures Of([row], organizationId) == if row.organizationId == organizationId then [row] else []
  {
    assert OfTo([row], organizationId, 0) == [];
  }

  /** UUID columns sort by their 128 bits. */
  function IdRank(id: string): int {
    var hex := Uuid.DropDashes(id);
    Uuid.ParseHex(hex, 0, |hex|)
  }

  /** The order (created_at, id). */
  predicate Before(a: Row, b: Row) {
    a.createdAt < b.createdAt || (a.createdAt == b.createdAt && IdRank(a.id) < IdRank(b.id))
  }

  /** The first row of ORDER BY created_at DESC, id DESC among the first n rows. */
  function GreatestTo(rows: seq<Row>, n: nat): Option<Row>
    requires n <= |rows|
  {
    if n == 0 then None
    else
      var rest := GreatestTo(rows, n - 1);
      if rest.Some? && Before(rows[n - 1], rest.value) then rest else Some(rows[n - 1])
  }

  function Latest(rows: seq<Row>, organizationId: string): Option<Row> {
    var own := Of(rows, organizationId);
    GreatestTo(own, |own|)
  }

  // ---------------------------------------------------------------- one append

  function Max(a: int, b: int): int {
    if a < b then b else a
  }

  /** Never earlier than asked for, and at least a millisecond after the previous row's millisecond. */
  function NextCreatedAt(requestedAt: int, previous: Option<Row>): int {
    1000 * if previous.Some? then Max(requestedAt, Millis(previous.value.createdAt) + 1) else requestedAt
  }

  /** The row to insert after `previous`, for an input whose tenant is already normalised. */
  function NewRow(env: Env, input: Input, organizationId: string, newId: string, previous: Option<Row>): (r: Result<Row, Error>)
    ensures r.Ok? ==> r.value.organizationId == organizationId
    ensures r.Ok? ==> r.value.prevHash == if previous.Some? then previous.value.entryHash else None
    ensures r.Ok? ==> r.value.entryHash == Some(ComputeEntryHash(env, r.value))
    ensures r.Ok? ==> r.value.action == input.action
  {
    if previous.Some? && previous.value.entryHash.None? then Err(BackfillIncomplete)
    else if input.requestedAt.None? then Err(InvalidDate)
    else if input.changes.None? || input.metadata.None? then Err(NoJsonText)
    else
      var id := Uuid.NormalizeUuid(if input.id.Some? then input.id.value else newId);
      var userId := if input.userId.Some? then Some(Uuid.NormalizeUuid(input.userId.value)) else None;
      var entityId := Uuid.NormalizeUuid(input.entityId);
      if Uuid.UuidHex(id).None? || (userId.Some? && Uuid.UuidHex(userId.value).None?) || Uuid.UuidHex(entityId).None?
      then Err(InvalidUuidColumn)
      else
        var row := Row(id, organizationId, userId, input.entityType, entityId, input.action, input.changes.value, input.metadata.value,
                       NextCreatedAt(input.requestedAt.value, previous),
                       if previous.Some? then previous.value.entryHash else None, None);
        var hash := ComputeEntryHash(env, row);
        assert ComputeEntryHash(env, row.(entryHash := Some(hash))) == hash;
        Ok(row.(entryHash := Some(hash)))
  }

  predicate HasId(rows: seq<Row>, id: string) {
    exists i :: 0 <= i < |rows| && rows[i].id == id
  }

  function Append(env: Env, log: seq<Row>, input: Input, newId: string): Result<Row, Error> {
    match Uuid.RequireUuid(input.organizationId)
    case Err(_) => Err(NotAUuid)
    case Ok(organizationId) =>
      match NewRow(env, input, organizationId, newId, Latest(log, organizationId))
      case Err(e) => Err(e)
      case Ok(row) => if HasId(log, row.id) then Err(DuplicateId) else Ok(row)
  }

  // ---------------------------------------------------------------- when an append succeeds, and what it stores

  /** Two texts name the same UUID. */
  predicate SameUuid(a: string, b: string) {
    Uuid.IsUuid(a) && Uuid.UuidHex(a) == Uuid.UuidHex(b)
  }

  function GivenId(input: Input, newId: string): string {
    if input.id.Some? then input.id.value else newId
  }

  /** The tenant's latest row is one that was written without a hash. */
  predicate TipUnhashed(log: seq<Row>, organizationId: string) {
    var tip := Latest(log, organizationId);
    tip.Some? && tip.value.entryHash.None?
  }

  /** The time is no date, or a value has no JSON text. */
  predicate Unusable(input: Input) {
    input.requestedAt.None? || input.changes.None? || input.metadata.None?
  }

  predicate ValidUuids(input: Input, newId: string) {
    Uuid.IsUuid(GivenId(input, newId)) && Uuid.IsUuid(input.entityId) && (input.userId.Some? ==> Uuid.IsUuid(input.userId.value))
  }

  /** The row stores the entry as it was given: UUIDs in their normal spelling, everything else unchanged. */
  predicate Records(row: Row, input: Input, newId: string) {
    && SameUuid(row.id, GivenId(input, newId)) && Uuid.NormalizeUuid(row.id) == row.id
    && SameUuid(row.organizationId, input.organizationId)
    && row.userId.Some? == input.userId.Some? && (row.userId.Some? ==> SameUuid(row.userId.value, input.userId.value))
    && row.entityType == input.entityType && SameUuid(row.entityId, input.entityId) && row.action == input.action
    && Some(row.changes) == input.changes && Some(row.metadata) == input.metadata
    && input.requestedAt.Some? && row.createdAt >= 1000 * input.requestedAt.value
  }

  /** The first whole millisecond that is not before the requested time and later than the tip. */
  predicate OnTime(createdAt: int, requestedAt: int, tip: Option<Row>) {
    && createdAt % 1000 == 0 && createdAt >= 1000 * requestedAt && (tip.Some? ==> createdAt > tip.value.createdAt)
    && (createdAt == 1000 * requestedAt || (tip.Some? && createdAt - 1000 <= tip.value.createdAt))
  }

  /** The row records the entry, and is placed right behind the tenant's latest row. */
  predicate Stored(log: seq<Row>, row: Row, input: Input, newId: string) {
    Records(row, input, newId) && OnTime(row.createdAt, input.requestedAt.value, Latest(log, row.organizationId))
  }

  lemma {:induction false} SpelledNormally(value: string)
    requires Uuid.IsUuid(value)
    ensures SameUuid(Uuid.NormalizeUuid(value), value)
    ensures Uuid.NormalizeUuid(Uuid.NormalizeUuid(value)) == Uuid.NormalizeUuid(value)
  {
    Uuid.NormalizedNamesTheSame(value);
    Uuid.NormalFormIsFixed(value);
    hide Uuid.UuidHex, Uuid.FormatUuid;
  }

  lemma {:induction false} NewRowRecords(env: Env, input: Input, organizationId: string, newId: string, previous: Option<Row>)
    requires SameUuid(organizationId, input.organizationId)
    requires NewRow(env, input, organizationId, newId, previous).Ok?
    ensures var row := NewRow(env, input, organizationId, newId, previous).value;
            && Records(row, input, newId)
            && OnTime(row.createdAt, input.requestedAt.value, previous)
  {
    hide Uuid.UuidHex, Uuid.NormalizeUuid, ComputeEntryHash;
    Uuid.NormalizedNamesTheSame(GivenId(input, newId));
    Uuid.NormalizedNamesTheSame(input.entityId);
    SpelledNormally(GivenId(input, newId));
    SpelledNormally(input.entityId);
    if input.userId.Some? {
      Uuid.NormalizedNamesTheSame(input.userId.value);
      SpelledNormally(input.userId.value);
    }
  }

  /** The first obstacle in this order decides: the tenant, the tip, the entry's time and values, its UUIDs,
      an id in use. Without one the append succeeds. */
  function Obstacle(log: seq<Row>, input: Input, newId: string): Option<Error> {
    if !Uuid.IsUuid(input.organizationId) then Some(NotAUuid)
    else if TipUnhashed(log, Uuid.NormalizeUuid(input.organizationId)) then Some(BackfillIncomplete)
    else if input.requestedAt.None? then Some(InvalidDate)
    else if Unusable(input) then Some(NoJsonText)
    else if !ValidUuids(input, newId) then Some(InvalidUuidColumn)
    else if HasId(log, Uuid.NormalizeUuid(GivenId(input, newId))) then Some(DuplicateId)
    else None
  }

  lemma {:induction false} NewRowFailsExactlyWhen(
      env: Env, input: Input, organizationId: string, newId: string, previous: Option<Row>)
    ensures var r := NewRow(env, input, organizationId, newId, previous);
            && (r.Ok? <==> !(previous.Some? && previous.value.entryHash.None?) && !Unusable(input) && ValidUuids(input, newId))
            && (r == Err(BackfillIncomplete) <==> previous.Some? && previous.value.entryHash.None?)
            && (r.Ok? ==> r.value.id == Uuid.NormalizeUuid(GivenId(input, newId)))
            && (r.Err? && r.error == InvalidUuidColumn ==> !Unusable(input))
            && (r.Err? ==> r.error == BackfillIncomplete || r.error == InvalidDate || r.error == NoJsonText || r.error == InvalidUuidColumn)
            && (r == Err(InvalidDate) ==> input.requestedAt.None?)
            && (r == Err(NoJsonText) ==> input.requestedAt.Some? && Unusable(input))
  {
    hide Uuid.UuidHex, Uuid.NormalizeUuid, ComputeEntryHash;
    Uuid.NormalizedNamesTheSame(GivenId(input, newId));
    Uuid.NormalizedNamesTheSame(input.entityId);
    if input.userId.Some? {
      Uuid.NormalizedNamesTheSame(input.userId.value);
    }
  }

  /** An append succeeds exactly when nothing stands in its way, and otherwise fails for the first obstacle;
      the row it stores records the entry, right behind the tenant's latest row. */
  lemma {:induction false} AppendSucceedsExactlyWhen(env: Env, log: seq<Row>, input: Input, newId: string)
    ensures var r := Append(env, log, input, newId);
            match Obstacle(log, input, newId)
            case Some(e) => r == Err(e)
            case None => r.Ok? && Stored(log, r.value, input, newId)
  {
    hide Uuid.UuidHex, NewRow, Records, ValidUuids, Latest, OnTime;
    if Uuid.IsUuid(input.organizationId) {
      var organizationId := Uuid.NormalizeUuid(input.organizationId);
      SpelledNormally(input.organizationId);
      var previous := Latest(log, organizationId);
      NewRowFailsExactlyWhen(env, input, organizationId, newId, previous);
      if NewRow(env, input, organizationId, newId, previous).Ok? {
        NewRowRecords(env, input, organizationId, newId, previous);
      }
    }
  }

  // ---------------------------------------------------------------- what an append keeps

  /** Rows in strict (created_at, id) order. */
  predicate Sorted(rows: seq<Row>) {
    forall i, j :: 0 <= i < j < |rows| ==> Before(rows[i], rows[j])
  }

  lemma {:induction false} LastIsGreatest(rows: seq<Row>, n: nat)
    requires n <= |rows| && Sorted(rows)
    ensures GreatestTo(rows, n) == if n == 0 then None else Some(rows[n - 1])
  {
    hide IdRank;
    if n > 1 {
      LastIsGreatest(rows, n - 1);
      assert Before(rows[n - 2], rows[n - 1]);
    }
  }

  /** The text of one tenant's chain after `chain` has been continued by `row`: it links to the tip,
      is hashed, and is strictly later, although the tip's time is only read to the millisecond. */
  predicate Continues(env: Env, chain: seq<Row>, row: Row) {
    && row.entryHash == Some(ComputeEntryHash(env, row))
    && row.prevHash == (if |chain| == 0 then None else chain[|chain| - 1].entryHash)
    && (|chain| > 0 ==> chain[|chain| - 1].entryHash.Some? && chain[|chain| - 1].createdAt < row.createdAt)
  }

  lemma {:induction false} NewRowContinues(env: Env, chain: seq<Row>, input: Input, organizationId: string, newId: string)
    requires Sorted(chain)
    requires NewRow(env, input, organizationId, newId, GreatestTo(chain, |chain|)).Ok?
    ensures Continues(env, chain, NewRow(env, input, organizationId, newId, GreatestTo(chain, |chain|)).value)
  {
    hide ComputeEntryHash, Uuid.NormalizeUuid, Uuid.UuidHex, IdRank, Sorted;
    LastIsGreatest(chain, |chain|);
  }

  lemma {:induction false} ContinuedStaysSorted(env: Env, chain: seq<Row>, row: Row)
    requires Sorted(chain) && Continues(env, chain, row)
    ensures Sorted(chain + [row])
  {
  }

  lemma {:induction false} ContinuedStaysSound(env: Env, chain: seq<Row>, row: Row)
    requires AllSound(env, chain) && Continues(env, chain, row)
    ensures AllSound(env, chain + [row])
  {
    hide ComputeEntryHash;
    forall i | 0 <= i < |chain| + 1
      ensures Sound(env, chain + [row], i)
    {
      if i < |chain| {
        assert Sound(env, chain, i);
      }
    }
  }
}
