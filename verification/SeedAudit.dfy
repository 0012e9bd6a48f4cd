/** The seeding writer of packages/db/src/random-seed-persist.ts: entries are sorted by time and appended
    one by one to their tenants' chains. */
module SeedAudit {
  import opened Wrappers
  import opened AuditChain
  import opened AuditAppend
  import opened AuditStore
  import Sorting
  import Uuid = AuditUuid

  /** An entry to seed; `entry` has everything but the time, which counts milliseconds. */
  datatype Dated = Dated(entry: Input, createdAt: int)

  /** The caller's value: an entry whose time may be left to the clock. */
  datatype SeedRow = SeedRow(entry: Input, createdAt: Option<int>)

  /** String comparison by the rules of the locale: negative, zero or positive. */
  type Collation = (string, string) -> int

  ghost predicate IsOrder(collation: Collation) {
    && (forall a, b :: collation(a, b) <= 0 || collation(b, a) <= 0)
    && forall a, b, c :: collation(a, b) <= 0 && collation(b, c) <= 0 ==> collation(a, c) <= 0
  }

  function WithTimes(values: seq<SeedRow>, now: int): (r: seq<Dated>)
    ensures |r| == |values|
  {
    seq(|values|, i requires 0 <= i < |values| =>
      Dated(values[i].entry, if values[i].createdAt.Some? then values[i].createdAt.value else now))
  }

  // ---------------------------------------------------------------- the library's stable sort

  function Key(row: Dated): string {
    if row.entry.id.Some? then row.entry.id.value else ""
  }

  /** The comparator does not put `a` after `b`. */
  predicate NotAfter(collation: Collation, a: Dated, b: Dated) {
    if a.createdAt != b.createdAt then a.createdAt < b.createdAt else collation(Key(a), Key(b)) <= 0
  }

  function Comparator(collation: Collation): (Dated, Dated) -> bool {
    (a, b) => NotAfter(collation, a, b)
  }

  /** The comparator orders the entries whenever the locale orders strings. */
  lemma {:induction false} ComparatorIsOrder(collation: Collation)
    requires IsOrder(collation)
    ensures Sorting.IsOrder(Comparator(collation))
  {
  }

  // ---------------------------------------------------------------- inserting

  /** A row with an id is appended unless it is there already; one without gets a fresh id. */
  function InsertRow(env: Env, tables: Tables, row: Dated, newId: string): (Tables, Result<Row, Error>) {
    var input := row.entry.(requestedAt := Some(row.createdAt));
    if row.entry.id.Some? && row.entry.id.value != "" then IfAbsent(env, tables, input, ById(row.entry.id.value), newId)
    else
      var r := Append(env, tables.log, input, newId);
      (AfterAppend(tables, r), r)
  }

  /** The tables after the first n rows, or the error that stopped the insertion. */
  function InsertRows(env: Env, tables: Tables, rows: seq<Dated>, newIds: seq<string>, n: nat): Result<Tables, Error>
    requires n <= |rows| == |newIds|
  {
    if n == 0 then Ok(tables)
    else
      match InsertRows(env, tables, rows, newIds, n - 1)
      case Err(e) => Err(e)
      case Ok(before) =>
        var (after, r) := InsertRow(env, before, rows[n - 1], newIds[n - 1]);
        if r.Err? then Err(r.error) else Ok(after)
  }

  /** Seeds audit entries in the order of their times. An error aborts the whole transaction. */
  method InsertAuditRows(store: Store, values: seq<SeedRow>, now: int, collation: Collation, newIds: seq<string>)
    returns (r: Result<(), Error>)
    requires |newIds| == |values|
    modifies store
    ensures var orderedValues := Sorting.Sort(Comparator(collation), WithTimes(values, now));
            var inserted := InsertRows(store.env, old(store.View()), orderedValues, newIds, |values|);
            match r case Ok(_) => inserted == Ok(store.View()) case Err(e) => inserted == Err(e)
  {
    hide IfAbsent, Append, Sorting.Sort, AppendedOrFound, Obstacle, Stored, WithTimes, Comparator;
    if |values| == 0 {
      return Ok(());
    }
    var orderedValues := Sorting.Sort(Comparator(collation), WithTimes(values, now));
    for i := 0 to |orderedValues|
      invariant InsertRows(store.env, old(store.View()), orderedValues, newIds, i) == Ok(store.View())
    {
      var row := orderedValues[i];
      var input := row.entry.(requestedAt := Some(row.createdAt));
      var appended: Result<Row, Error>;
      if row.entry.id.Some? && row.entry.id.value != "" {
        appended := store.AppendAuditLogIfAbsent(input, ById(row.entry.id.value), newIds[i]);
      } else {
        appended := store.AppendAuditLog(input, newIds[i]);
      }
      if appended.Err? {
        StopsWithError(store.env, old(store.View()), orderedValues, newIds, i + 1, |values|);
        return Err(appended.error);
      }
    }
    r := Ok(());
  }

  lemma {:induction false} StopsWithError(env: Env, tables: Tables, rows: seq<Dated>, newIds: seq<string>, m: nat, n: nat)
    requires m <= n <= |rows| == |newIds| && InsertRows(env, tables, rows, newIds, m).Err?
    ensures InsertRows(env, tables, rows, newIds, n) == InsertRows(env, tables, rows, newIds, m)
  {
    hide InsertRow;
    if m < n {
      StopsWithError(env, tables, rows, newIds, m, n - 1);
    }
  }

  // ---------------------------------------------------------------- the times the seeded rows get

  /** The least time in milliseconds entry i can get when every entry of the tenant has to be later than
      the one before it, the first later than the head, and none earlier than requested. */
  function LeastTime(head: Option<int>, requested: seq<int>, i: nat): int
    requires i < |requested|
  {
    if i > 0 then Max(requested[i], LeastTime(head, requested, i - 1) + 1)
    else if head.Some? then Max(requested[i], head.value + 1)
    else requested[i]
  }

  predicate IsSchedule(head: Option<int>, requested: seq<int>, times: seq<int>) {
    && |times| == |requested|
    && (forall i :: 0 <= i < |times| ==> times[i] >= requested[i])
    && (forall i :: 0 < i < |times| ==> times[i - 1] < times[i])
    && (head.Some? && |times| > 0 ==> head.value < times[0])
  }

  lemma {:induction false} LeastTimesAreASchedule(head: Option<int>, requested: seq<int>)
    ensures IsSchedule(head, requested, seq(|requested|, i requires 0 <= i < |requested| => LeastTime(head, requested, i)))
  {
  }

  lemma {:induction false} NoScheduleIsEarlier(head: Option<int>, requested: seq<int>, times: seq<int>, i: nat)
    requires IsSchedule(head, requested, times) && i < |times|
    ensures LeastTime(head, requested, i) <= times[i]
  {
    if i > 0 {
      NoScheduleIsEarlier(head, requested, times, i - 1);
    }
  }

  function Head(chain: seq<Row>): Option<int> {
    if |chain| == 0 then None else Some(Millis(chain[|chain| - 1].createdAt))
  }

  predicate Grew(before: Result<Tables, Error>, after: Result<Tables, Error>, organizationId: string) {
    before.Ok? && after.Ok? && |Of(after.value.log, organizationId)| > |Of(before.value.log, organizationId)|
  }

  /** The requested times of those among the first n rows that were added to the tenant's chain. */
  function Requested(env: Env, tables: Tables, rows: seq<Dated>, newIds: seq<string>, organizationId: string, n: nat): seq<int>
    requires n <= |rows| == |newIds|
  {
    if n == 0 then []
    else
      var added := Grew(InsertRows(env, tables, rows, newIds, n - 1), InsertRows(env, tables, rows, newIds, n), organizationId);
      Requested(env, tables, rows, newIds, organizationId, n - 1) + if added then [rows[n - 1].createdAt] else []
  }

  /** A row appended for `requestedAt` continues its tenant's chain at the least time after the tip's. */
  predicate Extends(env: Env, log: seq<Row>, row: Row, requestedAt: int) {
    var chain := Of(log, row.organizationId);
    Sorted(chain) ==> Continues(env, chain, row) && row.createdAt == 1000 * LeastTime(Head(chain), [requestedAt], 0)
  }

  lemma {:induction false} AppendExtends(env: Env, log: seq<Row>, input: Input, newId: string, requestedAt: int)
    requires Append(env, log, input, newId).Ok? && input.requestedAt == Some(requestedAt)
    ensures Extends(env, log, Append(env, log, input, newId).value, requestedAt)
  {
    hide ComputeEntryHash, Uuid.NormalizeUuid, Uuid.UuidHex, Sorted, Of, Uuid.RequireUuid, Continues;
    var row := Append(env, log, input, newId).value;
    var chain := Of(log, row.organizationId);
    if Sorted(chain) {
      LastIsGreatest(chain, |chain|);
      NewRowContinues(env, chain, input, row.organizationId, newId);
    }
  }

  lemma {:induction false} InsertedRowExtends(env: Env, tables: Tables, row: Dated, newId: string)
    requires InsertRow(env, tables, row, newId).1.Ok?
    ensures var (after, r) := InsertRow(env, tables, row, newId);
            after == tables
            || (after == tables.(log := tables.log + [r.value]) && Extends(env, tables.log, r.value, row.createdAt))
  {
    hide Append, FindRow, Extends, Uuid.NormalizeUuid;
    var input := row.entry.(requestedAt := Some(row.createdAt));
    if row.entry.id.Some? && row.entry.id.value != "" {
      var organizationId := Uuid.RequireUuid(input.organizationId).value;
      var named := input.(id := Some(Uuid.NormalizeUuid(row.entry.id.value)), organizationId := organizationId);
      if FindRow(tables.log, Uuid.NormalizeUuid(row.entry.id.value), organizationId).None? {
        AppendExtends(env, tables.log, named, newId, row.createdAt);
      }
    } else {
      AppendExtends(env, tables.log, input, newId, row.createdAt);
    }
  }

  /** Chain `after` is chain `before` with one row added for each requested time, at the least times. */
  predicate Seeded(env: Env, before: seq<Row>, requested: seq<int>, after: seq<Row>) {
    && |after| == |before| + |requested| && before <= after && Sorted(after)
    && (AllSound(env, before) ==> AllSound(env, after))
    && forall i :: 0 <= i < |requested| ==> after[|before| + i].createdAt == 1000 * LeastTime(Head(before), requested, i)
  }

  lemma {:induction false} LeastTimeOfPrefix(head: Option<int>, requested: seq<int>, more: int, i: nat)
    requires i < |requested|
    ensures LeastTime(head, requested + [more], i) == LeastTime(head, requested, i)
  {
    if i > 0 {
      LeastTimeOfPrefix(head, requested, more, i - 1);
    }
  }

  lemma {:induction false} SeededOneMore(env: Env, before: seq<Row>, requested: seq<int>, after: seq<Row>, row: Row, next: int)
    requires Seeded(env, before, requested, after) && Continues(env, after, row)
    requires row.createdAt == 1000 * LeastTime(Head(after), [next], 0)
    ensures Seeded(env, before, requested + [next], after + [row])
  {
    hide AllSound, Sorted, Continues;
    var longer := requested + [next];
    ContinuedStaysSorted(env, after, row);
    if AllSound(env, before) {
      ContinuedStaysSound(env, after, row);
    }
    forall i | 0 <= i < |longer|
      ensures (after + [row])[|before| + i].createdAt == 1000 * LeastTime(Head(before), longer, i)
    {
      if i < |requested| {
        LeastTimeOfPrefix(Head(before), requested, next, i);
      } else if i > 0 {
        LeastTimeOfPrefix(Head(before), requested, next, i - 1);
        assert after[|before| + i - 1].createdAt == 1000 * LeastTime(Head(before), requested, i - 1);
        assert Head(after) == Some(LeastTime(Head(before), requested, i - 1));
      }
    }
  }

  /** However many tenants the rows belong to, each tenant's chain grows by the rows added to it, stays
      valid if it was, and their times form the pointwise least strictly increasing sequence. */
  lemma {:induction false} SeedingExtendsEveryChain(
      env: Env, tables: Tables, rows: seq<Dated>, newIds: seq<string>, organizationId: string, n: nat)
    requires n <= |rows| == |newIds| && InsertRows(env, tables, rows, newIds, n).Ok? && Sorted(Of(tables.log, organizationId))
    ensures Seeded(env, Of(tables.log, organizationId), Requested(env, tables, rows, newIds, organizationId, n),
                   Of(InsertRows(env, tables, rows, newIds, n).value.log, organizationId))
  {
    hide InsertRow, Of, Seeded, Extends, Sorted;
    var start := Of(tables.log, organizationId);
    if n == 0 {
      NothingSeeded(env, start);
    } else {
      SeedingExtendsEveryChain(env, tables, rows, newIds, organizationId, n - 1);
      var before := InsertRows(env, tables, rows, newIds, n - 1).value;
      var (after, r) := InsertRow(env, before, rows[n - 1], newIds[n - 1]);
      var requested := Requested(env, tables, rows, newIds, organizationId, n - 1);
      assert requested + [] == requested;
      InsertedRowExtends(env, before, rows[n - 1], newIds[n - 1]);
      if after != before {
        OfConcat(before.log, [r.value], organizationId);
        OfOne(r.value, organizationId);
        assert Of(before.log, organizationId) + [] == Of(before.log, organizationId);
        if r.value.organizationId == organizationId {
          SeededSorted(env, start, requested, Of(before.log, organizationId));
          ExtendsChain(env, before.log, r.value, rows[n - 1].createdAt);
          SeededOneMore(env, start, requested, Of(before.log, organizationId), r.value, rows[n - 1].createdAt);
        }
      }
    }
  }

  lemma {:induction false} NothingSeeded(env: Env, chain: seq<Row>)
    requires Sorted(chain)
    ensures Seeded(env, chain, [], chain)
  {
  }

  lemma {:induction false} SeededSorted(env: Env, before: seq<Row>, requested: seq<int>, after: seq<Row>)
    requires Seeded(env, before, requested, after)
    ensures Sorted(after)
  {
  }

  lemma {:induction false} ExtendsChain(env: Env, log: seq<Row>, row: Row, requestedAt: int)
    requires Extends(env, log, row, requestedAt) && Sorted(Of(log, row.organizationId))
    ensures Continues(env, Of(log, row.organizationId), row)
    ensures row.createdAt == 1000 * LeastTime(Head(Of(log, row.organizationId)), [requestedAt], 0)
  {
  }

  predicate NonDecreasing(times: seq<int>) {
    forall i, j :: 0 <= i < j < |times| ==> times[i] <= times[j]
  }

  predicate UpTo(times: seq<int>, bound: int) {
    forall i :: 0 <= i < |times| ==> times[i] <= bound
  }

  /** The times are requested in order, since the rows were sorted by them. */
  lemma {:induction false} RequestedInOrder(
      env: Env, tables: Tables, rows: seq<Dated>, newIds: seq<string>, collation: Collation, organizationId: string, n: nat)
    requires n <= |rows| == |newIds| && Sorting.InOrder(Comparator(collation), rows)
    ensures NonDecreasing(Requested(env, tables, rows, newIds, organizationId, n))
    ensures forall k :: n <= k < |rows| ==> UpTo(Requested(env, tables, rows, newIds, organizationId, n), rows[k].createdAt)
  {
    hide InsertRows, Grew;
    if n > 0 {
      RequestedInOrder(env, tables, rows, newIds, collation, organizationId, n - 1);
      assert UpTo(Requested(env, tables, rows, newIds, organizationId, n - 1), rows[n - 1].createdAt);
      forall k | n <= k < |rows|
        ensures UpTo(Requested(env, tables, rows, newIds, organizationId, n), rows[k].createdAt)
      {
        assert Comparator(collation)(rows[n - 1], rows[k]);
        assert UpTo(Requested(env, tables, rows, newIds, organizationId, n - 1), rows[k].createdAt);
      }
    }
  }

  /** Seeding from the caller's values to the tables: the entries are sorted by time and then by id, each
      tenant's chain grows in that order, stays valid if it was, and no schedule that respects the
      requested times and the chain's head is earlier at any place. */
  lemma {:induction false} SeedingIsLeastInOrder(
      env: Env, tables: Tables, values: seq<SeedRow>, now: int, collation: Collation, newIds: seq<string>,
      organizationId: string, like: Dated)
    requires IsOrder(collation) && |newIds| == |values| && Sorted(Of(tables.log, organizationId))
    requires InsertRows(env, tables, Sorting.Sort(Comparator(collation), WithTimes(values, now)), newIds, |values|).Ok?
    ensures var entries := Sorting.Sort(Comparator(collation), WithTimes(values, now));
            var times := Requested(env, tables, entries, newIds, organizationId, |values|);
            var before := Of(tables.log, organizationId);
            var after := Of(InsertRows(env, tables, entries, newIds, |values|).value.log, organizationId);
            && Sorting.InOrder(Comparator(collation), entries) && multiset(entries) == multiset(WithTimes(values, now))
            && Sorting.Ties(Comparator(collation), entries, like) == Sorting.Ties(Comparator(collation), WithTimes(values, now), like)
            && NonDecreasing(times) && Seeded(env, before, times, after)
            && forall other, i :: IsSchedule(Head(before), times, other) && 0 <= i < |times|
                 ==> after[|before| + i].createdAt <= 1000 * other[i]
  {
    hide InsertRows, Requested, Of, Sorted, AllSound, Sorting.Sort, Sorting.InOrder, Sorting.Ties, Head, LeastTime;
    var entries := Sorting.Sort(Comparator(collation), WithTimes(values, now));
    var times := Requested(env, tables, entries, newIds, organizationId, |values|);
    var before := Of(tables.log, organizationId);
    ComparatorIsOrder(collation);
    Sorting.SortIsStable(Comparator(collation), WithTimes(values, now), like);
    RequestedInOrder(env, tables, entries, newIds, collation, organizationId, |values|);
    SeedingExtendsEveryChain(env, tables, entries, newIds, organizationId, |values|);
    forall other, i | IsSchedule(Head(before), times, other) && 0 <= i < |times|
      ensures LeastTime(Head(before), times, i) <= other[i]
    {
      NoScheduleIsEarlier(Head(before), times, other, i);
    }
  }

  // ---------------------------------------------------------------- seeding again

  predicate Named(row: Dated) {
    row.entry.id.Some? && row.entry.id.value != ""
  }

  /** The row was seeded before: its tenant already has a hashed row with its id. */
  predicate Present(tables: Tables, row: Dated) {
    && Named(row) && Uuid.RequireUuid(row.entry.organizationId).Ok? && Uuid.IsUuid(Uuid.NormalizeUuid(row.entry.id.value))
    && var found := FindRow(tables.log, Uuid.NormalizeUuid(row.entry.id.value), Uuid.RequireUuid(row.entry.organizationId).value);
    found.Some? && found.value.entryHash.Some?
  }

  function AsCall(row: Dated, newId: string): Call
    requires Named(row)
  {
    Call(row.entry.(requestedAt := Some(row.createdAt)), ById(row.entry.id.value), newId)
  }

  lemma {:induction false} PresentIsSkipped(env: Env, tables: Tables, row: Dated, newId: string)
    requires Present(tables, row)
    ensures InsertRow(env, tables, row, newId).0 == tables && InsertRow(env, tables, row, newId).1.Ok?
  {
  }

  lemma {:induction false} InsertedIsPresent(env: Env, tables: Tables, row: Dated, newId: string)
    requires Consistent(tables) && Named(row) && InsertRow(env, tables, row, newId).1.Ok?
    ensures Present(InsertRow(env, tables, row, newId).0, row)
  {
    hide IfAbsent, FindRow, Uuid.NormalizeUuid, Uuid.RequireUuid, Consistent;
    ByIdCallFinds(env, tables, AsCall(row, newId));
  }

  lemma {:induction false} InsertKeepsConsistent(env: Env, tables: Tables, row: Dated, newId: string)
    requires Consistent(tables) && InsertRow(env, tables, row, newId).1.Ok?
    ensures Consistent(InsertRow(env, tables, row, newId).0) && tables.log <= InsertRow(env, tables, row, newId).0.log
  {
    hide Append, Answers, FindRow;
    if Named(row) {
      var call := AsCall(row, newId);
      CallKeepsConsistent(env, tables, call.input, call.mode, newId);
    } else {
      var input := row.entry.(requestedAt := Some(row.createdAt));
      AppendedRow(env, tables.log, input, newId);
      var added := Append(env, tables.log, input, newId).value;
      AppendedStaysUnique(tables.log, added);
      forall claim | claim in tables.claims
        ensures Answers(tables.log + [added], claim, tables.claims[claim].value)
      {
        AnswersPersist(tables.log, [added], claim, tables.claims[claim].value);
      }
    }
  }

  lemma {:induction false} PresentPersists(early: Tables, late: Tables, row: Dated)
    requires Consistent(early) && Consistent(late) && early.log <= late.log && Present(early, row)
    ensures Present(late, row)
  {
    hide Consistent, FindRow;
    FoundRowPersists(early, late, Uuid.NormalizeUuid(row.entry.id.value), Uuid.RequireUuid(row.entry.organizationId).value);
  }

  lemma {:induction false} SeedingKeepsConsistent(
      env: Env, tables: Tables, rows: seq<Dated>, newIds: seq<string>, m: nat, n: nat)
    requires m <= n <= |rows| == |newIds| && Consistent(tables) && InsertRows(env, tables, rows, newIds, n).Ok?
    ensures InsertRows(env, tables, rows, newIds, m).Ok?
    ensures var early, late := InsertRows(env, tables, rows, newIds, m).value, InsertRows(env, tables, rows, newIds, n).value;
            Consistent(early) && Consistent(late) && early.log <= late.log
  {
    hide InsertRow, Consistent;
    if n > 0 {
      if m < n {
        SeedingKeepsConsistent(env, tables, rows, newIds, m, n - 1);
      } else {
        SeedingKeepsConsistent(env, tables, rows, newIds, n - 1, n - 1);
      }
      InsertKeepsConsistent(env, InsertRows(env, tables, rows, newIds, n - 1).value, rows[n - 1], newIds[n - 1]);
    }
  }

  /** Every named row that was seeded is there afterwards. */
  lemma {:induction false} SeededRowsArePresent(env: Env, tables: Tables, rows: seq<Dated>, newIds: seq<string>, n: nat, i: nat)
    requires i < n <= |rows| == |newIds| && Consistent(tables) && InsertRows(env, tables, rows, newIds, n).Ok? && Named(rows[i])
    ensures Present(InsertRows(env, tables, rows, newIds, n).value, rows[i])
  {
    hide InsertRow, Consistent, Present;
    SeedingKeepsConsistent(env, tables, rows, newIds, i, n);
    SeedingKeepsConsistent(env, tables, rows, newIds, i + 1, n);
    var before := InsertRows(env, tables, rows, newIds, i).value;
    InsertedIsPresent(env, before, rows[i], newIds[i]);
    PresentPersists(InsertRows(env, tables, rows, newIds, i + 1).value, InsertRows(env, tables, rows, newIds, n).value, rows[i]);
  }

  /** Same tenant and same id, in whatever spelling; everything else may differ. */
  predicate SameIdentity(a: Dated, b: Dated) {
    && Named(a) && Named(b) && Uuid.NormalizeUuid(a.entry.id.value) == Uuid.NormalizeUuid(b.entry.id.value)
    && Uuid.RequireUuid(a.entry.organizationId) == Uuid.RequireUuid(b.entry.organizationId)
  }

  predicate IsRerunOf(again: seq<Dated>, rows: seq<Dated>) {
    forall i :: 0 <= i < |again| ==> exists j :: 0 <= j < |rows| && SameIdentity(rows[j], again[i])
  }

  /** Seeding rows that were all named and seeded before succeeds and changes nothing, in any order and
      even after other rows were appended. */
  lemma {:induction false} SeedingAgainChangesNothing(
      env: Env, tables: Tables, rows: seq<Dated>, newIds: seq<string>,
      late: Tables, again: seq<Dated>, newerIds: seq<string>, n: nat)
    requires |rows| == |newIds| && Consistent(tables) && InsertRows(env, tables, rows, newIds, |rows|).Ok?
    requires Consistent(late) && InsertRows(env, tables, rows, newIds, |rows|).value.log <= late.log
    requires n <= |again| == |newerIds| && IsRerunOf(again, rows)
    ensures InsertRows(env, late, again, newerIds, n) == Ok(late)
  {
    hide InsertRow, Consistent, Present, SameIdentity;
    if n > 0 {
      SeedingAgainChangesNothing(env, tables, rows, newIds, late, again, newerIds, n - 1);
      var j :| 0 <= j < |rows| && SameIdentity(rows[j], again[n - 1]);
      assert Named(rows[j]) by {
        SameIdentityNames(rows[j], again[n - 1]);
      }
      SeedingKeepsConsistent(env, tables, rows, newIds, |rows|, |rows|);
      SeededRowsArePresent(env, tables, rows, newIds, |rows|, j);
      PresentPersists(InsertRows(env, tables, rows, newIds, |rows|).value, late, rows[j]);
      SamePresence(late, rows[j], again[n - 1]);
      PresentIsSkipped(env, late, again[n - 1], newerIds[n - 1]);
    }
  }

  lemma {:induction false} SameIdentityNames(a: Dated, b: Dated)
    requires SameIdentity(a, b)
    ensures Named(a)
  {
  }

  lemma {:induction false} SamePresence(tables: Tables, a: Dated, b: Dated)
    requires SameIdentity(a, b) && Present(tables, a)
    ensures Present(tables, b)
  {
  }

  // ---------------------------------------------------------------- what each of the caller's values leads to

  function TimeOf(value: SeedRow, now: int): int {
    match value.createdAt
    case Some(time) => time
    case None => now
  }

  /** The entry to record for a value: at the caller's time, or now where it names none. */
  function ToRecord(value: SeedRow, now: int): Input {
    value.entry.(requestedAt := Some(TimeOf(value, now)))
  }

  /** A value without an id, or with one that no row of the tenant has, leads to a new row that stores it; for
      any other the row with its id is found. */
  predicate CarriedOut(before: Tables, value: SeedRow, now: int, newId: string, after: Tables, row: Row) {
    var id := value.entry.id;
    if id.Some? && id.value != "" && !Fresh(before, ToRecord(value, now), ById(id.value))
    then after == before && Found(before, ToRecord(value, now), ById(id.value), row)
    else after.log == before.log + [row] && Stored(before.log, row, ToRecord(value, now), newId)
  }

  lemma {:induction false} InsertCarriesOut(env: Env, tables: Tables, value: SeedRow, now: int, row: Dated, newId: string)
    requires row == Dated(value.entry, TimeOf(value, now)) && InsertRow(env, tables, row, newId).1.Ok?
    ensures var (after, r) := InsertRow(env, tables, row, newId);
            CarriedOut(tables, value, now, newId, after, r.value)
  {
    hide IfAbsent, Append, Fresh, Found, Stored, Obstacle;
    var input := ToRecord(value, now);
    if row.entry.id.Some? && row.entry.id.value != "" {
      FreshIsAppended(env, tables, input, ById(row.entry.id.value), newId);
      assert EntryOf(input, ById(row.entry.id.value)) == input;
    } else {
      AppendSucceedsExactlyWhen(env, tables.log, input, newId);
    }
  }

  lemma {:induction false} InsertedWhenAllAre(env: Env, tables: Tables, rows: seq<Dated>, newIds: seq<string>, j: nat, n: nat)
    requires j < n <= |rows| == |newIds| && InsertRows(env, tables, rows, newIds, n).Ok?
    ensures InsertRows(env, tables, rows, newIds, j).Ok?
    ensures var before := InsertRows(env, tables, rows, newIds, j).value;
            var (after, r) := InsertRow(env, before, rows[j], newIds[j]);
            r.Ok? && InsertRows(env, tables, rows, newIds, j + 1) == Ok(after)
  {
    hide InsertRow;
    if j < n - 1 {
      InsertedWhenAllAre(env, tables, rows, newIds, j, n - 1);
    } else {
      assert InsertRows(env, tables, rows, newIds, j + 1) == InsertRows(env, tables, rows, newIds, n);
      assert InsertRows(env, tables, rows, newIds, n - 1).Ok?;
      var step := InsertRow(env, InsertRows(env, tables, rows, newIds, n - 1).value, rows[n - 1], newIds[n - 1]);
      assert step.1.Ok? && InsertRows(env, tables, rows, newIds, n) == Ok(step.0);
    }
  }

  lemma {:induction false} PlaceInSorted(collation: Collation, rows: seq<Dated>, k: nat) returns (j: nat)
    requires IsOrder(collation) && k < |rows|
    ensures j < |rows| == |Sorting.Sort(Comparator(collation), rows)| && Sorting.Sort(Comparator(collation), rows)[j] == rows[k]
  {
    ComparatorIsOrder(collation);
    Sorting.SortIsStable(Comparator(collation), rows, rows[k]);
    hide Sorting.Sort;
    assert rows[k] in multiset(rows);
    assert rows[k] in Sorting.Sort(Comparator(collation), rows);
    j :| 0 <= j < |Sorting.Sort(Comparator(collation), rows)| && Sorting.Sort(Comparator(collation), rows)[j] == rows[k];
  }

  /** When seeding succeeds, each of the caller's values has been carried out at its place in the order, and its
      row is there in the end. */
  lemma {:induction false} EveryValueIsCarriedOut(
      env: Env, tables: Tables, values: seq<SeedRow>, now: int, collation: Collation, newIds: seq<string>, k: nat)
    returns (j: nat, before: Tables, after: Tables, row: Row)
    requires IsOrder(collation) && |newIds| == |values| && k < |values| && Consistent(tables)
    requires InsertRows(env, tables, Sorting.Sort(Comparator(collation), WithTimes(values, now)), newIds, |values|).Ok?
    ensures j < |values| && CarriedOut(before, values[k], now, newIds[j], after, row)
    ensures var entries := Sorting.Sort(Comparator(collation), WithTimes(values, now));
            && InsertRows(env, tables, entries, newIds, j) == Ok(before) && InsertRows(env, tables, entries, newIds, j + 1) == Ok(after)
            && row in after.log && after.log <= InsertRows(env, tables, entries, newIds, |values|).value.log
  {
    hide InsertRow, InsertRows, CarriedOut, Consistent, Sorting.Sort, IsOrder;
    var entries := Sorting.Sort(Comparator(collation), WithTimes(values, now));
    j := PlaceInSorted(collation, WithTimes(values, now), k);
    InsertedWhenAllAre(env, tables, entries, newIds, j, |values|);
    SeedingKeepsConsistent(env, tables, entries, newIds, j + 1, |values|);
    before := InsertRows(env, tables, entries, newIds, j).value;
    after := InsertRows(env, tables, entries, newIds, j + 1).value;
    row := InsertRow(env, before, entries[j], newIds[j]).1.value;
    InsertCarriesOut(env, before, values[k], now, entries[j], newIds[j]);
    CarriedOutIsThere(before, values[k], now, newIds[j], after, row);
  }

  lemma {:induction false} CarriedOutIsThere(before: Tables, value: SeedRow, now: int, newId: string, after: Tables, row: Row)
    requires CarriedOut(before, value, now, newId, after, row)
    ensures row in after.log
  {
    hide Fresh, Stored;
  }
}
