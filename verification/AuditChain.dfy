/** Audit rows, their hash links, and the chain verifier of packages/db/src/audit-integrity.ts. */
module AuditChain {
  import opened Wrappers
  import opened AuditPayload

  /** The library behaviour the chain is built on: the digest of a payload, and the database's text of
      a timestamp given in microseconds. Neither is assumed to be injective unless a lemma says so. */
  datatype Env = Env(hash: string -> string, stamp: int -> string)

  /** A row of the audit table. `changes` and `metadata` are the database's canonical JSON text and
      `createdAt` counts microseconds. */
  datatype Row = Row(
    id: string,
    organizationId: string,
    userId: Option<string>,
    entityType: string,
    entityId: string,
    action: string,
    changes: string,
    metadata: string,
    createdAt: int,
    prevHash: Option<string>,
    entryHash: Option<string>
  )

  function Fields(env: Env, row: Row): HashFields {
    HashFields(row.id, row.organizationId, row.userId, row.entityType, row.entityId, row.action,
               row.changes, row.metadata, env.stamp(row.createdAt), row.prevHash)
  }

  function Payload(env: Env, row: Row): string {
    CanonicalPayload(Fields(env, row))
  }

  function ComputeEntryHash(env: Env, row: Row): string {
    env.hash(Payload(env, row))
  }

  /** The time a JavaScript Date keeps of a database timestamp. */
  function Millis(microseconds: int): int {
    microseconds / 1000
  }

  // ---------------------------------------------------------------- the verifier

  datatype Reason = MissingPrevHash | PrevHashMismatch | EntryHashMismatch

  datatype Failure = Failure(
    entryId: string,
    previousEntryId: Option<string>,
    reason: Reason,
    expectedPrevHash: Option<string>,
    actualPrevHash: Option<string>,
    expectedEntryHash: string,
    actualEntryHash: Option<string>
  )

  datatype Verification = Verification(valid: bool, checkedEntries: nat, firstBrokenLink: Option<Failure>)

  datatype Range = Range(from: Option<int>, to: Option<int>)

  const FULL_RANGE := Range(None, None)

  predicate InRange(range: Range, row: Row) {
    && (range.from.Some? ==> Millis(row.createdAt) >= range.from.value)
    && (range.to.Some? ==> Millis(row.createdAt) <= range.to.value)
  }

  /** A range names milliseconds, and takes in every microsecond of its first and of its last one. */
  lemma {:induction false} RangeTakesIn(from: Option<int>, to: Option<int>, row: Row)
    ensures InRange(Range(from, to), row)
            <==> (from == None || 1000 * from.value <= row.createdAt) && (to == None || row.createdAt < 1000 * (to.value + 1))
  {
  }

  function ExpectedPrevHash(rows: seq<Row>, i: nat): Option<string>
    requires i < |rows|
  {
    if i == 0 then None else rows[i - 1].entryHash
  }

  /** Row i links to its predecessor's stored hash and carries its own hash. */
  predicate Sound(env: Env, rows: seq<Row>, i: nat)
    requires i < |rows|
  {
    rows[i].prevHash == ExpectedPrevHash(rows, i) && rows[i].entryHash == Some(ComputeEntryHash(env, rows[i]))
  }

  predicate AllSound(env: Env, rows: seq<Row>) {
    forall i :: 0 <= i < |rows| ==> Sound(env, rows, i)
  }

  function InRangeTo(range: Range, rows: seq<Row>, n: nat): set<nat>
    requires n <= |rows|
  {
    set i: nat | i < n && InRange(range, rows[i])
  }

  lemma {:induction false} NoneCounted(range: Range, rows: seq<Row>)
    ensures |InRangeTo(range, rows, 0)| == 0
  {
  }

  lemma {:induction false} CountedNext(range: Range, rows: seq<Row>, n: nat)
    requires n < |rows|
    ensures |InRangeTo(range, rows, n + 1)| == |InRangeTo(range, rows, n)| + if InRange(range, rows[n]) then 1 else 0
  {
    assert InRangeTo(range, rows, n + 1) == InRangeTo(range, rows, n) + if InRange(range, rows[n]) then {n} else {};
  }

  /** What the verifier must report about the row where it stops. */
  predicate Reports(env: Env, rows: seq<Row>, k: nat, failure: Failure)
    requires k < |rows|
  {
    && failure.entryId == rows[k].id
    && failure.previousEntryId == (if k == 0 then None else Some(rows[k - 1].id))
    && failure.expectedPrevHash == ExpectedPrevHash(rows, k) && failure.actualPrevHash == rows[k].prevHash
    && failure.expectedEntryHash == ComputeEntryHash(env, rows[k]) && failure.actualEntryHash == rows[k].entryHash
    && match failure.reason
       case MissingPrevHash => rows[k].prevHash == None && ExpectedPrevHash(rows, k) != None
       case PrevHashMismatch => rows[k].prevHash != None && rows[k].prevHash != ExpectedPrevHash(rows, k)
       case EntryHashMismatch =>
         rows[k].prevHash == ExpectedPrevHash(rows, k) && rows[k].entryHash != Some(ComputeEntryHash(env, rows[k]))
  }

  /** The verifier stopped at row k: the earliest unsound row in range, counting the rows up to it. */
  predicate StopsAt(env: Env, rows: seq<Row>, range: Range, k: nat, r: Verification)
    requires k < |rows| && r.firstBrokenLink.Some?
  {
    && InRange(range, rows[k]) && !Sound(env, rows, k) && Reports(env, rows, k, r.firstBrokenLink.value)
    && (forall i :: 0 <= i < k && InRange(range, rows[i]) ==> Sound(env, rows, i))
    && r.checkedEntries == |InRangeTo(range, rows, k + 1)|
  }

  /** Walks one tenant's rows, oldest first, and stops at the first unsound row inside the range. */
  method VerifyAuditChain(env: Env, rows: seq<Row>, range: Range) returns (r: Verification)
    ensures r.valid <==> forall i :: 0 <= i < |rows| && InRange(range, rows[i]) ==> Sound(env, rows, i)
    ensures r.valid ==> r.firstBrokenLink == None && r.checkedEntries == |InRangeTo(range, rows, |rows|)|
    ensures !r.valid ==> r.firstBrokenLink.Some? && exists k :: 0 <= k < |rows| && StopsAt(env, rows, range, k, r)
  {
    hide ComputeEntryHash, InRangeTo;
    var previous: Option<Row> := None;
    var checkedEntries := 0;
    NoneCounted(range, rows);
    for k := 0 to |rows|
      invariant previous == if k == 0 then None else Some(rows[k - 1])
      invariant checkedEntries == |InRangeTo(range, rows, k)|
      invariant forall i :: 0 <= i < k && InRange(range, rows[i]) ==> Sound(env, rows, i)
    {
      var row := rows[k];
      var inRange := InRange(range, row);
      CountedNext(range, rows, k);
      if inRange {
        checkedEntries := checkedEntries + 1;
      }
      var expectedPrevHash := if previous.Some? then previous.value.entryHash else None;
      var expectedEntryHash := ComputeEntryHash(env, row);
      var reason: Option<Reason> := None;
      if row.prevHash != expectedPrevHash {
        reason := Some(if row.prevHash == None then MissingPrevHash else PrevHashMismatch);
      } else if row.entryHash != Some(expectedEntryHash) {
        reason := Some(EntryHashMismatch);
      }
      if reason.Some? && inRange {
        var failure := Failure(row.id, if previous.Some? then Some(previous.value.id) else None, reason.value,
                               expectedPrevHash, row.prevHash, expectedEntryHash, row.entryHash);
        assert Reports(env, rows, k, failure);
        r := Verification(false, checkedEntries, Some(failure));
        assert StopsAt(env, rows, range, k, r);
        return;
      }
      previous := Some(row);
    }
    r := Verification(true, checkedEntries, None);
  }

  /** A chain that is sound as a whole is sound in every range; the whole range asks for all rows. */
  lemma {:induction false} FullRangeIsStrongest(env: Env, rows: seq<Row>, range: Range)
    ensures AllSound(env, rows) <==> forall i :: 0 <= i < |rows| && InRange(FULL_RANGE, rows[i]) ==> Sound(env, rows, i)
    ensures AllSound(env, rows) ==> forall i :: 0 <= i < |rows| && InRange(range, rows[i]) ==> Sound(env, rows, i)
  {
  }

  // ---------------------------------------------------------------- tamper evidence

  /** Two rows, one of each list, with different payloads and the same digest. */
  predicate Collides(env: Env, a: seq<Row>, b: seq<Row>) {
    exists i, j :: 0 <= i < |a| && 0 <= j < |b|
      && Payload(env, a[i]) != Payload(env, b[j]) && ComputeEntryHash(env, a[i]) == ComputeEntryHash(env, b[j])
  }

  lemma {:induction false} SameHashSameFields(env: Env, a: seq<Row>, i: nat, b: seq<Row>, j: nat)
    requires i < |a| && j < |b| && Sound(env, a, i) && Sound(env, b, j)
    requires a[i].entryHash == b[j].entryHash && !Collides(env, a, b)
    ensures Fields(env, a[i]) == Fields(env, b[j])
  {
    hide Fields, CanonicalPayload;
    assert Payload(env, a[i]) == Payload(env, b[j]);
    CanonicalPayloadInjective(Fields(env, a[i]), Fields(env, b[j]));
  }

  /** Walking back from equal hashes, both chains run out at the same time and agree row by row. */
  lemma {:induction false} SamePast(env: Env, a: seq<Row>, i: nat, b: seq<Row>, j: nat)
    requires i < |a| && j < |b| && AllSound(env, a) && AllSound(env, b)
    requires a[i].entryHash == b[j].entryHash && !Collides(env, a, b)
    ensures i == j
    ensures forall k :: 0 <= k <= i ==> Fields(env, a[k]) == Fields(env, b[k]) && a[k].entryHash == b[k].entryHash
  {
    hide Collides, Payload, ComputeEntryHash;
    assert Sound(env, a, i) && Sound(env, b, j);
    assert i > 0 ==> Sound(env, a, i - 1);
    assert j > 0 ==> Sound(env, b, j - 1);
    SameHashSameFields(env, a, i, b, j);
    assert Fields(env, a[i]).prevHash == Fields(env, b[j]).prevHash;
    if i > 0 && j > 0 {
      SamePast(env, a, i - 1, b, j - 1);
    }
  }

  predicate SameEntries(env: Env, a: seq<Row>, b: seq<Row>) {
    && |a| == |b|
    && forall k :: 0 <= k < |a| ==> Fields(env, a[k]) == Fields(env, b[k]) && a[k].entryHash == b[k].entryHash
  }

  /** Two fully verified chains that end in the same entry hash hold the same entries, or else their
      rows exhibit a collision of the digest. */
  lemma {:induction false} ChainIsDeterminedByItsTip(env: Env, a: seq<Row>, b: seq<Row>)
    requires AllSound(env, a) && AllSound(env, b) && |a| > 0 && |b| > 0
    requires a[|a| - 1].entryHash == b[|b| - 1].entryHash
    ensures Collides(env, a, b) || SameEntries(env, a, b)
  {
    hide Sound, Collides, Fields;
    if !Collides(env, a, b) {
      SamePast(env, a, |a| - 1, b, |b| - 1);
    }
  }

  lemma {:induction false} SameEntriesSameRows(env: Env, a: seq<Row>, b: seq<Row>)
    requires SameEntries(env, a, b)
    requires forall s, t :: env.stamp(s) == env.stamp(t) ==> s == t
    ensures a == b
  {
  }

  /** Editing, dropping, adding or reordering rows before an untouched tip is always noticed, unless
      the digest collides on the rows at hand. */
  lemma {:induction false} TamperingIsNoticed(env: Env, rows: seq<Row>, tampered: seq<Row>)
    requires AllSound(env, rows) && |rows| > 0 && |tampered| > 0 && tampered != rows
    requires tampered[|tampered| - 1] == rows[|rows| - 1]
    requires forall s, t :: env.stamp(s) == env.stamp(t) ==> s == t
    ensures !AllSound(env, tampered) || Collides(env, rows, tampered)
  {
    hide AllSound, Collides, SameEntries;
    if AllSound(env, tampered) {
      ChainIsDeterminedByItsTip(env, rows, tampered);
      if SameEntries(env, rows, tampered) {
        SameEntriesSameRows(env, rows, tampered);
      }
    }
  }

  predicate UniqueIds(rows: seq<Row>) {
    forall i, j :: 0 <= i < j < |rows| ==> rows[i].id != rows[j].id
  }

  /** A verified chain does not fork: no two of its rows continue the same row. */
  lemma {:induction false} ChainIsUnforked(env: Env, rows: seq<Row>, i: nat, j: nat)
    requires AllSound(env, rows) && UniqueIds(rows) && !Collides(env, rows, rows) && i < j < |rows|
    ensures rows[i].prevHash != rows[j].prevHash
  {
    hide Collides, ComputeEntryHash;
    assert Sound(env, rows, i) && Sound(env, rows, j) && Sound(env, rows, j - 1);
    if i > 0 {
      assert Sound(env, rows, i - 1);
      if rows[i - 1].entryHash == rows[j - 1].entryHash {
        assert rows[i - 1].id != rows[j - 1].id;
        SameHashSameFields(env, rows, i - 1, rows, j - 1);
      }
    }
  }
}
