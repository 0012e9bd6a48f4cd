/** Chaining the audit rows written before the hash columns existed, from packages/db/src/migrate.ts. */
module AuditBackfill {
  import opened Wrappers
  import opened AuditAppend
  import opened AuditChain
  import Uuid = AuditUuid

  const BATCH_SIZE: nat := 500

  datatype BackfillError = BrokenPrefix

  // ---------------------------------------------------------------- one batch

  /** The first unhashed row at or after `from`, or the number of rows. */
  function FirstHole(rows: seq<Row>, from: nat): (i: nat)
    requires from <= |rows|
    ensures from <= i <= |rows|
    ensures forall k :: from <= k < i ==> rows[k].entryHash.Some?
    ensures i < |rows| ==> rows[i].entryHash.None?
    decreases |rows| - from
  {
    if from == |rows| || rows[from].entryHash.None? then from else FirstHole(rows, from + 1)
  }

  function Relinked(env: Env, row: Row, prevHash: Option<string>): Row {
    row.(prevHash := prevHash, entryHash := Some(ComputeEntryHash(env, row.(prevHash := prevHash))))
  }

  /** The hash row i has to link to when the rows from `from` on are chained anew. */
  function LinkAt(env: Env, rows: seq<Row>, from: nat, i: nat): Option<string>
    requires from <= i <= |rows|
  {
    if i > from then Relinked(env, rows[i - 1], LinkAt(env, rows, from, i - 1)).entryHash
    else if i == 0 then None
    else rows[i - 1].entryHash
  }

  /** The rows after those in from..to have been chained anew. */
  function Rechained(env: Env, rows: seq<Row>, from: nat, to: nat): (r: seq<Row>)
    requires from <= to <= |rows|
    ensures |r| == |rows|
  {
    seq(|rows|, i requires 0 <= i < |rows| =>
      if from <= i < to then Relinked(env, rows[i], LinkAt(env, rows, from, i)) else rows[i])
  }

  function BatchEnd(rows: seq<Row>, from: nat, size: nat): (to: nat)
    requires from <= |rows|
    ensures from <= to <= |rows|
  {
    if from + size < |rows| then from + size else |rows|
  }

  function Batch(env: Env, rows: seq<Row>, size: nat): (r: seq<Row>)
    ensures |r| == |rows|
  {
    var i := FirstHole(rows, 0);
    Rechained(env, rows, i, BatchEnd(rows, i, size))
  }

  function Holes(rows: seq<Row>): set<nat> {
    set i: nat | i < |rows| && rows[i].entryHash.None?
  }

  /** A batch hashes its first hole and opens none, so batches come to an end. */
  lemma {:induction false} BatchFillsHoles(env: Env, rows: seq<Row>, size: nat)
    requires Holes(rows) != {} && size > 0
    ensures Holes(Batch(env, rows, size)) < Holes(rows)
    ensures FirstHole(rows, 0) < |rows|
  {
    hide ComputeEntryHash, LinkAt;
    var i :| i in Holes(rows);
    var first := FirstHole(rows, 0);
    assert first in Holes(rows) && first !in Holes(Batch(env, rows, size));
  }

  /** The rows after batches have run until one of them finds nothing to do. */
  function Backfilled(env: Env, rows: seq<Row>, size: nat): seq<Row>
    requires size > 0
    decreases Holes(rows)
  {
    if Holes(rows) == {} then rows
    else
      BatchFillsHoles(env, rows, size);
      Backfilled(env, Batch(env, rows, size), size)
  }

  // ---------------------------------------------------------------- the table

  /** The audit table, each tenant's rows in (created_at, id) order. */
  class AuditTable {
    const env: Env
    var chains: map<string, seq<Row>>

    constructor (env: Env, chains: map<string, seq<Row>>)
      ensures this.env == env && this.chains == chains
    {
      this.env, this.chains := env, chains;
    }

    /** Chains one bounded batch of a tenant's rows and says whether there was one. The "broken prefix"
        error is never raised. */
    method BackfillAuditOrganizationBatch(organizationId: string) returns (r: Result<bool, BackfillError>)
      requires organizationId in chains
      modifies this
      ensures r == Ok(Holes(old(chains)[organizationId]) != {})
      ensures chains == old(chains)[organizationId := Batch(env, old(chains)[organizationId], BATCH_SIZE)]
    {
      hide ComputeEntryHash, Rechained, LinkAt, Holes, FirstHole;
      ghost var start := chains[organizationId];
      var first := FirstUnhashed(chains[organizationId]);
      HolesFromFirst(env, start);
      if first == |chains[organizationId]| {
        assert chains == old(chains)[organizationId := start];
        return Ok(false);
      }
      var previous := if first == 0 then None else Some(chains[organizationId][first - 1]);
      if previous.Some? && previous.value.entryHash.None? {
        return Err(BrokenPrefix);
      }
      var end := BatchEnd(chains[organizationId], first, BATCH_SIZE);
      var previousHash := if previous.Some? then previous.value.entryHash else None;
      RechainedFirst(env, start, first);
      for k := first to end
        invariant organizationId in chains && chains == old(chains)[organizationId := chains[organizationId]]
        invariant chains[organizationId] == Rechained(env, start, first, k)
        invariant previousHash == LinkAt(env, start, first, k)
      {
        RechainedNext(env, start, first, k);
        var row := chains[organizationId][k];
        var entryHash := ComputeEntryHash(env, row.(prevHash := previousHash));
        if row.prevHash != previousHash || row.entryHash != Some(entryHash) {
          var rows := chains[organizationId];
          chains := chains[organizationId := rows[k := row.(prevHash := previousHash, entryHash := Some(entryHash))]];
        }
        previousHash := Some(entryHash);
      }
      return Ok(true);
    }

    /** Runs batches for every tenant with unhashed rows until none is left. */
    method EnsureAuditHashChain() returns (r: Result<(), BackfillError>)
      modifies this
      ensures r == Ok(())
      ensures chains.Keys == old(chains).Keys
      ensures forall o :: o in chains ==> chains[o] == Backfilled(env, old(chains)[o], BATCH_SIZE)
    {
      hide Batch, Holes, FirstHole;
      var organizations := set o | o in chains && exists i :: 0 <= i < |chains[o]| && chains[o][i].entryHash.None?;
      forall o | o in chains && o !in organizations
        ensures Holes(chains[o]) == {}
      {
        NoHoles(chains[o]);
      }
      var todo := organizations;
      while todo != {}
        invariant chains.Keys == old(chains).Keys && todo <= organizations
        invariant forall o :: o in chains && o in todo ==> chains[o] == old(chains)[o]
        invariant forall o :: o in chains && o !in todo ==> chains[o] == Backfilled(env, old(chains)[o], BATCH_SIZE)
      {
        var organizationId :| organizationId in todo;
        ghost var before := chains;
        var hasMore := true;
        while hasMore
          invariant organizationId in chains && chains == before[organizationId := chains[organizationId]]
          invariant Backfilled(env, chains[organizationId], BATCH_SIZE)
                    == Backfilled(env, before[organizationId], BATCH_SIZE)
          invariant !hasMore ==> Holes(chains[organizationId]) == {}
          decreases hasMore, Holes(chains[organizationId])
        {
          ghost var rows := chains[organizationId];
          var batch := BackfillAuditOrganizationBatch(organizationId);
          if batch.Err? {
            return Err(BrokenPrefix);
          }
          hasMore := batch.value;
          if hasMore {
            BatchFillsHoles(env, rows, BATCH_SIZE);
          } else {
            HolesFromFirst(env, rows);
          }
        }
        todo := todo - {organizationId};
      }
      r := Ok(());
    }
  }

  method FirstUnhashed(rows: seq<Row>) returns (first: nat)
    ensures first == FirstHole(rows, 0)
  {
    first := 0;
    while first < |rows| && rows[first].entryHash.Some?
      invariant first <= |rows| && FirstHole(rows, 0) == FirstHole(rows, first)
    {
      first := first + 1;
    }
  }

  lemma {:induction false} HolesFromFirst(env: Env, rows: seq<Row>)
    ensures Holes(rows) == {} <==> FirstHole(rows, 0) == |rows|
    ensures Holes(rows) == {} ==> Batch(env, rows, BATCH_SIZE) == rows
    ensures forall k :: 0 <= k < FirstHole(rows, 0) ==> rows[k].entryHash.Some?
  {
    hide ComputeEntryHash, LinkAt;
    var first := FirstHole(rows, 0);
    assert first < |rows| ==> first in Holes(rows);
  }

  lemma {:induction false} RechainedFirst(env: Env, rows: seq<Row>, from: nat)
    requires from <= |rows|
    ensures Rechained(env, rows, from, from) == rows
    ensures LinkAt(env, rows, from, from) == if from == 0 then None else rows[from - 1].entryHash
  {
  }

  lemma {:induction false} RechainedNext(env: Env, rows: seq<Row>, from: nat, k: nat)
    requires from <= k < |rows|
    ensures Rechained(env, rows, from, k)[k] == rows[k]
    ensures Rechained(env, rows, from, k + 1)
            == Rechained(env, rows, from, k)[k := Relinked(env, rows[k], LinkAt(env, rows, from, k))]
    ensures LinkAt(env, rows, from, k + 1) == Relinked(env, rows[k], LinkAt(env, rows, from, k)).entryHash
  {
  }

  lemma {:induction false} NoHoles(rows: seq<Row>)
    requires forall i :: 0 <= i < |rows| ==> rows[i].entryHash.Some?
    ensures Holes(rows) == {}
  {
  }

  // ---------------------------------------------------------------- what the batches leave behind

  /** Row k falls into one of the batches that start at the first holes found from `from` on. Only the
      places of the unhashed rows decide this. */
  predicate Covered(rows: seq<Row>, from: nat, size: nat, k: nat)
    requires from <= |rows| && size > 0
    decreases |rows| - from
  {
    var i := FirstHole(rows, from);
    i < |rows| && i <= k && (k < BatchEnd(rows, i, size) || Covered(rows, BatchEnd(rows, i, size), size, k))
  }

  predicate SameHoles(a: seq<Row>, b: seq<Row>, from: nat) {
    |a| == |b| && forall k :: from <= k < |a| ==> a[k].entryHash.None? == b[k].entryHash.None?
  }

  lemma {:induction false} SameFirstHole(a: seq<Row>, b: seq<Row>, from: nat)
    requires from <= |a| && SameHoles(a, b, from)
    ensures FirstHole(a, from) == FirstHole(b, from)
    decreases |a| - from
  {
  }

  lemma {:induction false} SameCover(a: seq<Row>, b: seq<Row>, from: nat, size: nat, k: nat)
    requires from <= |a| && SameHoles(a, b, from) && size > 0
    ensures Covered(a, from, size, k) == Covered(b, from, size, k)
    decreases |a| - from
  {
    SameFirstHole(a, b, from);
    var i := FirstHole(a, from);
    if i < |a| {
      SameCover(a, b, BatchEnd(a, i, size), size, k);
    }
  }

  lemma {:induction false} HashedSkipped(rows: seq<Row>, from: nat, to: nat)
    requires from <= to <= |rows| && forall k :: from <= k < to ==> rows[k].entryHash.Some?
    ensures FirstHole(rows, from) == FirstHole(rows, to)
    decreases |rows| - from
  {
  }

  /** After a batch, the next batches cover what they would have covered before it. */
  lemma {:induction false} CoverAfterBatch(env: Env, rows: seq<Row>, size: nat, k: nat)
    requires size > 0
    ensures var i := FirstHole(rows, 0);
            Covered(Batch(env, rows, size), 0, size, k) == Covered(rows, BatchEnd(rows, i, size), size, k)
    ensures Covered(Batch(env, rows, size), 0, size, k) ==> k >= BatchEnd(rows, FirstHole(rows, 0), size)
  {
    hide ComputeEntryHash, LinkAt;
    var end := BatchEnd(rows, FirstHole(rows, 0), size);
    var after := Batch(env, rows, size);
    SameCover(rows, after, end, size, k);
    HashedSkipped(after, 0, end);
  }

  /** A row in a batch is linked to its final predecessor and hashed anew; any other row is left alone. */
  predicate Patched(env: Env, rows: seq<Row>, final: seq<Row>, size: nat, k: nat)
    requires k < |rows| == |final| && size > 0
  {
    final[k] == if Covered(rows, 0, size, k) then Relinked(env, rows[k], ExpectedPrevHash(final, k)) else rows[k]
  }

  lemma {:induction false} BackfillPatches(env: Env, rows: seq<Row>, size: nat)
    requires size > 0
    ensures var final := Backfilled(env, rows, size);
            |final| == |rows| && Holes(final) == {} && forall k :: 0 <= k < |rows| ==> Patched(env, rows, final, size, k)
    decreases Holes(rows)
  {
    hide ComputeEntryHash, LinkAt, Batch, Covered, Relinked;
    var final := Backfilled(env, rows, size);
    if Holes(rows) == {} {
      forall k | 0 <= k < |rows|
        ensures Patched(env, rows, final, size, k)
      {
        NothingCovered(rows, size, k);
      }
    } else {
      BatchFillsHoles(env, rows, size);
      BackfillPatches(env, Batch(env, rows, size), size);
      forall k | 0 <= k < |rows|
        ensures Patched(env, rows, final, size, k)
      {
        BatchThenPatch(env, rows, final, size, k);
      }
    }
  }

  lemma {:induction false} NothingCovered(rows: seq<Row>, size: nat, k: nat)
    requires Holes(rows) == {} && size > 0
    ensures !Covered(rows, 0, size, k)
  {
    var i := FirstHole(rows, 0);
    assert i < |rows| ==> i in Holes(rows);
  }

  lemma {:induction false} BatchThenPatch(env: Env, rows: seq<Row>, final: seq<Row>, size: nat, k: nat)
    requires k < |rows| == |final| && size > 0 && FirstHole(rows, 0) < |rows|
    requires forall j :: 0 <= j < |rows| ==> Patched(env, Batch(env, rows, size), final, size, j)
    ensures Patched(env, rows, final, size, k)
  {
    hide ComputeEntryHash, LinkAt, Relinked, Covered;
    var first := FirstHole(rows, 0);
    var end := BatchEnd(rows, first, size);
    CoverStart(rows, size, k);
    CoverAfterBatch(env, rows, size, k);
    assert Patched(env, Batch(env, rows, size), final, size, k);
    if first <= k < end {
      LinkInBatch(env, rows, first, k);
      if k > 0 {
        CoverAfterBatch(env, rows, size, k - 1);
        assert Patched(env, Batch(env, rows, size), final, size, k - 1);
      }
    }
  }

  lemma {:induction false} CoverStart(rows: seq<Row>, size: nat, k: nat)
    requires size > 0 && FirstHole(rows, 0) < |rows|
    ensures var i := FirstHole(rows, 0);
            && (k < i ==> !Covered(rows, 0, size, k))
            && (i <= k < BatchEnd(rows, i, size) ==> Covered(rows, 0, size, k))
            && (BatchEnd(rows, i, size) <= k ==> Covered(rows, 0, size, k) == Covered(rows, BatchEnd(rows, i, size), size, k))
            && (k < BatchEnd(rows, i, size) ==> !Covered(rows, BatchEnd(rows, i, size), size, k))
  {
  }

  lemma {:induction false} LinkInBatch(env: Env, rows: seq<Row>, from: nat, k: nat)
    requires from <= k < |rows|
    ensures LinkAt(env, rows, from, k)
            == if k == 0 then None
               else if k > from then Relinked(env, rows[k - 1], LinkAt(env, rows, from, k - 1)).entryHash
               else rows[k - 1].entryHash
  {
  }

  // ---------------------------------------------------------------- when the result is a valid chain

  /** The rows from the first hole on, chained anew in one pass. */
  function FullPass(env: Env, rows: seq<Row>): (r: seq<Row>)
    ensures |r| == |rows|
  {
    Rechained(env, rows, FirstHole(rows, 0), |rows|)
  }

  /** The rows before the first hole are valid, and every later row that no batch reaches already is
      what one pass over all later rows would make of it. */
  predicate Recoverable(env: Env, rows: seq<Row>, size: nat)
    requires size > 0
  {
    && (forall i :: 0 <= i < FirstHole(rows, 0) ==> Sound(env, rows, i))
    && forall k :: FirstHole(rows, 0) <= k < |rows| && !Covered(rows, 0, size, k) ==> rows[k] == FullPass(env, rows)[k]
  }

  lemma {:induction false} SoundMeansRelinked(env: Env, rows: seq<Row>, k: nat)
    requires k < |rows|
    ensures Sound(env, rows, k) <==> rows[k] == Relinked(env, rows[k], ExpectedPrevHash(rows, k))
  {
  }

  lemma {:induction false} RelinkedTwice(env: Env, row: Row, prevHash: Option<string>)
    ensures Relinked(env, Relinked(env, row, prevHash), prevHash) == Relinked(env, row, prevHash)
  {
  }

  /** Rows before the first hole are never touched. */
  lemma {:induction false} PrefixUncovered(rows: seq<Row>, size: nat, k: nat)
    requires size > 0 && k < FirstHole(rows, 0)
    ensures !Covered(rows, 0, size, k)
  {
  }

  /** Where the final predecessor is as in a full pass, a row is sound exactly when it is as in a full pass. */
  lemma {:induction false} SoundMeansFull(env: Env, rows: seq<Row>, final: seq<Row>, size: nat, k: nat)
    requires FirstHole(rows, 0) <= k < |rows| == |final| && size > 0 && Patched(env, rows, final, size, k)
    requires k > 0 ==> final[k - 1] == FullPass(env, rows)[k - 1]
    ensures Sound(env, final, k) <==> final[k] == FullPass(env, rows)[k]
    ensures Covered(rows, 0, size, k) ==> Sound(env, final, k)
  {
    hide ComputeEntryHash, LinkAt, Covered, Relinked, Sound;
    var first := FirstHole(rows, 0);
    LinkInBatch(env, rows, first, k);
    var link := LinkAt(env, rows, first, k);
    assert FullPass(env, rows)[k] == Relinked(env, rows[k], link);
    assert link == ExpectedPrevHash(final, k);
    SoundMeansRelinked(env, final, k);
    RelinkedTwice(env, rows[k], link);
  }

  /** After a recovered row, the next one is recovered as well. */
  lemma {:induction false} RecoveredRow(env: Env, rows: seq<Row>, final: seq<Row>, size: nat, k: nat)
    requires k < |rows| == |final| && size > 0 && Recoverable(env, rows, size) && Patched(env, rows, final, size, k)
    requires k > 0 ==> final[k - 1] == FullPass(env, rows)[k - 1]
    ensures Sound(env, final, k) && final[k] == FullPass(env, rows)[k]
  {
    hide ComputeEntryHash, LinkAt, Covered, Relinked;
    if k < FirstHole(rows, 0) {
      PrefixUncovered(rows, size, k);
      assert Sound(env, rows, k);
    } else {
      SoundMeansFull(env, rows, final, size, k);
    }
  }

  lemma {:induction false} RecoveredUpTo(env: Env, rows: seq<Row>, size: nat, n: nat)
    requires size > 0 && n <= |rows| && Recoverable(env, rows, size)
    ensures var final := Backfilled(env, rows, size);
            |final| == |rows| && forall k :: 0 <= k < n ==> Sound(env, final, k) && final[k] == FullPass(env, rows)[k]
  {
    hide *;
    BackfillPatches(env, rows, size);
    if n > 0 {
      RecoveredUpTo(env, rows, size, n - 1);
      RecoveredRow(env, rows, Backfilled(env, rows, size), size, n - 1);
    }
  }

  lemma {:induction false} SoundUpTo(env: Env, rows: seq<Row>, size: nat, n: nat)
    requires size > 0 && n <= |rows|
    requires |Backfilled(env, rows, size)| == |rows| && AllSound(env, Backfilled(env, rows, size))
    ensures var final := Backfilled(env, rows, size);
            forall k :: 0 <= k < n ==> final[k] == FullPass(env, rows)[k] && (k < FirstHole(rows, 0) ==> Sound(env, rows, k))
  {
    hide ComputeEntryHash, LinkAt, Covered, Relinked, Backfilled, Holes;
    BackfillPatches(env, rows, size);
    var final := Backfilled(env, rows, size);
    if n > 0 {
      SoundUpTo(env, rows, size, n - 1);
      assert Patched(env, rows, final, size, n - 1);
      assert Sound(env, final, n - 1);
      if n - 1 < FirstHole(rows, 0) {
        PrefixUncovered(rows, size, n - 1);
      } else {
        SoundMeansFull(env, rows, final, size, n - 1);
      }
    }
  }

  /** The backfill ends in a chain the verifier accepts exactly when the rows were recoverable, and then
      the batches did what one pass over everything after the first hole would have done. */
  lemma {:induction false} BackfillSucceedsExactlyWhenRecoverable(env: Env, rows: seq<Row>, size: nat)
    requires size > 0
    ensures AllSound(env, Backfilled(env, rows, size)) <==> Recoverable(env, rows, size)
    ensures Recoverable(env, rows, size) ==> Backfilled(env, rows, size) == FullPass(env, rows)
  {
    hide Sound, FullPass, Covered, Backfilled, Holes, Patched;
    BackfillPatches(env, rows, size);
    var final := Backfilled(env, rows, size);
    if Recoverable(env, rows, size) {
      RecoveredUpTo(env, rows, size, |rows|);
      assert final == FullPass(env, rows);
    }
    if AllSound(env, final) {
      SoundUpTo(env, rows, size, |rows|);
      forall k | 0 <= k < |rows| && !Covered(rows, 0, size, k)
        ensures rows[k] == FullPass(env, rows)[k]
      {
        UncoveredUntouched(env, rows, size, k);
      }
    }
  }

  lemma {:induction false} UncoveredUntouched(env: Env, rows: seq<Row>, size: nat, k: nat)
    requires k < |rows| && size > 0 && !Covered(rows, 0, size, k)
    ensures |Backfilled(env, rows, size)| == |rows| && Backfilled(env, rows, size)[k] == rows[k]
  {
    hide ComputeEntryHash, Covered, Relinked, Backfilled, Holes;
    BackfillPatches(env, rows, size);
    assert Patched(env, rows, Backfilled(env, rows, size), size, k);
  }

  /** Whatever the rows, the backfill leaves none unhashed, does not touch the rows before the first
      hole, and changes nothing but the two hashes elsewhere. */
  lemma {:induction false} BackfillTouchesHashesOnly(env: Env, rows: seq<Row>, size: nat, k: nat)
    requires size > 0 && k < |rows|
    ensures var final := Backfilled(env, rows, size);
            && |final| == |rows| && final[k].entryHash.Some?
            && (k < FirstHole(rows, 0) ==> final[k] == rows[k])
            && final[k].(prevHash := rows[k].prevHash, entryHash := rows[k].entryHash) == rows[k]
  {
    hide ComputeEntryHash, Covered, Backfilled;
    BackfillPatches(env, rows, size);
    var final := Backfilled(env, rows, size);
    assert Patched(env, rows, final, size, k);
    assert k !in Holes(final);
    if k < FirstHole(rows, 0) {
      PrefixUncovered(rows, size, k);
    }
  }

  // ---------------------------------------------------------------- the cases that matter in practice

  lemma {:induction false} SuffixCovered(rows: seq<Row>, from: nat, size: nat, k: nat)
    requires from <= k < |rows| && size > 0 && forall i :: from <= i < |rows| ==> rows[i].entryHash.None?
    ensures Covered(rows, from, size, k)
    decreases |rows| - from
  {
    assert FirstHole(rows, from) == from;
    if k >= BatchEnd(rows, from, size) {
      SuffixCovered(rows, BatchEnd(rows, from, size), size, k);
    }
  }

  /** Rows never hashed so far, after a valid chain: the case of an upgrade. */
  lemma {:induction false} UnhashedSuffixIsChained(env: Env, rows: seq<Row>, size: nat)
    requires size > 0 && forall i :: 0 <= i < FirstHole(rows, 0) ==> Sound(env, rows, i)
    requires forall i :: FirstHole(rows, 0) <= i < |rows| ==> rows[i].entryHash.None?
    ensures AllSound(env, Backfilled(env, rows, size)) && Backfilled(env, rows, size) == FullPass(env, rows)
  {
    hide Sound, FullPass, Covered, AllSound, Backfilled;
    var first := FirstHole(rows, 0);
    forall k | first <= k < |rows|
      ensures Covered(rows, 0, size, k)
    {
      SuffixCovered(rows, first, size, k);
      SameCoverFromHole(rows, size, k);
    }
    BackfillSucceedsExactlyWhenRecoverable(env, rows, size);
  }

  lemma {:induction false} SameCoverFromHole(rows: seq<Row>, size: nat, k: nat)
    requires size > 0
    ensures Covered(rows, 0, size, k) == Covered(rows, FirstHole(rows, 0), size, k)
  {
  }

  /** Holes anywhere, as long as everything from the first one on fits into one batch. */
  lemma {:induction false} OneBatchIsEnough(env: Env, rows: seq<Row>, size: nat)
    requires size > 0 && forall i :: 0 <= i < FirstHole(rows, 0) ==> Sound(env, rows, i)
    requires |rows| <= FirstHole(rows, 0) + size
    ensures AllSound(env, Backfilled(env, rows, size)) && Backfilled(env, rows, size) == FullPass(env, rows)
  {
    hide Sound, FullPass, AllSound, Backfilled;
    BackfillSucceedsExactlyWhenRecoverable(env, rows, size);
  }

  /** The table after an old release has slipped an unhashed row into a chain. */
  function WithUnhashed(chain: seq<Row>, p: nat, legacy: Row): seq<Row>
    requires p <= |chain|
  {
    chain[..p] + [legacy] + chain[p..]
  }

  lemma {:induction false} OneHole(env: Env, chain: seq<Row>, p: nat, legacy: Row)
    requires AllSound(env, chain) && p <= |chain| && legacy.entryHash.None?
    ensures var rows := WithUnhashed(chain, p, legacy);
            && FirstHole(rows, 0) == p && (forall k :: p < k < |rows| ==> rows[k].entryHash.Some? && rows[k] == chain[k - 1])
            && forall i :: 0 <= i < p ==> Sound(env, rows, i)
  {
    hide ComputeEntryHash;
    var rows := WithUnhashed(chain, p, legacy);
    forall i | 0 <= i < |chain|
      ensures chain[i].entryHash.Some?
    {
      assert Sound(env, chain, i);
    }
    assert forall i :: 0 <= i < p ==> rows[i] == chain[i];
    HashedSkipped(rows, 0, p);
    forall i | 0 <= i < p
      ensures Sound(env, rows, i)
    {
      assert Sound(env, chain, i);
    }
  }

  lemma {:induction false} HashedTailUncovered(rows: seq<Row>, from: nat, size: nat)
    requires from < |rows| && size > 0 && forall k :: from <= k < |rows| ==> rows[k].entryHash.Some?
    ensures !Covered(rows, from, size, from)
  {
  }

  /** The first row behind the batch is left alone. */
  lemma {:induction false} RowBehindBatchIsKept(env: Env, chain: seq<Row>, p: nat, legacy: Row, size: nat)
    requires AllSound(env, chain) && p < p + size <= |chain| && legacy.entryHash.None?
    ensures var final := Backfilled(env, WithUnhashed(chain, p, legacy), size);
            |final| == |chain| + 1 && final[p + size] == chain[p + size - 1]
  {
    hide ComputeEntryHash, Covered, Backfilled, Sound, AllSound;
    var rows := WithUnhashed(chain, p, legacy);
    OneHole(env, chain, p, legacy);
    CoverStart(rows, size, p + size);
    HashedTailUncovered(rows, p + size, size);
    UncoveredUntouched(env, rows, size, p + size);
  }

  /** One unhashed row slipped into a valid chain, as by an entry of an old release with an earlier time:
      the backfill restores a valid chain exactly when fewer than a batch of rows come after it. Otherwise
      the first row behind the batch still links to a hash that is no longer there, unless hashes collide. */
  lemma {:induction false} UnhashedRowIsAbsorbedExactlyWhen(env: Env, chain: seq<Row>, p: nat, legacy: Row, size: nat)
    requires AllSound(env, chain) && p <= |chain| && legacy.entryHash.None? && size > 0
    ensures var final := Backfilled(env, WithUnhashed(chain, p, legacy), size);
            Collides(env, final, chain) || (AllSound(env, final) <==> |chain| - p < size)
  {
    hide ComputeEntryHash, Backfilled, Sound, AllSound, Collides;
    var rows := WithUnhashed(chain, p, legacy);
    var final := Backfilled(env, rows, size);
    OneHole(env, chain, p, legacy);
    if |chain| - p < size {
      OneBatchIsEnough(env, rows, size);
    } else {
      RowBehindBatchIsKept(env, chain, p, legacy, size);
      if AllSound(env, final) && !Collides(env, final, chain) {
        SamePast(env, final, p + size, chain, p + size - 1);
      }
    }
  }

  /** The i-th of a thousand UUIDs. */
  function SampleHex(i: nat): (hex: string)
    requires i < 1000
    ensures |hex| == 32
  {
    seq(29, _ => '0') + [DigitOf(i / 100), DigitOf(i / 10 % 10), DigitOf(i % 10)]
  }

  function DigitOf(d: nat): char
    requires d < 10
  {
    '0' + d as char
  }

  function SampleId(i: nat): string
    requires i < 1000
  {
    Uuid.FormatUuid(SampleHex(i))
  }

  lemma {:induction false} SampleHexIsHex(i: nat)
    requires i < 1000
    ensures Uuid.LowerHex(SampleHex(i))
  {
  }

  lemma {:induction false} SampleHexesDiffer(i: nat, j: nat)
    requires i < 1000 && j < 1000 && SampleHex(i) == SampleHex(j)
    ensures i == j
  {
    assert SampleHex(i)[29] == SampleHex(j)[29] && SampleHex(i)[30] == SampleHex(j)[30] && SampleHex(i)[31] == SampleHex(j)[31];
  }

  lemma {:induction false} SampleIdsDiffer(i: nat, j: nat)
    requires i < 1000 && j < 1000 && SampleId(i) == SampleId(j)
    ensures i == j && Uuid.RequireUuid(SampleId(i)) == Ok(SampleId(i))
  {
    hide SampleHex, Uuid.FormatUuid, Uuid.RequireUuid, Uuid.UuidHex, Uuid.DropDashes, Uuid.LowerHex;
    SampleHexIsHex(i);
    SampleHexIsHex(j);
    Uuid.FormattedHex(SampleHex(i));
    Uuid.FormattedHex(SampleHex(j));
    Uuid.FormattedIsNormal(SampleHex(i));
    SampleHexesDiffer(i, j);
  }

  function SampleRow(i: nat): Row
    requires i < 1000
  {
    Row(SampleId(i), SampleId(0), None, "user", SampleId(0), "create", "{}", "{}", 1000 * i, None, None)
  }

  /** A chain of n rows as appended one after the other, from the second UUID on. */
  function SampleChain(env: Env, n: nat): (chain: seq<Row>)
    requires n < 1000
    ensures |chain| == n
  {
    if n == 0 then []
    else
      var chain := SampleChain(env, n - 1);
      chain + [Relinked(env, SampleRow(n), if n == 1 then None else chain[n - 2].entryHash)]
  }

  predicate SampleRows(rows: seq<Row>, first: nat) {
    forall i :: 0 <= i < |rows| && first + i < 1000 ==>
      rows[i].id == SampleId(first + i) && rows[i].organizationId == SampleId(0) && rows[i].createdAt == 1000 * (first + i)
  }

  lemma {:induction false} SampleRowContinues(env: Env, chain: seq<Row>, n: nat)
    requires 0 < n < 1000 && |chain| == n - 1 && SampleRows(chain, 1) && (n > 1 ==> chain[n - 2].entryHash.Some?)
    ensures Continues(env, chain, Relinked(env, SampleRow(n), if n == 1 then None else chain[n - 2].entryHash))
  {
    hide SampleId, ComputeEntryHash;
    var row := Relinked(env, SampleRow(n), if n == 1 then None else chain[n - 2].entryHash);
    RelinkedHash(env, SampleRow(n), row.prevHash);
    assert n > 1 ==> chain[n - 2].createdAt == 1000 * (n - 1);
  }

  lemma {:induction false} RelinkedHash(env: Env, row: Row, prevHash: Option<string>)
    ensures Relinked(env, row, prevHash).entryHash == Some(ComputeEntryHash(env, Relinked(env, row, prevHash)))
  {
    RelinkedTwice(env, row, prevHash);
    hide ComputeEntryHash;
    assert Relinked(env, row, prevHash).(prevHash := prevHash) == Relinked(env, row, prevHash);
  }

  lemma {:induction false} RelinkedKeeps(env: Env, row: Row, prevHash: Option<string>)
    ensures var r := Relinked(env, row, prevHash);
            r.id == row.id && r.organizationId == row.organizationId && r.createdAt == row.createdAt && r.entryHash.Some?
  {
  }

  lemma {:induction false} NoRowsAreSound(env: Env)
    ensures AllSound(env, [])
  {
  }

  lemma {:induction false} SampleChainIsValid(env: Env, n: nat)
    requires n < 1000
    ensures AllSound(env, SampleChain(env, n)) && SampleRows(SampleChain(env, n), 1)
    ensures n > 0 ==> SampleChain(env, n)[n - 1].entryHash.Some?
  {
    hide SampleId, ComputeEntryHash, AllSound, Continues, Relinked;
    if n == 0 {
      NoRowsAreSound(env);
    } else {
      SampleChainIsValid(env, n - 1);
      var chain := SampleChain(env, n - 1);
      var row := Relinked(env, SampleRow(n), if n == 1 then None else chain[n - 2].entryHash);
      SampleRowContinues(env, chain, n);
      RelinkedKeeps(env, SampleRow(n), if n == 1 then None else chain[n - 2].entryHash);
      ContinuedStaysSound(env, chain, row);
    }
  }

  /** Such rows: a chain that verifies, all of one tenant, with distinct UUIDs and increasing times, behind
      one unhashed row. From a batch of rows on, the backfill breaks it. */
  lemma {:induction false} StrandedRowsStayBroken(env: Env, n: nat) returns (rows: seq<Row>)
    requires BATCH_SIZE <= n < 999
    ensures |rows| == n + 1 && UniqueIds(rows) && SampleRows(rows, 0) && AllSound(env, rows[1..]) && rows[0].entryHash.None?
    ensures var final := Backfilled(env, rows, BATCH_SIZE); !AllSound(env, final) || Collides(env, final, rows[1..])
  {
    hide AllSound, Backfilled, Collides, SampleId;
    var chain := SampleChain(env, n);
    SampleChainIsValid(env, n);
    rows := WithUnhashed(chain, 0, SampleRow(0));
    assert rows[1..] == chain;
    assert forall i :: 0 < i < |rows| ==> rows[i] == chain[i - 1];
    assert SampleRows(rows, 0);
    forall i, j | 0 <= i < j < |rows|
      ensures rows[i].id != rows[j].id
    {
      if rows[i].id == rows[j].id {
        SampleIdsDiffer(i, j);
      }
    }
    UnhashedRowIsAbsorbedExactlyWhen(env, chain, 0, SampleRow(0), BATCH_SIZE);
  }

  /** Rows hashed but never linked do not even need distinct hashes to stay broken. */
  function UnlinkedRows(env: Env): seq<Row> {
    seq(BATCH_SIZE + 1, i requires 0 <= i < BATCH_SIZE + 1 => UnlinkedRow(env, i))
  }

  function UnlinkedRow(env: Env, i: nat): Row
    requires i < 1000
  {
    if i == 0 then SampleRow(0) else SampleRow(i).(entryHash := Some(ComputeEntryHash(env, SampleRow(i))))
  }

  lemma {:induction false} UnlinkedRowsStayBroken(env: Env)
    ensures !AllSound(env, Backfilled(env, UnlinkedRows(env), BATCH_SIZE)) && UniqueIds(UnlinkedRows(env))
  {
    hide ComputeEntryHash, Backfilled, AllSound, LinkAt, Sound, Covered, SampleId;
    var rows := UnlinkedRows(env);
    forall i, j | 0 <= i < j < |rows|
      ensures rows[i].id != rows[j].id
    {
      if rows[i].id == rows[j].id {
        SampleIdsDiffer(i, j);
      }
    }
    assert FirstHole(rows, 0) == 0 by {
      assert rows[0].entryHash.None?;
    }
    var last := BATCH_SIZE;
    assert rows[last].prevHash == None;
    LinkInBatch(env, rows, 0, last);
    assert FullPass(env, rows)[last].prevHash.Some?;
    CoverStart(rows, BATCH_SIZE, last);
    HashedTailUncovered(rows, last, BATCH_SIZE);
    BackfillSucceedsExactlyWhenRecoverable(env, rows, BATCH_SIZE);
  }
}
