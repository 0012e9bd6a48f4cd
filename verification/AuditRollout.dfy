/** The rollout of the hash columns: backfill batches of packages/db/src/migrate.ts take the same lock as
    the appends of packages/db/src/audit-integrity.ts, while an old release, which takes none, may still
    write unhashed rows. */
module AuditRollout {
  import opened Wrappers
  import opened AuditAppend
  import opened AuditBackfill
  import opened AuditChain

  /** What can happen to a tenant's rows. An old release's row lands wherever its time puts it: `place` rows
      come before it, and it may have been committed after any number of later rows. */
  datatype Event =
    | BackfillBatch
    | Appended(input: Input, newId: string)
    | WrittenUnhashed(row: Row, place: nat)

  predicate Possible(chain: seq<Row>, event: Event) {
    event.WrittenUnhashed? ==>
      event.row.entryHash.None? && event.place <= |chain| && Sorted(WithUnhashed(chain, event.place, event.row))
  }

  /** An append that throws leaves the rows as they are. */
  function After(env: Env, chain: seq<Row>, organizationId: string, event: Event): seq<Row>
    requires Possible(chain, event)
  {
    match event
    case BackfillBatch => Batch(env, chain, BATCH_SIZE)
    case WrittenUnhashed(row, place) => WithUnhashed(chain, place, row)
    case Appended(input, newId) =>
      var r := NewRow(env, input, organizationId, newId, GreatestTo(chain, |chain|));
      if r.Ok? && !HasId(chain, r.value.id) then chain + [r.value] else chain
  }

  ghost predicate Rollout(env: Env, organizationId: string, states: seq<seq<Row>>, events: seq<Event>) {
    && |states| == |events| + 1
    && forall i :: 0 <= i < |events| ==>
         Possible(states[i], events[i]) && states[i + 1] == After(env, states[i], organizationId, events[i])
  }

  /** In order, and valid up to the first row without a hash. */
  predicate Ready(env: Env, rows: seq<Row>) {
    Sorted(rows) && forall i :: 0 <= i < FirstHole(rows, 0) ==> Sound(env, rows, i)
  }

  /** No hashed row lies a batch or more behind the first one without a hash. */
  predicate Tight(rows: seq<Row>) {
    forall i :: FirstHole(rows, 0) + BATCH_SIZE <= i < |rows| ==> rows[i].entryHash.None?
  }

  /** A valid chain, then rows without a hash. */
  predicate InRollout(env: Env, rows: seq<Row>) {
    Ready(env, rows) && forall i :: FirstHole(rows, 0) <= i < |rows| ==> rows[i].entryHash.None?
  }

  /** For every row whose time and id differ from the others' there is one place, so an old release can
      write any such row at any time. */
  lemma {:induction false} EveryRowHasItsPlace(chain: seq<Row>, row: Row, n: nat) returns (place: nat)
    requires Sorted(chain) && n <= |chain|
    requires forall i :: 0 <= i < |chain| ==> Before(chain[i], row) || Before(row, chain[i])
    requires forall i :: n <= i < |chain| ==> Before(row, chain[i])
    ensures place <= |chain| && Sorted(WithUnhashed(chain, place, row))
  {
    hide IdRank;
    if n > 0 && Before(row, chain[n - 1]) {
      place := EveryRowHasItsPlace(chain, row, n - 1);
    } else {
      place := n;
      forall i | 0 <= i < n
        ensures Before(chain[i], row)
      {
        assert Before(chain[n - 1], row);
        if i < n - 1 {
          assert Before(chain[i], chain[n - 1]);
        }
      }
      InsertedInOrder(chain, row, n);
    }
  }

  lemma {:induction false} InsertedInOrder(chain: seq<Row>, row: Row, place: nat)
    requires Sorted(chain) && place <= |chain|
    requires forall i :: 0 <= i < place ==> Before(chain[i], row)
    requires forall i :: place <= i < |chain| ==> Before(row, chain[i])
    ensures Sorted(WithUnhashed(chain, place, row))
  {
    hide Before;
    var rows := WithUnhashed(chain, place, row);
    assert forall i :: 0 <= i < place ==> rows[i] == chain[i];
    assert forall i :: place < i < |rows| ==> rows[i] == chain[i - 1];
    assert forall i, j :: 0 <= i < j < |chain| ==> Before(chain[i], chain[j]);
  }

  // ---------------------------------------------------------------- batches

  lemma {:induction false} HashedUpTo(rows: seq<Row>, n: nat)
    requires n <= |rows| && (forall i :: 0 <= i < n ==> rows[i].entryHash.Some?) && (n < |rows| ==> rows[n].entryHash.None?)
    ensures FirstHole(rows, 0) == n
  {
    HashedSkipped(rows, 0, n);
  }

  /** Rows chained anew are sound, whatever comes after them. */
  lemma {:induction false} WindowIsSound(env: Env, rows: seq<Row>, from: nat, to: nat, k: nat)
    requires from <= k < to <= |rows|
    ensures Sound(env, Rechained(env, rows, from, to), k)
  {
    hide ComputeEntryHash, Relinked, LinkAt, Sound;
    var after := Rechained(env, rows, from, to);
    LinkInBatch(env, rows, from, k);
    assert after[k] == Relinked(env, rows[k], LinkAt(env, rows, from, k));
    assert ExpectedPrevHash(after, k) == LinkAt(env, rows, from, k);
    RelinkedTwice(env, rows[k], LinkAt(env, rows, from, k));
    SoundMeansRelinked(env, after, k);
  }

  lemma {:induction false} RechainedKeepsOrder(env: Env, rows: seq<Row>, from: nat, to: nat)
    requires from <= to <= |rows| && Sorted(rows)
    ensures Sorted(Rechained(env, rows, from, to))
  {
    hide ComputeEntryHash, LinkAt, IdRank;
    var after := Rechained(env, rows, from, to);
    assert forall i :: 0 <= i < |rows| ==> after[i].createdAt == rows[i].createdAt && after[i].id == rows[i].id;
    forall i, j | 0 <= i < j < |rows|
      ensures Before(after[i], after[j])
    {
      assert Before(rows[i], rows[j]);
    }
  }

  /** One batch makes a tight table a valid chain followed by unhashed rows. */
  lemma {:induction false} BatchRestores(env: Env, rows: seq<Row>)
    requires Ready(env, rows) && Tight(rows)
    ensures InRollout(env, Batch(env, rows, BATCH_SIZE)) && FirstHole(rows, 0) <= FirstHole(Batch(env, rows, BATCH_SIZE), 0)
    ensures forall k :: 0 <= k < FirstHole(rows, 0) ==> Batch(env, rows, BATCH_SIZE)[k] == rows[k]
  {
    hide ComputeEntryHash, LinkAt, Sorted, Sound, Relinked;
    var first := FirstHole(rows, 0);
    var end := BatchEnd(rows, first, BATCH_SIZE);
    var after := Batch(env, rows, BATCH_SIZE);
    RechainedKeepsOrder(env, rows, first, end);
    forall k | 0 <= k < end
      ensures Sound(env, after, k) && after[k].entryHash.Some?
    {
      if k < first {
        SameRowsSound(env, rows, after, k);
      } else {
        WindowIsSound(env, rows, first, end, k);
      }
      SoundIsHashed(env, after, k);
    }
    HashedUpTo(after, end);
  }

  lemma {:induction false} SameRowsSound(env: Env, a: seq<Row>, b: seq<Row>, k: nat)
    requires k < |a| && k < |b| && Sound(env, a, k) && a[k] == b[k] && (k > 0 ==> a[k - 1] == b[k - 1])
    ensures Sound(env, b, k)
  {
  }

  lemma {:induction false} SoundIsHashed(env: Env, rows: seq<Row>, k: nat)
    requires k < |rows| && Sound(env, rows, k)
    ensures rows[k].entryHash.Some?
  {
  }

  /** A tight table is finished by the remaining batches, as one pass would. */
  lemma {:induction false} TightIsFinished(env: Env, rows: seq<Row>)
    requires Ready(env, rows) && Tight(rows)
    ensures AllSound(env, Backfilled(env, rows, BATCH_SIZE)) && Backfilled(env, rows, BATCH_SIZE) == FullPass(env, rows)
  {
    hide Sound, Sorted, FullPass, AllSound, Backfilled, Covered;
    var first := FirstHole(rows, 0);
    forall k | first <= k < |rows|
      ensures Covered(rows, 0, BATCH_SIZE, k)
    {
      CoverStart(rows, BATCH_SIZE, k);
      if k >= BatchEnd(rows, first, BATCH_SIZE) {
        SuffixCovered(rows, BatchEnd(rows, first, BATCH_SIZE), BATCH_SIZE, k);
      }
    }
    BackfillSucceedsExactlyWhenRecoverable(env, rows, BATCH_SIZE);
  }

  // ---------------------------------------------------------------- appends

  /** An append throws while the latest row has no hash; otherwise it keeps what is valid. */
  lemma {:induction false} AppendStaysReady(env: Env, rows: seq<Row>, organizationId: string, input: Input, newId: string)
    requires Ready(env, rows)
    ensures var after := After(env, rows, organizationId, Appended(input, newId));
            && Ready(env, after) && rows <= after
            && (|rows| > 0 && rows[|rows| - 1].entryHash.None? ==> after == rows)
            && (InRollout(env, rows) ==> InRollout(env, after))
  {
    hide ComputeEntryHash, Sound, Sorted;
    LastIsGreatest(rows, |rows|);
    var r := NewRow(env, input, organizationId, newId, GreatestTo(rows, |rows|));
    if r.Ok? && !HasId(rows, r.value.id) {
      NewRowContinues(env, rows, input, organizationId, newId);
      ContinuedStaysReady(env, rows, r.value);
    }
  }

  lemma {:induction false} ContinuedStaysReady(env: Env, rows: seq<Row>, row: Row)
    requires Ready(env, rows) && Continues(env, rows, row)
    ensures Ready(env, rows + [row])
    ensures InRollout(env, rows) && (|rows| > 0 ==> rows[|rows| - 1].entryHash.Some?) ==> InRollout(env, rows + [row])
  {
    hide ComputeEntryHash, Sorted, Sound;
    var first := FirstHole(rows, 0);
    ContinuedStaysSorted(env, rows, row);
    if first == |rows| {
      assert AllSound(env, rows);
      ContinuedStaysSound(env, rows, row);
      HashedUpTo(rows + [row], first + 1);
    } else {
      HashedUpTo(rows + [row], first);
      SamePrefixSound(env, rows, rows + [row], first);
    }
  }

  lemma {:induction false} SamePrefixSound(env: Env, a: seq<Row>, b: seq<Row>, n: nat)
    requires n <= |a| && n <= |b| && (forall i :: 0 <= i < n ==> Sound(env, a, i)) && forall i :: 0 <= i < n ==> a[i] == b[i]
    ensures forall i :: 0 <= i < n ==> Sound(env, b, i)
  {
    hide Sound;
    forall i | 0 <= i < n
      ensures Sound(env, b, i)
    {
      SameRowsSound(env, a, b, i);
    }
  }

  // ---------------------------------------------------------------- rows of an old release

  /** Wherever an old release's row lands, what comes before it and before the first hole stays valid; a valid
      chain followed by unhashed rows remains one exactly when it lands behind the chain. */
  lemma {:induction false} WriteStaysReady(env: Env, rows: seq<Row>, row: Row, place: nat)
    requires Ready(env, rows) && place <= |rows| && row.entryHash.None? && Sorted(WithUnhashed(rows, place, row))
    ensures var (first, after) := (FirstHole(rows, 0), WithUnhashed(rows, place, row));
            && Ready(env, after) && FirstHole(after, 0) == (if place < first then place else first)
            && (forall k :: 0 <= k < FirstHole(after, 0) ==> after[k] == rows[k])
            && (InRollout(env, rows) ==> (InRollout(env, after) <==> first <= place))
  {
    hide ComputeEntryHash, Sorted, Sound;
    var first, after := FirstHole(rows, 0), WithUnhashed(rows, place, row);
    var n := if place < first then place else first;
    assert forall i :: 0 <= i < place ==> after[i] == rows[i];
    assert forall i :: place < i < |after| ==> after[i] == rows[i - 1];
    assert after[place] == row;
    HashedUpTo(after, n);
    SamePrefixSound(env, rows, after, n);
    if place < first {
      assert after[place + 1] == rows[place];
    }
  }

  /** The first row behind the batch is left alone. */
  lemma {:induction false} RowBehindLateRowIsKept(env: Env, rows: seq<Row>, row: Row, place: nat, size: nat)
    requires InRollout(env, rows) && place < place + size <= FirstHole(rows, 0) && row.entryHash.None?
    requires Sorted(WithUnhashed(rows, place, row))
    ensures var final := Backfilled(env, WithUnhashed(rows, place, row), size);
            |final| == |rows| + 1 && final[place + size] == rows[place + size - 1]
  {
    hide ComputeEntryHash, Covered, Backfilled, Sound, Sorted;
    var after := WithUnhashed(rows, place, row);
    var behind := place + size;
    WriteStaysReady(env, rows, row, place);
    assert after[behind] == rows[behind - 1] && rows[behind - 1].entryHash.Some?;
    CoverStart(after, size, behind);
    HashedRowUncovered(after, behind, size);
    UncoveredUntouched(env, after, size, behind);
  }

  lemma {:induction false} HashedRowUncovered(rows: seq<Row>, from: nat, size: nat)
    requires from < |rows| && size > 0 && rows[from].entryHash.Some?
    ensures !Covered(rows, from, size, from)
  {
  }

  /** A late row that lands less than a batch before the end of the chain is in the first batch together with
      all hashed rows behind it. */
  lemma {:induction false} NearRowIsAbsorbed(env: Env, rows: seq<Row>, row: Row, place: nat, size: nat)
    requires InRollout(env, rows) && place <= |rows| && row.entryHash.None? && Sorted(WithUnhashed(rows, place, row))
    requires size > 0 && FirstHole(rows, 0) < place + size
    ensures AllSound(env, Backfilled(env, WithUnhashed(rows, place, row), size))
  {
    hide Sound, Sorted, FullPass, AllSound, Backfilled, Covered;
    var after := WithUnhashed(rows, place, row);
    var first := FirstHole(after, 0);
    WriteStaysReady(env, rows, row, place);
    assert forall i :: place < i < |after| ==> after[i] == rows[i - 1];
    forall k | first <= k < |after|
      ensures Covered(after, 0, size, k)
    {
      CoverStart(after, size, k);
      if k >= BatchEnd(after, first, size) {
        SuffixCovered(after, BatchEnd(after, first, size), size, k);
      }
    }
    BackfillSucceedsExactlyWhenRecoverable(env, after, size);
  }

  lemma {:induction false} ChainPartIsSound(env: Env, rows: seq<Row>)
    requires InRollout(env, rows)
    ensures AllSound(env, rows[..FirstHole(rows, 0)])
  {
    hide Sound, Sorted;
    SamePrefixSound(env, rows, rows[..FirstHole(rows, 0)], FirstHole(rows, 0));
  }

  /** At any moment of a rollout, after one more row of an old release the remaining batches still end in a
      valid chain exactly when it has landed behind the chain or less than a batch before its end, unless
      hashes collide. */
  lemma {:induction false} LateRowIsAbsorbedExactlyWhen(env: Env, rows: seq<Row>, row: Row, place: nat, size: nat)
    requires InRollout(env, rows) && place <= |rows| && row.entryHash.None? && Sorted(WithUnhashed(rows, place, row)) && size > 0
    ensures var final := Backfilled(env, WithUnhashed(rows, place, row), size);
            || Collides(env, final, rows[..FirstHole(rows, 0)])
            || (AllSound(env, final) <==> FirstHole(rows, 0) < place + size)
  {
    hide ComputeEntryHash, Backfilled, Sound, Sorted, AllSound, Collides;
    var final := Backfilled(env, WithUnhashed(rows, place, row), size);
    var first := FirstHole(rows, 0);
    var chain := rows[..first];
    if first < place + size {
      NearRowIsAbsorbed(env, rows, row, place, size);
    } else {
      RowBehindLateRowIsKept(env, rows, row, place, size);
      ChainPartIsSound(env, rows);
      if AllSound(env, final) && !Collides(env, final, chain) {
        SamePast(env, final, place + size, chain, place + size - 1);
      }
    }
  }

  // ---------------------------------------------------------------- the whole rollout

  lemma {:induction false} EventStaysReady(env: Env, rows: seq<Row>, organizationId: string, event: Event)
    requires Ready(env, rows) && Possible(rows, event) && (event.BackfillBatch? ==> Tight(rows))
    ensures Ready(env, After(env, rows, organizationId, event))
  {
    hide ComputeEntryHash, Sorted, Sound, NewRow, HasId, Tight;
    match event
    case BackfillBatch => BatchRestores(env, rows);
    case WrittenUnhashed(row, place) => WriteStaysReady(env, rows, row, place);
    case Appended(input, newId) => AppendStaysReady(env, rows, organizationId, input, newId);
  }

  lemma {:induction false} RolloutStaysReady(
      env: Env, organizationId: string, states: seq<seq<Row>>, events: seq<Event>, n: nat)
    requires Rollout(env, organizationId, states, events) && Ready(env, states[0]) && n < |states|
    requires forall i :: 0 <= i < n ==> events[i].BackfillBatch? ==> Tight(states[i])
    ensures Ready(env, states[n])
  {
    hide Ready, After, Possible, Tight;
    if n > 0 {
      RolloutStaysReady(env, organizationId, states, events, n - 1);
      EventStaysReady(env, states[n - 1], organizationId, events[n - 1]);
    }
  }

  /** However batches, appends and rows of an old release follow one another, wherever those rows land: if
      every batch so far found no hashed row a batch or more behind the first unhashed one, and there is
      none now, the remaining batches end in a chain the verifier accepts, the same as in one pass. */
  lemma {:induction false} RolloutCanAlwaysFinish(
      env: Env, organizationId: string, states: seq<seq<Row>>, events: seq<Event>, n: nat)
    requires Rollout(env, organizationId, states, events) && Ready(env, states[0]) && n < |states|
    requires forall i :: 0 <= i < n ==> events[i].BackfillBatch? ==> Tight(states[i])
    requires Tight(states[n])
    ensures AllSound(env, Backfilled(env, states[n], BATCH_SIZE))
    ensures Backfilled(env, states[n], BATCH_SIZE) == FullPass(env, states[n])
  {
    hide AllSound, Backfilled, FullPass, Ready, After, Possible, Rollout, Tight;
    RolloutStaysReady(env, organizationId, states, events, n);
    TightIsFinished(env, states[n]);
  }

  /** The event puts no unhashed row among chained ones. */
  predicate Behind(rows: seq<Row>, event: Event) {
    event.WrittenUnhashed? ==> FirstHole(rows, 0) <= event.place
  }

  /** A valid chain followed by unhashed rows stays one exactly as long as no row lands among the chained
      ones, and then no chained row changes. */
  lemma {:induction false} EventStaysInRollout(env: Env, rows: seq<Row>, organizationId: string, event: Event)
    requires InRollout(env, rows) && Possible(rows, event)
    ensures InRollout(env, After(env, rows, organizationId, event)) <==> Behind(rows, event)
    ensures var after := After(env, rows, organizationId, event);
            Behind(rows, event) ==>
              && |rows| <= |after| && FirstHole(rows, 0) <= FirstHole(after, 0)
              && forall k :: 0 <= k < FirstHole(rows, 0) ==> after[k] == rows[k]
  {
    hide ComputeEntryHash, Sorted, Sound, NewRow, HasId;
    match event
    case BackfillBatch => BatchRestores(env, rows);
    case WrittenUnhashed(row, place) => WriteStaysReady(env, rows, row, place);
    case Appended(input, newId) =>
      AppendStaysReady(env, rows, organizationId, input, newId);
      FirstHoleGrows(rows, After(env, rows, organizationId, event));
  }

  lemma {:induction false} FirstHoleGrows(a: seq<Row>, b: seq<Row>)
    requires a <= b
    ensures FirstHole(a, 0) <= FirstHole(b, 0)
  {
    assert forall k :: 0 <= k < FirstHole(a, 0) ==> b[k] == a[k];
  }

  lemma {:induction false} ChainWithSuffixIsTight(env: Env, rows: seq<Row>)
    requires InRollout(env, rows)
    ensures Ready(env, rows) && Tight(rows)
  {
  }

  /** As long as no row lands among chained ones, a valid chain followed by unhashed rows stays one, and rows
      that have been chained once never change again; so it can be finished at every moment. */
  lemma {:induction false} RolloutKeepsChains(
      env: Env, organizationId: string, states: seq<seq<Row>>, events: seq<Event>, m: nat, n: nat)
    requires Rollout(env, organizationId, states, events) && InRollout(env, states[0]) && m <= n < |states|
    requires forall i :: 0 <= i < n ==> Behind(states[i], events[i])
    ensures InRollout(env, states[m]) && InRollout(env, states[n]) && |states[m]| <= |states[n]|
    ensures Ready(env, states[n]) && Tight(states[n])
    ensures FirstHole(states[m], 0) <= FirstHole(states[n], 0)
    ensures forall k :: 0 <= k < FirstHole(states[m], 0) ==> states[n][k] == states[m][k]
  {
    hide InRollout, After, Possible, Behind, Ready, Tight;
    if n == 0 {
      ChainWithSuffixIsTight(env, states[0]);
    } else {
      RolloutKeepsChains(env, organizationId, states, events, if m < n then m else n - 1, n - 1);
      EventStaysInRollout(env, states[n - 1], organizationId, events[n - 1]);
      ChainWithSuffixIsTight(env, states[n]);
    }
  }
}
