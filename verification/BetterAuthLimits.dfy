/** What the account migration of packages/db/src/better-auth-migration.ts cannot promise: exactly when an
    expiry stays behind, an account is mislabelled, or the check constraint is never dropped. */
module BetterAuthLimits {
  import opened Wrappers
  import opened BetterAuthMigration

  // ---------------------------------------------------------------- executions piece by piece

  lemma {:induction false} Joined(setting: Setting, a: seq<State>, b: seq<State>)
    requires Execution(setting, a) && Execution(setting, b) && a[|a| - 1] == b[0]
    ensures |a| > 0 && |b| > 0 && Execution(setting, a + b[1..])
    ensures (a + b[1..])[0] == a[0] && (a + b[1..])[|a + b[1..]| - 1] == b[|b| - 1]
  {
    hide Step;
    var c := a + b[1..];
    forall i | 0 < i < |c|
      ensures Step(setting, c[i - 1], c[i])
    {
      if i >= |a| {
        assert c[i] == b[i - |a| + 1] && c[i - 1] == b[i - |a|];
      }
    }
  }

  /** The email index once it has been ensured. */
  function EmailsDone(db: Db): Db {
    if db.users.None? then db else db.(emailIndex := ValidIndex)
  }

  lemma {:induction false} EnsuringEmails(setting: Setting, s: State) returns (trace: seq<State>)
    requires s.pc.Emails? && Unobstructed(s.db)
    ensures Execution(setting, trace) && |trace| > 0 && trace[0] == s && trace[|trace| - 1] == State(EmailsDone(s.db), Inspect)
  {
    hide UniqueEmails;
    trace := if s.db.users.None? || s.db.emailIndex.ValidIndex? then [s, State(s.db, Inspect)]
             else [s, State(s.db.(emailIndex := NoIndex), BuildEmails), State(EmailsDone(s.db), Inspect)];
  }

  lemma {:induction false} Preflighting(setting: Setting, s: State) returns (trace: seq<State>)
    requires s.pc.Inspect? && s.db.column.Nullable? && Preflight(s.db.accounts)
    ensures Execution(setting, trace) && |trace| > 0 && trace[0] == s && trace[|trace| - 1] == State(s.db, Fence)
  {
    hide Colliding, Unmapped, Mismatched;
    trace := [s, State(s.db, FindUnmapped), State(s.db, FindMismatched), State(s.db, FindCollision), State(s.db, Fence)];
  }

  /** The statements before the fence, on accounts that pass preflight. */
  lemma {:induction false} UpToFence(setting: Setting, s: State) returns (trace: seq<State>)
    requires s.pc.Emails? && s.db.column.Nullable? && Preflight(s.db.accounts) && Unobstructed(s.db)
    ensures Execution(setting, trace) && |trace| > 0 && trace[0] == s && trace[|trace| - 1] == State(EmailsDone(s.db), Fence)
  {
    hide Execution, Preflight, Unobstructed;
    var emails := EnsuringEmails(setting, s);
    var checks := Preflighting(setting, State(EmailsDone(s.db), Inspect));
    Joined(setting, emails, checks);
    trace := emails + checks[1..];
  }

  lemma {:induction false} EnsuringUser(setting: Setting, s: State) returns (trace: seq<State>)
    requires s.pc == UserIndex(false) && !s.db.userIndex.OtherIndex?
    ensures Execution(setting, trace) && |trace| > 0 && trace[0] == s
    ensures trace[|trace| - 1] == State(s.db.(userIndex := ValidIndex), IdentityIndex(false))
  {
    var built := State(s.db.(userIndex := ValidIndex), IdentityIndex(false));
    trace := if s.db.userIndex.ValidIndex? then [s, built] else [s, State(s.db.(userIndex := NoIndex), BuildUser(false)), built];
  }

  lemma {:induction false} EnsuringIdentity(setting: Setting, s: State) returns (trace: seq<State>)
    requires s.pc == IdentityIndex(false) && !s.db.identityIndex.OtherIndex? && UniqueIdentities(s.db.accounts)
    ensures Execution(setting, trace) && |trace| > 0 && trace[0] == s
    ensures trace[|trace| - 1] == State(s.db.(identityIndex := ValidIndex), SetNotNull)
  {
    hide UniqueIdentities;
    var built := State(s.db.(identityIndex := ValidIndex), SetNotNull);
    trace := if s.db.identityIndex.ValidIndex? then [s, built]
             else [s, State(s.db.(identityIndex := NoIndex), BuildIdentity(false)), built];
  }

  lemma {:induction false} Tightening(setting: Setting, s: State) returns (trace: seq<State>)
    requires s.pc.SetNotNull? && NoNullIssuer(s.db.accounts)
    ensures Execution(setting, trace) && |trace| > 0 && trace[0] == s
    ensures trace[|trace| - 1] == State(s.db.(column := NotNull, check := NoCheck), Done)
  {
    hide NoNullIssuer;
    trace := [s, Next(s), Next(Next(s))];
  }

  /** The statements after the backfill, when no issuer is null and identities are unique. */
  lemma {:induction false} FromValidate(setting: Setting, s: State) returns (trace: seq<State>)
    requires s.pc.Validate? && NoNullIssuer(s.db.accounts) && UniqueIdentities(s.db.accounts)
    requires !s.db.userIndex.OtherIndex? && !s.db.identityIndex.OtherIndex?
    ensures Execution(setting, trace) && |trace| > 0 && trace[0] == s
    ensures trace[|trace| - 1]
            == State(s.db.(column := NotNull, check := NoCheck, userIndex := ValidIndex, identityIndex := ValidIndex), Done)
  {
    hide NoNullIssuer, UniqueIdentities;
    var validated := [s, State(s.db.(check := ValidCheck), UserIndex(false))];
    assert Execution(setting, validated);
    hide Execution;
    var user := EnsuringUser(setting, validated[1]);
    var identity := EnsuringIdentity(setting, user[|user| - 1]);
    var contract := Tightening(setting, identity[|identity| - 1]);
    Joined(setting, validated, user);
    Joined(setting, validated + user[1..], identity);
    Joined(setting, validated + user[1..] + identity[1..], contract);
    trace := validated + user[1..] + identity[1..] + contract[1..];
  }

  // ---------------------------------------------------------------- locked rows

  lemma {:induction false} SubsetOfSize(rows: set<string>, n: nat) returns (part: set<string>)
    requires n <= |rows|
    ensures part <= rows && |part| == n
  {
    if n == 0 {
      part := {};
    } else {
      var id :| id in rows;
      part := SubsetOfSize(rows - {id}, n - 1);
      part := part + {id};
    }
  }

  /** The backfill while others hold `locked`: it passes over those rows and finishes with the others. */
  lemma {:induction false} BackfillAround(setting: Setting, start: Accounts, s: State, locked: set<string>)
    returns (trace: seq<State>)
    requires setting.locks && s.pc.Backfill? && Preflight(start) && PartlyPatched(start, s.db.accounts)
    ensures Execution(setting, trace) && |trace| > 0 && trace[0] == s
    ensures var end := trace[|trace| - 1];
            && end == State(s.db.(accounts := end.db.accounts), Validate) && PartlyPatched(start, end.db.accounts)
            && Candidates(end.db.accounts) <= locked
            && forall id :: id in locked && id in s.db.accounts ==> id in end.db.accounts && end.db.accounts[id] == s.db.accounts[id]
    decreases |Candidates(s.db.accounts) - locked|
  {
    hide UniqueIdentities, Preflight, Patched, NeedsBackfill, Candidates;
    var free := Candidates(s.db.accounts) - locked;
    var batch := free;
    if |free| > BACKFILL_BATCH_SIZE {
      batch := SubsetOfSize(free, BACKFILL_BATCH_SIZE);
    }
    var next := AfterBatch(s, batch);
    BatchStays(setting, start, s, locked, batch);
    if next.pc.Validate? {
      OnlyLockedRowsAreLeft(s, next, locked);
      trace := [s, next];
    } else {
      BatchesComeToAnEnd(s.db.accounts, locked, batch);
      assert Candidates(next.db.accounts) - locked == free - batch;
      assert |free - batch| == |free| - |batch|;
      var rest := BackfillAround(setting, start, next, locked);
      Joined(setting, [s, next], rest);
      trace := [s, next] + rest[1..];
    }
  }

  lemma {:induction false} BatchStays(setting: Setting, start: Accounts, s: State, locked: set<string>, batch: set<string>)
    requires setting.locks && s.pc.Backfill? && Preflight(start) && PartlyPatched(start, s.db.accounts)
    requires IsBatch(s.db.accounts, locked, batch)
    ensures var next := AfterBatch(s, batch);
            && Batched(s, next, locked) && Execution(setting, [s, next])
            && next == State(s.db.(accounts := PatchAll(s.db.accounts, batch)), next.pc)
            && next.pc == (if |batch| < BACKFILL_BATCH_SIZE then Validate else Backfill)
            && PartlyPatched(start, next.db.accounts)
            && forall id :: id in locked && id in s.db.accounts ==> next.db.accounts[id] == s.db.accounts[id]
  {
    hide UniqueIdentities, Preflight, Patched, NeedsBackfill, Candidates, PartlyPatched;
    assert Colliding(start) ==> !Preflight(start) by {
      CollidingFailsPreflight(start);
    }
    hide Colliding;
    BatchPatchesPartly(start, s.db.accounts, batch);
    PreflightSurvives(start, PatchAll(s.db.accounts, batch));
    NoCollisionIsUnique(PatchAll(s.db.accounts, batch));
    assert Batched(s, AfterBatch(s, batch), locked);
  }

  lemma {:induction false} CollidingFailsPreflight(accounts: Accounts)
    ensures Colliding(accounts) ==> !Preflight(accounts)
  {
  }

  lemma {:induction false} FenceApplied(setting: Setting, db: Db) returns (trace: seq<State>)
    ensures Execution(setting, trace) && |trace| > 0 && trace[0] == State(db, Fence) && trace[|trace| - 1].pc.Backfill?
    ensures trace[|trace| - 1].db == db.(check := if db.check.NoCheck? then NotValidCheck else db.check)
  {
    trace := [State(db, Fence), Next(State(db, Fence))];
  }

  /** Rows that stay locked while the backfill passes are not revisited: from every start that passes
      preflight with nothing in the way, and for every account that has an issuer and an expiry to carry
      over, a whole run completes without touching it if somebody holds it locked. */
  lemma {:induction false} LockedExpiriesStayBehind(s: State, id: string) returns (trace: seq<State>)
    requires s.pc.Emails? && s.db.column.Nullable? && Preflight(s.db.accounts) && Unobstructed(s.db)
    requires id in s.db.accounts && s.db.accounts[id].issuer.Some?
    requires s.db.accounts[id].expiresAt.Some? && s.db.accounts[id].accessTokenExpiresAt.None?
    ensures Execution(Setting(false, true), trace) && |trace| > 0 && trace[0] == s
    ensures var end := trace[|trace| - 1];
            && end.pc.Done? && end.db.column.NotNull? && PartlyPatched(s.db.accounts, end.db.accounts)
            && id in end.db.accounts && end.db.accounts[id] == s.db.accounts[id] && Candidates(end.db.accounts) == {id}
  {
    hide UniqueEmails, UniqueIdentities, NoNullIssuer, Preflight, Execution, PartlyPatched, Candidates, Colliding;
    var setting, start := Setting(false, true), s.db.accounts;
    NothingPatched(start);
    var before := UpToFence(setting, s);
    var fence := FenceApplied(setting, EmailsDone(s.db));
    var middle := BackfillAround(setting, start, fence[|fence| - 1], {id});
    var left := middle[|middle| - 1].db.accounts;
    OnlyExpiryIsLeft(start, left, id);
    var after := FromValidate(setting, middle[|middle| - 1]);
    Joined(setting, before, fence);
    Joined(setting, before + fence[1..], middle);
    Joined(setting, before + fence[1..] + middle[1..], after);
    trace := before + fence[1..] + middle[1..] + after[1..];
  }

  lemma {:induction false} OnlyExpiryIsLeft(start: Accounts, now: Accounts, id: string)
    requires Preflight(start) && PartlyPatched(start, now) && Candidates(now) <= {id} && id in now && now[id] == start[id]
    requires now[id].issuer.Some? && now[id].expiresAt.Some? && now[id].accessTokenExpiresAt.None?
    ensures NoNullIssuer(now) && UniqueIdentities(now) && Candidates(now) == {id}
  {
    PreflightSurvives(start, now);
    NoCollisionIsUnique(now);
    hide Colliding, UniqueIdentities, PartlyPatched;
    forall other | other in now
      ensures now[other].issuer.Some?
    {
      if other != id {
        assert other !in Candidates(now);
        NothingToPatch(now[other]);
      }
    }
    assert id in Candidates(now);
  }

  /** Only a run that found the column nullable gets here. */
  predicate Late(pc: Pc) {
    match pc
    case FindUnmapped => true
    case FindMismatched => true
    case FindCollision => true
    case Fence => true
    case Backfill => true
    case Validate => true
    case UserIndex(early) => !early
    case BuildUser(early) => !early
    case IdentityIndex(early) => !early
    case BuildIdentity(early) => !early
    case SetNotNull => true
    case DropCheck => true
    case _ => false
  }

  /** And such an expiry is lost for good: once a run has ended with the column NOT NULL, no later run
      touches an account, whatever is locked and wherever runs are cut off. */
  lemma {:induction false} LaterRunsTouchNoAccount(locks: bool, trace: seq<State>, i: nat)
    requires Execution(Setting(false, locks), trace) && i < |trace| && trace[0].db.column.NotNull? && !Late(trace[0].pc)
    ensures trace[i].db.accounts == trace[0].db.accounts && trace[i].db.column.NotNull? && !Late(trace[i].pc)
  {
    hide UniqueEmails, UniqueIdentities, Colliding, Unmapped, Mismatched, NoNullIssuer, PatchAll, IsBatch;
    if i > 0 {
      LaterRunsTouchNoAccount(locks, trace, i - 1);
      assert Step(Setting(false, locks), trace[i - 1], trace[i]);
    }
  }

  lemma {:induction false} EmptyBatch(accounts: Accounts)
    ensures PatchAll(accounts, {}) == accounts && IsBatch(accounts, Candidates(accounts), {})
  {
  }

  // ---------------------------------------------------------------- accounts that slip in before the fence

  /** From the fence to the end of the backfill, whatever others write meanwhile. */
  ghost predicate Pass(setting: Setting, trace: seq<State>) {
    && Execution(setting, trace) && |trace| > 2 && trace[0].pc.Fence? && trace[|trace| - 1].pc.Validate?
    && forall i :: 0 < i < |trace| - 1 ==> trace[i].pc.Backfill?
  }

  /** A backfill statement gives the local issuer to an account that is no credential account. */
  ghost predicate Mislabels(s: State, t: State, id: string) {
    && s.pc.Backfill? && id in s.db.accounts && Unmapped(s.db.accounts[id]) && !t.pc.Failed?
    && exists batch :: id in batch && batch <= Candidates(s.db.accounts) && t == AfterBatch(s, batch)
  }

  /** Somebody else changes or removes such an account first. */
  ghost predicate Withdrawn(s: State, t: State, id: string) {
    && id in s.db.accounts && Unmapped(s.db.accounts[id]) && !Mislabels(s, t, id)
    && !(id in t.db.accounts && t.db.accounts[id] == s.db.accounts[id])
  }

  /** No credential account, without issuer, and with an expiry to be moved. */
  predicate AtRisk(accounts: Accounts, id: string) {
    id in accounts && Unmapped(accounts[id]) && NeedsBackfill(accounts[id])
  }

  ghost predicate MislabelledAt(trace: seq<State>, i: nat, id: string) {
    0 < i < |trace| && Mislabels(trace[i - 1], trace[i], id)
  }

  ghost predicate WithdrawnAt(trace: seq<State>, j: nat, id: string) {
    0 < j < |trace| && Withdrawn(trace[j - 1], trace[j], id)
  }

  /** One step of a pass: the check is in force from the fence on, so no row gains a null issuer. */
  lemma {:induction false} PassStep(setting: Setting, trace: seq<State>, i: nat)
    requires Pass(setting, trace) && 0 < i < |trace|
    ensures !trace[i].db.check.NoCheck?
    ensures forall id :: id in trace[i].db.accounts && trace[i].db.accounts[id].issuer.None? ==>
              id in trace[i - 1].db.accounts && trace[i - 1].db.accounts[id] == trace[i].db.accounts[id]
  {
    hide UniqueEmails, UniqueIdentities, Candidates, NeedsBackfill, IsBatch;
    assert Step(setting, trace[i - 1], trace[i]);
    if i > 1 {
      PassStep(setting, trace, i - 1);
    }
  }

  /** A row without issuer has been there, just so, ever since the fence. */
  lemma {:induction false} NullRowsAreOld(setting: Setting, trace: seq<State>, j: nat, k: nat, id: string)
    requires Pass(setting, trace) && j <= k < |trace|
    requires id in trace[k].db.accounts && trace[k].db.accounts[id].issuer.None?
    ensures id in trace[j].db.accounts && trace[j].db.accounts[id] == trace[k].db.accounts[id]
    decreases k
  {
    hide Pass;
    if j < k {
      PassStep(setting, trace, k);
      NullRowsAreOld(setting, trace, j, k - 1, id);
    }
  }

  lemma {:induction false} MislabelledNeedsBackfill(s: State, t: State, id: string)
    requires Mislabels(s, t, id)
    ensures NeedsBackfill(s.db.accounts[id]) && id in t.db.accounts && t.db.accounts[id].issuer == Some(LOCAL_ISSUER)
  {
  }

  /** Whoever else writes or holds locks: a mislabelled account was there, without issuer and with an expiry
      to move, when the fence was applied, and nobody changed it first. */
  lemma {:induction false} MislabelledWasThereAtTheFence(setting: Setting, trace: seq<State>, i: nat, j: nat, id: string)
    requires Pass(setting, trace) && MislabelledAt(trace, i, id)
    ensures AtRisk(trace[0].db.accounts, id)
    ensures !WithdrawnAt(trace, j, id)
  {
    hide Pass, Mislabels, NeedsBackfill;
    assert Unmapped(trace[i - 1].db.accounts[id]) by {
      MislabelledIsUnmapped(trace[i - 1], trace[i], id);
    }
    NullRowsAreOld(setting, trace, 0, i - 1, id);
    MislabelledNeedsBackfill(trace[i - 1], trace[i], id);
    if WithdrawnAt(trace, j, id) && j != i {
      if i < j {
        NullRowsAreOld(setting, trace, i, j - 1, id);
      } else {
        NullRowsAreOld(setting, trace, j, i - 1, id);
        NullRowsAreOld(setting, trace, j - 1, i - 1, id);
      }
    }
  }

  lemma {:induction false} MislabelledIsUnmapped(s: State, t: State, id: string)
    requires Mislabels(s, t, id)
    ensures id in s.db.accounts && Unmapped(s.db.accounts[id])
  {
  }

  /** An account that is neither mislabelled nor withdrawn stays as it was at the fence. */
  lemma {:induction false} UntouchedSoFar(setting: Setting, trace: seq<State>, k: nat, id: string)
    requires Pass(setting, trace) && k < |trace| && id in trace[0].db.accounts && Unmapped(trace[0].db.accounts[id])
    requires forall i :: 0 < i <= k ==> !MislabelledAt(trace, i, id) && !WithdrawnAt(trace, i, id)
    ensures id in trace[k].db.accounts && trace[k].db.accounts[id] == trace[0].db.accounts[id]
  {
    hide Pass, Mislabels, Unmapped;
    if k > 0 {
      UntouchedSoFar(setting, trace, k - 1, id);
      assert !WithdrawnAt(trace, k, id) && !MislabelledAt(trace, k, id);
    }
  }

  /** When the last batch of a pass found no row locked, no row is left to do. */
  lemma {:induction false} NothingLeftAfterPass(setting: Setting, trace: seq<State>)
    requires Pass(setting, trace) && !setting.locks
    ensures Candidates(trace[|trace| - 1].db.accounts) == {}
  {
    hide UniqueEmails, UniqueIdentities, Candidates, NeedsBackfill, IsBatch, PatchAll, NewRowsHaveIssuers;
    var s, t := trace[|trace| - 2], trace[|trace| - 1];
    assert Step(setting, s, t);
    assert Batched(s, t, {});
    OnlyLockedRowsAreLeft(s, t, {});
  }

  /** Without locks, a backfill mislabels an account exactly when it was there, without issuer and with an
      expiry to move, when the fence was applied, and nobody changed it first. */
  lemma {:induction false} AccountIsMislabelledExactlyWhen(setting: Setting, trace: seq<State>, id: string)
    requires Pass(setting, trace) && !setting.locks
    ensures (exists i :: MislabelledAt(trace, i, id))
       <==> AtRisk(trace[0].db.accounts, id)
            && forall j :: !WithdrawnAt(trace, j, id)
  {
    assert |trace| > 2;
    hide Pass, Mislabels, Withdrawn, Unmapped, NeedsBackfill;
    if i: nat :| MislabelledAt(trace, i, id) {
      forall j: nat
        ensures !WithdrawnAt(trace, j, id)
      {
        MislabelledWasThereAtTheFence(setting, trace, i, j, id);
      }
      MislabelledWasThereAtTheFence(setting, trace, i, i, id);
    } else if AtRisk(trace[0].db.accounts, id)
              && forall j :: !WithdrawnAt(trace, j, id) {
      UnlabelledStays(setting, trace, id);
    }
  }

  lemma {:induction false} UnlabelledStays(setting: Setting, trace: seq<State>, id: string)
    requires Pass(setting, trace) && !setting.locks && id in trace[0].db.accounts && Unmapped(trace[0].db.accounts[id])
    requires forall i :: !MislabelledAt(trace, i, id) && !WithdrawnAt(trace, i, id)
    ensures !NeedsBackfill(trace[0].db.accounts[id])
  {
    UntouchedSoFar(setting, trace, |trace| - 1, id);
    NothingLeftAfterPass(setting, trace);
    assert |trace| > 2;
    hide Pass, Mislabels, Withdrawn, Unmapped, NeedsBackfill;
    assert id !in Candidates(trace[|trace| - 1].db.accounts);
  }

  /** When nobody else writes after the fence, some account is mislabelled exactly when one was at risk
      there; none is when preflight passes on the accounts the fence finds. */
  lemma {:induction false} OnlyCredentialsAreLabelled(trace: seq<State>)
    requires Pass(QUIET, trace)
    ensures (exists i, id :: MislabelledAt(trace, i, id)) <==> exists id :: AtRisk(trace[0].db.accounts, id)
    ensures Preflight(trace[0].db.accounts) ==> forall i, id :: !MislabelledAt(trace, i, id)
  {
    hide Mislabels, Withdrawn, AtRisk, Execution, MislabelledAt, Preflight;
    if i: nat, id :| MislabelledAt(trace, i, id) {
      QuietlyMislabelledExactlyWhen(trace, id);
      RiskFailsPreflight(trace[0].db.accounts, id);
    }
    if id :| AtRisk(trace[0].db.accounts, id) {
      QuietlyMislabelledExactlyWhen(trace, id);
    }
  }

  lemma {:induction false} RiskFailsPreflight(accounts: Accounts, id: string)
    requires AtRisk(accounts, id)
    ensures !Preflight(accounts)
  {
  }

  lemma {:induction false} QuietlyMislabelledExactlyWhen(trace: seq<State>, id: string)
    requires Pass(QUIET, trace)
    ensures (exists i :: MislabelledAt(trace, i, id)) <==> AtRisk(trace[0].db.accounts, id)
  {
    hide Mislabels, Withdrawn, AtRisk, Execution, MislabelledAt, WithdrawnAt;
    forall j: nat
      ensures !WithdrawnAt(trace, j, id)
    {
      NobodyWithdraws(trace, j, id);
    }
    AccountIsMislabelledExactlyWhen(QUIET, trace, id);
  }

  lemma {:induction false} NobodyWithdraws(trace: seq<State>, j: nat, id: string)
    requires Pass(QUIET, trace)
    ensures !WithdrawnAt(trace, j, id)
  {
    if !(0 < j < |trace|) {
      return;
    }
    hide UniqueEmails, UniqueIdentities, Candidates, NeedsBackfill, Patched;
    var s, t := trace[j - 1], trace[j];
    assert Step(QUIET, s, t);
    if s.pc.Backfill? {
      assert Batched(s, t, {});
    }
  }

  /** An execution in which that happens although preflight passed: another writer adds the account just
      before the fence, and the run completes. */
  lemma {:induction false} AccountSlipsInBeforeTheFence() returns (trace: seq<State>, id: string)
    ensures Execution(Setting(true, false), trace) && trace[0].pc.Emails? && Preflight(trace[0].db.accounts)
    ensures var end := trace[|trace| - 1];
            && end.pc.Done? && id in end.db.accounts
            && end.db.accounts[id].providerId != CREDENTIAL && end.db.accounts[id].issuer == Some(LOCAL_ISSUER)
  {
    var setting := Setting(true, false);
    id := "account";
    var start := Db(None, NoIndex, map[], Nullable, NoCheck, ValidIndex, ValidIndex);
    var late := Account(None, "1", "google", None, Some(1), "");
    var before := UpToFence(setting, State(start, Emails));
    var middle := LateAccount(setting, start, id, late);
    assert UniqueIdentities(map[id := Patched(late)]);
    var after := FromValidate(setting, middle[|middle| - 1]);
    hide Execution, Preflight;
    Joined(setting, before, middle);
    Joined(setting, before + middle[1..], after);
    trace := before + middle[1..] + after[1..];
  }

  lemma {:induction false} LateAccount(setting: Setting, db: Db, id: string, late: Account) returns (trace: seq<State>)
    requires setting.writers && db.accounts == map[] && db.check.NoCheck? && db.column.Nullable? && UniqueEmails(db.users)
    requires Unmapped(late) && NeedsBackfill(late)
    ensures Execution(setting, trace) && trace[0] == State(db, Fence)
    ensures trace[|trace| - 1] == State(db.(accounts := map[id := Patched(late)], check := NotValidCheck), Validate)
  {
    hide UniqueEmails, NeedsBackfill, Unmapped;
    var s0 := State(db, Fence);
    var s1 := State(db.(accounts := map[id := late]), Fence);
    var s2 := Next(s1);
    var s3 := AfterBatch(s2, {id});
    assert Write(s0, s1);
    assert Candidates(s2.db.accounts) == {id};
    assert IsBatch(s2.db.accounts, {}, {id});
    assert Batched(s2, s3, {});
    assert PatchAll(s2.db.accounts, {id}) == map[id := Patched(late)];
    trace := [s0, s1, s2, s3];
  }

  // ---------------------------------------------------------------- the check constraint

  /** How the check constraint fares within one run that began in `start`. */
  predicate CheckSoFar(start: Db, s: State) {
    if start.column.NotNull? then s.db.column.NotNull? && s.db.check == start.check && !Late(s.pc)
    else if start.column.Nullable? then
      && (s.pc.DropCheck? || s.pc.Done? || s.db.column.Nullable?) && (s.pc.Done? ==> s.db.check.NoCheck?)
      && (s.pc.UserIndex? || s.pc.BuildUser? || s.pc.IdentityIndex? || s.pc.BuildIdentity? ==> !s.pc.early)
    else s.db.column.Missing? && !Late(s.pc)
  }

  lemma {:induction false} CheckFollowsRun(locks: bool, trace: seq<State>, i: nat)
    requires SingleRun(locks, trace) && i < |trace|
    ensures CheckSoFar(trace[0].db, trace[i])
  {
    hide UniqueEmails, UniqueIdentities, Colliding, Unmapped, Mismatched, NoNullIssuer, PatchAll, IsBatch;
    if i > 0 {
      CheckFollowsRun(locks, trace, i - 1);
      assert Program(locks, trace[i - 1], trace[i]);
    }
  }

  /** A completed run leaves no check constraint exactly when it found the column nullable or found no
      check: a crash between SET NOT NULL and the drop leaves the check behind for good. */
  lemma {:induction false} CheckIsDroppedExactlyWhen(locks: bool, trace: seq<State>)
    requires SingleRun(locks, trace) && trace[|trace| - 1].pc.Done? && !trace[0].db.column.Missing?
    ensures trace[|trace| - 1].db.check.NoCheck? <==> trace[0].db.column.Nullable? || trace[0].db.check.NoCheck?
  {
    hide Program, Late;
    CheckFollowsRun(locks, trace, |trace| - 1);
  }

  /** From the fence to the end of the backfill when there is nothing to do. */
  lemma {:induction false} NothingToDo(setting: Setting, db: Db) returns (trace: seq<State>)
    requires db.check.NoCheck? && Candidates(db.accounts) == {} && UniqueIdentities(db.accounts)
    ensures Execution(setting, trace) && |trace| > 0 && trace[0] == State(db, Fence)
    ensures trace[|trace| - 1] == State(db.(check := NotValidCheck), Validate)
  {
    hide UniqueEmails, UniqueIdentities, Candidates, NoNullIssuer, PatchAll;
    var s0, s1 := State(db, Fence), State(db.(check := NotValidCheck), Backfill);
    EmptyBatch(db.accounts);
    assert AfterBatch(s1, {}) == State(s1.db, Validate);
    assert Batched(s1, State(s1.db, Validate), {});
    trace := [s0, s1, State(s1.db, Validate)];
  }

  /** From validation to SET NOT NULL, and no further. */
  lemma {:induction false} UpToDrop(setting: Setting, s: State) returns (trace: seq<State>)
    requires s.pc.Validate? && s.db.column.Nullable? && NoNullIssuer(s.db.accounts)
    requires s.db.userIndex.ValidIndex? && s.db.identityIndex.ValidIndex?
    ensures Execution(setting, trace) && |trace| > 0 && trace[0] == s
    ensures trace[|trace| - 1] == State(s.db.(column := NotNull, check := ValidCheck), DropCheck)
  {
    hide NoNullIssuer;
    var s1 := Next(s);
    var s2 := Next(s1);
    var s3 := Next(s2);
    trace := [s, s1, s2, s3, Next(s3)];
  }

  /** A rerun that finds the column NOT NULL and both indexes in place changes nothing. */
  lemma {:induction false} EarlyRun(setting: Setting, s: State) returns (trace: seq<State>)
    requires s.db.column.NotNull? && s.db.users.None? && s.db.userIndex.ValidIndex? && s.db.identityIndex.ValidIndex?
    ensures Execution(setting, trace) && |trace| > 0 && trace[0] == s && trace[|trace| - 1] == State(s.db, Done)
  {
    trace := [s, State(s.db, Emails), State(s.db, Inspect), State(s.db, UserIndex(true)), State(s.db, IdentityIndex(true)),
              State(s.db, Done)];
  }

  /** Such an execution: the first run dies between SET NOT NULL and the drop, the next one completes and
      leaves the check in place. */
  lemma {:induction false} CrashLeavesTheCheck() returns (trace: seq<State>)
    ensures Execution(QUIET, trace) && trace[0].pc.Emails? && trace[0].db.column.Nullable? && trace[0].db.check.NoCheck?
    ensures trace[|trace| - 1].pc.Done? && trace[|trace| - 1].db.check.ValidCheck?
  {
    var start := Db(None, NoIndex, map[], Nullable, NoCheck, ValidIndex, ValidIndex);
    assert Candidates(start.accounts) == {};
    hide Execution, Candidates;
    var before := UpToFence(QUIET, State(start, Emails));
    var middle := NothingToDo(QUIET, start);
    var first := UpToDrop(QUIET, middle[|middle| - 1]);
    var second := EarlyRun(QUIET, first[|first| - 1]);
    Joined(QUIET, before, middle);
    Joined(QUIET, before + middle[1..], first);
    Joined(QUIET, before + middle[1..] + first[1..], second);
    trace := before + middle[1..] + first[1..] + second[1..];
  }
}
