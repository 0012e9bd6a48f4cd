/** The account migration of packages/db/src/better-auth-migration.ts as methods that change a database
    statement by statement; a ghost trace ties every run to the machine of BetterAuthMigration. */
module BetterAuthDatabase {
  import opened Wrappers
  import opened BetterAuthMigration
  import opened BetterAuthOutcome

  class AuthDatabase {
    var users: Option<map<string, string>>
    var emailIndex: Index
    var accounts: Accounts
    var column: Column
    var check: Check
    var userIndex: Index
    var identityIndex: Index

    /** Whether other transactions may hold locks on accounts. */
    ghost const locks: bool
    /** The database at the very beginning, and at the beginning of the current run. */
    ghost const origin: Db
    ghost var start: Db
    ghost var begin: nat
    ghost var trace: seq<State>

    constructor (db: Db, ghost locks: bool)
      ensures Valid() && View() == db && this.locks == locks && origin == db
    {
      users, emailIndex, accounts, column := db.users, db.emailIndex, db.accounts, db.column;
      check, userIndex, identityIndex := db.check, db.userIndex, db.identityIndex;
      this.locks, origin, start, begin, trace := locks, db, db, 0, [State(db, Emails)];
    }

    function View(): Db
      reads this
    {
      Db(users, emailIndex, accounts, column, check, userIndex, identityIndex)
    }

    /** The trace is an execution, its last run is on its own, and ends in the present state. */
    ghost predicate Valid()
      reads this
    {
      |trace| > 0 && Traced() && trace[|trace| - 1].db == View()
    }

    ghost predicate Traced()
      reads this`trace, this`begin, this`start
    {
      && Execution(Setting(false, locks), trace) && begin < |trace| && SingleRun(locks, trace[begin..])
      && trace[0].db == origin && trace[begin] == State(start, Emails)
    }

    ghost function Where(): Pc
      requires |trace| > 0
      reads this`trace
    {
      trace[|trace| - 1].pc
    }

    /** Notes that a statement has led to the present state. */
    ghost method Record(pc: Pc)
      requires |trace| > 0 && Traced() && Program(locks, trace[|trace| - 1], State(View(), pc))
      modifies this`trace
      ensures Valid() && Where() == pc
    {
      hide Program;
      RunGrows(locks, trace, begin, State(View(), pc));
      trace := trace + [State(View(), pc)];
    }

    /** A new run begins, wherever the last one ended or was cut off. */
    ghost method Begin()
      requires Valid()
      modifies this`trace, this`begin, this`start
      ensures Valid() && Where() == Emails && start == View()
    {
      hide Program;
      RunBegins(locks, trace, State(View(), Emails));
      begin, start := |trace|, View();
      trace := trace + [State(View(), Emails)];
    }

    method EnsureNormalizedUserEmailIndex() returns (r: Result<(), Error>)
      requires Valid() && Where() == Emails
      modifies this`emailIndex, this`trace
      ensures Valid()
      ensures Where() == if r.Ok? then Inspect else Failed(r.error)
    {
      hide Traced, Batched, UniqueEmails, UniqueIdentities, Unmapped, Mismatched, Colliding, NoNullIssuer;
      if users.None? {
        Record(Inspect);
        return Ok(());
      }
      if emailIndex.OtherIndex? {
        Record(Failed(UnexpectedIndex));
        return Err(UnexpectedIndex);
      }
      if emailIndex.ValidIndex? {
        Record(Inspect);
        return Ok(());
      }
      if !UniqueEmails(users) {
        Record(Failed(DuplicateEmail));
        return Err(DuplicateEmail);
      }
      emailIndex := NoIndex;
      Record(BuildEmails);
      emailIndex := ValidIndex;
      Record(Inspect);
      r := Ok(());
    }

    method AddIssuerWriteFence()
      requires Valid() && Where() == Fence
      modifies this`check, this`trace
      ensures Valid() && Where() == Backfill
    {
      hide Traced, Batched, UniqueEmails, UniqueIdentities, Unmapped, Mismatched, Colliding, NoNullIssuer;
      if check.NoCheck? {
        check := NotValidCheck;
      }
      Record(Backfill);
    }

    /** Selects up to a batch of unlocked rows that need work. */
    method SelectBatch(locked: set<string>) returns (batch: set<string>)
      ensures IsBatch(accounts, locked, batch)
    {
      var rest := Candidates(accounts) - locked;
      batch := {};
      while rest != {} && |batch| < BACKFILL_BATCH_SIZE
        invariant batch + rest == Candidates(accounts) - locked && batch !! rest && |batch| <= BACKFILL_BATCH_SIZE
        decreases |rest|
      {
        var id :| id in rest;
        batch, rest := batch + {id}, rest - {id};
      }
    }

    /** Runs batches until one is not full. `locked(i)` is what others hold locked during batch i. */
    method BackfillAccounts(locked: nat -> set<string>) returns (r: Result<(), Error>)
      requires Valid() && Where() == Backfill && (!locks ==> forall i :: locked(i) == {})
      modifies this`accounts, this`trace
      ensures Valid()
      ensures Where() == if r.Ok? then Validate else Failed(r.error)
    {
      hide Traced, Candidates, UniqueIdentities, IsBatch;
      var i: nat := 0;
      while true
        invariant Valid() && Where() == Backfill
        decreases |Candidates(accounts)|
      {
        var batch := SelectBatch(locked(i));
        var patched := PatchAll(accounts, batch);
        BatchesComeToAnEnd(accounts, locked(i), batch);
        assert Batched(trace[|trace| - 1], AfterBatch(trace[|trace| - 1], batch), locked(i));
        if identityIndex.ValidIndex? && !UniqueIdentities(patched) {
          Record(Failed(DuplicateKey));
          return Err(DuplicateKey);
        }
        accounts := patched;
        if |batch| < BACKFILL_BATCH_SIZE {
          Record(Validate);
          return Ok(());
        }
        Record(Backfill);
        i := i + 1;
      }
    }

    method EnsureUserIdIndex(ghost early: bool) returns (r: Result<(), Error>)
      requires Valid() && Where() == UserIndex(early)
      modifies this`userIndex, this`trace
      ensures Valid()
      ensures Where() == if r.Ok? then IdentityIndex(early) else Failed(r.error)
    {
      hide Traced, Batched, UniqueEmails, UniqueIdentities, Unmapped, Mismatched, Colliding, NoNullIssuer;
      if userIndex.OtherIndex? {
        Record(Failed(UnexpectedIndex));
        return Err(UnexpectedIndex);
      }
      if userIndex.ValidIndex? {
        Record(IdentityIndex(early));
        return Ok(());
      }
      userIndex := NoIndex;
      Record(BuildUser(early));
      userIndex := ValidIndex;
      Record(IdentityIndex(early));
      r := Ok(());
    }

    method EnsureAccountIdentityIndex(ghost early: bool) returns (r: Result<(), Error>)
      requires Valid() && Where() == IdentityIndex(early)
      modifies this`identityIndex, this`trace
      ensures Valid()
      ensures Where() == if r.Ok? then AfterIdentity(early) else Failed(r.error)
    {
      hide Traced, Batched, UniqueEmails, UniqueIdentities, Unmapped, Mismatched, Colliding, NoNullIssuer;
      if identityIndex.OtherIndex? {
        Record(Failed(UnexpectedIndex));
        return Err(UnexpectedIndex);
      }
      if identityIndex.ValidIndex? {
        Record(AfterIdentity(early));
        return Ok(());
      }
      identityIndex := NoIndex;
      Record(BuildIdentity(early));
      if !UniqueIdentities(accounts) {
        identityIndex := InvalidIndex;
        Record(Failed(IdentitiesChanged));
        return Err(IdentitiesChanged);
      }
      identityIndex := ValidIndex;
      Record(AfterIdentity(early));
      r := Ok(());
    }

    method CheckAccounts() returns (r: Result<(), Error>)
      requires Valid() && Where() == FindUnmapped
      modifies this`trace
      ensures Valid()
      ensures Where() == if r.Ok? then Fence else Failed(r.error)
    {
      hide Traced, NoNullIssuer, Batched, Ensured, UniqueEmails, UniqueIdentities, Unmapped, Mismatched, Colliding;
      if exists id :: id in accounts && Unmapped(accounts[id]) {
        Record(Failed(UnmappedAccount));
        return Err(UnmappedAccount);
      }
      Record(FindMismatched);
      if exists id :: id in accounts && Mismatched(accounts[id]) {
        Record(Failed(MismatchedCredential));
        return Err(MismatchedCredential);
      }
      Record(FindCollision);
      if Colliding(accounts) {
        Record(Failed(DuplicateIdentity));
        return Err(DuplicateIdentity);
      }
      Record(Fence);
      r := Ok(());
    }

    /** Completes the account rollout. Every run is an execution of the machine that ends as the faults of the
        database it finds say; accounts that fail preflight stop it before it changes any of them. */
    method MigrateBetterAuthAccounts(locked: nat -> set<string>) returns (r: Result<(), Error>)
      requires Valid() && (!locks ==> forall i :: locked(i) == {})
      modifies this`emailIndex, this`accounts, this`column, this`check, this`userIndex, this`identityIndex, this`trace, this`begin, this`start
      ensures Valid() && start == old(View())
      ensures Where() == if r.Ok? then Done else Failed(r.error)
      ensures Enforced(old(View())) ==> Safe(State(View(), Where()))
      ensures EndsAsFound(locks, old(View()), State(View(), Where()))
      ensures old(column).Nullable? && r.Ok? ==> Preflight(old(accounts))
      ensures old(column).Nullable? && !Preflight(old(accounts)) ==> r.Err? && accounts == old(accounts)
      ensures !locks && Preflight(old(accounts)) && OnCourse(old(accounts), State(old(View()), Emails))
              ==> r.Ok? && accounts == Migrated(old(accounts)) && Complete(View())
    {
      hide Execution, SingleRun, Preflight, OnCourse, Enforced, Safe, Migrated, Complete, EndsAsFound;
      Begin();
      r := Run(locked);
      RunIsSafe(locks, trace, begin);
      RunEnds(locks, trace, begin);
      if !locks {
        RunMigrates(locks, trace, begin);
      }
    }

    method Run(locked: nat -> set<string>) returns (r: Result<(), Error>)
      requires Valid() && Where() == Emails && (!locks ==> forall i :: locked(i) == {})
      modifies this`emailIndex, this`accounts, this`column, this`check, this`userIndex, this`identityIndex, this`trace
      ensures Valid()
      ensures Where() == if r.Ok? then Done else Failed(r.error)
    {
      hide Traced, NoNullIssuer, Batched, Ensured, UniqueEmails, UniqueIdentities, Unmapped, Mismatched, Colliding;
      r := EnsureNormalizedUserEmailIndex();
      if r.Err? {
        return;
      }
      if column.Missing? {
        Record(Done);
        return Ok(());
      }
      if column.NotNull? {
        Record(UserIndex(true));
        r := EnsureUserIdIndex(true);
        if r.Err? {
          return;
        }
        r := EnsureAccountIdentityIndex(true);
        return;
      }
      Record(FindUnmapped);
      r := CheckAccounts();
      if r.Err? {
        return;
      }
      AddIssuerWriteFence();
      r := BackfillAccounts(locked);
      if r.Err? {
        return;
      }
      r := Contract();
    }

    /** Everything after the backfill. */
    method Contract() returns (r: Result<(), Error>)
      requires Valid() && Where() == Validate
      modifies this`column, this`check, this`userIndex, this`identityIndex, this`trace
      ensures Valid()
      ensures Where() == if r.Ok? then Done else Failed(r.error)
    {
      hide Traced, NoNullIssuer, Batched, Ensured, UniqueEmails, UniqueIdentities, Unmapped, Mismatched, Colliding;
      if !NoNullIssuer(accounts) {
        Record(Failed(NullIssuerLeft));
        return Err(NullIssuerLeft);
      }
      check := ValidCheck;
      Record(UserIndex(false));
      r := EnsureUserIdIndex(false);
      if r.Err? {
        return;
      }
      r := EnsureAccountIdentityIndex(false);
      if r.Err? {
        return;
      }
      Tighten();
      r := Ok(());
    }

    /** SET NOT NULL finds no null issuer, since the check has been validated. */
    method Tighten()
      requires Valid() && Where() == SetNotNull && NoNullIssuer(accounts)
      modifies this`column, this`check, this`trace
      ensures Valid() && Where() == Done
    {
      hide Traced, NoNullIssuer, Batched;
      column := NotNull;
      Record(DropCheck);
      check := NoCheck;
      Record(Done);
    }
  }

  lemma {:induction false} RunGrows(locks: bool, trace: seq<State>, begin: nat, next: State)
    requires Execution(Setting(false, locks), trace) && begin < |trace| && SingleRun(locks, trace[begin..])
    requires Program(locks, trace[|trace| - 1], next)
    ensures Execution(Setting(false, locks), trace + [next]) && SingleRun(locks, (trace + [next])[begin..])
  {
    hide Program, Restart;
    assert (trace + [next])[begin..] == trace[begin..] + [next];
  }

  lemma {:induction false} RunBegins(locks: bool, trace: seq<State>, next: State)
    requires Execution(Setting(false, locks), trace) && Restart(trace[|trace| - 1], next)
    ensures Execution(Setting(false, locks), trace + [next]) && SingleRun(locks, (trace + [next])[|trace|..])
  {
  }

  lemma {:induction false} RunIsExecution(locks: bool, trace: seq<State>, begin: nat)
    requires begin < |trace| && SingleRun(locks, trace[begin..])
    ensures Execution(Setting(false, locks), trace[begin..])
  {
  }

  lemma {:induction false} RunIsSafe(locks: bool, trace: seq<State>, begin: nat)
    requires begin < |trace| && SingleRun(locks, trace[begin..])
    ensures Enforced(trace[begin].db) ==> Safe(trace[|trace| - 1])
  {
    hide Program, Execution, Enforced;
    RunIsExecution(locks, trace, begin);
    var run := trace[begin..];
    if Enforced(trace[begin].db) {
      assert Safe(run[0]);
      EveryExecutionIsSafe(Setting(false, locks), run, |run| - 1);
    }
  }

  lemma {:induction false} RunEnds(locks: bool, trace: seq<State>, begin: nat)
    requires begin < |trace| && SingleRun(locks, trace[begin..]) && Stopped(trace[|trace| - 1].pc)
    ensures var (start, end) := (trace[begin].db, trace[|trace| - 1]);
            && EndsAsFound(locks, start, end)
            && (start.column.Nullable? && end.pc.Done? ==> Preflight(start.accounts))
            && (start.column.Nullable? && !Preflight(start.accounts) ==> end.pc.Failed? && end.db.accounts == start.accounts)
  {
    hide SingleRun, EndsAsFound, Preflight, EmailFault, HasUnmapped, HasMismatched, HasDuplicate;
    var run := trace[begin..];
    RunEndsAsFound(locks, run);
    if run[0].db.column.Nullable? {
      FailedPreflightStopsRun(locks, run);
    }
  }

  lemma {:induction false} RunMigrates(locks: bool, trace: seq<State>, begin: nat)
    requires begin < |trace| && SingleRun(locks, trace[begin..]) && Stopped(trace[|trace| - 1].pc) && !locks
    ensures var (start, end) := (trace[begin], trace[|trace| - 1]);
            Preflight(start.db.accounts) && OnCourse(start.db.accounts, start)
            ==> end.pc.Done? && end.db.accounts == Migrated(start.db.accounts) && Complete(end.db)
  {
    hide Program, Execution, Preflight, Safe, Complete, Candidates, Unobstructed, PartlyPatched, BackfillOver;
    RunIsExecution(locks, trace, begin);
    var run := trace[begin..];
    if Preflight(run[0].db.accounts) && OnCourse(run[0].db.accounts, run[0]) {
      QuietExecutionsMigrate(run, |run| - 1);
    }
  }
}
