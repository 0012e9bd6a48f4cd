/** How a run of the account migration on its own ends, decided by the database it finds: the first
    obstacle in the program's order is the error, and nothing is migrated before all checks have passed. */
module BetterAuthOutcome {
  import opened Wrappers
  import opened BetterAuthMigration

  /** What stands in the way of the email index. */
  function EmailFault(db: Db): Option<Error> {
    if db.users.None? || db.emailIndex.ValidIndex? then None
    else if db.emailIndex.OtherIndex? then Some(UnexpectedIndex)
    else if HasSharedEmail(db.users.value) then Some(DuplicateEmail)
    else None
  }

  predicate HasSharedEmail(users: map<string, string>) {
    exists a, b :: a in users && b in users && a != b && users[a] == users[b]
  }

  lemma {:induction false} SharedEmailMeans(users: map<string, string>)
    ensures UniqueEmails(Some(users)) <==> !HasSharedEmail(users)
  {
  }

  predicate HasUnmapped(accounts: Accounts) {
    exists id :: id in accounts && accounts[id].issuer.None? && accounts[id].providerId != "credential"
  }

  predicate HasMismatched(accounts: Accounts) {
    exists id :: id in accounts && accounts[id].providerId == "credential" && accounts[id].issuer.Some?
      && accounts[id].issuer.value != "local:credential"
  }

  predicate HasDuplicate(accounts: Accounts) {
    exists a, b :: a in accounts && b in accounts && a != b
      && Issuer(accounts[a]) == Issuer(accounts[b]) && accounts[a].accountId == accounts[b].accountId
  }

  /** What stands in the way of the backfill: an account that cannot be mapped, else a credential account of
      another issuer, else two accounts that would share an identity. */
  function AccountFault(accounts: Accounts): Option<Error> {
    if HasUnmapped(accounts) then Some(UnmappedAccount)
    else if HasMismatched(accounts) then Some(MismatchedCredential)
    else if HasDuplicate(accounts) then Some(DuplicateIdentity)
    else None
  }

  lemma {:induction false} CollidingMeans(accounts: Accounts)
    ensures Colliding(accounts) <==> HasDuplicate(accounts)
  {
    if HasDuplicate(accounts) {
      var a, b :| a in accounts && b in accounts && a != b
        && Issuer(accounts[a]) == Issuer(accounts[b]) && accounts[a].accountId == accounts[b].accountId;
      assert SameIdentity(Patched(accounts[a]), Patched(accounts[b]));
    }
  }

  /** Preflight passes exactly when no account fault is found. */
  lemma {:induction false} PreflightFindsFaults(accounts: Accounts)
    ensures Preflight(accounts) <==> AccountFault(accounts).None?
    ensures HasUnmapped(accounts) <==> exists id :: id in accounts && Unmapped(accounts[id])
    ensures HasMismatched(accounts) <==> exists id :: id in accounts && Mismatched(accounts[id])
    ensures HasDuplicate(accounts) <==> Colliding(accounts)
  {
    CollidingMeans(accounts);
    hide Colliding, Issuer, HasDuplicate;
  }

  predicate ForeignIndex(db: Db) {
    db.userIndex.OtherIndex? || db.identityIndex.OtherIndex?
  }

  /** Nothing but the email index may have changed. */
  predicate OnlyEmailIndex(start: Db, now: Db) {
    now == start.(emailIndex := now.emailIndex)
  }

  predicate AllPassed(start: Db) {
    EmailFault(start).None? && start.column.Nullable? && Preflight(start.accounts)
  }

  /** Rows are being migrated, or have been. */
  predicate Migrating(start: Db, now: Db) {
    && AllPassed(start) && PartlyPatched(start.accounts, now.accounts)
  }

  predicate SameForeign(start: Db, now: Db) {
    now.userIndex.OtherIndex? == start.userIndex.OtherIndex? && now.identityIndex.OtherIndex? == start.identityIndex.OtherIndex?
  }

  predicate NoneMigrated(start: Db, now: Db) {
    now.accounts == start.accounts && now.check == start.check && now.column == start.column
  }

  /** The tightening phase, with or without a backfill before it. */
  predicate Tightening(locks: bool, start: Db, now: Db, early: bool) {
    if early
    then EmailFault(start).None? && start.column.NotNull? && NoneMigrated(start, now)
    else Migrating(start, now) && (!locks ==> Candidates(now.accounts) == {}) && NoNullIssuer(now.accounts)
  }

  predicate FaultOfIdentities(start: Db) {
    !start.identityIndex.ValidIndex? && !UniqueIdentities(start.accounts)
  }

  /** How a run on database `start` ends. */
  predicate EndsAsFound(locks: bool, start: Db, end: State) {
    if EmailFault(start).Some? then end == State(start, Failed(EmailFault(start).value))
    else
      match start.column
      case Missing => end.pc.Done? && OnlyEmailIndex(start, end.db)
      case NotNull =>
        && NoneMigrated(start, end.db)
        && end.pc == (if ForeignIndex(start) then Failed(UnexpectedIndex)
                      else if FaultOfIdentities(start) then Failed(IdentitiesChanged) else Done)
      case Nullable =>
        match AccountFault(start.accounts)
        case Some(fault) => end.pc == Failed(fault) && OnlyEmailIndex(start, end.db)
        case None =>
          || (locks && end.pc == Failed(NullIssuerLeft) && PartlyPatched(start.accounts, end.db.accounts))
          || (end.pc == (if ForeignIndex(start) then Failed(UnexpectedIndex) else Done)
              && PartlyPatched(start.accounts, end.db.accounts)
              && (!locks ==> end.db.accounts == Migrated(start.accounts)))
  }

  /** Where a run stands that began on database `start`. */
  predicate Along(locks: bool, start: Db, s: State) {
    var db := s.db;
    && db.users == start.users && SameForeign(start, db)
    && match s.pc
       case Emails => db == start
       case BuildEmails => EmailFault(start).None? && OnlyEmailIndex(start, db) && UniqueEmails(db.users)
       case Inspect => EmailFault(start).None? && OnlyEmailIndex(start, db)
       case FindUnmapped => EmailFault(start).None? && OnlyEmailIndex(start, db) && db.column.Nullable?
       case FindMismatched =>
         && EmailFault(start).None? && OnlyEmailIndex(start, db) && db.column.Nullable?
         && AccountFault(start.accounts) != Some(UnmappedAccount)
       case FindCollision =>
         && EmailFault(start).None? && OnlyEmailIndex(start, db) && db.column.Nullable?
         && AccountFault(start.accounts) != Some(UnmappedAccount) && AccountFault(start.accounts) != Some(MismatchedCredential)
       case Fence => AllPassed(start) && OnlyEmailIndex(start, db)
       case Backfill => Migrating(start, db) && db.column.Nullable?
       case Validate => Migrating(start, db) && (!locks ==> Candidates(db.accounts) == {})
       case UserIndex(early) => Tightening(locks, start, db, early) && (early ==> db.identityIndex == start.identityIndex)
       case BuildUser(early) =>
         Tightening(locks, start, db, early) && (early ==> db.identityIndex == start.identityIndex) && !start.userIndex.OtherIndex?
       case IdentityIndex(early) =>
         Tightening(locks, start, db, early) && (early ==> db.identityIndex == start.identityIndex) && !start.userIndex.OtherIndex?
       case BuildIdentity(early) =>
         Tightening(locks, start, db, early) && !ForeignIndex(start) && (early ==> !start.identityIndex.ValidIndex?)
       case SetNotNull => Tightening(locks, start, db, false) && !ForeignIndex(start)
       case DropCheck => Tightening(locks, start, db, false) && !ForeignIndex(start)
       case Done => EndsAsFound(locks, start, s)
       case Failed(_) => EndsAsFound(locks, start, s)
  }

  lemma {:induction false} EmailsStayAlong(locks: bool, start: Db, s: State)
    requires Along(locks, start, s) && (s.pc.Emails? || s.pc.BuildEmails? || s.pc.Inspect?)
    ensures Along(locks, start, Next(s))
  {
    if start.users.Some? {
      SharedEmailMeans(start.users.value);
    }
    hide UniqueEmails, HasSharedEmail, UniqueIdentities, Preflight, AccountFault, PartlyPatched, Candidates, NoNullIssuer;
  }

  lemma {:induction false} PreflightStaysAlong(locks: bool, start: Db, s: State)
    requires Along(locks, start, s) && (s.pc.FindUnmapped? || s.pc.FindMismatched? || s.pc.FindCollision? || s.pc.Fence?)
    ensures Along(locks, start, Next(s))
  {
    PreflightFindsFaults(start.accounts);
    NothingPatched(start.accounts);
    hide UniqueEmails, UniqueIdentities, Preflight, PartlyPatched, Candidates, NoNullIssuer, HasUnmapped, HasMismatched, HasDuplicate,
      Unmapped, Mismatched, Colliding;
  }

  lemma {:induction false} BatchStaysAlong(locks: bool, start: Db, s: State, t: State)
    requires Along(locks, start, s) && s.pc.Backfill? && Program(locks, s, t)
    ensures Along(locks, start, t)
  {
    hide UniqueEmails, UniqueIdentities, Preflight, PartlyPatched, Candidates, NoNullIssuer, PatchAll, IsBatch, Colliding, EmailFault;
    var locked :| (locks || locked == {}) && Batched(s, t, locked);
    var batch :| IsBatch(s.db.accounts, locked, batch) && t == AfterBatch(s, batch);
    BatchPatchesPartly(start.accounts, s.db.accounts, batch);
    PatchedHasNoCollision(start.accounts, PatchAll(s.db.accounts, batch));
    if t.pc.Validate? {
      OnlyLockedRowsAreLeft(s, t, locked);
    }
  }

  lemma {:induction false} PatchedHasNoCollision(start: Accounts, now: Accounts)
    requires Preflight(start) && PartlyPatched(start, now)
    ensures UniqueIdentities(now)
  {
    hide PartlyPatched, UniqueIdentities, Colliding;
    PreflightSurvives(start, now);
    NoCollisionIsUnique(now);
  }

  lemma {:induction false} ValidateStaysAlong(locks: bool, start: Db, s: State)
    requires Along(locks, start, s) && s.pc.Validate?
    ensures Along(locks, start, Next(s))
  {
    hide UniqueEmails, UniqueIdentities, PartlyPatched, Candidates, NoNullIssuer, EmailFault, HasUnmapped, HasMismatched, HasDuplicate;
    PreflightFindsFaults(start.accounts);
    if !locks {
      NothingLeftIsMigrated(start.accounts, s.db.accounts);
    }
    hide Preflight;
  }

  lemma {:induction false} IndexesStayAlong(locks: bool, start: Db, s: State)
    requires Along(locks, start, s) && (s.pc.UserIndex? || s.pc.BuildUser? || s.pc.IdentityIndex? || s.pc.BuildIdentity?)
    ensures Along(locks, start, Next(s))
  {
    hide UniqueEmails, UniqueIdentities, PartlyPatched, Candidates, NoNullIssuer, EmailFault, HasUnmapped, HasMismatched, HasDuplicate;
    PreflightFindsFaults(start.accounts);
    if !s.pc.early {
      PatchedHasNoCollision(start.accounts, s.db.accounts);
      if !locks {
        NothingLeftIsMigrated(start.accounts, s.db.accounts);
      }
    }
    hide Preflight;
  }

  lemma {:induction false} EndStaysAlong(locks: bool, start: Db, s: State)
    requires Along(locks, start, s) && (s.pc.SetNotNull? || s.pc.DropCheck?)
    ensures Along(locks, start, Next(s))
  {
    hide UniqueEmails, UniqueIdentities, PartlyPatched, Candidates, NoNullIssuer, EmailFault, HasUnmapped, HasMismatched, HasDuplicate;
    PreflightFindsFaults(start.accounts);
    if !locks {
      NothingLeftIsMigrated(start.accounts, s.db.accounts);
    }
    hide Preflight;
  }

  lemma {:induction false} StepStaysAlong(locks: bool, start: Db, s: State, t: State)
    requires Along(locks, start, s) && Program(locks, s, t)
    ensures Along(locks, start, t)
  {
    hide Along, Batched;
    if s.pc.Emails? || s.pc.BuildEmails? || s.pc.Inspect? {
      EmailsStayAlong(locks, start, s);
    } else if s.pc.FindUnmapped? || s.pc.FindMismatched? || s.pc.FindCollision? || s.pc.Fence? {
      PreflightStaysAlong(locks, start, s);
    } else if s.pc.Backfill? {
      BatchStaysAlong(locks, start, s, t);
    } else if s.pc.Validate? {
      ValidateStaysAlong(locks, start, s);
    } else if s.pc.SetNotNull? || s.pc.DropCheck? {
      EndStaysAlong(locks, start, s);
    } else {
      IndexesStayAlong(locks, start, s);
    }
  }

  lemma {:induction false} RunStaysAlong(locks: bool, trace: seq<State>, i: nat)
    requires SingleRun(locks, trace) && i < |trace|
    ensures Along(locks, trace[0].db, trace[i])
  {
    hide Along, Program;
    if i == 0 {
      BeginsAlong(locks, trace[0]);
    } else {
      RunStaysAlong(locks, trace, i - 1);
      StepStaysAlong(locks, trace[0].db, trace[i - 1], trace[i]);
    }
  }

  lemma {:induction false} BeginsAlong(locks: bool, s: State)
    requires s.pc.Emails?
    ensures Along(locks, s.db, s)
  {
  }

  /** Every run on its own that comes to an end does so as the faults of the database it found say:
      accounts that fail preflight stop it with the first fault and are left alone; otherwise only a foreign
      index, or a row without issuer that others held locked, keeps it from completing. */
  lemma {:induction false} RunEndsAsFound(locks: bool, trace: seq<State>)
    requires SingleRun(locks, trace) && Stopped(trace[|trace| - 1].pc)
    ensures EndsAsFound(locks, trace[0].db, trace[|trace| - 1])
  {
    assert |trace| > 0;
    hide SingleRun, EndsAsFound;
    RunStaysAlong(locks, trace, |trace| - 1);
  }

  /** No run completes on a nullable column unless preflight holds, and one that finds it violated changes
      no account. */
  lemma {:induction false} FailedPreflightStopsRun(locks: bool, trace: seq<State>)
    requires SingleRun(locks, trace) && Stopped(trace[|trace| - 1].pc) && trace[0].db.column.Nullable?
    ensures var (start, end) := (trace[0].db, trace[|trace| - 1]);
            && (end.pc.Done? ==> Preflight(start.accounts))
            && (!Preflight(start.accounts) ==> end.pc.Failed? && end.db.accounts == start.accounts)
            && (end.pc == Failed(UnmappedAccount) <==> EmailFault(start).None? && HasUnmapped(start.accounts))
            && (end.pc == Failed(MismatchedCredential) <==>
                  EmailFault(start).None? && !HasUnmapped(start.accounts) && HasMismatched(start.accounts))
            && (end.pc == Failed(DuplicateIdentity) <==>
                  EmailFault(start).None? && !HasUnmapped(start.accounts) && !HasMismatched(start.accounts) && HasDuplicate(start.accounts))
  {
    assert |trace| > 0;
    hide SingleRun, Preflight, HasUnmapped, HasMismatched, HasDuplicate, PartlyPatched, UniqueEmails, UniqueIdentities;
    RunEndsAsFound(locks, trace);
    PreflightFindsFaults(trace[0].db.accounts);
  }
}
