/** The online account migration of packages/db/src/better-auth-migration.ts as a machine over database
    states: one step per statement, with crashes, reruns, other writers and locked rows. */
module BetterAuthMigration {
  import opened Wrappers

  const BACKFILL_BATCH_SIZE: nat := 1000
  const LOCAL_ISSUER := "local:credential"
  const CREDENTIAL := "credential"

  // ---------------------------------------------------------------- the database

  /** A row of auth_accounts; `other` stands for the columns the migration never mentions. */
  datatype Account = Account(
    issuer: Option<string>,
    accountId: string,
    providerId: string,
    accessTokenExpiresAt: Option<int>,
    expiresAt: Option<int>,
    other: string
  )

  type Accounts = map<string, Account>

  datatype Check = NoCheck | NotValidCheck | ValidCheck

  /** An index by that name: none, left invalid by a failed build, as wanted, or valid but unexpected. */
  datatype Index = NoIndex | InvalidIndex | ValidIndex | OtherIndex

  /** The issuer column: absent (or no table at all), nullable, or NOT NULL. */
  datatype Column = Missing | Nullable | NotNull

  /** `users` maps a user's id to the lower-cased email; None when there is no such table. */
  datatype Db = Db(
    users: Option<map<string, string>>,
    emailIndex: Index,
    accounts: Accounts,
    column: Column,
    check: Check,
    userIndex: Index,
    identityIndex: Index
  )

  predicate UniqueEmails(users: Option<map<string, string>>) {
    users.Some? ==> forall a, b :: a in users.value && b in users.value && a != b ==> users.value[a] != users.value[b]
  }

  predicate NoNullIssuer(accounts: Accounts) {
    forall id :: id in accounts ==> accounts[id].issuer.Some?
  }

  /** As a unique index sees it: null issuers are never equal. */
  predicate UniqueIdentities(accounts: Accounts) {
    forall a, b :: a in accounts && b in accounts && a != b ==> !SameIdentity(accounts[a], accounts[b])
  }

  predicate SameIdentity(a: Account, b: Account) {
    a.issuer.Some? && a.issuer == b.issuer && a.accountId == b.accountId
  }

  // ---------------------------------------------------------------- preflight and backfill

  predicate Unmapped(account: Account) {
    account.issuer.None? && account.providerId != CREDENTIAL
  }

  predicate Mismatched(account: Account) {
    account.providerId == CREDENTIAL && account.issuer.Some? && account.issuer.value != LOCAL_ISSUER
  }

  function Issuer(account: Account): string {
    if account.issuer.Some? then account.issuer.value else LOCAL_ISSUER
  }

  predicate Colliding(accounts: Accounts) {
    exists a, b :: a in accounts && b in accounts && a != b && SameIdentity(Patched(accounts[a]), Patched(accounts[b]))
  }

  predicate Preflight(accounts: Accounts) {
    && (forall id :: id in accounts ==> !Unmapped(accounts[id]) && !Mismatched(accounts[id]))
    && !Colliding(accounts)
  }

  predicate NeedsBackfill(account: Account) {
    || (account.providerId == CREDENTIAL && account.issuer.None?)
    || (account.accessTokenExpiresAt.None? && account.expiresAt.Some?)
  }

  function Patched(account: Account): Account {
    account.(issuer := Some(Issuer(account)),
             accessTokenExpiresAt := if account.accessTokenExpiresAt.Some? then account.accessTokenExpiresAt else account.expiresAt)
  }

  function Candidates(accounts: Accounts): set<string> {
    set id | id in accounts && NeedsBackfill(accounts[id])
  }

  function PatchAll(accounts: Accounts, batch: set<string>): Accounts {
    map id | id in accounts :: if id in batch then Patched(accounts[id]) else accounts[id]
  }

  /** What FOR UPDATE SKIP LOCKED may select: as many unlocked candidates as there are, up to the limit. */
  predicate IsBatch(accounts: Accounts, locked: set<string>, batch: set<string>) {
    && batch <= Candidates(accounts) - locked
    && (|batch| == BACKFILL_BATCH_SIZE || batch == Candidates(accounts) - locked)
    && |batch| <= BACKFILL_BATCH_SIZE
  }

  // ---------------------------------------------------------------- the program

  datatype Error =
    | DuplicateEmail
    | EmailsChanged
    | UnexpectedIndex
    | UnmappedAccount
    | MismatchedCredential
    | DuplicateIdentity
    | DuplicateKey
    | NullIssuerLeft
    | IdentitiesChanged
    | NotNullViolated

  /** The next statement. `early` marks the indexes of the run that finds the column NOT NULL already. */
  datatype Pc =
    | Emails
    | BuildEmails
    | Inspect
    | FindUnmapped
    | FindMismatched
    | FindCollision
    | Fence
    | Backfill
    | Validate
    | UserIndex(early: bool)
    | BuildUser(early: bool)
    | IdentityIndex(early: bool)
    | BuildIdentity(early: bool)
    | SetNotNull
    | DropCheck
    | Done
    | Failed(error: Error)

  datatype State = State(db: Db, pc: Pc)

  predicate Stopped(pc: Pc) {
    pc.Done? || pc.Failed?
  }

  /** What looking at an index leads to: on, an error, or dropping what is there and building it. */
  function Ensured(index: Index, on: Pc, build: Pc): (Index, Pc) {
    match index
    case ValidIndex => (index, on)
    case OtherIndex => (index, Failed(UnexpectedIndex))
    case _ => (NoIndex, build)
  }

  function AfterIdentity(early: bool): Pc {
    if early then Done else SetNotNull
  }

  /** One statement, other than a backfill batch. */
  function Next(s: State): State
    requires !Stopped(s.pc) && !s.pc.Backfill?
  {
    var db := s.db;
    match s.pc
    case Emails =>
      if db.users.None? then State(db, Inspect)
      else if !db.emailIndex.ValidIndex? && !db.emailIndex.OtherIndex? && !UniqueEmails(db.users) then
        State(db, Failed(DuplicateEmail))
      else
        var (index, pc) := Ensured(db.emailIndex, Inspect, BuildEmails);
        State(db.(emailIndex := index), pc)
    case BuildEmails =>
      if UniqueEmails(db.users) then State(db.(emailIndex := ValidIndex), Inspect)
      else State(db.(emailIndex := InvalidIndex), Failed(EmailsChanged))
    case Inspect => State(db, match db.column case Missing => Done case NotNull => UserIndex(true) case Nullable => FindUnmapped)
    case FindUnmapped =>
      var found := exists id :: id in db.accounts && Unmapped(db.accounts[id]);
      State(db, if found then Failed(UnmappedAccount) else FindMismatched)
    case FindMismatched =>
      var found := exists id :: id in db.accounts && Mismatched(db.accounts[id]);
      State(db, if found then Failed(MismatchedCredential) else FindCollision)
    case FindCollision => State(db, if Colliding(db.accounts) then Failed(DuplicateIdentity) else Fence)
    case Fence => State(if db.check.NoCheck? then db.(check := NotValidCheck) else db, Backfill)
    case Validate =>
      if NoNullIssuer(db.accounts) then State(db.(check := ValidCheck), UserIndex(false))
      else State(db, Failed(NullIssuerLeft))
    case UserIndex(early) =>
      var (index, pc) := Ensured(db.userIndex, IdentityIndex(early), BuildUser(early));
      State(db.(userIndex := index), pc)
    case BuildUser(early) => State(db.(userIndex := ValidIndex), IdentityIndex(early))
    case IdentityIndex(early) =>
      var (index, pc) := Ensured(db.identityIndex, AfterIdentity(early), BuildIdentity(early));
      State(db.(identityIndex := index), pc)
    case BuildIdentity(early) =>
      if UniqueIdentities(db.accounts) then State(db.(identityIndex := ValidIndex), AfterIdentity(early))
      else State(db.(identityIndex := InvalidIndex), Failed(IdentitiesChanged))
    case SetNotNull =>
      if NoNullIssuer(db.accounts) then State(db.(column := NotNull), DropCheck) else State(db, Failed(NotNullViolated))
    case DropCheck => State(db.(check := NoCheck), Done)
  }

  /** The batch is patched as a whole, unless a unique index already in place refuses the statement. */
  function AfterBatch(s: State, batch: set<string>): State {
    var accounts := PatchAll(s.db.accounts, batch);
    if s.db.identityIndex.ValidIndex? && !UniqueIdentities(accounts) then State(s.db, Failed(DuplicateKey))
    else State(s.db.(accounts := accounts), if |batch| < BACKFILL_BATCH_SIZE then Validate else Backfill)
  }

  ghost predicate Batched(s: State, t: State, locked: set<string>) {
    exists batch :: IsBatch(s.db.accounts, locked, batch) && t == AfterBatch(s, batch)
  }

  /** One statement of the program. Rows are only locked by others where `locks` allows it. */
  ghost predicate Program(locks: bool, s: State, t: State) {
    && !Stopped(s.pc)
    && if s.pc.Backfill? then exists locked :: (locks || locked == {}) && Batched(s, t, locked) else t == Next(s)
  }

  /** The database when the process dies in the middle of a statement: a concurrent index build leaves an
      invalid index, any other statement nothing. */
  function Interrupted(s: State): Db {
    match s.pc
    case BuildEmails => s.db.(emailIndex := InvalidIndex)
    case BuildUser(_) => s.db.(userIndex := InvalidIndex)
    case BuildIdentity(_) => s.db.(identityIndex := InvalidIndex)
    case _ => s.db
  }

  /** The process dies between or within statements, or has ended, and a new run begins. */
  predicate Restart(s: State, t: State) {
    t == State(s.db, Emails) || t == State(Interrupted(s), Emails)
  }

  predicate NewRowsHaveIssuers(before: Accounts, after: Accounts) {
    forall id :: id in after ==> after[id].issuer.Some? || (id in before && before[id] == after[id])
  }

  /** Somebody else writes accounts and users; the database enforces what is in force at that time. */
  ghost predicate Write(s: State, t: State) {
    && t == State(s.db.(accounts := t.db.accounts, users := t.db.users), s.pc)
    && (!s.db.check.NoCheck? || s.db.column.NotNull? ==> NewRowsHaveIssuers(s.db.accounts, t.db.accounts))
    && (s.db.identityIndex.ValidIndex? ==> UniqueIdentities(t.db.accounts))
    && (s.db.emailIndex.ValidIndex? ==> UniqueEmails(t.db.users)) && t.db.users.Some? == s.db.users.Some?
  }

  /** Who else is at work. */
  datatype Setting = Setting(writers: bool, locks: bool)

  ghost predicate Step(setting: Setting, s: State, t: State) {
    Program(setting.locks, s, t) || Restart(s, t) || (setting.writers && Write(s, t))
  }

  ghost predicate Execution(setting: Setting, trace: seq<State>) {
    |trace| > 0 && forall i :: 0 < i < |trace| ==> Step(setting, trace[i - 1], trace[i])
  }

  /** A run on its own: no restart in between. */
  ghost predicate SingleRun(locks: bool, trace: seq<State>) {
    |trace| > 0 && trace[0].pc.Emails? && forall i :: 0 < i < |trace| ==> Program(locks, trace[i - 1], trace[i])
  }

  // ---------------------------------------------------------------- safety, whatever else happens

  /** What the schema promises about the rows. */
  predicate Enforced(db: Db) {
    && (db.check.ValidCheck? || db.column.NotNull? ==> NoNullIssuer(db.accounts))
    && (db.identityIndex.ValidIndex? ==> UniqueIdentities(db.accounts))
    && (db.emailIndex.ValidIndex? ==> UniqueEmails(db.users))
  }

  /** What has been achieved where the program stands. */
  predicate Reached(s: State) {
    var db := s.db;
    && (s.pc.Emails? || s.pc.BuildEmails? || s.pc.Failed? || db.users.None? || db.emailIndex.ValidIndex?)
    && match s.pc
       case Emails => true
       case BuildEmails => true
       case Inspect => true
       case FindUnmapped => db.column.Nullable?
       case FindMismatched => db.column.Nullable?
       case FindCollision => db.column.Nullable?
       case Fence => db.column.Nullable?
       case Backfill => db.column.Nullable? && !db.check.NoCheck?
       case Validate => db.column.Nullable? && !db.check.NoCheck?
       case UserIndex(early) => Contracting(db, early)
       case BuildUser(early) => Contracting(db, early)
       case IdentityIndex(early) => Contracting(db, early) && db.userIndex.ValidIndex?
       case BuildIdentity(early) => Contracting(db, early) && db.userIndex.ValidIndex?
       case SetNotNull => Contracting(db, false) && db.userIndex.ValidIndex? && db.identityIndex.ValidIndex?
       case DropCheck => Complete(db)
       case Done => db.column.Missing? || Complete(db)
       case Failed(error) => error != NotNullViolated
  }

  predicate Contracting(db: Db, early: bool) {
    if early then db.column.NotNull? else db.column.Nullable? && db.check.ValidCheck?
  }

  predicate Complete(db: Db) {
    db.column.NotNull? && db.userIndex.ValidIndex? && db.identityIndex.ValidIndex?
  }

  predicate Safe(s: State) {
    Enforced(s.db) && Reached(s)
  }

  lemma {:induction false} ProgramStaysSafe(locks: bool, s: State, t: State)
    requires Program(locks, s, t) && Safe(s)
    ensures Safe(t)
  {
    hide UniqueEmails, UniqueIdentities, Colliding, Unmapped, Mismatched, Preflight, Issuer, NeedsBackfill, Candidates;
  }

  lemma {:induction false} WriteStaysSafe(s: State, t: State)
    requires Write(s, t) && Safe(s)
    ensures Safe(t)
  {
  }

  /** Whatever other writers do, whichever rows are locked and wherever runs are cut off: a null issuer
      never exists under NOT NULL, and a run ends with every index in place and identities unique. */
  lemma {:induction false} EveryExecutionIsSafe(setting: Setting, trace: seq<State>, i: nat)
    requires Execution(setting, trace) && Safe(trace[0]) && i < |trace|
    ensures Safe(trace[i])
  {
    hide Safe, Program, Write;
    if i > 0 {
      EveryExecutionIsSafe(setting, trace, i - 1);
      var s, t := trace[i - 1], trace[i];
      if Program(setting.locks, s, t) {
        ProgramStaysSafe(setting.locks, s, t);
      } else if Restart(s, t) {
        RestartStaysSafe(s, t);
      } else {
        WriteStaysSafe(s, t);
      }
    }
  }

  lemma {:induction false} RestartStaysSafe(s: State, t: State)
    requires Restart(s, t) && Safe(s)
    ensures Safe(t)
  {
  }

  // ---------------------------------------------------------------- partial backfills

  /** Some of the rows have been patched, the others are as they were. */
  predicate PartlyPatched(start: Accounts, now: Accounts) {
    now.Keys == start.Keys && forall id :: id in start ==> now[id] == start[id] || now[id] == Patched(start[id])
  }

  function Migrated(accounts: Accounts): Accounts {
    map id | id in accounts :: Patched(accounts[id])
  }

  lemma {:induction false} PatchedTwice(account: Account)
    ensures Patched(Patched(account)) == Patched(account)
  {
  }

  /** A partial backfill changes nothing about what preflight looks at: the identities do not collide
      before exactly when they do not collide after, and rows that can be mapped stay so. */
  lemma {:induction false} PreflightSurvives(start: Accounts, now: Accounts)
    requires PartlyPatched(start, now)
    ensures Colliding(now) <==> Colliding(start)
    ensures Preflight(start) ==> Preflight(now)
  {
  }

  /** Identities that do not collide are unique for the index, patched or not. */
  lemma {:induction false} NoCollisionIsUnique(accounts: Accounts)
    requires !Colliding(accounts)
    ensures UniqueIdentities(accounts)
  {
  }

  lemma {:induction false} BatchPatchesPartly(start: Accounts, now: Accounts, batch: set<string>)
    requires PartlyPatched(start, now)
    ensures PartlyPatched(start, PatchAll(now, batch))
  {
  }

  /** A row that passes preflight and needs no backfill has nothing to be patched. */
  lemma {:induction false} NothingToPatch(account: Account)
    requires !Unmapped(account) && !NeedsBackfill(account)
    ensures Patched(account) == account && account.issuer.Some?
  {
  }

  /** When the backfill loop ends, the rows left to do are exactly those that others held locked. */
  lemma {:induction false} OnlyLockedRowsAreLeft(s: State, t: State, locked: set<string>)
    requires s.pc.Backfill? && Batched(s, t, locked) && t.pc.Validate?
    ensures Candidates(t.db.accounts) == Candidates(s.db.accounts) * locked
  {
  }

  /** A full batch leaves fewer rows to do, so the loop ends. */
  lemma {:induction false} BatchesComeToAnEnd(accounts: Accounts, locked: set<string>, batch: set<string>)
    requires IsBatch(accounts, locked, batch)
    ensures Candidates(PatchAll(accounts, batch)) == Candidates(accounts) - batch
    ensures |Candidates(PatchAll(accounts, batch))| == |Candidates(accounts)| - |batch|
  {
  }

  // ---------------------------------------------------------------- what quiet executions achieve

  const QUIET := Setting(false, false)

  predicate BackfillOver(s: State) {
    || s.db.column.NotNull?
    || (!s.pc.Emails? && !s.pc.BuildEmails? && !s.pc.Inspect? && !s.pc.FindUnmapped? && !s.pc.FindMismatched?
        && !s.pc.FindCollision? && !s.pc.Fence? && !s.pc.Backfill?)
  }

  /** No email clash and no foreign index stands in the way. */
  predicate Unobstructed(db: Db) {
    && UniqueEmails(db.users) && !db.emailIndex.OtherIndex? && !db.userIndex.OtherIndex? && !db.identityIndex.OtherIndex?
    && !db.column.Missing?
  }

  /** Where a quiet execution from accounts `start` stands. */
  predicate OnCourse(start: Accounts, s: State) {
    && Safe(s) && !s.pc.Failed? && Unobstructed(s.db) && PartlyPatched(start, s.db.accounts)
    && (BackfillOver(s) ==> Candidates(s.db.accounts) == {})
  }

  lemma {:induction false} ProgramStaysOnCourse(start: Accounts, s: State, t: State)
    requires Program(false, s, t) && Preflight(start) && OnCourse(start, s)
    ensures OnCourse(start, t)
  {
    hide UniqueEmails, UniqueIdentities, Colliding, Unmapped, Mismatched, Patched, NeedsBackfill, Candidates, Safe;
    hide PartlyPatched, Enforced;
    ProgramStaysSafe(false, s, t);
    PreflightSurvives(start, s.db.accounts);
    NoCollisionIsUnique(s.db.accounts);
    if s.pc.Backfill? {
      BatchStaysOnCourse(start, s, t);
    } else if BackfillOver(s) {
      NothingLeftIsMigrated(start, s.db.accounts);
    }
  }

  lemma {:induction false} BatchStaysOnCourse(start: Accounts, s: State, t: State)
    requires s.pc.Backfill? && Batched(s, t, {}) && Preflight(start) && PartlyPatched(start, s.db.accounts)
    requires s.db.column.Nullable? || Candidates(s.db.accounts) == {}
    ensures !t.pc.Failed? && PartlyPatched(start, t.db.accounts) && t.db == s.db.(accounts := t.db.accounts)
    ensures t.pc.Backfill? || (t.pc.Validate? && Candidates(t.db.accounts) == {})
    ensures Candidates(s.db.accounts) == {} ==> Candidates(t.db.accounts) == {}
  {
    hide UniqueIdentities, Colliding, Unmapped, Mismatched, Patched, NeedsBackfill, Candidates, PartlyPatched;
    var batch :| IsBatch(s.db.accounts, {}, batch) && t == AfterBatch(s, batch);
    BatchPatchesPartly(start, s.db.accounts, batch);
    PreflightSurvives(start, PatchAll(s.db.accounts, batch));
    NoCollisionIsUnique(PatchAll(s.db.accounts, batch));
    BatchesComeToAnEnd(s.db.accounts, {}, batch);
    if t.pc.Validate? {
      OnlyLockedRowsAreLeft(s, t, {});
    }
  }

  lemma {:induction false} NothingLeftIsMigrated(start: Accounts, now: Accounts)
    requires PartlyPatched(start, now) && Preflight(start) && Candidates(now) == {}
    ensures now == Migrated(start) && NoNullIssuer(now)
  {
    hide Patched, Unmapped, Mismatched, NeedsBackfill, Colliding;
    PreflightSurvives(start, now);
    forall id | id in start
      ensures now[id] == Patched(start[id]) && now[id].issuer.Some?
    {
      assert id !in Candidates(now);
      NothingToPatch(now[id]);
      PatchedTwice(start[id]);
    }
  }

  /** Without other writers and locks, once preflight passes no run ever fails, however often runs are
      cut off; and whenever a run ends, every account has been migrated and nothing else changed. */
  lemma {:induction false} QuietExecutionsMigrate(trace: seq<State>, i: nat)
    requires Execution(QUIET, trace) && i < |trace|
    requires OnCourse(trace[0].db.accounts, trace[0]) && Preflight(trace[0].db.accounts)
    ensures OnCourse(trace[0].db.accounts, trace[i])
    ensures trace[i].pc.Done? ==> trace[i].db.accounts == Migrated(trace[0].db.accounts) && Complete(trace[i].db)
  {
    hide OnCourse, Preflight, Program, Complete;
    var start := trace[0].db.accounts;
    if i > 0 {
      QuietExecutionsMigrate(trace, i - 1);
      if Program(false, trace[i - 1], trace[i]) {
        ProgramStaysOnCourse(start, trace[i - 1], trace[i]);
      } else {
        RestartStaysOnCourse(start, trace[i - 1], trace[i]);
      }
    }
    if trace[i].pc.Done? {
      DoneIsMigrated(start, trace[i]);
    }
  }

  lemma {:induction false} RestartStaysOnCourse(start: Accounts, s: State, t: State)
    requires Restart(s, t) && OnCourse(start, s)
    ensures OnCourse(start, t)
  {
  }

  lemma {:induction false} DoneIsMigrated(start: Accounts, s: State)
    requires OnCourse(start, s) && Preflight(start) && s.pc.Done?
    ensures s.db.accounts == Migrated(start) && Complete(s.db)
  {
    hide Preflight, Candidates, PartlyPatched, Enforced;
    NothingLeftIsMigrated(start, s.db.accounts);
  }

  /** A first run may start on any accounts that pass preflight while the column is still nullable. */
  lemma {:induction false} FirstRunIsOnCourse(s: State)
    requires s.pc.Emails? && s.db.column.Nullable? && Enforced(s.db) && Unobstructed(s.db)
    ensures OnCourse(s.db.accounts, s) && Safe(s)
  {
  }

  /** What migrating an account means. */
  lemma {:induction false} MigratedAccount(accounts: Accounts, id: string)
    requires id in accounts && Preflight(accounts)
    ensures var (before, after) := (accounts[id], Migrated(accounts)[id]);
            && after.issuer == (if before.issuer.Some? then before.issuer else Some(LOCAL_ISSUER))
            && (before.issuer.None? ==> before.providerId == CREDENTIAL)
            && (before.expiresAt.Some? ==> after.accessTokenExpiresAt.Some?)
            && (before.accessTokenExpiresAt.Some? ==> after.accessTokenExpiresAt == before.accessTokenExpiresAt)
            && (before.accessTokenExpiresAt.None? ==> after.accessTokenExpiresAt == before.expiresAt)
            && after.(issuer := before.issuer, accessTokenExpiresAt := before.accessTokenExpiresAt) == before
  {
  }

  /** With rows locked by others it still holds that every row is as at first or migrated, never between. */
  lemma {:induction false} RowsAreMigratedWhole(setting: Setting, trace: seq<State>, i: nat)
    requires Execution(setting, trace) && !setting.writers && i < |trace|
    ensures PartlyPatched(trace[0].db.accounts, trace[i].db.accounts)
  {
    hide PartlyPatched, UniqueEmails, UniqueIdentities, Colliding, Unmapped, Mismatched, NoNullIssuer, PatchAll, IsBatch;
    if i == 0 {
      NothingPatched(trace[0].db.accounts);
    } else {
      RowsAreMigratedWhole(setting, trace, i - 1);
      assert Step(setting, trace[i - 1], trace[i]);
      if trace[i].db.accounts != trace[i - 1].db.accounts {
        var batch :| trace[i].db.accounts == PatchAll(trace[i - 1].db.accounts, batch);
        BatchPatchesPartly(trace[0].db.accounts, trace[i - 1].db.accounts, batch);
      }
    }
  }

  lemma {:induction false} NothingPatched(accounts: Accounts)
    ensures PartlyPatched(accounts, accounts)
  {
  }
}
