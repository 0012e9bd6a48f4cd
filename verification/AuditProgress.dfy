/** What an interleaved append achieves: a request that comes to its end has done exactly what the same
    call would have done alone on the tables it saw when it took the lock, and it can come to its end. */
module AuditProgress {
  import opened Wrappers
  import opened AuditChain
  import opened AuditAppend
  import opened AuditStore
  import opened AuditConcurrency
  import Uuid = AuditUuid

  /** What the request does when nothing else happens: tables afterwards, and the row returned. */
  function Sequential(env: Env, tables: Tables, request: Request): (Tables, Result<Row, Error>) {
    match request.kind
    case Always =>
      var r := Append(env, tables.log, request.input, request.newId);
      (AfterAppend(tables, r), r)
    case IfMissing(mode) => IfAbsent(env, tables, request.input, mode, request.newId)
  }

  function Seen(db: Db, tx: Tx): Tables {
    Tables(View(db, tx), ClaimsView(db, tx))
  }

  /** Transaction t took the lock for the request at step m, and has been working on it up to step n. */
  predicate InProgress(states: seq<Db>, actions: seq<Action>, m: nat, n: nat, t: nat, request: Request) {
    && m < n < |states| && m < |actions| && actions[m] == TakeLock(t, request) && t in states[m].txs
    && forall k :: m < k <= n ==> t in states[k].txs && (k < n ==> !states[k].txs[t].pc.Idle?)
  }

  // ---------------------------------------------------------------- a tenant's rows decide

  lemma {:induction false} FindRowToPrefix(a: seq<Row>, b: seq<Row>, id: string, organizationId: string, n: nat)
    requires n <= |a| && n <= |b| && a[..n] == b[..n]
    ensures FindRowTo(a, id, organizationId, n) == FindRowTo(b, id, organizationId, n)
  {
    if n > 0 {
      assert a[..n - 1] == a[..n][..n - 1] && b[..n - 1] == b[..n][..n - 1];
      assert a[n - 1] == a[..n][n - 1] && b[n - 1] == b[..n][n - 1];
      FindRowToPrefix(a, b, id, organizationId, n - 1);
    }
  }

  lemma {:induction false} FoundInOwn(log: seq<Row>, id: string, organizationId: string, n: nat)
    requires n <= |log|
    ensures var own := OfTo(log, organizationId, n);
            FindRowTo(log, id, organizationId, n) == FindRowTo(own, id, organizationId, |own|)
  {
    if n > 0 {
      FoundInOwn(log, id, organizationId, n - 1);
      var rest, own := OfTo(log, organizationId, n - 1), OfTo(log, organizationId, n);
      if log[n - 1].organizationId == organizationId {
        assert own[..|rest|] == rest[..|rest|];
        FindRowToPrefix(own, rest, id, organizationId, |rest|);
      }
    }
  }

  lemma {:induction false} FindRowOfOwn(a: seq<Row>, b: seq<Row>, id: string, organizationId: string)
    requires Of(a, organizationId) == Of(b, organizationId)
    ensures FindRow(a, id, organizationId) == FindRow(b, id, organizationId)
  {
    FoundInOwn(a, id, organizationId, |a|);
    FoundInOwn(b, id, organizationId, |b|);
  }

  /** Since `start`, the tenant has gained no committed row and no committed claim. */
  ghost predicate Untouched(start: Db, db: Db, organizationId: string) {
    && start.log <= db.log && Of(db.log, organizationId) == Of(start.log, organizationId)
    && forall claim: ClaimKey :: claim.organizationId == organizationId ==>
         (claim in db.claims <==> claim in start.claims)
         && (claim in db.claims && claim in start.claims ==> db.claims[claim] == start.claims[claim])
  }

  lemma {:induction false} SameLookups(start: Db, db: Db, tx: Tx, organizationId: string)
    requires Untouched(start, db, organizationId)
    ensures Latest(View(db, tx), organizationId) == Latest(View(start, tx), organizationId)
    ensures forall id :: FindRow(View(db, tx), id, organizationId) == FindRow(View(start, tx), id, organizationId)
  {
    hide OfTo;
    OfConcat(db.log, tx.log, organizationId);
    OfConcat(start.log, tx.log, organizationId);
    forall id
      ensures FindRow(View(db, tx), id, organizationId) == FindRow(View(start, tx), id, organizationId)
    {
      FindRowOfOwn(View(db, tx), View(start, tx), id, organizationId);
    }
  }

  lemma {:induction false} SameClaims(start: Db, db: Db, tx: Tx, claim: ClaimKey)
    requires Untouched(start, db, claim.organizationId)
    ensures claim in ClaimsView(db, tx) <==> claim in ClaimsView(start, tx)
    ensures claim in ClaimsView(db, tx) ==> Claimed(Seen(db, tx), claim) == Claimed(Seen(start, tx), claim)
  {
    hide Latest, FindRow, Of;
    SameLookups(start, db, tx, claim.organizationId);
  }

  lemma {:induction false} UntouchedByStep(env: Env, base: seq<Row>, start: Db, db: Db, t: nat, a: Action, organizationId: string)
    requires Inv(env, base, db) && Enabled(env, db, a) && t in db.txs && LockKey(organizationId) in db.txs[t].held
    requires !(a.Commit? && a.t == t)
    requires Untouched(start, db, organizationId)
    ensures Untouched(start, Apply(env, db, a), organizationId)
  {
    hide AuditConcurrency.Consistent, LockKey, StepTx, OfTo, IdRank;
    if a.Commit? {
      var other := db.txs[a.t];
      assert TxOk(env, base, db, other) && Apart(db.txs[t], other);
      assert LockKey(organizationId) !in other.held;
      NotMine(other, organizationId);
      OfConcat(db.log, other.log, organizationId);
      assert Of(db.log, organizationId) + [] == Of(db.log, organizationId);
    }
  }

  // ---------------------------------------------------------------- the work of one request

  function Tenant(request: Request): string {
    Uuid.NormalizeUuid(request.input.organizationId)
  }

  /** The lookup finds no claim and no row, so a row is to be added. */
  predicate ToBeAdded(tables: Tables, request: Request) {
    match request.kind
    case Always => true
    case IfMissing(Keyed(key)) => ClaimKey(Tenant(request), request.input.action, key) !in tables.claims
    case IfMissing(ById(id)) =>
      Uuid.IsUuid(Uuid.NormalizeUuid(id)) && FindRow(tables.log, Uuid.NormalizeUuid(id), Tenant(request)).None?
  }

  function RowToAdd(env: Env, tables: Tables, request: Request): Result<Row, Error> {
    NewRow(env, EffectiveInput(request), Tenant(request), request.newId, Latest(tables.log, Tenant(request)))
  }

  function WithClaim(claims: Claims, request: Request, id: Option<string>): Claims {
    var claim := ClaimOf(request, Tenant(request));
    if claim.Some? then claims[claim.value := id] else claims
  }

  /** The transaction has done what the sequential call does. */
  predicate Finished(env: Env, start: Db, before: Tx, now: Tx, request: Request) {
    var (after, r) := Sequential(env, Seen(start, before), request);
    r.Ok? && Seen(start, now) == after
  }

  /** How far a transaction has got, by its next statement. */
  predicate Working(env: Env, start: Db, before: Tx, now: Tx, request: Request) {
    var tables := Seen(start, before);
    && (now.pc.Idle? || (now.pc.request == request && now.pc.organizationId == Tenant(request)))
    && match now.pc
       case Idle => Finished(env, start, before, now, request)
       case Lookup(_, _) => now.log == before.log && now.claims == before.claims
       case AddClaim(_, _) =>
         now.log == before.log && now.claims == before.claims && ToBeAdded(tables, request) && ClaimOf(request, Tenant(request)).Some?
       case ReadLatest(_, _) =>
         now.log == before.log && now.claims == WithClaim(before.claims, request, None) && ToBeAdded(tables, request)
       case Insert(_, _, previous) =>
         && now.log == before.log && now.claims == WithClaim(before.claims, request, None) && ToBeAdded(tables, request)
         && previous == Latest(tables.log, Tenant(request))
       case Settle(_, _, id) =>
         && now.claims == WithClaim(before.claims, request, None) && ToBeAdded(tables, request)
         && RowToAdd(env, tables, request).Ok? && id == RowToAdd(env, tables, request).value.id
         && now.log == before.log + [RowToAdd(env, tables, request).value] && !HasId(tables.log, id)
         && ClaimOf(request, Tenant(request)).Some?
  }

  lemma {:induction false} TenantTextDoesNotMatter(
      env: Env, input: Input, text: string, organizationId: string, newId: string, previous: Option<Row>)
    ensures NewRow(env, input.(organizationId := text), organizationId, newId, previous)
         == NewRow(env, input, organizationId, newId, previous)
  {
  }

  /** A call that has to add its row appends exactly RowToAdd, unless its id is in use. */
  lemma {:induction false} SequentialAdds(env: Env, tables: Tables, request: Request)
    requires Uuid.IsUuid(request.input.organizationId) && ToBeAdded(tables, request)
    ensures var (after, r) := Sequential(env, tables, request);
            var row := RowToAdd(env, tables, request);
            && (r.Ok? <==> row.Ok? && !HasId(tables.log, row.value.id))
            && (r.Ok? ==> r == row && after == Tables(tables.log + [row.value], WithClaim(tables.claims, request, Some(row.value.id))))
  {
    hide NewRow, Latest, Uuid.IsUuid, Uuid.NormalizeUuid, Uuid.RequireUuid, FindRow;
    NormalIsRequired(request.input.organizationId);
    NormalIsRequired(Tenant(request));
    SpelledNormally(request.input.organizationId);
    if request.kind.IfMissing? {
      var input := EffectiveInput(request);
      TenantTextDoesNotMatter(env, input, Tenant(request), Tenant(request), request.newId, Latest(tables.log, Tenant(request)));
    }
  }

  /** The lookup step leads on exactly as the sequential call decides. */
  lemma {:induction false} LookupDecides(env: Env, start: Db, db: Db, before: Tx, now: Tx, request: Request)
    requires Uuid.IsUuid(request.input.organizationId) && Untouched(start, db, Tenant(request))
    requires now.pc == Lookup(request, Tenant(request)) && now.log == before.log && now.claims == before.claims
    ensures var next := AfterLookup(db, now);
            var tables := Seen(start, before);
            if ToBeAdded(tables, request)
            then next == Some(if ClaimOf(request, Tenant(request)).Some? then AddClaim(request, Tenant(request))
                              else ReadLatest(request, Tenant(request)))
            else (next.Some? ==> next == Some(Idle))
                 && (next.Some? <==> Sequential(env, tables, request).1.Ok?)
                 && Sequential(env, tables, request).0 == tables
  {
    hide Append, Latest, FindRow, Uuid.IsUuid, Uuid.NormalizeUuid, Uuid.RequireUuid, Untouched, Claimed;
    NormalIsRequired(request.input.organizationId);
    assert Seen(db, now) == Seen(db, before);
    SameLookups(start, db, before, Tenant(request));
    if request.kind.IfMissing? && request.kind.mode.Keyed? {
      SameClaims(start, db, before, ClaimOf(request, Tenant(request)).value);
    }
  }

  lemma {:induction false} QueryWorks(env: Env, start: Db, db: Db, before: Tx, t: nat, request: Request)
    requires Uuid.IsUuid(request.input.organizationId) && Untouched(start, db, Tenant(request))
    requires Enabled(env, db, QueryExisting(t)) && Working(env, start, before, db.txs[t], request)
    ensures Working(env, start, before, Apply(env, db, QueryExisting(t)).txs[t], request)
  {
    hide Sequential, Untouched, ToBeAdded, AfterLookup, NewRow, Latest, Uuid.IsUuid, Uuid.NormalizeUuid, ClaimOf, LockFree, IdFree;
    var now := db.txs[t];
    LookupDecides(env, start, db, before, now, request);
    assert Seen(start, before) == Seen(start, now);
  }

  lemma {:induction false} ClaimWorks(env: Env, start: Db, db: Db, before: Tx, t: nat, request: Request)
    requires Enabled(env, db, InsertClaim(t)) && Working(env, start, before, db.txs[t], request)
    ensures Working(env, start, before, Apply(env, db, InsertClaim(t)).txs[t], request)
  {
    hide Finished, ToBeAdded, RowToAdd, AfterLookup, NewRow, Latest, Uuid.NormalizeUuid, ClaimOf, LockFree, IdFree;
  }

  lemma {:induction false} SelectWorks(env: Env, start: Db, db: Db, before: Tx, t: nat, request: Request)
    requires Untouched(start, db, Tenant(request))
    requires Enabled(env, db, SelectLatest(t)) && Working(env, start, before, db.txs[t], request)
    ensures Working(env, start, before, Apply(env, db, SelectLatest(t)).txs[t], request)
  {
    hide Finished, ToBeAdded, RowToAdd, AfterLookup, NewRow, Latest, Uuid.NormalizeUuid, WithClaim, LockFree, IdFree, FindRow, Untouched;
    SameLookups(start, db, before, Tenant(request));
    assert View(db, db.txs[t]) == View(db, before);
  }

  lemma {:induction false} FreeSinceStart(start: Db, db: Db, before: Tx, id: string)
    requires start.log <= db.log && !HasId(View(db, before), id)
    ensures !HasId(View(start, before), id)
  {
    forall i | 0 <= i < |View(start, before)|
      ensures View(start, before)[i].id != id
    {
      var k := if i < |start.log| then i else i + |db.log| - |start.log|;
      assert View(db, before)[k] == View(start, before)[i];
    }
  }

  lemma {:induction false} AddedAlone(env: Env, start: Db, before: Tx, now: Tx, request: Request, row: Row)
    requires Uuid.IsUuid(request.input.organizationId) && ToBeAdded(Seen(start, before), request)
    requires RowToAdd(env, Seen(start, before), request) == Ok(row) && !HasId(View(start, before), row.id)
    requires now.log == before.log + [row] && now.claims == WithClaim(WithClaim(before.claims, request, None), request, Some(row.id))
    ensures Finished(env, start, before, now, request)
  {
    hide Sequential, ToBeAdded, RowToAdd, Uuid.IsUuid, Uuid.NormalizeUuid, HasId, ClaimOf;
    SequentialAdds(env, Seen(start, before), request);
    assert View(start, now) == View(start, before) + [row];
    assert ClaimsView(start, now) == WithClaim(ClaimsView(start, before), request, Some(row.id));
  }

  lemma {:induction false} InsertWorks(env: Env, start: Db, db: Db, before: Tx, t: nat, request: Request)
    requires Uuid.IsUuid(request.input.organizationId) && Untouched(start, db, Tenant(request))
    requires Enabled(env, db, InsertRow(t)) && Working(env, start, before, db.txs[t], request)
    ensures Working(env, start, before, Apply(env, db, InsertRow(t)).txs[t], request)
  {
    hide Finished, ToBeAdded, AfterLookup, NewRow, Latest, Uuid.IsUuid, Uuid.NormalizeUuid, LockFree, Of, HasId;
    var now := db.txs[t];
    var row := RowToAdd(env, Seen(start, before), request).value;
    assert View(db, now) == View(db, before);
    FreeSinceStart(start, db, before, row.id);
    if ClaimOf(request, Tenant(request)).None? {
      AddedAlone(env, start, before, WithRow(now, row), request, row);
    }
  }

  lemma {:induction false} SettleWorks(env: Env, start: Db, db: Db, before: Tx, t: nat, request: Request)
    requires Uuid.IsUuid(request.input.organizationId)
    requires Enabled(env, db, SettleClaim(t)) && Working(env, start, before, db.txs[t], request)
    ensures Working(env, start, before, Apply(env, db, SettleClaim(t)).txs[t], request)
  {
    hide Finished, ToBeAdded, RowToAdd, AfterLookup, NewRow, Latest, Uuid.IsUuid, Uuid.NormalizeUuid, ClaimOf, LockFree, IdFree, HasId;
    var row := RowToAdd(env, Seen(start, before), request).value;
    AddedAlone(env, start, before, Apply(env, db, SettleClaim(t)).txs[t], request, row);
  }

  /** Each statement of the transaction brings it on by one statement of the sequential call. */
  lemma {:induction false} StepWorks(env: Env, start: Db, db: Db, before: Tx, a: Action, request: Request)
    requires Uuid.IsUuid(request.input.organizationId) && Untouched(start, db, Tenant(request))
    requires Enabled(env, db, a) && a.t in db.txs && !db.txs[a.t].pc.Idle? && !a.Abort?
    requires Working(env, start, before, db.txs[a.t], request)
    ensures Working(env, start, before, Apply(env, db, a).txs[a.t], request)
  {
    hide Working, Untouched, AfterLookup, NewRow, Latest, Uuid.IsUuid, Uuid.NormalizeUuid, IdFree;
    match a
    case QueryExisting(t) => QueryWorks(env, start, db, before, t, request);
    case InsertClaim(t) => ClaimWorks(env, start, db, before, t, request);
    case SelectLatest(t) => SelectWorks(env, start, db, before, t, request);
    case InsertRow(t) => InsertWorks(env, start, db, before, t, request);
    case SettleClaim(t) => SettleWorks(env, start, db, before, t, request);
  }

  lemma {:induction false} LockStartsWork(env: Env, db: Db, t: nat, request: Request)
    requires t in db.txs && Enabled(env, db, TakeLock(t, request))
    ensures Uuid.IsUuid(request.input.organizationId)
    ensures Working(env, db, db.txs[t], Apply(env, db, TakeLock(t, request)).txs[t], request)
  {
    hide Uuid.IsUuid, Uuid.NormalizeUuid, Uuid.RequireUuid, LockKey, LockFree, Finished, RowToAdd, ToBeAdded, IdFree, AfterLookup;
    NormalIsRequired(request.input.organizationId);
  }

  lemma {:induction false} InvHoldsLock(env: Env, base: seq<Row>, db: Db, t: nat)
    requires Inv(env, base, db) && t in db.txs && !db.txs[t].pc.Idle?
    ensures LockKey(db.txs[t].pc.organizationId) in db.txs[t].held
  {
    hide AuditConcurrency.Consistent, LockKey;
    assert TxOk(env, base, db, db.txs[t]);
  }

  lemma {:induction false} WorkGoesOn(
      env: Env, states: seq<Db>, actions: seq<Action>, m: nat, n: nat, t: nat, request: Request)
    requires Run(env, states, actions) && Initial(states[0]) && InProgress(states, actions, m, n, t, request)
    ensures Uuid.IsUuid(request.input.organizationId) && Untouched(states[m], states[n], Tenant(request))
    ensures Working(env, states[m], states[m].txs[t], states[n].txs[t], request)
    decreases n
  {
    hide Inv, Initial, Enabled, Apply, Untouched, Finished, RowToAdd, ToBeAdded, HasId, Uuid.IsUuid, Uuid.NormalizeUuid, LockKey;
    var db, a := states[n - 1], actions[n - 1];
    assert Enabled(env, db, a) && states[n] == Apply(env, db, a);
    if n == m + 1 {
      LockStartsWork(env, db, t, request);
      LockTouchesNothing(env, db, a, Tenant(request));
    } else {
      WorkGoesOn(env, states, actions, m, n - 1, t, request);
      RunKeepsInv(env, states, actions, n - 1);
      InvHoldsLock(env, states[0].log, db, t);
      StepOfWork(env, states[0].log, states[m], db, states[m].txs[t], t, a, request);
    }
  }

  lemma {:induction false} LockTouchesNothing(env: Env, db: Db, a: Action, organizationId: string)
    requires Enabled(env, db, a) && a.TakeLock?
    ensures Untouched(db, Apply(env, db, a), organizationId)
  {
    hide StepTx, LockFree, LockKey, Of;
  }

  lemma {:induction false} StepOfWork(env: Env, base: seq<Row>, start: Db, db: Db, before: Tx, t: nat, a: Action, request: Request)
    requires Inv(env, base, db) && Uuid.IsUuid(request.input.organizationId) && Untouched(start, db, Tenant(request))
    requires t in db.txs && !db.txs[t].pc.Idle? && LockKey(Tenant(request)) in db.txs[t].held
    requires Working(env, start, before, db.txs[t], request) && Enabled(env, db, a) && t in Apply(env, db, a).txs
    ensures Untouched(start, Apply(env, db, a), Tenant(request))
    ensures Working(env, start, before, Apply(env, db, a).txs[t], request)
  {
    hide Inv, Untouched, Working, Uuid.IsUuid, Uuid.NormalizeUuid, LockKey, LockFree, StepTx, AfterLookup, NewRow, IdFree;
    UntouchedByStep(env, base, start, db, t, a, Tenant(request));
    if a.t == t {
      StepWorks(env, start, db, before, a, request);
    }
  }

  /** In every interleaving, a request that has come to its end succeeds alone on the tables that its
      transaction saw when it took the lock, and the transaction's writes since then are that call's. */
  lemma {:induction false} InterleavedIsSequential(
      env: Env, states: seq<Db>, actions: seq<Action>, m: nat, n: nat, t: nat, request: Request)
    requires Run(env, states, actions) && Initial(states[0]) && InProgress(states, actions, m, n, t, request)
    requires states[n].txs[t].pc.Idle?
    ensures var (after, r) := Sequential(env, Seen(states[m], states[m].txs[t]), request);
            r.Ok? && Seen(states[m], states[n].txs[t]) == after
  {
    hide Run, Initial, Sequential, ToBeAdded, RowToAdd;
    WorkGoesOn(env, states, actions, m, n, t, request);
  }

  // ---------------------------------------------------------------- the request in the caller's terms

  /** The entry as the request's kind asks for it. */
  function Entry(request: Request): Input {
    match request.kind
    case Always => request.input
    case IfMissing(mode) => EntryOf(request.input, mode)
  }

  /** Nothing in the tables says that the request was carried out before. */
  predicate New(tables: Tables, request: Request) {
    request.kind.Always? || Fresh(tables, request.input, request.kind.mode)
  }

  lemma {:induction false} SequentialMeans(env: Env, tables: Tables, request: Request)
    requires Sequential(env, tables, request).1.Ok?
    ensures var (after, r) := Sequential(env, tables, request);
            && r.value in after.log && (request.kind.IfMissing? ==> Found(after, request.input, request.kind.mode, r.value))
            && (if New(tables, request)
                then after.log == tables.log + [r.value] && Stored(tables.log, r.value, Entry(request), request.newId)
                else after == tables)
  {
    hide IfAbsent, Append, Fresh, Stored, Obstacle, Uuid.NormalizeUuid;
    match request.kind
    case Always => AppendSucceedsExactlyWhen(env, tables.log, request.input, request.newId);
    case IfMissing(mode) =>
      FreshIsAppended(env, tables, request.input, mode, request.newId);
      if Fresh(tables, request.input, mode) {
        AppendedIsFound(env, tables, request.input, mode, request.newId);
      }
  }

  lemma {:induction false} AppendedIsFound(env: Env, tables: Tables, input: Input, mode: Mode, newId: string)
    requires Fresh(tables, input, mode) && IfAbsent(env, tables, input, mode, newId).1.Ok?
    ensures var (after, r) := IfAbsent(env, tables, input, mode, newId);
            Found(after, input, mode, r.value)
  {
    hide Append, Uuid.IsUuid, Uuid.NormalizeUuid, Uuid.RequireUuid, FindRowTo, HasId;
    NormalIsRequired(input.organizationId);
    NormalIsRequired(Uuid.NormalizeUuid(input.organizationId));
    SpelledNormally(input.organizationId);
    var spelled := InNormalSpelling(EntryOf(input, mode));
    AppendedRow(env, tables.log, spelled, newId);
    if mode.ById? {
      NormalIsRequired(mode.id);
      AppendedId(env, tables.log, spelled, newId);
      SpelledNormally(mode.id);
    }
  }

  lemma {:induction false} AppendedId(env: Env, log: seq<Row>, input: Input, newId: string)
    requires Append(env, log, input, newId).Ok?
    ensures Append(env, log, input, newId).value.id == Uuid.NormalizeUuid(GivenId(input, newId))
  {
    hide Latest, Uuid.NormalizeUuid, Uuid.RequireUuid;
  }

  /** In every interleaving, a request that has come to its end leaves its transaction with the row it asked
      for: for a new entry one row that stores it, and otherwise the row appended before. */
  lemma {:induction false} RequestIsCarriedOut(
      env: Env, states: seq<Db>, actions: seq<Action>, m: nat, n: nat, t: nat, request: Request)
    requires Run(env, states, actions) && Initial(states[0]) && InProgress(states, actions, m, n, t, request)
    requires states[n].txs[t].pc.Idle?
    ensures Sequential(env, Seen(states[m], states[m].txs[t]), request).1.Ok?
    ensures var (before, now) := (states[m].txs[t], states[n].txs[t]);
            var row := Sequential(env, Seen(states[m], before), request).1.value;
            && row in View(states[n], now)
            && (request.kind.IfMissing? ==> Found(Seen(states[n], now), request.input, request.kind.mode, row))
            && (if New(Seen(states[m], before), request)
                then now.log == before.log + [row] && Stored(View(states[m], before), row, Entry(request), request.newId)
                else now.log == before.log && now.claims == before.claims)
  {
    hide Run, Initial, Inv, Working, Sequential, Stored, New, Of, Found, Uuid.NormalizeUuid, Uuid.IsUuid;
    var start, db, before, now := states[m], states[n], states[m].txs[t], states[n].txs[t];
    InterleavedIsSequential(env, states, actions, m, n, t, request);
    WorkGoesOn(env, states, actions, m, n, t, request);
    var tables := Seen(start, before);
    var (after, r) := Sequential(env, tables, request);
    SequentialMeans(env, tables, request);
    StaysInSight(start, db, now, r.value);
    if request.kind.IfMissing? {
      StaysFound(start, db, now, request.input, request.kind.mode, r.value);
    }
    if New(tables, request) {
      AddedWrite(start, before, now, r.value);
    } else {
      RunKeepsInv(env, states, actions, m);
      RunKeepsInv(env, states, actions, n);
      CommittedStaysCommitted(env, states, actions, m, n);
      OwnClaims(env, states[0].log, start, t);
      OwnClaims(env, states[0].log, db, t);
      SameWrites(start, before, now);
    }
  }

  lemma {:induction false} OwnClaims(env: Env, base: seq<Row>, db: Db, t: nat)
    requires Inv(env, base, db) && t in db.txs
    ensures forall claim :: claim in db.txs[t].claims ==> claim !in db.claims
  {
    hide AuditConcurrency.Consistent, Guarded, Apart;
    assert TxOk(env, base, db, db.txs[t]);
  }

  lemma {:induction false} SameWrites(start: Db, before: Tx, now: Tx)
    requires Seen(start, now) == Seen(start, before)
    requires forall claim :: claim in before.claims || claim in now.claims ==> claim !in start.claims
    ensures now.log == before.log && now.claims == before.claims
  {
    assert now.log == View(start, now)[|start.log|..] && before.log == View(start, before)[|start.log|..];
    forall claim
      ensures claim in now.claims <==> claim in before.claims
      ensures claim in now.claims && claim in before.claims ==> now.claims[claim] == before.claims[claim]
    {
      assert claim in ClaimsView(start, now) <==> claim in ClaimsView(start, before);
    }
  }

  lemma {:induction false} AddedWrite(start: Db, before: Tx, now: Tx, row: Row)
    requires View(start, now) == View(start, before) + [row]
    ensures now.log == before.log + [row]
  {
    assert now.log == View(start, now)[|start.log|..];
    assert before.log + [row] == (View(start, before) + [row])[|start.log|..];
  }

  lemma {:induction false} StaysInSight(start: Db, db: Db, now: Tx, row: Row)
    requires start.log <= db.log && row in View(start, now)
    ensures row in View(db, now)
  {
  }

  lemma {:induction false} StaysFound(start: Db, db: Db, now: Tx, input: Input, mode: Mode, row: Row)
    requires Untouched(start, db, Uuid.NormalizeUuid(input.organizationId)) && Found(Seen(start, now), input, mode, row)
    ensures Found(Seen(db, now), input, mode, row)
  {
    hide Of, Uuid.NormalizeUuid;
    StaysInSight(start, db, now, row);
  }

  // ---------------------------------------------------------------- a request can come to its end

  /** The next statement of a transaction that is working on a request. */
  function NextAction(t: nat, pc: Pc): Action
    requires !pc.Idle?
  {
    match pc
    case Lookup(_, _) => QueryExisting(t)
    case AddClaim(_, _) => InsertClaim(t)
    case ReadLatest(_, _) => SelectLatest(t)
    case Insert(_, _, _) => InsertRow(t)
    case Settle(_, _, _) => SettleClaim(t)
  }

  function StatementsLeft(pc: Pc): nat {
    match pc
    case Lookup(_, _) => 5
    case AddClaim(_, _) => 4
    case ReadLatest(_, _) => 3
    case Insert(_, _, _) => 2
    case Settle(_, _, _) => 1
    case Idle => 0
  }

  /** The row that the request is about to insert has an id that no other row took. */
  predicate IdStaysFree(env: Env, start: Db, before: Tx, db: Db, t: nat, request: Request)
    requires t in db.txs
  {
    var (after, r) := Sequential(env, Seen(start, before), request);
    r.Ok? && (after.log != View(start, before) && !db.txs[t].pc.Idle? && !db.txs[t].pc.Settle? ==> IdFree(db, t, r.value.id))
  }

  lemma {:induction false} NextIsEnabled(env: Env, start: Db, db: Db, before: Tx, t: nat, request: Request)
    requires Uuid.IsUuid(request.input.organizationId) && Untouched(start, db, Tenant(request))
    requires t in db.txs && !db.txs[t].pc.Idle? && Working(env, start, before, db.txs[t], request)
    requires IdStaysFree(env, start, before, db, t, request)
    ensures Enabled(env, db, NextAction(t, db.txs[t].pc))
  {
    hide Sequential, Untouched, ToBeAdded, AfterLookup, NewRow, Latest, Uuid.IsUuid, Uuid.NormalizeUuid, IdFree, LockFree;
    var now := db.txs[t];
    if now.pc.Lookup? {
      LookupDecides(env, start, db, before, now, request);
    }
    if ToBeAdded(Seen(start, before), request) {
      SequentialAdds(env, Seen(start, before), request);
    }
  }

  lemma {:induction false} NextLeavesLess(env: Env, db: Db, t: nat)
    requires t in db.txs && !db.txs[t].pc.Idle? && Enabled(env, db, NextAction(t, db.txs[t].pc))
    ensures var after := Apply(env, db, NextAction(t, db.txs[t].pc));
            && t in after.txs && StatementsLeft(after.txs[t].pc) < StatementsLeft(db.txs[t].pc)
            && (!after.txs[t].pc.Idle? && !after.txs[t].pc.Settle? ==>
                  !db.txs[t].pc.Settle? && forall id :: IdFree(db, t, id) ==> IdFree(after, t, id))
  {
    hide Claimed, FindRow, NewRow, Latest, Uuid.NormalizeUuid, Uuid.IsUuid, LockFree;
  }

  lemma {:induction false} StepIntoRun(env: Env, states: seq<Db>, actions: seq<Action>, m: nat, t: nat, request: Request, a: Action)
    requires Run(env, states, actions) && InProgress(states, actions, m, |actions|, t, request)
    requires !states[|actions|].txs[t].pc.Idle? && Enabled(env, states[|actions|], a) && t in Apply(env, states[|actions|], a).txs
    ensures var after := Apply(env, states[|actions|], a);
            Run(env, states + [after], actions + [a]) && InProgress(states + [after], actions + [a], m, |actions| + 1, t, request)
  {
    hide Enabled, Apply;
    var after := Apply(env, states[|actions|], a);
    forall i | 0 <= i < |actions + [a]|
      ensures Enabled(env, (states + [after])[i], (actions + [a])[i])
      ensures (states + [after])[i + 1] == Apply(env, (states + [after])[i], (actions + [a])[i])
    {
      if i < |actions| {
        assert Enabled(env, states[i], actions[i]) && states[i + 1] == Apply(env, states[i], actions[i]);
      }
    }
  }

  lemma {:induction false} ActsItself(t: nat, pc: Pc)
    requires !pc.Idle?
    ensures NextAction(t, pc).t == t
  {
  }

  /** A run up to its last state, in which transaction t is working on the request with its id still free. */
  ghost predicate Unfinished(env: Env, states: seq<Db>, actions: seq<Action>, m: nat, t: nat, request: Request) {
    && |states| == |actions| + 1 && m < |actions| && t in states[|actions|].txs && t in states[m].txs
    && Run(env, states, actions) && Initial(states[0]) && InProgress(states, actions, m, |actions|, t, request)
    && IdStaysFree(env, states[m], states[m].txs[t], states[|actions|], t, request)
  }

  lemma {:induction false} IdStillFree(env: Env, start: Db, before: Tx, db: Db, t: nat, request: Request)
    requires t in db.txs && !db.txs[t].pc.Idle? && Enabled(env, db, NextAction(t, db.txs[t].pc))
    requires IdStaysFree(env, start, before, db, t, request)
    ensures var after := Apply(env, db, NextAction(t, db.txs[t].pc));
            t in after.txs && IdStaysFree(env, start, before, after, t, request)
  {
    NextLeavesLess(env, db, t);
    hide Sequential, Enabled, Apply, StatementsLeft, IdFree;
  }

  lemma {:induction false} NextOnDb(env: Env, start: Db, db: Db, before: Tx, t: nat, request: Request) returns (a: Action)
    requires Uuid.IsUuid(request.input.organizationId) && Untouched(start, db, Tenant(request))
    requires t in db.txs && !db.txs[t].pc.Idle? && Working(env, start, before, db.txs[t], request)
    requires IdStaysFree(env, start, before, db, t, request)
    ensures a.t == t && Enabled(env, db, a) && t in Apply(env, db, a).txs
    ensures StatementsLeft(Apply(env, db, a).txs[t].pc) < StatementsLeft(db.txs[t].pc)
    ensures IdStaysFree(env, start, before, Apply(env, db, a), t, request)
  {
    hide *;
    NextIsEnabled(env, start, db, before, t, request);
    NextLeavesLess(env, db, t);
    a := NextAction(t, db.txs[t].pc);
    ActsItself(t, db.txs[t].pc);
    IdStillFree(env, start, before, db, t, request);
  }

  lemma {:induction false} NextStatement(
      env: Env, states: seq<Db>, actions: seq<Action>, m: nat, t: nat, request: Request) returns (a: Action, after: Db)
    requires Unfinished(env, states, actions, m, t, request) && !states[|actions|].txs[t].pc.Idle?
    ensures a.t == t && Unfinished(env, states + [after], actions + [a], m, t, request)
    ensures t in after.txs && StatementsLeft(after.txs[t].pc) < StatementsLeft(states[|actions|].txs[t].pc)
  {
    hide Run, Initial, InProgress, Enabled, Apply, Working, Untouched, IdStaysFree, Uuid.NormalizeUuid, Uuid.IsUuid, StatementsLeft;
    WorkGoesOn(env, states, actions, m, |actions|, t, request);
    a := NextOnDb(env, states[m], states[|actions|], states[m].txs[t], t, request);
    after := Apply(env, states[|actions|], a);
    StepIntoRun(env, states, actions, m, t, request, a);
  }

  /** The run goes on from the given one by at most `count` statements of transaction t, which end its request. */
  ghost predicate EndsWithin(env: Env, states: seq<Db>, actions: seq<Action>, longer: seq<Db>, more: seq<Action>,
                             m: nat, t: nat, request: Request, count: nat) {
    && states <= longer && actions <= more && |more| <= |actions| + count && Run(env, longer, more)
    && (forall i :: |actions| <= i < |more| ==> more[i].t == t)
    && InProgress(longer, more, m, |more|, t, request) && longer[|more|].txs[t].pc.Idle?
  }

  lemma {:induction false} OneMore(env: Env, states: seq<Db>, actions: seq<Action>, longer: seq<Db>, more: seq<Action>,
                                   m: nat, t: nat, request: Request, count: nat, a: Action, after: Db)
    requires EndsWithin(env, states + [after], actions + [a], longer, more, m, t, request, count) && a.t == t
    ensures EndsWithin(env, states, actions, longer, more, m, t, request, count + 1)
  {
    hide Run, InProgress;
    forall i | |actions| <= i < |more|
      ensures more[i].t == t
    {
      if i == |actions| {
        assert more[i] == (actions + [a])[i];
      }
    }
  }

  lemma {:induction false} EndsAtOnce(env: Env, states: seq<Db>, actions: seq<Action>, m: nat, t: nat, request: Request)
    requires Unfinished(env, states, actions, m, t, request) && states[|actions|].txs[t].pc.Idle?
    ensures forall left: nat :: EndsWithin(env, states, actions, states, actions, m, t, request, left)
  {
  }

  /** A request whose call succeeds alone is never stuck: wherever its transaction stands, at most five
      statements of its own bring it to its end, as long as no other row has taken its id. */
  lemma {:induction false} RequestCanFinish(
      env: Env, states: seq<Db>, actions: seq<Action>, m: nat, t: nat, request: Request)
    returns (longer: seq<Db>, more: seq<Action>)
    requires Unfinished(env, states, actions, m, t, request)
    ensures EndsWithin(env, states, actions, longer, more, m, t, request, 5)
  {
    hide Run, Initial, InProgress, IdStaysFree;
    longer, more := Completed(env, states, actions, m, t, request, StatementsLeft(states[|actions|].txs[t].pc));
  }

  lemma {:induction false} Completed(
      env: Env, states: seq<Db>, actions: seq<Action>, m: nat, t: nat, request: Request, left: nat)
    returns (longer: seq<Db>, more: seq<Action>)
    requires Unfinished(env, states, actions, m, t, request) && StatementsLeft(states[|actions|].txs[t].pc) <= left
    ensures EndsWithin(env, states, actions, longer, more, m, t, request, left)
    decreases left
  {
    hide EndsWithin, Run, Initial, InProgress, IdStaysFree;
    longer, more := states, actions;
    if states[|actions|].txs[t].pc.Idle? {
      EndsAtOnce(env, states, actions, m, t, request);
    } else {
      var a, after := NextStatement(env, states, actions, m, t, request);
      longer, more := Completed(env, states + [after], actions + [a], m, t, request, left - 1);
      OneMore(env, states, actions, longer, more, m, t, request, left - 1, a, after);
    }
  }
}
