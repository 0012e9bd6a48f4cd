/** Concurrent transactions that append audit entries: each statement is one step, statements read what
    is committed plus the transaction's own writes, and advisory locks last until commit or abort. */
module AuditConcurrency {
  import opened Wrappers
  import opened AuditChain
  import opened AuditAppend
  import opened AuditStore
  import Uuid = AuditUuid

  // ---------------------------------------------------------------- transactions

  datatype Kind = Always | IfMissing(mode: Mode)

  datatype Request = Request(input: Input, kind: Kind, newId: string)

  /** Where a transaction stands inside an append for tenant `organizationId`: which statement is next. */
  datatype Pc =
    | Idle
    | Lookup(request: Request, organizationId: string)
    | AddClaim(request: Request, organizationId: string)
    | ReadLatest(request: Request, organizationId: string)
    | Insert(request: Request, organizationId: string, previous: Option<Row>)
    | Settle(request: Request, organizationId: string, id: string)

  /** Ids of the rows inserted for each key, in the order of insertion. */
  type KeyedRows = seq<(ClaimKey, string)>

  /** A transaction's locks, its uncommitted writes, and its position. */
  datatype Tx = Tx(held: set<(int, int)>, log: seq<Row>, claims: Claims, keyed: KeyedRows, pc: Pc)

  datatype Db = Db(log: seq<Row>, claims: Claims, keyed: KeyedRows, txs: map<nat, Tx>)

  const NEW_TX := Tx({}, [], map[], [], Idle)

  function LockKey(organizationId: string): (int, int) {
    match Uuid.AuditAdvisoryLockKeys(organizationId)
    case Ok(keys) => keys
    case Err(_) => (0, 0)
  }

  function View(db: Db, tx: Tx): seq<Row> {
    db.log + tx.log
  }

  function ClaimsView(db: Db, tx: Tx): Claims {
    db.claims + tx.claims
  }

  function KeyedView(db: Db, tx: Tx): KeyedRows {
    db.keyed + tx.keyed
  }

  /** The claim that a keyed append works on. */
  function ClaimOf(request: Request, organizationId: string): Option<ClaimKey> {
    if request.kind.IfMissing? && request.kind.mode.Keyed?
    then Some(ClaimKey(organizationId, request.input.action, request.kind.mode.key))
    else None
  }

  /** The id given to the insert: none for a keyed append, the normalised one for an append by id. */
  function EffectiveInput(request: Request): Input {
    match request.kind
    case Always => request.input
    case IfMissing(Keyed(_)) => request.input.(id := None)
    case IfMissing(ById(id)) => request.input.(id := Some(Uuid.NormalizeUuid(id)))
  }

  // ---------------------------------------------------------------- steps

  datatype Action =
    | Begin(t: nat)
    | TakeLock(t: nat, request: Request)
    | QueryExisting(t: nat)
    | InsertClaim(t: nat)
    | SelectLatest(t: nat)
    | InsertRow(t: nat)
    | SettleClaim(t: nat)
    | Commit(t: nat)
    | Abort(t: nat)

  predicate LockFree(db: Db, t: nat, key: (int, int)) {
    forall u :: u in db.txs && u != t ==> key !in db.txs[u].held
  }

  predicate IdFree(db: Db, t: nat, id: string) {
    && (t in db.txs ==> !HasId(View(db, db.txs[t]), id))
    && forall u :: u in db.txs && u != t ==> !HasId(db.txs[u].log, id)
  }

  /** What the keyed or by-id lookup leads to; None when it throws. */
  function AfterLookup(db: Db, tx: Tx): Option<Pc>
    requires tx.pc.Lookup?
  {
    var (request, organizationId) := (tx.pc.request, tx.pc.organizationId);
    match request.kind
    case Always => Some(ReadLatest(request, organizationId))
    case IfMissing(Keyed(key)) =>
      var claim := ClaimKey(organizationId, request.input.action, key);
      if claim !in ClaimsView(db, tx) then Some(AddClaim(request, organizationId))
      else if Claimed(Tables(View(db, tx), ClaimsView(db, tx)), claim).Ok? then Some(Idle)
      else None
    case IfMissing(ById(id)) =>
      var existing := FindRow(View(db, tx), Uuid.NormalizeUuid(id), organizationId);
      if !Uuid.IsUuid(Uuid.NormalizeUuid(id)) then None
      else if existing.None? then Some(ReadLatest(request, organizationId))
      else if existing.value.entryHash.Some? then Some(Idle)
      else None
  }

  /** A step can be taken: a lock only when no other transaction holds it, an insert only of a free id,
      a commit only between appends. When a statement throws, only Abort remains. */
  predicate Enabled(env: Env, db: Db, a: Action) {
    if a.Begin? then a.t !in db.txs
    else
      && a.t in db.txs
      && var tx := db.txs[a.t];
      match a
      case TakeLock(t, request) =>
        && tx.pc.Idle? && Uuid.RequireUuid(request.input.organizationId).Ok?
        && LockFree(db, t, LockKey(Uuid.RequireUuid(request.input.organizationId).value))
      case QueryExisting(_) => tx.pc.Lookup? && AfterLookup(db, tx).Some?
      case InsertClaim(_) => tx.pc.AddClaim?
      case SelectLatest(_) => tx.pc.ReadLatest?
      case InsertRow(t) =>
        && tx.pc.Insert?
        && var row := NewRow(env, EffectiveInput(tx.pc.request), tx.pc.organizationId, tx.pc.request.newId, tx.pc.previous);
        row.Ok? && IdFree(db, t, row.value.id)
      case SettleClaim(_) => tx.pc.Settle?
      case Commit(_) => tx.pc.Idle?
      case Abort(_) => true
      case Begin(_) => true
  }

  /** The transaction after inserting `row`. */
  function WithRow(tx: Tx, row: Row): Tx
    requires tx.pc.Insert?
  {
    var claim := ClaimOf(tx.pc.request, tx.pc.organizationId);
    if claim.Some?
    then tx.(log := tx.log + [row], keyed := tx.keyed + [(claim.value, row.id)],
             pc := Settle(tx.pc.request, tx.pc.organizationId, row.id))
    else tx.(log := tx.log + [row], pc := Idle)
  }

  /** The transaction after one of its own statements. */
  function StepTx(env: Env, db: Db, tx: Tx, a: Action): Tx
    requires a.t in db.txs && db.txs[a.t] == tx && Enabled(env, db, a)
    requires !a.Begin? && !a.Commit? && !a.Abort?
  {
    match a
    case TakeLock(_, request) =>
      var organizationId := Uuid.RequireUuid(request.input.organizationId).value;
      tx.(held := tx.held + {LockKey(organizationId)}, pc := Lookup(request, organizationId))
    case QueryExisting(_) => tx.(pc := AfterLookup(db, tx).value)
    case InsertClaim(_) =>
      var claim := ClaimOf(tx.pc.request, tx.pc.organizationId);
      tx.(claims := if claim.Some? then tx.claims[claim.value := None] else tx.claims,
          pc := ReadLatest(tx.pc.request, tx.pc.organizationId))
    case SelectLatest(_) =>
      tx.(pc := Insert(tx.pc.request, tx.pc.organizationId, Latest(View(db, tx), tx.pc.organizationId)))
    case InsertRow(_) =>
      WithRow(tx, NewRow(env, EffectiveInput(tx.pc.request), tx.pc.organizationId, tx.pc.request.newId, tx.pc.previous).value)
    case SettleClaim(_) =>
      var claim := ClaimOf(tx.pc.request, tx.pc.organizationId);
      tx.(claims := if claim.Some? then tx.claims[claim.value := Some(tx.pc.id)] else tx.claims, pc := Idle)
  }

  function Apply(env: Env, db: Db, a: Action): Db
    requires Enabled(env, db, a)
  {
    match a
    case Begin(t) => db.(txs := db.txs[t := NEW_TX])
    case Abort(t) => db.(txs := db.txs - {t})
    case Commit(t) =>
      var tx := db.txs[t];
      Db(View(db, tx), ClaimsView(db, tx), KeyedView(db, tx), db.txs - {t})
    case _ => db.(txs := db.txs[a.t := StepTx(env, db, db.txs[a.t], a)])
  }

  /** An interleaving: every state follows from the one before by an enabled step of some transaction. */
  ghost predicate Run(env: Env, states: seq<Db>, actions: seq<Action>) {
    && |states| == |actions| + 1
    && forall i :: 0 <= i < |actions| ==> Enabled(env, states[i], actions[i]) && states[i + 1] == Apply(env, states[i], actions[i])
  }

  // ---------------------------------------------------------------- invariant

  /** The tenant's rows extend what the base table held by rows that each continue the chain before. */
  predicate ChainOk(env: Env, base: seq<Row>, rows: seq<Row>, organizationId: string) {
    var (old_, now) := (Of(base, organizationId), Of(rows, organizationId));
    && old_ <= now && Sorted(now)
    && forall i :: |old_| <= i < |now| ==> Continues(env, now[..i], now[i])
  }

  ghost predicate Chains(env: Env, base: seq<Row>, rows: seq<Row>) {
    forall organizationId :: ChainOk(env, base, rows, organizationId)
  }

  /** Locks cover whatever a transaction has written, and the tenant it is working on. */
  predicate Guarded(tx: Tx) {
    && (forall i :: 0 <= i < |tx.log| ==> LockKey(tx.log[i].organizationId) in tx.held)
    && (forall claim :: claim in tx.claims ==> LockKey(claim.organizationId) in tx.held)
    && (forall i :: 0 <= i < |tx.keyed| ==> tx.keyed[i].0 in tx.claims)
    && (!tx.pc.Idle? ==> LockKey(tx.pc.organizationId) in tx.held)
    && (Pending(tx.pc).Some? ==> Pending(tx.pc).value in tx.claims)
  }

  /** The claim whose row is not settled yet. */
  function Pending(pc: Pc): Option<ClaimKey> {
    if pc.ReadLatest? || pc.Insert? || pc.Settle? then ClaimOf(pc.request, pc.organizationId) else None
  }

  predicate SettledClaims(rows: seq<Row>, claims: Claims, pending: Option<ClaimKey>) {
    forall claim :: claim in claims && Some(claim) != pending ==>
      claims[claim].Some? && Answers(rows, claim, claims[claim].value)
  }

  predicate KeyedClaims(claims: Claims, keyed: KeyedRows, pending: Option<ClaimKey>) {
    && (forall i :: 0 <= i < |keyed| ==>
         keyed[i].0 in claims && (Some(keyed[i].0) != pending ==> claims[keyed[i].0] == Some(keyed[i].1)))
    && (forall i, j :: 0 <= i < j < |keyed| ==> keyed[i].0 != keyed[j].0)
  }

  /** What the position promises about the tables. */
  predicate PcOk(rows: seq<Row>, claims: Claims, keyed: KeyedRows, pc: Pc) {
    match pc
    case Idle => true
    case Lookup(_, _) => true
    case AddClaim(request, organizationId) =>
      ClaimOf(request, organizationId).Some? && ClaimOf(request, organizationId).value !in claims
    case ReadLatest(request, organizationId) => Unkeyed(claims, keyed, ClaimOf(request, organizationId))
    case Insert(request, organizationId, previous) =>
      previous == Latest(rows, organizationId) && Unkeyed(claims, keyed, ClaimOf(request, organizationId))
    case Settle(request, organizationId, id) =>
      var claim := ClaimOf(request, organizationId);
      && claim.Some? && claim.value in claims && Answers(rows, claim.value, id)
      && forall i :: 0 <= i < |keyed| && keyed[i].0 == claim.value ==> keyed[i].1 == id
  }

  /** A claim has been made, and no row was inserted for it yet. */
  predicate Unkeyed(claims: Claims, keyed: KeyedRows, claim: Option<ClaimKey>) {
    claim.Some? ==> claim.value in claims && forall i :: 0 <= i < |keyed| ==> keyed[i].0 != claim.value
  }

  /** The tables, as seen from a position. */
  ghost predicate Consistent(env: Env, base: seq<Row>, rows: seq<Row>, claims: Claims, keyed: KeyedRows, pc: Pc) {
    && UniqueIds(rows) && Chains(env, base, rows)
    && SettledClaims(rows, claims, Pending(pc)) && KeyedClaims(claims, keyed, Pending(pc))
    && PcOk(rows, claims, keyed, pc)
  }

  ghost predicate TxOk(env: Env, base: seq<Row>, db: Db, tx: Tx) {
    && Guarded(tx) && tx.claims.Keys !! db.claims.Keys
    && Consistent(env, base, View(db, tx), ClaimsView(db, tx), KeyedView(db, tx), tx.pc)
  }

  predicate Apart(a: Tx, b: Tx) {
    a.held !! b.held && forall i, j :: 0 <= i < |a.log| && 0 <= j < |b.log| ==> a.log[i].id != b.log[j].id
  }

  ghost predicate Inv(env: Env, base: seq<Row>, db: Db) {
    && Consistent(env, base, db.log, db.claims, db.keyed, Idle)
    && (forall t :: t in db.txs ==> TxOk(env, base, db, db.txs[t]))
    && (forall t, u :: t in db.txs && u in db.txs && t != u ==> Apart(db.txs[t], db.txs[u]))
  }

  // ---------------------------------------------------------------- filtering by tenant

  /** Rows a transaction has not got the tenant's lock for are not in its private log. */
  lemma {:induction false} NotMine(tx: Tx, organizationId: string)
    requires Guarded(tx) && LockKey(organizationId) !in tx.held
    ensures Of(tx.log, organizationId) == []
  {
    hide LockKey;
    OfNone(tx.log, organizationId, |tx.log|);
  }

  // ---------------------------------------------------------------- one transaction's own steps

  lemma {:induction false} TxOkElsewhere(env: Env, base: seq<Row>, db: Db, db': Db, tx: Tx)
    requires TxOk(env, base, db, tx) && db'.log == db.log && db'.claims == db.claims && db'.keyed == db.keyed
    ensures TxOk(env, base, db', tx)
  {
  }

  /** A step that only changes its own transaction keeps the invariant if that transaction stays in order
      and apart from the others. */
  lemma {:induction false} OwnStep(env: Env, base: seq<Row>, db: Db, t: nat, tx: Tx)
    requires Inv(env, base, db) && TxOk(env, base, db, tx)
    requires forall u :: u in db.txs && u != t ==> Apart(tx, db.txs[u])
    ensures Inv(env, base, db.(txs := db.txs[t := tx]))
  {
    hide Consistent, TxOk, Apart;
    var db' := db.(txs := db.txs[t := tx]);
    forall u | u in db'.txs
      ensures TxOk(env, base, db', db'.txs[u])
    {
      TxOkElsewhere(env, base, db, db', db'.txs[u]);
    }
    forall u, v | u in db'.txs && v in db'.txs && u != v
      ensures Apart(db'.txs[u], db'.txs[v])
    {
      ApartSymmetric(db'.txs[u], db'.txs[v]);
      ApartSymmetric(db'.txs[v], db'.txs[u]);
    }
  }

  lemma {:induction false} ApartSymmetric(a: Tx, b: Tx)
    ensures Apart(a, b) ==> Apart(b, a)
  {
  }

  lemma {:induction false} BeginStep(env: Env, base: seq<Row>, db: Db, t: nat)
    requires Inv(env, base, db)
    ensures Inv(env, base, db.(txs := db.txs[t := NEW_TX]))
  {
    hide Consistent;
    assert View(db, NEW_TX) == db.log && ClaimsView(db, NEW_TX) == db.claims && KeyedView(db, NEW_TX) == db.keyed;
    assert TxOk(env, base, db, NEW_TX);
    OwnStep(env, base, db, t, NEW_TX);
  }

  lemma {:induction false} AbortStep(env: Env, base: seq<Row>, db: Db, t: nat)
    requires Inv(env, base, db)
    ensures Inv(env, base, db.(txs := db.txs - {t}))
  {
  }

  lemma {:induction false} TakeLockStep(env: Env, base: seq<Row>, db: Db, t: nat, request: Request)
    requires Inv(env, base, db) && Enabled(env, db, TakeLock(t, request))
    ensures Inv(env, base, Apply(env, db, TakeLock(t, request)))
  {
    hide LockKey, Chains, SettledClaims, KeyedClaims, AfterLookup, NewRow, IdFree;
    var tx := db.txs[t];
    var tx' := StepTx(env, db, tx, TakeLock(t, request));
    assert TxOk(env, base, db, tx);
    assert TxOk(env, base, db, tx');
    forall u | u in db.txs && u != t
      ensures Apart(tx', db.txs[u])
    {
      assert Apart(tx, db.txs[u]);
    }
    hide Inv, Apart, TxOk;
    OwnStep(env, base, db, t, tx');
  }

  lemma {:induction false} QueryStep(env: Env, base: seq<Row>, db: Db, t: nat)
    requires Inv(env, base, db) && Enabled(env, db, QueryExisting(t))
    ensures Inv(env, base, Apply(env, db, QueryExisting(t)))
  {
    hide LockKey, Chains, SettledClaims, KeyedClaims, NewRow, IdFree, FindRow, Claimed;
    var tx := db.txs[t];
    var tx' := StepTx(env, db, tx, QueryExisting(t));
    assert TxOk(env, base, db, tx);
    assert TxOk(env, base, db, tx');
    StillApart(env, base, db, t, tx');
    hide Inv, TxOk;
    OwnStep(env, base, db, t, tx');
  }

  lemma {:induction false} StillApart(env: Env, base: seq<Row>, db: Db, t: nat, tx': Tx)
    requires Inv(env, base, db) && t in db.txs && tx'.held == db.txs[t].held && tx'.log == db.txs[t].log
    ensures forall u :: u in db.txs && u != t ==> Apart(tx', db.txs[u])
  {
  }

  lemma {:induction false} ClaimAdded(rows: seq<Row>, claims: Claims, keyed: KeyedRows, claim: ClaimKey)
    requires SettledClaims(rows, claims, None) && KeyedClaims(claims, keyed, None) && claim !in claims
    ensures SettledClaims(rows, claims[claim := None], Some(claim)) && KeyedClaims(claims[claim := None], keyed, Some(claim))
    ensures Unkeyed(claims[claim := None], keyed, Some(claim))
  {
  }

  lemma {:induction false} InsertClaimTx(env: Env, base: seq<Row>, db: Db, tx: Tx, claim: ClaimKey)
    requires TxOk(env, base, db, tx) && tx.pc.AddClaim?
    requires ClaimOf(tx.pc.request, tx.pc.organizationId) == Some(claim)
    ensures TxOk(env, base, db, tx.(claims := tx.claims[claim := None], pc := ReadLatest(tx.pc.request, tx.pc.organizationId)))
  {
    hide LockKey, Chains, SettledClaims, KeyedClaims, UniqueIds;
    var tx' := tx.(claims := tx.claims[claim := None], pc := ReadLatest(tx.pc.request, tx.pc.organizationId));
    assert ClaimsView(db, tx') == ClaimsView(db, tx)[claim := None];
    ClaimAdded(View(db, tx), ClaimsView(db, tx), KeyedView(db, tx), claim);
  }

  lemma {:induction false} InsertClaimStep(env: Env, base: seq<Row>, db: Db, t: nat)
    requires Inv(env, base, db) && Enabled(env, db, InsertClaim(t))
    ensures Inv(env, base, Apply(env, db, InsertClaim(t)))
  {
    var tx := db.txs[t];
    assert TxOk(env, base, db, tx);
    hide LockKey, Consistent, AfterLookup, NewRow, IdFree;
    var claim := ClaimOf(tx.pc.request, tx.pc.organizationId);
    ClaimToAdd(env, base, db, tx);
    InsertClaimTx(env, base, db, tx, claim.value);
    hide TxOk;
    var tx' := StepTx(env, db, tx, InsertClaim(t));
    StillApart(env, base, db, t, tx');
    hide Inv;
    OwnStep(env, base, db, t, tx');
  }

  lemma {:induction false} ClaimToAdd(env: Env, base: seq<Row>, db: Db, tx: Tx)
    requires TxOk(env, base, db, tx) && tx.pc.AddClaim?
    ensures ClaimOf(tx.pc.request, tx.pc.organizationId).Some?
  {
  }

  lemma {:induction false} SelectLatestStep(env: Env, base: seq<Row>, db: Db, t: nat)
    requires Inv(env, base, db) && Enabled(env, db, SelectLatest(t))
    ensures Inv(env, base, Apply(env, db, SelectLatest(t)))
  {
    hide LockKey, Chains, SettledClaims, KeyedClaims, AfterLookup, NewRow, IdFree, Unkeyed, Latest;
    var tx := db.txs[t];
    var tx' := StepTx(env, db, tx, SelectLatest(t));
    assert TxOk(env, base, db, tx);
    assert TxOk(env, base, db, tx');
    StillApart(env, base, db, t, tx');
    hide Inv, TxOk;
    OwnStep(env, base, db, t, tx');
  }

  // ---------------------------------------------------------------- the insert

  lemma {:induction false} ChainExtended(env: Env, base: seq<Row>, rows: seq<Row>, row: Row, organizationId: string)
    requires ChainOk(env, base, rows, organizationId)
    requires row.organizationId == organizationId ==> Continues(env, Of(rows, organizationId), row)
    ensures ChainOk(env, base, rows + [row], organizationId)
  {
    hide IdRank, ComputeEntryHash, OfTo, Continues, Sorted;
    OfConcat(rows, [row], organizationId);
    OfOne(row, organizationId);
    var before, now := Of(rows, organizationId), Of(rows + [row], organizationId);
    if row.organizationId == organizationId {
      ContinuedStaysSorted(env, before, row);
      forall i | |Of(base, organizationId)| <= i < |now|
        ensures Continues(env, now[..i], now[i])
      {
        assert now[..i] == before[..i];
      }
    } else {
      assert now == before;
    }
  }

  lemma {:induction false} RowInserted(env: Env, base: seq<Row>, rows: seq<Row>, input: Input, organizationId: string, newId: string)
    requires Chains(env, base, rows) && NewRow(env, input, organizationId, newId, Latest(rows, organizationId)).Ok?
    ensures Chains(env, base, rows + [NewRow(env, input, organizationId, newId, Latest(rows, organizationId)).value])
  {
    hide IdRank, ComputeEntryHash, OfTo, Continues, Sorted, GreatestTo;
    var row := NewRow(env, input, organizationId, newId, Latest(rows, organizationId)).value;
    assert ChainOk(env, base, rows, organizationId);
    NewRowContinues(env, Of(rows, organizationId), input, organizationId, newId);
    hide NewRow, ChainOk;
    forall org: string
      ensures ChainOk(env, base, rows + [row], org)
    {
      assert ChainOk(env, base, rows, org);
      ChainExtended(env, base, rows, row, org);
    }
  }

  lemma {:induction false} SettledClaimsPersist(rows: seq<Row>, more: seq<Row>, claims: Claims, pending: Option<ClaimKey>)
    requires SettledClaims(rows, claims, pending)
    ensures SettledClaims(rows + more, claims, pending)
  {
    hide Answers;
    forall claim | claim in claims && Some(claim) != pending
      ensures Answers(rows + more, claim, claims[claim].value)
    {
      AnswersPersist(rows, more, claim, claims[claim].value);
    }
  }

  lemma {:induction false} KeyedRowAdded(claims: Claims, keyed: KeyedRows, claim: ClaimKey, id: string)
    requires KeyedClaims(claims, keyed, Some(claim)) && Unkeyed(claims, keyed, Some(claim))
    ensures KeyedClaims(claims, keyed + [(claim, id)], Some(claim))
    ensures forall i :: 0 <= i < |keyed + [(claim, id)]| && (keyed + [(claim, id)])[i].0 == claim ==> (keyed + [(claim, id)])[i].1 == id
  {
  }

  lemma {:induction false} InsertedConsistent(env: Env, base: seq<Row>, rows: seq<Row>, claims: Claims, keyed: KeyedRows,
                                              request: Request, organizationId: string, previous: Option<Row>)
    requires Consistent(env, base, rows, claims, keyed, Insert(request, organizationId, previous))
    requires NewRow(env, EffectiveInput(request), organizationId, request.newId, previous).Ok?
    requires !HasId(rows, NewRow(env, EffectiveInput(request), organizationId, request.newId, previous).value.id)
    ensures var row := NewRow(env, EffectiveInput(request), organizationId, request.newId, previous).value;
            var claim := ClaimOf(request, organizationId);
            Consistent(env, base, rows + [row], claims,
                       if claim.Some? then keyed + [(claim.value, row.id)] else keyed,
                       if claim.Some? then Settle(request, organizationId, row.id) else Idle)
  {
    hide Chains, KeyedClaims, SettledClaims, Latest;
    var row := NewRow(env, EffectiveInput(request), organizationId, request.newId, previous).value;
    var claim := ClaimOf(request, organizationId);
    RowInserted(env, base, rows, EffectiveInput(request), organizationId, request.newId);
    AppendedStaysUnique(rows, row);
    SettledClaimsPersist(rows, [row], claims, claim);
    if claim.Some? {
      KeyedRowAdded(claims, keyed, claim.value, row.id);
      assert IsAnswer(row, claim.value, row.id) by { hide ComputeEntryHash; }
      AnswersItself(rows, row, claim.value);
    }
  }

  lemma {:induction false} InsertRowTx(env: Env, base: seq<Row>, db: Db, tx: Tx, row: Row)
    requires TxOk(env, base, db, tx) && tx.pc.Insert?
    requires NewRow(env, EffectiveInput(tx.pc.request), tx.pc.organizationId, tx.pc.request.newId, tx.pc.previous) == Ok(row)
    requires !HasId(View(db, tx), row.id)
    ensures TxOk(env, base, db, WithRow(tx, row))
  {
    hide LockKey, Consistent, NewRow, HasId;
    var (request, organizationId) := (tx.pc.request, tx.pc.organizationId);
    var tx' := WithRow(tx, row);
    InsertedConsistent(env, base, View(db, tx), ClaimsView(db, tx), KeyedView(db, tx), request, organizationId, tx.pc.previous);
    assert View(db, tx') == View(db, tx) + [row] && ClaimsView(db, tx') == ClaimsView(db, tx);
    if ClaimOf(request, organizationId).Some? {
      assert KeyedView(db, tx') == KeyedView(db, tx) + [(ClaimOf(request, organizationId).value, row.id)];
    }
    assert Guarded(tx');
  }

  lemma {:induction false} InsertRowStep(env: Env, base: seq<Row>, db: Db, t: nat)
    requires Inv(env, base, db) && Enabled(env, db, InsertRow(t))
    ensures Inv(env, base, Apply(env, db, InsertRow(t)))
  {
    hide TxOk, AfterLookup, NewRow, LockFree;
    var tx := db.txs[t];
    assert TxOk(env, base, db, tx);
    var row := NewRow(env, EffectiveInput(tx.pc.request), tx.pc.organizationId, tx.pc.request.newId, tx.pc.previous).value;
    InsertRowTx(env, base, db, tx, row);
    var tx' := WithRow(tx, row);
    forall u | u in db.txs && u != t
      ensures Apart(tx', db.txs[u])
    {
      assert Apart(tx, db.txs[u]);
      assert !HasId(db.txs[u].log, row.id);
    }
    hide Inv, Apart;
    OwnStep(env, base, db, t, tx');
  }

  // ---------------------------------------------------------------- settling and committing

  lemma {:induction false} ClaimSettled(rows: seq<Row>, claims: Claims, keyed: KeyedRows, claim: ClaimKey, id: string)
    requires SettledClaims(rows, claims, Some(claim)) && KeyedClaims(claims, keyed, Some(claim)) && claim in claims
    requires Answers(rows, claim, id) && forall i :: 0 <= i < |keyed| && keyed[i].0 == claim ==> keyed[i].1 == id
    ensures SettledClaims(rows, claims[claim := Some(id)], None) && KeyedClaims(claims[claim := Some(id)], keyed, None)
  {
  }

  lemma {:induction false} SettleClaimTx(env: Env, base: seq<Row>, db: Db, tx: Tx)
    requires TxOk(env, base, db, tx) && tx.pc.Settle?
    ensures ClaimOf(tx.pc.request, tx.pc.organizationId).Some?
    ensures var claim := ClaimOf(tx.pc.request, tx.pc.organizationId).value;
            TxOk(env, base, db, tx.(claims := tx.claims[claim := Some(tx.pc.id)], pc := Idle))
  {
    hide LockKey, Chains, SettledClaims, KeyedClaims, Answers, UniqueIds;
    var claim := ClaimOf(tx.pc.request, tx.pc.organizationId).value;
    var tx' := tx.(claims := tx.claims[claim := Some(tx.pc.id)], pc := Idle);
    assert ClaimsView(db, tx') == ClaimsView(db, tx)[claim := Some(tx.pc.id)];
    ClaimSettled(View(db, tx), ClaimsView(db, tx), KeyedView(db, tx), claim, tx.pc.id);
    assert tx'.claims.Keys == tx.claims.Keys;
  }

  lemma {:induction false} SettleClaimStep(env: Env, base: seq<Row>, db: Db, t: nat)
    requires Inv(env, base, db) && Enabled(env, db, SettleClaim(t))
    ensures Inv(env, base, Apply(env, db, SettleClaim(t)))
  {
    hide TxOk, AfterLookup, NewRow, LockFree, IdFree;
    var tx := db.txs[t];
    assert TxOk(env, base, db, tx);
    SettleClaimTx(env, base, db, tx);
    var tx' := StepTx(env, db, tx, SettleClaim(t));
    StillApart(env, base, db, t, tx');
    hide Inv, Apart;
    OwnStep(env, base, db, t, tx');
  }

  /** What another transaction sees of a tenant after tx commits: its own rows or the committed ones. */
  lemma {:induction false} OfAfterCommit(db: Db, tx: Tx, other: Tx, organizationId: string)
    requires Guarded(tx) && Guarded(other) && Apart(tx, other)
    ensures Of(View(db, tx) + other.log, organizationId)
         == if LockKey(organizationId) in tx.held then Of(View(db, tx), organizationId) else Of(View(db, other), organizationId)
  {
    hide LockKey, OfTo;
    OfConcat(db.log, tx.log, organizationId);
    OfConcat(db.log, other.log, organizationId);
    OfConcat(View(db, tx), other.log, organizationId);
    if LockKey(organizationId) in tx.held {
      NotMine(other, organizationId);
    } else {
      NotMine(tx, organizationId);
    }
    assert Of(db.log, organizationId) + [] + Of(other.log, organizationId) == Of(db.log, organizationId) + Of(other.log, organizationId);
    assert Of(View(db, tx), organizationId) + [] == Of(View(db, tx), organizationId);
  }

  lemma {:induction false} ChainsAfterCommit(env: Env, base: seq<Row>, db: Db, tx: Tx, other: Tx)
    requires Guarded(tx) && Guarded(other) && Apart(tx, other)
    requires Chains(env, base, View(db, tx)) && Chains(env, base, View(db, other))
    ensures Chains(env, base, View(db, tx) + other.log)
  {
    hide Guarded, Apart, LockKey, Continues, Sorted, Of;
    forall organizationId: string
      ensures ChainOk(env, base, View(db, tx) + other.log, organizationId)
    {
      OfAfterCommit(db, tx, other, organizationId);
      assert ChainOk(env, base, View(db, tx), organizationId);
      assert ChainOk(env, base, View(db, other), organizationId);
    }
  }

  lemma {:induction false} IdsAfterCommit(db: Db, tx: Tx, other: Tx)
    requires Apart(tx, other) && UniqueIds(View(db, tx)) && UniqueIds(View(db, other))
    ensures UniqueIds(View(db, tx) + other.log)
  {
    var rows, n := View(db, tx) + other.log, |db.log|;
    forall i, j | 0 <= i < j < |rows|
      ensures rows[i].id != rows[j].id
    {
      if j < |View(db, tx)| {
        assert rows[i] == View(db, tx)[i] && rows[j] == View(db, tx)[j];
      } else {
        var jj := n + (j - |View(db, tx)|);
        assert rows[j] == View(db, other)[jj];
        if i < n {
          assert rows[i] == View(db, other)[i];
        } else if i < |View(db, tx)| {
          assert rows[i] == tx.log[i - n] && rows[j] == other.log[jj - n];
        } else {
          assert rows[i] == View(db, other)[n + (i - |View(db, tx)|)];
        }
      }
    }
  }

  predicate ClaimKeysApart(tx: Tx, other: Tx) {
    tx.claims.Keys !! other.claims.Keys
  }

  lemma {:induction false} LocksSeparateClaims(tx: Tx, other: Tx)
    requires Guarded(tx) && Guarded(other) && Apart(tx, other)
    ensures ClaimKeysApart(tx, other)
  {
  }

  lemma {:induction false} AnswersInSuperlog(db: Db, tx: Tx, other: Tx, claim: ClaimKey, id: string)
    requires Answers(View(db, other), claim, id)
    ensures Answers(View(db, tx) + other.log, claim, id)
  {
    var i :| 0 <= i < |View(db, other)| && IsAnswer(View(db, other)[i], claim, id);
    var k := if i < |db.log| then i else i + |tx.log|;
    assert (View(db, tx) + other.log)[k] == View(db, other)[i];
  }

  lemma {:induction false} SettledAfterCommit(db: Db, tx: Tx, other: Tx, pending: Option<ClaimKey>)
    requires ClaimKeysApart(tx, other)
    requires SettledClaims(View(db, tx), ClaimsView(db, tx), None)
    requires SettledClaims(View(db, other), ClaimsView(db, other), pending)
    ensures SettledClaims(View(db, tx) + other.log, ClaimsView(db, tx) + other.claims, pending)
  {
    hide Answers;
    var claims := ClaimsView(db, tx) + other.claims;
    forall claim | claim in claims && Some(claim) != pending
      ensures claims[claim].Some? && Answers(View(db, tx) + other.log, claim, claims[claim].value)
    {
      if claim in other.claims {
        assert claim in ClaimsView(db, other) && ClaimsView(db, other)[claim] == claims[claim];
        AnswersInSuperlog(db, tx, other, claim, claims[claim].value);
      } else {
        assert claim in ClaimsView(db, tx) && ClaimsView(db, tx)[claim] == claims[claim];
        AnswersPersist(View(db, tx), other.log, claim, claims[claim].value);
      }
    }
  }

  lemma {:induction false} KeyedAfterCommit(db: Db, tx: Tx, other: Tx, pending: Option<ClaimKey>)
    requires Guarded(tx) && Guarded(other) && ClaimKeysApart(tx, other) && tx.claims.Keys !! db.claims.Keys
    requires KeyedClaims(db.claims, db.keyed, None)
    requires KeyedClaims(ClaimsView(db, tx), KeyedView(db, tx), None)
    requires KeyedClaims(ClaimsView(db, other), KeyedView(db, other), pending)
    ensures KeyedClaims(ClaimsView(db, tx) + other.claims, KeyedView(db, tx) + other.keyed, pending)
  {
    hide LockKey;
    var claims, keyed := ClaimsView(db, tx) + other.claims, KeyedView(db, tx) + other.keyed;
    var n, m := |db.keyed|, |KeyedView(db, tx)|;
    forall i | 0 <= i < |keyed|
      ensures keyed[i].0 in claims && (Some(keyed[i].0) != pending ==> claims[keyed[i].0] == Some(keyed[i].1))
    {
      if i < m {
        assert keyed[i] == KeyedView(db, tx)[i];
        if i < n {
          assert keyed[i] == KeyedView(db, other)[i] && keyed[i] == db.keyed[i];
        } else {
          assert keyed[i] == tx.keyed[i - n];
        }
      } else {
        assert keyed[i] == KeyedView(db, other)[n + (i - m)] && keyed[i] == other.keyed[i - m];
      }
    }
    forall i, j | 0 <= i < j < |keyed|
      ensures keyed[i].0 != keyed[j].0
    {
      if j < m {
        assert keyed[i] == KeyedView(db, tx)[i] && keyed[j] == KeyedView(db, tx)[j];
      } else {
        assert keyed[j] == KeyedView(db, other)[n + (j - m)] && keyed[j] == other.keyed[j - m];
        if i < n {
          assert keyed[i] == KeyedView(db, other)[i];
        } else if i < m {
          assert keyed[i] == tx.keyed[i - n];
        } else {
          assert keyed[i] == KeyedView(db, other)[n + (i - m)];
        }
      }
    }
  }

  lemma {:induction false} PcAfterCommit(db: Db, tx: Tx, other: Tx)
    requires Guarded(tx) && Guarded(other) && Apart(tx, other) && ClaimKeysApart(tx, other)
    requires PcOk(View(db, other), ClaimsView(db, other), KeyedView(db, other), other.pc)
    ensures PcOk(View(db, tx) + other.log, ClaimsView(db, tx) + other.claims, KeyedView(db, tx) + other.keyed, other.pc)
  {
    hide LockKey, Answers, Of, UniqueIds;
    if !other.pc.Idle? {
      var organizationId := other.pc.organizationId;
      assert LockKey(organizationId) !in tx.held;
      OfAfterCommit(db, tx, other, organizationId);
      NoForeignKeys(db, tx, other, organizationId);
      if other.pc.Settle? {
        AnswersInSuperlog(db, tx, other, ClaimOf(other.pc.request, organizationId).value, other.pc.id);
      }
    }
  }

  /** A tenant whose lock tx does not hold gains neither claims nor keyed rows when tx commits. */
  lemma {:induction false} NoForeignKeys(db: Db, tx: Tx, other: Tx, organizationId: string)
    requires Guarded(tx) && LockKey(organizationId) !in tx.held
    ensures forall claim: ClaimKey :: claim.organizationId == organizationId ==>
              (claim in ClaimsView(db, tx) + other.claims <==> claim in ClaimsView(db, other))
    ensures forall i :: 0 <= i < |KeyedView(db, tx) + other.keyed|
              && (KeyedView(db, tx) + other.keyed)[i].0.organizationId == organizationId
              ==> (KeyedView(db, tx) + other.keyed)[i] in KeyedView(db, other)
  {
  }

  lemma {:induction false} OtherAfterCommit(env: Env, base: seq<Row>, db: Db, tx: Tx, other: Tx)
    requires TxOk(env, base, db, tx) && TxOk(env, base, db, other) && Apart(tx, other) && tx.pc.Idle?
    requires KeyedClaims(db.claims, db.keyed, None)
    ensures TxOk(env, base, Db(View(db, tx), ClaimsView(db, tx), KeyedView(db, tx), map[]), other)
  {
    hide LockKey, Chains, SettledClaims, KeyedClaims, Answers, PcOk, UniqueIds, Apart, Guarded;
    LocksSeparateClaims(tx, other);
    ChainsAfterCommit(env, base, db, tx, other);
    IdsAfterCommit(db, tx, other);
    SettledAfterCommit(db, tx, other, Pending(other.pc));
    KeyedAfterCommit(db, tx, other, Pending(other.pc));
    PcAfterCommit(db, tx, other);
  }

  lemma {:induction false} CommitStep(env: Env, base: seq<Row>, db: Db, t: nat)
    requires Inv(env, base, db) && Enabled(env, db, Commit(t))
    ensures Inv(env, base, Apply(env, db, Commit(t)))
  {
    hide LockKey, Chains, SettledClaims, KeyedClaims, UniqueIds, Guarded, Apart, AfterLookup, NewRow;
    var tx := db.txs[t];
    var after := Apply(env, db, Commit(t));
    var tables := Db(View(db, tx), ClaimsView(db, tx), KeyedView(db, tx), map[]);
    assert TxOk(env, base, db, tx);
    assert Consistent(env, base, after.log, after.claims, after.keyed, Idle);
    hide PcOk;
    forall u | u in after.txs
      ensures TxOk(env, base, after, after.txs[u])
    {
      assert TxOk(env, base, db, db.txs[u]) && Apart(tx, db.txs[u]);
      OtherAfterCommit(env, base, db, tx, db.txs[u]);
      TxOkElsewhere(env, base, tables, after, db.txs[u]);
    }
  }

  // ---------------------------------------------------------------- whole runs

  /** Every step of every transaction keeps the invariant. */
  lemma {:induction false} StepKeepsInv(env: Env, base: seq<Row>, db: Db, a: Action)
    requires Inv(env, base, db) && Enabled(env, db, a)
    ensures Inv(env, base, Apply(env, db, a))
  {
    hide Inv;
    match a
    case Begin(t) => BeginStep(env, base, db, t);
    case TakeLock(t, request) => TakeLockStep(env, base, db, t, request);
    case QueryExisting(t) => QueryStep(env, base, db, t);
    case InsertClaim(t) => InsertClaimStep(env, base, db, t);
    case SelectLatest(t) => SelectLatestStep(env, base, db, t);
    case InsertRow(t) => InsertRowStep(env, base, db, t);
    case SettleClaim(t) => SettleClaimStep(env, base, db, t);
    case Commit(t) => CommitStep(env, base, db, t);
    case Abort(t) => AbortStep(env, base, db, t);
  }

  /** A database before any of the transactions begin: legacy rows in order, ids unique, and no
      unfinished claim. */
  ghost predicate Initial(db: Db) {
    && db.txs == map[] && db.keyed == [] && UniqueIds(db.log)
    && (forall organizationId :: Sorted(Of(db.log, organizationId)))
    && ClaimsAnswered(Tables(db.log, db.claims))
  }

  lemma {:induction false} InitialInv(env: Env, db: Db)
    requires Initial(db)
    ensures Inv(env, db.log, db)
  {
  }

  lemma {:induction false} RunKeepsInv(env: Env, states: seq<Db>, actions: seq<Action>, n: nat)
    requires Run(env, states, actions) && Initial(states[0]) && n < |states|
    ensures Inv(env, states[0].log, states[n])
  {
    hide Inv, Initial, Enabled, Apply;
    if n == 0 {
      InitialInv(env, states[0]);
    } else {
      RunKeepsInv(env, states, actions, n - 1);
      StepKeepsInv(env, states[0].log, states[n - 1], actions[n - 1]);
    }
  }

  lemma {:induction false} ExtendedIsSound(env: Env, base: seq<Row>, rows: seq<Row>, organizationId: string, n: nat)
    requires ChainOk(env, base, rows, organizationId) && AllSound(env, Of(base, organizationId))
    requires |Of(base, organizationId)| <= n <= |Of(rows, organizationId)|
    ensures AllSound(env, Of(rows, organizationId)[..n])
  {
    hide Of, Sorted, ComputeEntryHash;
    var before, now := Of(base, organizationId), Of(rows, organizationId);
    if n == |before| {
      assert now[..n] == before;
    } else {
      ExtendedIsSound(env, base, rows, organizationId, n - 1);
      assert Continues(env, now[..n - 1], now[n - 1]);
      ContinuedStaysSound(env, now[..n - 1], now[n - 1]);
      assert now[..n] == now[..n - 1] + [now[n - 1]];
    }
  }

  lemma {:induction false} OfKeepsUnique(rows: seq<Row>, organizationId: string, n: nat)
    requires UniqueIds(rows) && n <= |rows|
    ensures UniqueIds(OfTo(rows, organizationId, n))
    ensures forall i :: 0 <= i < |OfTo(rows, organizationId, n)| ==> OfTo(rows, organizationId, n)[i] in rows[..n]
  {
    if n > 0 {
      OfKeepsUnique(rows, organizationId, n - 1);
      assert forall r :: r in rows[..n - 1] ==> r in rows[..n];
      assert rows[n - 1] in rows[..n];
      assert forall r :: r in rows[..n - 1] ==> r.id != rows[n - 1].id;
    }
  }

  /** In every interleaving, whatever the aborts, the number of appends in a transaction and the tenants
      that share a lock: each tenant's committed rows extend the rows it started with, new rows are
      strictly later than the row before, and if the starting chain was sound the whole chain is. */
  lemma {:induction false} CommittedChainIsSound(env: Env, states: seq<Db>, actions: seq<Action>, n: nat, organizationId: string)
    requires Run(env, states, actions) && Initial(states[0]) && n < |states|
    ensures var (before, now) := (Of(states[0].log, organizationId), Of(states[n].log, organizationId));
            && before <= now
            && (forall i :: |before| <= i < |now| && i > 0 ==> now[i - 1].createdAt < now[i].createdAt)
            && (AllSound(env, before) ==> AllSound(env, now))
  {
    hide Run, Initial, Of, Sorted, AllSound, ComputeEntryHash;
    RunKeepsInv(env, states, actions, n);
    var base, rows := states[0].log, states[n].log;
    assert ChainOk(env, base, rows, organizationId) by { InvChain(env, base, states[n], organizationId); }
    var now := Of(rows, organizationId);
    forall i | |Of(base, organizationId)| <= i < |now| && i > 0
      ensures now[i - 1].createdAt < now[i].createdAt
    {
      assert Continues(env, now[..i], now[i]);
    }
    if AllSound(env, Of(base, organizationId)) {
      ExtendedIsSound(env, base, rows, organizationId, |now|);
      assert now[..|now|] == now;
    }
  }

  lemma {:induction false} InvChain(env: Env, base: seq<Row>, db: Db, organizationId: string)
    requires Inv(env, base, db)
    ensures ChainOk(env, base, db.log, organizationId) && UniqueIds(db.log)
  {
  }

  /** The committed chain never forks: no two rows of a tenant continue the same row, unless the digest
      collides on that tenant's rows. */
  lemma {:induction false} CommittedChainIsUnforked(env: Env, states: seq<Db>, actions: seq<Action>, n: nat,
                                                    organizationId: string, i: nat, j: nat)
    requires Run(env, states, actions) && Initial(states[0]) && n < |states|
    requires AllSound(env, Of(states[0].log, organizationId))
    requires i < j < |Of(states[n].log, organizationId)|
    ensures var rows := Of(states[n].log, organizationId);
            rows[i].prevHash != rows[j].prevHash || Collides(env, rows, rows)
  {
    hide Run, Initial, AllSound, Collides, OfTo;
    CommittedChainIsSound(env, states, actions, n, organizationId);
    RunKeepsInv(env, states, actions, n);
    InvChain(env, states[0].log, states[n], organizationId);
    OfKeepsUnique(states[n].log, organizationId, |states[n].log|);
    if !Collides(env, Of(states[n].log, organizationId), Of(states[n].log, organizationId)) {
      ChainIsUnforked(env, Of(states[n].log, organizationId), i, j);
    }
  }

  /** In every interleaving, at most one row was ever committed for a (tenant, action, key), the claim
      points to it, and every committed claim is answered by a hashed row of its tenant and action. */
  lemma {:induction false} KeyedAtMostOnce(env: Env, states: seq<Db>, actions: seq<Action>, n: nat)
    requires Run(env, states, actions) && Initial(states[0]) && n < |states|
    ensures ClaimsAnswered(Tables(states[n].log, states[n].claims))
    ensures var keyed := states[n].keyed;
            && (forall i, j :: 0 <= i < j < |keyed| ==> keyed[i].0 != keyed[j].0)
            && forall i :: 0 <= i < |keyed| ==>
                 keyed[i].0 in states[n].claims && states[n].claims[keyed[i].0] == Some(keyed[i].1)
  {
    RunKeepsInv(env, states, actions, n);
    hide Run, Initial, Chains, Answers, TxOk, Apart;
  }

  // ---------------------------------------------------------------- what is committed stays

  lemma {:induction false} StepKeepsCommitted(env: Env, base: seq<Row>, db: Db, a: Action)
    requires Inv(env, base, db) && Enabled(env, db, a)
    ensures var after := Apply(env, db, a);
            && db.log <= after.log
            && forall claim :: claim in db.claims ==> claim in after.claims && after.claims[claim] == db.claims[claim]
  {
    hide Consistent, Guarded, Apart, StepTx;
  }

  /** Committed rows and claims stay as they are through the rest of any interleaving. */
  lemma {:induction false} CommittedStaysCommitted(env: Env, states: seq<Db>, actions: seq<Action>, m: nat, n: nat)
    requires Run(env, states, actions) && Initial(states[0]) && m <= n < |states|
    ensures states[m].log <= states[n].log
    ensures forall claim :: claim in states[m].claims ==>
              claim in states[n].claims && states[n].claims[claim] == states[m].claims[claim]
  {
    hide Enabled, Apply, Initial, Inv;
    if m < n {
      CommittedStaysCommitted(env, states, actions, m, n - 1);
      RunKeepsInv(env, states, actions, n - 1);
      StepKeepsCommitted(env, states[0].log, states[n - 1], actions[n - 1]);
    }
  }

  lemma {:induction false} ViewKeepsClaim(env: Env, base: seq<Row>, db: Db, t: nat, claim: ClaimKey)
    requires Inv(env, base, db) && t in db.txs && claim in db.claims
    ensures var tx := db.txs[t];
            && UniqueIds(View(db, tx)) && db.log <= View(db, tx)
            && claim in ClaimsView(db, tx) && ClaimsView(db, tx)[claim] == db.claims[claim]
  {
    hide Guarded, Apart, Chains, SettledClaims, KeyedClaims, PcOk;
    assert TxOk(env, base, db, db.txs[t]);
  }

  /** Once a claim is committed, every later lookup of it, on the committed tables or inside any
      transaction, answers with the same row. */
  lemma {:induction false} CommittedClaimAnswersAlike(
      env: Env, states: seq<Db>, actions: seq<Action>, m: nat, n: nat, claim: ClaimKey)
    requires Run(env, states, actions) && Initial(states[0]) && m <= n < |states| && claim in states[m].claims
    ensures var (early, late) := (Tables(states[m].log, states[m].claims), Tables(states[n].log, states[n].claims));
            && Claimed(early, claim).Ok? && claim in late.claims && Claimed(late, claim) == Claimed(early, claim)
            && forall t :: t in states[n].txs ==>
                 var tx := states[n].txs[t];
                 claim in ClaimsView(states[n], tx)
                 && Claimed(Tables(View(states[n], tx), ClaimsView(states[n], tx)), claim) == Claimed(early, claim)
  {
    hide Run, Initial, Inv, Claimed, View, ClaimsView, Answers, ClaimsAnswered, UniqueIds;
    var early, late := Tables(states[m].log, states[m].claims), Tables(states[n].log, states[n].claims);
    RunKeepsInv(env, states, actions, m);
    RunKeepsInv(env, states, actions, n);
    KeyedAtMostOnce(env, states, actions, m);
    InvChain(env, states[0].log, states[m], claim.organizationId);
    InvChain(env, states[0].log, states[n], claim.organizationId);
    CommittedStaysCommitted(env, states, actions, m, n);
    assert AuditStore.Consistent(early);
    ClaimedRowPersists(early, late, claim);
    forall t | t in states[n].txs
      ensures claim in ClaimsView(states[n], states[n].txs[t])
      ensures Claimed(Tables(View(states[n], states[n].txs[t]), ClaimsView(states[n], states[n].txs[t])), claim)
              == Claimed(early, claim)
    {
      var tx := states[n].txs[t];
      ViewKeepsClaim(env, states[0].log, states[n], t, claim);
      ClaimedRowPersists(early, Tables(View(states[n], tx), ClaimsView(states[n], tx)), claim);
    }
  }
}
