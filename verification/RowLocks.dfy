/**
The same calls at the grain of their statements: every transaction has a program
counter, shared and exclusive row locks it keeps to its end, and uncommitted rows
only it can see. A statement runs once it holds every row it needs; it takes those
rows one at a time, in any order. A transaction may be aborted at any point.

Plain reads (the first ledger check, the owner read, the naming of a refusal) see
committed rows and take no lock, as the service's do.
*/
module RowLocks {
  import opened Wrappers
  import opened Accounts

  type TxId = nat

  datatype Row =
    | UserRow(user: UserId)
    | EnrolmentRow(secret: Secret)
    | CredentialRow(credential: CredentialId)
    | TokenRow(token: Token)
    | PasswordRow(user: UserId)
    | LedgerRow(key: Key)

  // The writes of a transaction that has passed its checks.
  datatype Statement =
    BumpEpoch | RevokeCredentials | VoidEnrolments | StorePassword | RecordRedemption | InsertRow

  datatype Pc =
    | Check      // checks on the request, and a redemption's first ledger read
    | Owner      // a redemption's unlocked read of the enrolment's owner
    | LockUser   // SELECT ... FOR UPDATE on the user row
    | Select     // INSERT ... SELECT ... LOCK IN SHARE MODE on the user row
    | Spending   // the check-and-spend UPDATE
    | Writing    // the statements of the plan from `step` on, then COMMIT
    | Recheck    // the second ledger read, FOR UPDATE
    | Naming     // why the spend matched nothing
    | Finished   // an answer and nothing to write
    | Doomed     // an engine error: only a rollback is left

  datatype Tx = Tx(
    call: Call, pc: Pc, owner: Option<UserId>,
    revoking: bool,          // the instruction read from a spent enrolment
    step: nat,               // how many statements of the plan have run
    buf: Tables,             // the uncommitted rows
    xs: set<Row>, ss: set<Row>,
    answer: Answer,
    promised: Answer)        // what the log says this call answered

  datatype Entry = Entry(tx: TxId, call: Call, answer: Answer)

  // `log` and `history` are the serial run the committed tables came from.
  datatype Sys = Sys(
    db: Tables, clock: nat, next: TxId, txs: map<TxId, Tx>,
    log: seq<Entry>, history: seq<Tables>, delivered: map<TxId, Entry>)

  datatype Event = Begin(call: Call) | Acquire(tx: TxId, row: Row) | Exec(tx: TxId)
                 | Commit(tx: TxId) | Abort(tx: TxId) | Single(call: Call) | Tick

  const NoRows: Tables := Tables(map[], map[], map[], map[], map[])

  // Committed rows with a transaction's own on top.
  function Overlay(db: Tables, buf: Tables): Tables {
    Tables(db.users + buf.users, db.passwords + buf.passwords, db.enrolments + buf.enrolments,
           db.credentials + buf.credentials, db.redemptions + buf.redemptions)
  }

  // The transactions this machine interleaves statement by statement. The bootstrap demand is
  // not one of them.
  predicate Interleaved(c: Call) {
    c.Redeem? || c.RevokeAll? || c.SetPassword? || (c.CreateEnrolment? && !c.demand) || c.CreateCredential?
  }

  function OwnerOf(c: Call): Option<UserId> {
    match c
    case RevokeAll(u) => Some(u)
    case SetPassword(u, _) => Some(u)
    case CreateEnrolment(_, u, _, _, _, _) => Some(u)
    case CreateCredential(_, u, _, _) => Some(u)
    case _ => None
  }

  function Started(c: Call): Tx {
    Tx(c, if c.RevokeAll? then LockUser else if c.CreateCredential? then Select else Check,
       OwnerOf(c), false, 0, NoRows, {}, {}, Done, Done)
  }

  // -------------------------------------------------------------------- the plan

  // The statement a writing transaction runs next; none when only COMMIT is left.
  function Current(tx: Tx): Option<Statement> {
    match tx.call
    case Redeem(key, _, _, _) =>
      if tx.step == 0 then Some(BumpEpoch)
      else if tx.revoking && tx.step == 1 then Some(RevokeCredentials)
      else if tx.revoking && tx.step == 2 then Some(VoidEnrolments)
      else if tx.step == (if tx.revoking then 3 else 1) then Some(StorePassword)
      else if key.Some? && tx.step == (if tx.revoking then 4 else 2) then Some(RecordRedemption)
      else None
    case RevokeAll(_) =>
      if tx.step == 0 then Some(RevokeCredentials)
      else if tx.step == 1 then Some(BumpEpoch)
      else if tx.step == 2 then Some(VoidEnrolments)
      else None
    case SetPassword(_, _) =>
      if tx.step == 0 then Some(BumpEpoch) else if tx.step == 1 then Some(StorePassword) else None
    case _ => if tx.step == 0 then Some(InsertRow) else None
  }

  // Which statements have run.
  datatype Progress = Progress(bump: bool, revoke: bool, void: bool, store: bool, record: bool)

  function ProgressOf(tx: Tx): Progress {
    var n := tx.step;
    match tx.call
    case Redeem(key, _, _, _) =>
      Progress(n > 0, tx.revoking && n > 1, tx.revoking && n > 2, n > (if tx.revoking then 3 else 1),
               key.Some? && n > (if tx.revoking then 4 else 2))
    case RevokeAll(_) => Progress(n > 1, n > 0, n > 2, false, false)
    case SetPassword(_, _) => Progress(n > 0, false, false, n > 1, false)
    case _ => Progress(false, false, false, false, false)
  }

  // -------------------------------------------------------------- what is locked

  function StatementRows(view: Tables, tx: Tx): set<Row>
    requires Current(tx).Some? && tx.owner.Some?
  {
    var u := tx.owner.value;
    match Current(tx).value
    case BumpEpoch => {UserRow(u)}
    case RevokeCredentials => {UserRow(u)} + set c | c in RevokedRows(view, u) :: CredentialRow(c)
    case VoidEnrolments => set s | s in VoidedRows(view, u) :: EnrolmentRow(s)
    case StorePassword => {PasswordRow(u)}
    case RecordRedemption => if tx.call.Redeem? && tx.call.key.Some? then {LedgerRow(tx.call.key.value)} else {}
    case InsertRow =>
      if tx.call.CreateEnrolment? then {EnrolmentRow(tx.call.secret)}
      else if tx.call.CreateCredential? then {TokenRow(tx.call.token)} else {}
  }

  // The rows the next statement must hold exclusively.
  function NeedX(db: Tables, tx: Tx): set<Row> {
    match tx.pc
    case LockUser => if tx.owner.Some? then {UserRow(tx.owner.value)} else {}
    case Spending => if tx.call.Redeem? then {EnrolmentRow(tx.call.secret)} else {}
    case Recheck =>
      if tx.call.Redeem? && tx.call.key.Some? then {LedgerRow(tx.call.key.value)} else {}
    case Writing =>
      if Current(tx).Some? && tx.owner.Some? then StatementRows(Overlay(db, tx.buf), tx) else {}
    case _ => {}
  }

  function NeedS(tx: Tx): set<Row> {
    if tx.pc.Select? && tx.owner.Some? then {UserRow(tx.owner.value)} else {}
  }

  predicate Lacks(db: Tables, tx: Tx, r: Row) {
    (r in NeedX(db, tx) && r !in tx.xs) || (r in NeedS(tx) && r !in tx.xs && r !in tx.ss)
  }

  // `other` holds `r` in a mode that excludes what `tx` wants it in.
  predicate Excludes(other: Tx, tx: Tx, r: Row) {
    r in other.xs || (r in other.ss && r !in NeedS(tx))
  }

  predicate WaitsFor(sys: Sys, t: TxId, t': TxId, r: Row) {
    && t in sys.txs && t' in sys.txs && t != t'
    && Lacks(sys.db, sys.txs[t], r) && Excludes(sys.txs[t'], sys.txs[t], r)
  }

  // ---------------------------------------------------------------- statements

  // An answer reached with nothing written.
  function Answered(tx: Tx, a: Answer): Tx {
    tx.(pc := Finished, answer := a, promised := a, buf := NoRows)
  }

  function CheckStep(db: Tables, clock: nat, tx: Tx): Tx {
    match tx.call
    case Redeem(key, s, h, _) =>
      var at := tx.(call := tx.call.(now := clock));
      if Recorded(db, key) then Answered(at, Replay(db, key.value, s))
      else if !FitsPasswordColumn(h) then Answered(at, Failed(InvalidArgument))
      else tx.(pc := Owner)
    case SetPassword(_, h) =>
      if FitsPasswordColumn(h) then tx.(pc := LockUser) else Answered(tx, Failed(InvalidArgument))
    case CreateEnrolment(_, _, _, expires, _, _) =>
      if expires.Some? then tx.(pc := Select) else Answered(tx, Failed(InvalidArgument))
    case _ => tx.(pc := Doomed)
  }

  function OwnerStep(db: Tables, tx: Tx): Tx
    requires tx.call.Redeem?
  {
    if tx.call.secret in db.enrolments
    then tx.(pc := LockUser, owner := Some(db.enrolments[tx.call.secret].owner))
    else tx.(pc := Spending)
  }

  function LockUserStep(db: Tables, tx: Tx): Tx {
    match tx.call
    case Redeem(_, _, _, _) => tx.(pc := Spending)
    case RevokeAll(u) =>
      if u in db.users
      then tx.(pc := Writing, answer := Revocation(0, 0))
      else Answered(tx.(xs := {}), Failed(NotFound))
    case SetPassword(u, _) =>
      if LiveUser(db, u) then tx.(pc := Writing, answer := Done)
      else Answered(tx.(xs := {}), Failed(NotFound))
    case _ => tx.(pc := Doomed)
  }

  function SelectStep(db: Tables, tx: Tx): Tx {
    match tx.call
    case CreateEnrolment(id, u, _, _, _, _) =>
      if LiveUser(db, u) then tx.(pc := Writing, answer := Minted(id))
      else Answered(tx.(ss := {}), Failed(NotFound))
    case CreateCredential(id, u, _, expected) =>
      if !LiveUser(db, u) then Answered(tx.(ss := {}), Failed(NotFound))
      else if expected.Some? && expected.value != db.users[u].epoch
      then Answered(tx.(ss := {}), Failed(FailedPrecondition))
      else tx.(pc := Writing, answer := Minted(id))
    case _ => tx.(pc := Doomed)
  }

  function SpendStep(db: Tables, clock: nat, tx: Tx): Tx
    requires tx.call.Redeem?
  {
    var s, at := tx.call.secret, tx.(call := tx.call.(now := clock));
    if Redeemable(db, s, clock) then
      var e := db.enrolments[s];
      at.(pc := Writing, owner := Some(e.owner), revoking := e.revoking,
          buf := NoRows.(enrolments := map[s := e.(spent := true)]),
          answer := Redeemed(e.owner, e.id, db.users[e.owner].sealed, e.revoking, 0, 0))
    else
      // READ COMMITTED keeps no lock on a row the WHERE clause refused.
      at.(pc := Recheck, xs := tx.xs - {EnrolmentRow(s)})
  }

  function RecheckStep(db: Tables, tx: Tx): Tx
    requires tx.call.Redeem?
  {
    if Recorded(db, tx.call.key) then Answered(tx, Replay(db, tx.call.key.value, tx.call.secret))
    else tx.(pc := Naming, xs := tx.xs - NeedX(db, tx),
             promised := Unredeemed(Unredeemable(db, tx.call.secret)))
  }

  function NamingStep(db: Tables, tx: Tx): Tx
    requires tx.call.Redeem?
  {
    tx.(pc := Finished, answer := Unredeemed(Unredeemable(db, tx.call.secret)))
  }

  function WithEpoch(a: Answer, epoch: nat): Answer {
    if a.Redeemed? then Redeemed(a.owner, a.enrolment, a.sealed, a.revoked, epoch, a.voided) else a
  }

  function WithVoided(a: Answer, n: nat): Answer {
    match a
    case Redeemed(u, e, sealed, revoked, epoch, _) => Redeemed(u, e, sealed, revoked, epoch, n)
    case Revocation(revocations, _) => Revocation(revocations, n)
    case _ => a
  }

  function WithRevocations(a: Answer, n: nat): Answer {
    if a.Revocation? then Revocation(n, a.voided) else a
  }

  function InsertStep(db: Tables, tx: Tx): Tx
  {
    match tx.call
    case CreateEnrolment(id, u, s, expires, _, revoking) =>
      if EnrolmentTaken(db, id, s) || expires.None? then Answered(tx, Failed(AlreadyExists))
      else Ran(tx.(buf := tx.buf.(enrolments := map[s := Enrolment(id, u, expires.value, revoking, false, false)])))
    case CreateCredential(id, u, token, _) =>
      if CredentialTaken(db, id, token) then Answered(tx, Failed(Unavailable))
      else Ran(tx.(buf := tx.buf.(credentials := map[id := Credential(u, token, false)])))
    case _ => tx.(pc := Doomed)
  }

  function Ran(tx: Tx): Tx
  {
    tx.(step := tx.step + 1)
  }

  function BumpWith(tx: Tx, u: UserId, row: User): Tx
  {
    Ran(tx.(buf := tx.buf.(users := tx.buf.users[u := row]), answer := WithEpoch(tx.answer, row.epoch)))
  }

  function RevokeWith(tx: Tx, rows: map<CredentialId, Credential>): Tx
  {
    Ran(tx.(buf := tx.buf.(credentials := tx.buf.credentials + rows),
            answer := WithRevocations(tx.answer, Saturated(|rows|))))
  }

  function VoidWith(tx: Tx, rows: map<Secret, Enrolment>): Tx
  {
    Ran(tx.(buf := tx.buf.(enrolments := tx.buf.enrolments + rows),
            answer := WithVoided(tx.answer, Saturated(|rows|))))
  }

  // One write, computed on what the transaction sees and kept in its own rows.
  function WriteStep(db: Tables, tx: Tx): Tx
    requires Current(tx).Some? && tx.owner.Some?
  {
    var u, view, buf := tx.owner.value, Overlay(db, tx.buf), tx.buf;
    match Current(tx).value
    case BumpEpoch =>
      if u !in view.users then tx.(pc := Doomed)
      else BumpWith(tx, u, view.users[u].(epoch := view.users[u].epoch + 1))
    case RevokeCredentials => RevokeWith(tx, RevokedRows(view, u))
    case VoidEnrolments => VoidWith(tx, VoidedRows(view, u))
    case StorePassword =>
      if tx.call.Redeem? || tx.call.SetPassword?
      then Ran(tx.(buf := buf.(passwords := buf.passwords[u := tx.call.hash]))) else tx.(pc := Doomed)
    case RecordRedemption =>
      if tx.call.Redeem? && tx.call.key.Some? && tx.call.key.value !in view.redemptions && tx.answer.Redeemed?
      then Ran(tx.(buf := buf.(redemptions := buf.redemptions[tx.call.key.value :=
             Redemption(tx.call.secret, tx.answer.enrolment, u, tx.answer.epoch)])))
      else tx.(pc := Doomed)
    case InsertRow => InsertStep(db, tx)
  }

  function ExecTx(db: Tables, clock: nat, tx: Tx): Tx
    requires Runnable(tx)
  {
    match tx.pc
    case Check => CheckStep(db, clock, tx)
    case Owner => OwnerStep(db, tx)
    case LockUser => LockUserStep(db, tx)
    case Select => SelectStep(db, tx)
    case Spending => SpendStep(db, clock, tx)
    case Recheck => RecheckStep(db, tx)
    case Naming => NamingStep(db, tx)
    case Writing => WriteStep(db, tx)
    case _ => tx
  }

  // ------------------------------------------------------------------ the system

  predicate Runnable(tx: Tx) {
    match tx.pc
    case Check => true
    case Owner => tx.call.Redeem?
    case LockUser => tx.owner.Some?
    case Select => tx.owner.Some?
    case Spending => tx.call.Redeem?
    case Recheck => tx.call.Redeem?
    case Naming => tx.call.Redeem?
    case Writing => Current(tx).Some? && tx.owner.Some?
    case Finished => false
    case Doomed => false
  }

  predicate Committable(tx: Tx) {
    tx.pc.Finished? || (tx.pc.Writing? && Current(tx).None?)
  }

  // Minted ids are fresh: unused in the tables and by every other transaction.
  predicate FreshEnrolmentId(sys: Sys, id: EnrolmentId) {
    && (forall s <- sys.db.enrolments :: sys.db.enrolments[s].id != id)
    && (forall t <- sys.txs :: sys.txs[t].call.CreateEnrolment? ==> sys.txs[t].call.enrolment != id)
  }

  predicate FreshCredentialId(sys: Sys, id: CredentialId) {
    && id !in sys.db.credentials
    && (forall t <- sys.txs :: sys.txs[t].call.CreateCredential? ==> sys.txs[t].call.credential != id)
  }

  predicate Free(sys: Sys, t: TxId, r: Row)
    requires t in sys.txs
  {
    forall t' <- sys.txs :: t' != t ==> !Excludes(sys.txs[t'], sys.txs[t], r)
  }

  // The calls that are one statement of their own transaction: they hold nothing while they
  // wait, and are answered as they run.
  predicate SingleStatement(c: Call) {
    c.GetPasswordHash? || c.RevokeCredential? || c.SetUserAdmin? || c.CreateUser?
  }

  // Nobody holds the row such a statement writes.
  predicate NobodyHolds(sys: Sys, c: Call) {
    forall t <- sys.txs ::
      && (c.RevokeCredential? ==> CredentialRow(c.credential) !in sys.txs[t].xs)
      && (c.SetUserAdmin? ==> UserRow(c.user) !in sys.txs[t].xs && UserRow(c.user) !in sys.txs[t].ss)
  }

  predicate Enabled(sys: Sys, e: Event) {
    match e
    case Begin(c) =>
      && Interleaved(c)
      && (c.CreateEnrolment? ==> FreshEnrolmentId(sys, c.enrolment))
      && (c.CreateCredential? ==> FreshCredentialId(sys, c.credential))
    case Acquire(t, r) => t in sys.txs && Lacks(sys.db, sys.txs[t], r) && Free(sys, t, r)
    case Exec(t) =>
      && t in sys.txs && Runnable(sys.txs[t])
      && NeedX(sys.db, sys.txs[t]) <= sys.txs[t].xs
      && NeedS(sys.txs[t]) <= sys.txs[t].xs + sys.txs[t].ss
    case Commit(t) => t in sys.txs && Committable(sys.txs[t])
    case Abort(t) => t in sys.txs
    case Single(c) => SingleStatement(c) && NobodyHolds(sys, c)
    case Tick => true
  }

  // A redemption of `s` that found no owner for it and has yet to settle and name its answer.
  predicate ReadNoOwner(tx: Tx, s: Secret) {
    tx.call.Redeem? && tx.call.secret == s && tx.owner.None? && (tx.pc.Spending? || tx.pc.Recheck? || tx.pc.Naming?)
  }

  // THE ASSUMPTION OF THE LOCK ORDER. An enrolment is not committed under a redemption
  // of it that is already past its owner read, which locks nothing for an unknown secret.
  predicate Guarded(sys: Sys, e: Event) {
    e.Commit? && e.tx in sys.txs && sys.txs[e.tx].pc.Writing? && sys.txs[e.tx].call.CreateEnrolment? ==>
      forall t <- sys.txs :: !ReadNoOwner(sys.txs[t], sys.txs[e.tx].call.secret)
  }

  function Granted(tx: Tx, r: Row): Tx {
    if r in NeedS(tx) then tx.(ss := tx.ss + {r}) else tx.(xs := tx.xs + {r})
  }

  // A statement that settles the answer of a call that writes nothing enters it in the log.
  predicate Settles(tx: Tx, tx': Tx) {
    !tx.pc.Naming? && (tx'.pc.Finished? || tx'.pc.Naming?)
  }

  ghost function Next(sys: Sys, e: Event): Sys
    requires Enabled(sys, e)
  {
    match e
    case Begin(c) => sys.(txs := sys.txs[sys.next := Started(c)], next := sys.next + 1)
    case Acquire(t, r) => sys.(txs := sys.txs[t := Granted(sys.txs[t], r)])
    case Exec(t) =>
      var tx' := ExecTx(sys.db, sys.clock, sys.txs[t]);
      var sys' := sys.(txs := sys.txs[t := tx']);
      if Settles(sys.txs[t], tx')
      then sys'.(log := sys.log + [Entry(t, tx'.call, tx'.promised)], history := sys.history + [sys.db])
      else sys'
    case Commit(t) =>
      var tx := sys.txs[t];
      var sys' := sys.(txs := sys.txs - {t}, delivered := sys.delivered[t := Entry(t, tx.call, tx.answer)]);
      if tx.pc.Finished? then sys'
      else
        var db' := Overlay(sys.db, tx.buf);
        sys'.(db := db', log := sys.log + [Entry(t, tx.call, tx.answer)], history := sys.history + [db'])
    case Abort(t) => sys.(txs := sys.txs - {t})
    case Single(c) =>
      var reply := Serve(sys.db, c);
      var entry := Entry(sys.next, c, reply.answer);
      sys.(db := reply.tables, next := sys.next + 1, log := sys.log + [entry], history := sys.history + [reply.tables],
           delivered := sys.delivered[sys.next := entry])
    case Tick => sys.(clock := sys.clock + 1)
  }

  function Initial(db: Tables, clock: nat): Sys {
    Sys(db, clock, 0, map[], [], [db], map[])
  }

  // Every interleaving: any number of transactions, any order of their steps.
  ghost predicate Execution(states: seq<Sys>, events: seq<Event>) {
    && |states| == |events| + 1
    && Valid(states[0].db) && states[0] == Initial(states[0].db, states[0].clock)
    && forall i | 0 <= i < |events| ::
         Enabled(states[i], events[i]) && states[i + 1] == Next(states[i], events[i])
  }

  ghost predicate GuardedExecution(states: seq<Sys>, events: seq<Event>) {
    Execution(states, events) && forall i | 0 <= i < |events| :: Guarded(states[i], events[i])
  }
}
