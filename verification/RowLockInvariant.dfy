/**
What every interleaving keeps: locks exclude each other, and the uncommitted rows of
a transaction are exactly what its call would write on the tables AS COMMITTED NOW,
because the user row it holds keeps everyone else off that person's rows.
*/
module RowLockInvariant {
  import opened Wrappers
  import opened Accounts
  import opened AccountRuns
  import opened RowLocks

  // ------------------------------------------------------------ one person's rows

  datatype Account = Account(
    user: Option<User>, enrolments: map<Secret, Enrolment>, credentials: map<CredentialId, Credential>)

  function UserOf(t: Tables, u: UserId): Option<User> {
    if u in t.users then Some(t.users[u]) else None
  }

  function EnrolmentsOf(m: map<Secret, Enrolment>, u: UserId): map<Secret, Enrolment> {
    map s | s in m && m[s].owner == u :: m[s]
  }

  function CredentialsOf(m: map<CredentialId, Credential>, u: UserId): map<CredentialId, Credential> {
    map c | c in m && m[c].owner == u :: m[c]
  }

  function AccountOf(t: Tables, u: UserId): Account {
    Account(UserOf(t, u), EnrolmentsOf(t.enrolments, u), CredentialsOf(t.credentials, u))
  }

  function Bumped(user: User): User {
    user.(epoch := user.epoch + 1)
  }

  function AccountRevoked(a: Account): map<CredentialId, Credential> {
    map c | c in a.credentials && !a.credentials[c].revoked :: a.credentials[c].(revoked := true)
  }

  function AccountVoided(a: Account, spent: Option<Secret>): map<Secret, Enrolment> {
    map s | s in a.enrolments && Some(s) != spent && !a.enrolments[s].spent && !a.enrolments[s].voided
      :: a.enrolments[s].(voided := true)
  }

  function SpentBy(c: Call): Option<Secret> {
    if c.Redeem? then Some(c.secret) else None
  }

  ghost predicate Supports(a: Account, c: Call) {
    a.user.Some? && (c.Redeem? ==> c.secret in a.enrolments)
  }

  function SpentRow(a: Account, c: Call): map<Secret, Enrolment> {
    if c.Redeem? && c.secret in a.enrolments then map[c.secret := a.enrolments[c.secret].(spent := true)] else map[]
  }

  function HashIn(c: Call): Hash {
    if c.Redeem? || c.SetPassword? then c.hash else Hash(0, 0)
  }

  // The rows that progress `p` of call `c` writes for account `a` of person `u`.
  ghost function ExpectedRows(a: Account, c: Call, u: UserId, p: Progress): Tables
    requires Supports(a, c)
  {
    Tables(
      if p.bump then map[u := Bumped(a.user.value)] else map[],
      if p.store then map[u := HashIn(c)] else map[],
      SpentRow(a, c) + (if p.void then AccountVoided(a, SpentBy(c)) else map[]),
      if p.revoke then AccountRevoked(a) else map[],
      if p.record && c.Redeem? && c.key.Some?
      then map[c.key.value := Redemption(c.secret, a.enrolments[c.secret].id, u, a.user.value.epoch + 1)]
      else map[])
  }

  ghost function ExpectedAnswer(a: Account, c: Call, u: UserId, p: Progress): Answer
    requires Supports(a, c)
  {
    var voided := if p.void then Saturated(|AccountVoided(a, SpentBy(c))|) else 0;
    match c
    case Redeem(_, s, _, _) =>
      var e := a.enrolments[s];
      Redeemed(u, e.id, a.user.value.sealed, e.revoking, if p.bump then a.user.value.epoch + 1 else 0, voided)
    case RevokeAll(_) => Revocation(if p.revoke then Saturated(|AccountRevoked(a)|) else 0, voided)
    case _ => Done
  }

  // ------------------------------------------------------------ one transaction

  ghost predicate HoldsUser(tx: Tx) {
    tx.owner.Some? && UserRow(tx.owner.value) in tx.xs
  }

  // A redemption past its owner read: it holds the owner's row, or the secret is unknown.
  ghost predicate RedeemerInv(db: Tables, tx: Tx) {
    && tx.call.Redeem? && FitsPasswordColumn(tx.call.hash) && tx.buf == NoRows && tx.step == 0
    && (tx.owner.None? ==> tx.call.secret !in db.enrolments)
    && (tx.owner.Some? ==> HoldsUser(tx) && tx.call.secret in AccountOf(db, tx.owner.value).enrolments)
  }

  // The enrolment is one the spend's WHERE clause matches.
  ghost predicate Spendable(a: Account, c: Call)
    requires c.Redeem? && Supports(a, c)
  {
    var e := a.enrolments[c.secret];
    !e.spent && !e.voided && e.expires > c.now && a.user.value.live
  }

  ghost predicate CallInv(a: Account, tx: Tx)
    requires tx.owner.Some?
  {
    && Supports(a, tx.call)
    && (tx.call.Redeem? ==> FitsPasswordColumn(tx.call.hash) && Spendable(a, tx.call)
                            && tx.revoking == a.enrolments[tx.call.secret].revoking)
    && (tx.call.RevokeAll? ==> tx.call.user == tx.owner.value)
    && (tx.call.SetPassword? ==>
          tx.call.user == tx.owner.value && FitsPasswordColumn(tx.call.hash) && a.user.value.live)
  }

  // The uncommitted rows and the answer so far are what account `a` calls for.
  ghost predicate RowsInv(a: Account, tx: Tx) {
    && tx.owner.Some? && CallInv(a, tx)
    && tx.buf == ExpectedRows(a, tx.call, tx.owner.value, ProgressOf(tx))
    && tx.answer == ExpectedAnswer(a, tx.call, tx.owner.value, ProgressOf(tx))
  }

  ghost predicate LedgerInv(db: Tables, tx: Tx) {
    tx.call.Redeem? && ProgressOf(tx).record && tx.call.key.Some? ==>
      LedgerRow(tx.call.key.value) in tx.xs && tx.call.key.value !in db.redemptions
  }

  // Every credential a revoke has written is locked: a lone RevokeCredential takes no user row.
  ghost predicate RevokedLocked(db: Tables, tx: Tx) {
    tx.owner.Some? && ProgressOf(tx).revoke ==> forall c <- AccountRevoked(AccountOf(db, tx.owner.value)) :: CredentialRow(c) in tx.xs
  }

  // A transaction that holds its user row exclusively and is writing.
  ghost predicate WriterInv(db: Tables, tx: Tx) {
    && HoldsUser(tx) && RevokedLocked(db, tx)
    && (tx.call.Redeem? || tx.call.RevokeAll? || tx.call.SetPassword?)
    && RowsInv(AccountOf(db, tx.owner.value), tx)
    && LedgerInv(db, tx)
  }

  function NewEnrolment(c: Call): Enrolment
    requires c.CreateEnrolment? && c.expires.Some?
  {
    Enrolment(c.enrolment, c.user, c.expires.value, c.revoking, false, false)
  }

  ghost predicate EnrolmentInserterInv(db: Tables, tx: Tx) {
    && tx.call.CreateEnrolment? && tx.call.expires.Some? && !tx.call.demand
    && LiveUser(db, tx.call.user) && tx.answer == Minted(tx.call.enrolment)
    && (tx.step == 0 ==> tx.buf == NoRows)
    && (tx.step > 0 ==>
          && EnrolmentRow(tx.call.secret) in tx.xs && tx.call.secret !in db.enrolments
          && tx.buf == NoRows.(enrolments := map[tx.call.secret := NewEnrolment(tx.call)]))
  }

  ghost predicate TokenUnused(db: Tables, token: Token) {
    forall c <- db.credentials :: db.credentials[c].token != token
  }

  ghost predicate CredentialInserterInv(db: Tables, tx: Tx) {
    && tx.call.CreateCredential?
    && LiveUser(db, tx.call.user) && tx.answer == Minted(tx.call.credential)
    && (tx.call.expected.Some? ==> tx.call.expected.value == db.users[tx.call.user].epoch)
    && (tx.step == 0 ==> tx.buf == NoRows)
    && (tx.step > 0 ==>
          && TokenRow(tx.call.token) in tx.xs && TokenUnused(db, tx.call.token)
          && tx.buf == NoRows.(credentials := map[tx.call.credential := Credential(tx.call.user, tx.call.token, false)]))
  }

  // A transaction that holds its user row shared and inserts one row.
  ghost predicate InserterInv(db: Tables, tx: Tx) {
    && tx.owner == OwnerOf(tx.call) && tx.owner.Some? && UserRow(tx.owner.value) in tx.ss
    && (EnrolmentInserterInv(db, tx) || CredentialInserterInv(db, tx))
  }

  ghost predicate Unstarted(tx: Tx) {
    Interleaved(tx.call) && tx.buf == NoRows && tx.step == 0
  }

  ghost predicate TxInv(db: Tables, tx: Tx) {
    match tx.pc
    case Check => Unstarted(tx) && tx.xs == {} && tx.owner == OwnerOf(tx.call) && !tx.call.RevokeAll? && !tx.call.CreateCredential?
    case Owner => Unstarted(tx) && tx.call.Redeem? && FitsPasswordColumn(tx.call.hash) && tx.owner.None?
    case LockUser =>
      && Unstarted(tx) && tx.owner.Some?
      && (tx.call.Redeem? ==> FitsPasswordColumn(tx.call.hash)
                              && tx.call.secret in db.enrolments
                              && db.enrolments[tx.call.secret].owner == tx.owner.value)
      && (tx.call.SetPassword? ==> FitsPasswordColumn(tx.call.hash))
      && (tx.call.Redeem? || tx.call.RevokeAll? || tx.call.SetPassword?)
      && (!tx.call.Redeem? ==> tx.owner == OwnerOf(tx.call))
    case Select =>
      && Unstarted(tx) && tx.xs == {} && tx.owner == OwnerOf(tx.call)
      && (tx.call.CreateEnrolment? ==> tx.call.expires.Some?)
      && (tx.call.CreateEnrolment? || tx.call.CreateCredential?)
    case Spending => RedeemerInv(db, tx)
    case Recheck => RedeemerInv(db, tx) && !Redeemable(db, tx.call.secret, tx.call.now)
    case Naming => RedeemerInv(db, tx) && tx.promised == Unredeemed(Unredeemable(db, tx.call.secret))
    case Writing => WriterInv(db, tx) || InserterInv(db, tx)
    case Finished => tx.answer == tx.promised
    case Doomed => true
  }

  // -------------------------------------------------------------- the whole system

  ghost predicate Exclusive(txs: map<TxId, Tx>) {
    forall t <- txs, t' <- txs :: t != t' ==> txs[t].xs !! (txs[t'].xs + txs[t'].ss)
  }

  ghost predicate FreshIds(db: Tables, txs: map<TxId, Tx>) {
    && (forall t <- txs :: txs[t].call.CreateEnrolment? ==>
          forall s <- db.enrolments :: db.enrolments[s].id != txs[t].call.enrolment)
    && (forall t <- txs :: txs[t].call.CreateCredential? ==> txs[t].call.credential !in db.credentials)
    && (forall t <- txs, t' <- txs :: t != t' && txs[t].call.CreateEnrolment? && txs[t'].call.CreateEnrolment?
          ==> txs[t].call.enrolment != txs[t'].call.enrolment)
    && (forall t <- txs, t' <- txs :: t != t' && txs[t].call.CreateCredential? && txs[t'].call.CreateCredential?
          ==> txs[t].call.credential != txs[t'].call.credential)
  }

  // The log replayed one call at a time gives the committed tables and the answers.
  ghost predicate Serial(history: seq<Tables>, log: seq<Entry>, db: Tables) {
    && |history| == |log| + 1 && history[|log|] == db && Valid(history[0])
    && forall i | 0 <= i < |log| ::
         Serve(history[i], log[i].call) == Reply(history[i + 1], log[i].answer)
  }

  ghost predicate LogInv(sys: Sys) {
    && (forall t <- sys.txs :: sys.txs[t].pc.Finished? || sys.txs[t].pc.Naming? ==>
          Entry(t, sys.txs[t].call, sys.txs[t].promised) in sys.log)
    && (forall t <- sys.delivered :: sys.delivered[t] in sys.log)
  }

  ghost predicate Inv(sys: Sys) {
    && Valid(sys.db)
    && (forall t <- sys.txs :: t < sys.next && TxInv(sys.db, sys.txs[t]))
    && Exclusive(sys.txs)
    && FreshIds(sys.db, sys.txs)
    && Serial(sys.history, sys.log, sys.db)
    && LogInv(sys)
  }
}
