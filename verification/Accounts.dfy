/**
The tables a person's access is made of, and each RPC on them as ONE transition:
the atomic level of the credential-epoch and enrolment protocol.

Marks the service stores as nullable timestamps (`spent_at`, `voided_at`,
`revoked_at`, `deleted_at`) are modelled by whether they are set, because that is
all any statement here reads of them. The clock a spend compares the deadline
with is an argument of the call.
*/
module Accounts {
  import opened Wrappers

  // Ids, hashes, ciphertexts and blind indexes are opaque: values with equality only.
  type UserId = int
  type EnrolmentId = int
  type CredentialId = int
  type Secret = int
  type Token = int
  type BlindIndex = int
  type Ciphertext = int

  // An idempotency key. A call carrying none, or the empty string, has `None`.
  type Key = int

  // A PHC string, of which only its length in characters is ever read.
  datatype Hash = Hash(phc: int, length: nat)

  const MAX_ARGON2ID_HASH: nat := 255
  const U32_MAX: nat := 0xFFFF_FFFF

  datatype User = User(live: bool, isAdmin: bool, epoch: nat, index: BlindIndex, sealed: Ciphertext)

  datatype Enrolment = Enrolment(
    id: EnrolmentId, owner: UserId, expires: nat, revoking: bool, spent: bool, voided: bool)

  datatype Credential = Credential(owner: UserId, token: Token, revoked: bool)

  // A row of `iam_enrolment_redemption`.
  datatype Redemption = Redemption(secret: Secret, enrolment: EnrolmentId, owner: UserId, epoch: nat)

  // Enrolments are keyed by `secret_hash`, which is UNIQUE and is what a
  // redemption finds them by.
  datatype Tables = Tables(
    users: map<UserId, User>,
    passwords: map<UserId, Hash>,
    enrolments: map<Secret, Enrolment>,
    credentials: map<CredentialId, Credential>,
    redemptions: map<Key, Redemption>)

  datatype Call =
    | CreateUser(newUser: UserId, index: BlindIndex, sealed: Ciphertext, admin: bool)
    | SetUserAdmin(user: UserId, admin: bool)
    | CreateEnrolment(enrolment: EnrolmentId, user: UserId, secret: Secret,
                      expires: Option<nat>, demand: bool, revoking: bool)
    | Redeem(key: Option<Key>, secret: Secret, hash: Hash, now: nat)
    | RevokeAll(user: UserId)
    | RevokeCredential(credential: CredentialId, holder: Option<UserId>)
    | SetPassword(user: UserId, hash: Hash)
    | GetPasswordHash(index: BlindIndex)
    | CreateCredential(credential: CredentialId, user: UserId, token: Token, expected: Option<nat>)

  datatype Status =
    InvalidArgument | NotFound | AlreadyExists | FailedPrecondition | PermissionDenied | Unavailable

  datatype RedeemOutcome = NoSuchEnrolment | Spent | Voided | Expired

  datatype Answer =
    | Redeemed(owner: UserId, enrolment: EnrolmentId, sealed: Ciphertext, revoked: bool,
               epoch: nat, voided: nat)
    | Unredeemed(outcome: RedeemOutcome)
    | Revocation(revocations: nat, voided: nat)
    | PasswordHash(user: UserId, hash: Hash, epoch: nat)
    | NoPassword
    | Minted(id: int)
    | Done
    | Failed(status: Status)

  datatype Reply = Reply(tables: Tables, answer: Answer)

  // ---------------------------------------------------------------- constraints

  // uq_iam_user_blind_index
  ghost predicate UniqueIndexes(users: map<UserId, User>) {
    forall u <- users, u' <- users :: users[u].index == users[u'].index ==> u == u'
  }

  // The enrolment primary key; `secret_hash` is unique by being the map's key.
  ghost predicate UniqueEnrolmentIds(enrolments: map<Secret, Enrolment>) {
    forall s <- enrolments, s' <- enrolments :: enrolments[s].id == enrolments[s'].id ==> s == s'
  }

  // uq_iam_credential_token
  ghost predicate UniqueTokens(credentials: map<CredentialId, Credential>) {
    forall c <- credentials, c' <- credentials :: credentials[c].token == credentials[c'].token ==> c == c'
  }

  ghost predicate EnrolmentOwners(enrolments: map<Secret, Enrolment>, users: map<UserId, User>) {
    forall s <- enrolments :: enrolments[s].owner in users
  }

  ghost predicate CredentialOwners(credentials: map<CredentialId, Credential>, users: map<UserId, User>) {
    forall c <- credentials :: credentials[c].owner in users
  }

  // Primary keys, unique keys and foreign keys of the five tables.
  ghost predicate Constraints(t: Tables) {
    && t.passwords.Keys <= t.users.Keys
    && UniqueIndexes(t.users) && UniqueEnrolmentIds(t.enrolments) && UniqueTokens(t.credentials)
    && EnrolmentOwners(t.enrolments, t.users) && CredentialOwners(t.credentials, t.users)
  }

  // The two marks of an enrolment exclude each other.
  ghost predicate OneMark(enrolments: map<Secret, Enrolment>) {
    forall s <- enrolments :: !(enrolments[s].spent && enrolments[s].voided)
  }

  // A ledger row describes a spent enrolment of its owner, at an epoch that owner has reached.
  ghost predicate LedgerRowHolds(r: Redemption, enrolments: map<Secret, Enrolment>, users: map<UserId, User>) {
    && r.secret in enrolments
    && enrolments[r.secret].id == r.enrolment
    && enrolments[r.secret].owner == r.owner
    && enrolments[r.secret].spent
    && r.owner in users
    && r.epoch <= users[r.owner].epoch
  }

  ghost predicate LedgerHolds(t: Tables) {
    forall k <- t.redemptions :: LedgerRowHolds(t.redemptions[k], t.enrolments, t.users)
  }

  // What every call keeps: the engine's constraints, and the two facts beyond them.
  ghost predicate Valid(t: Tables) {
    Constraints(t) && OneMark(t.enrolments) && LedgerHolds(t)
  }

  // ----------------------------------------------------------------- statements

  predicate LiveUser(t: Tables, u: UserId) {
    u in t.users && t.users[u].live
  }

  // The WHERE clause of the spend.
  predicate Redeemable(t: Tables, s: Secret, now: nat) {
    && s in t.enrolments
    && !t.enrolments[s].spent
    && t.enrolments[s].expires > now
    && !t.enrolments[s].voided
    && LiveUser(t, t.enrolments[s].owner)
  }

  function Spend(t: Tables, s: Secret): Tables
    requires s in t.enrolments
  {
    t.(enrolments := t.enrolments[s := t.enrolments[s].(spent := true)])
  }

  function Bump(t: Tables, u: UserId): Tables
    requires u in t.users
  {
    t.(users := t.users[u := t.users[u].(epoch := t.users[u].epoch + 1)])
  }

  // The rows `revoke::all` writes, and the tables with them written.
  function RevokedRows(t: Tables, u: UserId): map<CredentialId, Credential> {
    map c | c in t.credentials && t.credentials[c].owner == u && !t.credentials[c].revoked
      :: t.credentials[c].(revoked := true)
  }

  function RevokeRows(t: Tables, u: UserId): Tables {
    t.(credentials := t.credentials + RevokedRows(t, u))
  }

  // The rows `revoke::void` writes, expired ones included.
  function VoidedRows(t: Tables, u: UserId): map<Secret, Enrolment> {
    map s | s in t.enrolments && t.enrolments[s].owner == u
            && !t.enrolments[s].spent && !t.enrolments[s].voided
      :: t.enrolments[s].(voided := true)
  }

  function VoidRows(t: Tables, u: UserId): Tables {
    t.(enrolments := t.enrolments + VoidedRows(t, u))
  }

  function StoreHash(t: Tables, u: UserId, h: Hash): Tables {
    t.(passwords := t.passwords[u := h])
  }

  function Saturated(n: nat): nat {
    if n > U32_MAX then U32_MAX else n
  }

  predicate FitsPasswordColumn(h: Hash) {
    h.length <= MAX_ARGON2ID_HASH
  }

  // -------------------------------------------------------------------- redeem

  predicate Recorded(t: Tables, key: Option<Key>) {
    key.Some? && key.value in t.redemptions
  }

  // What a key already redeemed; read only when the key has a ledger row.
  function Replay(t: Tables, key: Key, presented: Secret): Answer
    requires key in t.redemptions
  {
    var r := t.redemptions[key];
    if r.secret != presented then Failed(InvalidArgument)
    else if r.owner !in t.users || r.secret !in t.enrolments then Failed(Unavailable)
    else Redeemed(r.owner, r.enrolment, t.users[r.owner].sealed, t.enrolments[r.secret].revoking, r.epoch, 0)
  }

  // Why a spend matched nothing.
  function Unredeemable(t: Tables, s: Secret): RedeemOutcome {
    if s !in t.enrolments || !LiveUser(t, t.enrolments[s].owner) then NoSuchEnrolment
    else if t.enrolments[s].spent then Spent
    else if t.enrolments[s].voided then Voided
    else Expired
  }

  // The tables after the spend, the bump and, on the enrolment's own
  // instruction, the revoke and the void.
  function SpentTables(t: Tables, s: Secret): Tables
    requires s in t.enrolments && t.enrolments[s].owner in t.users
  {
    var u := t.enrolments[s].owner;
    var bumped := Bump(Spend(t, s), u);
    if t.enrolments[s].revoking then VoidRows(RevokeRows(bumped, u), u) else bumped
  }

  function RedemptionRow(t: Tables, s: Secret): Redemption
    requires s in t.enrolments && t.enrolments[s].owner in t.users
  {
    var e := t.enrolments[s];
    Redemption(s, e.id, e.owner, t.users[e.owner].epoch + 1)
  }

  function RedeemedTables(t: Tables, key: Option<Key>, s: Secret, h: Hash): Tables
    requires s in t.enrolments && t.enrolments[s].owner in t.users
  {
    var stored := StoreHash(SpentTables(t, s), t.enrolments[s].owner, h);
    if key.None? then stored
    else stored.(redemptions := stored.redemptions[key.value := RedemptionRow(t, s)])
  }

  function RedeemedAnswer(t: Tables, s: Secret): Answer
    requires s in t.enrolments && t.enrolments[s].owner in t.users
  {
    var e := t.enrolments[s];
    Redeemed(e.owner, e.id, t.users[e.owner].sealed, e.revoking, t.users[e.owner].epoch + 1,
             if e.revoking then Saturated(|VoidedRows(Spend(t, s), e.owner)|) else 0)
  }

  function ServeRedeem(t: Tables, key: Option<Key>, s: Secret, h: Hash, now: nat): Reply {
    if Recorded(t, key) then Reply(t, Replay(t, key.value, s))
    else if !FitsPasswordColumn(h) then Reply(t, Failed(InvalidArgument))
    else if Redeemable(t, s, now) then Reply(RedeemedTables(t, key, s, h), RedeemedAnswer(t, s))
    else Reply(t, Unredeemed(Unredeemable(t, s)))
  }

  // ----------------------------------------------------------- the other calls

  function RevokedTables(t: Tables, u: UserId): Tables
    requires u in t.users
  {
    VoidRows(Bump(RevokeRows(t, u), u), u)
  }

  function ServeRevokeAll(t: Tables, u: UserId): Reply {
    if u !in t.users then Reply(t, Failed(NotFound))
    else Reply(RevokedTables(t, u),
               Revocation(Saturated(|RevokedRows(t, u)|), Saturated(|VoidedRows(t, u)|)))
  }

  function ServeSetPassword(t: Tables, u: UserId, h: Hash): Reply {
    if !FitsPasswordColumn(h) then Reply(t, Failed(InvalidArgument))
    else if !LiveUser(t, u) then Reply(t, Failed(NotFound))
    else Reply(StoreHash(Bump(t, u), u, h), Done)
  }

  // ADR-0656's "zero credentials": no password row and no credential row of any liveness.
  predicate NeverHeldCredential(t: Tables, u: UserId) {
    u !in t.passwords && forall c <- t.credentials :: t.credentials[c].owner != u
  }

  // Whether the INSERT ... SELECT of the chosen arm selects the target's row.
  predicate EnrolmentSelected(t: Tables, u: UserId, demand: bool) {
    LiveUser(t, u) && (demand ==> t.users[u].isAdmin && NeverHeldCredential(t, u))
  }

  predicate EnrolmentTaken(t: Tables, id: EnrolmentId, s: Secret) {
    s in t.enrolments || exists s' <- t.enrolments :: t.enrolments[s'].id == id
  }

  function ServeCreateEnrolment(t: Tables, id: EnrolmentId, u: UserId, s: Secret,
                                expires: Option<nat>, demand: bool, revoking: bool): Reply
  {
    if expires.None? || (demand && revoking) then Reply(t, Failed(InvalidArgument))
    else if !EnrolmentSelected(t, u, demand) then
      Reply(t, Failed(if LiveUser(t, u) then PermissionDenied else NotFound))
    else if EnrolmentTaken(t, id, s) then Reply(t, Failed(AlreadyExists))
    else Reply(t.(enrolments := t.enrolments[s := Enrolment(id, u, expires.value, revoking, false, false)]),
               Minted(id))
  }

  predicate CredentialTaken(t: Tables, id: CredentialId, token: Token) {
    id in t.credentials || exists c <- t.credentials :: t.credentials[c].token == token
  }

  function ServeCreateCredential(t: Tables, id: CredentialId, u: UserId, token: Token,
                                 expected: Option<nat>): Reply
  {
    if !LiveUser(t, u) then Reply(t, Failed(NotFound))
    else if expected.Some? && expected.value != t.users[u].epoch then Reply(t, Failed(FailedPrecondition))
    else if CredentialTaken(t, id, token) then Reply(t, Failed(Unavailable))
    else Reply(t.(credentials := t.credentials[id := Credential(u, token, false)]), Minted(id))
  }

  function ServeRevokeCredential(t: Tables, id: CredentialId, holder: Option<UserId>): Reply {
    if holder.None? then Reply(t, Failed(InvalidArgument))
    else if id !in t.credentials || t.credentials[id].owner != holder.value then Reply(t, Failed(NotFound))
    else Reply(t.(credentials := t.credentials[id := t.credentials[id].(revoked := true)]), Done)
  }

  // The person GetPasswordHash selects: live, with a password, under that blind index.
  predicate Selected(t: Tables, index: BlindIndex, u: UserId) {
    LiveUser(t, u) && u in t.passwords && t.users[u].index == index
  }

  ghost function ServeGetPasswordHash(t: Tables, index: BlindIndex): Reply {
    if u :| Selected(t, index, u) then Reply(t, PasswordHash(u, t.passwords[u], t.users[u].epoch))
    else Reply(t, NoPassword)
  }

  function ServeCreateUser(t: Tables, id: UserId, index: BlindIndex, sealed: Ciphertext, admin: bool): Reply {
    if id in t.users || exists u <- t.users :: t.users[u].index == index
    then Reply(t, Failed(AlreadyExists))
    else Reply(t.(users := t.users[id := User(true, admin, 0, index, sealed)]), Minted(id))
  }

  function ServeSetUserAdmin(t: Tables, u: UserId, admin: bool): Reply {
    if !LiveUser(t, u) then Reply(t, Failed(NotFound))
    else Reply(t.(users := t.users[u := t.users[u].(isAdmin := admin)]), Done)
  }

  // One call, one transition.
  ghost function Serve(t: Tables, c: Call): Reply {
    match c
    case CreateUser(id, index, sealed, admin) => ServeCreateUser(t, id, index, sealed, admin)
    case SetUserAdmin(u, admin) => ServeSetUserAdmin(t, u, admin)
    case CreateEnrolment(id, u, s, expires, demand, revoking) =>
      ServeCreateEnrolment(t, id, u, s, expires, demand, revoking)
    case Redeem(key, s, h, now) => ServeRedeem(t, key, s, h, now)
    case RevokeAll(u) => ServeRevokeAll(t, u)
    case RevokeCredential(id, holder) => ServeRevokeCredential(t, id, holder)
    case SetPassword(u, h) => ServeSetPassword(t, u, h)
    case GetPasswordHash(index) => ServeGetPasswordHash(t, index)
    case CreateCredential(id, u, token, expected) => ServeCreateCredential(t, id, u, token, expected)
  }

  // A run of whole calls: `states[i]` is what call `i` found.
  ghost predicate Run(states: seq<Tables>, calls: seq<Call>) {
    && |states| == |calls| + 1
    && Valid(states[0])
    && forall i | 0 <= i < |calls| :: states[i + 1] == Serve(states[i], calls[i]).tables
  }
}
