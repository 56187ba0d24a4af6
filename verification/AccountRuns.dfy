/** What holds over every run of whole calls. */
module AccountRuns {
  import opened Wrappers
  import opened SetSizes
  import opened Accounts

  // ------------------------------------------------------- what time can change

  ghost predicate EnrolmentLater(a: Enrolment, b: Enrolment) {
    && b.id == a.id && b.owner == a.owner && b.expires == a.expires && b.revoking == a.revoking
    && (a.spent ==> b.spent)
    && (a.voided ==> b.voided)
  }

  ghost predicate UserLater(a: User, b: User) {
    b.live == a.live && b.index == a.index && b.sealed == a.sealed && a.epoch <= b.epoch
  }

  ghost predicate CredentialLater(a: Credential, b: Credential) {
    b.owner == a.owner && b.token == a.token && (a.revoked ==> b.revoked)
  }

  ghost predicate UsersLater(a: map<UserId, User>, b: map<UserId, User>) {
    forall u <- a :: u in b && UserLater(a[u], b[u])
  }

  ghost predicate EnrolmentsLater(a: map<Secret, Enrolment>, b: map<Secret, Enrolment>) {
    forall s <- a :: s in b && EnrolmentLater(a[s], b[s])
  }

  ghost predicate CredentialsLater(a: map<CredentialId, Credential>, b: map<CredentialId, Credential>) {
    forall c <- a :: c in b && CredentialLater(a[c], b[c])
  }

  ghost predicate RedemptionsLater(a: map<Key, Redemption>, b: map<Key, Redemption>) {
    forall k <- a :: k in b && b[k] == a[k]
  }

  // No row is ever deleted, no epoch decreases, no mark is ever withdrawn and no
  // ledger row is ever rewritten.
  ghost predicate Later(a: Tables, b: Tables) {
    && UsersLater(a.users, b.users)
    && a.passwords.Keys <= b.passwords.Keys
    && EnrolmentsLater(a.enrolments, b.enrolments)
    && CredentialsLater(a.credentials, b.credentials)
    && RedemptionsLater(a.redemptions, b.redemptions)
  }

  lemma LaterTransitive(a: Tables, b: Tables, c: Tables)
    requires Later(a, b) && Later(b, c)
    ensures Later(a, c)
  {
  }

  // One statement's step: forward, and keeping every constraint.
  ghost predicate Keeps(t: Tables, t': Tables) {
    Valid(t') && Later(t, t')
  }

  lemma KeepsTransitive(a: Tables, b: Tables, c: Tables)
    requires Keeps(a, b) && Keeps(b, c)
    ensures Keeps(a, c)
  {
    LaterTransitive(a, b, c);
  }

  lemma BumpKeeps(t: Tables, u: UserId)
    requires Valid(t) && u in t.users
    ensures Keeps(t, Bump(t, u))
  {
  }

  lemma StoreHashKeeps(t: Tables, u: UserId, h: Hash)
    requires Valid(t) && u in t.users
    ensures Keeps(t, StoreHash(t, u, h))
  {
  }

  lemma RevokeRowsKeep(t: Tables, u: UserId)
    requires Valid(t)
    ensures Keeps(t, RevokeRows(t, u))
  {
  }

  lemma VoidRowsKeep(t: Tables, u: UserId)
    requires Valid(t)
    ensures Keeps(t, VoidRows(t, u))
  {
  }

  lemma SpendKeeps(t: Tables, s: Secret)
    requires Valid(t) && s in t.enrolments && !t.enrolments[s].voided
    ensures Keeps(t, Spend(t, s))
  {
  }

  lemma SpentTablesKeep(t: Tables, s: Secret)
    requires Valid(t) && s in t.enrolments && !t.enrolments[s].voided
    ensures Keeps(t, SpentTables(t, s))
    ensures SpentTables(t, s).users == Bump(t, t.enrolments[s].owner).users
    ensures SpentTables(t, s).enrolments[s] == t.enrolments[s].(spent := true)
    ensures SpentTables(t, s).redemptions == t.redemptions
  {
    var u := t.enrolments[s].owner;
    var t1 := Spend(t, s);
    SpendKeeps(t, s);
    var t2 := Bump(t1, u);
    BumpKeeps(t1, u);
    KeepsTransitive(t, t1, t2);
    if t.enrolments[s].revoking {
      var t3 := RevokeRows(t2, u);
      RevokeRowsKeep(t2, u);
      KeepsTransitive(t, t2, t3);
      VoidRowsKeep(t3, u);
      KeepsTransitive(t, t3, VoidRows(t3, u));
    }
  }

  lemma RedemptionKeeps(t: Tables, key: Option<Key>, s: Secret, h: Hash)
    requires Valid(t) && s in t.enrolments && !t.enrolments[s].voided && !Recorded(t, key)
    ensures Keeps(t, RedeemedTables(t, key, s, h))
  {
    SpentTablesKeep(t, s);
    var u, t1 := t.enrolments[s].owner, SpentTables(t, s);
    StoreHashKeeps(t1, u, h);
    KeepsTransitive(t, t1, StoreHash(t1, u, h));
    if key.Some? { LedgerInsertKeeps(StoreHash(t1, u, h), key.value, RedemptionRow(t, s)); }
  }

  lemma LedgerInsertKeeps(t: Tables, key: Key, row: Redemption)
    requires Valid(t) && key !in t.redemptions && LedgerRowHolds(row, t.enrolments, t.users)
    ensures Keeps(t, t.(redemptions := t.redemptions[key := row]))
  {
  }

  lemma RevocationKeeps(t: Tables, u: UserId)
    requires Valid(t) && u in t.users
    ensures Keeps(t, RevokedTables(t, u))
  {
    var t1 := RevokeRows(t, u);
    var t2 := Bump(t1, u);
    RevokeRowsKeep(t, u);
    BumpKeeps(t1, u);
    VoidRowsKeep(t2, u);
    KeepsTransitive(t, t1, t2);
    KeepsTransitive(t, t2, VoidRows(t2, u));
  }

  lemma PasswordKeeps(t: Tables, u: UserId, h: Hash)
    requires Valid(t)
    ensures Keeps(t, ServeSetPassword(t, u, h).tables)
  {
    if ServeSetPassword(t, u, h).answer.Done? {
      BumpKeeps(t, u);
      StoreHashKeeps(Bump(t, u), u, h);
      KeepsTransitive(t, Bump(t, u), StoreHash(Bump(t, u), u, h));
    }
  }

  lemma EnrolmentKeeps(t: Tables, id: EnrolmentId, u: UserId, s: Secret, expires: Option<nat>, demand: bool, revoking: bool)
    requires Valid(t)
    ensures Keeps(t, ServeCreateEnrolment(t, id, u, s, expires, demand, revoking).tables)
  {
  }

  lemma CredentialKeeps(t: Tables, id: CredentialId, u: UserId, token: Token, expected: Option<nat>)
    requires Valid(t)
    ensures Keeps(t, ServeCreateCredential(t, id, u, token, expected).tables)
  {
  }

  lemma RevokeCredentialKeeps(t: Tables, id: CredentialId, holder: Option<UserId>)
    requires Valid(t)
    ensures Keeps(t, ServeRevokeCredential(t, id, holder).tables)
  {
  }

  lemma CreateUserKeeps(t: Tables, id: UserId, index: BlindIndex, sealed: Ciphertext, admin: bool)
    requires Valid(t)
    ensures Keeps(t, ServeCreateUser(t, id, index, sealed, admin).tables)
  {
  }

  lemma SetUserAdminKeeps(t: Tables, u: UserId, admin: bool)
    requires Valid(t)
    ensures Keeps(t, ServeSetUserAdmin(t, u, admin).tables)
  {
  }

  // Every call keeps the constraints and the lifecycle, and only moves forward.
  lemma ServeKeeps(t: Tables, c: Call)
    requires Valid(t)
    ensures Valid(Serve(t, c).tables) && Later(t, Serve(t, c).tables)
  {
    match c
    case CreateUser(id, index, sealed, admin) => CreateUserKeeps(t, id, index, sealed, admin);
    case SetUserAdmin(u, admin) => SetUserAdminKeeps(t, u, admin);
    case CreateEnrolment(id, u, s, expires, demand, revoking) =>
      EnrolmentKeeps(t, id, u, s, expires, demand, revoking);
    case Redeem(key, s, h, now) =>
      if Serve(t, c).tables != t { RedemptionKeeps(t, key, s, h); }
    case RevokeAll(u) =>
      if u in t.users { RevocationKeeps(t, u); }
    case RevokeCredential(id, holder) => RevokeCredentialKeeps(t, id, holder);
    case SetPassword(u, h) => PasswordKeeps(t, u, h);
    case GetPasswordHash(_) =>
    case CreateCredential(id, u, token, expected) => CredentialKeeps(t, id, u, token, expected);
  }

  lemma {:induction false} RunKeeps(states: seq<Tables>, calls: seq<Call>, i: nat, j: nat)
    requires Run(states, calls) && i <= j < |states|
    ensures Valid(states[i]) && Valid(states[j]) && Later(states[i], states[j])
    decreases j
  {
    if j == 0 {
    } else if i == j {
      RunKeeps(states, calls, i - 1, j - 1);
      ServeKeeps(states[j - 1], calls[j - 1]);
    } else {
      RunKeeps(states, calls, i, j - 1);
      ServeKeeps(states[j - 1], calls[j - 1]);
      LaterTransitive(states[i], states[j - 1], states[j]);
    }
  }

  // -------------------------------------------------------------- epoch safety

  // Call `c` on `t` really redeems (a replay does not).
  ghost predicate Redeems(t: Tables, c: Call, s: Secret) {
    && c.Redeem? && c.secret == s
    && !Recorded(t, c.key)
    && FitsPasswordColumn(c.hash)
    && Redeemable(t, s, c.now)
  }

  // WHO BUMPS: every redemption, RevokeAllCredentials, SetPassword.
  ghost predicate Bumps(t: Tables, c: Call, u: UserId) {
    || (c == RevokeAll(u) && u in t.users)
    || (c.SetPassword? && c.user == u && FitsPasswordColumn(c.hash) && LiveUser(t, u))
    || (c.Redeem? && Redeems(t, c, c.secret) && t.enrolments[c.secret].owner == u)
  }

  // A revoke-all, or a redemption of an enrolment that carries the instruction.
  ghost predicate RevokesAll(t: Tables, c: Call, u: UserId) {
    || (c == RevokeAll(u) && u in t.users)
    || (c.Redeem? && Redeems(t, c, c.secret) && t.enrolments[c.secret].owner == u
        && t.enrolments[c.secret].revoking)
  }

  // The epoch moves by exactly one on a bump and on nothing else.
  lemma EpochStep(t: Tables, c: Call, u: UserId)
    requires Valid(t) && u in t.users
    ensures u in Serve(t, c).tables.users
    ensures Serve(t, c).tables.users[u].epoch == t.users[u].epoch + (if Bumps(t, c, u) then 1 else 0)
  {
    if c.Redeem? && Redeems(t, c, c.secret) { SpentTablesKeep(t, c.secret); }
  }

  lemma {:induction false} EpochCount(states: seq<Tables>, calls: seq<Call>, i: nat, j: nat, u: UserId)
    requires Run(states, calls) && i <= j < |states| && u in states[i].users
    ensures u in states[j].users
    ensures states[j].users[u].epoch == states[i].users[u].epoch + |BumpSteps(states, calls, i, j, u)|
    decreases j
  {
    if i < j {
      EpochCount(states, calls, i, j - 1, u);
      RunKeeps(states, calls, i, j - 1);
      EpochStep(states[j - 1], calls[j - 1], u);
      OneMoreStep(states, calls, i, j - 1, u);
    } else {
      NoSteps(states, calls, i, u);
    }
  }

  lemma NoSteps(states: seq<Tables>, calls: seq<Call>, i: nat, u: UserId)
    requires |states| == |calls| + 1 && i <= |calls|
    ensures BumpSteps(states, calls, i, i, u) == {}
  {
  }

  // THE EPOCH COUNTS THE BUMPS: over any run it grows by their number, so it never decreases,
  // and it is unchanged exactly when there was none.
  lemma EpochCountsBumps(states: seq<Tables>, calls: seq<Call>, i: nat, j: nat, u: UserId)
    requires Run(states, calls) && i <= j < |states| && u in states[i].users
    ensures u in states[j].users
    ensures states[j].users[u].epoch == states[i].users[u].epoch + |BumpSteps(states, calls, i, j, u)|
    ensures states[i].users[u].epoch == states[j].users[u].epoch
            <==> forall m | i <= m < j :: !Bumps(states[m], calls[m], u)
  {
    EpochCount(states, calls, i, j, u);
    var steps := BumpSteps(states, calls, i, j, u);
    assert |steps| == 0 <==> steps == {};
    if steps == {} {
      forall m | i <= m < j ensures !Bumps(states[m], calls[m], u) { assert m !in steps; }
    }
  }

  // The steps of `[i, j)` that bump `u`.
  ghost function BumpSteps(states: seq<Tables>, calls: seq<Call>, i: nat, j: nat, u: UserId): set<int>
    requires |states| == |calls| + 1 && i <= j <= |calls|
  {
    set m | i <= m < j && Bumps(states[m], calls[m], u)
  }

  lemma OneMoreStep(states: seq<Tables>, calls: seq<Call>, i: nat, j: nat, u: UserId)
    requires |states| == |calls| + 1 && i <= j < |calls|
    ensures |BumpSteps(states, calls, i, j + 1, u)|
            == |BumpSteps(states, calls, i, j, u)| + if Bumps(states[j], calls[j], u) then 1 else 0
  {
    if Bumps(states[j], calls[j], u) {
      SizeOfOneMore(BumpSteps(states, calls, i, j, u), j, BumpSteps(states, calls, i, j + 1, u));
    } else {
      assert BumpSteps(states, calls, i, j + 1, u) == BumpSteps(states, calls, i, j, u);
    }
  }

  lemma RevocationTables(t: Tables, u: UserId)
    requires u in t.users
    ensures Revoking(t, RevokedTables(t, u), u)
  {
  }

  lemma RedemptionTables(t: Tables, key: Option<Key>, s: Secret, h: Hash)
    requires s in t.enrolments && t.enrolments[s].owner in t.users && t.enrolments[s].revoking
    ensures Revoking(t, RedeemedTables(t, key, s, h), t.enrolments[s].owner)
  {
  }

  // Nothing of the person's survives it, and their epoch moved.
  ghost predicate Revoking(t: Tables, t': Tables, u: UserId) {
    && (forall x <- t'.credentials | t'.credentials[x].owner == u :: t'.credentials[x].revoked)
    && (forall s <- t.enrolments | t.enrolments[s].owner == u ::
          s in t'.enrolments && (t'.enrolments[s].spent || t'.enrolments[s].voided))
    && u in t.users && u in t'.users && t'.users[u].epoch == t.users[u].epoch + 1
    && t'.credentials.Keys == t.credentials.Keys
  }

  lemma RevokingTables(t: Tables, c: Call, u: UserId)
    requires Valid(t) && RevokesAll(t, c, u)
    ensures Revoking(t, Serve(t, c).tables, u)
  {
    if c.RevokeAll? { RevocationTables(t, u); } else { RedemptionTables(t, c.key, c.secret, c.hash); }
  }

  lemma RedemptionKeepsCredentialKeys(t: Tables, key: Option<Key>, s: Secret, h: Hash)
    requires s in t.enrolments && t.enrolments[s].owner in t.users
    ensures RedeemedTables(t, key, s, h).credentials.Keys == t.credentials.Keys
  {
  }

  lemma OnlyAMintAddsACredential(t: Tables, c: Call, x: CredentialId)
    requires x !in t.credentials && x in Serve(t, c).tables.credentials
    ensures c.CreateCredential? && c.credential == x && LiveUser(t, c.user)
    ensures c.user == Serve(t, c).tables.credentials[x].owner
    ensures c.expected.Some? ==> c.expected.value == t.users[c.user].epoch
  {
    if c.Redeem? && Serve(t, c).answer.Redeemed? && Serve(t, c).tables != t {
      RedemptionKeepsCredentialKeys(t, c.key, c.secret, c.hash);
    }
  }

  // The step at which a credential row appeared.
  lemma {:induction false} MintedAt(states: seq<Tables>, calls: seq<Call>, i: nat, j: nat, x: CredentialId)
      returns (m: nat)
    requires Run(states, calls) && i <= j < |states|
    requires x in states[j].credentials && x !in states[i].credentials
    ensures i <= m < j && x !in states[m].credentials && x in states[m + 1].credentials
    ensures calls[m].CreateCredential? && calls[m].credential == x
    ensures calls[m].user == states[j].credentials[x].owner
    ensures LiveUser(states[m], calls[m].user)
    ensures calls[m].expected.Some? ==> calls[m].expected.value == states[m].users[calls[m].user].epoch
    decreases j
  {
    RunKeeps(states, calls, j - 1, j);
    if x in states[j - 1].credentials {
      m := MintedAt(states, calls, i, j - 1, x);
    } else {
      m := j - 1;
      OnlyAMintAddsACredential(states[m], calls[m], x);
    }
  }

  // EPOCH SAFETY. After a revoke-all or a revoking redemption of `u` at step `i`,
  // every credential of `u` live in any later state was minted after it, at an
  // epoch at least the one it produced.
  lemma LiveCredentialsPostdateRevocation(states: seq<Tables>, calls: seq<Call>, i: nat, j: nat,
                                          u: UserId, x: CredentialId) returns (m: nat)
    requires Run(states, calls) && i < j < |states|
    requires RevokesAll(states[i], calls[i], u)
    requires x in states[j].credentials && states[j].credentials[x] == Credential(u, states[j].credentials[x].token, false)
    ensures i < m < j && calls[m].CreateCredential? && calls[m].credential == x && calls[m].user == u
    ensures x !in states[m].credentials && x in states[m + 1].credentials
    ensures u in states[i].users && u in states[i + 1].users && u in states[m].users
    ensures states[m].users[u].epoch >= states[i + 1].users[u].epoch > states[i].users[u].epoch
  {
    RunKeeps(states, calls, i, i + 1);
    RunKeeps(states, calls, i + 1, j);
    RevokingTables(states[i], calls[i], u);
    m := MintedAt(states, calls, i + 1, j, x);
    RunKeeps(states, calls, i + 1, m);
  }

  lemma CheckedMint(t: Tables, c: Call)
    requires c.CreateCredential? && c.expected.Some? && Serve(t, c).answer.Minted?
    ensures LiveUser(t, c.user) && t.users[c.user].epoch == c.expected.value
    ensures var t' := Serve(t, c).tables;
            c.credential in t'.credentials && t'.credentials[c.credential].owner == c.user
  {
  }

  lemma MintPrecedesRevocation(states: seq<Tables>, calls: seq<Call>, r: nat, i: nat, m: nat, u: UserId)
    requires Run(states, calls) && r <= i < |calls| && r <= m < |calls|
    requires u in states[r].users && RevokesAll(states[i], calls[i], u)
    requires calls[m].CreateCredential? && calls[m].user == u && calls[m].expected == Some(states[r].users[u].epoch)
    requires Serve(states[m], calls[m]).answer.Minted?
    ensures m < i
  {
    CheckedMint(states[m], calls[m]);
    RunKeeps(states, calls, r, i);
    RevokingTables(states[i], calls[i], u);
    if m > i { RunKeeps(states, calls, i + 1, m); }
  }

  // THE RACE THE EPOCH CLOSES. A Login that read its epoch before a revocation
  // committed never holds a live credential after it, whenever its mint ran.
  lemma NoLoginOutlivesRevocation(states: seq<Tables>, calls: seq<Call>, r: nat, i: nat, m: nat, j: nat, u: UserId)
    requires Run(states, calls) && r <= i < j < |states| && r <= m < |calls|
    requires u in states[r].users                                  // the read, at state r
    requires RevokesAll(states[i], calls[i], u)                    // the revocation, at step i
    requires calls[m].CreateCredential? && calls[m].user == u      // the Login's checked mint, at step m
    requires calls[m].expected == Some(states[r].users[u].epoch)
    requires Serve(states[m], calls[m]).answer.Minted?
    requires m < j
    ensures calls[m].credential in states[j].credentials
    ensures states[j].credentials[calls[m].credential].revoked
    ensures m < i
  {
    MintPrecedesRevocation(states, calls, r, i, m, u);
    CheckedMint(states[m], calls[m]);
    RunKeeps(states, calls, m + 1, i);
    RevokingTables(states[i], calls[i], u);
    RunKeeps(states, calls, i + 1, j);
  }

  // A checked mint is accepted exactly while the person is live, the epoch is the
  // one the caller read, and the id and token are unused.
  lemma CheckedMintExactly(t: Tables, id: CredentialId, u: UserId, token: Token, read: nat)
    ensures Serve(t, CreateCredential(id, u, token, Some(read))).answer.Minted?
            <==> LiveUser(t, u) && t.users[u].epoch == read && !CredentialTaken(t, id, token)
  {
  }

  // -------------------------------------------------------------------- replay

  ghost predicate SameRedemption(a: Answer, b: Answer) {
    && a.Redeemed? && b.Redeemed?
    && a.owner == b.owner && a.enrolment == b.enrolment && a.sealed == b.sealed
    && a.revoked == b.revoked && a.epoch == b.epoch
  }

  // REPLAY NEVER OUTLIVES A REVOCATION. The redemption of step `i` under `key` is
  // replayed in state `j` with nothing written, the first delivery's answer and its
  // recorded epoch; a mint under that epoch is refused for staleness exactly when
  // some bump of the person committed in between.
  lemma ReplayIsTheOriginal(states: seq<Tables>, calls: seq<Call>, i: nat, j: nat, h: Hash, now: nat)
    requires Run(states, calls) && i < j < |states|
    requires calls[i].Redeem? && calls[i].key.Some? && Redeems(states[i], calls[i], calls[i].secret)
    ensures var c := calls[i];
            var first := Serve(states[i], c).answer;
            var again := Serve(states[j], Redeem(c.key, c.secret, h, now));
            && again.tables == states[j]
            && first.Redeemed? && SameRedemption(first, again.answer) && again.answer.voided == 0
            && first.owner in states[j].users
            && (states[j].users[first.owner].epoch == first.epoch
                <==> forall m | i < m < j :: !Bumps(states[m], calls[m], first.owner))
  {
    var c := calls[i];
    RunKeeps(states, calls, i, i + 1);
    SpentTablesKeep(states[i], c.secret);
    assert states[i + 1].redemptions[c.key.value] == RedemptionRow(states[i], c.secret);
    RunKeeps(states, calls, i + 1, j);
    var k: Key := c.key.value;
    assert k in states[i + 1].redemptions;
    assert k in states[j].redemptions;
    EpochCountsBumps(states, calls, i + 1, j, states[i].enrolments[c.secret].owner);
  }

  lemma ReplayMintsUntilABump(states: seq<Tables>, calls: seq<Call>, i: nat, j: nat, h: Hash, now: nat,
                              id: CredentialId, token: Token)
    requires Run(states, calls) && i < j < |states|
    requires calls[i].Redeem? && calls[i].key.Some? && Redeems(states[i], calls[i], calls[i].secret)
    requires !CredentialTaken(states[j], id, token)
    ensures var again := Serve(states[j], Redeem(calls[i].key, calls[i].secret, h, now)).answer;
            && again.Redeemed?
            && (Serve(states[j], CreateCredential(id, again.owner, token, Some(again.epoch))).answer.Minted?
                <==> LiveUser(states[j], again.owner)
                     && forall m | i < m < j :: !Bumps(states[m], calls[m], again.owner))
  {
    ReplayIsTheOriginal(states, calls, i, j, h, now);
    var again := Serve(states[j], Redeem(calls[i].key, calls[i].secret, h, now)).answer;
    CheckedMintExactly(states[j], id, again.owner, token, again.epoch);
  }

  // ----------------------------------------------------------------- lifecycle

  // After a zero-row spend the answer names exactly the condition that failed.
  lemma UnredeemableNamesTheCause(t: Tables, s: Secret, now: nat)
    requires Valid(t) && !Redeemable(t, s, now)
    ensures Unredeemable(t, s) == NoSuchEnrolment <==> s !in t.enrolments || !LiveUser(t, t.enrolments[s].owner)
    ensures s in t.enrolments && LiveUser(t, t.enrolments[s].owner) ==>
              var e := t.enrolments[s];
              && (Unredeemable(t, s) == Spent <==> e.spent)
              && (Unredeemable(t, s) == Voided <==> e.voided)
              && (Unredeemable(t, s) == Expired <==> !e.spent && !e.voided && e.expires <= now)
  {
  }

  lemma SecretRedeemsAtMostOnce(states: seq<Tables>, calls: seq<Call>, i: nat, j: nat, s: Secret)
    requires Run(states, calls) && i < |calls| && j < |calls|
    requires Redeems(states[i], calls[i], s) && Redeems(states[j], calls[j], s)
    ensures i == j
  {
    var a, b := if i < j then i else j, if i < j then j else i;
    if a < b {
      RunKeeps(states, calls, a, a + 1);
      SpentTablesKeep(states[a], s);
      RunKeeps(states, calls, a + 1, b);
    }
  }

  // A revoke-all or a revoking redemption leaves no earlier enrolment of that
  // person redeemable, ever again and whatever the clock says.
  lemma RevocationEndsEnrolments(states: seq<Tables>, calls: seq<Call>, i: nat, j: nat, u: UserId, s: Secret, now: nat)
    requires Run(states, calls) && i < j < |states| && RevokesAll(states[i], calls[i], u)
    requires s in states[i].enrolments && states[i].enrolments[s].owner == u
    ensures !Redeemable(states[j], s, now)
    ensures s in states[j].enrolments && states[j].enrolments[s].spent != states[j].enrolments[s].voided
  {
    RunKeeps(states, calls, i, i + 1);
    RevokingTables(states[i], calls[i], u);
    RunKeeps(states, calls, i + 1, j);
  }

  // --------------------------------------------------------------- idempotence

  ghost predicate Delivery(c: Call, key: Key, s: Secret) {
    c.Redeem? && c.key == Some(key) && c.secret == s && FitsPasswordColumn(c.hash)
  }

  // No delivery of `s` refused before step `r` was refused at a later clock than `r`'s.
  ghost predicate RefusedNoLater(states: seq<Tables>, calls: seq<Call>, s: Secret, r: nat)
    requires |states| == |calls| + 1 && r < |calls| && calls[r].Redeem?
  {
    forall i | 0 <= i < r && calls[i].Redeem? && calls[i].secret == s
      :: Serve(states[i], calls[i]).answer.Unredeemed? ==> calls[i].now <= calls[r].now
  }

  lemma NoEarlierDelivery(states: seq<Tables>, calls: seq<Call>, key: Key, s: Secret, i: nat, r: nat)
    requires Run(states, calls) && i < r < |calls| && s in states[i].enrolments
    requires Delivery(calls[r], key, s) && Redeems(states[r], calls[r], s) && RefusedNoLater(states, calls, s, r)
    ensures !Delivery(calls[i], key, s)
  {
    if Delivery(calls[i], key, s) {
      RunKeeps(states, calls, i, r);
      assert key !in states[i].redemptions;
      assert Redeemable(states[i], s, calls[i].now);
      SecretRedeemsAtMostOnce(states, calls, i, r, s);
    }
  }

  lemma DeliveredBeforeEnrolment(states: seq<Tables>, calls: seq<Call>, key: Key, s: Secret, r: nat, i: nat)
    requires Run(states, calls) && r < |calls| && i < |calls| && s !in states[i].enrolments
    requires Redeems(states[r], calls[r], s) && Delivery(calls[r], key, s) && Delivery(calls[i], key, s)
    ensures i < r && Serve(states[i], calls[i]) == Reply(states[i], Unredeemed(NoSuchEnrolment))
  {
    if r <= i {
      RunKeeps(states, calls, r, i);
    } else {
      RunKeeps(states, calls, i, r);
      assert key !in states[i].redemptions;
    }
  }

  // IDEMPOTENCE. If the pair redeems at all, at step `r`, then every delivery of it that
  // finds the enrolment in the tables answers REDEEMED with one user, one enrolment and one
  // epoch, only step `r` spends, and the ledger holds that one row for ever. One that came
  // before the enrolment was there wrote nothing and was told so.
  lemma EveryDeliveryAnswersRedeemed(states: seq<Tables>, calls: seq<Call>, key: Key, s: Secret, r: nat, i: nat)
    requires Run(states, calls) && r < |calls| && i < |calls|
    requires Delivery(calls[r], key, s) && Redeems(states[r], calls[r], s) && RefusedNoLater(states, calls, s, r)
    requires Delivery(calls[i], key, s)
    ensures s in states[i].enrolments ==>
              r <= i && SameRedemption(Serve(states[r], calls[r]).answer, Serve(states[i], calls[i]).answer)
    ensures s !in states[i].enrolments ==> i < r && Serve(states[i], calls[i]).answer == Unredeemed(NoSuchEnrolment)
    ensures i != r ==> states[i + 1] == states[i]
  {
    if s !in states[i].enrolments {
      DeliveredBeforeEnrolment(states, calls, key, s, r, i);
    } else {
      if i < r { NoEarlierDelivery(states, calls, key, s, i, r); }
      if r < i { ReplayIsTheOriginal(states, calls, r, i, calls[i].hash, calls[i].now); }
    }
  }

  // The redemption's one ledger row, in every later state.
  lemma RedemptionIsRecorded(states: seq<Tables>, calls: seq<Call>, key: Key, s: Secret, r: nat, j: nat)
    requires Run(states, calls) && r < j < |states| && Delivery(calls[r], key, s) && Redeems(states[r], calls[r], s)
    ensures s in states[r].enrolments && states[r].enrolments[s].owner in states[r].users
    ensures key in states[j].redemptions && states[j].redemptions[key] == RedemptionRow(states[r], s)
  {
    RunKeeps(states, calls, r, r + 1);
    SpentTablesKeep(states[r], s);
    RunKeeps(states, calls, r + 1, j);
  }

  // --------------------------------------------------------------- the demand

  // PERMANENT EXCLUSION. If the bootstrap demand mints an enrolment at step `i`, its
  // target was a live administrator then, and in no state up to then did it hold a
  // password or a credential row of any liveness.
  lemma DemandReachesOnlyTheUncredentialed(states: seq<Tables>, calls: seq<Call>, i: nat, j: nat)
    requires Run(states, calls) && j <= i < |calls|
    requires calls[i].CreateEnrolment? && calls[i].demand
    requires Serve(states[i], calls[i]).answer.Minted?
    ensures LiveUser(states[i], calls[i].user) && states[i].users[calls[i].user].isAdmin
    ensures NeverHeldCredential(states[j], calls[i].user)
  {
    RunKeeps(states, calls, j, i);
  }
}
