/**
Each RPC told from the tables before and after it: when it changes anything, every row it
changes and every row it leaves, and that its answer describes the change. Written on the
fields of the rows, beside the transition functions and not through them.
*/
module AccountContracts {
  import opened Wrappers
  import opened Accounts
  import opened AccountRuns

  // ------------------------------------------------------------------------------ redeem

  // The key is free, the hash fits its column, and the enrolment is there, unspent, not voided,
  // not past its deadline and a living person's.
  ghost predicate MayRedeem(t: Tables, key: Option<Key>, s: Secret, h: Hash, now: nat) {
    && (key.Some? ==> key.value !in t.redemptions) && h.length <= 255
    && s in t.enrolments && !t.enrolments[s].spent && !t.enrolments[s].voided && now < t.enrolments[s].expires
    && t.enrolments[s].owner in t.users && t.users[t.enrolments[s].owner].live
  }

  // A REDEEM CHANGES THE TABLES EXACTLY WHEN IT MAY.
  lemma RedeemChangesExactly(t: Tables, key: Option<Key>, s: Secret, h: Hash, now: nat)
    ensures Serve(t, Redeem(key, s, h, now)).tables != t <==> MayRedeem(t, key, s, h, now)
  {
    var t' := Serve(t, Redeem(key, s, h, now)).tables;
    if MayRedeem(t, key, s, h, now) {
      var u := t.enrolments[s].owner;
      assert t'.users[u].epoch == t.users[u].epoch + 1;
    }
  }

  // The enrolments a redemption of `s` leaves: `s` spent and, on its instruction, every other
  // open one of the person voided.
  function EnrolmentAfter(e: Enrolment, isIt: bool, withdrawn: bool): Enrolment {
    if isIt then e.(spent := true)
    else if withdrawn && !e.spent && !e.voided then e.(voided := true) else e
  }

  ghost predicate RedeemedRows(t: Tables, t': Tables, s: Secret, h: Hash)
    requires s in t.enrolments && t.enrolments[s].owner in t.users
  {
    var e := t.enrolments[s];
    && t'.users == t.users[e.owner := t.users[e.owner].(epoch := t.users[e.owner].epoch + 1)]
    && t'.passwords == t.passwords[e.owner := h]
    && t'.enrolments.Keys == t.enrolments.Keys && t'.credentials.Keys == t.credentials.Keys
    && (forall x <- t.enrolments ::
          t'.enrolments[x] == EnrolmentAfter(t.enrolments[x], x == s, e.revoking && t.enrolments[x].owner == e.owner))
    && (forall c <- t.credentials ::
          t'.credentials[c] == if e.revoking && t.credentials[c].owner == e.owner
                               then t.credentials[c].(revoked := true) else t.credentials[c])
  }

  function NewlyVoided(t: Tables, t': Tables): set<Secret> {
    set x | x in t.enrolments && x in t'.enrolments && !t.enrolments[x].voided && t'.enrolments[x].voided
  }

  function NewlyRevoked(t: Tables, t': Tables): set<CredentialId> {
    set c | c in t.credentials && c in t'.credentials && !t.credentials[c].revoked && t'.credentials[c].revoked
  }

  function AtMostU32(n: nat): nat {
    if n > 0xFFFF_FFFF then 0xFFFF_FFFF else n
  }

  lemma RedemptionEnrolments(t: Tables, key: Option<Key>, s: Secret, h: Hash)
    requires s in t.enrolments && t.enrolments[s].owner in t.users && !t.enrolments[s].spent && !t.enrolments[s].voided
    ensures var t', e := RedeemedTables(t, key, s, h), t.enrolments[s];
            && t'.enrolments.Keys == t.enrolments.Keys
            && forall x <- t.enrolments ::
                 t'.enrolments[x] == EnrolmentAfter(t.enrolments[x], x == s, e.revoking && t.enrolments[x].owner == e.owner)
  {
  }

  lemma RedemptionCredentials(t: Tables, key: Option<Key>, s: Secret, h: Hash)
    requires s in t.enrolments && t.enrolments[s].owner in t.users
    ensures var t', e := RedeemedTables(t, key, s, h), t.enrolments[s];
            && t'.credentials.Keys == t.credentials.Keys
            && forall c <- t.credentials ::
                 t'.credentials[c] == if e.revoking && t.credentials[c].owner == e.owner
                                      then t.credentials[c].(revoked := true) else t.credentials[c]
  {
  }

  lemma RedemptionPerson(t: Tables, key: Option<Key>, s: Secret, h: Hash)
    requires s in t.enrolments && t.enrolments[s].owner in t.users
    ensures var t', u := RedeemedTables(t, key, s, h), t.enrolments[s].owner;
            && t'.users == t.users[u := t.users[u].(epoch := t.users[u].epoch + 1)]
            && t'.passwords == t.passwords[u := h]
  {
  }

  lemma MayRedeemIsServed(t: Tables, key: Option<Key>, s: Secret, h: Hash, now: nat)
    requires MayRedeem(t, key, s, h, now)
    ensures Serve(t, Redeem(key, s, h, now)).tables == RedeemedTables(t, key, s, h)
  {
  }

  lemma RedemptionRows(t: Tables, key: Option<Key>, s: Secret, h: Hash, now: nat)
    requires MayRedeem(t, key, s, h, now)
    ensures RedeemedRows(t, Serve(t, Redeem(key, s, h, now)).tables, s, h)
  {
    MayRedeemIsServed(t, key, s, h, now);
    RedemptionPerson(t, key, s, h);
    RedemptionEnrolments(t, key, s, h);
    RedemptionCredentials(t, key, s, h);
  }

  lemma VoidedByRedemption(t: Tables, t': Tables, s: Secret, h: Hash)
    requires s in t.enrolments && t.enrolments[s].owner in t.users && !t.enrolments[s].spent && !t.enrolments[s].voided
    requires RedeemedRows(t, t', s, h)
    ensures t.enrolments[s].revoking ==> NewlyVoided(t, t') == VoidedRows(Spend(t, s), t.enrolments[s].owner).Keys
    ensures !t.enrolments[s].revoking ==> NewlyVoided(t, t') == {}
  {
    var e := t.enrolments[s];
    forall x ensures e.revoking ==> (x in NewlyVoided(t, t') <==> x in VoidedRows(Spend(t, s), e.owner))
             ensures !e.revoking ==> x !in NewlyVoided(t, t')
    {
      if x in t.enrolments { assert t'.enrolments[x] == EnrolmentAfter(t.enrolments[x], x == s, e.revoking && t.enrolments[x].owner == e.owner); }
    }
  }

  lemma RedemptionVoids(t: Tables, key: Option<Key>, s: Secret, h: Hash, now: nat)
    requires MayRedeem(t, key, s, h, now)
    ensures var r := Serve(t, Redeem(key, s, h, now));
            r.answer.Redeemed? && r.answer.voided == AtMostU32(|NewlyVoided(t, r.tables)|)
  {
    RedemptionRows(t, key, s, h, now);
    VoidedByRedemption(t, Serve(t, Redeem(key, s, h, now)).tables, s, h);
  }

  // A REDEMPTION'S ANSWER DESCRIBES WHAT IT DID: the person whose epoch moved and the epoch it
  // moved to, the enrolment now spent and its instruction, how many were voided; and a keyed one
  // is in the ledger under exactly those.
  lemma RedemptionIsDescribed(t: Tables, key: Option<Key>, s: Secret, h: Hash, now: nat)
    requires MayRedeem(t, key, s, h, now)
    ensures var r, e := Serve(t, Redeem(key, s, h, now)), t.enrolments[s];
            var t' := r.tables;
            && RedeemedRows(t, t', s, h)
            && r.answer == Redeemed(e.owner, e.id, t.users[e.owner].sealed, e.revoking, t'.users[e.owner].epoch,
                                    AtMostU32(|NewlyVoided(t, t')|))
            && t'.redemptions == (if key.None? then t.redemptions
                                  else t.redemptions[key.value := Redemption(s, e.id, e.owner, t'.users[e.owner].epoch)])
  {
    RedemptionRows(t, key, s, h, now);
    RedemptionVoids(t, key, s, h, now);
  }

  // A REDEEM THAT CHANGES NOTHING SAYS WHY: the key's own redemption to its own secret, a refusal
  // of the key to any other, a hash that is too long, or the condition of the enrolment.
  lemma RefusedRedeemSaysWhy(t: Tables, key: Option<Key>, s: Secret, h: Hash, now: nat)
    requires Valid(t) && !MayRedeem(t, key, s, h, now)
    ensures var a := Serve(t, Redeem(key, s, h, now)).answer;
            if key.Some? && key.value in t.redemptions then
              var row := t.redemptions[key.value];
              && (row.secret != s ==> a == Failed(InvalidArgument))
              && (row.secret == s ==>
                    && row.owner in t.users && s in t.enrolments
                    && a == Redeemed(row.owner, row.enrolment, t.users[row.owner].sealed, t.enrolments[s].revoking, row.epoch, 0))
            else if h.length > 255 then a == Failed(InvalidArgument)
            else if s !in t.enrolments || !t.users[t.enrolments[s].owner].live then a == Unredeemed(NoSuchEnrolment)
            else if t.enrolments[s].spent then a == Unredeemed(RedeemOutcome.Spent)
            else if t.enrolments[s].voided then a == Unredeemed(Voided)
            else t.enrolments[s].expires <= now && a == Unredeemed(Expired)
  {
    if key.Some? { var k: Key := key.value; }
  }

  // A KEY NAMES ONE SECRET FOR EVER. Once a key has redeemed a secret, every later delivery of the
  // key with another secret changes nothing and is refused, in any run.
  lemma KeyNamesOneSecret(states: seq<Tables>, calls: seq<Call>, i: nat, j: nat, key: Key)
    requires Run(states, calls) && i < j < |calls|
    requires calls[i].Redeem? && calls[i].key == Some(key) && states[i + 1] != states[i]
    requires calls[j].Redeem? && calls[j].key == Some(key) && calls[j].secret != calls[i].secret
    ensures states[j + 1] == states[j] && Serve(states[j], calls[j]).answer == Failed(InvalidArgument)
  {
    var a, b := calls[i], calls[j];
    RunKeeps(states, calls, i, i + 1);
    RedeemChangesExactly(states[i], a.key, a.secret, a.hash, a.now);
    RedemptionIsDescribed(states[i], a.key, a.secret, a.hash, a.now);
    assert key in states[i + 1].redemptions && states[i + 1].redemptions[key].secret == a.secret;
    RunKeeps(states, calls, i + 1, j);
    assert !MayRedeem(states[j], b.key, b.secret, b.hash, b.now);
    RedeemChangesExactly(states[j], b.key, b.secret, b.hash, b.now);
    RefusedRedeemSaysWhy(states[j], b.key, b.secret, b.hash, b.now);
  }

  // The runs' notion of a redemption is a Redeem that changed the tables.
  lemma RedeemsExactly(t: Tables, c: Call)
    requires c.Redeem? && Valid(t)
    ensures Redeems(t, c, c.secret) <==> Serve(t, c).tables != t
  {
    RedeemChangesExactly(t, c.key, c.secret, c.hash, c.now);
  }

  // So is what the runs call a bump and a revocation of everything.
  lemma BumpsExactly(t: Tables, c: Call, u: UserId)
    requires Valid(t) && u in t.users
    ensures Bumps(t, c, u) <==> Serve(t, c).tables.users[u].epoch != t.users[u].epoch
    ensures RevokesAll(t, c, u) <==>
              || c == RevokeAll(u)
              || (c.Redeem? && Serve(t, c).tables != t && c.secret in t.enrolments
                  && t.enrolments[c.secret].owner == u && t.enrolments[c.secret].revoking)
  {
    EpochStep(t, c, u);
    if c.Redeem? { RedeemsExactly(t, c); }
  }

  // ----------------------------------------------------------------------------- revoke-all

  lemma RevocationEnrolments(t: Tables, u: UserId)
    requires u in t.users
    ensures var t' := RevokedTables(t, u);
            && t'.enrolments.Keys == t.enrolments.Keys
            && forall x <- t.enrolments :: t'.enrolments[x] == EnrolmentAfter(t.enrolments[x], false, t.enrolments[x].owner == u)
  {
  }

  lemma RevocationCredentials(t: Tables, u: UserId)
    requires u in t.users
    ensures var t' := RevokedTables(t, u);
            && t'.credentials.Keys == t.credentials.Keys
            && forall c <- t.credentials ::
                 t'.credentials[c] == if t.credentials[c].owner == u then t.credentials[c].(revoked := true) else t.credentials[c]
  {
  }

  ghost predicate WithdrawnRows(t: Tables, t': Tables, u: UserId)
    requires u in t.users
  {
    && t'.users == t.users[u := t.users[u].(epoch := t.users[u].epoch + 1)]
    && t'.passwords == t.passwords && t'.redemptions == t.redemptions
    && t'.enrolments.Keys == t.enrolments.Keys && t'.credentials.Keys == t.credentials.Keys
    && (forall x <- t.enrolments :: t'.enrolments[x] == EnrolmentAfter(t.enrolments[x], false, t.enrolments[x].owner == u))
    && (forall c <- t.credentials ::
          t'.credentials[c] == if t.credentials[c].owner == u then t.credentials[c].(revoked := true) else t.credentials[c])
  }

  // REVOKE-ALL: every credential of the person revoked and every open enrolment voided, one
  // epoch on, nobody else's rows touched. Only a person without a row is refused.
  lemma RevokeAllIsDescribed(t: Tables, u: UserId)
    ensures var r := Serve(t, RevokeAll(u));
            if u in t.users then WithdrawnRows(t, r.tables, u) else r == Reply(t, Failed(NotFound))
  {
    if u in t.users {
      RevocationEnrolments(t, u);
      RevocationCredentials(t, u);
    }
  }

  // Its two counts are those of the rows that changed.
  lemma RevokeAllCounts(t: Tables, u: UserId)
    requires u in t.users
    ensures var r := Serve(t, RevokeAll(u));
            r.answer == Revocation(AtMostU32(|NewlyRevoked(t, r.tables)|), AtMostU32(|NewlyVoided(t, r.tables)|))
  {
    var r := Serve(t, RevokeAll(u));
    RevokeAllIsDescribed(t, u);
    assert NewlyRevoked(t, r.tables) == RevokedRows(t, u).Keys;
    assert NewlyVoided(t, r.tables) == VoidedRows(t, u).Keys;
  }

  // -------------------------------------------------------------------------- single rows

  // SET PASSWORD: a hash of at most 255 characters for a living person, with one bump; no other
  // row.
  lemma SetPasswordExactly(t: Tables, u: UserId, h: Hash)
    ensures var r := Serve(t, SetPassword(u, h));
            if h.length > 255 then r == Reply(t, Failed(InvalidArgument))
            else if u !in t.users || !t.users[u].live then r == Reply(t, Failed(NotFound))
            else
              && r.answer == Done && r.tables.passwords == t.passwords[u := h]
              && r.tables.users == t.users[u := t.users[u].(epoch := t.users[u].epoch + 1)]
              && r.tables.enrolments == t.enrolments && r.tables.credentials == t.credentials && r.tables.redemptions == t.redemptions
  {
  }

  // WITHDRAW ONE CREDENTIAL: the pair must match; then that row is revoked and no other changes.
  lemma RevokeCredentialExactly(t: Tables, x: CredentialId, u: UserId)
    ensures var r := Serve(t, RevokeCredential(x, Some(u)));
            var owned := x in t.credentials && t.credentials[x].owner == u;
            && r.answer == (if owned then Done else Failed(NotFound))
            && (!owned ==> r.tables == t)
            && (owned ==>
                  && x in r.tables.credentials && r.tables.credentials[x] == Credential(u, t.credentials[x].token, true)
                  && (forall c <- t.credentials :: c != x ==> c in r.tables.credentials && r.tables.credentials[c] == t.credentials[c])
                  && r.tables == t.(credentials := r.tables.credentials) && r.tables.credentials.Keys == t.credentials.Keys)
    ensures Serve(t, RevokeCredential(x, None)) == Reply(t, Failed(InvalidArgument))
  {
  }

  // CREATE ENROLMENT: minted exactly for a living person, with a deadline, under an unused id and
  // secret, and for the bootstrap demand only for an administrator with no password and no
  // credential of any liveness who asks for no revocation; the row is new, open and as asked.
  lemma CreateEnrolmentExactly(t: Tables, id: EnrolmentId, u: UserId, s: Secret, expires: Option<nat>, demand: bool, revoking: bool)
    ensures var r := Serve(t, CreateEnrolment(id, u, s, expires, demand, revoking));
            var live := u in t.users && t.users[u].live;
            var barred := demand && live && (!t.users[u].isAdmin || u in t.passwords || exists c <- t.credentials :: t.credentials[c].owner == u);
            if expires.None? || (demand && revoking) then r == Reply(t, Failed(InvalidArgument))
            else if !live then r == Reply(t, Failed(NotFound))
            else if barred then r == Reply(t, Failed(PermissionDenied))
            else if s in t.enrolments || exists x <- t.enrolments :: t.enrolments[x].id == id then r == Reply(t, Failed(AlreadyExists))
            else
              && r.answer == Minted(id) && s !in t.enrolments
              && r.tables == t.(enrolments := t.enrolments[s := Enrolment(id, u, expires.value, revoking, false, false)])
  {
    if u in t.passwords || exists c <- t.credentials :: t.credentials[c].owner == u {
      assert !NeverHeldCredential(t, u);
    } else {
      assert NeverHeldCredential(t, u);
    }
  }

  // CREATE CREDENTIAL: minted exactly for a living person, at the epoch the caller read if it read
  // one, under an unused id and token; the row is new, live and as asked.
  lemma CreateCredentialExactly(t: Tables, id: CredentialId, u: UserId, token: Token, expected: Option<nat>)
    ensures var r := Serve(t, CreateCredential(id, u, token, expected));
            if u !in t.users || !t.users[u].live then r == Reply(t, Failed(NotFound))
            else if expected.Some? && t.users[u].epoch != expected.value then r == Reply(t, Failed(FailedPrecondition))
            else if id in t.credentials || exists c <- t.credentials :: t.credentials[c].token == token then r == Reply(t, Failed(Unavailable))
            else r == Reply(t.(credentials := t.credentials[id := Credential(u, token, false)]), Minted(id))
  {
  }

  // THE PASSWORD READ: the one living person under the index who has a password, with the hash and
  // the epoch of one state; nobody otherwise; no row changes.
  lemma GetPasswordHashExactly(t: Tables, index: BlindIndex, u: UserId)
    requires UniqueIndexes(t.users)
    ensures Serve(t, GetPasswordHash(index)).tables == t
    ensures u in t.users && t.users[u].index == index && t.users[u].live && u in t.passwords ==>
              Serve(t, GetPasswordHash(index)).answer == PasswordHash(u, t.passwords[u], t.users[u].epoch)
    ensures (forall v <- t.users :: t.users[v].index == index && t.users[v].live ==> v !in t.passwords) ==>
              Serve(t, GetPasswordHash(index)).answer == NoPassword
  {
    if u in t.users && t.users[u].index == index && t.users[u].live && u in t.passwords { assert Selected(t, index, u); }
  }

  // CREATE USER: under an unused id and index, live, at epoch zero, with the flag asked for.
  lemma CreateUserExactly(t: Tables, id: UserId, index: BlindIndex, sealed: Ciphertext, admin: bool)
    ensures var r := Serve(t, CreateUser(id, index, sealed, admin));
            if id in t.users || exists u <- t.users :: t.users[u].index == index then r == Reply(t, Failed(AlreadyExists))
            else r == Reply(t.(users := t.users[id := User(true, admin, 0, index, sealed)]), Minted(id))
  {
  }

  lemma SetUserAdminExactly(t: Tables, u: UserId, admin: bool)
    ensures var r := Serve(t, SetUserAdmin(u, admin));
            if u !in t.users || !t.users[u].live then r == Reply(t, Failed(NotFound))
            else
              && r.answer == Done && r.tables == t.(users := r.tables.users) && r.tables.users.Keys == t.users.Keys
              && (forall v <- t.users :: r.tables.users[v] == if v == u then t.users[v].(isAdmin := admin) else t.users[v])
  {
  }

  // ------------------------------------------------------------------------- over runs

  // WITHDRAWN FOR EVER. A credential whose withdrawal was answered Done is its holder's and is
  // revoked in every later state of the run.
  lemma WithdrawnForEver(states: seq<Tables>, calls: seq<Call>, i: nat, j: nat, x: CredentialId, u: UserId)
    requires Run(states, calls) && i < j < |states| && calls[i] == RevokeCredential(x, Some(u))
    requires Serve(states[i], calls[i]).answer == Done
    ensures x in states[j].credentials && states[j].credentials[x].owner == u && states[j].credentials[x].revoked
  {
    RevokeCredentialExactly(states[i], x, u);
    RunKeeps(states, calls, i + 1, j);
  }

  // The call stored a password for `u`: a password write that was done, or a redemption.
  ghost predicate Stores(t: Tables, c: Call, u: UserId, h: Hash) {
    || (c == SetPassword(u, h) && Serve(t, c).answer == Done)
    || (c.Redeem? && c.hash == h && Serve(t, c).tables != t && c.secret in t.enrolments && t.enrolments[c.secret].owner == u)
  }

  lemma StoredNow(t: Tables, c: Call, u: UserId, h: Hash)
    requires Valid(t) && Stores(t, c, u, h)
    ensures u in Serve(t, c).tables.passwords && Serve(t, c).tables.passwords[u] == h
  {
    if c.Redeem? {
      RedeemChangesExactly(t, c.key, c.secret, c.hash, c.now);
      RedemptionIsDescribed(t, c.key, c.secret, c.hash, c.now);
    } else {
      SetPasswordExactly(t, u, h);
    }
  }

  lemma StoredStays(t: Tables, c: Call, u: UserId)
    requires Valid(t) && u in t.passwords && forall h :: !Stores(t, c, u, h)
    ensures u in Serve(t, c).tables.passwords && Serve(t, c).tables.passwords[u] == t.passwords[u]
  {
    match c
    case Redeem(key, s, h, now) =>
      RedeemChangesExactly(t, key, s, h, now);
      assert !Stores(t, c, u, h);
      if Serve(t, c).tables != t { RedemptionIsDescribed(t, key, s, h, now); }
    case SetPassword(v, h) =>
      SetPasswordExactly(t, v, h);
      assert !Stores(t, c, u, h);
    case RevokeAll(v) => RevokeAllIsDescribed(t, v);
    case GetPasswordHash(index) => GetPasswordHashExactly(t, index, u);
    case _ =>
  }

  lemma {:induction false} StoredUntilTheNext(states: seq<Tables>, calls: seq<Call>, i: nat, j: nat, u: UserId, h: Hash)
    requires Run(states, calls) && i < j < |states| && Stores(states[i], calls[i], u, h)
    requires forall m, h' | i < m < j :: !Stores(states[m], calls[m], u, h')
    ensures u in states[j].passwords && states[j].passwords[u] == h
    decreases j
  {
    RunKeeps(states, calls, i, j - 1);
    if j - 1 == i {
      StoredNow(states[i], calls[i], u, h);
    } else {
      StoredUntilTheNext(states, calls, i, j - 1, u, h);
      StoredStays(states[j - 1], calls[j - 1], u);
    }
  }

  // A STORED HASH IS THE ONE READ BACK, with the person's epoch of the moment, until the next
  // password write or redemption of theirs.
  lemma PasswordReadsBack(states: seq<Tables>, calls: seq<Call>, i: nat, j: nat, u: UserId, h: Hash)
    requires Run(states, calls) && i < j < |states| && Stores(states[i], calls[i], u, h)
    requires forall m, h' | i < m < j :: !Stores(states[m], calls[m], u, h')
    ensures u in states[j].users && states[j].users[u].live
    ensures Serve(states[j], GetPasswordHash(states[j].users[u].index)).answer == PasswordHash(u, h, states[j].users[u].epoch)
  {
    StoredUntilTheNext(states, calls, i, j, u, h);
    StorerIsLive(states[i], calls[i], u, h);
    RunKeeps(states, calls, i, j);
    GetPasswordHashExactly(states[j], states[j].users[u].index, u);
  }

  lemma StorerIsLive(t: Tables, c: Call, u: UserId, h: Hash)
    requires Stores(t, c, u, h)
    ensures u in t.users && t.users[u].live
  {
    if c.Redeem? {
      RedeemChangesExactly(t, c.key, c.secret, c.hash, c.now);
    } else {
      SetPasswordExactly(t, u, h);
    }
  }

  // The call gave `u` the administrator flag `admin`.
  ghost predicate Flags(t: Tables, c: Call, u: UserId, admin: bool) {
    || (c == SetUserAdmin(u, admin) && Serve(t, c).answer == Done)
    || (c.CreateUser? && c.newUser == u && c.admin == admin && Serve(t, c).answer == Minted(u))
  }

  lemma FlagStep(t: Tables, c: Call, u: UserId, admin: bool)
    requires Valid(t) && (Flags(t, c, u, admin) || (u in t.users && t.users[u].isAdmin == admin && !Flags(t, c, u, !admin)))
    ensures u in Serve(t, c).tables.users && Serve(t, c).tables.users[u].isAdmin == admin
  {
    match c
    case Redeem(key, s, h, now) =>
      RedeemChangesExactly(t, key, s, h, now);
      if Serve(t, c).tables != t { RedemptionIsDescribed(t, key, s, h, now); }
    case SetPassword(v, h) => SetPasswordExactly(t, v, h);
    case RevokeAll(v) => RevokeAllIsDescribed(t, v);
    case GetPasswordHash(index) => GetPasswordHashExactly(t, index, u);
    case SetUserAdmin(v, b) => SetUserAdminExactly(t, v, b);
    case CreateUser(id, index, sealed, b) => CreateUserExactly(t, id, index, sealed, b);
    case _ =>
  }

  // THE FLAG A DEMAND READS IS THE LAST ONE GIVEN: by the creation of the person or by
  // SetUserAdmin, and by nothing else.
  lemma {:induction false} FlagIsTheLastGiven(states: seq<Tables>, calls: seq<Call>, i: nat, j: nat, u: UserId, admin: bool)
    requires Run(states, calls) && i < j < |states| && Flags(states[i], calls[i], u, admin)
    requires forall m | i < m < j :: !Flags(states[m], calls[m], u, !admin)
    ensures u in states[j].users && states[j].users[u].isAdmin == admin
    decreases j
  {
    RunKeeps(states, calls, i, j - 1);
    if j - 1 > i { FlagIsTheLastGiven(states, calls, i, j - 1, u, admin); }
    FlagStep(states[j - 1], calls[j - 1], u, admin);
  }
}
