/**
A commit is one serial call: the rows it publishes turn the committed tables into what
the call computes from them, and it disturbs no other transaction.
*/
module RowLockCommit {
  import opened Wrappers
  import opened Accounts
  import opened RowLocks
  import opened RowLockInvariant
  import opened RowLockSteps

  // ----------------------------------------------------------- commit is the call

  lemma RedeemedFields(t: Tables, key: Option<Key>, s: Secret, h: Hash)
    requires s in t.enrolments && t.enrolments[s].owner in t.users
    ensures var e, u, t' := t.enrolments[s], t.enrolments[s].owner, RedeemedTables(t, key, s, h);
            && t'.users == t.users[u := Bumped(t.users[u])]
            && t'.passwords == t.passwords[u := h]
            && t'.credentials == (if e.revoking then t.credentials + RevokedRows(t, u) else t.credentials)
            && t'.enrolments == Spend(t, s).enrolments + (if e.revoking then VoidedRows(Spend(t, s), u) else map[])
            && t'.redemptions == (if key.Some? then t.redemptions[key.value := RedemptionRow(t, s)] else t.redemptions)
  {
    var u := t.enrolments[s].owner;
    var t1 := Bump(Spend(t, s), u);
    assert RevokedRows(t1, u) == RevokedRows(t, u);
    assert VoidedRows(RevokeRows(t1, u), u) == VoidedRows(Spend(t, s), u);
  }

  lemma AccountCredentials(t: Tables, u: UserId)
    ensures RevokedRows(t, u) == AccountRevoked(AccountOf(t, u))
  {
    RevokedView(t, NoRows, u);
    assert Overlay(t, NoRows).credentials == t.credentials;
  }

  lemma AccountEnrolments(t: Tables, u: UserId, c: Call)
    requires c.Redeem? ==> c.secret in AccountOf(t, u).enrolments
    ensures c.Redeem? ==> VoidedRows(Spend(t, c.secret), u) == AccountVoided(AccountOf(t, u), SpentBy(c))
    ensures !c.Redeem? ==> VoidedRows(t, u) == AccountVoided(AccountOf(t, u), SpentBy(c))
  {
    var buf := NoRows.(enrolments := SpentRow(AccountOf(t, u), c));
    VoidedView(t, buf, u, c);
    if c.Redeem? {
      assert Overlay(t, buf).enrolments == Spend(t, c.secret).enrolments;
    } else {
      assert Overlay(t, buf).enrolments == t.enrolments;
    }
  }

  lemma AccountRows(t: Tables, u: UserId, c: Call)
    requires c.Redeem? ==> c.secret in AccountOf(t, u).enrolments
    ensures RevokedRows(t, u) == AccountRevoked(AccountOf(t, u))
    ensures c.Redeem? ==> VoidedRows(Spend(t, c.secret), u) == AccountVoided(AccountOf(t, u), SpentBy(c))
    ensures !c.Redeem? ==> VoidedRows(t, u) == AccountVoided(AccountOf(t, u), SpentBy(c))
  {
    AccountCredentials(t, u);
    AccountEnrolments(t, u, c);
  }

  function WholePlan(c: Call, revoking: bool): Progress {
    match c
    case Redeem(key, _, _, _) => Progress(true, revoking, revoking, true, key.Some?)
    case RevokeAll(_) => Progress(true, true, true, false, false)
    case _ => Progress(true, false, false, true, false)
  }

  lemma PlanComplete(tx: Tx)
    requires (tx.call.Redeem? || tx.call.RevokeAll? || tx.call.SetPassword?) && Current(tx).None?
    ensures ProgressOf(tx) == WholePlan(tx.call, tx.revoking)
  {
  }

  lemma PutIsOverlay<K, V>(m: map<K, V>, k: K, v: V)
    ensures m + map[k := v] == m[k := v]
  {
  }

  lemma OverlayAssociates<K, V>(a: map<K, V>, b: map<K, V>, c: map<K, V>)
    ensures (a + b) + c == a + (b + c)
  {
  }

  lemma OntoNothing<K, V>(m: map<K, V>)
    ensures map[] + m == m && m + map[] == m
  {
  }

  lemma CommitEnrolments(db: Tables, c: Call, u: UserId, p: Progress)
    requires c.Redeem? && Supports(AccountOf(db, u), c) && p.void == db.enrolments[c.secret].revoking
    ensures db.enrolments + ExpectedRows(AccountOf(db, u), c, u, p).enrolments
            == RedeemedTables(db, c.key, c.secret, c.hash).enrolments
  {
    var s, e := c.secret, db.enrolments[c.secret];
    RedeemedFields(db, c.key, s, c.hash);
    AccountRows(db, u, c);
    PutIsOverlay(db.enrolments, s, e.(spent := true));
    var voided := if p.void then AccountVoided(AccountOf(db, u), SpentBy(c)) else map[];
    OverlayAssociates(db.enrolments, map[s := e.(spent := true)], voided);
  }

  lemma CommitLedger(db: Tables, c: Call, u: UserId, p: Progress)
    requires c.Redeem? && Supports(AccountOf(db, u), c) && p.record == c.key.Some?
    ensures db.redemptions + ExpectedRows(AccountOf(db, u), c, u, p).redemptions
            == RedeemedTables(db, c.key, c.secret, c.hash).redemptions
  {
    RedeemedFields(db, c.key, c.secret, c.hash);
    if c.key.Some? { PutIsOverlay(db.redemptions, c.key.value, RedemptionRow(db, c.secret)); }
  }

  lemma CommitOthers(db: Tables, c: Call, u: UserId, p: Progress)
    requires c.Redeem? && Supports(AccountOf(db, u), c) && p.revoke == db.enrolments[c.secret].revoking
    requires p.bump && p.store
    ensures var rows, t' := ExpectedRows(AccountOf(db, u), c, u, p), RedeemedTables(db, c.key, c.secret, c.hash);
            && db.users + rows.users == t'.users
            && db.passwords + rows.passwords == t'.passwords
            && db.credentials + rows.credentials == t'.credentials
  {
    RedeemedFields(db, c.key, c.secret, c.hash);
    AccountRows(db, u, c);
    PutIsOverlay(db.users, u, Bumped(db.users[u]));
    PutIsOverlay(db.passwords, u, c.hash);
  }

  lemma CommitRows(db: Tables, c: Call, u: UserId, revoking: bool)
    requires c.Redeem? && Supports(AccountOf(db, u), c) && db.enrolments[c.secret].revoking == revoking
    ensures Overlay(db, ExpectedRows(AccountOf(db, u), c, u, WholePlan(c, revoking)))
            == RedeemedTables(db, c.key, c.secret, c.hash)
  {
    CommitEnrolments(db, c, u, WholePlan(c, revoking));
    CommitLedger(db, c, u, WholePlan(c, revoking));
    CommitOthers(db, c, u, WholePlan(c, revoking));
  }

  lemma RedeemIsServed(db: Tables, tx: Tx)
    requires WriterInv(db, tx) && tx.call.Redeem? && Current(tx).None?
    ensures ServeRedeem(db, tx.call.key, tx.call.secret, tx.call.hash, tx.call.now)
            == Reply(RedeemedTables(db, tx.call.key, tx.call.secret, tx.call.hash), RedeemedAnswer(db, tx.call.secret))
  {
    PlanComplete(tx);
  }

  lemma CommitRedeem(db: Tables, tx: Tx)
    requires WriterInv(db, tx) && tx.call.Redeem? && Current(tx).None?
    ensures Serve(db, tx.call) == Reply(Overlay(db, tx.buf), tx.answer)
  {
    PlanComplete(tx);
    RedeemIsServed(db, tx);
    CommitRows(db, tx.call, tx.owner.value, tx.revoking);
    AccountRows(db, tx.owner.value, tx.call);
  }

  lemma RevokedFields(t: Tables, u: UserId)
    requires u in t.users
    ensures var t' := RevokedTables(t, u);
            && t'.users == t.users[u := Bumped(t.users[u])]
            && t'.credentials == t.credentials + RevokedRows(t, u)
            && t'.enrolments == t.enrolments + VoidedRows(t, u)
            && t'.passwords == t.passwords && t'.redemptions == t.redemptions
  {
    assert VoidedRows(Bump(RevokeRows(t, u), u), u) == VoidedRows(t, u);
  }

  lemma CommitRevokedRows(db: Tables, c: Call, u: UserId, p: Progress)
    requires c.RevokeAll? && Supports(AccountOf(db, u), c) && p == WholePlan(c, false)
    ensures Overlay(db, ExpectedRows(AccountOf(db, u), c, u, p)) == RevokedTables(db, u)
  {
    RevokedFields(db, u);
    AccountRows(db, u, c);
    PutIsOverlay(db.users, u, Bumped(db.users[u]));
    OntoNothing(VoidedRows(db, u));
    OntoNothing(db.passwords);
    OntoNothing(db.redemptions);
    var rows := ExpectedRows(AccountOf(db, u), c, u, p);
    assert rows == Tables(map[u := Bumped(db.users[u])], map[], VoidedRows(db, u), RevokedRows(db, u), map[]);
  }

  lemma CommitRevokeAll(db: Tables, tx: Tx)
    requires WriterInv(db, tx) && tx.call.RevokeAll? && Current(tx).None?
    ensures Serve(db, tx.call) == Reply(Overlay(db, tx.buf), tx.answer)
  {
    PlanComplete(tx);
    CommitRevokedRows(db, tx.call, tx.owner.value, ProgressOf(tx));
    AccountRows(db, tx.owner.value, tx.call);
  }

  lemma CommitSetPassword(db: Tables, tx: Tx)
    requires WriterInv(db, tx) && tx.call.SetPassword? && Current(tx).None?
    ensures Serve(db, tx.call) == Reply(Overlay(db, tx.buf), tx.answer)
  {
    var u := tx.owner.value;
    PlanComplete(tx);
    PutIsOverlay(db.users, u, Bumped(db.users[u]));
    PutIsOverlay(db.passwords, u, tx.call.hash);
  }

  lemma CommitEnrolment(db: Tables, tx: Tx)
    requires EnrolmentInserterInv(db, tx) && Current(tx).None?
    requires forall s <- db.enrolments :: db.enrolments[s].id != tx.call.enrolment
    ensures Serve(db, tx.call) == Reply(Overlay(db, tx.buf), tx.answer)
  {
    PutIsOverlay(db.enrolments, tx.call.secret, NewEnrolment(tx.call));
  }

  lemma CommitCredential(db: Tables, tx: Tx)
    requires CredentialInserterInv(db, tx) && Current(tx).None? && tx.call.credential !in db.credentials
    ensures Serve(db, tx.call) == Reply(Overlay(db, tx.buf), tx.answer)
  {
    PutIsOverlay(db.credentials, tx.call.credential, Credential(tx.call.user, tx.call.token, false));
  }

  // The commit of a writing transaction is the serial call, tables and answer.
  lemma CommitIsServe(db: Tables, tx: Tx)
    requires tx.pc.Writing? && TxInv(db, tx) && Current(tx).None?
    requires tx.call.CreateEnrolment? ==> forall s <- db.enrolments :: db.enrolments[s].id != tx.call.enrolment
    requires tx.call.CreateCredential? ==> tx.call.credential !in db.credentials
    ensures Serve(db, tx.call) == Reply(Overlay(db, tx.buf), tx.answer)
  {
    if !WriterInv(db, tx) {
      if tx.call.CreateEnrolment? { CommitEnrolment(db, tx); } else { CommitCredential(db, tx); }
    } else {
      match tx.call
      case Redeem(_, _, _, _) => CommitRedeem(db, tx);
      case RevokeAll(_) => CommitRevokeAll(db, tx);
      case SetPassword(_, _) => CommitSetPassword(db, tx);
    }
  }

  // ------------------------------------------------- and disturbs nobody else

  // The rows a writing transaction will publish: one person's, each locked.
  ghost predicate Footprint(db: Tables, tx: Tx, u: UserId) {
    && tx.owner == Some(u) && UserRow(u) in tx.xs + tx.ss
    && tx.buf.users.Keys <= {u} && (tx.buf.users != map[] ==> UserRow(u) in tx.xs)
    && (forall s <- tx.buf.enrolments ::
          && tx.buf.enrolments[s].owner == u
          && (if s in db.enrolments then db.enrolments[s].owner == u
              else EnrolmentRow(s) in tx.xs && tx.call.CreateEnrolment? && tx.call.secret == s))
    && (forall c <- tx.buf.credentials ::
          && tx.buf.credentials[c].owner == u
          && (if c in db.credentials
              then db.credentials[c].owner == u && db.credentials[c].token == tx.buf.credentials[c].token
              else TokenRow(tx.buf.credentials[c].token) in tx.xs))
    && (forall k <- tx.buf.redemptions :: LedgerRow(k) in tx.xs)
  }

  lemma ExpectedFootprint(db: Tables, c: Call, u: UserId, p: Progress)
    requires Supports(AccountOf(db, u), c)
    ensures var rows := ExpectedRows(AccountOf(db, u), c, u, p);
            && rows.users.Keys <= {u}
            && (forall s <- rows.enrolments :: s in db.enrolments && rows.enrolments[s].owner == u == db.enrolments[s].owner)
            && (forall x <- rows.credentials ::
                  && x in db.credentials && rows.credentials[x].owner == u == db.credentials[x].owner
                  && db.credentials[x].token == rows.credentials[x].token)
            && (forall k <- rows.redemptions :: c.Redeem? && c.key == Some(k) && p.record)
  {
  }

  lemma WriterFootprint(db: Tables, tx: Tx)
    requires WriterInv(db, tx)
    ensures Footprint(db, tx, tx.owner.value)
  {
    ExpectedFootprint(db, tx.call, tx.owner.value, ProgressOf(tx));
  }

  lemma InserterFootprint(db: Tables, tx: Tx)
    requires InserterInv(db, tx) && (tx.call.CreateCredential? ==> tx.call.credential !in db.credentials)
    ensures Footprint(db, tx, tx.owner.value)
  {
  }

  lemma OtherEnrolments(m: map<Secret, Enrolment>, rows: map<Secret, Enrolment>, u: UserId, u': UserId)
    requires u' != u
    requires forall s <- rows :: rows[s].owner == u && (s in m ==> m[s].owner == u)
    ensures EnrolmentsOf(m + rows, u') == EnrolmentsOf(m, u')
  {
    assert forall s :: s in EnrolmentsOf(m + rows, u') <==> s in EnrolmentsOf(m, u');
    forall s | s in EnrolmentsOf(m, u') ensures (m + rows)[s] == m[s] { assert s !in rows; }
  }

  lemma OtherCredentials(m: map<CredentialId, Credential>, rows: map<CredentialId, Credential>, u: UserId, u': UserId)
    requires u' != u
    requires forall c <- rows :: rows[c].owner == u && (c in m ==> m[c].owner == u)
    ensures CredentialsOf(m + rows, u') == CredentialsOf(m, u')
  {
    assert forall c :: c in CredentialsOf(m + rows, u') <==> c in CredentialsOf(m, u');
    forall c | c in CredentialsOf(m, u') ensures (m + rows)[c] == m[c] { assert c !in rows; }
  }

  lemma OtherAccounts(db: Tables, tx: Tx, u: UserId, u': UserId)
    requires Footprint(db, tx, u) && u' != u
    ensures AccountOf(Overlay(db, tx.buf), u') == AccountOf(db, u')
  {
    OtherEnrolments(db.enrolments, tx.buf.enrolments, u, u');
    OtherCredentials(db.credentials, tx.buf.credentials, u, u');
  }

  // The person's rows, as far as `tx` relies on them: their credentials once it has revoked them.
  ghost predicate SameAccount(db: Tables, db': Tables, tx: Tx)
    requires tx.owner.Some?
  {
    var u := tx.owner.value;
    && UserOf(db', u) == UserOf(db, u) && EnrolmentsOf(db'.enrolments, u) == EnrolmentsOf(db.enrolments, u)
    && (tx.pc.Writing? && ProgressOf(tx).revoke ==> CredentialsOf(db'.credentials, u) == CredentialsOf(db.credentials, u))
  }

  // What a commit leaves alone for a transaction `tx` that is still in flight.
  ghost predicate Undisturbed(db: Tables, db': Tables, tx: Tx) {
    && (HoldsUser(tx) ==> SameAccount(db, db', tx))
    && (tx.owner.Some? && UserRow(tx.owner.value) in tx.ss ==> UserOf(db', tx.owner.value) == UserOf(db, tx.owner.value))
    && (forall k | LedgerRow(k) in tx.xs && k !in db.redemptions :: k !in db'.redemptions)
    && (forall s | EnrolmentRow(s) in tx.xs && s !in db.enrolments :: s !in db'.enrolments)
    && (forall token | TokenRow(token) in tx.xs && TokenUnused(db, token) :: TokenUnused(db', token))
    && (forall s <- db.enrolments :: s in db'.enrolments && db'.enrolments[s].owner == db.enrolments[s].owner)
    && (tx.call.Redeem? && ReadNoOwner(tx, tx.call.secret) && tx.call.secret !in db.enrolments ==>
          tx.call.secret !in db'.enrolments)
  }

  lemma OthersUndisturbed(db: Tables, tx: Tx, u: UserId, other: Tx)
    requires Footprint(db, tx, u)
    requires tx.xs !! (other.xs + other.ss) && other.xs !! (tx.xs + tx.ss)
    requires tx.call.CreateEnrolment? ==> !ReadNoOwner(other, tx.call.secret)
    ensures Undisturbed(db, Overlay(db, tx.buf), other)
  {
    if HoldsUser(other) { OtherAccounts(db, tx, u, other.owner.value); }
  }

  lemma RedeemerStable(db: Tables, db': Tables, tx: Tx)
    requires Undisturbed(db, db', tx) && RedeemerInv(db, tx) && (tx.pc.Spending? || tx.pc.Recheck? || tx.pc.Naming?)
    ensures RedeemerInv(db', tx)
    ensures Redeemable(db', tx.call.secret, tx.call.now) == Redeemable(db, tx.call.secret, tx.call.now)
    ensures Unredeemable(db', tx.call.secret) == Unredeemable(db, tx.call.secret)
  {
    if tx.owner.Some? {
      var u, s := tx.owner.value, tx.call.secret;
      assert s in AccountOf(db', u).enrolments;
      assert db'.enrolments[s] == AccountOf(db', u).enrolments[s] == db.enrolments[s];
      assert UserOf(db', u) == AccountOf(db', u).user == UserOf(db, u);
    }
  }

  // Before the revoke, the credentials do not matter.
  lemma RowsInvWithout(a: Account, a': Account, tx: Tx)
    requires RowsInv(a, tx) && a'.user == a.user && a'.enrolments == a.enrolments
    requires ProgressOf(tx).revoke ==> a'.credentials == a.credentials
    ensures RowsInv(a', tx)
  {
  }

  lemma WriterStable(db: Tables, db': Tables, tx: Tx)
    requires Undisturbed(db, db', tx) && WriterInv(db, tx) && tx.pc.Writing?
    ensures WriterInv(db', tx)
  {
    RowsInvWithout(AccountOf(db, tx.owner.value), AccountOf(db', tx.owner.value), tx);
  }

  lemma InserterStable(db: Tables, db': Tables, tx: Tx)
    requires Undisturbed(db, db', tx) && InserterInv(db, tx)
    ensures InserterInv(db', tx)
  {
    var u := tx.owner.value;
    assert UserOf(db', u) == UserOf(db, u);
  }

  lemma TxStable(db: Tables, db': Tables, tx: Tx)
    requires Undisturbed(db, db', tx) && TxInv(db, tx)
    ensures TxInv(db', tx)
  {
    match tx.pc
    case Spending => RedeemerStable(db, db', tx);
    case Recheck => RedeemerStable(db, db', tx);
    case Naming => RedeemerStable(db, db', tx);
    case Writing =>
      if WriterInv(db, tx) { WriterStable(db, db', tx); } else { InserterStable(db, db', tx); }
    case _ =>
  }
}
