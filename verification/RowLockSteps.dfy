/** Each statement keeps the invariant of the transaction that runs it. */
module RowLockSteps {
  import opened Wrappers
  import opened Accounts
  import opened RowLocks
  import opened RowLockInvariant

  // What one executed statement may do: the transaction stays in its invariant, gives up
  // locks or none, and if it settles an answer, that is the serial answer on these tables.
  ghost predicate Sound(db: Tables, tx: Tx, tx': Tx) {
    && TxInv(db, tx')
    && (Settles(tx, tx') ==> Serve(db, tx'.call) == Reply(db, tx'.promised))
    && tx'.xs <= tx.xs && tx'.ss <= tx.ss
    && (tx'.call == tx.call || (tx.call.Redeem? && tx'.call.Redeem?))
    && (tx.pc.Naming? ==> tx'.pc.Finished? && tx'.call == tx.call && tx'.promised == tx.promised)
  }

  ghost predicate Ready(db: Tables, tx: Tx) {
    TxInv(db, tx) && Runnable(tx) && NeedX(db, tx) <= tx.xs && NeedS(tx) <= tx.xs + tx.ss
  }

  lemma CheckSound(db: Tables, clock: nat, tx: Tx)
    requires Ready(db, tx) && tx.pc.Check?
    ensures Sound(db, tx, CheckStep(db, clock, tx))
  {
  }

  lemma OwnerSound(db: Tables, tx: Tx)
    requires Ready(db, tx) && tx.pc.Owner?
    ensures Sound(db, tx, OwnerStep(db, tx))
  {
  }

  lemma LockToSpendSound(db: Tables, tx: Tx)
    requires Ready(db, tx) && tx.pc.LockUser? && tx.call.Redeem?
    ensures Sound(db, tx, LockUserStep(db, tx))
  {
  }

  lemma LockToWriteSound(db: Tables, tx: Tx)
    requires Ready(db, tx) && tx.pc.LockUser? && !tx.call.Redeem?
    ensures Sound(db, tx, LockUserStep(db, tx))
  {
    var tx' := LockUserStep(db, tx);
    if tx'.pc.Writing? {
      var a := AccountOf(db, tx.owner.value);
      assert tx'.buf == ExpectedRows(a, tx'.call, tx'.owner.value, ProgressOf(tx'));
    }
  }

  lemma LockUserSound(db: Tables, tx: Tx)
    requires Ready(db, tx) && tx.pc.LockUser?
    ensures Sound(db, tx, LockUserStep(db, tx))
  {
    if tx.call.Redeem? { LockToSpendSound(db, tx); } else { LockToWriteSound(db, tx); }
  }

  lemma SelectSound(db: Tables, tx: Tx)
    requires Ready(db, tx) && tx.pc.Select?
    ensures Sound(db, tx, SelectStep(db, tx))
  {
  }

  lemma SpendSound(db: Tables, clock: nat, tx: Tx)
    requires Ready(db, tx) && tx.pc.Spending?
    ensures Sound(db, tx, SpendStep(db, clock, tx))
  {
    var tx' := SpendStep(db, clock, tx);
    if tx'.pc.Writing? {
      var a := AccountOf(db, tx'.owner.value);
      assert tx'.buf == ExpectedRows(a, tx'.call, tx'.owner.value, ProgressOf(tx'));
    }
  }

  lemma RecheckSound(db: Tables, tx: Tx)
    requires Ready(db, tx) && tx.pc.Recheck?
    ensures Sound(db, tx, RecheckStep(db, tx))
  {
  }

  lemma NamingSound(db: Tables, tx: Tx)
    requires Ready(db, tx) && tx.pc.Naming?
    ensures Sound(db, tx, NamingStep(db, tx))
  {
  }

  // On its own view a writer finds the rows the account says.
  lemma RevokedView(db: Tables, buf: Tables, u: UserId)
    requires buf.credentials == map[]
    ensures RevokedRows(Overlay(db, buf), u) == AccountRevoked(AccountOf(db, u))
  {
    assert Overlay(db, buf).credentials == db.credentials;
  }

  lemma BumpedView(db: Tables, buf: Tables, u: UserId)
    requires buf.users == map[]
    ensures UserOf(Overlay(db, buf), u) == UserOf(db, u)
  {
  }

  lemma VoidedView(db: Tables, buf: Tables, u: UserId, c: Call)
    requires buf.enrolments == SpentRow(AccountOf(db, u), c)
    requires c.Redeem? ==> c.secret in AccountOf(db, u).enrolments
    ensures VoidedRows(Overlay(db, buf), u) == AccountVoided(AccountOf(db, u), SpentBy(c))
  {
    var a, view := AccountOf(db, u), Overlay(db, buf);
    var l, r := VoidedRows(view, u), AccountVoided(a, SpentBy(c));
    forall s ensures s in l <==> s in r {
      assert Some(s) != SpentBy(c) ==> s !in buf.enrolments;
    }
    forall s | s in r ensures l[s] == r[s] {
      assert s !in buf.enrolments;
    }
  }

  ghost predicate ReadyTo(a: Account, tx: Tx, st: Statement) {
    RowsInv(a, tx) && Current(tx) == Some(st)
  }

  function Advanced(p: Progress, st: Statement): Progress {
    match st
    case BumpEpoch => p.(bump := true)
    case RevokeCredentials => p.(revoke := true)
    case VoidEnrolments => p.(void := true)
    case StorePassword => p.(store := true)
    case RecordRedemption => p.(record := true)
    case InsertRow => p
  }

  lemma ProgressAdvances(tx: Tx, tx': Tx)
    requires Current(tx).Some? && tx'.call == tx.call && tx'.revoking == tx.revoking && tx'.step == tx.step + 1
    ensures ProgressOf(tx') == Advanced(ProgressOf(tx), Current(tx).value)
    ensures var p := ProgressOf(tx);
            match Current(tx).value
            case BumpEpoch => !p.bump
            case RevokeCredentials => !p.revoke
            case VoidEnrolments => !p.void
            case StorePassword => !p.store && (tx.call.Redeem? || tx.call.SetPassword?)
            case RecordRedemption => !p.record && p.bump && tx.call.Redeem? && tx.call.key.Some?
            case InsertRow => true
  {
  }

  lemma RowsInvFrom(a: Account, tx: Tx, tx': Tx, st: Statement)
    requires RowsInv(a, tx) && Current(tx) == Some(st)
    requires tx'.call == tx.call && tx'.owner == tx.owner && tx'.revoking == tx.revoking && tx'.step == tx.step + 1
    requires tx'.buf == ExpectedRows(a, tx.call, tx.owner.value, Advanced(ProgressOf(tx), st))
    requires tx'.answer == ExpectedAnswer(a, tx.call, tx.owner.value, Advanced(ProgressOf(tx), st))
    ensures RowsInv(a, tx')
  {
    ProgressAdvances(tx, tx');
  }

  // Each statement adds its own rows, and nothing else, to what is expected.
  lemma BumpRows(a: Account, c: Call, u: UserId, p: Progress)
    requires Supports(a, c) && !p.bump
    ensures var rows := ExpectedRows(a, c, u, p);
            && rows.users == map[]
            && ExpectedRows(a, c, u, p.(bump := true)) == rows.(users := rows.users[u := Bumped(a.user.value)])
  {
  }

  lemma RevokeRowsAdded(a: Account, c: Call, u: UserId, p: Progress)
    requires Supports(a, c) && !p.revoke
    ensures var rows := ExpectedRows(a, c, u, p);
            ExpectedRows(a, c, u, p.(revoke := true)) == rows.(credentials := rows.credentials + AccountRevoked(a))
  {
  }

  lemma VoidRowsAdded(a: Account, c: Call, u: UserId, p: Progress)
    requires Supports(a, c) && !p.void
    ensures var rows := ExpectedRows(a, c, u, p);
            && rows.enrolments == SpentRow(a, c)
            && ExpectedRows(a, c, u, p.(void := true))
               == rows.(enrolments := rows.enrolments + AccountVoided(a, SpentBy(c)))
  {
  }

  lemma StoreRows(a: Account, c: Call, u: UserId, p: Progress)
    requires Supports(a, c) && !p.store
    ensures var rows := ExpectedRows(a, c, u, p);
            ExpectedRows(a, c, u, p.(store := true)) == rows.(passwords := rows.passwords[u := HashIn(c)])
  {
  }

  lemma RecordRows(a: Account, c: Call, u: UserId, p: Progress)
    requires Supports(a, c) && !p.record && c.Redeem? && c.key.Some?
    ensures var rows := ExpectedRows(a, c, u, p);
            && rows.redemptions == map[]
            && ExpectedRows(a, c, u, p.(record := true)) == rows.(redemptions := rows.redemptions[c.key.value :=
                 Redemption(c.secret, a.enrolments[c.secret].id, u, a.user.value.epoch + 1)])
  {
  }

  lemma AnswersAdvance(a: Account, c: Call, u: UserId, p: Progress)
    requires Supports(a, c)
    ensures ExpectedAnswer(a, c, u, p.(bump := true)) == WithEpoch(ExpectedAnswer(a, c, u, p), a.user.value.epoch + 1)
    ensures ExpectedAnswer(a, c, u, p.(revoke := true))
            == WithRevocations(ExpectedAnswer(a, c, u, p), Saturated(|AccountRevoked(a)|))
    ensures ExpectedAnswer(a, c, u, p.(void := true))
            == WithVoided(ExpectedAnswer(a, c, u, p), Saturated(|AccountVoided(a, SpentBy(c))|))
    ensures ExpectedAnswer(a, c, u, p.(store := true)) == ExpectedAnswer(a, c, u, p)
    ensures ExpectedAnswer(a, c, u, p.(record := true)) == ExpectedAnswer(a, c, u, p)
  {
  }

  lemma BumpSound(a: Account, tx: Tx)
    requires ReadyTo(a, tx, BumpEpoch)
    ensures tx.buf.users == map[]
    ensures RowsInv(a, BumpWith(tx, tx.owner.value, Bumped(a.user.value)))
  {
    var tx' := BumpWith(tx, tx.owner.value, Bumped(a.user.value));
    ProgressAdvances(tx, tx');
    BumpRows(a, tx.call, tx.owner.value, ProgressOf(tx));
    AnswersAdvance(a, tx.call, tx.owner.value, ProgressOf(tx));
    RowsInvFrom(a, tx, tx', BumpEpoch);
  }

  lemma RevokeSound(a: Account, tx: Tx)
    requires ReadyTo(a, tx, RevokeCredentials)
    ensures RowsInv(a, RevokeWith(tx, AccountRevoked(a)))
  {
    var tx' := RevokeWith(tx, AccountRevoked(a));
    ProgressAdvances(tx, tx');
    RevokeRowsAdded(a, tx.call, tx.owner.value, ProgressOf(tx));
    AnswersAdvance(a, tx.call, tx.owner.value, ProgressOf(tx));
    RowsInvFrom(a, tx, tx', RevokeCredentials);
  }

  lemma VoidSound(a: Account, tx: Tx)
    requires ReadyTo(a, tx, VoidEnrolments)
    ensures tx.buf.enrolments == SpentRow(a, tx.call)
    ensures RowsInv(a, VoidWith(tx, AccountVoided(a, SpentBy(tx.call))))
  {
    var tx' := VoidWith(tx, AccountVoided(a, SpentBy(tx.call)));
    ProgressAdvances(tx, tx');
    VoidRowsAdded(a, tx.call, tx.owner.value, ProgressOf(tx));
    AnswersAdvance(a, tx.call, tx.owner.value, ProgressOf(tx));
    RowsInvFrom(a, tx, tx', VoidEnrolments);
  }

  lemma StoreSound(a: Account, db: Tables, tx: Tx)
    requires ReadyTo(a, tx, StorePassword)
    ensures WriteStep(db, tx).pc == tx.pc && RowsInv(a, WriteStep(db, tx))
  {
    var tx' := Ran(tx.(buf := tx.buf.(passwords := tx.buf.passwords[tx.owner.value := HashIn(tx.call)])));
    ProgressAdvances(tx, tx');
    StoreRows(a, tx.call, tx.owner.value, ProgressOf(tx));
    AnswersAdvance(a, tx.call, tx.owner.value, ProgressOf(tx));
    RowsInvFrom(a, tx, tx', StorePassword);
  }

  lemma RecordSound(a: Account, db: Tables, tx: Tx)
    requires ReadyTo(a, tx, RecordRedemption) && tx.pc.Writing?
    ensures tx.call.Redeem? && tx.call.key.Some?
    ensures var tx' := WriteStep(db, tx);
            tx'.pc.Writing? ==> RowsInv(a, tx') && tx.call.key.value !in db.redemptions
  {
    ProgressAdvances(tx, Ran(tx));
    RecordRows(a, tx.call, tx.owner.value, ProgressOf(tx));
    AnswersAdvance(a, tx.call, tx.owner.value, ProgressOf(tx));
    var tx' := WriteStep(db, tx);
    if tx'.pc.Writing? { RowsInvFrom(a, tx, tx', RecordRedemption); }
  }

  // What a statement leaves alone.
  lemma StatementFrame(db: Tables, tx: Tx)
    requires tx.pc.Writing? && Current(tx).Some? && tx.owner.Some? && !Current(tx).value.InsertRow?
    ensures var tx' := WriteStep(db, tx);
            && tx'.xs == tx.xs && tx'.ss == tx.ss && tx'.call == tx.call && tx'.owner == tx.owner
            && tx'.revoking == tx.revoking
            && (tx'.pc.Doomed? || (tx'.pc.Writing? && tx'.step == tx.step + 1))
  {
  }

  lemma BumpStep(db: Tables, tx: Tx, u: UserId)
    requires Current(tx) == Some(BumpEpoch) && tx.owner == Some(u) && tx.buf.users == map[] && u in db.users
    ensures WriteStep(db, tx) == BumpWith(tx, u, Bumped(db.users[u]))
  {
    BumpedView(db, tx.buf, u);
  }

  lemma BumpStatement(a: Account, db: Tables, tx: Tx)
    requires ReadyTo(a, tx, BumpEpoch) && a.user == UserOf(db, tx.owner.value)
    ensures RowsInv(a, WriteStep(db, tx))
  {
    BumpSound(a, tx);
    BumpStep(db, tx, tx.owner.value);
  }

  lemma RevokeStep(db: Tables, tx: Tx, u: UserId)
    requires Current(tx) == Some(RevokeCredentials) && tx.owner == Some(u) && tx.buf.credentials == map[]
    ensures WriteStep(db, tx) == RevokeWith(tx, AccountRevoked(AccountOf(db, u)))
  {
    RevokedView(db, tx.buf, u);
  }

  lemma NothingRevokedYet(a: Account, tx: Tx)
    requires ReadyTo(a, tx, RevokeCredentials)
    ensures tx.buf.credentials == map[]
  {
    ProgressAdvances(tx, Ran(tx));
  }

  lemma RevokeStatement(a: Account, db: Tables, tx: Tx)
    requires ReadyTo(a, tx, RevokeCredentials) && a == AccountOf(db, tx.owner.value)
    ensures RowsInv(a, WriteStep(db, tx))
  {
    RevokeSound(a, tx);
    NothingRevokedYet(a, tx);
    RevokeStep(db, tx, tx.owner.value);
  }

  lemma VoidStatement(a: Account, db: Tables, tx: Tx)
    requires ReadyTo(a, tx, VoidEnrolments) && a == AccountOf(db, tx.owner.value)
    ensures RowsInv(a, WriteStep(db, tx))
  {
    VoidSound(a, tx);
    VoidedView(db, tx.buf, tx.owner.value, tx.call);
  }

  // The statement itself: its rows, its answer, and its ledger key.
  lemma StatementSound(a: Account, db: Tables, tx: Tx)
    requires tx.pc.Writing? && Current(tx).Some? && RowsInv(a, tx) && a == AccountOf(db, tx.owner.value)
    requires tx.call.Redeem? || tx.call.RevokeAll? || tx.call.SetPassword?
    ensures var tx' := WriteStep(db, tx); tx'.pc.Writing? ==> RowsInv(a, tx')
    ensures var tx' := WriteStep(db, tx);
            tx'.pc.Writing? && tx.call.Redeem? && tx.call.key.Some? && Current(tx) == Some(RecordRedemption) ==>
              tx.call.key.value !in db.redemptions
  {
    match Current(tx).value
    case BumpEpoch => BumpStatement(a, db, tx);
    case RevokeCredentials => RevokeStatement(a, db, tx);
    case VoidEnrolments => VoidStatement(a, db, tx);
    case StorePassword => StoreSound(a, db, tx);
    case RecordRedemption => RecordSound(a, db, tx);
  }

  lemma WriterIsNoInserter(db: Tables, tx: Tx)
    requires WriterInv(db, tx)
    ensures Current(tx) != Some(InsertRow)
  {
  }

  lemma StatementLedger(db: Tables, tx: Tx)
    requires tx.pc.Writing? && LedgerInv(db, tx) && Current(tx).Some? && tx.owner.Some? && !Current(tx).value.InsertRow?
    requires NeedX(db, tx) <= tx.xs
    requires var tx' := WriteStep(db, tx);
             tx'.pc.Writing? && tx.call.Redeem? && tx.call.key.Some? && Current(tx) == Some(RecordRedemption) ==>
               tx.call.key.value !in db.redemptions
    ensures WriteStep(db, tx).pc.Writing? ==> LedgerInv(db, WriteStep(db, tx))
  {
    StatementFrame(db, tx);
    ProgressAdvances(tx, Ran(tx));
  }

  lemma RevokeLocks(db: Tables, tx: Tx, u: UserId)
    requires tx.pc.Writing? && tx.owner == Some(u) && Current(tx) == Some(RevokeCredentials) && tx.buf.credentials == map[]
    requires NeedX(db, tx) <= tx.xs
    ensures forall c <- AccountRevoked(AccountOf(db, u)) :: CredentialRow(c) in tx.xs
  {
    RevokedView(db, tx.buf, u);
    forall c <- AccountRevoked(AccountOf(db, u)) ensures CredentialRow(c) in tx.xs {
      assert CredentialRow(c) in NeedX(db, tx);
    }
  }

  // The revoke locks what it writes, and nothing after it writes another credential.
  lemma StatementLocks(db: Tables, tx: Tx)
    requires tx.pc.Writing? && Current(tx).Some? && !Current(tx).value.InsertRow? && tx.owner.Some?
    requires RowsInv(AccountOf(db, tx.owner.value), tx) && RevokedLocked(db, tx) && NeedX(db, tx) <= tx.xs
    ensures WriteStep(db, tx).pc.Writing? ==> RevokedLocked(db, WriteStep(db, tx))
  {
    StatementFrame(db, tx);
    ProgressAdvances(tx, Ran(tx));
    if Current(tx) == Some(RevokeCredentials) {
      NothingRevokedYet(AccountOf(db, tx.owner.value), tx);
      RevokeLocks(db, tx, tx.owner.value);
    }
  }

  lemma StillWriting(db: Tables, tx: Tx, tx': Tx)
    requires WriterInv(db, tx) && tx.pc.Writing? && tx'.pc.Writing?
    requires tx'.xs == tx.xs && tx'.ss == tx.ss && tx'.call == tx.call && tx'.owner == tx.owner
    requires RowsInv(AccountOf(db, tx.owner.value), tx') && LedgerInv(db, tx') && RevokedLocked(db, tx')
    ensures Sound(db, tx, tx')
  {
  }

  lemma DoomedSound(db: Tables, tx: Tx, tx': Tx)
    requires tx.pc.Writing? && tx'.pc.Doomed? && tx'.xs == tx.xs && tx'.ss == tx.ss && tx'.call == tx.call
    ensures Sound(db, tx, tx')
  {
  }

  lemma WriteSound(db: Tables, tx: Tx)
    requires Ready(db, tx) && tx.pc.Writing? && WriterInv(db, tx)
    ensures Sound(db, tx, WriteStep(db, tx))
  {
    var a, tx' := AccountOf(db, tx.owner.value), WriteStep(db, tx);
    WriterIsNoInserter(db, tx);
    StatementFrame(db, tx);
    StatementSound(a, db, tx);
    StatementLedger(db, tx);
    StatementLocks(db, tx);
    if tx'.pc.Writing? { StillWriting(db, tx, tx'); } else { DoomedSound(db, tx, tx'); }
  }

  lemma InsertEnrolmentSound(db: Tables, tx: Tx)
    requires Ready(db, tx) && tx.pc.Writing? && InserterInv(db, tx) && EnrolmentInserterInv(db, tx)
    requires forall s <- db.enrolments :: db.enrolments[s].id != tx.call.enrolment
    ensures Sound(db, tx, WriteStep(db, tx))
  {
  }

  lemma InsertCredentialSound(db: Tables, tx: Tx)
    requires Ready(db, tx) && tx.pc.Writing? && InserterInv(db, tx) && CredentialInserterInv(db, tx)
    requires tx.call.credential !in db.credentials
    ensures Sound(db, tx, WriteStep(db, tx))
  {
  }

  lemma InsertSound(db: Tables, tx: Tx)
    requires Ready(db, tx) && tx.pc.Writing? && InserterInv(db, tx)
    requires tx.call.CreateEnrolment? ==> forall s <- db.enrolments :: db.enrolments[s].id != tx.call.enrolment
    requires tx.call.CreateCredential? ==> tx.call.credential !in db.credentials
    ensures Sound(db, tx, WriteStep(db, tx))
  {
    if tx.call.CreateEnrolment? { InsertEnrolmentSound(db, tx); } else { InsertCredentialSound(db, tx); }
  }

  lemma ExecSound(db: Tables, clock: nat, tx: Tx)
    requires Ready(db, tx)
    requires tx.call.CreateEnrolment? ==> forall s <- db.enrolments :: db.enrolments[s].id != tx.call.enrolment
    requires tx.call.CreateCredential? ==> tx.call.credential !in db.credentials
    ensures Sound(db, tx, ExecTx(db, clock, tx))
  {
    match tx.pc
    case Check => CheckSound(db, clock, tx);
    case Owner => OwnerSound(db, tx);
    case LockUser => LockUserSound(db, tx);
    case Select => SelectSound(db, tx);
    case Spending => SpendSound(db, clock, tx);
    case Recheck => RecheckSound(db, tx);
    case Naming => NamingSound(db, tx);
    case Writing => if WriterInv(db, tx) { WriteSound(db, tx); } else { InsertSound(db, tx); }
    case _ =>
  }
}
