/**
Every interleaving is some serial run: the committed tables are what the logged calls
give one at a time, and every answer delivered is the one the log holds.
*/
module RowLockRefinement {
  import opened Wrappers
  import opened Accounts
  import opened AccountRuns
  import opened RowLocks
  import opened RowLockInvariant
  import opened RowLockSteps
  import opened RowLockCommit

  // A transaction that changes neither kind nor minted id keeps the ids fresh.
  lemma IdsKept(db: Tables, txs: map<TxId, Tx>, t: TxId, tx': Tx)
    requires FreshIds(db, txs) && t in txs
    requires tx'.call == txs[t].call || (txs[t].call.Redeem? && tx'.call.Redeem?)
    ensures FreshIds(db, txs[t := tx'])
  {
  }

  lemma StartKeepsIds(sys: Sys, c: Call)
    requires Inv(sys) && Enabled(sys, Begin(c))
    ensures FreshIds(sys.db, sys.txs[sys.next := Started(c)])
  {
  }

  lemma StartKeepsTxs(sys: Sys, c: Call)
    requires Inv(sys) && Enabled(sys, Begin(c))
    ensures Exclusive(sys.txs[sys.next := Started(c)])
    ensures TxInv(sys.db, Started(c))
  {
  }

  lemma BeginKeeps(sys: Sys, c: Call)
    requires Inv(sys) && Enabled(sys, Begin(c))
    ensures Inv(Next(sys, Begin(c)))
  {
    StartKeepsIds(sys, c);
    StartKeepsTxs(sys, c);
  }

  lemma GrantWriter(db: Tables, tx: Tx, r: Row)
    requires WriterInv(db, tx)
    ensures WriterInv(db, Granted(tx, r))
  {
    assert ProgressOf(Granted(tx, r)) == ProgressOf(tx);
  }

  lemma GrantInserter(db: Tables, tx: Tx, r: Row)
    requires InserterInv(db, tx)
    ensures InserterInv(db, Granted(tx, r))
  {
  }

  lemma GrantKeeps(db: Tables, tx: Tx, r: Row)
    requires TxInv(db, tx) && Lacks(db, tx, r)
    ensures TxInv(db, Granted(tx, r))
  {
    if tx.pc.Writing? {
      if WriterInv(db, tx) { GrantWriter(db, tx, r); } else { GrantInserter(db, tx, r); }
    }
  }

  lemma GrantExclusive(sys: Sys, t: TxId, r: Row)
    requires Exclusive(sys.txs) && t in sys.txs && Free(sys, t, r)
    ensures Exclusive(sys.txs[t := Granted(sys.txs[t], r)])
  {
    var txs' := sys.txs[t := Granted(sys.txs[t], r)];
    forall i <- txs', j <- txs' | i != j ensures txs'[i].xs !! (txs'[j].xs + txs'[j].ss) {
      assert i in sys.txs && j in sys.txs;
    }
  }

  lemma AcquireKeeps(sys: Sys, t: TxId, r: Row)
    requires Inv(sys) && Enabled(sys, Acquire(t, r))
    ensures Inv(Next(sys, Acquire(t, r)))
  {
    var sys' := Next(sys, Acquire(t, r));
    GrantKeeps(sys.db, sys.txs[t], r);
    GrantExclusive(sys, t, r);
    IdsKept(sys.db, sys.txs, t, Granted(sys.txs[t], r));
    assert LogInv(sys');
  }

  lemma SerialGrows(history: seq<Tables>, log: seq<Entry>, db: Tables, db': Tables, e: Entry)
    requires Serial(history, log, db) && Serve(db, e.call) == Reply(db', e.answer)
    ensures Serial(history + [db'], log + [e], db')
  {
  }

  lemma ExecKeeps(sys: Sys, t: TxId)
    requires Inv(sys) && Enabled(sys, Exec(t))
    ensures Inv(Next(sys, Exec(t)))
  {
    var tx, tx', sys' := sys.txs[t], ExecTx(sys.db, sys.clock, sys.txs[t]), Next(sys, Exec(t));
    ExecSound(sys.db, sys.clock, tx);
    if Settles(tx, tx') { SerialGrows(sys.history, sys.log, sys.db, sys.db, Entry(t, tx'.call, tx'.promised)); }
    ExecKeepsTxs(sys, t, tx', sys'.txs);
    ExecKeepsLog(sys, t, sys');
  }

  lemma ExecKeepsTxs(sys: Sys, t: TxId, tx': Tx, txs': map<TxId, Tx>)
    requires Inv(sys) && t in sys.txs && Sound(sys.db, sys.txs[t], tx') && txs' == sys.txs[t := tx']
    ensures Exclusive(txs') && FreshIds(sys.db, txs')
    ensures forall i <- txs' :: i < sys.next && TxInv(sys.db, txs'[i])
  {
    IdsKept(sys.db, sys.txs, t, tx');
  }

  lemma ExecKeepsLog(sys: Sys, t: TxId, sys': Sys)
    requires Inv(sys) && Enabled(sys, Exec(t)) && sys' == Next(sys, Exec(t))
    requires Sound(sys.db, sys.txs[t], ExecTx(sys.db, sys.clock, sys.txs[t]))
    ensures LogInv(sys')
  {
    var tx, tx' := sys.txs[t], ExecTx(sys.db, sys.clock, sys.txs[t]);
    var e := Entry(t, tx'.call, tx'.promised);
    assert forall x <- sys.log :: x in sys'.log;
    if Settles(tx, tx') { assert sys'.log[|sys.log|] == e; }
  }

  lemma CommitKeepsTxs(sys: Sys, t: TxId, db': Tables, txs': map<TxId, Tx>)
    requires Inv(sys) && Guarded(sys, Commit(t)) && t in sys.txs && sys.txs[t].pc.Writing? && Current(sys.txs[t]).None?
    requires db' == Overlay(sys.db, sys.txs[t].buf) && txs' == sys.txs - {t}
    ensures forall i <- txs' :: i < sys.next && TxInv(db', txs'[i])
  {
    var tx := sys.txs[t];
    if WriterInv(sys.db, tx) { WriterFootprint(sys.db, tx); } else { InserterFootprint(sys.db, tx); }
    forall i <- txs' ensures i < sys.next && TxInv(db', txs'[i]) {
      OthersUndisturbed(sys.db, tx, tx.owner.value, txs'[i]);
      TxStable(sys.db, db', txs'[i]);
    }
  }

  lemma ExpectedIds(db: Tables, c: Call, u: UserId, p: Progress)
    requires Supports(AccountOf(db, u), c)
    ensures var rows := ExpectedRows(AccountOf(db, u), c, u, p);
            && (forall s <- rows.enrolments :: s in db.enrolments && rows.enrolments[s].id == db.enrolments[s].id)
            && rows.credentials.Keys <= db.credentials.Keys
  {
  }

  // The ids a commit adds to the tables are those of its own call.
  lemma CommittedIds(db: Tables, tx: Tx)
    requires tx.pc.Writing? && TxInv(db, tx)
    ensures forall s <- tx.buf.enrolments ::
              (s in db.enrolments && tx.buf.enrolments[s].id == db.enrolments[s].id)
              || (tx.call.CreateEnrolment? && tx.buf.enrolments[s].id == tx.call.enrolment)
    ensures forall c <- tx.buf.credentials ::
              c in db.credentials || (tx.call.CreateCredential? && c == tx.call.credential)
  {
    if WriterInv(db, tx) { ExpectedIds(db, tx.call, tx.owner.value, ProgressOf(tx)); }
  }

  lemma CommitKeepsIds(sys: Sys, t: TxId, db': Tables, txs': map<TxId, Tx>)
    requires Inv(sys) && t in sys.txs && sys.txs[t].pc.Writing?
    requires db' == Overlay(sys.db, sys.txs[t].buf) && txs' == sys.txs - {t}
    ensures FreshIds(db', txs')
  {
    CommittedIds(sys.db, sys.txs[t]);
  }

  lemma CommitKeeps(sys: Sys, t: TxId)
    requires Inv(sys) && Enabled(sys, Commit(t)) && Guarded(sys, Commit(t))
    ensures Inv(Next(sys, Commit(t)))
  {
    var tx, sys' := sys.txs[t], Next(sys, Commit(t));
    assert Exclusive(sys'.txs);
    assert forall x <- sys.log :: x in sys'.log;
    if tx.pc.Finished? {
      assert sys'.delivered[t] in sys'.log;
    } else {
      CommitIsServe(sys.db, tx);
      ServeKeeps(sys.db, tx.call);
      SerialGrows(sys.history, sys.log, sys.db, sys'.db, Entry(t, tx.call, tx.answer));
      CommitKeepsTxs(sys, t, sys'.db, sys'.txs);
      CommitKeepsIds(sys, t, sys'.db, sys'.txs);
      assert sys'.log[|sys.log|] == sys'.delivered[t];
    }
  }

  // ------------------------------------------------------------------ single statements

  lemma OneCredentialRevoked(m: map<CredentialId, Credential>, c: CredentialId, u: UserId)
    requires c in m && (m[c].owner != u || m[c].revoked)
    ensures CredentialsOf(m[c := m[c].(revoked := true)], u) == CredentialsOf(m, u)
  {
    var l, r := CredentialsOf(m[c := m[c].(revoked := true)], u), CredentialsOf(m, u);
    assert forall x :: x in l <==> x in r;
    assert m[c].revoked ==> m[c].(revoked := true) == m[c];
  }

  lemma WrittenIsLocked(db: Tables, tx: Tx, x: CredentialId)
    requires TxInv(db, tx) && tx.pc.Writing? && HoldsUser(tx) && ProgressOf(tx).revoke
    requires x in db.credentials && db.credentials[x].owner == tx.owner.value && !db.credentials[x].revoked
    ensures CredentialRow(x) in tx.xs
  {
    assert x in AccountRevoked(AccountOf(db, tx.owner.value));
  }

  lemma RevokeTables(db: Tables, c: Call)
    requires c.RevokeCredential?
    ensures var db', x := Serve(db, c).tables, c.credential;
            db' == db || (x in db.credentials && db' == db.(credentials := db.credentials[x := db.credentials[x].(revoked := true)]))
  {
  }

  // A lone RevokeCredential meets no row a revoke has written and not committed.
  lemma RevokeSameAccount(db: Tables, db': Tables, x: CredentialId, tx: Tx)
    requires TxInv(db, tx) && HoldsUser(tx) && CredentialRow(x) !in tx.xs && x in db.credentials
    requires db' == db.(credentials := db.credentials[x := db.credentials[x].(revoked := true)])
    ensures SameAccount(db, db', tx)
  {
    if tx.pc.Writing? && ProgressOf(tx).revoke {
      if db.credentials[x].owner == tx.owner.value && !db.credentials[x].revoked { WrittenIsLocked(db, tx, x); }
      OneCredentialRevoked(db.credentials, x, tx.owner.value);
    }
  }

  lemma RevokeUndisturbed(db: Tables, c: Call, tx: Tx)
    requires c.RevokeCredential? && TxInv(db, tx) && CredentialRow(c.credential) !in tx.xs
    ensures Undisturbed(db, Serve(db, c).tables, tx)
  {
    var db' := Serve(db, c).tables;
    RevokeTables(db, c);
    if HoldsUser(tx) && db' != db { RevokeSameAccount(db, db', c.credential, tx); }
  }

  predicate Early(tx: Tx) {
    !tx.pc.Spending? && !tx.pc.Recheck? && !tx.pc.Naming? && !tx.pc.Writing?
  }

  // Before its first write a transaction relies on no user row being as it is.
  lemma EarlyStable(db: Tables, db': Tables, tx: Tx)
    requires TxInv(db, tx) && Early(tx) && db'.enrolments == db.enrolments
    ensures TxInv(db', tx)
  {
  }

  lemma LateOwnerExists(db: Tables, tx: Tx)
    requires TxInv(db, tx) && !Early(tx) && EnrolmentOwners(db.enrolments, db.users) && tx.owner.Some?
    ensures tx.owner.value in db.users
  {
  }

  lemma ReadUndisturbed(db: Tables, c: Call, tx: Tx)
    requires c.GetPasswordHash?
    ensures Undisturbed(db, Serve(db, c).tables, tx)
  {
  }

  lemma AdminUndisturbed(db: Tables, c: Call, tx: Tx)
    requires c.SetUserAdmin? && UserRow(c.user) !in tx.xs && UserRow(c.user) !in tx.ss
    ensures Undisturbed(db, Serve(db, c).tables, tx)
  {
  }

  lemma NewUserUndisturbed(db: Tables, c: Call, tx: Tx)
    requires c.CreateUser? && (tx.owner.Some? ==> tx.owner.value in db.users)
    ensures Undisturbed(db, Serve(db, c).tables, tx)
  {
  }

  lemma SingleStands(sys: Sys, c: Call, t: TxId)
    requires Inv(sys) && Enabled(sys, Single(c)) && t in sys.txs
    ensures TxInv(Serve(sys.db, c).tables, sys.txs[t])
  {
    var tx, db' := sys.txs[t], Serve(sys.db, c).tables;
    assert TxInv(sys.db, tx);
    if c.RevokeCredential? {
      RevokeUndisturbed(sys.db, c, tx);
      TxStable(sys.db, db', tx);
    } else if Early(tx) {
      EarlyStable(sys.db, db', tx);
    } else {
      if tx.owner.Some? { LateOwnerExists(sys.db, tx); }
      match c {
        case SetUserAdmin(_, _) => AdminUndisturbed(sys.db, c, tx);
        case CreateUser(_, _, _, _) => NewUserUndisturbed(sys.db, c, tx);
        case _ => ReadUndisturbed(sys.db, c, tx);
      }
      TxStable(sys.db, db', tx);
    }
  }

  lemma SingleKeepsIds(db: Tables, db': Tables, txs: map<TxId, Tx>)
    requires FreshIds(db, txs) && db'.enrolments == db.enrolments && db'.credentials.Keys == db.credentials.Keys
    ensures FreshIds(db', txs)
  {
  }

  lemma SingleKeepsLog(sys: Sys, c: Call, sys': Sys)
    requires Inv(sys) && Enabled(sys, Single(c)) && sys' == Next(sys, Single(c))
    ensures Valid(sys'.db) && Serial(sys'.history, sys'.log, sys'.db) && LogInv(sys')
  {
    var entry := Entry(sys.next, c, Serve(sys.db, c).answer);
    ServeKeeps(sys.db, c);
    SerialGrows(sys.history, sys.log, sys.db, sys'.db, entry);
    assert forall x <- sys.log :: x in sys'.log;
    assert sys'.log[|sys.log|] == entry;
  }

  lemma SingleTables(db: Tables, c: Call)
    requires SingleStatement(c)
    ensures Serve(db, c).tables.enrolments == db.enrolments && Serve(db, c).tables.credentials.Keys == db.credentials.Keys
  {
  }

  lemma SingleKeeps(sys: Sys, c: Call)
    requires Inv(sys) && Enabled(sys, Single(c))
    ensures Inv(Next(sys, Single(c)))
  {
    var sys' := Next(sys, Single(c));
    SingleKeepsLog(sys, c, sys');
    SingleTables(sys.db, c);
    SingleKeepsIds(sys.db, sys'.db, sys.txs);
    forall t <- sys'.txs ensures t < sys'.next && TxInv(sys'.db, sys'.txs[t]) { SingleStands(sys, c, t); }
  }

  lemma NextKeeps(sys: Sys, e: Event)
    requires Inv(sys) && Enabled(sys, e) && Guarded(sys, e)
    ensures Inv(Next(sys, e))
  {
    match e
    case Begin(c) => BeginKeeps(sys, c);
    case Acquire(t, r) => AcquireKeeps(sys, t, r);
    case Exec(t) => ExecKeeps(sys, t);
    case Commit(t) => CommitKeeps(sys, t);
    case Abort(t) =>
    case Single(c) => SingleKeeps(sys, c);
    case Tick =>
  }

  lemma {:induction false} Reachable(states: seq<Sys>, events: seq<Event>, i: nat)
    requires GuardedExecution(states, events) && i < |states|
    ensures Inv(states[i])
  {
    if i > 0 {
      Reachable(states, events, i - 1);
      NextKeeps(states[i - 1], events[i - 1]);
    }
  }

  function Calls(log: seq<Entry>): (calls: seq<Call>)
    ensures |calls| == |log| && forall k | 0 <= k < |log| :: calls[k] == log[k].call
  {
    seq(|log|, k requires 0 <= k < |log| => log[k].call)
  }

  lemma SerialAt(history: seq<Tables>, log: seq<Entry>, db: Tables, k: nat)
    requires Serial(history, log, db) && k < |log|
    ensures Serve(history[k], log[k].call) == Reply(history[k + 1], log[k].answer)
  {
  }

  lemma SerialIsRun(history: seq<Tables>, log: seq<Entry>, db: Tables)
    requires Serial(history, log, db)
    ensures Run(history, Calls(log))
  {
  }

  // REFINEMENT. In every reachable state of every interleaving, the committed tables are
  // the last state of a serial run of the logged calls, each answered as it was answered,
  // and whatever a transaction told its caller is in that log.
  lemma InterleavingsAreSerial(states: seq<Sys>, events: seq<Event>, i: nat)
    requires GuardedExecution(states, events) && i < |states|
    ensures var sys := states[i];
            && Run(sys.history, Calls(sys.log))
            && Serial(sys.history, sys.log, sys.db)
            && (forall t <- sys.delivered :: sys.delivered[t] in sys.log)
  {
    Reachable(states, events, i);
    SerialIsRun(states[i].history, states[i].log, states[i].db);
  }
}
