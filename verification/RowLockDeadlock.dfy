/**
The waits-for graph of the row locks. A transaction that waits is ranked by what it
already holds: nothing, a shared user row, or its person's rows; every wait leads to a
strictly higher rank, and a transaction of the highest rank waits for nobody.
*/
module RowLockDeadlock {
  import opened Wrappers
  import opened Accounts
  import opened AccountRuns
  import opened RowLocks
  import opened RowLockInvariant
  import opened RowLockSteps
  import opened RowLockCommit
  import opened RowLockRefinement

  // ------------------------------------------------------------------ lock shape

  // `r` is a row of person `u`.
  ghost predicate Belongs(db: Tables, r: Row, u: UserId) {
    match r
    case UserRow(v) => v == u
    case EnrolmentRow(s) => s in db.enrolments && db.enrolments[s].owner == u
    case CredentialRow(c) => c in db.credentials && db.credentials[c].owner == u
    case PasswordRow(v) => v == u
    case _ => false
  }

  function UserRows(owner: Option<UserId>): set<Row> {
    if owner.Some? then {UserRow(owner.value)} else {}
  }

  function LedgerRows(c: Call): set<Row> {
    if c.Redeem? && c.key.Some? then {LedgerRow(c.key.value)} else {}
  }

  function InsertRows(c: Call): set<Row> {
    if c.CreateEnrolment? then {EnrolmentRow(c.secret)}
    else if c.CreateCredential? then {TokenRow(c.token)} else {}
  }

  predicate Inserts(c: Call) {
    c.CreateEnrolment? || c.CreateCredential?
  }

  // A writer holds rows of its person only, and its ledger row from the record on.
  ghost predicate WriterShape(db: Tables, tx: Tx) {
    && tx.owner.Some? && tx.ss == {}
    && forall r <- tx.xs :: Belongs(db, r, tx.owner.value)
         || (r in LedgerRows(tx.call) && (Current(tx) == Some(RecordRedemption) || Current(tx).None?))
  }

  ghost predicate Shape(db: Tables, tx: Tx) {
    match tx.pc
    case Check => tx.xs == {} && tx.ss == {}
    case Owner => tx.xs == {} && tx.ss == {}
    case LockUser => tx.ss == {} && tx.xs <= UserRows(tx.owner)
    case Select => tx.xs == {} && tx.ss <= UserRows(tx.owner)
    case Spending => tx.ss == {} && tx.call.Redeem? && tx.xs <= UserRows(tx.owner) + {EnrolmentRow(tx.call.secret)}
    case Recheck => tx.ss == {} && tx.xs <= UserRows(tx.owner) + LedgerRows(tx.call)
    case Naming => tx.ss == {} && tx.xs <= UserRows(tx.owner)
    case Writing =>
      if Inserts(tx.call) then tx.ss <= UserRows(tx.owner) && tx.xs <= InsertRows(tx.call) else WriterShape(db, tx)
    case Finished => true
    case Doomed => true
  }

  ghost predicate Shapes(sys: Sys) {
    forall t <- sys.txs :: Shape(sys.db, sys.txs[t])
  }

  lemma RevokeNeeds(db: Tables, tx: Tx, r: Row)
    requires tx.pc.Writing? && tx.owner.Some? && RowsInv(AccountOf(db, tx.owner.value), tx) && Current(tx) == Some(RevokeCredentials)
    requires r in NeedX(db, tx)
    ensures Belongs(db, r, tx.owner.value)
  {
    ProgressAdvances(tx, Ran(tx));
    RevokedView(db, tx.buf, tx.owner.value);
  }

  lemma VoidedBelong(db: Tables, buf: Tables, u: UserId, c: Call, s: Secret)
    requires c.Redeem? ==> c.secret in AccountOf(db, u).enrolments
    requires buf.enrolments == SpentRow(AccountOf(db, u), c) && s in VoidedRows(Overlay(db, buf), u)
    ensures Belongs(db, EnrolmentRow(s), u)
  {
  }

  lemma BeforeVoid(a: Account, tx: Tx)
    requires ReadyTo(a, tx, VoidEnrolments)
    ensures tx.buf.enrolments == SpentRow(a, tx.call) && (tx.call.Redeem? ==> tx.call.secret in a.enrolments)
  {
    ProgressAdvances(tx, Ran(tx));
    OntoNothing(SpentRow(a, tx.call));
  }

  lemma VoidNeeds(db: Tables, tx: Tx, u: UserId, r: Row)
    requires tx.pc.Writing? && tx.owner == Some(u) && Current(tx) == Some(VoidEnrolments) && r in NeedX(db, tx)
    requires tx.buf.enrolments == SpentRow(AccountOf(db, u), tx.call)
    requires tx.call.Redeem? ==> tx.call.secret in AccountOf(db, u).enrolments
    ensures Belongs(db, r, u)
  {
    var s :| s in VoidedRows(Overlay(db, tx.buf), u) && r == EnrolmentRow(s);
    VoidedBelong(db, tx.buf, u, tx.call, s);
  }

  // What a writer's next statement needs is its person's, or its ledger row.
  lemma WriterNeeds(db: Tables, tx: Tx, r: Row)
    requires tx.pc.Writing? && WriterInv(db, tx) && Current(tx).Some? && r in NeedX(db, tx)
    ensures Belongs(db, r, tx.owner.value) || (r in LedgerRows(tx.call) && Current(tx) == Some(RecordRedemption))
  {
    match Current(tx).value
    case RevokeCredentials => RevokeNeeds(db, tx, r);
    case VoidEnrolments =>
      BeforeVoid(AccountOf(db, tx.owner.value), tx);
      VoidNeeds(db, tx, tx.owner.value, r);
    case _ =>
  }

  lemma GrantWriterShape(db: Tables, tx: Tx, r: Row)
    requires tx.pc.Writing? && !Inserts(tx.call) && WriterShape(db, tx)
    requires Belongs(db, r, tx.owner.value) || (r in LedgerRows(tx.call) && Current(tx) == Some(RecordRedemption))
    ensures WriterShape(db, Granted(tx, r))
  {
    assert Current(Granted(tx, r)) == Current(tx);
  }

  lemma GrantInserterShape(db: Tables, tx: Tx, r: Row)
    requires tx.pc.Writing? && Inserts(tx.call) && Shape(db, tx) && Lacks(db, tx, r)
    ensures Shape(db, Granted(tx, r))
  {
  }

  lemma GrantEarlyShape(db: Tables, tx: Tx, r: Row)
    requires !tx.pc.Writing? && Shape(db, tx) && Lacks(db, tx, r)
    ensures Shape(db, Granted(tx, r))
  {
  }

  lemma GrantShape(db: Tables, tx: Tx, r: Row)
    requires TxInv(db, tx) && Shape(db, tx) && Lacks(db, tx, r)
    ensures Shape(db, Granted(tx, r))
  {
    if !tx.pc.Writing? {
      GrantEarlyShape(db, tx, r);
    } else if Inserts(tx.call) {
      GrantInserterShape(db, tx, r);
    } else {
      WriterNeeds(db, tx, r);
      GrantWriterShape(db, tx, r);
    }
  }

  lemma WriteShape(db: Tables, tx: Tx)
    requires tx.pc.Writing? && TxInv(db, tx) && Shape(db, tx) && Runnable(tx)
    ensures Shape(db, WriteStep(db, tx))
  {
    if !Inserts(tx.call) {
      WriterIsNoInserter(db, tx);
      StatementFrame(db, tx);
      ProgressAdvances(tx, Ran(tx));
    }
  }

  lemma SpendShape(db: Tables, clock: nat, tx: Tx)
    requires tx.pc.Spending? && TxInv(db, tx) && Shape(db, tx)
    ensures Shape(db, SpendStep(db, clock, tx))
  {
  }

  lemma EarlyShape(db: Tables, clock: nat, tx: Tx)
    requires TxInv(db, tx) && Shape(db, tx) && Runnable(tx)
    requires tx.pc.Check? || tx.pc.Owner? || tx.pc.LockUser? || tx.pc.Select?
    ensures Shape(db, ExecTx(db, clock, tx))
  {
  }

  lemma ExecShape(db: Tables, clock: nat, tx: Tx)
    requires TxInv(db, tx) && Shape(db, tx) && Runnable(tx)
    ensures Shape(db, ExecTx(db, clock, tx))
  {
    match tx.pc
    case Spending => SpendShape(db, clock, tx);
    case Writing => WriteShape(db, tx);
    case Recheck =>
    case Naming =>
    case _ => EarlyShape(db, clock, tx);
  }

  lemma ShapeStable(db: Tables, db': Tables, tx: Tx)
    requires Shape(db, tx)
    requires forall s <- db.enrolments :: s in db'.enrolments && db'.enrolments[s].owner == db.enrolments[s].owner
    requires forall c <- db.credentials :: c in db'.credentials && db'.credentials[c].owner == db.credentials[c].owner
    ensures Shape(db', tx)
  {
  }

  lemma CommitShapes(sys: Sys, t: TxId)
    requires Inv(sys) && Shapes(sys) && Enabled(sys, Commit(t))
    ensures Shapes(Next(sys, Commit(t)))
  {
    var tx, sys' := sys.txs[t], Next(sys, Commit(t));
    if !tx.pc.Finished? {
      CommitIsServe(sys.db, tx);
      ServeKeeps(sys.db, tx.call);
      forall i <- sys'.txs ensures Shape(sys'.db, sys'.txs[i]) {
        ShapeStable(sys.db, sys'.db, sys'.txs[i]);
      }
    }
  }

  lemma PutShapes(sys: Sys, t: TxId, tx': Tx, sys': Sys)
    requires Shapes(sys) && Shape(sys.db, tx') && sys'.db == sys.db && sys'.txs == sys.txs[t := tx']
    ensures Shapes(sys')
  {
  }

  lemma ExecShapes(sys: Sys, t: TxId)
    requires Inv(sys) && Shapes(sys) && Enabled(sys, Exec(t))
    ensures Shapes(Next(sys, Exec(t)))
  {
    var tx := sys.txs[t];
    ExecShape(sys.db, sys.clock, tx);
    PutShapes(sys, t, ExecTx(sys.db, sys.clock, tx), Next(sys, Exec(t)));
  }

  lemma AcquireShapes(sys: Sys, t: TxId, r: Row)
    requires Inv(sys) && Shapes(sys) && Enabled(sys, Acquire(t, r))
    ensures Shapes(Next(sys, Acquire(t, r)))
  {
    GrantShape(sys.db, sys.txs[t], r);
    PutShapes(sys, t, Granted(sys.txs[t], r), Next(sys, Acquire(t, r)));
  }

  lemma SingleShapes(sys: Sys, c: Call)
    requires Inv(sys) && Shapes(sys) && Enabled(sys, Single(c))
    ensures Shapes(Next(sys, Single(c)))
  {
    var sys' := Next(sys, Single(c));
    ServeKeeps(sys.db, c);
    forall i <- sys'.txs ensures Shape(sys'.db, sys'.txs[i]) { ShapeStable(sys.db, sys'.db, sys'.txs[i]); }
  }

  lemma NextShapes(sys: Sys, e: Event)
    requires Inv(sys) && Shapes(sys) && Enabled(sys, e)
    ensures Shapes(Next(sys, e))
  {
    match e
    case Begin(c) =>
    case Acquire(t, r) => AcquireShapes(sys, t, r);
    case Exec(t) => ExecShapes(sys, t);
    case Commit(t) => CommitShapes(sys, t);
    case Abort(t) =>
    case Single(c) => SingleShapes(sys, c);
    case Tick =>
  }

  lemma {:induction false} ReachableShapes(states: seq<Sys>, events: seq<Event>, i: nat)
    requires GuardedExecution(states, events) && i < |states|
    ensures Inv(states[i]) && Shapes(states[i])
  {
    Reachable(states, events, i);
    if i > 0 {
      ReachableShapes(states, events, i - 1);
      NextShapes(states[i - 1], events[i - 1]);
    }
  }

  // ------------------------------------------------------------------------ rank

  // It lacks no row, so nothing keeps its next statement waiting.
  ghost predicate Supplied(db: Tables, tx: Tx) {
    forall r: Row :: !Lacks(db, tx, r)
  }

  ghost function Rank(db: Tables, tx: Tx): nat {
    if Supplied(db, tx) then 3
    else if tx.xs == {} && tx.ss == {} then 0
    else if Inserts(tx.call) then 1
    else 2
  }

  // Who holds a row other than a user row waits for nothing, or is a writer of that row's person.
  lemma HolderKinds(db: Tables, tx: Tx, r: Row)
    requires TxInv(db, tx) && Shape(db, tx) && r in tx.xs + tx.ss && !r.UserRow? && !Supplied(db, tx)
    ensures tx.pc.Writing? && !Inserts(tx.call) && HoldsUser(tx) && Belongs(db, r, tx.owner.value)
  {
  }

  // What a transaction that already holds something waits for.
  lemma WaiterKinds(db: Tables, tx: Tx, r: Row)
    requires TxInv(db, tx) && Shape(db, tx) && Lacks(db, tx, r) && (tx.xs != {} || tx.ss != {})
    ensures !r.UserRow?
    ensures !Inserts(tx.call) ==>
              (HoldsUser(tx) && Belongs(db, r, tx.owner.value)) || forall u :: !Belongs(db, r, u)
  {
    if tx.pc.Writing? && !Inserts(tx.call) { WriterNeeds(db, tx, r); }
  }

  lemma WaitsRise(sys: Sys, t: TxId, t': TxId, r: Row)
    requires Inv(sys) && Shapes(sys) && WaitsFor(sys, t, t', r)
    ensures Rank(sys.db, sys.txs[t]) < Rank(sys.db, sys.txs[t'])
  {
    var tx, other := sys.txs[t], sys.txs[t'];
    if tx.xs != {} || tx.ss != {} {
      WaiterKinds(sys.db, tx, r);
      if !Supplied(sys.db, other) {
        HolderKinds(sys.db, other, r);
        assert tx.xs !! other.xs;
      }
    }
  }

  // -------------------------------------------------------------- no circular wait

  ghost predicate Waits(sys: Sys, t: TxId, t': TxId) {
    exists r :: WaitsFor(sys, t, t', r)
  }

  // A path of the waits-for graph: each transaction waits for the next.
  ghost predicate WaitPath(sys: Sys, ts: seq<TxId>) {
    && |ts| > 0
    && (forall i | 0 <= i < |ts| :: ts[i] in sys.txs)
    && forall i | 0 <= i < |ts| - 1 :: Waits(sys, ts[i], ts[i + 1])
  }

  lemma {:induction false} PathsRise(sys: Sys, ts: seq<TxId>, i: nat)
    requires Inv(sys) && Shapes(sys) && WaitPath(sys, ts) && i < |ts|
    ensures Rank(sys.db, sys.txs[ts[0]]) + i <= Rank(sys.db, sys.txs[ts[i]])
  {
    if i > 0 {
      PathsRise(sys, ts, i - 1);
      assert Waits(sys, ts[i - 1], ts[i - 1 + 1]);
      var r :| WaitsFor(sys, ts[i - 1], ts[i], r);
      WaitsRise(sys, ts[i - 1], ts[i], r);
    }
  }

  // NO CIRCULAR WAIT. Whatever is in flight, no path of the waits-for graph returns to
  // where it began, and none has more than four transactions on it.
  lemma NoCircularWait(states: seq<Sys>, events: seq<Event>, i: nat, ts: seq<TxId>)
    requires GuardedExecution(states, events) && i < |states| && WaitPath(states[i], ts)
    ensures |ts| <= 4
    ensures |ts| > 1 ==> ts[0] != ts[|ts| - 1]
  {
    ReachableShapes(states, events, i);
    PathsRise(states[i], ts, |ts| - 1);
  }

  // The transaction an event moves forward.
  ghost predicate Advances(sys: Sys, t: TxId) {
    || (exists r: Row :: Enabled(sys, Acquire(t, r)))
    || Enabled(sys, Exec(t)) || Enabled(sys, Commit(t))
    || (t in sys.txs && sys.txs[t].pc.Doomed?)
  }

  lemma Unwaiting(sys: Sys, t: TxId)
    requires Inv(sys) && t in sys.txs
    ensures Advances(sys, t) || exists t', r :: WaitsFor(sys, t, t', r)
  {
    var tx := sys.txs[t];
    if r: Row :| Lacks(sys.db, tx, r) {
      if Free(sys, t, r) {
        assert Enabled(sys, Acquire(t, r));
      } else {
        var t' :| t' in sys.txs && t' != t && Excludes(sys.txs[t'], tx, r);
        assert WaitsFor(sys, t, t', r);
      }
    } else {
      SuppliedRuns(sys, t);
    }
  }

  lemma SuppliedRuns(sys: Sys, t: TxId)
    requires Inv(sys) && t in sys.txs && Supplied(sys.db, sys.txs[t])
    ensures Enabled(sys, Exec(t)) || Enabled(sys, Commit(t)) || sys.txs[t].pc.Doomed?
  {
    var tx := sys.txs[t];
    assert TxInv(sys.db, tx);
    forall r | r in NeedX(sys.db, tx) ensures r in tx.xs { assert !Lacks(sys.db, tx, r); }
    forall r | r in NeedS(tx) ensures r in tx.xs + tx.ss { assert !Lacks(sys.db, tx, r); }
  }

  lemma {:induction false} SomeoneAhead(sys: Sys, t: TxId, height: nat)
    requires Inv(sys) && Shapes(sys) && t in sys.txs && Rank(sys.db, sys.txs[t]) + height == 3
    ensures exists t' :: t' in sys.txs && Advances(sys, t')
    decreases height
  {
    Unwaiting(sys, t);
    if !Advances(sys, t) {
      var t', r :| WaitsFor(sys, t, t', r);
      WaitsRise(sys, t, t', r);
      SomeoneAhead(sys, t', 3 - Rank(sys.db, sys.txs[t']));
    }
  }

  // NO STANDSTILL. While anything is in flight, some transaction can take its next lock,
  // run its next statement, commit, or has already failed and only rolls back.
  lemma NoStandstill(states: seq<Sys>, events: seq<Event>, i: nat)
    requires GuardedExecution(states, events) && i < |states| && states[i].txs != map[]
    ensures exists t :: t in states[i].txs && Advances(states[i], t)
  {
    ReachableShapes(states, events, i);
    var t :| t in states[i].txs;
    SomeoneAhead(states[i], t, 3 - Rank(states[i].db, states[i].txs[t]));
  }
}
