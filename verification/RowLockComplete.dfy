/**
The converse of the refinement: a call that meets nobody runs to its commit, is never
doomed, and does to the tables and answers what the atomic transition says. So the machine
gets every call done, and the refinement is not one of runs that only abort.
*/
module RowLockComplete {
  import opened Wrappers
  import opened SetSizes
  import opened Reachability
  import opened Accounts
  import opened AccountRuns
  import opened RowLocks
  import opened RowLockInvariant
  import opened RowLockSteps
  import opened RowLockCommit
  import opened RowLockRefinement
  import opened RowLockDeadlock
  import opened RowLockLateEnrolment

  // The call as it is logged: a redemption at the clock it spent or was refused at.
  function Timed(c: Call, clock: nat): Call {
    match c
    case Redeem(key, s, h, _) => Redeem(key, s, h, clock)
    case _ => c
  }

  predicate Settled(tx: Tx) {
    tx.pc.Finished? || tx.pc.Naming?
  }

  // What the call has come to, on tables nobody changes.
  ghost predicate Underway(db: Tables, clock: nat, tx: Tx, c: Call) {
    && Timed(tx.call, clock) == Timed(c, clock) && !tx.pc.Doomed?
    && (Settled(tx) || tx.pc.Recheck? || tx.pc.Writing? ==> tx.call == Timed(c, clock))
    && (tx.call.Redeem? && !tx.pc.Check? && !Settled(tx) ==> !Recorded(db, tx.call.key))
    && (tx.pc.Writing? ==> tx.step <= 5)
  }

  // Nobody but `t` is in flight since `first`, and `t` serves `c`.
  ghost predicate Solo(first: Sys, sys: Sys, t: TxId, c: Call) {
    && Inv(sys) && sys.txs.Keys == {t} && sys.db == first.db && sys.clock == first.clock
    && Underway(sys.db, sys.clock, sys.txs[t], c)
    && (if Settled(sys.txs[t])
        then sys.log == first.log + [Entry(t, sys.txs[t].call, sys.txs[t].promised)] && sys.history == first.history + [first.db]
        else sys.log == first.log && sys.history == first.history)
  }

  function Stage(tx: Tx): nat {
    match tx.pc
    case Check => 13
    case Owner => 12
    case LockUser => 11
    case Select => 11
    case Spending => 10
    case Recheck => 9
    case Naming => 8
    case Writing => if tx.step <= 6 then 7 - tx.step else 0
    case Finished => 0
    case Doomed => 0
  }

  // --------------------------------------------------------------------- taking the locks

  function Lacking(db: Tables, tx: Tx): set<Row> {
    set r | r in NeedX(db, tx) + NeedS(tx) && Lacks(db, tx, r)
  }

  lemma GrantLacksLess(db: Tables, tx: Tx, r: Row)
    requires Lacks(db, tx, r)
    ensures NeedX(db, Granted(tx, r)) == NeedX(db, tx) && NeedS(Granted(tx, r)) == NeedS(tx)
    ensures Lacking(db, Granted(tx, r)) <= Lacking(db, tx) - {r}
  {
  }

  lemma GrantUnderway(db: Tables, clock: nat, tx: Tx, c: Call, r: Row)
    requires Underway(db, clock, tx, c)
    ensures Underway(db, clock, Granted(tx, r), c) && Stage(Granted(tx, r)) == Stage(tx)
    ensures Settled(Granted(tx, r)) == Settled(tx) && Granted(tx, r).call == tx.call && Granted(tx, r).promised == tx.promised
  {
  }

  lemma AcquiresAlone(first: Sys, sys: Sys, t: TxId, c: Call, r: Row)
    requires Solo(first, sys, t, c) && Lacks(sys.db, sys.txs[t], r)
    ensures Enabled(sys, Acquire(t, r)) && Solo(first, Next(sys, Acquire(t, r)), t, c)
    ensures Next(sys, Acquire(t, r)).txs[t] == Granted(sys.txs[t], r)
  {
    AcquireKeeps(sys, t, r);
    GrantUnderway(sys.db, sys.clock, sys.txs[t], c, r);
  }

  lemma TakesOne(start: Sys, first: Sys, sys: Sys, t: TxId, c: Call, r: Row) returns (sys': Sys)
    requires Reaches(Moves, start, sys) && Solo(first, sys, t, c) && Lacks(sys.db, sys.txs[t], r)
    ensures Reaches(Moves, start, sys') && Solo(first, sys', t, c) && Stage(sys'.txs[t]) == Stage(sys.txs[t])
    ensures |Lacking(sys'.db, sys'.txs[t])| < |Lacking(sys.db, sys.txs[t])|
  {
    AcquiresAlone(first, sys, t, c, r);
    Step(start, sys, Acquire(t, r));
    GrantLacksFewer(sys.db, sys.txs[t], r);
    sys' := Next(sys, Acquire(t, r));
  }

  lemma GrantLacksFewer(db: Tables, tx: Tx, r: Row)
    requires Lacks(db, tx, r)
    ensures |Lacking(db, Granted(tx, r))| < |Lacking(db, tx)|
  {
    GrantLacksLess(db, tx, r);
    SubsetSize(Lacking(db, Granted(tx, r)), Lacking(db, tx) - {r});
    assert r in Lacking(db, tx);
  }

  lemma LacksNothing(db: Tables, tx: Tx)
    requires Lacking(db, tx) == {}
    ensures Supplied(db, tx)
  {
    forall r ensures !Lacks(db, tx, r) { assert r !in Lacking(db, tx); }
  }

  // It takes every row its next statement needs.
  lemma {:induction false} TakesAll(start: Sys, first: Sys, sys: Sys, t: TxId, c: Call) returns (sys': Sys)
    requires Reaches(Moves, start, sys) && Solo(first, sys, t, c)
    ensures Reaches(Moves, start, sys') && Solo(first, sys', t, c) && Supplied(sys'.db, sys'.txs[t])
    ensures Stage(sys'.txs[t]) == Stage(sys.txs[t])
    decreases |Lacking(sys.db, sys.txs[t])|
  {
    if r :| r in Lacking(sys.db, sys.txs[t]) {
      var mid := TakesOne(start, first, sys, t, c, r);
      sys' := TakesAll(start, first, mid, t, c);
    } else {
      sys' := sys;
      LacksNothing(sys.db, sys.txs[t]);
    }
  }

  // ----------------------------------------------------------- its statements go forward

  ghost predicate Forward(db: Tables, clock: nat, tx: Tx, tx': Tx, c: Call) {
    Underway(db, clock, tx', c) && Stage(tx') < Stage(tx)
  }

  lemma EarlyForward(db: Tables, clock: nat, tx: Tx, c: Call)
    requires TxInv(db, tx) && Underway(db, clock, tx, c) && Runnable(tx)
    requires tx.pc.Check? || tx.pc.Owner? || tx.pc.LockUser? || tx.pc.Select?
    ensures Forward(db, clock, tx, ExecTx(db, clock, tx), c)
  {
  }

  lemma SpendForward(db: Tables, clock: nat, tx: Tx, c: Call)
    requires TxInv(db, tx) && Underway(db, clock, tx, c) && Runnable(tx)
    requires tx.pc.Spending? || tx.pc.Recheck? || tx.pc.Naming?
    ensures Forward(db, clock, tx, ExecTx(db, clock, tx), c)
  {
  }

  lemma InsertForward(db: Tables, clock: nat, tx: Tx, c: Call)
    requires tx.pc.Writing? && InserterInv(db, tx) && Underway(db, clock, tx, c) && Runnable(tx)
    ensures Forward(db, clock, tx, WriteStep(db, tx), c)
  {
  }

  lemma BumpNotDoomed(db: Tables, tx: Tx)
    requires Runnable(tx) && tx.pc.Writing? && Current(tx) == Some(BumpEpoch) && tx.owner.value in db.users
    ensures !WriteStep(db, tx).pc.Doomed?
  {
  }

  lemma RecordNotDoomed(db: Tables, tx: Tx)
    requires Runnable(tx) && tx.pc.Writing? && Current(tx) == Some(RecordRedemption)
    requires tx.call.Redeem? && !Recorded(db, tx.call.key) && tx.buf.redemptions == map[] && tx.answer.Redeemed?
    ensures !WriteStep(db, tx).pc.Doomed?
  {
  }

  lemma OthersNotDoomed(db: Tables, tx: Tx)
    requires Runnable(tx) && tx.pc.Writing?
    requires Current(tx) == Some(RevokeCredentials) || Current(tx) == Some(VoidEnrolments) || Current(tx) == Some(StorePassword)
    ensures !WriteStep(db, tx).pc.Doomed?
  {
  }

  // No statement of a writer dooms it: its person is there, and its key is free.
  lemma WriterNotDoomed(db: Tables, tx: Tx)
    requires tx.pc.Writing? && WriterInv(db, tx) && Runnable(tx) && (tx.call.Redeem? ==> !Recorded(db, tx.call.key))
    ensures !WriteStep(db, tx).pc.Doomed?
  {
    WriterIsNoInserter(db, tx);
    match Current(tx).value
    case BumpEpoch => BumpNotDoomed(db, tx);
    case RecordRedemption =>
      NoRowYet(AccountOf(db, tx.owner.value), tx);
      RecordNotDoomed(db, tx);
    case _ => OthersNotDoomed(db, tx);
  }

  lemma NoRowYet(a: Account, tx: Tx)
    requires ReadyTo(a, tx, RecordRedemption)
    ensures tx.buf.redemptions == map[] && tx.call.Redeem? && tx.answer.Redeemed?
  {
    ProgressAdvances(tx, Ran(tx));
  }

  lemma PlanIsShort(tx: Tx)
    requires Current(tx).Some?
    ensures tx.step <= 4
  {
  }

  lemma StepForward(db: Tables, clock: nat, tx: Tx, tx': Tx, c: Call)
    requires tx.pc.Writing? && Underway(db, clock, tx, c) && tx.step <= 4
    requires tx'.pc.Writing? && tx'.step == tx.step + 1 && tx'.call == tx.call
    ensures Forward(db, clock, tx, tx', c)
  {
  }

  lemma WriterForward(db: Tables, clock: nat, tx: Tx, c: Call)
    requires tx.pc.Writing? && WriterInv(db, tx) && Underway(db, clock, tx, c) && Runnable(tx)
    ensures Forward(db, clock, tx, WriteStep(db, tx), c)
  {
    WriterIsNoInserter(db, tx);
    StatementFrame(db, tx);
    WriterNotDoomed(db, tx);
    PlanIsShort(tx);
    StepForward(db, clock, tx, WriteStep(db, tx), c);
  }

  lemma WriteForward(db: Tables, clock: nat, tx: Tx, c: Call)
    requires tx.pc.Writing? && TxInv(db, tx) && Underway(db, clock, tx, c) && Runnable(tx)
    ensures Forward(db, clock, tx, WriteStep(db, tx), c)
  {
    if WriterInv(db, tx) { WriterForward(db, clock, tx, c); } else { InsertForward(db, clock, tx, c); }
  }

  lemma ExecForward(db: Tables, clock: nat, tx: Tx, c: Call)
    requires TxInv(db, tx) && Underway(db, clock, tx, c) && Runnable(tx)
    ensures Forward(db, clock, tx, ExecTx(db, clock, tx), c)
  {
    match tx.pc
    case Writing => WriteForward(db, clock, tx, c);
    case Spending => SpendForward(db, clock, tx, c);
    case Recheck => SpendForward(db, clock, tx, c);
    case Naming => SpendForward(db, clock, tx, c);
    case _ => EarlyForward(db, clock, tx, c);
  }

  // What a statement enters in the log.
  lemma ExecLog(sys: Sys, t: TxId)
    requires Inv(sys) && Enabled(sys, Exec(t))
    ensures var tx, tx', sys' := sys.txs[t], ExecTx(sys.db, sys.clock, sys.txs[t]), Next(sys, Exec(t));
            && sys'.txs == sys.txs[t := tx'] && sys'.db == sys.db && sys'.clock == sys.clock
            && (if Settled(tx') && !Settled(tx)
                then sys'.log == sys.log + [Entry(t, tx'.call, tx'.promised)] && sys'.history == sys.history + [sys.db]
                else sys'.log == sys.log && sys'.history == sys.history)
            && (Settled(tx) ==> Settled(tx') && tx'.call == tx.call && tx'.promised == tx.promised)
  {
    NamesOnce(sys.db, sys.clock, sys.txs[t]);
  }

  lemma ExecutesAlone(first: Sys, sys: Sys, t: TxId, c: Call)
    requires Solo(first, sys, t, c) && Enabled(sys, Exec(t))
    ensures Solo(first, Next(sys, Exec(t)), t, c) && Stage(Next(sys, Exec(t)).txs[t]) < Stage(sys.txs[t])
  {
    ExecKeeps(sys, t);
    ExecForward(sys.db, sys.clock, sys.txs[t], c);
    ExecLog(sys, t);
  }

  lemma NamesOnce(db: Tables, clock: nat, tx: Tx)
    requires Runnable(tx) && TxInv(db, tx)
    ensures tx.pc.Naming? ==> ExecTx(db, clock, tx).pc.Finished? && ExecTx(db, clock, tx).call == tx.call && ExecTx(db, clock, tx).promised == tx.promised
  {
  }

  // ------------------------------------------------------------------------------- commit

  // The call is done, and what was done and answered is the atomic transition.
  ghost predicate Served(first: Sys, sys: Sys, t: TxId, c: Call) {
    && sys.txs == map[] && t in sys.delivered
    && Reply(sys.db, sys.delivered[t].answer) == Serve(first.db, Timed(c, first.clock))
    && sys.delivered[t].call == Timed(c, first.clock)
  }

  lemma CommitsAlone(first: Sys, sys: Sys, t: TxId, c: Call)
    requires Inv(first) && Solo(first, sys, t, c) && Enabled(sys, Commit(t))
    ensures Served(first, Next(sys, Commit(t)), t, c)
  {
    var sys', tx := Next(sys, Commit(t)), sys.txs[t];
    NextKeeps(sys, Commit(t));
    var k := |first.log|;
    SerialAt(sys'.history, sys'.log, sys'.db, k);
    assert sys'.history[k] == first.history[k] == first.db;
    assert sys'.log[k] == sys'.delivered[t];
    assert sys'.history[k + 1] == sys'.db;
  }

  lemma {:induction false} RunsOn(start: Sys, first: Sys, sys: Sys, t: TxId, c: Call)
    requires Reaches(Moves, start, sys) && Inv(first) && Solo(first, sys, t, c)
    ensures exists end :: Reaches(Moves, start, end) && Served(first, end, t, c)
    decreases Stage(sys.txs[t])
  {
    var ready := TakesAll(start, first, sys, t, c);
    SuppliedRuns(ready, t);
    if Enabled(ready, Commit(t)) {
      Step(start, ready, Commit(t));
      CommitsAlone(first, ready, t, c);
    } else {
      Step(start, ready, Exec(t));
      ExecutesAlone(first, ready, t, c);
      RunsOn(start, first, Next(ready, Exec(t)), t, c);
    }
  }

  // EVERY CALL CAN BE SERVED. From every state in which nobody is in flight, each of the calls
  // this machine interleaves runs alone to its commit, never doomed, and leaves the tables and
  // the answer of the atomic transition at the clock of that state.
  lemma EveryCallIsServed(sys: Sys, c: Call)
    requires Inv(sys) && sys.txs == map[] && Enabled(sys, Begin(c))
    ensures exists end :: Reaches(Moves, sys, end) && Served(sys, end, sys.next, c)
  {
    Stays(Moves, sys);
    Step(sys, sys, Begin(c));
    var begun := Next(sys, Begin(c));
    NextKeeps(sys, Begin(c));
    assert begun.txs.Keys == {sys.next};
    RunsOn(sys, sys, begun, sys.next, c);
  }
}
