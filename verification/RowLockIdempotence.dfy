/**
Interleaved deliveries of one (key, secret) pair. The user row a redemption holds from
before its spend orders the spends of one secret on the clock, so the serial theorem of
idempotence applies to every interleaving.
*/
module RowLockIdempotence {
  import opened Wrappers
  import opened Accounts
  import opened AccountRuns
  import opened RowLocks
  import opened RowLockInvariant
  import opened RowLockSteps
  import opened RowLockRefinement

  ghost predicate Refusal(e: Entry, s: Secret) {
    e.call.Redeem? && e.call.secret == s && e.answer.Unredeemed?
  }

  ghost predicate RefusedBy(log: seq<Entry>, s: Secret, now: nat) {
    forall i | 0 <= i < |log| :: Refusal(log[i], s) ==> log[i].call.now <= now
  }

  ghost predicate TxClock(tx: Tx, clock: nat, log: seq<Entry>) {
    && (tx.call.Redeem? && (tx.pc.Recheck? || tx.pc.Writing?) ==> tx.call.now <= clock)
    && (tx.call.Redeem? && tx.pc.Writing? ==> RefusedBy(log, tx.call.secret, tx.call.now))
  }

  ghost predicate LogClock(log: seq<Entry>, clock: nat) {
    forall i | 0 <= i < |log| :: log[i].call.Redeem? ==> log[i].call.now <= clock
  }

  // A redemption spends no earlier on the clock than any refusal of its secret logged before it.
  ghost predicate Ordered(history: seq<Tables>, log: seq<Entry>) {
    && |history| == |log| + 1
    && forall r | 0 <= r < |log| && log[r].call.Redeem? && Redeems(history[r], log[r].call, log[r].call.secret)
         :: RefusedBy(log[..r], log[r].call.secret, log[r].call.now)
  }

  ghost predicate ClockInv(sys: Sys) {
    && LogClock(sys.log, sys.clock)
    && (forall t <- sys.txs :: TxClock(sys.txs[t], sys.clock, sys.log))
    && Ordered(sys.history, sys.log)
  }

  lemma RedeemsWrites(t: Tables, c: Call)
    requires c.Redeem? && Redeems(t, c, c.secret) && t.enrolments[c.secret].owner in t.users
    ensures Serve(t, c).tables != t
  {
    assert Serve(t, c).tables.users[t.enrolments[c.secret].owner] != t.users[t.enrolments[c.secret].owner];
  }

  lemma OrderedGrows(history: seq<Tables>, log: seq<Entry>, db': Tables, e: Entry)
    requires Ordered(history, log)
    requires e.call.Redeem? && Redeems(history[|log|], e.call, e.call.secret) ==> RefusedBy(log, e.call.secret, e.call.now)
    ensures Ordered(history + [db'], log + [e])
  {
    var log' := log + [e];
    forall r | 0 <= r < |log'| && log'[r].call.Redeem? && Redeems((history + [db'])[r], log'[r].call, log'[r].call.secret)
      ensures RefusedBy(log'[..r], log'[r].call.secret, log'[r].call.now)
    {
      assert log'[..r] == log[..r];
      if r == |log| { assert log[..r] == log; }
    }
  }

  lemma SpentIsOnesOwn(db: Tables, tx: Tx)
    requires tx.pc.Writing? && tx.call.Redeem? && TxInv(db, tx)
    ensures HoldsUser(tx) && tx.call.secret in db.enrolments && db.enrolments[tx.call.secret].owner == tx.owner.value
  {
    assert tx.call.secret in AccountOf(db, tx.owner.value).enrolments;
  }

  // Nobody settles a refusal of a secret that another transaction has spent and not committed.
  lemma NoRefusalBesideASpend(sys: Sys, t: TxId, w: TxId)
    requires Inv(sys) && t in sys.txs && w in sys.txs && t != w
    requires sys.txs[t].pc.Recheck? && sys.txs[t].call.Redeem?
    requires sys.txs[w].pc.Writing? && sys.txs[w].call.Redeem?
    ensures sys.txs[t].call.secret != sys.txs[w].call.secret
  {
    SpentIsOnesOwn(sys.db, sys.txs[w]);
    assert sys.txs[t].xs !! sys.txs[w].xs;
  }

  lemma SpendClock(db: Tables, clock: nat, tx: Tx, log: seq<Entry>)
    requires tx.call.Redeem? && tx.pc.Spending? && LogClock(log, clock)
    ensures StepClock(tx, SpendStep(db, clock, tx), clock, log)
  {
  }

  lemma WriteClock(db: Tables, clock: nat, tx: Tx, log: seq<Entry>)
    requires tx.pc.Writing? && TxInv(db, tx) && Runnable(tx) && TxClock(tx, clock, log)
    ensures StepClock(tx, WriteStep(db, tx), clock, log)
  {
    if WriterInv(db, tx) {
      WriterIsNoInserter(db, tx);
      StatementFrame(db, tx);
    }
  }

  // What a statement leaves to the log: a time no later than the clock, and a refusal
  // only from the second ledger read.
  ghost predicate StepClock(tx: Tx, tx': Tx, clock: nat, log: seq<Entry>) {
    && TxClock(tx', clock, log)
    && (Settles(tx, tx') && tx'.call.Redeem? ==> tx'.call.now <= clock)
    && (Settles(tx, tx') && tx'.promised.Unredeemed? && tx'.call.Redeem? ==> tx.pc.Recheck? && tx.call == tx'.call)
  }

  lemma EarlyClock(db: Tables, clock: nat, tx: Tx, log: seq<Entry>)
    requires Runnable(tx) && TxInv(db, tx) && TxClock(tx, clock, log)
    requires tx.pc.Check? || tx.pc.Owner? || tx.pc.LockUser? || tx.pc.Select?
    ensures StepClock(tx, ExecTx(db, clock, tx), clock, log)
  {
  }

  lemma LateClock(db: Tables, clock: nat, tx: Tx, log: seq<Entry>)
    requires Runnable(tx) && TxInv(db, tx) && TxClock(tx, clock, log)
    requires tx.pc.Recheck? || tx.pc.Naming?
    ensures StepClock(tx, ExecTx(db, clock, tx), clock, log)
  {
  }

  lemma StepsClock(sys: Sys, t: TxId)
    requires Inv(sys) && ClockInv(sys) && Enabled(sys, Exec(t))
    ensures StepClock(sys.txs[t], ExecTx(sys.db, sys.clock, sys.txs[t]), sys.clock, sys.log)
  {
    var tx := sys.txs[t];
    match tx.pc
    case Spending => SpendClock(sys.db, sys.clock, tx, sys.log);
    case Writing => WriteClock(sys.db, sys.clock, tx, sys.log);
    case Recheck => LateClock(sys.db, sys.clock, tx, sys.log);
    case Naming => LateClock(sys.db, sys.clock, tx, sys.log);
    case _ => EarlyClock(sys.db, sys.clock, tx, sys.log);
  }

  lemma RefusedByGrows(log: seq<Entry>, e: Entry, s: Secret, now: nat)
    requires RefusedBy(log, s, now) && !Refusal(e, s)
    ensures RefusedBy(log + [e], s, now)
  {
  }

  lemma SettledIsOrdered(sys: Sys, e: Entry)
    requires Inv(sys) && ClockInv(sys) && Serve(sys.db, e.call) == Reply(sys.db, e.answer)
    ensures Ordered(sys.history + [sys.db], sys.log + [e])
  {
    if e.call.Redeem? && Redeems(sys.db, e.call, e.call.secret) { RedeemsWrites(sys.db, e.call); }
    OrderedGrows(sys.history, sys.log, sys.db, e);
  }

  lemma OthersClock(sys: Sys, t: TxId, e: Entry, w: TxId)
    requires Inv(sys) && ClockInv(sys) && t in sys.txs && w in sys.txs && w != t
    requires e.call.Redeem? && e.answer.Unredeemed? ==> sys.txs[t].pc.Recheck? && sys.txs[t].call == e.call
    ensures TxClock(sys.txs[w], sys.clock, sys.log + [e])
  {
    var other := sys.txs[w];
    assert TxClock(other, sys.clock, sys.log);
    if other.call.Redeem? && other.pc.Writing? {
      if Refusal(e, other.call.secret) { NoRefusalBesideASpend(sys, t, w); }
      RefusedByGrows(sys.log, e, other.call.secret, other.call.now);
    }
  }

  lemma SettlingClock(sys: Sys, t: TxId, tx': Tx, e: Entry, txs': map<TxId, Tx>)
    requires Inv(sys) && ClockInv(sys) && t in sys.txs && txs' == sys.txs[t := tx']
    requires StepClock(sys.txs[t], tx', sys.clock, sys.log) && Settles(sys.txs[t], tx') && e == Entry(t, tx'.call, tx'.promised)
    ensures LogClock(sys.log + [e], sys.clock)
    ensures forall w <- txs' :: TxClock(txs'[w], sys.clock, sys.log + [e])
  {
    forall w <- txs' ensures TxClock(txs'[w], sys.clock, sys.log + [e]) {
      if w != t { OthersClock(sys, t, e, w); }
    }
  }

  lemma ExecClock(sys: Sys, t: TxId)
    requires Inv(sys) && ClockInv(sys) && Enabled(sys, Exec(t))
    ensures ClockInv(Next(sys, Exec(t)))
  {
    var tx, tx', sys' := sys.txs[t], ExecTx(sys.db, sys.clock, sys.txs[t]), Next(sys, Exec(t));
    StepsClock(sys, t);
    if Settles(tx, tx') {
      var e := Entry(t, tx'.call, tx'.promised);
      ExecSound(sys.db, sys.clock, tx);
      SettledIsOrdered(sys, e);
      SettlingClock(sys, t, tx', e, sys'.txs);
    }
  }

  lemma WriterRefusesNothing(db: Tables, tx: Tx)
    requires tx.pc.Writing? && TxInv(db, tx)
    ensures !tx.answer.Unredeemed?
  {
  }

  lemma CommitClock(sys: Sys, t: TxId)
    requires Inv(sys) && ClockInv(sys) && Enabled(sys, Commit(t))
    ensures ClockInv(Next(sys, Commit(t)))
  {
    var tx, sys' := sys.txs[t], Next(sys, Commit(t));
    if !tx.pc.Finished? {
      var e := Entry(t, tx.call, tx.answer);
      WriterRefusesNothing(sys.db, tx);
      OrderedGrows(sys.history, sys.log, sys'.db, e);
      forall w <- sys'.txs ensures TxClock(sys'.txs[w], sys.clock, sys'.log) {
        var other := sys'.txs[w];
        if other.call.Redeem? && other.pc.Writing? {
          RefusedByGrows(sys.log, e, other.call.secret, other.call.now);
        }
      }
    }
  }

  lemma SingleClock(sys: Sys, c: Call)
    requires Inv(sys) && ClockInv(sys) && Enabled(sys, Single(c))
    ensures ClockInv(Next(sys, Single(c)))
  {
    var sys' := Next(sys, Single(c));
    var e := sys'.delivered[sys.next];
    OrderedGrows(sys.history, sys.log, sys'.db, e);
    forall w <- sys'.txs ensures TxClock(sys'.txs[w], sys.clock, sys'.log) {
      var tx := sys.txs[w];
      if tx.call.Redeem? && tx.pc.Writing? { RefusedByGrows(sys.log, e, tx.call.secret, tx.call.now); }
    }
  }

  lemma AcquireClock(sys: Sys, t: TxId, r: Row)
    requires ClockInv(sys) && Enabled(sys, Acquire(t, r))
    ensures ClockInv(Next(sys, Acquire(t, r)))
  {
    assert TxClock(Granted(sys.txs[t], r), sys.clock, sys.log);
  }

  lemma NextClock(sys: Sys, e: Event)
    requires Inv(sys) && ClockInv(sys) && Enabled(sys, e)
    ensures ClockInv(Next(sys, e))
  {
    match e
    case Begin(c) =>
    case Acquire(t, r) => AcquireClock(sys, t, r);
    case Exec(t) => ExecClock(sys, t);
    case Commit(t) => CommitClock(sys, t);
    case Abort(t) =>
    case Single(c) => SingleClock(sys, c);
    case Tick =>
  }

  lemma {:induction false} ReachableClock(states: seq<Sys>, events: seq<Event>, i: nat)
    requires GuardedExecution(states, events) && i < |states|
    ensures Inv(states[i]) && ClockInv(states[i])
  {
    Reachable(states, events, i);
    if i > 0 {
      ReachableClock(states, events, i - 1);
      NextClock(states[i - 1], events[i - 1]);
    }
  }

  lemma OrderedIsRefusedNoLater(sys: Sys, s: Secret, r: nat)
    requires Inv(sys) && ClockInv(sys) && r < |sys.log|
    requires sys.log[r].call.Redeem? && sys.log[r].call.secret == s && Redeems(sys.history[r], sys.log[r].call, s)
    ensures RefusedNoLater(sys.history, Calls(sys.log), s, r)
  {
    var calls := Calls(sys.log);
    forall i | 0 <= i < r && calls[i].Redeem? && calls[i].secret == s
      ensures Serve(sys.history[i], calls[i]).answer.Unredeemed? ==> calls[i].now <= calls[r].now
    {
      SerialAt(sys.history, sys.log, sys.db, i);
      assert sys.log[..r][i] == sys.log[i];
    }
  }

  // CONCURRENT IDEMPOTENCE. Take any interleaving of any transactions. If the pair (key, secret)
  // redeems at all, at log position `r`, then that is its one redemption, the ledger holds its
  // row and no other for the key, and every answered delivery of the pair, logged at `i`, was
  // answered REDEEMED with the same person, enrolment and epoch, unless the enrolment was not
  // yet committed when it was logged.
  lemma ConcurrentDeliveriesAgree(states: seq<Sys>, events: seq<Event>, n: nat, key: Key, s: Secret, r: nat, t: TxId, i: nat)
    requires GuardedExecution(states, events) && n < |states| && r < |states[n].log| && i < |states[n].log|
    requires Delivery(states[n].log[r].call, key, s)
    requires |states[n].history| == |states[n].log| + 1 && Redeems(states[n].history[r], states[n].log[r].call, s)
    requires t in states[n].delivered && Delivery(states[n].delivered[t].call, key, s)
    requires states[n].log[i] == states[n].delivered[t]
    ensures s in states[n].history[i].enrolments ==>
              r <= i && SameRedemption(states[n].log[r].answer, states[n].delivered[t].answer)
    ensures s !in states[n].history[i].enrolments ==>
              i < r && states[n].delivered[t].answer == Unredeemed(NoSuchEnrolment)
    ensures forall j | 0 <= j < |states[n].log| && Redeems(states[n].history[j], states[n].log[j].call, s) :: j == r
  {
    var sys := states[n];
    ReachableClock(states, events, n);
    SerialIsRun(sys.history, sys.log, sys.db);
    OrderedIsRefusedNoLater(sys, s, r);
    var calls := Calls(sys.log);
    SerialAt(sys.history, sys.log, sys.db, r);
    SerialAt(sys.history, sys.log, sys.db, i);
    EveryDeliveryAnswersRedeemed(sys.history, calls, key, s, r, i);
    forall j | 0 <= j < |sys.log| && Redeems(sys.history[j], sys.log[j].call, s) ensures j == r {
      SecretRedeemsAtMostOnce(sys.history, calls, j, r, s);
    }
  }

  // ONE LEDGER ROW. The redemption's row is in the committed tables, whole, in every later
  // state of the interleaving.
  lemma ConcurrentRedemptionIsRecorded(states: seq<Sys>, events: seq<Event>, n: nat, key: Key, s: Secret, r: nat)
    requires GuardedExecution(states, events) && n < |states| && r < |states[n].log|
    requires Delivery(states[n].log[r].call, key, s)
    requires |states[n].history| == |states[n].log| + 1 && Redeems(states[n].history[r], states[n].log[r].call, s)
    ensures var before := states[n].history[r];
            && s in before.enrolments && before.enrolments[s].owner in before.users
            && key in states[n].db.redemptions && states[n].db.redemptions[key] == RedemptionRow(before, s)
  {
    var sys := states[n];
    Reachable(states, events, n);
    SerialIsRun(sys.history, sys.log, sys.db);
    RedemptionIsRecorded(sys.history, Calls(sys.log), key, s, r, |sys.log|);
  }

  // Every answer delivered has such a log position.
  lemma DeliveredIsLogged(states: seq<Sys>, events: seq<Event>, n: nat, t: TxId)
    requires GuardedExecution(states, events) && n < |states| && t in states[n].delivered
    ensures exists i :: 0 <= i < |states[n].log| && states[n].log[i] == states[n].delivered[t]
  {
    Reachable(states, events, n);
  }
}
