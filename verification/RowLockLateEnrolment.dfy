/**
What the lock order rests on. A redemption of an unknown secret locks no user row; when
that enrolment is committed before the redemption's spend, the spend matches and takes
the enrolment row FIRST, and a second delivery closes the cycle.
*/
module RowLockLateEnrolment {
  import opened Wrappers
  import opened Reachability
  import opened Accounts
  import opened RowLocks
  import opened RowLockInvariant
  import opened RowLockDeadlock

  ghost predicate Moves(sys: Sys, sys': Sys) {
    exists e :: Enabled(sys, e) && sys' == Next(sys, e)
  }

  lemma Step(start: Sys, mid: Sys, e: Event)
    requires Reaches(Moves, start, mid) && Enabled(mid, e)
    ensures Reaches(Moves, start, Next(mid, e))
  {
    assert Moves(mid, Next(mid, e));
    Onward(Moves, start, mid, Next(mid, e));
  }

  // A redemption about to spend an enrolment that did not exist when it looked for the owner.
  ghost predicate Late(sys: Sys, t: TxId, s: Secret) {
    && t in sys.txs && sys.txs[t].pc.Spending? && ReadNoOwner(sys.txs[t], s)
    && Redeemable(sys.db, s, sys.clock)
  }

  // What such a redemption holds: its enrolment row at most.
  ghost predicate HoldsLittle(tx: Tx) {
    && (tx.pc.Check? || tx.pc.Owner? ==> tx.xs == {} && tx.ss == {} && tx.step == 0)
    && (tx.pc.Spending? && tx.owner.None? ==>
          tx.call.Redeem? && tx.xs <= {EnrolmentRow(tx.call.secret)} && tx.ss == {} && tx.step == 0)
  }

  ghost predicate Orderly(sys: Sys) {
    forall t <- sys.txs :: t < sys.next && HoldsLittle(sys.txs[t])
  }

  lemma GrantHoldsLittle(db: Tables, tx: Tx, r: Row)
    requires HoldsLittle(tx) && Lacks(db, tx, r)
    ensures HoldsLittle(Granted(tx, r))
  {
  }

  lemma WritesOn(db: Tables, tx: Tx)
    requires tx.pc.Writing? && Runnable(tx)
    ensures var pc := WriteStep(db, tx).pc; pc.Writing? || pc.Doomed? || pc.Finished?
  {
  }

  lemma ExecHoldsLittle(db: Tables, clock: nat, tx: Tx)
    requires HoldsLittle(tx) && Runnable(tx)
    ensures HoldsLittle(ExecTx(db, clock, tx))
  {
    if tx.pc.Writing? { WritesOn(db, tx); }
  }

  lemma NextOrderly(sys: Sys, e: Event)
    requires Orderly(sys) && Enabled(sys, e)
    ensures Orderly(Next(sys, e))
  {
    match e
    case Acquire(t, r) => GrantHoldsLittle(sys.db, sys.txs[t], r);
    case Exec(t) => ExecHoldsLittle(sys.db, sys.clock, sys.txs[t]);
    case _ =>
  }

  lemma {:induction false} ReachableOrderly(states: seq<Sys>, events: seq<Event>, i: nat)
    requires Execution(states, events) && i < |states|
    ensures Orderly(states[i])
  {
    if i > 0 {
      ReachableOrderly(states, events, i - 1);
      NextOrderly(states[i - 1], events[i - 1]);
    }
  }

  ghost predicate Unlocked(sys: Sys, r: Row) {
    forall t <- sys.txs :: r !in sys.txs[t].xs && r !in sys.txs[t].ss
  }

  function Only(sys: Sys, t: TxId): Sys
    requires t in sys.txs
  {
    sys.(txs := map[t := sys.txs[t]])
  }

  // Whoever else is in flight may be aborted.
  lemma {:induction false} OthersAbort(start: Sys, sys: Sys, t: TxId)
    requires Reaches(Moves, start, sys) && t in sys.txs
    ensures Reaches(Moves, start, Only(sys, t))
    decreases |sys.txs|
  {
    if t' :| t' in sys.txs && t' != t {
      Step(start, sys, Abort(t'));
      OthersAbort(start, Next(sys, Abort(t')), t);
    } else {
      assert sys.txs == map[t := sys.txs[t]];
    }
  }

  // It has spent, and holds the enrolment row without the user row.
  ghost predicate SpentLate(sys: Sys, t: TxId, s: Secret) {
    && t in sys.txs && t < sys.next && sys.txs[t].pc.Writing? && sys.txs[t].call.Redeem? && sys.txs[t].step == 0
    && EnrolmentRow(s) in sys.txs[t].xs
    && s in sys.db.enrolments && sys.txs[t].owner == Some(sys.db.enrolments[s].owner)
    && Unlocked(sys, UserRow(sys.db.enrolments[s].owner))
  }

  // Alone, and with its row, it spends.
  lemma LateSpends(sys: Sys, t: TxId, s: Secret)
    requires Late(sys, t, s) && t < sys.next && sys.txs == map[t := sys.txs[t]]
    requires sys.txs[t].xs == {EnrolmentRow(s)} && sys.txs[t].ss == {} && sys.txs[t].step == 0
    ensures Enabled(sys, Exec(t)) && SpentLate(Next(sys, Exec(t)), t, s)
    ensures Next(sys, Exec(t)).db == sys.db && Next(sys, Exec(t)).next == sys.next
    ensures sys.next !in Next(sys, Exec(t)).txs
  {
  }

  lemma LateTakesItsRow(start: Sys, sys: Sys, t: TxId, s: Secret)
    requires Reaches(Moves, start, sys) && Late(sys, t, s) && Orderly(sys) && sys.txs == map[t := sys.txs[t]]
    ensures Reaches(Moves, start, sys.(txs := map[t := sys.txs[t].(xs := {EnrolmentRow(s)})]))
  {
    var r := EnrolmentRow(s);
    if r in sys.txs[t].xs {
      assert sys.txs[t].xs == {r};
      assert sys.(txs := map[t := sys.txs[t].(xs := {r})]) == sys;
    } else {
      Step(start, sys, Acquire(t, r));
      assert sys.txs[t].xs + {r} == {r};
      assert Next(sys, Acquire(t, r)) == sys.(txs := map[t := sys.txs[t].(xs := {r})]);
    }
  }

  // ------------------------------------------------------- the second delivery

  function UnkeyedDelivery(s: Secret): Call {
    Redeem(None, s, Hash(0, 0), 0)
  }

  function Delivering(s: Secret, pc: Pc, owner: Option<UserId>, xs: set<Row>): Tx {
    Started(UnkeyedDelivery(s)).(pc := pc, owner := owner, xs := xs)
  }

  // `sys` with one more transaction, at `tx`.
  function With(sys: Sys, tx: Tx): Sys {
    sys.(txs := sys.txs[sys.next := tx], next := sys.next + 1)
  }

  lemma Executes(sys: Sys, tx: Tx)
    requires Runnable(tx) && NeedX(sys.db, tx) <= tx.xs && NeedS(tx) <= tx.xs + tx.ss
    requires !Settles(tx, ExecTx(sys.db, sys.clock, tx))
    ensures Enabled(With(sys, tx), Exec(sys.next))
    ensures Next(With(sys, tx), Exec(sys.next)) == With(sys, ExecTx(sys.db, sys.clock, tx))
  {
  }

  lemma Acquires(sys: Sys, tx: Tx, r: Row)
    requires sys.next !in sys.txs && Unlocked(sys, r) && Lacks(sys.db, tx, r)
    ensures Enabled(With(sys, tx), Acquire(sys.next, r))
    ensures Next(With(sys, tx), Acquire(sys.next, r)) == With(sys, Granted(tx, r))
  {
  }

  lemma SecondSteps(sys: Sys, s: Secret, u: UserId)
    requires s in sys.db.enrolments && sys.db.enrolments[s].owner == u
    ensures ExecTx(sys.db, sys.clock, Delivering(s, Check, None, {})) == Delivering(s, Owner, None, {})
    ensures ExecTx(sys.db, sys.clock, Delivering(s, Owner, None, {})) == Delivering(s, LockUser, Some(u), {})
    ensures ExecTx(sys.db, sys.clock, Delivering(s, LockUser, Some(u), {UserRow(u)}))
              == Delivering(s, Spending, Some(u), {UserRow(u)})
  {
  }

  lemma SecondLocks(sys: Sys, s: Secret, u: UserId)
    requires sys.next !in sys.txs && Unlocked(sys, UserRow(u))
    ensures var sys' := With(sys, Delivering(s, LockUser, Some(u), {}));
            && Enabled(sys', Acquire(sys.next, UserRow(u)))
            && Next(sys', Acquire(sys.next, UserRow(u))) == With(sys, Delivering(s, LockUser, Some(u), {UserRow(u)}))
  {
    Acquires(sys, Delivering(s, LockUser, Some(u), {}), UserRow(u));
    assert {} + {UserRow(u)} == {UserRow(u)};
  }

  // It reads the owner, locks the user row and comes to its spend.
  lemma SecondQueues(start: Sys, sys: Sys, s: Secret, u: UserId)
    requires Reaches(Moves, start, sys)
    requires sys.next !in sys.txs && s in sys.db.enrolments && sys.db.enrolments[s].owner == u
    requires Unlocked(sys, UserRow(u))
    ensures Reaches(Moves, start, With(sys, Delivering(s, Spending, Some(u), {UserRow(u)})))
  {
    var n := sys.next;
    SecondSteps(sys, s, u);
    Step(start, sys, Begin(UnkeyedDelivery(s)));
    Executes(sys, Delivering(s, Check, None, {}));
    Step(start, With(sys, Delivering(s, Check, None, {})), Exec(n));
    Executes(sys, Delivering(s, Owner, None, {}));
    Step(start, With(sys, Delivering(s, Owner, None, {})), Exec(n));
    SecondLocks(sys, s, u);
    Step(start, With(sys, Delivering(s, LockUser, Some(u), {})), Acquire(n, UserRow(u)));
    Executes(sys, Delivering(s, LockUser, Some(u), {UserRow(u)}));
    Step(start, With(sys, Delivering(s, LockUser, Some(u), {UserRow(u)})), Exec(n));
  }

  ghost predicate CircularWait(sys: Sys) {
    exists ts :: |ts| > 1 && WaitPath(sys, ts) && ts[0] == ts[|ts| - 1]
  }

  lemma CycleCloses(sys: Sys, t: TxId, s: Secret)
    requires SpentLate(sys, t, s) && sys.next !in sys.txs
    ensures var u := sys.db.enrolments[s].owner;
            CircularWait(With(sys, Delivering(s, Spending, Some(u), {UserRow(u)})))
  {
    var u, n := sys.db.enrolments[s].owner, sys.next;
    var sys' := With(sys, Delivering(s, Spending, Some(u), {UserRow(u)}));
    assert WaitsFor(sys', t, n, UserRow(u));
    assert WaitsFor(sys', n, t, EnrolmentRow(s));
    var ts := [t, n, t];
    assert Waits(sys', ts[0], ts[1]) && Waits(sys', ts[1], ts[2]);
    assert WaitPath(sys', ts);
  }

  // Some continuation ends in a circular wait.
  ghost predicate CanDeadlock(start: Sys) {
    exists sys :: Reaches(Moves, start, sys) && CircularWait(sys)
  }

  lemma LateSpendReachesACycle(start: Sys, sys: Sys, t: TxId, s: Secret)
    requires Reaches(Moves, start, sys) && Late(sys, t, s) && Orderly(sys)
    ensures CanDeadlock(start)
  {
    var u, alone := sys.db.enrolments[s].owner, Only(sys, t);
    OthersAbort(start, sys, t);
    LateTakesItsRow(start, alone, t, s);
    var locked := alone.(txs := map[t := sys.txs[t].(xs := {EnrolmentRow(s)})]);
    LateSpends(locked, t, s);
    Step(start, locked, Exec(t));
    var spent := Next(locked, Exec(t));
    SecondQueues(start, spent, s, u);
    CycleCloses(spent, t, s);
  }

  // A LATE ENROLMENT CAN DEADLOCK. From every state of every execution in which a redemption
  // that found no owner can now spend, a circular wait is reachable.
  lemma LateSpendCanDeadlock(states: seq<Sys>, events: seq<Event>, i: nat, t: TxId, s: Secret)
    requires Execution(states, events) && i < |states| && Late(states[i], t, s)
    ensures CanDeadlock(states[i])
  {
    ReachableOrderly(states, events, i);
    Stays(Moves, states[i]);
    LateSpendReachesACycle(states[i], states[i], t, s);
  }

  // --------------------------------------------------- such a state is reachable

  function Enrolling(id: EnrolmentId, u: UserId, s: Secret, expires: nat): Call {
    CreateEnrolment(id, u, s, Some(expires), false, false)
  }

  // A new enrolment at a stage of its own transaction.
  function Inserting(c: Call, pc: Pc, xs: set<Row>, ss: set<Row>): Tx
    requires c.CreateEnrolment?
  {
    Tx(c, pc, Some(c.user), false, 0, NoRows, xs, ss, if pc.Writing? then Minted(c.enrolment) else Done, Done)
  }

  function Inserted(c: Call): Tx
    requires c.CreateEnrolment? && c.expires.Some?
  {
    Inserting(c, Writing, {EnrolmentRow(c.secret)}, {UserRow(c.user)})
      .(step := 1, buf := NoRows.(enrolments := map[c.secret := NewEnrolment(c)]))
  }

  ghost predicate Insertable(db: Tables, c: Call) {
    && c.CreateEnrolment? && c.expires.Some? && !c.demand
    && LiveUser(db, c.user) && !EnrolmentTaken(db, c.enrolment, c.secret)
  }

  lemma EnrolmentSteps(db: Tables, clock: nat, c: Call)
    requires Insertable(db, c)
    ensures Started(c) == Inserting(c, Check, {}, {})
    ensures ExecTx(db, clock, Started(c)) == Inserting(c, Select, {}, {})
    ensures ExecTx(db, clock, Inserting(c, Select, {}, {UserRow(c.user)})) == Inserting(c, Writing, {}, {UserRow(c.user)})
    ensures ExecTx(db, clock, Inserting(c, Writing, {EnrolmentRow(c.secret)}, {UserRow(c.user)})) == Inserted(c)
  {
  }

  lemma EnrolmentLocks(db: Tables, c: Call)
    requires Insertable(db, c)
    ensures Lacks(db, Inserting(c, Select, {}, {}), UserRow(c.user))
    ensures Granted(Inserting(c, Select, {}, {}), UserRow(c.user)) == Inserting(c, Select, {}, {UserRow(c.user)})
    ensures Lacks(db, Inserting(c, Writing, {}, {UserRow(c.user)}), EnrolmentRow(c.secret))
    ensures Granted(Inserting(c, Writing, {}, {UserRow(c.user)}), EnrolmentRow(c.secret))
              == Inserting(c, Writing, {EnrolmentRow(c.secret)}, {UserRow(c.user)})
  {
    assert {} + {UserRow(c.user)} == {UserRow(c.user)};
    assert {} + {EnrolmentRow(c.secret)} == {EnrolmentRow(c.secret)};
  }

  lemma EnrolmentSelects(start: Sys, sys: Sys, c: Call)
    requires Reaches(Moves, start, sys)
    requires sys.next !in sys.txs && Insertable(sys.db, c) && Enabled(sys, Begin(c)) && Unlocked(sys, UserRow(c.user))
    ensures Reaches(Moves, start, With(sys, Inserting(c, Writing, {}, {UserRow(c.user)})))
  {
    var n, u := sys.next, c.user;
    EnrolmentSteps(sys.db, sys.clock, c);
    EnrolmentLocks(sys.db, c);
    Step(start, sys, Begin(c));
    Executes(sys, Started(c));
    Step(start, With(sys, Started(c)), Exec(n));
    Acquires(sys, Inserting(c, Select, {}, {}), UserRow(u));
    Step(start, With(sys, Inserting(c, Select, {}, {})), Acquire(n, UserRow(u)));
    Executes(sys, Inserting(c, Select, {}, {UserRow(u)}));
    Step(start, With(sys, Inserting(c, Select, {}, {UserRow(u)})), Exec(n));
  }

  lemma EnrolmentInserts(start: Sys, sys: Sys, c: Call)
    requires Reaches(Moves, start, sys) && sys.next !in sys.txs && Insertable(sys.db, c) && Enabled(sys, Begin(c))
    requires Unlocked(sys, UserRow(c.user)) && Unlocked(sys, EnrolmentRow(c.secret))
    ensures Reaches(Moves, start, With(sys, Inserted(c)))
  {
    var n, u, s := sys.next, c.user, c.secret;
    EnrolmentSelects(start, sys, c);
    EnrolmentSteps(sys.db, sys.clock, c);
    EnrolmentLocks(sys.db, c);
    Acquires(sys, Inserting(c, Writing, {}, {UserRow(u)}), EnrolmentRow(s));
    Step(start, With(sys, Inserting(c, Writing, {}, {UserRow(u)})), Acquire(n, EnrolmentRow(s)));
    Executes(sys, Inserting(c, Writing, {EnrolmentRow(s)}, {UserRow(u)}));
    Step(start, With(sys, Inserting(c, Writing, {EnrolmentRow(s)}, {UserRow(u)})), Exec(n));
  }

  // A redemption of an unknown secret comes to its spend with no lock at all.
  lemma UnknownSecretLocksNothing(start: Sys, sys: Sys, s: Secret)
    requires Reaches(Moves, start, sys) && sys.next !in sys.txs && s !in sys.db.enrolments
    ensures Reaches(Moves, start, With(sys, Delivering(s, Spending, None, {})))
  {
    var n := sys.next;
    Step(start, sys, Begin(UnkeyedDelivery(s)));
    Executes(sys, Delivering(s, Check, None, {}));
    Step(start, With(sys, Delivering(s, Check, None, {})), Exec(n));
    Executes(sys, Delivering(s, Owner, None, {}));
    Step(start, With(sys, Delivering(s, Owner, None, {})), Exec(n));
  }

  lemma LateState(start: Sys, sys: Sys, c: Call, t: TxId)
    requires sys.next !in sys.txs && Insertable(sys.db, c) && c.expires.value > sys.clock
    requires Reaches(Moves, start, With(sys, Inserted(c)))
    requires sys.txs == map[t := Delivering(c.secret, Spending, None, {})] && t < sys.next
    ensures CanDeadlock(start)
  {
    var sys' := With(sys, Inserted(c));
    Step(start, sys', Commit(sys.next));
    var end := Next(sys', Commit(sys.next));
    assert end.txs == sys.txs;
    LateSpendReachesACycle(start, end, t, c.secret);
  }

  // Without the assumption of the lock order a circular wait is reachable from all
  // tables with a live person, by enrolling them under a secret already being redeemed.
  lemma UnguardedRunsCanDeadlock(db: Tables, clock: nat, u: UserId, s: Secret, id: EnrolmentId)
    requires LiveUser(db, u) && !EnrolmentTaken(db, id, s)
    ensures CanDeadlock(Initial(db, clock))
  {
    var start, c := Initial(db, clock), Enrolling(id, u, s, clock + 1);
    Stays(Moves, start);
    UnknownSecretLocksNothing(start, start, s);
    var mid := With(start, Delivering(s, Spending, None, {}));
    EnrolmentInserts(start, mid, c);
    LateState(start, mid, c, 0);
  }

  // ------------------------------------------------------------- nor is the answer serial

  // The delivery once its spend and its second ledger read found nothing.
  function Named(sys: Sys, s: Secret): Sys {
    var call := Redeem(None, s, Hash(0, 0), sys.clock);
    var none := Unredeemed(NoSuchEnrolment);
    With(sys, Tx(call, Naming, None, false, 0, NoRows, {}, {}, Done, none))
      .(log := sys.log + [Entry(sys.next, call, none)], history := sys.history + [sys.db])
  }

  function Rechecking(s: Secret, now: nat): Tx {
    Delivering(s, Recheck, None, {}).(call := Redeem(None, s, Hash(0, 0), now))
  }

  lemma UnknownSecretIsUnspent(start: Sys, sys: Sys, s: Secret)
    requires Reaches(Moves, start, sys) && sys.next !in sys.txs && s !in sys.db.enrolments && Unlocked(sys, EnrolmentRow(s))
    ensures Reaches(Moves, start, With(sys, Rechecking(s, sys.clock)))
  {
    var n, r := sys.next, EnrolmentRow(s);
    UnknownSecretLocksNothing(start, sys, s);
    Acquires(sys, Delivering(s, Spending, None, {}), r);
    Step(start, With(sys, Delivering(s, Spending, None, {})), Acquire(n, r));
    assert {} + {r} == {r} && {r} - {r} == {};
    Executes(sys, Delivering(s, Spending, None, {r}));
    Step(start, With(sys, Delivering(s, Spending, None, {r})), Exec(n));
  }

  lemma UnknownSecretIsNamed(start: Sys, sys: Sys, s: Secret)
    requires Reaches(Moves, start, sys) && sys.next !in sys.txs && s !in sys.db.enrolments && Unlocked(sys, EnrolmentRow(s))
    ensures Reaches(Moves, start, Named(sys, s))
  {
    UnknownSecretIsUnspent(start, sys, s);
    var mid := With(sys, Rechecking(s, sys.clock));
    assert {} - NeedX(sys.db, Rechecking(s, sys.clock)) == {};
    Step(start, mid, Exec(sys.next));
    assert Next(mid, Exec(sys.next)) == Named(sys, s);
  }

  // Delivered, and not what the log says.
  ghost predicate Misnamed(sys: Sys, t: TxId, s: Secret) {
    && t in sys.delivered && sys.delivered[t] !in sys.log
    && sys.delivered[t].answer == Unredeemed(Expired) && Redeemable(sys.db, s, sys.clock)
  }

  // The redemption named `NoSuchEnrolment` of `s`, under what the log says of it.
  function AtNaming(s: Secret, now: nat): Tx {
    Tx(Redeem(None, s, Hash(0, 0), now), Naming, None, false, 0, NoRows, {}, {}, Done, Unredeemed(NoSuchEnrolment))
  }

  lemma NamesExpired(start: Sys, sys: Sys, s: Secret, now: nat, c: Call)
    requires Reaches(Moves, start, sys) && sys.txs == map[0 := AtNaming(s, now)] && Redeemable(sys.db, s, sys.clock)
    requires c.CreateEnrolment?
    requires sys.log == [Entry(0, Redeem(None, s, Hash(0, 0), now), Unredeemed(NoSuchEnrolment)), Entry(1, c, Minted(c.enrolment))]
    ensures exists end :: Reaches(Moves, start, end) && Misnamed(end, 0, s)
  {
    Step(start, sys, Exec(0));
    var mid := Next(sys, Exec(0));
    Step(start, mid, Commit(0));
    assert Misnamed(Next(mid, Commit(0)), 0, s);
  }

  lemma NamedLate(start: Sys, db: Tables, clock: nat, c: Call)
    requires Insertable(db, c) && c.expires.value > clock
    requires Reaches(Moves, start, With(Named(Initial(db, clock), c.secret), Inserted(c)))
    ensures exists end :: Reaches(Moves, start, end) && Misnamed(end, 0, c.secret)
  {
    var sys := Named(Initial(db, clock), c.secret);
    var mid := With(sys, Inserted(c));
    Step(start, mid, Commit(1));
    var end := Next(mid, Commit(1));
    assert end.txs == map[0 := AtNaming(c.secret, clock)];
    NamesExpired(start, end, c.secret, clock, c);
  }

  // THE REFINEMENT RESTS ON THE SAME ASSUMPTION. Without it, from all tables with a live person,
  // a run is reachable in which a redemption is told EXPIRED of an enrolment that is redeemable:
  // an answer no serial call gives, and not the one its own reads settled.
  lemma UnguardedAnswersAreNotSerial(db: Tables, clock: nat, u: UserId, s: Secret, id: EnrolmentId)
    requires LiveUser(db, u) && !EnrolmentTaken(db, id, s)
    ensures exists end :: Reaches(Moves, Initial(db, clock), end) && Misnamed(end, 0, s)
  {
    var start, c := Initial(db, clock), Enrolling(id, u, s, clock + 1);
    Stays(Moves, start);
    UnknownSecretIsNamed(start, start, s);
    var mid := Named(start, s);
    EnrolmentInserts(start, mid, c);
    NamedLate(start, db, clock, c);
  }
}
