/**
Pooled connections under requests that may be cancelled at any await: which connections go
back to the pool, and in what state. What the driver and the server do with a statement, a
cut reply and a dropped transaction is taken from the header of `conn.rs`.
*/
module ConnectionGuard {
  import opened Wrappers
  import opened Reachability

  type ConnId = nat
  type RequestId = nat

  // A session as the server and the driver see it.
  datatype Session = Session(
    pendingLevel: bool,  // SET TRANSACTION waits for the next explicit transaction
    serverTx: bool,      // the server has a transaction open
    depth: nat,          // the driver knows of it
    rollback: bool,      // the driver has queued a ROLLBACK, sent ahead of anything else
    halfRead: bool)      // part of a reply was lost

  const Fresh: Session := Session(false, false, 0, false, false)

  predicate Clean(s: Session) {
    s == Fresh
  }

  // What is awaited on a connection. `Between` is after SET and before BEGIN.
  datatype Flight = Nothing | Setting | Between | Beginning | Running | Committing

  // A `Conn`: the flag of its request, or none outside `store_work`.
  datatype Guard = Guard(session: Session, flight: Flight, armed: bool, request: Option<RequestId>)

  datatype Stage = Working | Cancelled | Completed

  datatype Pool = Pool(idle: map<ConnId, Session>, held: map<ConnId, Guard>, requests: map<RequestId, Stage>)

  datatype Event =
    | Start(request: RequestId)
    | Acquire(conn: ConnId, owner: Option<RequestId>)
    | BeginSet(conn: ConnId)          // `begin` at READ COMMITTED: SET goes out
    | SetOk(conn: ConnId)
    | SetErr(conn: ConnId, pending: bool)
    | BeginSent(conn: ConnId)         // BEGIN goes out, after the SET or at the default level
    | BeginOk(conn: ConnId)
    | BeginErr(conn: ConnId, started: bool)
    | Statement(conn: ConnId)
    | Reply(conn: ConnId, rolledBack: bool)
    | CommitSent(conn: ConnId)
    | CommitOk(conn: ConnId)
    | CommitErr(conn: ConnId, open: bool)
    | DropTx(conn: ConnId)            // the transaction object dropped, the connection kept
    | DropConn(conn: ConnId, after: Session)
    | Cancel(request: RequestId)      // `StoreWork` dropped before it was ready
    | Complete(request: RequestId)    // `StoreWork` ready: all it held is dropped

  // ---------------------------------------------------------------------- the driver

  // What the server may be left with when a reply is cut while `flight` is awaited.
  ghost predicate MayCut(s: Session, flight: Flight, s': Session) {
    && s'.depth == s.depth && s'.rollback == s.rollback
    && (flight.Nothing? || flight.Between? ==> s' == s)
    && (!flight.Setting? ==> s.pendingLevel || !s'.pendingLevel)
    && (!flight.Beginning? ==> s.serverTx || !s'.serverTx)
  }

  // Dropping the transaction queues a ROLLBACK only at depth 1: a BEGIN in flight is not rolled back.
  function TxDropped(s: Session): Session {
    if s.depth > 0 then s.(depth := 0, rollback := true) else s
  }

  // The release ping sends what is queued.
  function Released(s: Session): Session {
    if s.rollback then s.(rollback := false, serverTx := false) else s
  }

  // ----------------------------------------------------------------------- the guard

  predicate FlagUp(p: Pool, request: Option<RequestId>) {
    request.None? || (request.value in p.requests && p.requests[request.value].Cancelled?)
  }

  // `Conn::drop` calls close_on_drop.
  predicate Closes(p: Pool, g: Guard) {
    g.armed || FlagUp(p, g.request)
  }

  predicate Polled(p: Pool, request: Option<RequestId>) {
    request.Some? ==> request.value in p.requests && p.requests[request.value].Working?
  }

  // A connection whose request is being polled and that awaits `flight`.
  predicate At(p: Pool, c: ConnId, flight: Flight) {
    c in p.held && p.held[c].flight == flight && Polled(p, p.held[c].request)
  }

  ghost predicate Enabled(p: Pool, e: Event) {
    match e
    case Start(q) => q !in p.requests
    case Acquire(c, q) => c !in p.held && Polled(p, q)
    case BeginSet(c) => At(p, c, Nothing) && p.held[c].session.depth == 0
    case SetOk(c) => At(p, c, Setting)
    case SetErr(c, _) => At(p, c, Setting)
    case BeginSent(c) => (At(p, c, Nothing) || At(p, c, Between)) && p.held[c].session.depth == 0
    case BeginOk(c) => At(p, c, Beginning)
    case BeginErr(c, _) => At(p, c, Beginning)
    case Statement(c) => At(p, c, Nothing)
    case Reply(c, _) => At(p, c, Running)
    case CommitSent(c) => At(p, c, Nothing) && p.held[c].session.depth > 0
    case CommitOk(c) => At(p, c, Committing)
    case CommitErr(c, _) => At(p, c, Committing)
    case DropTx(c) => At(p, c, Nothing)
    case DropConn(c, after) =>
      // A request still polled drops a connection only between awaits.
      && c in p.held && MayCut(p.held[c].session, p.held[c].flight, after)
      && (At(p, c, Nothing) || FlagUp(p, p.held[c].request))
    case Cancel(q) => q in p.requests && p.requests[q].Working?
    case Complete(q) => q in p.requests && p.requests[q].Working? && forall c <- p.held :: p.held[c].request != Some(q)
  }

  // A statement sent flushes a queued ROLLBACK first.
  function Sent(g: Guard, flight: Flight): Guard {
    g.(session := Released(g.session), flight := flight)
  }

  function GuardAfter(g: Guard, e: Event): Guard {
    var s := g.session;
    match e
    case BeginSet(_) => Sent(g, Setting).(armed := true)
    case SetOk(_) => g.(session := s.(pendingLevel := true), flight := Between)
    case SetErr(_, pending) => g.(session := s.(pendingLevel := s.pendingLevel || pending), flight := Nothing)
    case BeginSent(_) => Sent(g, Beginning).(armed := true)
    case BeginOk(_) => Guard(s.(pendingLevel := false, serverTx := true, depth := 1), Nothing, false, g.request)
    case BeginErr(_, started) => g.(session := s.(serverTx := s.serverTx || started), flight := Nothing)
    case Statement(_) => Sent(g, Running)
    case Reply(_, rolledBack) => g.(session := s.(serverTx := s.serverTx && !rolledBack), flight := Nothing)
    case CommitSent(_) => Sent(g, Committing)
    case CommitOk(_) => g.(session := s.(serverTx := false, depth := 0), flight := Nothing)
    case CommitErr(_, open) => g.(session := s.(serverTx := s.serverTx && open), flight := Nothing)
    case DropTx(_) => g.(session := TxDropped(s))
    case _ => g
  }

  function Next(p: Pool, e: Event): Pool {
    match e
    case Start(q) => p.(requests := p.requests[q := Working])
    case Cancel(q) => p.(requests := p.requests[q := Cancelled])
    case Complete(q) => p.(requests := p.requests[q := Completed])
    case Acquire(c, q) =>
      // An idle connection, or a new one.
      var s := if c in p.idle then p.idle[c] else Fresh;
      p.(idle := p.idle - {c}, held := p.held[c := Guard(s, Nothing, false, q)])
    case DropConn(c, after) =>
      if c !in p.held then p
      else if Closes(p, p.held[c]) then p.(held := p.held - {c})
      else p.(held := p.held - {c}, idle := p.idle[c := Released(TxDropped(after))])
    case _ => if e.conn in p.held then p.(held := p.held[e.conn := GuardAfter(p.held[e.conn], e)]) else p
  }

  ghost predicate Execution(states: seq<Pool>, events: seq<Event>) {
    && |states| == |events| + 1
    && states[0].held == map[] && (forall c <- states[0].idle :: Clean(states[0].idle[c]))
    && forall i | 0 <= i < |events| :: Enabled(states[i], events[i]) && states[i + 1] == Next(states[i], events[i])
  }

  // --------------------------------------------------------------- idle means clean

  // An unarmed guard has no isolation level pending and no transaction the driver forgot;
  // only a cut spoils a reply.
  ghost predicate GuardInv(g: Guard) {
    && !g.session.halfRead && (g.session.rollback ==> g.session.depth == 0)
    && (g.flight.Setting? || g.flight.Between? || g.flight.Beginning? ==> g.armed && g.session.depth == 0 && !g.session.rollback)
    && (g.flight.Running? || g.flight.Committing? ==> !g.session.rollback)
    && (!g.armed ==> !g.session.pendingLevel && (g.session.serverTx ==> g.session.depth > 0 || g.session.rollback))
  }

  ghost predicate PoolInv(p: Pool) {
    && (forall c <- p.idle :: Clean(p.idle[c]))
    && (forall c <- p.held :: GuardInv(p.held[c]))
  }

  lemma GuardKeeps(p: Pool, e: Event)
    requires PoolInv(p) && Enabled(p, e)
    requires !e.Start? && !e.Cancel? && !e.Complete? && !e.Acquire? && !e.DropConn?
    ensures e.conn in p.held && GuardInv(GuardAfter(p.held[e.conn], e))
  {
  }

  lemma GuardEventKeeps(p: Pool, e: Event)
    requires PoolInv(p) && Enabled(p, e)
    requires !e.Start? && !e.Cancel? && !e.Complete? && !e.Acquire? && !e.DropConn?
    ensures PoolInv(Next(p, e))
  {
    GuardKeeps(p, e);
    assert Next(p, e) == p.(held := p.held[e.conn := GuardAfter(p.held[e.conn], e)]);
  }

  // What goes back to the pool unclosed is clean.
  lemma GivenBackClean(p: Pool, c: ConnId, after: Session)
    requires PoolInv(p) && Enabled(p, DropConn(c, after)) && !Closes(p, p.held[c])
    ensures Clean(Released(TxDropped(after)))
  {
  }

  lemma NextKeeps(p: Pool, e: Event)
    requires PoolInv(p) && Enabled(p, e)
    ensures PoolInv(Next(p, e))
  {
    match e
    case Start(_) =>
    case Cancel(_) =>
    case Complete(_) =>
    case Acquire(_, _) =>
    case DropConn(c, after) => if !Closes(p, p.held[c]) { GivenBackClean(p, c, after); }
    case _ => GuardEventKeeps(p, e);
  }

  // AN IDLE CONNECTION IS CLEAN, over every run: no isolation level pending, no transaction
  // open on the server, no ROLLBACK queued, no reply half read.
  lemma {:induction false} IdleIsClean(states: seq<Pool>, events: seq<Event>, i: nat)
    requires Execution(states, events) && i < |states|
    ensures PoolInv(states[i])
    ensures forall c <- states[i].idle :: Clean(states[i].idle[c])
  {
    if i > 0 {
      IdleIsClean(states, events, i - 1);
      NextKeeps(states[i - 1], events[i - 1]);
    }
  }

  // ------------------------------------------------------- which connections are lost

  predicate BeginStarts(e: Event, c: ConnId) {
    (e.BeginSet? || e.BeginSent?) && e.conn == c
  }

  predicate BeginFinishes(e: Event, c: ConnId) {
    e.BeginOk? && e.conn == c
  }

  // After event `since`, a SET / BEGIN sequence on `c` was begun and none finished after it.
  ghost predicate Unfinished(events: seq<Event>, c: ConnId, since: nat, until: nat)
    requires until <= |events|
  {
    exists k | since <= k < until :: BeginStarts(events[k], c) && forall m | k < m < until :: !BeginFinishes(events[m], c)
  }

  // `c` is held from event `since` to just before event `until`.
  ghost predicate HeldFrom(events: seq<Event>, c: ConnId, since: nat, until: nat)
    requires since < until <= |events|
  {
    && events[since].Acquire? && events[since].conn == c
    && forall m | since < m < until :: !(events[m].DropConn? && events[m].conn == c)
  }

  lemma UnfinishedStep(events: seq<Event>, c: ConnId, since: nat, until: nat)
    requires until < |events|
    ensures Unfinished(events, c, since, until + 1) <==>
              (BeginStarts(events[until], c) && since <= until) || (Unfinished(events, c, since, until) && !BeginFinishes(events[until], c))
  {
    if Unfinished(events, c, since, until + 1) {
      var k :| since <= k < until + 1 && BeginStarts(events[k], c) && forall m | k < m < until + 1 :: !BeginFinishes(events[m], c);
      if k < until { assert forall m | k < m < until :: !BeginFinishes(events[m], c); }
    }
    if Unfinished(events, c, since, until) && !BeginFinishes(events[until], c) {
      var k :| since <= k < until && BeginStarts(events[k], c) && forall m | k < m < until :: !BeginFinishes(events[m], c);
      assert forall m | k < m < until + 1 :: !BeginFinishes(events[m], c);
    }
  }

  lemma StepAt(states: seq<Pool>, events: seq<Event>, k: nat)
    requires Execution(states, events) && k < |events|
    ensures Enabled(states[k], events[k]) && states[k + 1] == Next(states[k], events[k])
  {
  }

  lemma AcquireUnarmed(p: Pool, c: ConnId, owner: Option<RequestId>)
    ensures var p' := Next(p, Acquire(c, owner));
            c in p'.held && !p'.held[c].armed && p'.held[c].request == owner
  {
  }

  lemma ArmedStep(p: Pool, e: Event, c: ConnId)
    requires c in p.held && Enabled(p, e) && !(e.DropConn? && e.conn == c)
    ensures c in Next(p, e).held && Next(p, e).held[c].request == p.held[c].request
    ensures Next(p, e).held[c].armed <==> BeginStarts(e, c) || (p.held[c].armed && !BeginFinishes(e, c))
  {
  }

  // Armed means exactly: a sequence begun since the acquire has not finished.
  lemma {:induction false} ArmedMeansUnfinished(states: seq<Pool>, events: seq<Event>, c: ConnId, since: nat, until: nat)
    requires Execution(states, events) && since < until <= |events| && HeldFrom(events, c, since, until)
    ensures c in states[until].held && states[until].held[c].request == events[since].owner
    ensures states[until].held[c].armed <==> Unfinished(events, c, since + 1, until)
    decreases until
  {
    var k := until - 1;
    StepAt(states, events, k);
    if k == since {
      AcquireUnarmed(states[k], c, events[k].owner);
    } else {
      ArmedMeansUnfinished(states, events, c, since, k);
      UnfinishedStep(events, c, since + 1, k);
      ArmedStep(states[k], events[k], c);
    }
  }

  // WHICH CONNECTIONS ARE CLOSED, exactly. A connection acquired at `since` and dropped at `until`
  // is lost if and only if it was acquired outside a request, its request was cancelled, or a
  // begin sequence on it did not finish; otherwise it is back in the pool, and clean.
  lemma ClosedExactly(states: seq<Pool>, events: seq<Event>, c: ConnId, since: nat, until: nat)
    requires Execution(states, events) && since < until < |events| && HeldFrom(events, c, since, until)
    requires events[until].DropConn? && events[until].conn == c
    ensures c !in states[until + 1].idle <==>
              events[since].owner.None?
              || (events[since].owner.value in states[until].requests && states[until].requests[events[since].owner.value].Cancelled?)
              || Unfinished(events, c, since + 1, until)
    ensures c in states[until + 1].idle ==> Clean(states[until + 1].idle[c])
  {
    ArmedMeansUnfinished(states, events, c, since, until);
    IdleIsClean(states, events, until + 1);
    HeldIsNotIdle(states, events, until, c);
    assert states[until + 1] == Next(states[until], events[until]);
  }

  lemma {:induction false} HeldIsNotIdle(states: seq<Pool>, events: seq<Event>, i: nat, c: ConnId)
    requires Execution(states, events) && i < |states|
    ensures c in states[i].held ==> c !in states[i].idle
  {
    if i > 0 {
      HeldIsNotIdle(states, events, i - 1, c);
      assert Enabled(states[i - 1], events[i - 1]) && states[i - 1 + 1] == Next(states[i - 1], events[i - 1]);
    }
  }

  // A cancelled request stays cancelled.
  lemma {:induction false} StaysCancelled(states: seq<Pool>, events: seq<Event>, q: RequestId, i: nat, j: nat)
    requires Execution(states, events) && i <= j < |states|
    requires q in states[i].requests && states[i].requests[q].Cancelled?
    ensures q in states[j].requests && states[j].requests[q].Cancelled?
    decreases j
  {
    if i < j {
      StaysCancelled(states, events, q, i, j - 1);
      assert Enabled(states[j - 1], events[j - 1]) && states[j - 1 + 1] == Next(states[j - 1], events[j - 1]);
    }
  }

  // A COMPLETED REQUEST KEEPS ITS CONNECTION: a request that runs to completion with its begin
  // sequences finished gives back every connection it dropped on the way.
  lemma CompletionKeepsConnections(states: seq<Pool>, events: seq<Event>, q: RequestId, c: ConnId, since: nat, until: nat, end: nat)
    requires Execution(states, events) && since < until < end < |states| && HeldFrom(events, c, since, until)
    requires events[since].owner == Some(q) && events[until].DropConn? && events[until].conn == c
    requires q in states[end].requests && states[end].requests[q].Completed?
    requires !Unfinished(events, c, since + 1, until)
    ensures c in states[until + 1].idle && Clean(states[until + 1].idle[c])
  {
    if q in states[until].requests && states[until].requests[q].Cancelled? {
      StaysCancelled(states, events, q, until, end);
    }
    ClosedExactly(states, events, c, since, until);
  }

  // --------------------------------------------------------------------- a whole request

  ghost predicate Moves(p: Pool, p': Pool) {
    exists e :: Enabled(p, e) && p' == Next(p, e)
  }

  lemma Move(start: Pool, p: Pool, e: Event)
    requires Reaches(Moves, start, p) && Enabled(p, e)
    ensures Reaches(Moves, start, Next(p, e))
  {
    assert Moves(p, Next(p, e));
    Onward(Moves, start, p, Next(p, e));
  }

  // The pool while request `q` holds connection `c` as `g`.
  function Holding(p: Pool, q: RequestId, c: ConnId, g: Guard): Pool {
    Pool(p.idle - {c}, p.held[c := g], p.requests[q := Working])
  }

  lemma HeldMove(start: Pool, p: Pool, q: RequestId, c: ConnId, g: Guard, e: Event)
    requires Reaches(Moves, start, Holding(p, q, c, g)) && Enabled(Holding(p, q, c, g), e)
    requires !e.Start? && !e.Cancel? && !e.Complete? && !e.Acquire? && !e.DropConn? && e.conn == c
    ensures Reaches(Moves, start, Holding(p, q, c, GuardAfter(g, e)))
  {
    Move(start, Holding(p, q, c, g), e);
  }

  // It begins at READ COMMITTED.
  lemma Transacts(start: Pool, p: Pool, q: RequestId, c: ConnId)
    requires Reaches(Moves, start, Holding(p, q, c, Guard(Fresh, Nothing, false, Some(q))))
    ensures Reaches(Moves, start, Holding(p, q, c, Guard(Session(false, true, 1, false, false), Nothing, false, Some(q))))
  {
    var g0 := Guard(Fresh, Nothing, false, Some(q));
    HeldMove(start, p, q, c, g0, BeginSet(c));
    var g1 := GuardAfter(g0, BeginSet(c));
    HeldMove(start, p, q, c, g1, SetOk(c));
    var g2 := GuardAfter(g1, SetOk(c));
    HeldMove(start, p, q, c, g2, BeginSent(c));
    var g3 := GuardAfter(g2, BeginSent(c));
    HeldMove(start, p, q, c, g3, BeginOk(c));
  }

  // It runs a statement and commits.
  lemma Commits(start: Pool, p: Pool, q: RequestId, c: ConnId)
    requires Reaches(Moves, start, Holding(p, q, c, Guard(Session(false, true, 1, false, false), Nothing, false, Some(q))))
    ensures Reaches(Moves, start, Holding(p, q, c, Guard(Fresh, Nothing, false, Some(q))))
  {
    var g0 := Guard(Session(false, true, 1, false, false), Nothing, false, Some(q));
    HeldMove(start, p, q, c, g0, Statement(c));
    var g1 := GuardAfter(g0, Statement(c));
    HeldMove(start, p, q, c, g1, Reply(c, false));
    var g2 := GuardAfter(g1, Reply(c, false));
    HeldMove(start, p, q, c, g2, CommitSent(c));
    HeldMove(start, p, q, c, GuardAfter(g2, CommitSent(c)), CommitOk(c));
  }

  // A REQUEST CAN RUN THROUGH: from any pool with a clean idle connection, a new request can
  // acquire it, begin, run a statement, commit, drop it and complete, and the connection is idle
  // and clean again.
  lemma RequestRunsThrough(p: Pool, q: RequestId, c: ConnId)
    requires q !in p.requests && c in p.idle && p.idle[c] == Fresh && c !in p.held
    requires forall x <- p.held :: p.held[x].request != Some(q)
    ensures Reaches(Moves, p, p.(requests := p.requests[q := Completed]))
  {
    Stays(Moves, p);
    Move(p, p, Start(q));
    Move(p, Next(p, Start(q)), Acquire(c, Some(q)));
    var g := Guard(Fresh, Nothing, false, Some(q));
    assert Next(Next(p, Start(q)), Acquire(c, Some(q))) == Holding(p, q, c, g);
    Transacts(p, p, q, c);
    Commits(p, p, q, c);
    var held := Holding(p, q, c, g);
    Move(p, held, DropConn(c, Fresh));
    var given := Next(held, DropConn(c, Fresh));
    assert given.held == p.held && given.idle == p.idle;
    Move(p, given, Complete(q));
    assert Next(given, Complete(q)).requests == p.requests[q := Completed];
  }

  // ------------------------------------------------------------------ the objects themselves

  // The flag a request shares with every connection it acquires.
  class Flag {
    var up: bool

    constructor ()
      ensures !up
    {
      up := false;
    }
  }

  // The flag is up and the work is done exactly as request `q` stands in the pool.
  ghost predicate Reflects(p: Pool, q: RequestId, up: bool, done: bool) {
    q in p.requests && (up <==> p.requests[q].Cancelled?) && (done <==> p.requests[q].Completed?)
  }

  class StoreWork {
    const cancelled: Flag
    var done: bool

    // The request starts.
    constructor (ghost p: Pool, ghost q: RequestId)
      ensures fresh(cancelled) && Reflects(Next(p, Start(q)), q, cancelled.up, done)
    {
      cancelled := new Flag();
      done := false;
    }

    // A poll that is ready completes the request.
    method Poll(ready: bool, ghost p: Pool, ghost q: RequestId)
      requires Reflects(p, q, cancelled.up, done) && p.requests[q].Working?
      modifies this`done
      ensures Reflects(if ready then Next(p, Complete(q)) else p, q, cancelled.up, done)
    {
      if ready { done := true; }
    }

    // Dropped before it was ready it cancels the request; after, it changes nothing. Runs
    // before the work, and so every connection it holds, is dropped.
    method Drop(ghost p: Pool, ghost q: RequestId)
      requires Reflects(p, q, cancelled.up, done)
      modifies cancelled
      ensures Reflects(if p.requests[q].Completed? then p else Next(p, Cancel(q)), q, cancelled.up, done)
    {
      if !done { cancelled.up := true; }
    }
  }

  datatype Isolation = Default | ReadCommitted

  // A reply to a statement of the begin sequence; an error says what it left behind.
  datatype Answer = Ok | Err(leftBehind: bool)

  class Conn {
    var session: Session
    var armed: bool
    const cancelled: Option<Flag>

    constructor (s: Session, cancelled: Option<Flag>)
      ensures session == s && !armed && this.cancelled == cancelled
    {
      session, armed, this.cancelled := s, false, cancelled;
    }

    ghost function At(flight: Flight, request: Option<RequestId>): Guard
      reads this
    {
      Guard(session, flight, armed, request)
    }

    // This object is guard `g` of the pool: its fields, and the flag of its request.
    ghost predicate Is(p: Pool, g: Guard)
      reads this, if cancelled.Some? then {cancelled.value} else {}
    {
      && g == At(g.flight, g.request)
      && (cancelled.Some? <==> g.request.Some?)
      && (cancelled.Some? ==> g.request.value in p.requests
                              && (cancelled.value.up <==> p.requests[g.request.value].Cancelled?))
    }

    // SET when asked for, then BEGIN; disarmed only by a BEGIN that answered Ok. The steps
    // are those of the pool's events; whatever ROLLBACK is queued goes out first.
    method Begin(isolation: Isolation, set_: Answer, begin: Answer, ghost request: Option<RequestId>, ghost c: ConnId)
      returns (ok: bool)
      requires session.depth == 0
      modifies this
      ensures ok <==> begin.Ok? && (isolation.ReadCommitted? ==> set_.Ok?)
      ensures armed == !ok
      ensures At(Nothing, request) == AfterBegin(old(At(Nothing, request)), isolation, set_, begin, c)
      ensures GuardInv(old(At(Nothing, request))) ==> GuardInv(At(Nothing, request))
    {
      armed, session := true, Released(session);
      if isolation.ReadCommitted? {
        match set_
        case Ok => session := session.(pendingLevel := true);
        case Err(pending) =>
          session := session.(pendingLevel := session.pendingLevel || pending);
          return false;
      }
      match begin
      case Ok =>
        session := session.(pendingLevel := false, serverTx := true, depth := 1);
        armed := false;
        return true;
      case Err(started) =>
        session := session.(serverTx := session.serverTx || started);
        return false;
    }

    // Whether dropping it closes it instead of pooling it: what the pool then holds.
    method Drop(ghost p: Pool, ghost c: ConnId, ghost after: Session) returns (closed: bool)
      requires c in p.held && c !in p.idle && Is(p, p.held[c])
      ensures closed <==> Closes(p, p.held[c])
      ensures closed <==> c !in Next(p, DropConn(c, after)).idle
    {
      closed := armed || match cancelled { case None => true case Some(flag) => flag.up };
    }
  }

  // The guard after the events of a begin sequence with those replies.
  ghost function AfterBegin(g: Guard, isolation: Isolation, set_: Answer, begin: Answer, c: ConnId): Guard {
    var sent := if isolation.Default? then g else GuardAfter(g, BeginSet(c));
    if isolation.ReadCommitted? && set_.Err? then GuardAfter(sent, SetErr(c, set_.leftBehind))
    else
      var between := if isolation.Default? then g else GuardAfter(sent, SetOk(c));
      var begun := GuardAfter(between, BeginSent(c));
      if begin.Ok? then GuardAfter(begun, BeginOk(c)) else GuardAfter(begun, BeginErr(c, begin.leftBehind))
  }
}
