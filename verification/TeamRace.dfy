/**
SyncTeams, the bootstrap CreateUser and the minting CreateUser at the grain of their
statements: the sentinel row that serialises syncs, the `administrators` row that both a
sync and a bootstrap lock before they count its members, and unlocked reads of the users in
between. Every interleaving is a serial run, so nobody is locked out and the bootstrap works
once there too.
*/
module TeamRace {
  import opened Wrappers
  import opened Identifiers
  import opened DeclaredTeams
  import opened TeamRuns

  type TxId = nat

  datatype Pc =
    | Sentinel       // SELECT ... FROM iam_team_sync_lock FOR UPDATE
    | Administrators // SELECT ... FROM iam_team WHERE id = administrators FOR UPDATE
    | Counting       // the live administrators
    | Reading        // a sync's reads of the declared users, one by one
    | WritingTeams   // a sync's inserts and updates of teams
    | Taken          // a bootstrap's read of its own id
    | Pending        // a bootstrap's read of the pending set
    | Inserting      // a bootstrap's INSERT of the user
    | Ready          // only COMMIT is left

  // What a sync has read: whether there are live administrators, users, and last the teams
  // and members its writes are computed from.
  datatype Tx = Tx(call: Call, pc: Pc, liveBefore: bool, read: set<UserId>, seen: map<UserId, Person>,
                   teams: map<TeamId, Team>, members: set<Member>)

  datatype Answer = Reported(report: Option<Report>) | Created(refusal: Option<Status>)
  datatype Entry = Entry(tx: TxId, call: Call, answer: Answer)

  // The holders of the two row locks, and the serial run the tables came from.
  datatype Sys = Sys(
    org: Org, next: TxId, txs: map<TxId, Tx>, sentinel: Option<TxId>, administrators: Option<TxId>,
    log: seq<Entry>, history: seq<Org>)

  datatype Event = Begin(call: Call) | Exec(tx: TxId) | Read(tx: TxId, user: UserId) | Commit(tx: TxId) | Abort(tx: TxId)
                 | MintUser(user: UserId, index: BlindIndex, admin: bool)

  function AnswerOf(org: Org, c: Call): Answer {
    match c
    case Sync(ds) => Reported(ServeSync(org, ds).report)
    case Bootstrap(u, index) => Created(ServeBootstrap(org, u, index).refusal)
    case Mint(u, index, admin) => Created(ServeMint(org, u, index, admin).refusal)
  }

  function Started(c: Call): Tx {
    Tx(c, if c.Sync? then Sentinel else Administrators, false, {}, map[], map[], {})
  }

  function Declares(ds: seq<Declared>): set<UserId> {
    Users(Roll(ds))
  }

  predicate At(sys: Sys, t: TxId, pc: Pc) {
    t in sys.txs && sys.txs[t].pc == pc
  }

  // A minted id is fresh: no user's, and not one an in-flight request names. Its INSERT waits
  // for an uncommitted user of the same name.
  predicate FreshUser(sys: Sys, u: UserId, index: BlindIndex) {
    && u !in sys.org.users
    && forall t <- sys.txs ::
         && (sys.txs[t].call.Sync? ==> u !in Declares(sys.txs[t].call.ds))
         && (sys.txs[t].call.Bootstrap? ==> sys.txs[t].call.user != u && (sys.txs[t].pc.Ready? ==> sys.txs[t].call.index != index))
  }

  // A row lock is free or one's own.
  predicate Free(holder: Option<TxId>, t: TxId) {
    holder.None? || holder == Some(t)
  }

  ghost predicate Enabled(sys: Sys, e: Event) {
    match e
    case Begin(c) => WellFormed(c) && (c.Sync? || (c.Bootstrap? && CanonicalUserId(c.user)))
    case Exec(t) =>
      && t in sys.txs && !sys.txs[t].pc.Ready?
      && (sys.txs[t].pc.Sentinel? ==> Free(sys.sentinel, t))
      && (sys.txs[t].pc.Administrators? || sys.txs[t].pc.WritingTeams? ==> Free(sys.administrators, t))
      && (sys.txs[t].pc.Reading? ==> sys.txs[t].call.Sync? && Declares(sys.txs[t].call.ds) <= sys.txs[t].read)
    case Read(t, u) => At(sys, t, Reading) && sys.txs[t].call.Sync? && u in Declares(sys.txs[t].call.ds)
    case Commit(t) => At(sys, t, Ready)
    case Abort(t) => t in sys.txs
    case MintUser(u, index, _) => FreshUser(sys, u, index)
  }

  function Release(holder: Option<TxId>, t: TxId): Option<TxId> {
    if holder == Some(t) then None else holder
  }

  // The transaction over, its locks given up.
  function Ended(sys: Sys, t: TxId): Sys {
    sys.(txs := sys.txs - {t}, sentinel := Release(sys.sentinel, t), administrators := Release(sys.administrators, t))
  }

  function Logged(sys: Sys, e: Entry, org: Org): Sys {
    sys.(org := org, log := sys.log + [e], history := sys.history + [org])
  }

  function Refuse(sys: Sys, t: TxId, a: Answer): Sys
    requires t in sys.txs
  {
    Logged(Ended(sys, t), Entry(t, sys.txs[t].call, a), sys.org)
  }

  function To(sys: Sys, t: TxId, pc: Pc): Sys
    requires t in sys.txs
  {
    sys.(txs := sys.txs[t := sys.txs[t].(pc := pc)])
  }

  function SyncStep(sys: Sys, t: TxId, ds: seq<Declared>): Sys
    requires t in sys.txs
  {
    var tx := sys.txs[t];
    match tx.pc
    case Sentinel => To(sys, t, Administrators).(sentinel := Some(t))
    case Administrators =>
      // No row, no lock.
      To(sys, t, Counting).(administrators := if ADMINISTRATORS in sys.org.teams then Some(t) else sys.administrators)
    case Counting => sys.(txs := sys.txs[t := tx.(pc := Reading, liveBefore := LiveAdministrators(sys.org) != {})])
    case Reading =>
      if tx.liveBefore && LiveAfter(ds, tx.seen) == {} then Refuse(sys, t, Reported(None)) else To(sys, t, WritingTeams)
    case WritingTeams =>
      if NameClash(sys.org.teams, ds) then Refuse(sys, t, Reported(None))
      else sys.(txs := sys.txs[t := tx.(pc := Ready, teams := sys.org.teams, members := sys.org.members)],
                administrators := if ADMINISTRATORS in Ids(ds) then Some(t) else sys.administrators)
    case _ => sys
  }

  function BootstrapStep(sys: Sys, t: TxId, u: UserId, index: BlindIndex): Sys
    requires t in sys.txs
  {
    match sys.txs[t].pc
    case Administrators =>
      if LiveTeam(sys.org.teams, ADMINISTRATORS) then To(sys, t, Counting).(administrators := Some(t))
      else Refuse(sys, t, Created(Some(PermissionDenied)))
    case Counting =>
      if LiveAdministrators(sys.org) != {} then Refuse(sys, t, Created(Some(PermissionDenied))) else To(sys, t, Taken)
    case Taken =>
      if u in sys.org.users then Refuse(sys, t, Created(Some(AlreadyExists))) else To(sys, t, Pending)
    case Pending =>
      if u !in sys.org.pending then Refuse(sys, t, Created(Some(PermissionDenied))) else To(sys, t, Inserting)
    case Inserting =>
      if IndexTaken(sys.org.users, index) then Refuse(sys, t, Created(Some(AlreadyExists))) else To(sys, t, Ready)
    case _ => sys
  }

  // The tables as this sync read them; the pending set it replaces unread.
  function AsRead(tx: Tx): Org {
    Org(tx.seen, tx.teams, tx.members, {})
  }

  function CommitStep(sys: Sys, t: TxId): Sys
    requires t in sys.txs
  {
    var tx := sys.txs[t];
    match tx.call
    case Sync(ds) =>
      Logged(Ended(sys, t), Entry(t, tx.call, Reported(Some(ReportOf(AsRead(tx), ds)))),
             Synced(AsRead(tx), ds).(users := sys.org.users))
    case Bootstrap(u, index) =>
      Logged(Ended(sys, t), Entry(t, tx.call, Created(None)),
             Org(sys.org.users[u := Person(true, false, index)], sys.org.teams, sys.org.members + {Member(ADMINISTRATORS, u)}, {}))
    case _ => sys
  }

  function Next(sys: Sys, e: Event): Sys {
    match e
    case Begin(c) => sys.(txs := sys.txs[sys.next := Started(c)], next := sys.next + 1)
    case Exec(t) =>
      if t !in sys.txs then sys
      else (match sys.txs[t].call
            case Sync(ds) => SyncStep(sys, t, ds)
            case Bootstrap(u, index) => BootstrapStep(sys, t, u, index)
            case _ => sys)
    case Read(t, u) =>
      if t !in sys.txs then sys
      else
        var tx := sys.txs[t];
        var seen := if u in sys.org.users then tx.seen[u := sys.org.users[u]] else tx.seen - {u};
        sys.(txs := sys.txs[t := tx.(read := tx.read + {u}, seen := seen)])
    case Commit(t) => if t !in sys.txs then sys else CommitStep(sys, t)
    case Abort(t) => Ended(sys, t)
    case MintUser(u, index, admin) =>
      Logged(sys.(next := sys.next + 1), Entry(sys.next, Mint(u, index, admin), AnswerOf(sys.org, Mint(u, index, admin))),
             ServeMint(sys.org, u, index, admin).org)
  }

  function Initial(org: Org): Sys {
    Sys(org, 0, map[], None, None, [], [org])
  }

  ghost predicate Execution(states: seq<Sys>, events: seq<Event>) {
    && |states| == |events| + 1 && OrgValid(states[0].org) && states[0] == Initial(states[0].org)
    && forall i | 0 <= i < |events| :: Enabled(states[i], events[i]) && states[i + 1] == Next(states[i], events[i])
  }

  // ------------------------------------------------------------------------- invariant

  // What a sync read of the users is what they are.
  ghost predicate SeenIs(users: map<UserId, Person>, tx: Tx) {
    && tx.seen.Keys <= tx.read
    && forall u <- tx.read :: (u in tx.seen <==> u in users) && (u in users ==> tx.seen[u] == users[u])
  }

  predicate Locked(sys: Sys, t: TxId) {
    sys.administrators == Some(t)
  }

  ghost predicate SyncInv(sys: Sys, t: TxId, tx: Tx, ds: seq<Declared>) {
    && Validated(ds) && SeenIs(sys.org.users, tx) && tx.read <= Declares(ds)
    && (tx.pc.Sentinel? || tx.pc.Administrators? || tx.pc.Counting? ==> tx.read == {})
    && (!tx.pc.Sentinel? ==> sys.sentinel == Some(t))
    && (tx.pc.Counting? || tx.pc.Reading? || tx.pc.WritingTeams? || tx.pc.Ready? ==> ADMINISTRATORS in sys.org.teams ==> Locked(sys, t))
    && (tx.pc.Reading? || tx.pc.WritingTeams? || tx.pc.Ready? ==> (tx.liveBefore <==> LiveAdministrators(sys.org) != {}))
    && (tx.pc.WritingTeams? || tx.pc.Ready? ==> Declares(ds) <= tx.read && !(tx.liveBefore && LiveAfter(ds, tx.seen) == {}))
    && (tx.pc.Ready? ==>
          && tx.teams == sys.org.teams && tx.members == sys.org.members
          && !NameClash(sys.org.teams, ds) && (ADMINISTRATORS in Ids(ds) ==> Locked(sys, t)))
    && !tx.pc.Taken? && !tx.pc.Pending? && !tx.pc.Inserting?
  }

  ghost predicate BootstrapInv(sys: Sys, t: TxId, tx: Tx, u: UserId, index: BlindIndex) {
    && CanonicalUserId(u) && !tx.pc.Sentinel? && !tx.pc.Reading? && !tx.pc.WritingTeams?
    && (!tx.pc.Administrators? ==> Locked(sys, t) && LiveTeam(sys.org.teams, ADMINISTRATORS))
    && (tx.pc.Taken? || tx.pc.Pending? || tx.pc.Inserting? || tx.pc.Ready? ==> LiveAdministrators(sys.org) == {})
    && (tx.pc.Pending? || tx.pc.Inserting? || tx.pc.Ready? ==> u !in sys.org.users)
    && (tx.pc.Inserting? || tx.pc.Ready? ==> u in sys.org.pending)
    && (tx.pc.Ready? ==> !IndexTaken(sys.org.users, index))
  }

  ghost predicate TxInv(sys: Sys, t: TxId, tx: Tx) {
    match tx.call
    case Sync(ds) => SyncInv(sys, t, tx, ds)
    case Bootstrap(u, index) => BootstrapInv(sys, t, tx, u, index)
    case _ => false
  }

  ghost predicate Follows(org: Org, e: Entry, org': Org) {
    WellFormed(e.call) && org' == Serve(org, e.call) && e.answer == AnswerOf(org, e.call)
  }

  // The log replayed one call at a time gives the committed tables and the answers.
  ghost predicate Serial(history: seq<Org>, log: seq<Entry>, org: Org) {
    && |history| == |log| + 1 && history[|log|] == org && OrgValid(history[0])
    && forall i | 0 <= i < |log| :: Follows(history[i], log[i], history[i + 1])
  }

  ghost predicate Inv(sys: Sys) {
    && OrgValid(sys.org)
    && (forall t <- sys.txs :: t < sys.next && TxInv(sys, t, sys.txs[t]))
    && (sys.administrators.Some? ==> sys.administrators.value in sys.txs)
    && (sys.sentinel.Some? ==> sys.sentinel.value in sys.txs)
    && Serial(sys.history, sys.log, sys.org)
  }

  // ------------------------------------------------------------- one transaction's steps

  // A sync is served by what it read.
  lemma SeenSuffices(users: map<UserId, Person>, seen: map<UserId, Person>, ds: seq<Declared>)
    requires forall u <- Declares(ds) :: (u in seen <==> u in users) && (u in users ==> seen[u] == users[u])
    ensures Wanted(ds, seen) == Wanted(ds, users) && LiveAfter(ds, seen) == LiveAfter(ds, users)
    ensures PendingAfter(ds, seen) == PendingAfter(ds, users) && Unknown(ds, seen) == Unknown(ds, users)
  {
    assert forall m <- Roll(ds) :: m.user in Declares(ds);
    assert LiveAfter(ds, seen) == LiveAfter(ds, users);
  }

  lemma SyncAsRead(org: Org, tx: Tx, ds: seq<Declared>)
    requires SeenIs(org.users, tx) && Declares(ds) <= tx.read && tx.teams == org.teams && tx.members == org.members
    ensures Synced(AsRead(tx), ds).(users := org.users) == Synced(org, ds)
    ensures ReportOf(AsRead(tx), ds) == ReportOf(org, ds)
  {
    SeenSuffices(org.users, tx.seen, ds);
  }

  // Whoever keeps their locks on unchanged tables keeps their invariant.
  lemma Stands(sys: Sys, sys': Sys, t: TxId, tx: Tx)
    requires TxInv(sys, t, tx) && sys'.org == sys.org
    requires sys.sentinel == Some(t) ==> sys'.sentinel == Some(t)
    requires sys.administrators == Some(t) ==> sys'.administrators == Some(t)
    ensures TxInv(sys', t, tx)
  {
  }

  lemma SerialGrows(history: seq<Org>, log: seq<Entry>, org: Org, e: Entry, org': Org)
    requires Serial(history, log, org) && Follows(org, e, org')
    ensures Serial(history + [org'], log + [e], org')
  {
    var history', log' := history + [org'], log + [e];
    forall i | 0 <= i < |log'| ensures Follows(history'[i], log'[i], history'[i + 1]) {
      if i < |log| { assert Follows(history[i], log[i], history[i + 1]); }
    }
  }

  lemma EndedKeeps(sys: Sys, t: TxId)
    requires Inv(sys)
    ensures Inv(Ended(sys, t))
  {
    var sys' := Ended(sys, t);
    forall i <- sys'.txs ensures i < sys'.next && TxInv(sys', i, sys'.txs[i]) { Stands(sys, sys', i, sys.txs[i]); }
  }

  lemma RefuseKeeps(sys: Sys, t: TxId, a: Answer)
    requires Inv(sys) && t in sys.txs && Serve(sys.org, sys.txs[t].call) == sys.org && a == AnswerOf(sys.org, sys.txs[t].call)
    ensures Inv(Refuse(sys, t, a))
  {
    var mid, sys', c := Ended(sys, t), Refuse(sys, t, a), sys.txs[t].call;
    assert TxInv(sys, t, sys.txs[t]);
    EndedKeeps(sys, t);
    SerialGrows(sys.history, sys.log, sys.org, Entry(t, c, a), sys.org);
    forall i <- sys'.txs ensures i < sys'.next && TxInv(sys', i, sys'.txs[i]) { Stands(mid, sys', i, mid.txs[i]); }
  }

  // One transaction moved on, perhaps taking locks nobody else held.
  lemma MoveKeeps(sys: Sys, t: TxId, sys': Sys)
    requires Inv(sys) && t in sys.txs && t in sys'.txs && sys' == sys.(txs := sys.txs[t := sys'.txs[t]], sentinel := sys'.sentinel, administrators := sys'.administrators)
    requires sys'.sentinel == sys.sentinel || (Free(sys.sentinel, t) && sys'.sentinel == Some(t))
    requires sys'.administrators == sys.administrators || (Free(sys.administrators, t) && sys'.administrators == Some(t))
    requires TxInv(sys', t, sys'.txs[t])
    ensures Inv(sys')
  {
    forall i <- sys'.txs ensures i < sys'.next && TxInv(sys', i, sys'.txs[i]) {
      if i != t { Stands(sys, sys', i, sys.txs[i]); }
    }
  }

  lemma SyncStepKeeps(sys: Sys, t: TxId)
    requires Inv(sys) && Enabled(sys, Exec(t)) && sys.txs[t].call.Sync?
    ensures Inv(Next(sys, Exec(t)))
  {
    var tx, ds := sys.txs[t], sys.txs[t].call.ds;
    var sys' := Next(sys, Exec(t));
    assert TxInv(sys, t, tx);
    if tx.pc.Reading? && tx.liveBefore && LiveAfter(ds, tx.seen) == {} {
      SeenSuffices(sys.org.users, tx.seen, ds);
      RefuseKeeps(sys, t, Reported(None));
    } else if tx.pc.WritingTeams? && NameClash(sys.org.teams, ds) {
      RefuseKeeps(sys, t, Reported(None));
    } else {
      SyncMoves(sys, t);
      MoveKeeps(sys, t, sys');
    }
  }

  lemma SyncMoves(sys: Sys, t: TxId)
    requires Inv(sys) && Enabled(sys, Exec(t)) && sys.txs[t].call.Sync?
    requires var tx, ds := sys.txs[t], sys.txs[t].call.ds;
             && !(tx.pc.Reading? && tx.liveBefore && LiveAfter(ds, tx.seen) == {})
             && !(tx.pc.WritingTeams? && NameClash(sys.org.teams, ds))
    ensures var sys' := Next(sys, Exec(t));
            && t in sys'.txs && TxInv(sys', t, sys'.txs[t])
            && sys' == sys.(txs := sys.txs[t := sys'.txs[t]], sentinel := sys'.sentinel, administrators := sys'.administrators)
            && (sys'.sentinel == sys.sentinel || (Free(sys.sentinel, t) && sys'.sentinel == Some(t)))
            && (sys'.administrators == sys.administrators || (Free(sys.administrators, t) && sys'.administrators == Some(t)))
  {
    assert TxInv(sys, t, sys.txs[t]);
  }

  lemma BootstrapStepKeeps(sys: Sys, t: TxId)
    requires Inv(sys) && Enabled(sys, Exec(t)) && sys.txs[t].call.Bootstrap?
    ensures Inv(Next(sys, Exec(t)))
  {
    var tx, sys' := sys.txs[t], Next(sys, Exec(t));
    assert TxInv(sys, t, tx);
    if t in sys'.txs {
      MoveKeeps(sys, t, sys');
    } else {
      RefuseKeeps(sys, t, AnswerOf(sys.org, tx.call));
    }
  }

  lemma ReadKeeps(sys: Sys, t: TxId, u: UserId)
    requires Inv(sys) && Enabled(sys, Read(t, u))
    ensures Inv(Next(sys, Read(t, u)))
  {
    assert TxInv(sys, t, sys.txs[t]);
    MoveKeeps(sys, t, Next(sys, Read(t, u)));
  }

  // ------------------------------------------------------------------------- commits

  // A sync that commits had the sentinel, and the row a bootstrap would need.
  lemma SyncCommits(sys: Sys, t: TxId)
    requires Inv(sys) && Enabled(sys, Commit(t)) && sys.txs[t].call.Sync?
    ensures var tx, sys' := sys.txs[t], Next(sys, Commit(t));
            && sys'.org == Serve(sys.org, tx.call)
            && sys' == Logged(Ended(sys, t), Entry(t, tx.call, AnswerOf(sys.org, tx.call)), Serve(sys.org, tx.call))
  {
    var tx, ds := sys.txs[t], sys.txs[t].call.ds;
    assert TxInv(sys, t, tx);
    SyncAsRead(sys.org, tx, ds);
    SeenSuffices(sys.org.users, tx.seen, ds);
  }

  lemma BootstrapCommits(sys: Sys, t: TxId)
    requires Inv(sys) && Enabled(sys, Commit(t)) && sys.txs[t].call.Bootstrap?
    ensures var tx, sys' := sys.txs[t], Next(sys, Commit(t));
            && sys'.org == Serve(sys.org, tx.call)
            && sys' == Logged(Ended(sys, t), Entry(t, tx.call, AnswerOf(sys.org, tx.call)), Serve(sys.org, tx.call))
  {
    assert TxInv(sys, t, sys.txs[t]);
    BootstrapExactly(sys.org, sys.txs[t].call.user, sys.txs[t].call.index);
  }

  // Whoever is past its locks cannot be there while another commits.
  lemma OthersAreEarly(sys: Sys, t: TxId, i: TxId)
    requires Inv(sys) && Enabled(sys, Commit(t)) && i in sys.txs && i != t
    ensures sys.txs[i].pc.Sentinel? || sys.txs[i].pc.Administrators?
  {
    assert TxInv(sys, t, sys.txs[t]) && TxInv(sys, i, sys.txs[i]);
  }

  lemma EarlyStands(sys: Sys, sys': Sys, t: TxId, tx: Tx)
    requires TxInv(sys, t, tx) && (tx.pc.Sentinel? || tx.pc.Administrators?)
    requires sys.sentinel == Some(t) ==> sys'.sentinel == Some(t)
    ensures TxInv(sys', t, tx)
  {
  }

  lemma CommitKeeps(sys: Sys, t: TxId)
    requires Inv(sys) && Enabled(sys, Commit(t))
    ensures Inv(Next(sys, Commit(t)))
  {
    var tx, sys' := sys.txs[t], Next(sys, Commit(t));
    assert TxInv(sys, t, tx);
    if tx.call.Sync? { SyncCommits(sys, t); } else { BootstrapCommits(sys, t); }
    ServeKeeps(sys.org, tx.call);
    SerialGrows(sys.history, sys.log, sys.org, Entry(t, tx.call, AnswerOf(sys.org, tx.call)), Serve(sys.org, tx.call));
    forall i <- sys'.txs ensures i < sys'.next && TxInv(sys', i, sys'.txs[i]) {
      OthersAreEarly(sys, t, i);
      EarlyStands(sys, sys', i, sys.txs[i]);
    }
  }

  // A fresh user changes nothing an in-flight transaction relies on.
  lemma MintStands(sys: Sys, sys': Sys, t: TxId, u: UserId, index: BlindIndex, admin: bool)
    requires Inv(sys) && t in sys.txs && FreshUser(sys, u, index) && sys' == Next(sys, MintUser(u, index, admin))
    ensures TxInv(sys', t, sys.txs[t])
  {
    var tx := sys.txs[t];
    assert TxInv(sys, t, tx);
    MintKeeps(sys.org, u, index, admin);
    if tx.call.Sync? { SyncSurvivesMint(sys, sys', t, tx, u); } else { BootstrapSurvivesMint(sys, sys', t, tx, u, index); }
  }

  // The tables with one more user.
  ghost predicate OneMoreUser(org: Org, org': Org, u: UserId) {
    && org' == org.(users := org'.users) && LiveAdministrators(org') == LiveAdministrators(org)
    && (org'.users == org.users || (u in org'.users && org'.users == org.users[u := org'.users[u]]))
  }

  lemma SyncSurvivesMint(sys: Sys, sys': Sys, t: TxId, tx: Tx, u: UserId)
    requires tx.call.Sync? && TxInv(sys, t, tx) && u !in Declares(tx.call.ds) && OneMoreUser(sys.org, sys'.org, u)
    requires sys'.sentinel == sys.sentinel && sys'.administrators == sys.administrators
    ensures TxInv(sys', t, tx)
  {
  }

  lemma BootstrapSurvivesMint(sys: Sys, sys': Sys, t: TxId, tx: Tx, u: UserId, index: BlindIndex)
    requires tx.call.Bootstrap? && TxInv(sys, t, tx) && u != tx.call.user && OneMoreUser(sys.org, sys'.org, u)
    requires sys'.org.users == sys.org.users || (u in sys'.org.users && sys'.org.users[u].index == index)
    requires tx.pc.Ready? ==> tx.call.index != index
    requires sys'.sentinel == sys.sentinel && sys'.administrators == sys.administrators
    ensures TxInv(sys', t, tx)
  {
  }

  lemma MintUserKeeps(sys: Sys, u: UserId, index: BlindIndex, admin: bool)
    requires Inv(sys) && Enabled(sys, MintUser(u, index, admin))
    ensures Inv(Next(sys, MintUser(u, index, admin)))
  {
    var sys', c := Next(sys, MintUser(u, index, admin)), Mint(u, index, admin);
    MintKeeps(sys.org, u, index, admin);
    SerialGrows(sys.history, sys.log, sys.org, Entry(sys.next, c, AnswerOf(sys.org, c)), Serve(sys.org, c));
    forall i <- sys'.txs ensures i < sys'.next && TxInv(sys', i, sys'.txs[i]) {
      MintStands(sys, sys', i, u, index, admin);
    }
  }

  lemma BeginKeeps(sys: Sys, c: Call)
    requires Inv(sys) && Enabled(sys, Begin(c))
    ensures Inv(Next(sys, Begin(c)))
  {
    var sys' := Next(sys, Begin(c));
    forall i <- sys'.txs ensures i < sys'.next && TxInv(sys', i, sys'.txs[i]) {
      if i != sys.next { Stands(sys, sys', i, sys.txs[i]); }
    }
  }

  lemma NextKeeps(sys: Sys, e: Event)
    requires Inv(sys) && Enabled(sys, e)
    ensures Inv(Next(sys, e))
  {
    match e
    case Begin(c) => BeginKeeps(sys, c);
    case Exec(t) =>
      assert TxInv(sys, t, sys.txs[t]);
      if sys.txs[t].call.Sync? { SyncStepKeeps(sys, t); } else { BootstrapStepKeeps(sys, t); }
    case Read(t, u) => ReadKeeps(sys, t, u);
    case Commit(t) => CommitKeeps(sys, t);
    case Abort(t) => EndedKeeps(sys, t);
    case MintUser(u, index, admin) => MintUserKeeps(sys, u, index, admin);
  }

  lemma {:induction false} Reachable(states: seq<Sys>, events: seq<Event>, i: nat)
    requires Execution(states, events) && i < |states|
    ensures Inv(states[i])
  {
    if i > 0 {
      Reachable(states, events, i - 1);
      NextKeeps(states[i - 1], events[i - 1]);
    }
  }

  // --------------------------------------------------------------------- the theorems

  function Calls(log: seq<Entry>): (calls: seq<Call>)
    ensures |calls| == |log| && forall k | 0 <= k < |log| :: calls[k] == log[k].call
  {
    seq(|log|, k requires 0 <= k < |log| => log[k].call)
  }

  // REFINEMENT. Every interleaving of syncs, bootstraps and mints is a serial run of the logged
  // calls, in the order they took effect, with the answers that were given.
  lemma InterleavedTeamsAreSerial(states: seq<Sys>, events: seq<Event>, i: nat)
    requires Execution(states, events) && i < |states|
    ensures Serial(states[i].history, states[i].log, states[i].org) && Run(states[i].history, Calls(states[i].log))
  {
    Reachable(states, events, i);
    var sys := states[i];
    forall k | 0 <= k < |sys.log| ensures WellFormed(sys.log[k].call) && sys.history[k + 1] == Serve(sys.history[k], sys.log[k].call) {
      assert Follows(sys.history[k], sys.log[k], sys.history[k + 1]);
    }
  }

  ghost predicate Extends(h: seq<Org>, h': seq<Org>) {
    |h| <= |h'| && h == h'[..|h|]
  }

  lemma HistoryStep(sys: Sys, e: Event)
    ensures Extends(sys.history, Next(sys, e).history)
  {
    var h' := Next(sys, e).history;
    assert h' == sys.history || (|h'| == |sys.history| + 1 && h' == sys.history + [h'[|sys.history|]]);
  }

  lemma ExtendsOn(a: seq<Org>, b: seq<Org>, c: seq<Org>)
    requires Extends(a, b) && Extends(b, c)
    ensures Extends(a, c)
  {
    assert a == c[..|b|][..|a|] == c[..|a|];
  }

  lemma {:induction false} HistoryGrows(states: seq<Sys>, events: seq<Event>, i: nat, j: nat)
    requires Execution(states, events) && i <= j < |states|
    ensures Extends(states[i].history, states[j].history)
    decreases j
  {
    if i < j {
      HistoryGrows(states, events, i, j - 1);
      assert states[j - 1 + 1] == Next(states[j - 1], events[j - 1]);
      HistoryStep(states[j - 1], events[j - 1]);
      ExtendsOn(states[i].history, states[j - 1].history, states[j].history);
    }
  }

  // NO LOCKOUT, interleaved: once `administrators` has a live member it has one in every later
  // state of every interleaving.
  lemma NeverLockedOutInterleaved(states: seq<Sys>, events: seq<Event>, i: nat, j: nat)
    requires Execution(states, events) && i <= j < |states| && LiveAdministrators(states[i].org) != {}
    ensures LiveAdministrators(states[j].org) != {}
  {
    InterleavedTeamsAreSerial(states, events, i);
    InterleavedTeamsAreSerial(states, events, j);
    HistoryGrows(states, events, i, j);
    assert states[j].history[|states[i].log|] == states[i].org;
    NeverLockedOut(states[j].history, Calls(states[j].log), |states[i].log|, |states[j].log|);
  }

  // ONE BOOTSTRAP, interleaved: of any number of bootstraps racing syncs and each other, at most
  // one is answered that it created its user.
  lemma BootstrapAtMostOnceInterleaved(states: seq<Sys>, events: seq<Event>, n: nat, i: nat, j: nat)
    requires Execution(states, events) && n < |states| && i < |states[n].log| && j < |states[n].log|
    requires states[n].log[i].call.Bootstrap? && states[n].log[i].answer == Created(None)
    requires states[n].log[j].call.Bootstrap? && states[n].log[j].answer == Created(None)
    ensures i == j
  {
    var sys := states[n];
    InterleavedTeamsAreSerial(states, events, n);
    assert Follows(sys.history[i], sys.log[i], sys.history[i + 1]) && Follows(sys.history[j], sys.log[j], sys.history[j + 1]);
    BootstrapAtMostOnce(sys.history, Calls(sys.log), i, j);
  }

  // ------------------------------------------------------------------------ no standstill

  predicate Early(tx: Tx) {
    tx.pc.Sentinel? || tx.pc.Administrators?
  }

  // Whoever holds a lock has come past the statement that takes it.
  ghost predicate Held(sys: Sys) {
    && (sys.administrators.Some? ==> sys.administrators.value in sys.txs && !Early(sys.txs[sys.administrators.value]))
    && (sys.sentinel.Some? ==>
          sys.sentinel.value in sys.txs && sys.txs[sys.sentinel.value].call.Sync? && !sys.txs[sys.sentinel.value].pc.Sentinel?)
  }

  // A statement ends its transaction, or moves it on past the locks it now holds.
  ghost predicate Moved(sys: Sys, sys': Sys, t: TxId)
    requires t in sys.txs
  {
    if t !in sys'.txs then
      sys'.txs == sys.txs - {t} && sys'.sentinel == Release(sys.sentinel, t) && sys'.administrators == Release(sys.administrators, t)
    else
      && sys'.txs == sys.txs[t := sys'.txs[t]] && sys'.txs[t].call == sys.txs[t].call
      && !sys'.txs[t].pc.Sentinel? && (Early(sys'.txs[t]) ==> Early(sys.txs[t]))
      && (sys'.sentinel == sys.sentinel || (sys'.sentinel == Some(t) && sys.txs[t].call.Sync?))
      && (sys'.administrators == sys.administrators || (sys'.administrators == Some(t) && !Early(sys'.txs[t])))
  }

  lemma SyncMoved(sys: Sys, t: TxId)
    requires t in sys.txs && sys.txs[t].call.Sync? && !sys.txs[t].pc.Ready? && SyncInv(sys, t, sys.txs[t], sys.txs[t].call.ds)
    ensures Moved(sys, SyncStep(sys, t, sys.txs[t].call.ds), t)
  {
  }

  lemma BootstrapMoved(sys: Sys, t: TxId)
    requires t in sys.txs && sys.txs[t].call.Bootstrap? && !sys.txs[t].pc.Ready? && !sys.txs[t].pc.Sentinel?
    requires BootstrapInv(sys, t, sys.txs[t], sys.txs[t].call.user, sys.txs[t].call.index)
    ensures Moved(sys, BootstrapStep(sys, t, sys.txs[t].call.user, sys.txs[t].call.index), t)
  {
  }

  lemma MovedHeld(sys: Sys, sys': Sys, t: TxId)
    requires Held(sys) && t in sys.txs && Moved(sys, sys', t)
    ensures Held(sys')
  {
  }

  lemma HeldStep(sys: Sys, e: Event)
    requires Inv(sys) && Held(sys) && Enabled(sys, e)
    ensures Held(Next(sys, e))
  {
    match e
    case Exec(t) =>
      assert TxInv(sys, t, sys.txs[t]);
      if sys.txs[t].call.Sync? { SyncMoved(sys, t); } else { BootstrapMoved(sys, t); }
      MovedHeld(sys, Next(sys, e), t);
    case Commit(t) => assert TxInv(sys, t, sys.txs[t]);
    case _ =>
  }

  lemma {:induction false} ReachableHeld(states: seq<Sys>, events: seq<Event>, i: nat)
    requires Execution(states, events) && i < |states|
    ensures Inv(states[i]) && Held(states[i])
  {
    Reachable(states, events, i);
    if i > 0 {
      ReachableHeld(states, events, i - 1);
      HeldStep(states[i - 1], events[i - 1]);
    }
  }

  // Its next statement or its commit can run, or a read it still has to make.
  ghost predicate Advances(sys: Sys, t: TxId) {
    || Enabled(sys, Exec(t)) || Enabled(sys, Commit(t))
    || exists u :: Enabled(sys, Read(t, u)) && u !in sys.txs[t].read
  }

  lemma FreeAdvances(sys: Sys, t: TxId)
    requires Inv(sys) && t in sys.txs && Free(sys.administrators, t) && (sys.txs[t].pc.Sentinel? ==> Free(sys.sentinel, t))
    ensures Advances(sys, t)
  {
    var tx := sys.txs[t];
    assert TxInv(sys, t, tx);
    if tx.pc.Reading? && !(Declares(tx.call.ds) <= tx.read) {
      var u :| u in Declares(tx.call.ds) && u !in tx.read;
      assert Enabled(sys, Read(t, u));
    }
  }

  // NO STANDSTILL: while anything is in flight, some transaction can go on.
  lemma TeamsNoStandstill(states: seq<Sys>, events: seq<Event>, i: nat)
    requires Execution(states, events) && i < |states| && states[i].txs != map[]
    ensures exists t :: t in states[i].txs && Advances(states[i], t)
  {
    ReachableHeld(states, events, i);
    var sys := states[i];
    var t :| t in sys.txs;
    var go := if sys.administrators.Some? then sys.administrators.value else if sys.sentinel.Some? then sys.sentinel.value else t;
    FreeAdvances(sys, go);
  }
}
