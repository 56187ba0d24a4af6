/**
Interleaved deliveries of SetInheritedSetting: an unlocked look at the ledger, the write
under its row's lock, then the ledger row under its key's lock, all kept to the commit. A
clear that finds no override matches no row, so it keeps no lock and writes nothing. A
delivery that meets its key already taken by the same request COMMITS ITS WRITE AGAIN.
*/
module SettingRace {
  import opened Wrappers
  import opened Identifiers
  import opened Settings

  type TxId = nat

  datatype Row = OrgRow(name: Name) | OverrideRow(place: Place) | ClaimRow(key: Key)

  datatype Pc =
    | Looking    // the unlocked look for the key
    | Writing    // the write at the request's scope
    | Claiming   // the ledger row
    | Ready      // only COMMIT is left
    | Refusing   // a refusal: only a rollback is left

  datatype Tx = Tx(
    key: Option<Key>, request: Request, pc: Pc,
    wrote: bool, claims: bool, // what the commit makes visible
    missed: bool,              // its DELETE matched no row
    duplicate: bool,           // the ledger row was already there, of the same request
    xs: set<Row>, team: Option<TeamId>) // rows locked, and the team row locked shared

  datatype Delivery = Delivery(key: Option<Key>, request: Request)

  // A committed transaction: what it was asked, and what its commit made visible.
  datatype Entry = Entry(tx: TxId, delivery: Delivery, wrote: bool, claimed: bool)

  // `log` has the commits in order.
  datatype Sys = Sys(db: Store, next: TxId, txs: map<TxId, Tx>, answered: map<TxId, Delivery>, log: seq<Entry>)

  datatype Event = Begin(delivery: Delivery) | Look(tx: TxId) | Take(tx: TxId, row: Row) | Write(tx: TxId)
                 | Claim(tx: TxId) | Commit(tx: TxId) | Abort(tx: TxId) | MarkLive(team: TeamId, live: bool)

  function RowOf(r: Request): Row
    requires Accepted(r)
  {
    if r.scope == ORG then OrgRow(r.name) else OverrideRow(PlaceOf(r))
  }

  predicate At(sys: Sys, t: TxId, pc: Pc) {
    t in sys.txs && sys.txs[t].pc == pc
  }

  predicate Free(sys: Sys, t: TxId, row: Row) {
    forall t' <- sys.txs :: t' != t ==> row !in sys.txs[t'].xs
  }

  // The row the next statement locks.
  predicate Needs(tx: Tx, row: Row) {
    || (tx.pc.Writing? && Accepted(tx.request) && row == RowOf(tx.request))
    || (tx.pc.Claiming? && tx.key.Some? && row == ClaimRow(tx.key.value))
  }

  predicate Enabled(sys: Sys, e: Event) {
    match e
    case Begin(d) => Accepted(d.request)
    case Look(t) => At(sys, t, Looking)
    case Take(t, row) => t in sys.txs && Needs(sys.txs[t], row) && Free(sys, t, row)
    case Write(t) => At(sys, t, Writing) && Accepted(sys.txs[t].request) && RowOf(sys.txs[t].request) in sys.txs[t].xs
    case Claim(t) => At(sys, t, Claiming) && (sys.txs[t].key.Some? ==> ClaimRow(sys.txs[t].key.value) in sys.txs[t].xs)
    case Commit(t) => At(sys, t, Ready) && Accepted(sys.txs[t].request)
    case Abort(t) => t in sys.txs
    case MarkLive(team, _) => team in sys.db.teams && forall t <- sys.txs :: sys.txs[t].team != Some(team)
  }

  function LookStep(db: Store, tx: Tx): Tx {
    if !Recorded(db, tx.key) then tx.(pc := Writing)
    else if db.claims[tx.key.value] == tx.request then tx.(pc := Ready)
    else tx.(pc := Refusing)
  }

  function WriteStep(db: Store, tx: Tx): Tx
    requires Accepted(tx.request)
  {
    if WriteFailure(db, tx.request).Some? then tx.(pc := Refusing)
    else if tx.request.clear && PlaceOf(tx.request) !in db.overrides then
      tx.(pc := Claiming, missed := true, xs := tx.xs - {RowOf(tx.request)})
    else tx.(pc := Claiming, wrote := true, team := if tx.request.clear then None else tx.request.team)
  }

  // The INSERT, and on a duplicate key the second look.
  function ClaimStep(db: Store, tx: Tx): Tx {
    if tx.key.None? then tx.(pc := Ready)
    else if !Recorded(db, tx.key) then tx.(pc := Ready, claims := true)
    else if db.claims[tx.key.value] == tx.request then tx.(pc := Ready, duplicate := true)
    else tx.(pc := Refusing)
  }

  function Committed(db: Store, tx: Tx): Store
    requires Accepted(tx.request)
  {
    var written := if tx.wrote then Written(db, tx.request) else db;
    if tx.claims then Claimed(written, tx.key, tx.request) else written
  }

  function Put(sys: Sys, t: TxId, tx: Tx): Sys {
    sys.(txs := sys.txs[t := tx])
  }

  function Started(d: Delivery): Tx {
    Tx(d.key, d.request, Looking, false, false, false, false, {}, None)
  }

  function Next(sys: Sys, e: Event): Sys
    requires Enabled(sys, e)
  {
    match e
    case Begin(d) => sys.(txs := sys.txs[sys.next := Started(d)], next := sys.next + 1)
    case Look(t) => Put(sys, t, LookStep(sys.db, sys.txs[t]))
    case Take(t, row) => Put(sys, t, sys.txs[t].(xs := sys.txs[t].xs + {row}))
    case Write(t) => Put(sys, t, WriteStep(sys.db, sys.txs[t]))
    case Claim(t) => Put(sys, t, ClaimStep(sys.db, sys.txs[t]))
    case Commit(t) =>
      var tx := sys.txs[t];
      var d := Delivery(tx.key, tx.request);
      sys.(db := Committed(sys.db, tx), txs := sys.txs - {t}, answered := sys.answered[t := d],
           log := sys.log + [Entry(t, d, tx.wrote, tx.claims)])
    case Abort(t) => sys.(txs := sys.txs - {t})
    case MarkLive(team, live) => sys.(db := sys.db.(teams := sys.db.teams[team := live]))
  }

  function Initial(db: Store): Sys {
    Sys(db, 0, map[], map[], [])
  }

  ghost predicate Execution(states: seq<Sys>, events: seq<Event>) {
    && |states| == |events| + 1 && StoreValid(states[0].db) && states[0] == Initial(states[0].db)
    && forall i | 0 <= i < |events| :: Enabled(states[i], events[i]) && states[i + 1] == Next(states[i], events[i])
  }

  // ----------------------------------------------------------------------- what runs keep

  ghost predicate Bound(db: Store, key: Option<Key>, r: Request) {
    key.Some? ==> Recorded(db, key) && db.claims[key.value] == r
  }

  ghost predicate TxInv(db: Store, tx: Tx) {
    && Accepted(tx.request)
    && (tx.wrote ==>
          && RowOf(tx.request) in tx.xs && WriteFailure(db, tx.request).None?
          && (tx.request.scope == TEAM && !tx.request.clear ==> tx.team == tx.request.team)
          && (tx.request.clear ==> PlaceOf(tx.request) in db.overrides))
    && (tx.missed ==> !tx.wrote && tx.request.clear)
    && (tx.pc.Looking? || tx.pc.Writing? ==> !tx.wrote && !tx.missed) && (tx.pc.Claiming? ==> tx.wrote || tx.missed)
    && (tx.pc.Ready? ==> (tx.claims || Bound(db, tx.key, tx.request)) && (tx.wrote || tx.missed || tx.key.Some?))
    && (tx.claims ==> tx.pc.Ready? && (tx.wrote || tx.missed) && tx.key.Some? && !Recorded(db, tx.key) && ClaimRow(tx.key.value) in tx.xs)
    && (tx.pc.Ready? && !tx.wrote && !tx.missed ==> Recorded(db, tx.key))
    && (tx.duplicate <==> tx.pc.Ready? && (tx.wrote || tx.missed) && tx.key.Some? && !tx.claims)
  }

  ghost predicate Inv(sys: Sys) {
    && StoreValid(sys.db)
    && (forall t <- sys.txs :: t < sys.next && TxInv(sys.db, sys.txs[t]))
    && (forall t <- sys.txs, t' <- sys.txs :: t != t' ==> sys.txs[t].xs !! sys.txs[t'].xs)
    && (forall t <- sys.answered :: Bound(sys.db, sys.answered[t].key, sys.answered[t].request))
  }

  lemma LookKeeps(db: Store, tx: Tx)
    requires TxInv(db, tx) && tx.pc.Looking?
    ensures TxInv(db, LookStep(db, tx))
  {
  }

  lemma WriteStepKeeps(db: Store, tx: Tx)
    requires TxInv(db, tx) && tx.pc.Writing? && RowOf(tx.request) in tx.xs
    ensures TxInv(db, WriteStep(db, tx))
  {
  }

  lemma ClaimKeeps(db: Store, tx: Tx)
    requires TxInv(db, tx) && tx.pc.Claiming? && (tx.key.Some? ==> ClaimRow(tx.key.value) in tx.xs)
    ensures TxInv(db, ClaimStep(db, tx))
  {
  }

  lemma PutKeeps(sys: Sys, t: TxId, tx: Tx)
    requires Inv(sys) && t in sys.txs && TxInv(sys.db, tx) && tx.xs <= sys.txs[t].xs
    ensures Inv(Put(sys, t, tx))
  {
  }

  lemma TakeKeeps(sys: Sys, t: TxId, row: Row)
    requires Inv(sys) && Enabled(sys, Take(t, row))
    ensures Inv(Next(sys, Take(t, row)))
  {
    var sys' := Next(sys, Take(t, row));
    assert TxInv(sys.db, sys'.txs[t]);
  }

  lemma CommitKeepsStore(db: Store, tx: Tx)
    requires StoreValid(db) && TxInv(db, tx) && tx.pc.Ready?
    ensures StoreValid(Committed(db, tx)) && LedgerLater(db, Committed(db, tx)) && Committed(db, tx).teams == db.teams
    ensures Bound(Committed(db, tx), tx.key, tx.request)
    ensures forall k <- Committed(db, tx).claims :: k in db.claims || (tx.claims && Some(k) == tx.key)
  {
    if tx.wrote { WriteKeeps(db, if tx.claims then tx.key else None, tx.request); }
  }

  // Another transaction's commit, or a change to a team it does not hold, leaves it standing.
  lemma TxStable(db: Store, db': Store, tx: Tx)
    requires TxInv(db, tx) && LedgerLater(db, db')
    requires tx.wrote && tx.team.Some? && tx.team.value in db.teams ==>
               tx.team.value in db'.teams && db'.teams[tx.team.value] == db.teams[tx.team.value]
    requires tx.claims ==> !Recorded(db', tx.key)
    requires tx.wrote && tx.request.clear ==> PlaceOf(tx.request) in db'.overrides
    ensures TxInv(db', tx)
  {
    if tx.key.Some? { var k: Key := tx.key.value; assert k in db.claims ==> k in db'.claims; }
  }

  lemma CommitKeeps(sys: Sys, t: TxId)
    requires Inv(sys) && Enabled(sys, Commit(t))
    ensures Inv(Next(sys, Commit(t)))
  {
    var tx, sys' := sys.txs[t], Next(sys, Commit(t));
    CommitKeepsStore(sys.db, tx);
    forall i <- sys'.txs ensures i < sys.next && TxInv(sys'.db, sys'.txs[i]) {
      var other := sys'.txs[i];
      assert tx.xs !! other.xs;
      TxStable(sys.db, sys'.db, other);
    }
    forall i <- sys'.answered ensures Bound(sys'.db, sys'.answered[i].key, sys'.answered[i].request) {
      if i != t { BoundLater(sys.db, sys'.db, sys.answered[i].key, sys.answered[i].request); }
    }
  }

  lemma BoundLater(db: Store, db': Store, key: Option<Key>, r: Request)
    requires Bound(db, key, r) && LedgerLater(db, db')
    ensures Bound(db', key, r)
  {
    if key.Some? { var k: Key := key.value; assert k in db.claims; }
  }

  lemma MarkKeeps(sys: Sys, team: TeamId, live: bool)
    requires Inv(sys) && Enabled(sys, MarkLive(team, live))
    ensures Inv(Next(sys, MarkLive(team, live)))
  {
    var sys' := Next(sys, MarkLive(team, live));
    forall i <- sys'.txs ensures TxInv(sys'.db, sys'.txs[i]) {
      TxStable(sys.db, sys'.db, sys.txs[i]);
    }
    assert forall i <- sys'.answered :: Bound(sys.db, sys.answered[i].key, sys.answered[i].request);
  }

  lemma NextKeeps(sys: Sys, e: Event)
    requires Inv(sys) && Enabled(sys, e)
    ensures Inv(Next(sys, e))
  {
    match e
    case Begin(d) =>
    case Look(t) => LookKeeps(sys.db, sys.txs[t]); PutKeeps(sys, t, LookStep(sys.db, sys.txs[t]));
    case Take(t, row) => TakeKeeps(sys, t, row);
    case Write(t) => WriteStepKeeps(sys.db, sys.txs[t]); PutKeeps(sys, t, WriteStep(sys.db, sys.txs[t]));
    case Claim(t) => ClaimKeeps(sys.db, sys.txs[t]); PutKeeps(sys, t, ClaimStep(sys.db, sys.txs[t]));
    case Commit(t) => CommitKeeps(sys, t);
    case Abort(t) =>
    case MarkLive(team, live) => MarkKeeps(sys, team, live);
  }

  lemma {:induction false} Reachable(states: seq<Sys>, events: seq<Event>, i: nat)
    requires Execution(states, events) && i < |states|
    ensures Inv(states[i])
  {
    if i > 0 {
      Reachable(states, events, i - 1);
      NextKeeps(states[i - 1], events[i - 1]);
    }
  }

  // ONE PAYLOAD PER KEY. Over every interleaving, two deliveries under one key that were both
  // answered carried the same request, and it is the one the ledger holds.
  lemma OnePayloadPerKey(states: seq<Sys>, events: seq<Event>, i: nat, t: TxId, t': TxId)
    requires Execution(states, events) && i < |states| && t in states[i].answered && t' in states[i].answered
    requires states[i].answered[t].key.Some? && states[i].answered[t'].key == states[i].answered[t].key
    ensures states[i].answered[t].request == states[i].answered[t'].request
    ensures Bound(states[i].db, states[i].answered[t].key, states[i].answered[t].request)
  {
    Reachable(states, events, i);
  }

  // STORED VALUES: in every state of every interleaving they are 1 or 2, and no override names
  // a team with no id.
  lemma ValuesStayStorable(states: seq<Sys>, events: seq<Event>, i: nat)
    requires Execution(states, events) && i < |states|
    ensures forall n <- states[i].db.org :: Storable(states[i].db.org[n].value)
    ensures forall p <- states[i].db.overrides :: Storable(states[i].db.overrides[p]) && p.team.text != ""
  {
    Reachable(states, events, i);
  }
}
