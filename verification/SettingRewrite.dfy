/**
The interleaving in which a keyed delivery is applied twice: two deliveries of one request
both look before either commits; the first commits; somebody else changes the setting; the
second then writes, meets its own key, agrees with it, and commits the old value again.
*/
module SettingRewrite {
  import opened Wrappers
  import opened Reachability
  import opened Identifiers
  import opened Settings
  import opened SettingRace

  ghost predicate Moves(sys: Sys, sys': Sys) {
    exists e :: Enabled(sys, e) && sys' == Next(sys, e)
  }

  lemma Step(start: Sys, mid: Sys, e: Event)
    requires Reaches(Moves, start, mid) && Enabled(mid, e)
    ensures Reaches(Moves, start, Next(mid, e))
  {
    assert Moves(mid, Next(mid, e));
    Onward(Moves, start, mid, Next(mid, e));
  }

  // ------------------------------------------------------------------- one delivery alone

  function OrgRequest(value: int): Request {
    Request(ORG, None, OwnerReadsOwnRecord, Some(value), Some(false), false)
  }

  // A delivery that found its key unrecorded and is about to write.
  function Looked(d: Delivery): Tx {
    Started(d).(pc := Writing)
  }

  function WithTx(sys: Sys, tx: Tx): Sys {
    sys.(txs := sys.txs[sys.next := tx], next := sys.next + 1)
  }

  lemma Looks(start: Sys, sys: Sys, d: Delivery)
    requires Reaches(Moves, start, sys) && Accepted(d.request) && !Recorded(sys.db, d.key)
    ensures Reaches(Moves, start, WithTx(sys, Looked(d)))
  {
    Step(start, sys, Begin(d));
    var mid := Next(sys, Begin(d));
    Step(start, mid, Look(sys.next));
    assert Next(mid, Look(sys.next)) == WithTx(sys, Looked(d));
  }

  // After its write, and before its claim.
  function Wrote(d: Delivery): Tx
    requires Accepted(d.request)
  {
    Looked(d).(pc := Claiming, wrote := true, xs := {RowOf(d.request)}, team := if d.request.clear then None else d.request.team)
  }

  function Missed(d: Delivery): Tx {
    Looked(d).(pc := Claiming, missed := true)
  }

  ghost predicate Alone(sys: Sys, t: TxId) {
    forall t' <- sys.txs :: t' != t ==> sys.txs[t'].xs == {}
  }

  // Whether a write of `r` on these tables changes or keeps a row.
  predicate Matches(db: Store, r: Request)
    requires Accepted(r)
  {
    r.clear ==> PlaceOf(r) in db.overrides
  }

  lemma Writes(start: Sys, sys: Sys, t: TxId, d: Delivery)
    requires Reaches(Moves, start, sys) && t in sys.txs && sys.txs[t] == Looked(d) && Alone(sys, t)
    requires Accepted(d.request) && WriteFailure(sys.db, d.request).None?
    ensures Reaches(Moves, start, Put(sys, t, if Matches(sys.db, d.request) then Wrote(d) else Missed(d)))
  {
    var row := RowOf(d.request);
    Step(start, sys, Take(t, row));
    var mid := Next(sys, Take(t, row));
    assert {} + {row} == {row} && {row} - {row} == {};
    Step(start, mid, Write(t));
    assert Next(mid, Write(t)) == Put(sys, t, if Matches(sys.db, d.request) then Wrote(d) else Missed(d));
  }

  // What the ledger row makes of it: taken now, or already there.
  function Claimant(db: Store, tx: Tx): Tx {
    ClaimStep(db, tx.(xs := tx.xs + if tx.key.Some? then {ClaimRow(tx.key.value)} else {}))
  }

  lemma Claims(start: Sys, sys: Sys, t: TxId)
    requires Reaches(Moves, start, sys) && t in sys.txs && sys.txs[t].pc.Claiming? && Alone(sys, t)
    ensures Reaches(Moves, start, Put(sys, t, Claimant(sys.db, sys.txs[t])))
  {
    var mid, tx := sys, sys.txs[t];
    if tx.key.Some? {
      Step(start, sys, Take(t, ClaimRow(tx.key.value)));
      mid := Next(sys, Take(t, ClaimRow(tx.key.value)));
    } else {
      assert tx.xs + {} == tx.xs;
    }
    Step(start, mid, Claim(t));
    assert Next(mid, Claim(t)) == Put(sys, t, Claimant(sys.db, tx));
  }

  // A delivery whose write matches, at its commit.
  function AtCommit(db: Store, d: Delivery): Tx
    requires Accepted(d.request)
  {
    Claimant(db, Wrote(d))
  }

  lemma Prepares(start: Sys, sys: Sys, t: TxId, d: Delivery)
    requires Reaches(Moves, start, sys) && t in sys.txs && sys.txs[t] == Looked(d) && Alone(sys, t)
    requires Accepted(d.request) && WriteFailure(sys.db, d.request).None? && Matches(sys.db, d.request)
    ensures Reaches(Moves, start, Put(sys, t, AtCommit(sys.db, d)))
  {
    Writes(start, sys, t, d);
    var mid := Put(sys, t, Wrote(d));
    Claims(start, mid, t);
    assert Put(mid, t, AtCommit(sys.db, d)) == Put(sys, t, AtCommit(sys.db, d));
  }

  // ------------------------------------------------------------ an overtaken organisation write

  function Keyed(k: Key): Delivery { Delivery(Some(k), OrgRequest(1)) }
  const OTHER: Delivery := Delivery(None, OrgRequest(2))

  function AllLooked(db: Store, k: Key): Sys {
    Sys(db, 3, map[0 := Looked(Keyed(k)), 1 := Looked(Keyed(k)), 2 := Looked(OTHER)], map[], [])
  }

  lemma AllLook(db: Store, k: Key)
    requires k !in db.claims
    ensures Reaches(Moves, Initial(db), AllLooked(db, k))
  {
    var start := Initial(db);
    Stays(Moves, start);
    Looks(start, start, Keyed(k));
    var one := WithTx(start, Looked(Keyed(k)));
    Looks(start, one, Keyed(k));
    var two := WithTx(one, Looked(Keyed(k)));
    Looks(start, two, OTHER);
    assert WithTx(two, Looked(OTHER)) == AllLooked(db, k);
  }

  function FirstDone(db: Store, k: Key): Sys {
    Sys(Claimed(Written(db, OrgRequest(1)), Some(k), OrgRequest(1)), 3,
        map[1 := Looked(Keyed(k)), 2 := Looked(OTHER)], map[0 := Keyed(k)],
        [Entry(0, Keyed(k), true, true)])
  }

  lemma FirstCommits(db: Store, k: Key)
    requires k !in db.claims
    ensures Reaches(Moves, Initial(db), FirstDone(db, k))
  {
    var start, sys := Initial(db), AllLooked(db, k);
    AllLook(db, k);
    Prepares(start, sys, 0, Keyed(k));
    var ready := Put(sys, 0, AtCommit(db, Keyed(k)));
    Step(start, ready, Commit(0));
    assert Next(ready, Commit(0)) == FirstDone(db, k);
  }

  function OtherDone(db: Store, k: Key): Sys {
    Sys(Written(FirstDone(db, k).db, OrgRequest(2)), 3, map[1 := Looked(Keyed(k))], map[0 := Keyed(k), 2 := OTHER],
        [Entry(0, Keyed(k), true, true), Entry(2, OTHER, true, false)])
  }

  lemma OtherCommits(db: Store, k: Key)
    requires k !in db.claims
    ensures Reaches(Moves, Initial(db), OtherDone(db, k))
  {
    var start, sys := Initial(db), FirstDone(db, k);
    FirstCommits(db, k);
    Prepares(start, sys, 2, OTHER);
    var ready := Put(sys, 2, AtCommit(sys.db, OTHER));
    Step(start, ready, Commit(2));
    assert Next(ready, Commit(2)) == OtherDone(db, k);
  }

  // The second delivery at its commit.
  function SecondReady(db: Store, k: Key): Sys {
    Put(OtherDone(db, k), 1, AtCommit(OtherDone(db, k).db, Keyed(k)))
  }

  lemma SecondPrepares(db: Store, k: Key)
    requires k !in db.claims
    ensures Reaches(Moves, Initial(db), SecondReady(db, k))
  {
    OtherCommits(db, k);
    Prepares(Initial(db), OtherDone(db, k), 1, Keyed(k));
  }

  // It is about to undo a change made since its request was first applied.
  ghost predicate Undoes(sys: Sys, t: TxId, k: Key) {
    && Enabled(sys, Commit(t)) && sys.txs[t].key == Some(k) && Bound(sys.db, Some(k), sys.txs[t].request)
    && ReadBack(sys.db, OwnerReadsOwnRecord).orgValue == 2
    && ReadBack(Next(sys, Commit(t)).db, OwnerReadsOwnRecord).orgValue == 1
    && Serve(sys.db, sys.txs[t].key, sys.txs[t].request).store == sys.db
  }

  lemma SecondUndoes(db: Store, k: Key)
    ensures Undoes(SecondReady(db, k), 1, k)
  {
    var sys := SecondReady(db, k);
    assert Next(sys, Commit(1)).db == Written(sys.db, OrgRequest(1));
  }

  // A KEYED DELIVERY CAN BE APPLIED TWICE. From any store and for any unused key there is a run
  // in which a delivery under the key commits the value 1, another caller then commits the
  // value 2, and a second delivery of the first request commits 1 again, where the serial call
  // is a replay that leaves 2.
  lemma KeyedWriteCanBeAppliedTwice(db: Store, k: Key)
    requires k !in db.claims
    ensures exists sys, t: TxId :: Reaches(Moves, Initial(db), sys) && Undoes(sys, t, k)
  {
    SecondPrepares(db, k);
    SecondUndoes(db, k);
  }

  // --------------------------------------------------------------- clears of nothing

  function Clear(k: Key, x: TeamId): Delivery {
    Delivery(Some(k), Request(TEAM, Some(x), OwnerReadsOwnRecord, None, None, true))
  }

  function SetTeam(x: TeamId): Delivery {
    Delivery(None, Request(TEAM, Some(x), OwnerReadsOwnRecord, Some(1), None, false))
  }

  function PlaceAt(x: TeamId): Place {
    Place(OwnerReadsOwnRecord, x)
  }

  // A live team with no override, and a key nobody used.
  ghost predicate Bare(db: Store, k: Key, x: TeamId) {
    x.text != "" && LiveTeam(db, x) && PlaceAt(x) !in db.overrides && k !in db.claims
  }

  // The tables once the other caller's override is committed.
  function Overridden(db: Store, x: TeamId): Store {
    db.(overrides := db.overrides[PlaceAt(x) := 1])
  }

  // Somebody sets the override while other deliveries, holding nothing, are in flight.
  lemma Overrides(start: Sys, sys: Sys, x: TeamId)
    requires Reaches(Moves, start, sys) && sys.next !in sys.txs && x.text != "" && LiveTeam(sys.db, x)
    requires forall t <- sys.txs :: sys.txs[t].xs == {}
    ensures Reaches(Moves, start, Sys(Overridden(sys.db, x), sys.next + 1, sys.txs, sys.answered[sys.next := SetTeam(x)],
                                      sys.log + [Entry(sys.next, SetTeam(x), true, false)]))
  {
    var n, d := sys.next, SetTeam(x);
    Looks(start, sys, d);
    var mid := WithTx(sys, Looked(d));
    Prepares(start, mid, n, d);
    var ready := Put(mid, n, AtCommit(sys.db, d));
    Step(start, ready, Commit(n));
    assert ready.txs - {n} == sys.txs;
  }

  function Missing(db: Store, k: Key, x: TeamId): Sys {
    Sys(db, 1, map[0 := Missed(Clear(k, x))], map[], [])
  }

  lemma ClearMisses(db: Store, k: Key, x: TeamId)
    requires Bare(db, k, x)
    ensures Reaches(Moves, Initial(db), Missing(db, k, x))
  {
    var start, d := Initial(db), Clear(k, x);
    Stays(Moves, start);
    Looks(start, start, d);
    Writes(start, WithTx(start, Looked(d)), 0, d);
    assert Put(WithTx(start, Looked(d)), 0, Missed(d)) == Missing(db, k, x);
  }

  // The override is committed and stands; the serial clear would remove it.
  ghost predicate LeavesStanding(sys: Sys, t: TxId, k: Key, x: TeamId) {
    && Enabled(sys, Commit(t)) && sys.txs[t].key == Some(k) && !Recorded(sys.db, Some(k))
    && PlaceAt(x) in Next(sys, Commit(t)).db.overrides
    && PlaceAt(x) !in Serve(sys.db, sys.txs[t].key, sys.txs[t].request).store.overrides
  }

  // A CLEAR CAN BE UNDERCUT. From any store with a live team that has no override, and for any
  // unused key, there is a run in which a clear matches nothing, somebody sets the override, and
  // the clear then records its key and commits with the override standing.
  lemma ClearCanBeUndercut(db: Store, k: Key, x: TeamId)
    requires Bare(db, k, x)
    ensures exists sys, t: TxId :: Reaches(Moves, Initial(db), sys) && LeavesStanding(sys, t, k, x)
  {
    var start, one := Initial(db), Missing(db, k, x);
    ClearMisses(db, k, x);
    Overrides(start, one, x);
    var two := Sys(Overridden(db, x), 2, one.txs, map[1 := SetTeam(x)], [Entry(1, SetTeam(x), true, false)]);
    assert two == Sys(Overridden(one.db, x), one.next + 1, one.txs, one.answered[one.next := SetTeam(x)],
                      one.log + [Entry(one.next, SetTeam(x), true, false)]);
    Claims(start, two, 0);
    var ready := Put(two, 0, Claimant(two.db, two.txs[0]));
    assert LeavesStanding(ready, 0, k, x);
  }

  // Two deliveries of one clear, the first of which has missed.
  function OneMissed(db: Store, k: Key, x: TeamId): Sys {
    Sys(db, 2, map[0 := Missed(Clear(k, x)), 1 := Looked(Clear(k, x))], map[], [])
  }

  lemma BothLook(db: Store, k: Key, x: TeamId)
    requires Bare(db, k, x)
    ensures Reaches(Moves, Initial(db), OneMissed(db, k, x))
  {
    var start, one, d := Initial(db), Missing(db, k, x), Clear(k, x);
    ClearMisses(db, k, x);
    Looks(start, one, d);
    assert WithTx(one, Looked(d)) == OneMissed(db, k, x);
  }

  // The override set, and then the key recorded by the delivery that had missed.
  function Recording(db: Store, k: Key, x: TeamId): Sys {
    Sys(Claimed(Overridden(db, x), Some(k), Clear(k, x).request), 3, map[1 := Looked(Clear(k, x))],
        map[2 := SetTeam(x), 0 := Clear(k, x)], [Entry(2, SetTeam(x), true, false), Entry(0, Clear(k, x), false, true)])
  }

  function OverriddenBeside(db: Store, k: Key, x: TeamId): Sys {
    Sys(Overridden(db, x), 3, OneMissed(db, k, x).txs, map[2 := SetTeam(x)], [Entry(2, SetTeam(x), true, false)])
  }

  lemma OverridesBeside(db: Store, k: Key, x: TeamId)
    requires Bare(db, k, x)
    ensures Reaches(Moves, Initial(db), OverriddenBeside(db, k, x))
  {
    var one := OneMissed(db, k, x);
    BothLook(db, k, x);
    Overrides(Initial(db), one, x);
    assert OverriddenBeside(db, k, x)
        == Sys(Overridden(one.db, x), one.next + 1, one.txs, one.answered[one.next := SetTeam(x)],
               one.log + [Entry(one.next, SetTeam(x), true, false)]);
  }

  lemma MissedRecords(db: Store, k: Key, x: TeamId)
    requires Bare(db, k, x)
    ensures Reaches(Moves, Initial(db), Recording(db, k, x))
  {
    var start, two := Initial(db), OverriddenBeside(db, k, x);
    OverridesBeside(db, k, x);
    Claims(start, two, 0);
    var ready := Put(two, 0, Claimant(two.db, two.txs[0]));
    Step(start, ready, Commit(0));
    assert Next(ready, Commit(0)) == Recording(db, k, x);
  }

  // Its key is recorded for its request, and it is about to remove an override the serial call
  // would leave.
  ghost predicate Removes(sys: Sys, t: TxId, k: Key, x: TeamId) {
    && Enabled(sys, Commit(t)) && sys.txs[t].key == Some(k) && Bound(sys.db, Some(k), sys.txs[t].request)
    && PlaceAt(x) in sys.db.overrides && PlaceAt(x) !in Next(sys, Commit(t)).db.overrides
    && Serve(sys.db, sys.txs[t].key, sys.txs[t].request).store == sys.db
  }

  // A CLEAR CAN BE APPLIED AFTER ITS KEY WAS RECORDED BY ONE THAT DID NOTHING. From any such
  // store there is a run in which a clear matches nothing and records its key, and a second
  // delivery of it removes an override committed in between and reports success.
  lemma ClearCanUndoALaterOverride(db: Store, k: Key, x: TeamId)
    requires Bare(db, k, x)
    ensures exists sys, t: TxId :: Reaches(Moves, Initial(db), sys) && Removes(sys, t, k, x)
  {
    var start, sys, d := Initial(db), Recording(db, k, x), Clear(k, x);
    MissedRecords(db, k, x);
    Prepares(start, sys, 1, d);
    var ready := Put(sys, 1, AtCommit(sys.db, d));
    assert Removes(ready, 1, k, x);
  }

  // ------------------------------------------------------------ a delivery that meets nobody

  function DoneAlone(sys: Sys, d: Delivery, wrote: bool, claimed: bool): Sys {
    sys.(db := Serve(sys.db, d.key, d.request).store, next := sys.next + 1, answered := sys.answered[sys.next := d],
         log := sys.log + [Entry(sys.next, d, wrote, claimed)])
  }

  // It runs through to its commit exactly as the serial call.
  ghost predicate RunsThrough(sys: Sys, d: Delivery) {
    exists wrote, claimed :: Reaches(Moves, sys, DoneAlone(sys, d, wrote, claimed))
  }

  lemma ReplayRuns(sys: Sys, d: Delivery)
    requires sys.txs == map[] && Accepted(d.request) && Recorded(sys.db, d.key) && sys.db.claims[d.key.value] == d.request
    ensures RunsThrough(sys, d)
  {
    var n := sys.next;
    Stays(Moves, sys);
    Step(sys, sys, Begin(d));
    var one := Next(sys, Begin(d));
    Step(sys, one, Look(n));
    var two := Next(one, Look(n));
    Step(sys, two, Commit(n));
    assert Next(two, Commit(n)) == DoneAlone(sys, d, false, false);
  }

  lemma WriteRuns(sys: Sys, d: Delivery)
    requires sys.txs == map[] && Accepted(d.request) && !Recorded(sys.db, d.key) && WriteFailure(sys.db, d.request).None?
    ensures RunsThrough(sys, d)
  {
    var n, tx := sys.next, if Matches(sys.db, d.request) then Wrote(d) else Missed(d);
    Stays(Moves, sys);
    Looks(sys, sys, d);
    Writes(sys, WithTx(sys, Looked(d)), n, d);
    var mid := Put(WithTx(sys, Looked(d)), n, tx);
    Claims(sys, mid, n);
    var ready := Put(mid, n, Claimant(sys.db, tx));
    Step(sys, ready, Commit(n));
    CommittedAlone(sys.db, d, tx);
    assert Next(ready, Commit(n)) == DoneAlone(sys, d, tx.wrote, d.key.Some?);
  }

  lemma CommittedAlone(db: Store, d: Delivery, tx: Tx)
    requires Accepted(d.request) && !Recorded(db, d.key) && WriteFailure(db, d.request).None?
    requires tx == if Matches(db, d.request) then Wrote(d) else Missed(d)
    ensures Claimant(db, tx).pc.Ready? && Claimant(db, tx).claims == d.key.Some?
    ensures Committed(db, Claimant(db, tx)) == Serve(db, d.key, d.request).store
  {
    if !Matches(db, d.request) { assert db.overrides - {PlaceOf(d.request)} == db.overrides; }
  }

  lemma RefusalRuns(sys: Sys, d: Delivery) returns (end: Sys)
    requires sys.txs == map[] && Accepted(d.request) && Serve(sys.db, d.key, d.request).answer.Refused?
    ensures Reaches(Moves, sys, end) && At(end, sys.next, Refusing) && end.db == sys.db
  {
    var n := sys.next;
    Stays(Moves, sys);
    Step(sys, sys, Begin(d));
    var one := Next(sys, Begin(d));
    Step(sys, one, Look(n));
    end := Next(one, Look(n));
    if !Recorded(sys.db, d.key) {
      var row := RowOf(d.request);
      Step(sys, end, Take(n, row));
      end := Next(end, Take(n, row));
      Step(sys, end, Write(n));
      end := Next(end, Write(n));
    }
  }

  // EVERY DELIVERY CAN BE SERVED: from every state in which nobody is in flight, a well-formed
  // delivery runs alone to the commit of the serial call when that answers, and to its refusal
  // when that refuses.
  lemma EveryDeliveryIsServed(sys: Sys, d: Delivery) returns (end: Sys)
    requires sys.txs == map[] && Accepted(d.request)
    ensures Serve(sys.db, d.key, d.request).answer.Current? ==> RunsThrough(sys, d)
    ensures Serve(sys.db, d.key, d.request).answer.Refused? ==>
              Reaches(Moves, sys, end) && At(end, sys.next, Refusing) && end.db == sys.db
  {
    end := sys;
    if Serve(sys.db, d.key, d.request).answer.Refused? {
      end := RefusalRuns(sys, d);
    } else if Recorded(sys.db, d.key) {
      ReplayRuns(sys, d);
    } else {
      WriteRuns(sys, d);
    }
  }
}
