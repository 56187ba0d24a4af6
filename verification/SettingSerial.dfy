/**
When an interleaved delivery of SetInheritedSetting commits what the serial call would, told
from the run: from when its key was recorded and from what was last committed to the row it
writes.
*/
module SettingSerial {
  import opened Wrappers
  import opened Identifiers
  import opened Settings
  import opened SettingRace

  // ------------------------------------------------------------------------ the stored row

  // The row a request writes already says what it asks for.
  predicate InEffect(db: Store, r: Request)
    requires Accepted(r)
  {
    if r.scope == ORG then r.name in db.org && db.org[r.name].value == r.value.value && db.org[r.name].locked == r.locked.value
    else if r.clear then PlaceOf(r) !in db.overrides
    else PlaceOf(r) in db.overrides && db.overrides[PlaceOf(r)] == r.value.value
  }

  lemma InEffectMeansUnchanged(db: Store, r: Request)
    requires Accepted(r)
    ensures Written(db, r) == db <==> InEffect(db, r)
  {
    if InEffect(db, r) && r.scope != ORG && !r.clear { assert db.overrides[PlaceOf(r) := r.value.value] == db.overrides; }
  }

  // A row says what at most one request to it asks for.
  lemma OneRequestInEffect(db: Store, q: Request, r: Request)
    requires Accepted(q) && Accepted(r) && RowOf(q) == RowOf(r) && InEffect(db, q)
    ensures InEffect(db, r) <==> q == r
  {
    AcceptedExactly(q);
    AcceptedExactly(r);
  }

  lemma WrittenIsInEffect(db: Store, r: Request)
    requires Accepted(r)
    ensures InEffect(Written(db, r), r)
  {
  }

  lemma WrittenElsewhere(db: Store, q: Request, r: Request)
    requires Accepted(q) && Accepted(r) && RowOf(q) != RowOf(r) && InEffect(db, q)
    ensures InEffect(Written(db, r), q)
  {
    AcceptedExactly(q);
    AcceptedExactly(r);
  }

  // ------------------------------------------------------------------------------ the log

  predicate WritesTo(e: Entry, row: Row) {
    e.wrote && Accepted(e.delivery.request) && RowOf(e.delivery.request) == row
  }

  // The request of the last commit that wrote `row`.
  function LastWrite(log: seq<Entry>, row: Row): Option<Request> {
    if log == [] then None
    else if WritesTo(log[|log| - 1], row) then Some(log[|log| - 1].delivery.request)
    else LastWrite(log[..|log| - 1], row)
  }

  lemma {:induction false} LastWriteIsIn(log: seq<Entry>, row: Row)
    ensures LastWrite(log, row).Some? ==> Accepted(LastWrite(log, row).value) && RowOf(LastWrite(log, row).value) == row
    ensures LastWrite(log, row).None? ==> forall i | 0 <= i < |log| :: !WritesTo(log[i], row)
  {
    if log != [] { LastWriteIsIn(log[..|log| - 1], row); }
  }

  lemma LastWriteGrows(log: seq<Entry>, e: Entry, row: Row)
    ensures LastWrite(log + [e], row) == if WritesTo(e, row) then Some(e.delivery.request) else LastWrite(log, row)
  {
    assert (log + [e])[..|log|] == log;
  }

  // Commits before one that writes the row do not matter.
  lemma {:induction false} LastWriteSince(log: seq<Entry>, w: nat, row: Row)
    requires w < |log| && WritesTo(log[w], row)
    ensures LastWrite(log, row) == LastWrite(log[w..], row)
  {
    var n := |log| - 1;
    assert log[w..][n - w] == log[n];
    if !WritesTo(log[n], row) {
      LastWriteSince(log[..n], w, row);
      assert log[w..][..n - w] == log[..n][w..];
    }
  }

  // Every row says what the last commit to it asked for.
  ghost predicate RowsFollow(db: Store, log: seq<Entry>) {
    forall row: Row | LastWrite(log, row).Some? ::
      Accepted(LastWrite(log, row).value) && InEffect(db, LastWrite(log, row).value)
  }

  // A commit that recorded a key wrote, or was a clear, and every key recorded since the start is in the log.
  ghost predicate KeysFollow(first: Store, db: Store, log: seq<Entry>) {
    && (forall i | 0 <= i < |log| && log[i].claimed ::
          (log[i].wrote || log[i].delivery.request.clear) && log[i].delivery.key.Some? && Bound(db, log[i].delivery.key, log[i].delivery.request))
    && (forall i | 0 <= i < |log| :: Accepted(log[i].delivery.request))
    && forall k <- db.claims :: k in first.claims || exists i :: 0 <= i < |log| && log[i].claimed && log[i].delivery.key == Some(k)
  }

  ghost predicate LogInv(first: Store, sys: Sys) {
    RowsFollow(sys.db, sys.log) && KeysFollow(first, sys.db, sys.log)
  }

  lemma CommitRowsFollow(db: Store, log: seq<Entry>, tx: Tx, e: Entry)
    requires RowsFollow(db, log) && TxInv(db, tx) && e.delivery.request == tx.request && e.wrote == tx.wrote
    ensures RowsFollow(Committed(db, tx), log + [e])
  {
    var db' := Committed(db, tx);
    forall row: Row | LastWrite(log + [e], row).Some?
      ensures Accepted(LastWrite(log + [e], row).value) && InEffect(db', LastWrite(log + [e], row).value)
    {
      LastWriteGrows(log, e, row);
      LastWriteIsIn(log, row);
      if WritesTo(e, row) {
        WrittenIsInEffect(db, tx.request);
      } else if tx.wrote {
        WrittenElsewhere(db, LastWrite(log, row).value, tx.request);
      }
    }
  }

  lemma CommitKeysFollow(first: Store, db: Store, log: seq<Entry>, tx: Tx, e: Entry)
    requires KeysFollow(first, db, log) && StoreValid(db) && TxInv(db, tx) && tx.pc.Ready?
    requires e.delivery == Delivery(tx.key, tx.request) && e.wrote == tx.wrote && e.claimed == tx.claims
    ensures KeysFollow(first, Committed(db, tx), log + [e])
  {
    var db', log' := Committed(db, tx), log + [e];
    CommitKeepsStore(db, tx);
    forall i | 0 <= i < |log'| && log'[i].claimed
      ensures (log'[i].wrote || log'[i].delivery.request.clear) && log'[i].delivery.key.Some? && Bound(db', log'[i].delivery.key, log'[i].delivery.request)
    {
      if i < |log| { BoundLater(db, db', log[i].delivery.key, log[i].delivery.request); }
    }
    forall k <- db'.claims ensures k in first.claims || exists i :: 0 <= i < |log'| && log'[i].claimed && log'[i].delivery.key == Some(k) {
      if k in db.claims {
        if k !in first.claims {
          var i :| 0 <= i < |log| && log[i].claimed && log[i].delivery.key == Some(k);
          assert log'[i].claimed && log'[i].delivery.key == Some(k);
        }
      } else {
        assert log'[|log|].claimed && log'[|log|].delivery.key == Some(k);
      }
    }
  }

  lemma {:induction false} ReachableLog(states: seq<Sys>, events: seq<Event>, i: nat)
    requires Execution(states, events) && i < |states|
    ensures Inv(states[i]) && LogInv(states[0].db, states[i])
  {
    Reachable(states, events, i);
    if i > 0 {
      ReachableLog(states, events, i - 1);
      var sys, e := states[i - 1], events[i - 1];
      assert states[i - 1 + 1] == Next(sys, e);
      if e.Commit? {
        var tx := sys.txs[e.tx];
        var entry := Entry(e.tx, Delivery(tx.key, tx.request), tx.wrote, tx.claims);
        CommitRowsFollow(sys.db, sys.log, tx, entry);
        CommitKeysFollow(states[0].db, sys.db, sys.log, tx, entry);
      }
    }
  }

  // ----------------------------------------------------------------- the order of events

  lemma StepAt(states: seq<Sys>, events: seq<Event>, k: nat)
    requires Execution(states, events) && k < |events|
    ensures Enabled(states[k], events[k]) && states[k + 1] == Next(states[k], events[k])
  {
  }

  // The key of transaction `t` was recorded after it looked and before it claimed.
  ghost predicate RecordedBetween(states: seq<Sys>, events: seq<Event>, i: nat, t: TxId)
    requires Execution(states, events) && i < |states| && t in states[i].txs
  {
    exists a, c | 0 <= a < c < i :: Overtaken(states, events, states[i].txs[t].key, t, a, c)
  }

  ghost predicate Overtaken(states: seq<Sys>, events: seq<Event>, key: Option<Key>, t: TxId, a: nat, c: nat)
    requires |states| == |events| + 1 && a < c < |events|
  {
    && events[a] == Look(t) && !Recorded(states[a].db, key)
    && events[c] == Claim(t) && Recorded(states[c].db, key)
  }

  // A transaction about to write or claim has looked just now, or already was.
  lemma BeforeWriting(sys: Sys, e: Event, t: TxId)
    requires Enabled(sys, e) && t in Next(sys, e).txs
    requires Next(sys, e).txs[t].pc.Writing? || Next(sys, e).txs[t].pc.Claiming?
    ensures t in sys.txs && sys.txs[t].key == Next(sys, e).txs[t].key
    ensures if e == Look(t) then !Recorded(sys.db, sys.txs[t].key)
            else sys.txs[t].pc.Writing? || sys.txs[t].pc.Claiming?
  {
  }

  lemma {:induction false} LookedBefore(states: seq<Sys>, events: seq<Event>, j: nat, t: TxId)
    requires Execution(states, events) && j < |states| && t in states[j].txs
    requires states[j].txs[t].pc.Writing? || states[j].txs[t].pc.Claiming?
    ensures exists a :: 0 <= a < j && events[a] == Look(t) && !Recorded(states[a].db, states[j].txs[t].key)
  {
    if j > 0 {
      StepAt(states, events, j - 1);
      BeforeWriting(states[j - 1], events[j - 1], t);
      if events[j - 1] != Look(t) { LookedBefore(states, events, j - 1, t); }
    }
  }

  // A duplicate has claimed just now, or already was one.
  lemma BeforeDuplicate(sys: Sys, e: Event, t: TxId)
    requires Enabled(sys, e) && t in Next(sys, e).txs && Next(sys, e).txs[t].duplicate
    ensures t in sys.txs && sys.txs[t].key == Next(sys, e).txs[t].key
    ensures sys.txs[t].duplicate || (e == Claim(t) && sys.txs[t].pc.Claiming? && Recorded(sys.db, sys.txs[t].key))
  {
  }

  lemma {:induction false} DuplicateWasOvertaken(states: seq<Sys>, events: seq<Event>, i: nat, t: TxId)
    requires Execution(states, events) && i < |states| && t in states[i].txs && states[i].txs[t].duplicate
    ensures RecordedBetween(states, events, i, t)
  {
    if i > 0 {
      StepAt(states, events, i - 1);
      BeforeDuplicate(states[i - 1], events[i - 1], t);
      var key := states[i].txs[t].key;
      if states[i - 1].txs[t].duplicate {
        DuplicateWasOvertaken(states, events, i - 1, t);
        var a, c :| 0 <= a < c < i - 1 && Overtaken(states, events, key, t, a, c);
        assert Overtaken(states, events, key, t, a, c);
      } else {
        LookedBefore(states, events, i - 1, t);
        var a :| 0 <= a < i - 1 && events[a] == Look(t) && !Recorded(states[a].db, key);
        assert Overtaken(states, events, key, t, a, i - 1);
      }
    }
  }

  // From its claim on, a transaction only takes locks and ends.
  ghost predicate Settled(sys: Sys, t: TxId, tx: Tx) {
    t < sys.next && (t in sys.txs ==> sys.txs[t].(xs := {}) == tx.(xs := {}))
  }

  lemma SettledStep(sys: Sys, e: Event, t: TxId, tx: Tx)
    requires Enabled(sys, e) && Settled(sys, t, tx) && (tx.pc.Ready? || tx.pc.Refusing?)
    ensures Settled(Next(sys, e), t, tx)
  {
  }

  lemma ClaimSettles(sys: Sys, t: TxId)
    requires Enabled(sys, Claim(t)) && t < sys.next
    ensures Settled(Next(sys, Claim(t)), t, ClaimStep(sys.db, sys.txs[t]))
  {
  }

  lemma {:induction false} StaysSettled(states: seq<Sys>, events: seq<Event>, c: nat, i: nat, t: TxId)
    requires Execution(states, events) && c < i < |states| && events[c] == Claim(t)
    ensures t in states[c].txs && Settled(states[i], t, ClaimStep(states[c].db, states[c].txs[t]))
    decreases i
  {
    StepAt(states, events, i - 1);
    if i - 1 > c {
      StaysSettled(states, events, c, i - 1, t);
      SettledStep(states[i - 1], events[i - 1], t, ClaimStep(states[c].db, states[c].txs[t]));
    } else {
      Reachable(states, events, c);
      ClaimSettles(states[c], t);
    }
  }

  lemma OvertakenIsDuplicate(states: seq<Sys>, events: seq<Event>, i: nat, t: TxId, a: nat, c: nat)
    requires Execution(states, events) && a < c < i < |states| && Enabled(states[i], Commit(t))
    requires Overtaken(states, events, states[i].txs[t].key, t, a, c)
    ensures states[i].txs[t].duplicate
  {
    StaysSettled(states, events, c, i, t);
  }

  // DUPLICATE MEANS OVERTAKEN: a delivery that is ready to commit met its own key exactly when
  // the key was recorded between its look and its claim.
  lemma DuplicateExactly(states: seq<Sys>, events: seq<Event>, i: nat, t: TxId)
    requires Execution(states, events) && i < |states| && Enabled(states[i], Commit(t))
    ensures states[i].txs[t].duplicate <==> RecordedBetween(states, events, i, t)
  {
    if states[i].txs[t].duplicate {
      DuplicateWasOvertaken(states, events, i, t);
    } else if RecordedBetween(states, events, i, t) {
      var a, c :| 0 <= a < c < i && Overtaken(states, events, states[i].txs[t].key, t, a, c);
      OvertakenIsDuplicate(states, events, i, t, a, c);
    }
  }

  // ----------------------------------------------------------- when a commit is serial

  lemma {:induction false} LedgerOnlyGrows(states: seq<Sys>, events: seq<Event>, a: nat)
    requires Execution(states, events) && a < |states|
    ensures LedgerLater(states[0].db, states[a].db)
  {
    if a > 0 {
      LedgerOnlyGrows(states, events, a - 1);
      StepAt(states, events, a - 1);
      Reachable(states, events, a - 1);
      var sys, e := states[a - 1], events[a - 1];
      if e.Commit? { CommitKeepsStore(sys.db, sys.txs[e.tx]); }
    }
  }

  // The commit that recorded the key of an overtaken delivery is in the log, and wrote its row.
  lemma RecorderIsLogged(states: seq<Sys>, events: seq<Event>, i: nat, t: TxId)
    requires Execution(states, events) && i < |states| && Enabled(states[i], Commit(t)) && RecordedBetween(states, events, i, t)
    ensures exists w :: 0 <= w < |states[i].log| && Records(states[i].log[w], states[i].txs[t])
  {
    var sys, tx := states[i], states[i].txs[t];
    ReachableLog(states, events, i);
    DuplicateExactly(states, events, i, t);
    var a, c :| 0 <= a < c < i && Overtaken(states, events, tx.key, t, a, c);
    LedgerOnlyGrows(states, events, a);
    var k: Key := tx.key.value;
    assert k in sys.db.claims && k !in states[0].db.claims;
    var w :| 0 <= w < |sys.log| && sys.log[w].claimed && sys.log[w].delivery.key == Some(k);
    assert Records(sys.log[w], tx);
  }

  // The commit that recorded the key of `tx`.
  ghost predicate Records(e: Entry, tx: Tx) {
    e.claimed && e.delivery.key == tx.key
  }

  // What the commit does, against what the serial call would do on the same tables.
  ghost predicate IsSerial(sys: Sys, t: TxId)
    requires Enabled(sys, Commit(t))
  {
    Next(sys, Commit(t)).db == Serve(sys.db, sys.txs[t].key, sys.txs[t].request).store
  }

  // A duplicate that missed and a delivery that neither met its key nor missed are serial; one
  // of the two alone leaves it to the stored row.
  lemma SerialExactly(db: Store, tx: Tx)
    requires TxInv(db, tx) && tx.pc.Ready?
    ensures Committed(db, tx) == Serve(db, tx.key, tx.request).store <==>
              (tx.duplicate <==> tx.missed) || InEffect(db, tx.request)
  {
    InEffectMeansUnchanged(db, tx.request);
  }

  lemma InEffectExactly(first: Store, sys: Sys, tx: Tx, w: nat)
    requires LogInv(first, sys) && TxInv(sys.db, tx) && tx.pc.Ready? && tx.duplicate && !tx.request.clear
    requires w < |sys.log| && Records(sys.log[w], tx)
    ensures InEffect(sys.db, tx.request) <==> LastWrite(sys.log[w..], RowOf(tx.request)) == Some(tx.request)
  {
    var row := RowOf(tx.request);
    assert WritesTo(sys.log[w], row);
    LastWriteSince(sys.log, w, row);
    LastWriteIsIn(sys.log, row);
    OneRequestInEffect(sys.db, LastWrite(sys.log, row).value, tx.request);
  }

  // AN OVERTAKEN WRITE IS SERIAL EXACTLY WHEN NOBODY HAS CHANGED THE ROW SINCE: the commit of an
  // organisation or team write is what the serial call would do if and only if the last write
  // committed to its row, from the commit that recorded its key on, is of the same request.
  lemma OvertakenWriteIsSerialExactly(states: seq<Sys>, events: seq<Event>, i: nat, t: TxId, w: nat)
    requires Execution(states, events) && i < |states| && Enabled(states[i], Commit(t)) && RecordedBetween(states, events, i, t)
    requires !states[i].txs[t].request.clear
    requires w < |states[i].log| && Records(states[i].log[w], states[i].txs[t])
    ensures var r := states[i].txs[t].request;
            IsSerial(states[i], t) <==> LastWrite(states[i].log[w..], RowOf(r)) == Some(r)
  {
    ReachableLog(states, events, i);
    DuplicateExactly(states, events, i, t);
    SerialExactly(states[i].db, states[i].txs[t]);
    InEffectExactly(states[0].db, states[i], states[i].txs[t], w);
  }

  // ------------------------------------------------------------------------------- clears

  // From its write on, a transaction keeps what the write did.
  ghost predicate Wrote(sys: Sys, t: TxId, tx: Tx) {
    t < sys.next
    && (t in sys.txs ==>
          && sys.txs[t].request == tx.request && sys.txs[t].wrote == tx.wrote && sys.txs[t].missed == tx.missed
          && !sys.txs[t].pc.Looking? && !sys.txs[t].pc.Writing?)
  }

  lemma WroteStep(sys: Sys, e: Event, t: TxId, tx: Tx)
    requires Enabled(sys, e) && Wrote(sys, t, tx)
    ensures Wrote(Next(sys, e), t, tx)
  {
  }

  lemma WriteWrote(sys: Sys, t: TxId)
    requires Enabled(sys, Write(t)) && t < sys.next
    ensures Wrote(Next(sys, Write(t)), t, WriteStep(sys.db, sys.txs[t]))
  {
  }

  lemma {:induction false} StaysWritten(states: seq<Sys>, events: seq<Event>, b: nat, i: nat, t: TxId)
    requires Execution(states, events) && b < i < |states| && events[b] == Write(t)
    ensures t in states[b].txs && Accepted(states[b].txs[t].request)
    ensures Wrote(states[i], t, WriteStep(states[b].db, states[b].txs[t]))
    decreases i
  {
    StepAt(states, events, i - 1);
    StepAt(states, events, b);
    if i - 1 > b {
      StaysWritten(states, events, b, i - 1, t);
      WroteStep(states[i - 1], events[i - 1], t, WriteStep(states[b].db, states[b].txs[t]));
    } else {
      Reachable(states, events, b);
      WriteWrote(states[b], t);
    }
  }

  // A clear missed exactly when no override stood committed on its row as it wrote.
  lemma MissedExactly(states: seq<Sys>, events: seq<Event>, b: nat, i: nat, t: TxId)
    requires Execution(states, events) && b < i < |states| && events[b] == Write(t) && Enabled(states[i], Commit(t))
    requires states[i].txs[t].request.clear
    ensures states[i].txs[t].request.team.Some?
    ensures states[i].txs[t].missed <==> PlaceOf(states[i].txs[t].request) !in states[b].db.overrides
    ensures states[i].txs[t].wrote || states[i].txs[t].missed
  {
    StaysWritten(states, events, b, i, t);
    Reachable(states, events, b);
  }

  // AN OVERTAKEN CLEAR IS SERIAL EXACTLY WHEN ITS DELETE MATCHED NOTHING: no override stood
  // committed on the row when it wrote.
  lemma OvertakenClearIsSerialExactly(states: seq<Sys>, events: seq<Event>, i: nat, t: TxId, b: nat)
    requires Execution(states, events) && i < |states| && Enabled(states[i], Commit(t)) && RecordedBetween(states, events, i, t)
    requires states[i].txs[t].request.clear && b < i && events[b] == Write(t)
    ensures states[i].txs[t].request.team.Some?
    ensures IsSerial(states[i], t) <==> PlaceOf(states[i].txs[t].request) !in states[b].db.overrides
  {
    Reachable(states, events, i);
    DuplicateExactly(states, events, i, t);
    SerialExactly(states[i].db, states[i].txs[t]);
    MissedExactly(states, events, b, i, t);
  }

  // Before its write a transaction has done nothing.
  lemma BeforeItWrote(sys: Sys, e: Event, t: TxId)
    requires Enabled(sys, e) && t in Next(sys, e).txs && (Next(sys, e).txs[t].wrote || Next(sys, e).txs[t].missed)
    ensures e == Write(t) || (t in sys.txs && (sys.txs[t].wrote || sys.txs[t].missed))
  {
  }

  // Whoever wrote or missed has such a write behind them.
  lemma {:induction false} HasWritten(states: seq<Sys>, events: seq<Event>, i: nat, t: TxId)
    requires Execution(states, events) && i < |states| && t in states[i].txs && (states[i].txs[t].wrote || states[i].txs[t].missed)
    ensures exists b :: 0 <= b < i && events[b] == Write(t)
  {
    if i > 0 {
      StepAt(states, events, i - 1);
      BeforeItWrote(states[i - 1], events[i - 1], t);
      if events[i - 1] != Write(t) { HasWritten(states, events, i - 1, t); }
    }
  }

  // ------------------------------------------------------------------ one row since a state

  function Since(log: seq<Entry>, n: nat): seq<Entry> {
    if n <= |log| then log[n..] else []
  }

  // The override at `p` is what the last of these commits to it left, or what it was at first.
  ghost predicate PlaceFollows(first: Store, db: Store, log: seq<Entry>, p: Place) {
    var last := LastWrite(log, OverrideRow(p));
    if last.None? then p in db.overrides <==> p in first.overrides
    else Accepted(last.value) && RowOf(last.value) == OverrideRow(p) && InEffect(db, last.value)
  }

  lemma CommitPlaceFollows(first: Store, db: Store, log: seq<Entry>, p: Place, tx: Tx, e: Entry)
    requires PlaceFollows(first, db, log, p) && Accepted(tx.request) && e.delivery.request == tx.request && e.wrote == tx.wrote
    ensures PlaceFollows(first, Committed(db, tx), log + [e], p)
  {
    var row := OverrideRow(p);
    LastWriteGrows(log, e, row);
    if WritesTo(e, row) {
      WrittenIsInEffect(db, tx.request);
    } else if tx.wrote && LastWrite(log, row).Some? {
      WrittenElsewhere(db, LastWrite(log, row).value, tx.request);
    }
  }

  lemma PlaceStep(first: Store, sys: Sys, e: Event, n: nat, p: Place)
    requires Enabled(sys, e) && n <= |sys.log| && PlaceFollows(first, sys.db, Since(sys.log, n), p)
    ensures n <= |Next(sys, e).log| && PlaceFollows(first, Next(sys, e).db, Since(Next(sys, e).log, n), p)
  {
    if e.Commit? {
      var tx := sys.txs[e.tx];
      var entry := Entry(e.tx, Delivery(tx.key, tx.request), tx.wrote, tx.claims);
      assert Since(sys.log + [entry], n) == Since(sys.log, n) + [entry];
      CommitPlaceFollows(first, sys.db, Since(sys.log, n), p, tx, entry);
    }
  }

  lemma {:induction false} PlaceSince(states: seq<Sys>, events: seq<Event>, b: nat, j: nat, p: Place)
    requires Execution(states, events) && b <= j < |states|
    ensures |states[b].log| <= |states[j].log|
    ensures PlaceFollows(states[b].db, states[j].db, Since(states[j].log, |states[b].log|), p)
    decreases j
  {
    if b < j {
      PlaceSince(states, events, b, j - 1, p);
      StepAt(states, events, j - 1);
      PlaceStep(states[b].db, states[j - 1], events[j - 1], |states[b].log|, p);
    }
  }

  // A clear of `t` matched nothing at event `b`, and the last write committed to its row since
  // then set an override.
  ghost predicate Undercut(states: seq<Sys>, events: seq<Event>, i: nat, t: TxId, b: nat)
    requires Execution(states, events) && b < i < |states| && t in states[i].txs
  {
    var r := states[i].txs[t].request;
    && events[b] == Write(t) && Accepted(r) && r.clear && PlaceOf(r) !in states[b].db.overrides
    && var last := LastWrite(Since(states[i].log, |states[b].log|), RowOf(r)); last.Some? && !last.value.clear
  }

  lemma UndercutExactly(states: seq<Sys>, events: seq<Event>, i: nat, t: TxId, b: nat)
    requires Execution(states, events) && b < i < |states| && Enabled(states[i], Commit(t)) && events[b] == Write(t)
    ensures Undercut(states, events, i, t, b) <==> states[i].txs[t].missed && !InEffect(states[i].db, states[i].txs[t].request)
  {
    var r := states[i].txs[t].request;
    Reachable(states, events, i);
    if r.clear {
      MissedExactly(states, events, b, i, t);
      PlaceSince(states, events, b, i, PlaceOf(r));
    }
  }

  // EVERY OTHER DELIVERY IS SERIAL UNLESS UNDERCUT. A delivery that had no key, looked after its
  // key was recorded, or found it free when it claimed commits what the serial call would, if
  // and only if it is not a clear that matched nothing and whose row has been set since.
  lemma OthersAreSerialExactly(states: seq<Sys>, events: seq<Event>, i: nat, t: TxId)
    requires Execution(states, events) && i < |states| && Enabled(states[i], Commit(t)) && !RecordedBetween(states, events, i, t)
    ensures IsSerial(states[i], t) <==> !exists b | 0 <= b < i :: Undercut(states, events, i, t, b)
  {
    var tx := states[i].txs[t];
    Reachable(states, events, i);
    DuplicateExactly(states, events, i, t);
    SerialExactly(states[i].db, tx);
    if b: nat :| b < i && Undercut(states, events, i, t, b) { UndercutExactly(states, events, i, t, b); }
    if tx.missed {
      HasWritten(states, events, i, t);
      var b :| 0 <= b < i && events[b] == Write(t);
      UndercutExactly(states, events, i, t, b);
    }
  }
}
