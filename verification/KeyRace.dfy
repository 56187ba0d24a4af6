/**
Any number of SetKeyIdentity calls racing on an empty store, statement by statement: the
INSERT holds the singleton row to its commit, a loser waits for it, fails on the duplicate
key and reads the marker again. An engine error may end any call at any point.
*/
module KeyRace {
  import opened Wrappers
  import opened KeyIdentity

  datatype Caller = Caller(pair: Pair, key: Option<Key>)

  datatype Pc = Start | Inserted | Duplicate | Told(answer: Answer) | Aborted

  // `writer` has inserted and not committed.
  datatype Race = Race(marker: Option<Marker>, writer: Option<nat>, pcs: seq<Pc>)

  datatype Event = Insert(caller: nat) | Commit(caller: nat) | Reread(caller: nat) | Abort(caller: nat)

  predicate Enabled(r: Race, e: Event) {
    && e.caller < |r.pcs|
    && match e
       case Insert(i) => r.pcs[i].Start? && r.writer.None?
       case Commit(i) => r.pcs[i].Inserted?
       case Reread(i) => r.pcs[i].Duplicate? && r.writer.None? && r.marker.Some?
       case Abort(i) => !r.pcs[i].Told?
  }

  function Next(callers: seq<Caller>, r: Race, e: Event): Race
    requires |r.pcs| == |callers| && Enabled(r, e)
  {
    match e
    case Insert(i) =>
      if r.marker.None? then r.(writer := Some(i), pcs := r.pcs[i := Inserted])
      else r.(pcs := r.pcs[i := Duplicate])
    case Commit(i) =>
      Race(Some(Marker(callers[i].pair, callers[i].key)), None, r.pcs[i := Told(Answered(Recorded))])
    case Reread(i) =>
      r.(pcs := r.pcs[i := Told(ReplayedOrCompared(r.marker.value, callers[i].pair, callers[i].key))])
    case Abort(i) =>
      r.(writer := if r.writer == Some(i) then None else r.writer, pcs := r.pcs[i := Aborted])
  }

  function Initial(n: nat): Race {
    Race(None, None, seq(n, _ => Start))
  }

  ghost predicate Execution(callers: seq<Caller>, states: seq<Race>, events: seq<Event>) {
    && |states| == |events| + 1 && states[0] == Initial(|callers|)
    && forall k | 0 <= k < |events| ::
         |states[k].pcs| == |callers| && Enabled(states[k], events[k]) && states[k + 1] == Next(callers, states[k], events[k])
  }

  // Who wrote, if anyone has: the marker is theirs, and everyone else told anything was told
  // the comparison with it.
  ghost predicate WonBy(callers: seq<Caller>, r: Race, w: nat)
    requires |r.pcs| == |callers|
  {
    && w < |callers| && r.marker == Some(Marker(callers[w].pair, callers[w].key))
    && r.pcs[w] == Told(Answered(Recorded))
    && forall i | 0 <= i < |callers| && i != w && r.pcs[i].Told? ::
         r.pcs[i].answer == ReplayedOrCompared(r.marker.value, callers[i].pair, callers[i].key)
  }

  ghost predicate RaceInv(callers: seq<Caller>, r: Race) {
    && |r.pcs| == |callers|
    && (forall i | 0 <= i < |r.pcs| :: r.pcs[i].Inserted? <==> r.writer == Some(i))
    && (r.writer.Some? ==> r.writer.value < |r.pcs|)
    && (r.marker.Some? ==> r.writer.None? && exists w :: WonBy(callers, r, w))
    && (r.marker.None? ==> forall i | 0 <= i < |r.pcs| :: !r.pcs[i].Told? && !r.pcs[i].Duplicate?)
  }

  lemma NextKeeps(callers: seq<Caller>, r: Race, e: Event)
    requires RaceInv(callers, r) && Enabled(r, e)
    ensures RaceInv(callers, Next(callers, r, e))
  {
    var r' := Next(callers, r, e);
    match e
    case Commit(i) => assert WonBy(callers, r', i);
    case _ =>
      if r.marker.Some? {
        var w :| WonBy(callers, r, w);
        assert WonBy(callers, r', w);
      }
  }

  lemma {:induction false} Reachable(callers: seq<Caller>, states: seq<Race>, events: seq<Event>, k: nat)
    requires Execution(callers, states, events) && k < |states|
    ensures RaceInv(callers, states[k])
  {
    if k > 0 {
      Reachable(callers, states, events, k - 1);
      NextKeeps(callers, states[k - 1], events[k - 1]);
    }
  }

  // ONE WINNER. In every state in which any caller has been told anything, one caller has
  // recorded the marker and was told so, and every other caller told anything was told what
  // comparing with that marker says.
  lemma OneWinner(callers: seq<Caller>, states: seq<Race>, events: seq<Event>, k: nat)
    requires Execution(callers, states, events) && k < |states|
    requires exists i :: 0 <= i < |states[k].pcs| && states[k].pcs[i].Told?
    ensures |states[k].pcs| == |callers| && exists w :: WonBy(callers, states[k], w)
  {
    Reachable(callers, states, events, k);
  }

  // One version, and no two callers with one fingerprint or one key.
  ghost predicate Rivals(callers: seq<Caller>) {
    forall i, j | 0 <= i < j < |callers| ::
      && callers[i].pair.version == callers[j].pair.version
      && callers[i].pair.fingerprint != callers[j].pair.fingerprint
      && (callers[i].key.Some? ==> callers[i].key != callers[j].key)
  }

  function ToldThat(pcs: seq<Pc>, a: Answer): set<int> {
    set i | 0 <= i < |pcs| && pcs[i] == Told(a)
  }

  // EXACTLY ONE RECORDED. Of n rivals on an empty store who all get an answer, one is answered
  // RECORDED and n - 1 are answered MISMATCH.
  lemma ExactlyOneRecorded(callers: seq<Caller>, states: seq<Race>, events: seq<Event>, k: nat)
    requires Execution(callers, states, events) && k < |states| && Rivals(callers) && |callers| > 0
    requires forall i | 0 <= i < |states[k].pcs| :: states[k].pcs[i].Told?
    ensures |ToldThat(states[k].pcs, Answered(Recorded))| == 1
    ensures |ToldThat(states[k].pcs, Answered(Mismatch))| == |callers| - 1
  {
    Reachable(callers, states, events, k);
    var r := states[k];
    assert r.pcs[0].Told?;
    var w: nat :| WonBy(callers, r, w);
    forall i | 0 <= i < |callers| && i != w ensures r.pcs[i] == Told(Answered(Mismatch)) {
      RivalMismatches(callers, w, i);
    }
    assert ToldThat(r.pcs, Answered(Recorded)) == {w};
    UptoCount(|callers|);
    assert ToldThat(r.pcs, Answered(Mismatch)) == Upto(|callers|) - {w};
  }

  lemma RivalMismatches(callers: seq<Caller>, w: nat, i: nat)
    requires Rivals(callers) && w < |callers| && i < |callers| && i != w
    ensures ReplayedOrCompared(Marker(callers[w].pair, callers[w].key), callers[i].pair, callers[i].key) == Answered(Mismatch)
  {
    var a, b := if i < w then i else w, if i < w then w else i;
    assert callers[a].pair.fingerprint != callers[b].pair.fingerprint;
  }

  // ------------------------------------------------------------------------- every race ends

  function Left(pc: Pc): nat {
    if pc.Start? then 2 else if pc.Inserted? || pc.Duplicate? then 1 else 0
  }

  function AllLeft(pcs: seq<Pc>): nat {
    if pcs == [] then 0 else AllLeft(pcs[..|pcs| - 1]) + Left(pcs[|pcs| - 1])
  }

  lemma {:induction false} LessLeft(pcs: seq<Pc>, i: nat, pc: Pc)
    requires i < |pcs| && Left(pc) < Left(pcs[i])
    ensures AllLeft(pcs[i := pc]) < AllLeft(pcs)
  {
    var n := |pcs| - 1;
    if i == n {
      assert pcs[i := pc][..n] == pcs[..n];
    } else {
      LessLeft(pcs[..n], i, pc);
      assert pcs[i := pc][..n] == pcs[..n][i := pc];
    }
  }

  // NO STANDSTILL: while any caller is neither answered nor failed, some caller's next statement
  // can run, and it leaves less to do.
  lemma SomeCallerAdvances(callers: seq<Caller>, r: Race, i: nat)
    requires RaceInv(callers, r) && i < |r.pcs| && Left(r.pcs[i]) > 0
    ensures exists e: Event :: !e.Abort? && Enabled(r, e) && AllLeft(Next(callers, r, e).pcs) < AllLeft(r.pcs)
  {
    if r.writer.Some? {
      var w := r.writer.value;
      LessLeft(r.pcs, w, Told(Answered(Recorded)));
      assert Enabled(r, Commit(w));
    } else if r.pcs[i].Start? {
      LessLeft(r.pcs, i, if r.marker.None? then Inserted else Duplicate);
      assert Enabled(r, Insert(i));
    } else {
      LessLeft(r.pcs, i, Told(ReplayedOrCompared(r.marker.value, callers[i].pair, callers[i].key)));
      assert Enabled(r, Reread(i));
    }
  }
}
