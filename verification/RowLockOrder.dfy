/**
The serial order of the log is the order of the run: the log only grows, a call is in it
once, and a call answered before another began stands before it.
*/
module RowLockOrder {
  import opened Wrappers
  import opened Accounts
  import opened RowLocks
  import opened RowLockInvariant
  import opened RowLockRefinement

  ghost predicate Extends<T>(a: seq<T>, b: seq<T>) {
    |a| <= |b| && a == b[..|a|]
  }

  lemma ExtendsOn<T>(a: seq<T>, b: seq<T>, c: seq<T>)
    requires Extends(a, b) && Extends(b, c)
    ensures Extends(a, c)
  {
    assert a == c[..|b|][..|a|] == c[..|a|];
  }

  ghost predicate LogLater(sys: Sys, sys': Sys) {
    Extends(sys.log, sys'.log) && Extends(sys.history, sys'.history) && sys.next <= sys'.next
  }

  lemma LogStep(sys: Sys, e: Event)
    requires Enabled(sys, e)
    ensures LogLater(sys, Next(sys, e))
  {
    var sys' := Next(sys, e);
    assert sys'.log == sys.log || (|sys'.log| == |sys.log| + 1 && sys'.log == sys.log + [sys'.log[|sys.log|]]);
    assert sys'.history == sys.history || (|sys'.history| == |sys.history| + 1 && sys'.history == sys.history + [sys'.history[|sys.history|]]);
  }

  // THE LOG ONLY GROWS, and the serial history with it.
  lemma {:induction false} LogOnlyGrows(states: seq<Sys>, events: seq<Event>, i: nat, j: nat)
    requires Execution(states, events) && i <= j < |states|
    ensures LogLater(states[i], states[j])
    decreases j
  {
    if i < j {
      LogOnlyGrows(states, events, i, j - 1);
      LogStep(states[j - 1], events[j - 1]);
      ExtendsOn(states[i].log, states[j - 1].log, states[j].log);
      ExtendsOn(states[i].history, states[j - 1].history, states[j].history);
    }
  }

  ghost predicate Absent(log: seq<Entry>, t: TxId) {
    forall k | 0 <= k < |log| :: log[k].tx != t
  }

  // Every entry is of a transaction begun, no two of the same, and none of one still unsettled.
  ghost predicate Once(sys: Sys) {
    && (forall k | 0 <= k < |sys.log| :: sys.log[k].tx < sys.next)
    && (forall a, b | 0 <= a < b < |sys.log| :: sys.log[a].tx != sys.log[b].tx)
    && (forall t <- sys.txs :: t < sys.next && (!sys.txs[t].pc.Finished? && !sys.txs[t].pc.Naming? ==> Absent(sys.log, t)))
  }

  lemma OnceMore(log: seq<Entry>, e: Entry)
    requires Absent(log, e.tx) && forall a, b | 0 <= a < b < |log| :: log[a].tx != log[b].tx
    ensures forall a, b | 0 <= a < b < |log| + 1 :: (log + [e])[a].tx != (log + [e])[b].tx
    ensures forall t | t != e.tx && Absent(log, t) :: Absent(log + [e], t)
  {
  }

  lemma ExecOnce(sys: Sys, t: TxId)
    requires Once(sys) && Enabled(sys, Exec(t))
    ensures Once(Next(sys, Exec(t)))
  {
    var tx, tx' := sys.txs[t], ExecTx(sys.db, sys.clock, sys.txs[t]);
    if Settles(tx, tx') { OnceMore(sys.log, Entry(t, tx'.call, tx'.promised)); }
  }

  lemma NextOnce(sys: Sys, e: Event)
    requires Once(sys) && Enabled(sys, e)
    ensures Once(Next(sys, e))
  {
    match e
    case Exec(t) => ExecOnce(sys, t);
    case Commit(t) => OnceMoreUnless(sys, t);
    case Single(c) => OnceMore(sys.log, Entry(sys.next, c, Serve(sys.db, c).answer));
    case _ =>
  }

  lemma OnceMoreUnless(sys: Sys, t: TxId)
    requires Once(sys) && Enabled(sys, Commit(t))
    ensures Once(Next(sys, Commit(t)))
  {
    if !sys.txs[t].pc.Finished? { OnceMore(sys.log, Entry(t, sys.txs[t].call, sys.txs[t].answer)); }
  }

  lemma {:induction false} ReachableOnce(states: seq<Sys>, events: seq<Event>, i: nat)
    requires Execution(states, events) && i < |states|
    ensures Once(states[i])
  {
    if i > 0 {
      ReachableOnce(states, events, i - 1);
      NextOnce(states[i - 1], events[i - 1]);
    }
  }

  // LOGGED AT MOST ONCE, in every execution.
  lemma LoggedAtMostOnce(states: seq<Sys>, events: seq<Event>, i: nat, a: nat, b: nat)
    requires Execution(states, events) && i < |states| && a < |states[i].log| && b < |states[i].log|
    requires states[i].log[a].tx == states[i].log[b].tx
    ensures a == b
  {
    ReachableOnce(states, events, i);
  }

  lemma NotYetLogged(states: seq<Sys>, events: seq<Event>, i: nat, j: nat, b: nat)
    requires Execution(states, events) && i <= j < |states| && b < |states[j].log| && states[j].log[b].tx >= states[i].next
    ensures |states[i].log| <= b
  {
    LogOnlyGrows(states, events, i, j);
    ReachableOnce(states, events, i);
    assert forall m | 0 <= m < |states[i].log| :: states[j].log[m] == states[i].log[m];
  }

  lemma AlreadyLogged(states: seq<Sys>, events: seq<Event>, i: nat, j: nat, k: nat, a: nat)
    requires Execution(states, events) && i <= j < |states| && k < |states[i].log| && a < |states[j].log|
    requires states[j].log[a].tx == states[i].log[k].tx
    ensures a == k
  {
    LogOnlyGrows(states, events, i, j);
    assert states[j].log[k] == states[i].log[k];
    LoggedAtMostOnce(states, events, j, a, k);
  }

  // REAL-TIME ORDER. A call answered by state `i` stands in the log before every call that
  // began after state `i`: the interleaving is strictly serializable.
  lemma RealTimeOrder(states: seq<Sys>, events: seq<Event>, i: nat, j: nat, t: TxId, a: nat, b: nat)
    requires GuardedExecution(states, events) && i <= j < |states| && t in states[i].delivered
    requires a < |states[j].log| && b < |states[j].log|
    requires states[j].log[a] == states[i].delivered[t] && states[j].log[b].tx >= states[i].next
    ensures a < b
  {
    Reachable(states, events, i);
    var k :| 0 <= k < |states[i].log| && states[i].log[k] == states[i].delivered[t];
    AlreadyLogged(states, events, i, j, k, a);
    NotYetLogged(states, events, i, j, b);
  }
}
