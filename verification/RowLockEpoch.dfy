/**
The theorems of serial runs carried over to every interleaving by the refinement, with the
password read and the lone revocation events of the machine.
*/
module RowLockEpoch {
  import opened Wrappers
  import opened Accounts
  import opened AccountRuns
  import opened AccountContracts
  import opened RowLocks
  import opened RowLockInvariant
  import opened RowLockRefinement

  // At log position `r` a password read answered that `u` was at `epoch`.
  ghost predicate ReadEpoch(log: seq<Entry>, r: nat, u: UserId, epoch: nat)
    requires r < |log|
  {
    log[r].call.GetPasswordHash? && log[r].answer.PasswordHash? && log[r].answer.user == u && log[r].answer.epoch == epoch
  }

  // At log position `m` a mint for `u`, checked against `epoch`, succeeded.
  ghost predicate MintedUnder(log: seq<Entry>, m: nat, u: UserId, epoch: nat)
    requires m < |log|
  {
    log[m].call.CreateCredential? && log[m].call.user == u && log[m].call.expected == Some(epoch) && log[m].answer.Minted?
  }

  lemma EpochWasRead(history: seq<Tables>, log: seq<Entry>, db: Tables, r: nat, u: UserId, epoch: nat)
    requires Serial(history, log, db) && r < |log| && ReadEpoch(log, r, u, epoch)
    ensures u in history[r].users && history[r].users[u].epoch == epoch
  {
    SerialAt(history, log, db, r);
  }

  // NO LOGIN OUTLIVES A REVOCATION, interleaved. In every reachable state of every interleaving:
  // if a password read was made, and after it a revocation of the person took effect, then a
  // mint checked against the epoch that was read took effect before the revocation, and its
  // credential is revoked.
  lemma NoInterleavedLoginOutlivesRevocation(states: seq<Sys>, events: seq<Event>, n: nat, r: nat, i: nat, m: nat, u: UserId, epoch: nat)
    requires GuardedExecution(states, events) && n < |states| && |states[n].history| == |states[n].log| + 1
    requires r < i < |states[n].log| && r < m < |states[n].log|
    requires ReadEpoch(states[n].log, r, u, epoch)
    requires RevokesAll(states[n].history[i], states[n].log[i].call, u)
    requires MintedUnder(states[n].log, m, u, epoch)
    ensures m < i
    ensures var c := states[n].log[m].call.credential;
            c in states[n].db.credentials && states[n].db.credentials[c].revoked
  {
    var sys := states[n];
    Reachable(states, events, n);
    SerialIsRun(sys.history, sys.log, sys.db);
    EpochWasRead(sys.history, sys.log, sys.db, r, u, epoch);
    SerialAt(sys.history, sys.log, sys.db, m);
    NoLoginOutlivesRevocation(sys.history, Calls(sys.log), r, i, m, |sys.log|, u);
  }

  // LIVE CREDENTIALS POSTDATE THE REVOCATION, interleaved: a credential live in the committed
  // tables was minted after every revocation of its owner, at an epoch that revocation produced
  // or a later one.
  lemma InterleavedCredentialsPostdateRevocation(states: seq<Sys>, events: seq<Event>, n: nat, i: nat, u: UserId, x: CredentialId)
    returns (m: nat)
    requires GuardedExecution(states, events) && n < |states| && |states[n].history| == |states[n].log| + 1
    requires i < |states[n].log| && RevokesAll(states[n].history[i], states[n].log[i].call, u)
    requires x in states[n].db.credentials && states[n].db.credentials[x].owner == u && !states[n].db.credentials[x].revoked
    ensures i < m < |states[n].log| && states[n].log[m].call.CreateCredential? && states[n].log[m].call.credential == x
    ensures u in states[n].history[i].users && u in states[n].history[m].users
    ensures states[n].history[m].users[u].epoch > states[n].history[i].users[u].epoch
  {
    var sys := states[n];
    Reachable(states, events, n);
    SerialIsRun(sys.history, sys.log, sys.db);
    m := LiveCredentialsPostdateRevocation(sys.history, Calls(sys.log), i, |sys.log|, u, x);
  }

  // WITHDRAWN FOR EVER, interleaved: once RevokeCredential was answered Done, the committed row
  // is its holder's and revoked, whatever was in flight beside it.
  lemma InterleavedWithdrawalHolds(states: seq<Sys>, events: seq<Event>, n: nat, i: nat, x: CredentialId, u: UserId)
    requires GuardedExecution(states, events) && n < |states| && i < |states[n].log|
    requires states[n].log[i].call == RevokeCredential(x, Some(u)) && states[n].log[i].answer == Done
    ensures x in states[n].db.credentials && states[n].db.credentials[x].owner == u && states[n].db.credentials[x].revoked
  {
    var sys := states[n];
    Reachable(states, events, n);
    SerialIsRun(sys.history, sys.log, sys.db);
    SerialAt(sys.history, sys.log, sys.db, i);
    WithdrawnForEver(sys.history, Calls(sys.log), i, |sys.log|, x, u);
  }

  // A KEY NAMES ONE SECRET, interleaved: after a delivery under the key was answered REDEEMED, one
  // of another secret that is logged later is refused.
  lemma InterleavedKeyNamesOneSecret(states: seq<Sys>, events: seq<Event>, n: nat, i: nat, j: nat, key: Key)
    requires GuardedExecution(states, events) && n < |states| && |states[n].history| == |states[n].log| + 1
    requires i < j < |states[n].log| && states[n].history[i + 1] != states[n].history[i]
    requires states[n].log[i].call.Redeem? && states[n].log[i].call.key == Some(key)
    requires states[n].log[j].call.Redeem? && states[n].log[j].call.key == Some(key)
    requires states[n].log[j].call.secret != states[n].log[i].call.secret
    ensures states[n].log[j].answer == Failed(InvalidArgument) && states[n].history[j + 1] == states[n].history[j]
  {
    var sys := states[n];
    Reachable(states, events, n);
    SerialIsRun(sys.history, sys.log, sys.db);
    SerialAt(sys.history, sys.log, sys.db, j);
    KeyNamesOneSecret(sys.history, Calls(sys.log), i, j, key);
  }
}
