/**
The RPCs as the service runs them: statement by statement on tables updated in place,
each transaction proved to leave the tables, and give the answer, of the one transition
it is specified by.
*/
module AccountStores {
  import opened Wrappers
  import opened Accounts
  import opened AccountRuns

  // A void reads the enrolment table alone.
  lemma SameEnrolmentsVoid(t: Tables, t': Tables, u: UserId)
    requires t'.enrolments == t.enrolments
    ensures VoidedRows(t', u) == VoidedRows(t, u)
  {
  }

  lemma RevokeAllKeeps(t: Tables, u: UserId)
    requires Valid(t)
    ensures Valid(ServeRevokeAll(t, u).tables)
  {
    if u in t.users { RevocationKeeps(t, u); }
  }

  lemma RedeemKeeps(t: Tables, key: Option<Key>, s: Secret, h: Hash, now: nat)
    requires Valid(t)
    ensures Valid(ServeRedeem(t, key, s, h, now).tables)
  {
    if !Recorded(t, key) && Redeemable(t, s, now) { RedemptionKeeps(t, key, s, h); }
  }

  class AccountStore {
    var users: map<UserId, User>
    var passwords: map<UserId, Hash>
    var enrolments: map<Secret, Enrolment>
    var credentials: map<CredentialId, Credential>
    var redemptions: map<Key, Redemption>

    function Snapshot(): Tables
      reads this
    {
      Tables(users, passwords, enrolments, credentials, redemptions)
    }

    constructor ()
      ensures Valid(Snapshot()) && users == map[]
    {
      users, passwords, enrolments, credentials, redemptions := map[], map[], map[], map[], map[];
    }

    // ------------------------------------------------------------------ statements

    // UPDATE iam_user SET credential_epoch = credential_epoch + 1; the rows it changed.
    method BumpEpoch(u: UserId) returns (rows: nat)
      modifies this`users
      ensures u in old(users) ==> rows == 1 && Snapshot() == Bump(old(Snapshot()), u)
      ensures u !in old(users) ==> rows == 0 && users == old(users)
    {
      if u in users {
        users := users[u := users[u].(epoch := users[u].epoch + 1)];
        return 1;
      }
      return 0;
    }

    // The same, for a person who is not deleted.
    method BumpLive(u: UserId) returns (rows: nat)
      modifies this`users
      ensures LiveUser(old(Snapshot()), u) ==> rows == 1 && Snapshot() == Bump(old(Snapshot()), u)
      ensures !LiveUser(old(Snapshot()), u) ==> rows == 0 && users == old(users)
    {
      if u in users && users[u].live {
        rows := BumpEpoch(u);
      } else {
        rows := 0;
      }
    }

    // The check and the spend in one statement.
    method SpendEnrolment(s: Secret, now: nat) returns (rows: nat)
      modifies this`enrolments
      ensures Redeemable(old(Snapshot()), s, now) ==> rows == 1 && Snapshot() == Spend(old(Snapshot()), s)
      ensures !Redeemable(old(Snapshot()), s, now) ==> rows == 0 && enrolments == old(enrolments)
    {
      rows := 0;
      if s in enrolments {
        var e := enrolments[s];
        if !e.spent && e.expires > now && !e.voided && e.owner in users && users[e.owner].live {
          enrolments, rows := enrolments[s := e.(spent := true)], 1;
        }
      }
    }

    // Tombstones every live credential of a person; none when there is no such person.
    method RevokeCredentials(u: UserId) returns (rows: Option<nat>)
      modifies this`credentials
      ensures u in users ==> Snapshot() == RevokeRows(old(Snapshot()), u) && rows == Some(|RevokedRows(old(Snapshot()), u)|)
      ensures u !in users ==> credentials == old(credentials) && rows == None
    {
      if u !in users { return None; }
      var revoked := map c | c in credentials && credentials[c].owner == u && !credentials[c].revoked
                       :: credentials[c].(revoked := true);
      assert revoked == RevokedRows(Snapshot(), u);
      credentials := credentials + revoked;
      return Some(|revoked|);
    }

    // Voids every enrolment of a person that is neither spent nor voided.
    method VoidEnrolments(u: UserId) returns (n: nat)
      modifies this`enrolments
      ensures Snapshot() == VoidRows(old(Snapshot()), u)
      ensures n == Saturated(|VoidedRows(old(Snapshot()), u)|)
    {
      var voided := map s | s in enrolments && enrolments[s].owner == u
                            && !enrolments[s].spent && !enrolments[s].voided
                      :: enrolments[s].(voided := true);
      assert voided == VoidedRows(Snapshot(), u);
      enrolments := enrolments + voided;
      return if |voided| > U32_MAX then U32_MAX else |voided|;
    }

    // The ledger read: what this key already redeemed, if anything.
    method Replayed(key: Key, presented: Secret) returns (prior: Option<Answer>)
      ensures prior == if key in redemptions then Some(Replay(Snapshot(), key, presented)) else None
    {
      if key !in redemptions { return None; }
      var r := redemptions[key];
      if r.secret != presented { return Some(Failed(InvalidArgument)); }
      if r.owner !in users || r.secret !in enrolments { return Some(Failed(Unavailable)); }
      return Some(Redeemed(r.owner, r.enrolment, users[r.owner].sealed, enrolments[r.secret].revoking, r.epoch, 0));
    }

    // Why the spend of `s` matched nothing, read afterwards.
    method Refusal(s: Secret) returns (outcome: RedeemOutcome)
      ensures outcome == Unredeemable(Snapshot(), s)
    {
      if s !in enrolments || enrolments[s].owner !in users || !users[enrolments[s].owner].live {
        return NoSuchEnrolment;
      }
      match (enrolments[s].spent, enrolments[s].voided)
      case (true, _) => return Spent;
      case (false, true) => return Voided;
      case (false, false) => return Expired;
    }

    // ---------------------------------------------------------------- transactions

    // The statements of a redemption that spent, up to the password write.
    method WithdrawOld(s: Secret, u: UserId, revoking: bool) returns (epoch: nat, voided: nat)
      requires u in users
      modifies this
      ensures var bumped := Bump(old(Snapshot()), u);
              && Snapshot() == (if revoking then VoidRows(RevokeRows(bumped, u), u) else bumped)
              && voided == (if revoking then Saturated(|VoidedRows(RevokeRows(bumped, u), u)|) else 0)
      ensures epoch == old(users)[u].epoch + 1 && u in users
    {
      var _ := BumpEpoch(u);
      epoch, voided := users[u].epoch, 0;
      if revoking {
        var _ := RevokeCredentials(u);
        voided := VoidEnrolments(u);
      }
    }

    // The end of a redemption that spent.
    method FinishRedeemed(key: Option<Key>, s: Secret, h: Hash, ghost before: Tables) returns (a: Answer)
      requires s in before.enrolments && before.enrolments[s].owner in before.users
      requires Snapshot() == Spend(before, s)
      modifies this
      ensures Snapshot() == RedeemedTables(before, key, s, h) && a == RedeemedAnswer(before, s)
    {
      var e := enrolments[s];
      var sealed := users[e.owner].sealed;
      var epoch, voided := WithdrawOld(s, e.owner, e.revoking);
      SameEnrolmentsVoid(Spend(before, s), RevokeRows(Bump(Spend(before, s), e.owner), e.owner), e.owner);
      passwords := passwords[e.owner := h];
      if key.Some? {
        redemptions := redemptions[key.value := Redemption(s, e.id, e.owner, epoch)];
      }
      return Redeemed(e.owner, e.id, sealed, e.revoking, epoch, voided);
    }

    // The end of a redemption that did not: the ledger again, then the reason.
    method FinishUnspent(key: Option<Key>, s: Secret) returns (a: Answer)
      ensures a == if Recorded(Snapshot(), key) then Replay(Snapshot(), key.value, s)
                   else Unredeemed(Unredeemable(Snapshot(), s))
    {
      if key.Some? {
        var prior := Replayed(key.value, s);
        if prior.Some? { return prior.value; }
      }
      var outcome := Refusal(s);
      return Unredeemed(outcome);
    }

    method Redeem(key: Option<Key>, s: Secret, h: Hash, now: nat) returns (a: Answer)
      requires Valid(Snapshot())
      modifies this
      ensures Reply(Snapshot(), a) == ServeRedeem(old(Snapshot()), key, s, h, now)
      ensures Valid(Snapshot())
    {
      RedeemKeeps(Snapshot(), key, s, h, now);
      if key.Some? {
        var prior := Replayed(key.value, s);
        if prior.Some? { return prior.value; }
      }
      if h.length > MAX_ARGON2ID_HASH { return Failed(InvalidArgument); }
      var spent := SpendEnrolment(s, now);
      if spent == 0 {
        a := FinishUnspent(key, s);
      } else {
        a := FinishRedeemed(key, s, h, old(Snapshot()));
      }
    }

    // Tombstones, bumps and voids, in that order.
    method Withdraw(u: UserId) returns (a: Answer)
      modifies this
      ensures Snapshot() == ServeRevokeAll(old(Snapshot()), u).tables && a == ServeRevokeAll(old(Snapshot()), u).answer
    {
      var rows := RevokeCredentials(u);
      if rows.None? { return Failed(NotFound); }
      var _ := BumpEpoch(u);
      SameEnrolmentsVoid(old(Snapshot()), Snapshot(), u);
      var voided := VoidEnrolments(u);
      return Revocation(Saturated(rows.value), voided);
    }

    method RevokeAll(u: UserId) returns (a: Answer)
      requires Valid(Snapshot())
      modifies this
      ensures Reply(Snapshot(), a) == ServeRevokeAll(old(Snapshot()), u)
      ensures Valid(Snapshot())
    {
      RevokeAllKeeps(Snapshot(), u);
      a := Withdraw(u);
    }

    method SetPassword(u: UserId, h: Hash) returns (a: Answer)
      requires Valid(Snapshot())
      modifies this
      ensures Reply(Snapshot(), a) == ServeSetPassword(old(Snapshot()), u, h)
      ensures Valid(Snapshot())
    {
      PasswordKeeps(Snapshot(), u, h);
      if h.length > MAX_ARGON2ID_HASH { return Failed(InvalidArgument); }
      var bumped := BumpLive(u);
      if bumped == 0 { return Failed(NotFound); }
      passwords := passwords[u := h];
      return Done;
    }

    method CreateEnrolment(id: EnrolmentId, u: UserId, s: Secret, expires: Option<nat>, demand: bool, revoking: bool)
      returns (a: Answer)
      requires Valid(Snapshot())
      modifies this
      ensures Reply(Snapshot(), a) == ServeCreateEnrolment(old(Snapshot()), id, u, s, expires, demand, revoking)
      ensures Valid(Snapshot())
    {
      EnrolmentKeeps(Snapshot(), id, u, s, expires, demand, revoking);
      if expires.None? || (demand && revoking) { return Failed(InvalidArgument); }
      var selected := u in users && users[u].live;
      if demand && selected {
        selected := users[u].isAdmin && u !in passwords && forall c <- credentials :: credentials[c].owner != u;
      }
      if !selected {
        if u in users && users[u].live { return Failed(PermissionDenied); }
        return Failed(NotFound);
      }
      if s in enrolments || exists s' <- enrolments :: enrolments[s'].id == id { return Failed(AlreadyExists); }
      enrolments := enrolments[s := Enrolment(id, u, expires.value, revoking, false, false)];
      return Minted(id);
    }

    method CreateCredential(id: CredentialId, u: UserId, token: Token, expected: Option<nat>) returns (a: Answer)
      requires Valid(Snapshot())
      modifies this
      ensures Reply(Snapshot(), a) == ServeCreateCredential(old(Snapshot()), id, u, token, expected)
      ensures Valid(Snapshot())
    {
      CredentialKeeps(Snapshot(), id, u, token, expected);
      var selected := u in users && users[u].live && (expected.Some? ==> users[u].epoch == expected.value);
      if !selected {
        if u in users && users[u].live { return Failed(FailedPrecondition); }
        return Failed(NotFound);
      }
      if id in credentials || exists c <- credentials :: credentials[c].token == token { return Failed(Unavailable); }
      credentials := credentials[id := Credential(u, token, false)];
      return Minted(id);
    }

    // Withdraws one credential of its holder; a second time changes nothing.
    method RevokeCredential(id: CredentialId, holder: Option<UserId>) returns (a: Answer)
      requires Valid(Snapshot())
      modifies this
      ensures Reply(Snapshot(), a) == ServeRevokeCredential(old(Snapshot()), id, holder)
      ensures Valid(Snapshot())
    {
      RevokeCredentialKeeps(Snapshot(), id, holder);
      if holder.None? { return Failed(InvalidArgument); }
      if id !in credentials || credentials[id].owner != holder.value { return Failed(NotFound); }
      if !credentials[id].revoked {
        credentials := credentials[id := credentials[id].(revoked := true)];
      }
      assert credentials == old(credentials)[id := credentials[id]];
      return Done;
    }

    method GetPasswordHash(index: BlindIndex) returns (a: Answer)
      requires Valid(Snapshot())
      ensures a == ServeGetPasswordHash(Snapshot(), index).answer
    {
      if u :| u in users && users[u].live && u in passwords && users[u].index == index {
        assert Selected(Snapshot(), index, u);
        return PasswordHash(u, passwords[u], users[u].epoch);
      }
      assert forall u :: !Selected(Snapshot(), index, u);
      return NoPassword;
    }
  }
}
