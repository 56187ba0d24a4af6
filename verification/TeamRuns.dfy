/**
Whole runs of SyncTeams, the bootstrap CreateUser and the minting CreateUser: a sync
converges, administrators are never locked out, and the bootstrap works at most once.
*/
module TeamRuns {
  import opened Wrappers
  import opened Identifiers
  import opened DeclaredTeams

  // ----------------------------------------------------------------------- convergence

  lemma SettledTeams(teams: map<TeamId, Team>, ids: set<TeamId>)
    ensures var teams' := TeamsAfter(teams, ids);
            && TeamsAfter(teams', ids) == teams'
            && Inserted(teams', ids) == {} && Reactivated(teams', ids) == {} && Archived(teams', ids) == {}
  {
  }

  lemma SettledMembers(members: set<Member>, ids: set<TeamId>, wanted: set<Member>)
    requires forall m <- wanted :: m.team in ids
    ensures var members' := MembersAfter(members, ids, wanted);
            && MembersAfter(members', ids, wanted) == members'
            && Removed(members', ids, wanted) == {} && Added(members', wanted) == {}
  {
  }

  lemma WantedDeclared(ds: seq<Declared>, users: map<UserId, Person>)
    ensures forall m <- Wanted(ds, users) :: m.team in Ids(ds)
  {
  }

  // A report that says nothing was changed.
  ghost predicate Quiet(r: Report) {
    r.inserted == 0 && r.reactivated == 0 && r.archived == 0 && r.added == 0 && r.removed == 0 && r.changed == {}
  }

  lemma SettledReport(org: Org, ds: seq<Declared>)
    ensures var org' := Synced(org, ds);
            Synced(org', ds) == org' && Quiet(ReportOf(org', ds))
  {
    var org', ids, wanted := Synced(org, ds), Ids(ds), Wanted(ds, org.users);
    WantedDeclared(ds, org.users);
    SettledTeams(org.teams, ids);
    SettledMembers(org.members, ids, wanted);
    assert MembersOf(org'.members, {}) + MembersOf(wanted, {}) + {} + {} == {};
  }

  lemma SettledIsAccepted(org: Org, ds: seq<Declared>)
    requires !LocksOut(org, ds)
    ensures !LocksOut(Synced(org, ds), ds) && !NameClash(Synced(org, ds).teams, ds)
  {
    PredictedAdministrators(org, ds);
    forall i | 0 <= i < |ds| ensures ds[i].id in Synced(org, ds).teams { assert ds[i].id in Ids(ds); }
  }

  // CONVERGENCE. Repeating an applied declaration is applied too, leaves every table as it
  // is, and reports zero.
  lemma SyncConverges(org: Org, ds: seq<Declared>)
    requires ServeSync(org, ds).report.Some?
    ensures var again := ServeSync(ServeSync(org, ds).org, ds);
            again.report.Some? && again.org == ServeSync(org, ds).org && Quiet(again.report.value)
  {
    SettledReport(org, ds);
    SettledIsAccepted(org, ds);
  }

  // ------------------------------------------------------------------ the other calls

  datatype Reply = Reply(org: Org, refusal: Option<Status>)

  predicate IndexTaken(users: map<UserId, Person>, index: BlindIndex) {
    exists u <- users :: users[u].index == index
  }

  // The bootstrap CreateUser: a declared administrator creates themself while nobody administers.
  function ServeBootstrap(org: Org, id: UserId, index: BlindIndex): Reply {
    if !CanonicalUserId(id) then Reply(org, Some(InvalidArgument))
    else if !LiveTeam(org.teams, ADMINISTRATORS) then Reply(org, Some(PermissionDenied))
    else if LiveAdministrators(org) != {} then Reply(org, Some(PermissionDenied))
    else if id in org.users then Reply(org, Some(AlreadyExists))
    else if id !in org.pending then Reply(org, Some(PermissionDenied))
    else if IndexTaken(org.users, index) then Reply(org, Some(AlreadyExists))
    else Reply(Org(org.users[id := Person(true, false, index)], org.teams,
                   org.members + {Member(ADMINISTRATORS, id)}, {}), None)
  }

  function ServeMint(org: Org, id: UserId, index: BlindIndex, admin: bool): Reply {
    if id in org.users || IndexTaken(org.users, index) then Reply(org, Some(AlreadyExists))
    else Reply(org.(users := org.users[id := Person(true, admin, index)]), None)
  }

  datatype Call =
    | Sync(ds: seq<Declared>)
    | Bootstrap(user: UserId, index: BlindIndex)
    | Mint(user: UserId, index: BlindIndex, admin: bool)

  function Serve(org: Org, c: Call): Org {
    match c
    case Sync(ds) => ServeSync(org, ds).org
    case Bootstrap(u, index) => ServeBootstrap(org, u, index).org
    case Mint(u, index, admin) => ServeMint(org, u, index, admin).org
  }

  ghost predicate WellFormed(c: Call) {
    c.Sync? ==> Validated(c.ds)
  }

  ghost predicate Run(states: seq<Org>, calls: seq<Call>) {
    && |states| == |calls| + 1 && OrgValid(states[0])
    && forall i | 0 <= i < |calls| :: WellFormed(calls[i]) && states[i + 1] == Serve(states[i], calls[i])
  }

  predicate Bootstrapped(org: Org, c: Call) {
    c.Bootstrap? && ServeBootstrap(org, c.user, c.index).refusal.None?
  }

  // -------------------------------------------------------------------- what a call keeps

  lemma SyncKeepsNames(org: Org, ds: seq<Declared>)
    requires OrgValid(org) && Validated(ds) && !NameClash(org.teams, ds)
    ensures UniqueNames(Synced(org, ds).teams)
  {
    var teams' := Synced(org, ds).teams;
    forall i | 0 <= i < |ds| ensures NameOf(ds[i].id) == ds[i].name { NameOfTeamId(ds[i].name); }
    forall a <- teams', b <- teams' | teams'[a].name == teams'[b].name ensures a == b {
      if a !in org.teams && b !in org.teams {
        var i :| 0 <= i < |ds| && ds[i].id == a;
        var j :| 0 <= j < |ds| && ds[j].id == b;
      }
    }
  }

  lemma SyncKeepsMembers(org: Org, ds: seq<Declared>)
    requires MembersRefer(org)
    ensures MembersRefer(Synced(org, ds))
  {
    WantedDeclared(ds, org.users);
  }

  lemma SyncKeepsPending(org: Org, ds: seq<Declared>)
    requires PendingAfter(ds, org.users) != {}
    ensures ADMINISTRATORS in Synced(org, ds).teams && LiveAdministrators(Synced(org, ds)) == {}
  {
    PredictedAdministrators(org, ds);
    var u :| u in PendingAfter(ds, org.users);
    assert Member(ADMINISTRATORS, u) in Roll(ds);
    assert ADMINISTRATORS in Ids(ds);
  }

  lemma SyncKeeps(org: Org, ds: seq<Declared>)
    requires OrgValid(org) && Validated(ds)
    ensures OrgValid(ServeSync(org, ds).org)
    ensures LiveAdministrators(org) != {} ==> LiveAdministrators(ServeSync(org, ds).org) != {}
  {
    if ServeSync(org, ds).report.Some? {
      SyncKeepsNames(org, ds);
      SyncKeepsMembers(org, ds);
      PredictedAdministrators(org, ds);
      if PendingAfter(ds, org.users) != {} { SyncKeepsPending(org, ds); }
    }
  }

  lemma BootstrapKeeps(org: Org, u: UserId, index: BlindIndex)
    requires OrgValid(org)
    ensures OrgValid(ServeBootstrap(org, u, index).org)
    ensures LiveAdministrators(org) != {} ==> ServeBootstrap(org, u, index).org == org
    ensures ServeBootstrap(org, u, index).refusal.None? ==>
              LiveAdministrators(org) == {} && LiveAdministrators(ServeBootstrap(org, u, index).org) == {u}
  {
    var org' := ServeBootstrap(org, u, index).org;
    if org' != org {
      assert forall m <- org.members :: m.team == ADMINISTRATORS && LivePerson(org.users, m.user) ==> m.user in LiveAdministrators(org);
      assert Member(ADMINISTRATORS, u) in org'.members;
      assert u in LiveAdministrators(org');
    }
  }

  lemma MintKeeps(org: Org, u: UserId, index: BlindIndex, admin: bool)
    requires OrgValid(org)
    ensures OrgValid(ServeMint(org, u, index, admin).org)
    ensures LiveAdministrators(ServeMint(org, u, index, admin).org) == LiveAdministrators(org)
  {
  }

  lemma ServeKeeps(org: Org, c: Call)
    requires OrgValid(org) && WellFormed(c)
    ensures OrgValid(Serve(org, c))
    ensures LiveAdministrators(org) != {} ==> LiveAdministrators(Serve(org, c)) != {}
    ensures Bootstrapped(org, c) ==> LiveAdministrators(org) == {} && LiveAdministrators(Serve(org, c)) == {c.user}
  {
    match c
    case Sync(ds) => SyncKeeps(org, ds);
    case Bootstrap(u, index) => BootstrapKeeps(org, u, index);
    case Mint(u, index, admin) => MintKeeps(org, u, index, admin);
  }

  // -------------------------------------------------------------------------- whole runs

  lemma {:induction false} RunKeeps(states: seq<Org>, calls: seq<Call>, i: nat)
    requires Run(states, calls) && i < |states|
    ensures OrgValid(states[i])
  {
    if i > 0 {
      RunKeeps(states, calls, i - 1);
      ServeKeeps(states[i - 1], calls[i - 1]);
    }
  }

  // NO LOCKOUT. Once `administrators` has a live member it has one in every later state.
  lemma {:induction false} NeverLockedOut(states: seq<Org>, calls: seq<Call>, i: nat, j: nat)
    requires Run(states, calls) && i <= j < |states| && LiveAdministrators(states[i]) != {}
    ensures LiveAdministrators(states[j]) != {}
    decreases j
  {
    if i < j {
      NeverLockedOut(states, calls, i, j - 1);
      RunKeeps(states, calls, j - 1);
      ServeKeeps(states[j - 1], calls[j - 1]);
    }
  }

  // ONE BOOTSTRAP. In any run the bootstrap CreateUser succeeds at most once.
  lemma BootstrapAtMostOnce(states: seq<Org>, calls: seq<Call>, i: nat, j: nat)
    requires Run(states, calls) && i < |calls| && j < |calls|
    requires Bootstrapped(states[i], calls[i]) && Bootstrapped(states[j], calls[j])
    ensures i == j
  {
    if i != j {
      var a, b := if i < j then i else j, if i < j then j else i;
      RunKeeps(states, calls, a);
      ServeKeeps(states[a], calls[a]);
      NeverLockedOut(states, calls, a + 1, b);
    }
  }

  // THE PENDING SET EMPTIES WITH THE FIRST ADMINISTRATOR: in every state of a run it is
  // non-empty only while `administrators` exists and has no live member.
  lemma PendingOnlyWhileUnadministered(states: seq<Org>, calls: seq<Call>, i: nat)
    requires Run(states, calls) && i < |states| && states[i].pending != {}
    ensures LiveAdministrators(states[i]) == {} && ADMINISTRATORS in states[i].teams
  {
    RunKeeps(states, calls, i);
  }

  // A bootstrap that is refused after its request is well formed is refused for a reason the
  // tables show, and it succeeds exactly when none of them holds.
  lemma BootstrapExactly(org: Org, u: UserId, index: BlindIndex)
    requires OrgValid(org)
    ensures ServeBootstrap(org, u, index).refusal.None? <==>
              CanonicalUserId(u) && u in org.pending && LiveTeam(org.teams, ADMINISTRATORS)
              && u !in org.users && !IndexTaken(org.users, index)
    ensures ServeBootstrap(org, u, index).refusal.Some? ==> ServeBootstrap(org, u, index).org == org
  {
  }
}
