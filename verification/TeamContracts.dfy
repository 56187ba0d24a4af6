/**
A sync and the two user creations told from the tables before and after: when a declaration is
applied, what stands afterwards, and that every number and list of the answer is what changed.
Written on the rows, beside the functions that compute them.
*/
module TeamContracts {
  import opened Wrappers
  import opened Identifiers
  import opened DeclaredTeams
  import opened TeamRuns

  // ------------------------------------------------------------------------- when applied

  // The team all this turns on.
  lemma AdministratorsId()
    ensures ADMINISTRATORS.text == "yadgar:team:administrators"
  {
  }

  // Somebody administers: a live person with a row in the live team.
  ghost predicate Administered(org: Org) {
    ADMINISTRATORS in org.teams && org.teams[ADMINISTRATORS].live
    && exists u :: Member(ADMINISTRATORS, u) in org.members && u in org.users && org.users[u].live
  }

  // The declaration names a live person as administrator.
  ghost predicate DeclaresLive(org: Org, ds: seq<Declared>) {
    exists i, u :: 0 <= i < |ds| && u in ds[i].members && ds[i].id == ADMINISTRATORS && u in org.users && org.users[u].live
  }

  lemma AdministeredMeans(org: Org)
    ensures LiveAdministrators(org) != {} <==> Administered(org)
  {
    if u :| u in LiveAdministrators(org) { assert Member(ADMINISTRATORS, u) in org.members; }
    if Administered(org) {
      var u :| Member(ADMINISTRATORS, u) in org.members && u in org.users && org.users[u].live;
      assert u in LiveAdministrators(org);
    }
  }

  lemma DeclaresLiveMeans(org: Org, ds: seq<Declared>)
    ensures LiveAfter(ds, org.users) != {} <==> DeclaresLive(org, ds)
  {
    if u :| u in LiveAfter(ds, org.users) {
      var m :| m in Roll(ds) && m.team == ADMINISTRATORS && LivePerson(org.users, m.user) && m.user == u;
      var i :| 0 <= i < |ds| && m.user in ds[i].members && ds[i].id == m.team;
      assert u in ds[i].members && ds[i].id == ADMINISTRATORS;
    }
    if i, u :| 0 <= i < |ds| && u in ds[i].members && ds[i].id == ADMINISTRATORS && u in org.users && org.users[u].live {
      assert Member(ADMINISTRATORS, u) in Roll(ds);
      assert u in LiveAfter(ds, org.users);
    }
  }

  // APPLIED EXACTLY when it does not take the last live administrators away and no team it would
  // insert has a name another row holds; refused, nothing changes.
  lemma SyncAppliedExactly(org: Org, ds: seq<Declared>)
    ensures ServeSync(org, ds).report.Some? <==>
              && (Administered(org) ==> DeclaresLive(org, ds))
              && forall i, id | 0 <= i < |ds| && id in org.teams :: ds[i].id in org.teams || org.teams[id].name != ds[i].name
    ensures ServeSync(org, ds).report.None? ==> ServeSync(org, ds).org == org
  {
    AdministeredMeans(org);
    DeclaresLiveMeans(org, ds);
  }

  // --------------------------------------------------------------------- what stands after

  // THE TABLES AFTER AN APPLIED SYNC: users as before; each declared team live, under its name,
  // with exactly its declared members that have a user row; every other team archived under its
  // name with its rows kept; no team lost and none made up.
  lemma SyncedTeams(org: Org, ds: seq<Declared>)
    requires OrgValid(org) && Validated(ds) && ServeSync(org, ds).report.Some?
    ensures var org' := ServeSync(org, ds).org;
            && org'.users == org.users
            && (forall i | 0 <= i < |ds| :: ds[i].id in org'.teams && org'.teams[ds[i].id].live)
            && (forall i | 0 <= i < |ds| && ds[i].id !in org.teams :: org'.teams[ds[i].id].name == ds[i].name)
            && (forall id <- org.teams :: id in org'.teams && org'.teams[id].name == org.teams[id].name)
            && (forall id <- org'.teams :: org'.teams[id].live ==> exists i :: 0 <= i < |ds| && ds[i].id == id)
            && (forall id <- org'.teams :: id in org.teams || exists i :: 0 <= i < |ds| && ds[i].id == id)
  {
    forall i | 0 <= i < |ds| ensures ds[i].id in Ids(ds) && NameOf(ds[i].id) == ds[i].name { NameOfTeamId(ds[i].name); }
  }

  lemma SyncedMembers(org: Org, ds: seq<Declared>, i: nat, u: UserId)
    requires Validated(ds) && ServeSync(org, ds).report.Some? && i < |ds|
    ensures Member(ds[i].id, u) in ServeSync(org, ds).org.members <==> u in ds[i].members && u in org.users
  {
    SyncReachesDeclaration(org, ds, i);
  }

  lemma OtherMembersKept(org: Org, ds: seq<Declared>, m: Member)
    requires ServeSync(org, ds).report.Some? && forall i | 0 <= i < |ds| :: ds[i].id != m.team
    ensures m in ServeSync(org, ds).org.members <==> m in org.members
  {
  }

  // PENDING: the declared administrators without a user row, and only while none is live.
  lemma SyncedPending(org: Org, ds: seq<Declared>, u: UserId)
    requires ServeSync(org, ds).report.Some?
    ensures u in ServeSync(org, ds).org.pending <==>
              && !DeclaresLive(org, ds) && u !in org.users
              && exists i :: 0 <= i < |ds| && ds[i].id == ADMINISTRATORS && u in ds[i].members
  {
    DeclaresLiveMeans(org, ds);
    if u in PendingAfter(ds, org.users) {
      var m :| m in Roll(ds) && m.team == ADMINISTRATORS && m.user == u;
      var i :| 0 <= i < |ds| && m.user in ds[i].members && ds[i].id == m.team;
    }
    if i :| 0 <= i < |ds| && ds[i].id == ADMINISTRATORS && u in ds[i].members {
      assert Member(ADMINISTRATORS, u) in Roll(ds);
    }
  }

  // -------------------------------------------------------------------------- the report

  ghost predicate InLiveTeam(org: Org, id: TeamId, u: UserId) {
    id in org.teams && org.teams[id].live && Member(id, u) in org.members
  }

  // The person is in a live team on one side and not on the other.
  ghost predicate TeamsDiffer(org: Org, org': Org, u: UserId) {
    exists id :: InLiveTeam(org, id, u) != InLiveTeam(org', id, u)
  }

  // The person lost a row of a team that was archived and is live now.
  ghost predicate LostStaleRow(org: Org, org': Org, u: UserId) {
    exists id | id in org.teams && id in org'.teams ::
      !org.teams[id].live && org'.teams[id].live && Member(id, u) in org.members && Member(id, u) !in org'.members
  }

  lemma TeamsDifferMeans(org: Org, org': Org, u: UserId)
    ensures LiveTeams(org, u) != LiveTeams(org', u) <==> TeamsDiffer(org, org', u)
  {
    assert forall id :: id in LiveTeams(org, u) <==> InLiveTeam(org, id, u);
    assert forall id :: id in LiveTeams(org', u) <==> InLiveTeam(org', id, u);
    if LiveTeams(org, u) != LiveTeams(org', u) {
      var id :| !(id in LiveTeams(org, u) <==> id in LiveTeams(org', u));
      assert InLiveTeam(org, id, u) != InLiveTeam(org', id, u);
    }
  }

  lemma StaleRowMeans(org: Org, ds: seq<Declared>, u: UserId)
    ensures StaleRow(org, ds, u) <==> LostStaleRow(org, Synced(org, ds), u)
  {
    var org', ids, wanted := Synced(org, ds), Ids(ds), Wanted(ds, org.users);
    if StaleRow(org, ds, u) {
      var id :| id in Reactivated(org.teams, ids) && Member(id, u) in org.members && Member(id, u) !in wanted;
      assert id in org.teams && id in org'.teams;
    }
    if id :| id in org.teams && id in org'.teams && !org.teams[id].live && org'.teams[id].live
             && Member(id, u) in org.members && Member(id, u) !in org'.members {
      assert id in Reactivated(org.teams, ids);
    }
  }

  // THE REPORTED CHANGES ARE THE CHANGES: a person is in the answer's list if and only if they are
  // in a live team before and not after or after and not before, or lost a stale row of a team
  // that came back.
  lemma ReportedChangesExactly(org: Org, ds: seq<Declared>, u: UserId)
    requires OrgValid(org) && ServeSync(org, ds).report.Some?
    ensures var org' := ServeSync(org, ds).org;
            u in ServeSync(org, ds).report.value.changed <==> TeamsDiffer(org, org', u) || LostStaleRow(org, org', u)
  {
    ChangeReport(org, ds, u);
    TeamsDifferMeans(org, Synced(org, ds), u);
    StaleRowMeans(org, ds, u);
  }

  // The teams with a liveness before and after, where "absent" is neither.
  function Appeared(org: Org, org': Org): set<TeamId> {
    set id | id in org'.teams && id !in org.teams
  }

  function CameBack(org: Org, org': Org): set<TeamId> {
    set id | id in org.teams && id in org'.teams && !org.teams[id].live && org'.teams[id].live
  }

  function WentAway(org: Org, org': Org): set<TeamId> {
    set id | id in org.teams && id in org'.teams && org.teams[id].live && !org'.teams[id].live
  }

  lemma ReportedTeams(org: Org, ds: seq<Declared>)
    requires ServeSync(org, ds).report.Some?
    ensures var r, org' := ServeSync(org, ds).report.value, ServeSync(org, ds).org;
            r.inserted == |Appeared(org, org')| && r.reactivated == |CameBack(org, org')| && r.archived == |WentAway(org, org')|
  {
    var ids, org' := Ids(ds), Synced(org, ds);
    assert Appeared(org, org') == Inserted(org.teams, ids);
    assert CameBack(org, org') == Reactivated(org.teams, ids);
    assert WentAway(org, org') == Archived(org.teams, ids);
  }

  // The member rows on one side and not on the other.
  function Gained(org: Org, org': Org): set<Member> {
    set m | m in org'.members && m !in org.members
  }

  function Lost(org: Org, org': Org): set<Member> {
    set m | m in org.members && m !in org'.members
  }

  lemma MembersMoved(org: Org, ds: seq<Declared>)
    ensures var org', ids, wanted := Synced(org, ds), Ids(ds), Wanted(ds, org.users);
            Gained(org, org') == Added(org.members, wanted) && Lost(org, org') == Removed(org.members, ids, wanted)
  {
    WantedDeclared(ds, org.users);
  }

  lemma ReportedMembers(org: Org, ds: seq<Declared>)
    requires ServeSync(org, ds).report.Some?
    ensures var r, org' := ServeSync(org, ds).report.value, ServeSync(org, ds).org;
            && r.added == |Gained(org, org')| && r.removed == |Lost(org, org')|
            && |org'.members| == |org.members| + r.added - r.removed
  {
    MembersMoved(org, ds);
    MemberRowsBalance(org, ds);
  }

  function AdministratorsOf(org: Org): set<UserId> {
    set m | m in org.members && m.team == ADMINISTRATORS && ADMINISTRATORS in org.teams && org.teams[ADMINISTRATORS].live
            && m.user in org.users && org.users[m.user].live :: m.user
  }

  lemma SameAdministrators(org: Org)
    ensures AdministratorsOf(org) == LiveAdministrators(org)
  {
  }

  // The live administrators of the new tables, counted, and who is pending there.
  lemma ReportedAdministrators(org: Org, ds: seq<Declared>)
    requires ServeSync(org, ds).report.Some?
    ensures var r, org' := ServeSync(org, ds).report.value, ServeSync(org, ds).org;
            && r.liveAdministrators == (if |AdministratorsOf(org')| > 0xFFFF_FFFF then 0xFFFF_FFFF else |AdministratorsOf(org')|)
            && r.pending == org'.pending
  {
    PredictedAdministrators(org, ds);
    SameAdministrators(Synced(org, ds));
  }

  lemma UnknownMeans(ds: seq<Declared>, users: map<UserId, Person>, u: UserId)
    ensures u in Unknown(ds, users) <==>
              && u !in users
              && exists i :: 0 <= i < |ds| && u in ds[i].members && !(ds[i].id == ADMINISTRATORS && u in PendingAfter(ds, users))
  {
    if u in Unknown(ds, users) {
      var m :| m in Roll(ds) && m.user == u && !(m.team == ADMINISTRATORS && m.user in PendingAfter(ds, users));
      var i :| 0 <= i < |ds| && m.user in ds[i].members && ds[i].id == m.team;
    }
    if i :| 0 <= i < |ds| && u in ds[i].members && u !in users && !(ds[i].id == ADMINISTRATORS && u in PendingAfter(ds, users)) {
      assert Member(ds[i].id, u) in Roll(ds);
    }
  }

  // Who is declared somewhere, has no user row and is not pending as an administrator there.
  lemma ReportedUnknown(org: Org, ds: seq<Declared>, u: UserId)
    requires ServeSync(org, ds).report.Some?
    ensures var org' := ServeSync(org, ds).org;
            u in ServeSync(org, ds).report.value.unknown <==>
              && u !in org.users
              && exists i :: 0 <= i < |ds| && u in ds[i].members && !(ds[i].id == ADMINISTRATORS && u in org'.pending)
  {
    UnknownMeans(ds, org.users, u);
  }

  // --------------------------------------------------------------------- the two creations

  // THE BOOTSTRAP WRITES one user, live and without the flag, one row in `administrators`, and an
  // empty pending set; a refusal names its cause and writes nothing.
  lemma BootstrapIsDescribed(org: Org, u: UserId, index: BlindIndex)
    ensures var r := ServeBootstrap(org, u, index);
            var indexTaken := exists v <- org.users :: org.users[v].index == index;
            if !CanonicalUserId(u) then r == Reply(org, Some(InvalidArgument))
            else if ADMINISTRATORS !in org.teams || !org.teams[ADMINISTRATORS].live || Administered(org) then r == Reply(org, Some(PermissionDenied))
            else if u in org.users then r == Reply(org, Some(AlreadyExists))
            else if u !in org.pending then r == Reply(org, Some(PermissionDenied))
            else if indexTaken then r == Reply(org, Some(AlreadyExists))
            else
              && r.refusal.None? && r.org.teams == org.teams && r.org.pending == {}
              && r.org.users == org.users[u := Person(true, false, index)]
              && r.org.members == org.members + {Member(ADMINISTRATORS, u)}
  {
    AdministeredMeans(org);
  }

  // A mint adds one user with the flag asked for and touches no team, no member and no pending row.
  lemma MintIsDescribed(org: Org, u: UserId, index: BlindIndex, admin: bool)
    ensures var r := ServeMint(org, u, index, admin);
            if u in org.users || exists v <- org.users :: org.users[v].index == index then r == Reply(org, Some(AlreadyExists))
            else r == Reply(org.(users := org.users[u := Person(true, admin, index)]), None)
  {
  }
}
