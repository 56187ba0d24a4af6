/**
Declared teams as values: what one SyncTeams, one bootstrap CreateUser and one minting
CreateUser make of the tables, and what a sync promises about its result and its report.
*/
module DeclaredTeams {
  import opened Wrappers
  import opened Identifiers

  const ADMINISTRATORS: TeamId := TeamIdOf("administrators")

  type BlindIndex = int

  datatype Person = Person(live: bool, isAdmin: bool, index: BlindIndex)
  datatype Team = Team(name: string, live: bool)
  datatype Member = Member(team: TeamId, user: UserId)

  // `pending` is `iam_team_member_pending`, whose rows all name `administrators`.
  datatype Org = Org(
    users: map<UserId, Person>, teams: map<TeamId, Team>, members: set<Member>, pending: set<UserId>)

  datatype Status = InvalidArgument | FailedPrecondition | PermissionDenied | AlreadyExists

  // A team of a declaration that passed validation.
  datatype Declared = Declared(id: TeamId, name: string, members: seq<UserId>)

  // ------------------------------------------------------------------ constraints

  // Foreign keys and unique keys.
  ghost predicate MembersRefer(org: Org) {
    forall m <- org.members :: m.team in org.teams && m.user in org.users
  }

  ghost predicate UniqueNames(teams: map<TeamId, Team>) {
    forall a <- teams, b <- teams :: teams[a].name == teams[b].name ==> a == b
  }

  ghost predicate UniqueIndexes(users: map<UserId, Person>) {
    forall a <- users, b <- users :: users[a].index == users[b].index ==> a == b
  }

  // What every call keeps: the engine's constraints, and that a pending administrator
  // exists only while nobody administers.
  ghost predicate OrgValid(org: Org) {
    && MembersRefer(org) && UniqueNames(org.teams) && UniqueIndexes(org.users)
    && (org.pending != {} ==> ADMINISTRATORS in org.teams && LiveAdministrators(org) == {})
  }

  // --------------------------------------------------------------------- readings

  predicate LivePerson(users: map<UserId, Person>, u: UserId) {
    u in users && users[u].live
  }

  predicate LiveTeam(teams: map<TeamId, Team>, id: TeamId) {
    id in teams && teams[id].live
  }

  function LiveAdministrators(org: Org): set<UserId> {
    set m | m in org.members && m.team == ADMINISTRATORS && LiveTeam(org.teams, ADMINISTRATORS)
            && LivePerson(org.users, m.user) :: m.user
  }

  // The teams ResolveCredential answers for a person.
  function LiveTeams(org: Org, u: UserId): set<TeamId> {
    set id | id in org.teams && org.teams[id].live && Member(id, u) in org.members
  }

  // ------------------------------------------------------------------ declarations

  ghost predicate DistinctMembers(members: seq<UserId>) {
    forall i, j | 0 <= i < j < |members| :: members[i] != members[j]
  }

  // What validation hands on.
  ghost predicate Validated(ds: seq<Declared>) {
    && (forall i | 0 <= i < |ds| :: ds[i].id == TeamIdOf(ds[i].name) && DistinctMembers(ds[i].members))
    && forall i, j | 0 <= i < j < |ds| :: ds[i].id != ds[j].id
  }

  function Ids(ds: seq<Declared>): set<TeamId> {
    set i | 0 <= i < |ds| :: ds[i].id
  }

  // Every declared membership, whether or not the person exists.
  function Roll(ds: seq<Declared>): set<Member> {
    set i, u | 0 <= i < |ds| && u in ds[i].members :: Member(ds[i].id, u)
  }

  // The rows the declaration asks for: its members that have a user row.
  function Wanted(ds: seq<Declared>, users: map<UserId, Person>): set<Member> {
    set m | m in Roll(ds) && m.user in users
  }

  function LiveAfter(ds: seq<Declared>, users: map<UserId, Person>): set<UserId> {
    set m | m in Roll(ds) && m.team == ADMINISTRATORS && LivePerson(users, m.user) :: m.user
  }

  function PendingAfter(ds: seq<Declared>, users: map<UserId, Person>): set<UserId> {
    if LiveAfter(ds, users) != {} then {}
    else set m | m in Roll(ds) && m.team == ADMINISTRATORS && m.user !in users :: m.user
  }

  // Declared ids with no user row that are not pending; for another team than
  // `administrators` a pending person is unknown all the same.
  function Unknown(ds: seq<Declared>, users: map<UserId, Person>): set<UserId> {
    set m | m in Roll(ds) && m.user !in users
            && !(m.team == ADMINISTRATORS && m.user in PendingAfter(ds, users)) :: m.user
  }

  // ---------------------------------------------------------------------- the sync

  function TeamsAfter(teams: map<TeamId, Team>, ids: set<TeamId>): map<TeamId, Team> {
    map id | id in teams.Keys + ids ::
      if id in teams then teams[id].(live := id in ids) else Team(NameOf(id), true)
  }

  // An archived team keeps its member rows.
  function MembersAfter(members: set<Member>, ids: set<TeamId>, wanted: set<Member>): set<Member> {
    (set m | m in members && m.team !in ids) + wanted
  }

  function Synced(org: Org, ds: seq<Declared>): Org {
    Org(org.users, TeamsAfter(org.teams, Ids(ds)),
        MembersAfter(org.members, Ids(ds), Wanted(ds, org.users)), PendingAfter(ds, org.users))
  }

  function Inserted(teams: map<TeamId, Team>, ids: set<TeamId>): set<TeamId> {
    set id | id in ids && id !in teams
  }

  function Reactivated(teams: map<TeamId, Team>, ids: set<TeamId>): set<TeamId> {
    set id | id in ids && id in teams && !teams[id].live
  }

  function Archived(teams: map<TeamId, Team>, ids: set<TeamId>): set<TeamId> {
    set id | id in teams && teams[id].live && id !in ids
  }

  function Removed(members: set<Member>, ids: set<TeamId>, wanted: set<Member>): set<Member> {
    set m | m in members && m.team in ids && m !in wanted
  }

  function Added(members: set<Member>, wanted: set<Member>): set<Member> {
    wanted - members
  }

  // The members of `teams`.
  function MembersOf(members: set<Member>, teams: set<TeamId>): set<Member> {
    set m | m in members && m.team in teams
  }

  function Users(members: set<Member>): set<UserId> {
    set m | m in members :: m.user
  }

  function Changed(org: Org, ds: seq<Declared>): set<UserId> {
    var ids, wanted := Ids(ds), Wanted(ds, org.users);
    Users(MembersOf(org.members, Archived(org.teams, ids)) + MembersOf(wanted, Reactivated(org.teams, ids))
          + Removed(org.members, ids, wanted) + Added(org.members, wanted))
  }

  datatype Report = Report(
    inserted: nat, reactivated: nat, archived: nat, added: nat, removed: nat,
    liveAdministrators: nat, unknown: set<UserId>, pending: set<UserId>, changed: set<UserId>)

  const U32_MAX: nat := 0xFFFF_FFFF

  function ReportOf(org: Org, ds: seq<Declared>): Report {
    var ids, wanted := Ids(ds), Wanted(ds, org.users);
    var live := |LiveAfter(ds, org.users)|;
    Report(|Inserted(org.teams, ids)|, |Reactivated(org.teams, ids)|, |Archived(org.teams, ids)|,
           |Added(org.members, wanted)|, |Removed(org.members, ids, wanted)|,
           if live > U32_MAX then U32_MAX else live,
           Unknown(ds, org.users), PendingAfter(ds, org.users), Changed(org, ds))
  }

  // The declaration would leave `administrators`, which has a live member, with none.
  predicate LocksOut(org: Org, ds: seq<Declared>) {
    LiveAdministrators(org) != {} && LiveAfter(ds, org.users) == {}
  }

  // A team to insert whose name a row under another id holds.
  predicate NameClash(teams: map<TeamId, Team>, ds: seq<Declared>) {
    exists i, id | 0 <= i < |ds| && id in teams :: ds[i].id !in teams && teams[id].name == ds[i].name
  }

  datatype SyncReply = SyncReply(org: Org, report: Option<Report>)

  // Refused (FAILED_PRECONDITION) with nothing written, or applied whole.
  function ServeSync(org: Org, ds: seq<Declared>): SyncReply {
    if LocksOut(org, ds) || NameClash(org.teams, ds) then SyncReply(org, None)
    else SyncReply(Synced(org, ds), Some(ReportOf(org, ds)))
  }

  // ------------------------------------------------------------- what a sync promises

  // IT REACHES THE DECLARATION. Each declared team is live with exactly its declared
  // members that have a user row; every other stored team is archived with its rows kept.
  lemma SyncReachesDeclaration(org: Org, ds: seq<Declared>, i: nat)
    requires Validated(ds) && i < |ds|
    ensures LiveTeam(Synced(org, ds).teams, ds[i].id)
    ensures forall u :: Member(ds[i].id, u) in Synced(org, ds).members <==> u in ds[i].members && u in org.users
  {
    var d := ds[i];
    assert d.id in Ids(ds);
    forall u ensures Member(d.id, u) in Roll(ds) <==> u in d.members {
      if Member(d.id, u) in Roll(ds) {
        var j :| 0 <= j < |ds| && u in ds[j].members && ds[j].id == d.id;
        assert j == i;
      }
    }
  }

  lemma SyncArchivesTheRest(org: Org, ds: seq<Declared>, id: TeamId)
    requires OrgValid(org) && id in org.teams && id !in Ids(ds)
    ensures id in Synced(org, ds).teams && !Synced(org, ds).teams[id].live
    ensures Synced(org, ds).teams[id].name == org.teams[id].name
    ensures forall u :: Member(id, u) in Synced(org, ds).members <==> Member(id, u) in org.members
  {
  }

  // A row of `u` in a team this sync reactivated, left from before the team was archived,
  // that the declaration does not ask for.
  ghost predicate StaleRow(org: Org, ds: seq<Declared>, u: UserId) {
    exists id | id in Reactivated(org.teams, Ids(ds)) ::
      Member(id, u) in org.members && Member(id, u) !in Wanted(ds, org.users)
  }

  lemma TeamKept(org: Org, ds: seq<Declared>, id: TeamId, u: UserId)
    requires OrgValid(org) && u !in Changed(org, ds)
    ensures id in LiveTeams(org, u) <==> id in LiveTeams(Synced(org, ds), u)
  {
    var ids, wanted, m := Ids(ds), Wanted(ds, org.users), Member(id, u);
    assert m !in MembersOf(org.members, Archived(org.teams, ids)) && m !in MembersOf(wanted, Reactivated(org.teams, ids))
           && m !in Removed(org.members, ids, wanted) && m !in Added(org.members, wanted);
    assert m in Roll(ds) ==> id in ids;
  }

  lemma ReportedChange(org: Org, ds: seq<Declared>, u: UserId)
    requires OrgValid(org) && u in Changed(org, ds)
    ensures LiveTeams(org, u) != LiveTeams(Synced(org, ds), u) || StaleRow(org, ds, u)
  {
    var ids, wanted := Ids(ds), Wanted(ds, org.users);
    var m: Member :| m.user == u && (m in MembersOf(org.members, Archived(org.teams, ids)) || m in MembersOf(wanted, Reactivated(org.teams, ids))
           || m in Removed(org.members, ids, wanted) || m in Added(org.members, wanted));
    assert m == Member(m.team, u);
    assert m in Roll(ds) ==> m.team in ids;
    if m.team in LiveTeams(org, u) <==> m.team in LiveTeams(Synced(org, ds), u) {
      assert m in Removed(org.members, ids, wanted) && m.team in Reactivated(org.teams, ids);
    }
  }

  lemma StaleIsReported(org: Org, ds: seq<Declared>, u: UserId)
    requires StaleRow(org, ds, u)
    ensures u in Changed(org, ds)
  {
    var ids, wanted := Ids(ds), Wanted(ds, org.users);
    var id :| id in Reactivated(org.teams, ids) && Member(id, u) in org.members && Member(id, u) !in wanted;
    assert Member(id, u) in Removed(org.members, ids, wanted);
  }

  // THE CHANGE REPORT, both ways: a person is reported exactly when their set of live teams
  // differs, or they lost a stale row of a team this sync reactivated.
  lemma ChangeReport(org: Org, ds: seq<Declared>, u: UserId)
    requires OrgValid(org)
    ensures u in Changed(org, ds) <==>
              LiveTeams(org, u) != LiveTeams(Synced(org, ds), u) || StaleRow(org, ds, u)
  {
    if u in Changed(org, ds) {
      ReportedChange(org, ds, u);
    } else {
      forall id ensures id in LiveTeams(org, u) <==> id in LiveTeams(Synced(org, ds), u) {
        TeamKept(org, ds, id, u);
      }
      if StaleRow(org, ds, u) { StaleIsReported(org, ds, u); }
    }
  }

  // THE PREDICTION IS THE RECOUNT: the live administrators counted on the declaration are
  // those of the tables the sync leaves.
  lemma PredictedAdministrators(org: Org, ds: seq<Declared>)
    ensures LiveAdministrators(Synced(org, ds)) == LiveAfter(ds, org.users)
  {
    var org' := Synced(org, ds);
    forall m | m in Roll(ds) && m.team == ADMINISTRATORS ensures ADMINISTRATORS in Ids(ds) {
    }
    forall u ensures u in LiveAdministrators(org') <==> u in LiveAfter(ds, org.users) {
      var m := Member(ADMINISTRATORS, u);
      assert u in LiveAdministrators(org') <==>
             (m in org'.members && LiveTeam(org'.teams, ADMINISTRATORS) && LivePerson(org.users, u));
      assert u in LiveAfter(ds, org.users) <==> (m in Roll(ds) && LivePerson(org.users, u));
    }
  }

  // MEMBER ROWS BALANCE: before, plus added, minus removed.
  lemma MemberRowsBalance(org: Org, ds: seq<Declared>)
    ensures var ids, wanted := Ids(ds), Wanted(ds, org.users);
            |Synced(org, ds).members| == |org.members| + |Added(org.members, wanted)| - |Removed(org.members, ids, wanted)|
  {
    var ids, wanted := Ids(ds), Wanted(ds, org.users);
    var gone, come := Removed(org.members, ids, wanted), Added(org.members, wanted);
    forall m | m in wanted ensures m.team in ids { }
    assert gone <= org.members && come !! (org.members - gone);
    assert Synced(org, ds).members == (org.members - gone) + come;
  }
}
