/**
SyncTeams as the service runs it: validation, reads and writes in loops over the
declaration, on tables updated in place, proved to leave what `ServeSync` says.
*/
module TeamStores {
  import opened Wrappers
  import opened SetSizes
  import opened Identifiers
  import opened DeclaredTeams
  import opened TeamRuns

  // ------------------------------------------------------------------------ validation

  // A team as the request carries it.
  datatype Entry = Entry(name: string, members: seq<UserId>)

  ghost predicate EntryOk(e: Entry) {
    && TeamName(e.name)
    && (forall j | 0 <= j < |e.members| :: CanonicalUserId(e.members[j]))
    && DistinctMembers(e.members)
  }

  ghost predicate RequestOk(teams: seq<Entry>) {
    && (forall i | 0 <= i < |teams| :: EntryOk(teams[i]))
    && forall i, j | 0 <= i < j < |teams| :: teams[i].name != teams[j].name
  }

  function DeclaredOf(e: Entry): Declared {
    Declared(TeamIdOf(e.name), e.name, e.members)
  }

  function ToSet<T>(s: seq<T>): set<T> {
    set x | x in s
  }

  lemma AppendToSet<T>(s: seq<T>, x: T)
    ensures ToSet(s + [x]) == ToSet(s) + {x}
  {
  }

  method CheckMembers(members: seq<UserId>) returns (ok: bool)
    ensures ok <==> (forall j | 0 <= j < |members| :: CanonicalUserId(members[j])) && DistinctMembers(members)
  {
    var seen: set<UserId> := {};
    for j := 0 to |members|
      invariant forall i | 0 <= i < j :: CanonicalUserId(members[i])
      invariant DistinctMembers(members[..j])
      invariant seen == ToSet(members[..j])
    {
      if !CanonicalUserId(members[j]) { return false; }
      if members[j] in seen {
        var i :| 0 <= i < j && members[..j][i] == members[j];
        assert members[i] == members[j];
        return false;
      }
      seen := seen + {members[j]};
      assert members[..j + 1] == members[..j] + [members[j]];
    }
    assert members[..|members|] == members;
    return true;
  }

  // Accepts exactly the well-formed requests, and hands on each team under its computed id.
  method Validate(teams: seq<Entry>) returns (declared: Option<seq<Declared>>)
    ensures declared.Some? <==> RequestOk(teams)
    ensures declared.Some? ==> Validated(declared.value) && declared.value == seq(|teams|, i requires 0 <= i < |teams| => DeclaredOf(teams[i]))
    ensures declared.Some? ==>
              && |declared.value| == |teams|
              && forall i | 0 <= i < |teams| ::
                   && declared.value[i].name == teams[i].name && declared.value[i].members == teams[i].members
                   && declared.value[i].id.text == "yadgar:team:" + teams[i].name
  {
    var names: set<string> := {};
    var out: seq<Declared> := [];
    for i := 0 to |teams|
      invariant RequestOk(teams[..i])
      invariant |out| == i && forall k | 0 <= k < i :: out[k] == DeclaredOf(teams[k])
      invariant forall name :: name in names <==> exists k | 0 <= k < i :: teams[k].name == name
    {
      if !TeamName(teams[i].name) { return None; }
      if teams[i].name in names { return None; }
      names := names + {teams[i].name};
      var ok := CheckMembers(teams[i].members);
      if !ok { return None; }
      out := out + [DeclaredOf(teams[i])];
      assert teams[..i + 1] == teams[..i] + [teams[i]];
    }
    assert teams[..|teams|] == teams;
    forall i, j | 0 <= i < j < |out| ensures out[i].id != out[j].id {
      if out[i].id == out[j].id { TeamIdsDistinct(teams[i].name, teams[j].name); }
    }
    return Some(out);
  }

  // ---------------------------------------------------------------- one more team declared

  lemma OneMoreId(ds: seq<Declared>, i: nat)
    requires i < |ds|
    ensures Ids(ds[..i + 1]) == Ids(ds[..i]) + {ds[i].id}
  {
    forall id ensures id in Ids(ds[..i + 1]) <==> id in Ids(ds[..i]) || id == ds[i].id {
      if id in Ids(ds[..i]) {
        var k :| 0 <= k < i && ds[..i][k].id == id;
        assert ds[..i + 1][k].id == id;
      }
      assert ds[..i + 1][i].id == ds[i].id;
    }
  }

  function RollOf(d: Declared): set<Member> {
    set u | u in d.members :: Member(d.id, u)
  }

  lemma OneMoreRoll(ds: seq<Declared>, i: nat)
    requires i < |ds|
    ensures Roll(ds[..i + 1]) == Roll(ds[..i]) + RollOf(ds[i])
  {
    forall m ensures m in Roll(ds[..i + 1]) <==> m in Roll(ds[..i]) || m in RollOf(ds[i]) {
      if m in Roll(ds[..i]) {
        var k, u :| 0 <= k < i && u in ds[..i][k].members && m == Member(ds[..i][k].id, u);
        assert ds[..i + 1][k] == ds[k];
      }
      assert ds[..i + 1][i] == ds[i];
    }
  }

  lemma NotYetDeclared(ds: seq<Declared>, i: nat)
    requires Validated(ds) && i < |ds|
    ensures ds[i].id !in Ids(ds[..i])
  {
  }

  // The teams once the declared ones are inserted or reactivated, and `gone` archived.
  function Touched(teams: map<TeamId, Team>, ids: set<TeamId>, gone: set<TeamId>): map<TeamId, Team> {
    map id | id in teams.Keys + ids ::
      if id !in teams then Team(NameOf(id), true)
      else teams[id].(live := (teams[id].live || id in ids) && id !in gone)
  }

  // What one more declared team writes.
  lemma TouchOne(teams: map<TeamId, Team>, ids: set<TeamId>, id: TeamId)
    requires id !in ids
    ensures var now, next := Touched(teams, ids, {}), Touched(teams, ids + {id}, {});
            if id !in teams then next == now[id := Team(NameOf(id), true)]
            else id in now && next == now[id := teams[id].(live := true)]
  {
  }

  lemma CountOne(teams: map<TeamId, Team>, ids: set<TeamId>, id: TeamId)
    requires id !in ids
    ensures |Inserted(teams, ids + {id})| == |Inserted(teams, ids)| + if id in teams then 0 else 1
  {
    if id in teams {
      assert Inserted(teams, ids + {id}) == Inserted(teams, ids);
    } else {
      SizeOfOneMore(Inserted(teams, ids), id, Inserted(teams, ids + {id}));
    }
  }

  lemma WakeOne(teams: map<TeamId, Team>, ids: set<TeamId>, id: TeamId)
    requires id !in ids
    ensures if id in teams && !teams[id].live then Reactivated(teams, ids + {id}) == Reactivated(teams, ids) + {id}
            else Reactivated(teams, ids + {id}) == Reactivated(teams, ids)
  {
  }

  lemma NothingTouched(teams: map<TeamId, Team>)
    ensures Touched(teams, {}, {}) == teams && Inserted(teams, {}) == {} && Reactivated(teams, {}) == {}
  {
  }

  predicate NameHeld(teams: map<TeamId, Team>, name: string) {
    exists id <- teams :: teams[id].name == name
  }

  lemma TouchedNames(teams: map<TeamId, Team>, ds: seq<Declared>, i: nat)
    requires Validated(ds) && i < |ds|
    ensures NameHeld(Touched(teams, Ids(ds[..i]), {}), ds[i].name) <==> NameHeld(teams, ds[i].name)
  {
    var now := Touched(teams, Ids(ds[..i]), {});
    if id :| id in now && now[id].name == ds[i].name && id !in teams {
      var k :| 0 <= k < i && ds[..i][k].id == id;
      NameOfTeamId(ds[k].name);
      assert false;
    }
    if id :| id in teams && teams[id].name == ds[i].name { assert now[id].name == ds[i].name; }
  }

  // Inserting this team would meet a row under another id that holds its name.
  ghost predicate Clashes(teams: map<TeamId, Team>, d: Declared) {
    d.id !in teams && NameHeld(teams, d.name)
  }

  lemma NameClashIsAClash(teams: map<TeamId, Team>, ds: seq<Declared>)
    ensures NameClash(teams, ds) <==> exists i | 0 <= i < |ds| :: Clashes(teams, ds[i])
  {
  }

  // What archiving one more team writes and reports.
  lemma ArchiveOne(teams: map<TeamId, Team>, ids: set<TeamId>, gone: set<TeamId>, id: TeamId)
    requires id in teams && id !in ids
    ensures var now := Touched(teams, ids, gone);
            id in now && Touched(teams, ids, gone + {id}) == now[id := now[id].(live := false)]
  {
  }

  lemma AllArchived(teams: map<TeamId, Team>, ids: set<TeamId>)
    ensures Touched(teams, ids, Archived(teams, ids)) == TeamsAfter(teams, ids)
  {
  }

  function UsersIn(members: set<Member>, id: TeamId): set<UserId> {
    set m | m in members && m.team == id :: m.user
  }

  lemma LeaveOne(members: set<Member>, gone: set<TeamId>, id: TeamId)
    ensures Users(MembersOf(members, gone + {id})) == Users(MembersOf(members, gone)) + UsersIn(members, id)
  {
    var l := Users(MembersOf(members, gone + {id}));
    forall u | u in Users(MembersOf(members, gone)) ensures u in l {
      var m :| m in MembersOf(members, gone) && m.user == u;
      assert m in MembersOf(members, gone + {id});
    }
    forall u | u in UsersIn(members, id) ensures u in l {
      var m: Member :| m in members && m.team == id && m.user == u;
      assert m in MembersOf(members, gone + {id});
    }
  }

  // --------------------------------------------------------------- one more team's members

  function Rows(id: TeamId, us: set<UserId>): set<Member> {
    set u | u in us :: Member(id, u)
  }

  lemma OneMoreRow(id: TeamId, us: set<UserId>, u: UserId)
    ensures Rows(id, us + {u}) == Rows(id, us) + {Member(id, u)}
  {
  }

  lemma {:induction false} RowCount(id: TeamId, us: set<UserId>)
    ensures |Rows(id, us)| == |us|
  {
    if us != {} {
      var u :| u in us;
      RowCount(id, us - {u});
      OneMoreRow(id, us - {u}, u);
      assert us - {u} + {u} == us;
      SizeOfOneMore(Rows(id, us - {u}), Member(id, u), Rows(id, us));
    }
  }

  // A team's rows replaced by those of `us`.
  function Replaced(members: set<Member>, id: TeamId, us: set<UserId>): set<Member> {
    (set m | m in members && m.team != id) + Rows(id, us)
  }

  datatype Book = Book(ids: set<TeamId>, wanted: set<Member>)

  // The declared rows are of declared teams, and `id` is not one of them yet.
  ghost predicate Unbooked(b: Book, id: TeamId) {
    id !in b.ids && forall m <- b.wanted :: m.team in b.ids
  }

  function Booked(b: Book, id: TeamId, us: set<UserId>): Book {
    Book(b.ids + {id}, b.wanted + Rows(id, us))
  }

  lemma MembersStep(members: set<Member>, b: Book, id: TeamId, us: set<UserId>)
    requires Unbooked(b, id)
    ensures var b' := Booked(b, id, us);
            MembersAfter(members, b'.ids, b'.wanted) == Replaced(MembersAfter(members, b.ids, b.wanted), id, us)
    ensures UsersIn(MembersAfter(members, b.ids, b.wanted), id) == UsersIn(members, id)
  {
    forall u ensures u in UsersIn(MembersAfter(members, b.ids, b.wanted), id) <==> u in UsersIn(members, id) {
      assert u in UsersIn(members, id) <==> Member(id, u) in members;
      assert u in UsersIn(MembersAfter(members, b.ids, b.wanted), id) <==> Member(id, u) in MembersAfter(members, b.ids, b.wanted);
    }
  }

  lemma RemovedStep(members: set<Member>, b: Book, id: TeamId, us: set<UserId>)
    requires Unbooked(b, id)
    ensures var b', gone := Booked(b, id, us), Rows(id, UsersIn(members, id) - us);
            && Removed(members, b'.ids, b'.wanted) == Removed(members, b.ids, b.wanted) + gone
            && Removed(members, b.ids, b.wanted) !! gone
  {
    var b' := Booked(b, id, us);
    forall m ensures m in Removed(members, b'.ids, b'.wanted)
                     <==> m in Removed(members, b.ids, b.wanted) || m in Rows(id, UsersIn(members, id) - us)
    {
      if m.team == id {
        assert m == Member(id, m.user);
        assert m in members <==> m.user in UsersIn(members, id);
      }
    }
  }

  lemma AddedStep(members: set<Member>, b: Book, id: TeamId, us: set<UserId>)
    requires Unbooked(b, id)
    ensures var b', come := Booked(b, id, us), Rows(id, us - UsersIn(members, id));
            && Added(members, b'.wanted) == Added(members, b.wanted) + come
            && Added(members, b.wanted) !! come
  {
    var b' := Booked(b, id, us);
    forall m ensures m in Added(members, b'.wanted)
                     <==> m in Added(members, b.wanted) || m in Rows(id, us - UsersIn(members, id))
    {
      if m.team == id {
        assert m == Member(id, m.user);
        assert m in members <==> m.user in UsersIn(members, id);
      }
    }
  }

  lemma WokenStep(b: Book, id: TeamId, us: set<UserId>, woken: set<TeamId>)
    requires Unbooked(b, id)
    ensures MembersOf(Booked(b, id, us).wanted, woken)
            == MembersOf(b.wanted, woken) + Rows(id, if id in woken then us else {})
  {
  }

  lemma ReplacedByRows(members: set<Member>, id: TeamId, us: set<UserId>)
    ensures var current := UsersIn(members, id);
            members - Rows(id, current - us) + Rows(id, us - current) == Replaced(members, id, us)
  {
    var current := UsersIn(members, id);
    forall m ensures m in members - Rows(id, current - us) + Rows(id, us - current) <==> m in Replaced(members, id, us) {
      if m.team == id {
        assert m == Member(id, m.user);
        assert m in members <==> m.user in current;
      }
    }
  }

  lemma UsersOfRows(members: set<Member>, id: TeamId, us: set<UserId>)
    ensures Users(members + Rows(id, us)) == Users(members) + us
  {
    forall u | u in us ensures u in Users(members + Rows(id, us)) {
      assert Member(id, u) in members + Rows(id, us);
    }
  }

  lemma UsersOfUnion(a: set<Member>, b: set<Member>)
    ensures Users(a + b) == Users(a) + Users(b)
  {
  }

  datatype Known = Absent | SoftDeleted | Live

  function KnownAs(users: map<UserId, Person>, u: UserId): Known {
    if u !in users then Absent else if users[u].live then Live else SoftDeleted
  }

  ghost predicate Classifies(known: map<UserId, Known>, ds: seq<Declared>, users: map<UserId, Person>) {
    forall m <- Roll(ds) :: m.user in known && known[m.user] == KnownAs(users, m.user)
  }

  // ------------------------------------------------------------- readings of a declaration

  // How many of a team's declared members are live.
  method CountLive(members: seq<UserId>, known: map<UserId, Known>) returns (n: nat)
    requires DistinctMembers(members) && forall u <- members :: u in known
    ensures n == |set u | u in members && known[u].Live?|
  {
    n := 0;
    ghost var live: set<UserId> := {};
    for j := 0 to |members|
      invariant live == set u | u in members[..j] && known[u].Live?
      invariant n == |live|
    {
      var u := members[j];
      assert members[..j + 1] == members[..j] + [u];
      if known[u].Live? {
        SizeOfOneMore(live, u, live + {u});
        n, live := n + 1, live + {u};
      }
    }
    assert members[..|members|] == members;
  }

  // A team's declared members with no user row, in order.
  method AbsentMembers(members: seq<UserId>, known: map<UserId, Known>) returns (absent: seq<UserId>)
    requires forall u <- members :: u in known
    ensures ToSet(absent) == set u | u in members && known[u].Absent?
    ensures DistinctMembers(members) ==> DistinctMembers(absent)
  {
    absent := [];
    for j := 0 to |members|
      invariant ToSet(absent) == set u | u in members[..j] && known[u].Absent?
      invariant DistinctMembers(members) ==> DistinctMembers(absent)
    {
      var u := members[j];
      assert members[..j + 1] == members[..j] + [u];
      if known[u].Absent? {
        assert DistinctMembers(members) ==> u !in members[..j];
        assert u in absent ==> u in ToSet(absent);
        AppendToSet(absent, u);
        absent := absent + [u];
      }
    }
    assert members[..|members|] == members;
  }

  function UnknownOf(roll: set<Member>, known: map<UserId, Known>, pending: seq<UserId>): set<UserId>
    requires forall m <- roll :: m.user in known
  {
    set m | m in roll && known[m.user].Absent? && !(m.team == ADMINISTRATORS && m.user in pending) :: m.user
  }

  lemma UnknownOfUnion(a: set<Member>, b: set<Member>, known: map<UserId, Known>, pending: seq<UserId>)
    requires forall m <- a + b :: m.user in known
    ensures UnknownOf(a + b, known, pending) == UnknownOf(a, known, pending) + UnknownOf(b, known, pending)
  {
  }

  // One team's unknown members, each listed once over all teams.
  method MoreUnknown(d: Declared, known: map<UserId, Known>, pending: seq<UserId>, before: seq<UserId>)
    returns (unknown: seq<UserId>)
    requires (forall u <- d.members :: u in known) && DistinctMembers(before)
    ensures ToSet(unknown) == ToSet(before) + UnknownOf(RollOf(d), known, pending) && DistinctMembers(unknown)
  {
    unknown := before;
    ghost var roll: set<Member> := {};
    for j := 0 to |d.members|
      invariant roll == set u | u in d.members[..j] :: Member(d.id, u)
      invariant roll <= RollOf(d)
      invariant ToSet(unknown) == ToSet(before) + UnknownOf(roll, known, pending) && DistinctMembers(unknown)
    {
      var u := d.members[j];
      assert d.members[..j + 1] == d.members[..j] + [u];
      var isPending := d.id == ADMINISTRATORS && u in pending;
      UnknownOfUnion(roll, {Member(d.id, u)}, known, pending);
      assert u in unknown <==> u in ToSet(unknown);
      if known[u].Absent? && !isPending && u !in unknown {
        AppendToSet(unknown, u);
        unknown := unknown + [u];
      }
      roll := roll + {Member(d.id, u)};
    }
    assert d.members[..|d.members|] == d.members;
  }

  method UnknownMembers(ds: seq<Declared>, known: map<UserId, Known>, pending: seq<UserId>) returns (unknown: seq<UserId>)
    requires forall m <- Roll(ds) :: m.user in known
    ensures ToSet(unknown) == UnknownOf(Roll(ds), known, pending) && DistinctMembers(unknown)
  {
    unknown := [];
    for i := 0 to |ds|
      invariant Roll(ds[..i]) <= Roll(ds)
      invariant ToSet(unknown) == UnknownOf(Roll(ds[..i]), known, pending) && DistinctMembers(unknown)
    {
      OneMoreRoll(ds, i);
      assert RollOf(ds[i]) <= Roll(ds);
      forall u <- ds[i].members ensures u in known { assert Member(ds[i].id, u) in Roll(ds); }
      UnknownOfUnion(Roll(ds[..i]), RollOf(ds[i]), known, pending);
      unknown := MoreUnknown(ds[i], known, pending, unknown);
    }
    assert ds[..|ds|] == ds;
  }

  // -------------------------------------------------------------- the whole member write

  // The member rows a sync reports on: those of reactivated teams, removed and added ones.
  function Touching(members: set<Member>, b: Book, woken: set<TeamId>): set<Member> {
    MembersOf(b.wanted, woken) + Removed(members, b.ids, b.wanted) + Added(members, b.wanted)
  }

  lemma TouchingStep(members: set<Member>, b: Book, id: TeamId, us: set<UserId>, woken: set<TeamId>)
    requires Unbooked(b, id)
    ensures var current := UsersIn(members, id);
            Users(Touching(members, Booked(b, id, us), woken))
            == Users(Touching(members, b, woken)) + (if id in woken then us else {}) + ((current - us) + (us - current))
  {
    var current, b' := UsersIn(members, id), Booked(b, id, us);
    var w: set<UserId> := if id in woken then us else {};
    WokenStep(b, id, us, woken);
    RemovedStep(members, b, id, us);
    AddedStep(members, b, id, us);
    var all := w + (current - us) + (us - current);
    assert Touching(members, b', woken) == Touching(members, b, woken) + Rows(id, all);
    UsersOfRows(Touching(members, b, woken), id, all);
  }

  lemma CountsStep(members: set<Member>, b: Book, id: TeamId, us: set<UserId>)
    requires Unbooked(b, id)
    ensures var b', current := Booked(b, id, us), UsersIn(members, id);
            && |Removed(members, b'.ids, b'.wanted)| == |Removed(members, b.ids, b.wanted)| + |current - us|
            && |Added(members, b'.wanted)| == |Added(members, b.wanted)| + |us - current|
  {
    var current := UsersIn(members, id);
    RemovedStep(members, b, id, us);
    RowCount(id, current - us);
    DisjointSize(Removed(members, b.ids, b.wanted), Rows(id, current - us));
    AddedStep(members, b, id, us);
    RowCount(id, us - current);
    DisjointSize(Added(members, b.wanted), Rows(id, us - current));
  }

  datatype Tally = Tally(removed: nat, added: nat, changed: set<UserId>)

  // The member rows are those of the teams booked so far, and the tally counts what that took.
  ghost predicate Tallied(before: set<Member>, b: Book, woken: set<TeamId>, now: set<Member>, tally: Tally) {
    && now == MembersAfter(before, b.ids, b.wanted)
    && tally.removed == |Removed(before, b.ids, b.wanted)| && tally.added == |Added(before, b.wanted)|
    && tally.changed == Users(Touching(before, b, woken))
  }

  // What writing one team's member rows answers.
  ghost predicate Wrote(now: set<Member>, id: TeamId, us: set<UserId>, removed: nat, added: nat, who: set<UserId>) {
    var current := UsersIn(now, id);
    removed == |current - us| && added == |us - current| && who == (current - us) + (us - current)
  }

  // What writing one team's member rows adds to the tally.
  ghost predicate TalliedOn(now: set<Member>, id: TeamId, us: set<UserId>, whole: bool, tally: Tally, tally': Tally) {
    var current := UsersIn(now, id);
    && tally'.removed == tally.removed + |current - us| && tally'.added == tally.added + |us - current|
    && tally'.changed == tally.changed + (if whole then us else {}) + ((current - us) + (us - current))
  }

  lemma TallyStep(before: set<Member>, b: Book, id: TeamId, us: set<UserId>, woken: set<TeamId>, now: set<Member>, tally: Tally, tally': Tally)
    requires Unbooked(b, id) && Tallied(before, b, woken, now, tally) && TalliedOn(now, id, us, id in woken, tally, tally')
    ensures Tallied(before, Booked(b, id, us), woken, Replaced(now, id, us), tally')
  {
    MembersStep(before, b, id, us);
    CountsStep(before, b, id, us);
    TouchingStep(before, b, id, us, woken);
  }

  function BookOf(ds: seq<Declared>, users: map<UserId, Person>): Book {
    Book(Ids(ds), Wanted(ds, users))
  }

  function DesiredOf(d: Declared, users: map<UserId, Person>): set<UserId> {
    set u | u in d.members && u in users
  }

  lemma OneMoreBooked(ds: seq<Declared>, users: map<UserId, Person>, i: nat)
    requires Validated(ds) && i < |ds|
    ensures Unbooked(BookOf(ds[..i], users), ds[i].id)
    ensures BookOf(ds[..i + 1], users) == Booked(BookOf(ds[..i], users), ds[i].id, DesiredOf(ds[i], users))
  {
    OneMoreId(ds, i);
    OneMoreRoll(ds, i);
    NotYetDeclared(ds, i);
    assert Wanted(ds[..i + 1], users) == Wanted(ds[..i], users) + Rows(ds[i].id, DesiredOf(ds[i], users));
  }

  lemma NothingBooked(members: set<Member>, users: map<UserId, Person>, woken: set<TeamId>)
    ensures var b := BookOf([], users);
            && MembersAfter(members, b.ids, b.wanted) == members && Removed(members, b.ids, b.wanted) == {}
            && Added(members, b.wanted) == {} && Users(Touching(members, b, woken)) == {}
  {
    assert Roll([]) == {} && Ids([]) == {};
  }

  // ---------------------------------------------------------------- the administrators

  // Where a team is declared, if it is.
  method FindTeam(ds: seq<Declared>, id: TeamId) returns (at: Option<nat>)
    ensures at.Some? ==> at.value < |ds| && ds[at.value].id == id
    ensures at.None? ==> id !in Ids(ds)
  {
    for i := 0 to |ds|
      invariant forall k | 0 <= k < i :: ds[k].id != id
    {
      if ds[i].id == id { return Some(i); }
    }
    return None;
  }

  lemma DeclaredAt(ds: seq<Declared>, a: nat, u: UserId)
    requires Validated(ds) && a < |ds|
    ensures Member(ds[a].id, u) in Roll(ds) <==> u in ds[a].members
  {
    if Member(ds[a].id, u) in Roll(ds) {
      var j :| 0 <= j < |ds| && u in ds[j].members && ds[j].id == ds[a].id;
      assert j == a;
    }
  }

  // What the sync reads of the administrators it is about to declare.
  lemma AdministratorsAt(ds: seq<Declared>, a: nat, users: map<UserId, Person>)
    requires Validated(ds) && a < |ds| && ds[a].id == ADMINISTRATORS
    ensures LiveAfter(ds, users) == set u | u in ds[a].members && LivePerson(users, u)
    ensures LiveAfter(ds, users) == {} ==> PendingAfter(ds, users) == set u | u in ds[a].members && u !in users
  {
    forall u ensures Member(ADMINISTRATORS, u) in Roll(ds) <==> u in ds[a].members { DeclaredAt(ds, a, u); }
    forall u | u in ds[a].members && LivePerson(users, u) ensures u in LiveAfter(ds, users) {
      assert Member(ADMINISTRATORS, u) in Roll(ds);
    }
    forall u | u in ds[a].members && u !in users && LiveAfter(ds, users) == {} ensures u in PendingAfter(ds, users) {
      assert Member(ADMINISTRATORS, u) in Roll(ds);
    }
  }

  lemma NoAdministratorsDeclared(ds: seq<Declared>, users: map<UserId, Person>)
    requires ADMINISTRATORS !in Ids(ds)
    ensures LiveAfter(ds, users) == {} && PendingAfter(ds, users) == {}
  {
  }

  // The live administrators the declaration leaves, and who is to be pending.
  method Predict(ds: seq<Declared>, known: map<UserId, Known>, ghost users: map<UserId, Person>)
    returns (live: nat, pending: seq<UserId>)
    requires Validated(ds) && Classifies(known, ds, users)
    ensures live == |LiveAfter(ds, users)|
    ensures ToSet(pending) == PendingAfter(ds, users) && DistinctMembers(pending)
  {
    var at := FindTeam(ds, ADMINISTRATORS);
    if at.None? {
      NoAdministratorsDeclared(ds, users);
      return 0, [];
    }
    var members := ds[at.value].members;
    forall u <- members ensures u in known && known[u] == KnownAs(users, u) { DeclaredAt(ds, at.value, u); }
    AdministratorsAt(ds, at.value, users);
    live := CountLive(members, known);
    assert (set u | u in members && known[u].Live?) == LiveAfter(ds, users);
    if live == 0 {
      pending := AbsentMembers(members, known);
      assert (set u | u in members && known[u].Absent?) == set u | u in members && u !in users;
    } else {
      pending := [];
    }
  }

  lemma UnknownIs(ds: seq<Declared>, known: map<UserId, Known>, users: map<UserId, Person>, pending: seq<UserId>)
    requires Classifies(known, ds, users) && ToSet(pending) == PendingAfter(ds, users)
    ensures UnknownOf(Roll(ds), known, pending) == Unknown(ds, users)
  {
    forall u ensures u in pending <==> u in PendingAfter(ds, users) { assert u in pending <==> u in ToSet(pending); }
  }

  // The answer as it is sent: lists in the order of the declaration, changes as a sorted set.
  datatype Response = Response(
    inserted: nat, reactivated: nat, archived: nat, added: nat, removed: nat,
    liveAdministrators: nat, unknown: seq<UserId>, pending: seq<UserId>, changed: set<UserId>)

  // `r` says what `report` does, each id once.
  ghost predicate Says(r: Response, report: Report) {
    && r.inserted == report.inserted && r.reactivated == report.reactivated && r.archived == report.archived
    && r.added == report.added && r.removed == report.removed
    && r.liveAdministrators == report.liveAdministrators
    && ToSet(r.unknown) == report.unknown && DistinctMembers(r.unknown)
    && ToSet(r.pending) == report.pending && DistinctMembers(r.pending)
    && r.changed == report.changed
  }

  lemma ChangedIs(org: Org, ds: seq<Declared>)
    ensures var b, ids := BookOf(ds, org.users), Ids(ds);
            Users(MembersOf(org.members, Archived(org.teams, ids))) + Users(Touching(org.members, b, Reactivated(org.teams, ids)))
            == Changed(org, ds)
  {
    var b, ids := BookOf(ds, org.users), Ids(ds);
    var archived, touching := MembersOf(org.members, Archived(org.teams, ids)), Touching(org.members, b, Reactivated(org.teams, ids));
    UsersOfUnion(archived, touching);
    assert archived + touching
        == MembersOf(org.members, Archived(org.teams, ids)) + MembersOf(b.wanted, Reactivated(org.teams, ids))
           + Removed(org.members, ids, b.wanted) + Added(org.members, b.wanted);
  }

  class TeamStore {
    var users: map<UserId, Person>
    var teams: map<TeamId, Team>
    var members: set<Member>
    var pending: set<UserId>

    function Snapshot(): Org
      reads this
    {
      Org(users, teams, members, pending)
    }

    // One declared team inserted or reactivated; false when its name is taken.
    method WriteTeam(d: Declared, stored: map<TeamId, Team>, ghost ids: set<TeamId>, before: nat, woken: set<TeamId>)
      returns (ok: bool, inserted: nat, reactivated: set<TeamId>)
      requires d.id == TeamIdOf(d.name) && d.id !in ids && teams == Touched(stored, ids, {})
      requires before == |Inserted(stored, ids)| && woken == Reactivated(stored, ids)
      requires NameHeld(teams, d.name) <==> NameHeld(stored, d.name)
      modifies this`teams
      ensures ok <==> !Clashes(stored, d)
      ensures ok ==> teams == Touched(stored, ids + {d.id}, {})
      ensures ok ==> inserted == |Inserted(stored, ids + {d.id})| && reactivated == Reactivated(stored, ids + {d.id})
    {
      ok, inserted, reactivated := true, before, woken;
      TouchOne(stored, ids, d.id);
      CountOne(stored, ids, d.id);
      WakeOne(stored, ids, d.id);
      NameOfTeamId(d.name);
      if d.id !in stored {
        if NameHeld(teams, d.name) { return false, 0, {}; }
        teams, inserted := teams[d.id := Team(d.name, true)], inserted + 1;
      } else if !stored[d.id].live {
        teams, reactivated := teams[d.id := teams[d.id].(live := true)], reactivated + {d.id};
      }
    }

    // The declared teams inserted or reactivated; false when a name is taken.
    method WriteDeclared(ds: seq<Declared>) returns (ok: bool, inserted: nat, reactivated: set<TeamId>)
      requires Validated(ds)
      modifies this`teams
      ensures ok <==> forall k | 0 <= k < |ds| :: !Clashes(old(teams), ds[k])
      ensures ok ==> teams == Touched(old(teams), Ids(ds), {})
      ensures ok ==> inserted == |Inserted(old(teams), Ids(ds))| && reactivated == Reactivated(old(teams), Ids(ds))
    {
      var stored := teams;
      ok, inserted, reactivated := true, 0, {};
      ghost var ids := {};
      NothingTouched(stored);
      for i := 0 to |ds|
        invariant ids == Ids(ds[..i]) && teams == Touched(stored, ids, {})
        invariant inserted == |Inserted(stored, ids)| && reactivated == Reactivated(stored, ids)
        invariant forall k | 0 <= k < i :: !Clashes(stored, ds[k])
      {
        OneMoreId(ds, i);
        NotYetDeclared(ds, i);
        TouchedNames(stored, ds, i);
        ok, inserted, reactivated := WriteTeam(ds[i], stored, ids, inserted, reactivated);
        if !ok { return; }
        ids := ids + {ds[i].id};
      }
      assert ds[..|ds|] == ds;
      ok := true;
    }

    // Archives every live team the declaration omits; who is in one of them is changed.
    method ArchiveOthers(stored: map<TeamId, Team>, ids: set<TeamId>) returns (archived: nat, changed: set<UserId>)
      requires teams == Touched(stored, ids, {})
      modifies this`teams
      ensures teams == TeamsAfter(stored, ids)
      ensures archived == |Archived(stored, ids)| && changed == Users(MembersOf(members, Archived(stored, ids)))
    {
      archived, changed := 0, {};
      var todo := stored.Keys;
      ghost var gone := {};
      while todo != {}
        invariant todo <= stored.Keys && gone == Archived(stored, ids) - todo
        invariant teams == Touched(stored, ids, gone)
        invariant archived == |gone| && changed == Users(MembersOf(members, gone))
        decreases |todo|
      {
        var id :| id in todo;
        todo := todo - {id};
        if stored[id].live && id !in ids {
          ArchiveOne(stored, ids, gone, id);
          LeaveOne(members, gone, id);
          SizeOfOneMore(gone, id, gone + {id});
          teams, archived := teams[id := teams[id].(live := false)], archived + 1;
          changed := changed + UsersIn(members, id);
          gone := gone + {id};
        }
      }
      AllArchived(stored, ids);
      assert gone == Archived(stored, ids);
    }

    // Inserts, reactivates and archives; false when a name is taken.
    method WriteTeams(ds: seq<Declared>)
      returns (ok: bool, inserted: nat, reactivated: set<TeamId>, archived: nat, changed: set<UserId>)
      requires Validated(ds)
      modifies this`teams
      ensures ok <==> !NameClash(old(teams), ds)
      ensures ok ==>
                && teams == TeamsAfter(old(teams), Ids(ds))
                && inserted == |Inserted(old(teams), Ids(ds))| && reactivated == Reactivated(old(teams), Ids(ds))
                && archived == |Archived(old(teams), Ids(ds))|
                && changed == Users(MembersOf(members, Archived(old(teams), Ids(ds))))
    {
      var stored := teams;
      archived, changed := 0, {};
      NameClashIsAClash(stored, ds);
      ok, inserted, reactivated := WriteDeclared(ds);
      if ok { archived, changed := ArchiveOthers(stored, Ids(ds)); }
    }

    // Replaces one team's member rows by those of `desired`, one row at a time.
    method WriteMembers(id: TeamId, desired: set<UserId>) returns (removed: nat, added: nat, changed: set<UserId>)
      modifies this`members
      ensures members == Replaced(old(members), id, desired)
      ensures Wrote(old(members), id, desired, removed, added, changed)
    {
      var current := UsersIn(members, id);
      removed := DeleteMembers(id, current - desired);
      added := InsertMembers(id, desired - current);
      changed := (current - desired) + (desired - current);
      ReplacedByRows(old(members), id, desired);
    }

    method DeleteMembers(id: TeamId, us: set<UserId>) returns (n: nat)
      modifies this`members
      ensures members == old(members) - Rows(id, us) && n == |us|
    {
      n := 0;
      var todo := us;
      while todo != {}
        invariant todo <= us && n == |us - todo| && members == old(members) - Rows(id, us - todo)
        decreases |todo|
      {
        var u :| u in todo;
        OneMoreRow(id, us - todo, u);
        SizeOfOneMore(us - todo, u, us - (todo - {u}));
        assert us - (todo - {u}) == us - todo + {u};
        members, n, todo := members - {Member(id, u)}, n + 1, todo - {u};
      }
      assert us - todo == us;
    }

    method InsertMembers(id: TeamId, us: set<UserId>) returns (n: nat)
      modifies this`members
      ensures members == old(members) + Rows(id, us) && n == |us|
    {
      n := 0;
      var todo := us;
      while todo != {}
        invariant todo <= us && n == |us - todo| && members == old(members) + Rows(id, us - todo)
        decreases |todo|
      {
        var u :| u in todo;
        OneMoreRow(id, us - todo, u);
        SizeOfOneMore(us - todo, u, us - (todo - {u}));
        assert us - (todo - {u}) == us - todo + {u};
        members, n, todo := members + {Member(id, u)}, n + 1, todo - {u};
      }
      assert us - todo == us;
    }

    // What each declared id names in the store, read once per id.
    method KnownUsers(ds: seq<Declared>) returns (known: map<UserId, Known>)
      ensures Classifies(known, ds, users)
    {
      known := map[];
      for i := 0 to |ds|
        invariant Classifies(known, ds[..i], users)
        invariant forall u <- known :: known[u] == KnownAs(users, u)
      {
        OneMoreRoll(ds, i);
        ghost var before := known;
        for j := 0 to |ds[i].members|
          invariant before.Keys <= known.Keys
          invariant forall u <- known :: known[u] == KnownAs(users, u)
          invariant forall k | 0 <= k < j :: ds[i].members[k] in known
        {
          var u := ds[i].members[j];
          if u !in known {
            known := known[u := if u !in users then Absent else if users[u].live then Live else SoftDeleted];
          }
        }
      }
      assert ds[..|ds|] == ds;
    }

    // A team's declared members that have a user row.
    method Desired(d: Declared, known: map<UserId, Known>) returns (desired: set<UserId>)
      requires forall u <- d.members :: u in known && known[u] == KnownAs(users, u)
      ensures desired == DesiredOf(d, users)
    {
      desired := set u | u in d.members && !known[u].Absent?;
    }

    // One declared team's member rows; `whole` when this sync reactivated the team.
    method WriteTeamMembers(d: Declared, known: map<UserId, Known>, whole: bool, tally: Tally) returns (tally': Tally)
      requires forall u <- d.members :: u in known && known[u] == KnownAs(users, u)
      modifies this`members
      ensures members == Replaced(old(members), d.id, DesiredOf(d, users))
      ensures TalliedOn(old(members), d.id, DesiredOf(d, users), whole, tally, tally')
    {
      var desired := Desired(d, known);
      var changed := tally.changed + (if whole then desired else {});
      var removed, added, who := WriteMembers(d.id, desired);
      tally' := Tally(tally.removed + removed, tally.added + added, changed + who);
    }

    // Every declared team's member rows, in the order declared.
    method WriteAllMembers(ds: seq<Declared>, known: map<UserId, Known>, woken: set<TeamId>) returns (tally: Tally)
      requires Validated(ds) && Classifies(known, ds, users)
      modifies this`members
      ensures Tallied(old(members), BookOf(ds, users), woken, members, tally)
    {
      tally := Tally(0, 0, {});
      NothingBooked(members, users, woken);
      for i := 0 to |ds|
        invariant Tallied(old(members), BookOf(ds[..i], users), woken, members, tally)
      {
        forall u <- ds[i].members ensures u in known && known[u] == KnownAs(users, u) { assert Member(ds[i].id, u) in Roll(ds); }
        OneMoreBooked(ds, users, i);
        ghost var now, before := members, tally;
        tally := WriteTeamMembers(ds[i], known, ds[i].id in woken, tally);
        TallyStep(old(members), BookOf(ds[..i], users), ds[i].id, DesiredOf(ds[i], users), woken, now, before, tally);
      }
      assert ds[..|ds|] == ds;
    }

    // The teams and their members, once nothing refuses the declaration.
    method Apply(ds: seq<Declared>, known: map<UserId, Known>, pend: seq<UserId>, unknown: seq<UserId>, live: nat)
      returns (resp: Option<Response>)
      requires Validated(ds) && Classifies(known, ds, users)
      requires ToSet(pend) == PendingAfter(ds, users) && DistinctMembers(pend) && live == |LiveAfter(ds, users)|
      requires ToSet(unknown) == Unknown(ds, users) && DistinctMembers(unknown)
      modifies this
      ensures resp.Some? <==> !NameClash(old(teams), ds)
      ensures resp.Some? ==> Snapshot() == Synced(old(Snapshot()), ds) && Says(resp.value, ReportOf(old(Snapshot()), ds))
      ensures resp.None? ==> Snapshot() == old(Snapshot())
    {
      var stored := teams;
      var ok, inserted, reactivated, archived, changed := WriteTeams(ds);
      if !ok {
        teams := stored; // rollback
        return None;
      }
      var tally := WriteAllMembers(ds, known, reactivated);
      pending := ToSet(pend);
      ChangedIs(old(Snapshot()), ds);
      resp := Some(Response(inserted, |reactivated|, archived, tally.added, tally.removed,
                            if live > U32_MAX then U32_MAX else live, unknown, pend, changed + tally.changed));
    }

    method SyncTeams(ds: seq<Declared>) returns (resp: Option<Response>)
      requires Validated(ds)
      modifies this
      ensures Snapshot() == ServeSync(old(Snapshot()), ds).org
      ensures resp.Some? <==> ServeSync(old(Snapshot()), ds).report.Some?
      ensures resp.Some? ==> Says(resp.value, ServeSync(old(Snapshot()), ds).report.value)
    {
      var liveBefore := |LiveAdministrators(Snapshot())|;
      var known := KnownUsers(ds);
      var liveAfter, pend := Predict(ds, known, users);
      if liveBefore > 0 && liveAfter == 0 { return None; }
      var unknown := UnknownMembers(ds, known, pend);
      UnknownIs(ds, known, users, pend);
      resp := Apply(ds, known, pend, unknown, liveAfter);
    }

    // The whole RPC: a malformed request is refused before anything is read.
    method Sync(request: seq<Entry>) returns (resp: Option<Response>, refusal: Option<Status>)
      requires OrgValid(Snapshot())
      modifies this
      ensures OrgValid(Snapshot())
      ensures !RequestOk(request) ==> Snapshot() == old(Snapshot()) && refusal == Some(InvalidArgument)
      ensures RequestOk(request) ==>
                var ds := seq(|request|, i requires 0 <= i < |request| => DeclaredOf(request[i]));
                var reply := ServeSync(old(Snapshot()), ds);
                && Snapshot() == reply.org
                && (if reply.report.None? then refusal == Some(FailedPrecondition)
                    else refusal.None? && resp.Some? && Says(resp.value, reply.report.value))
    {
      var declared := Validate(request);
      if declared.None? { return None, Some(InvalidArgument); }
      SyncKeeps(Snapshot(), declared.value);
      resp := SyncTeams(declared.value);
      refusal := if resp.None? then Some(FailedPrecondition) else None;
    }

    // The bootstrap CreateUser, statement by statement.
    method CreateDeclaredUser(id: UserId, index: BlindIndex) returns (refusal: Option<Status>)
      requires OrgValid(Snapshot())
      modifies this
      ensures Reply(Snapshot(), refusal) == ServeBootstrap(old(Snapshot()), id, index)
      ensures OrgValid(Snapshot())
    {
      BootstrapKeeps(Snapshot(), id, index);
      if !CanonicalUserId(id) { return Some(InvalidArgument); }
      if ADMINISTRATORS !in teams || !teams[ADMINISTRATORS].live { return Some(PermissionDenied); }
      if |LiveAdministrators(Snapshot())| > 0 { return Some(PermissionDenied); }
      if id in users { return Some(AlreadyExists); }
      if id !in pending { return Some(PermissionDenied); }
      if exists u <- users :: users[u].index == index { return Some(AlreadyExists); }
      users := users[id := Person(true, false, index)];
      members := members + {Member(ADMINISTRATORS, id)};
      pending := {};
      return None;
    }

    // The minting CreateUser.
    method CreateUser(id: UserId, index: BlindIndex, admin: bool) returns (refusal: Option<Status>)
      requires OrgValid(Snapshot())
      modifies this
      ensures Reply(Snapshot(), refusal) == ServeMint(old(Snapshot()), id, index, admin)
      ensures OrgValid(Snapshot())
    {
      MintKeeps(Snapshot(), id, index, admin);
      if id in users || exists u <- users :: users[u].index == index { return Some(AlreadyExists); }
      users := users[id := Person(true, admin, index)];
      return None;
    }
  }
}
