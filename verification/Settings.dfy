/**
SetInheritedSetting: one setting, an organisation level and a level per team, written under
an idempotency key that is bound for ever to the request that first used it.
*/
module Settings {
  import opened Wrappers
  import opened Identifiers

  type Key = int // an idempotency key; `None` where the call carries none or the empty string

  // The vocabulary of names is closed.
  datatype Name = OwnerReadsOwnRecord | Undeclared(text: string)

  const UNSPECIFIED: int := 0
  const ORG: int := 1
  const TEAM: int := 2

  // The request as it arrives: numbers not yet known to name anything, fields that may be absent.
  // A claim is the same fields, so this is also a row of the ledger.
  datatype Request = Request(
    scope: int, team: Option<TeamId>, name: Name, value: Option<int>, locked: Option<bool>, clear: bool)

  datatype OrgSetting = OrgSetting(value: int, locked: bool)
  datatype Place = Place(name: Name, team: TeamId)

  datatype Store = Store(
    org: map<Name, OrgSetting>, overrides: map<Place, int>, teams: map<TeamId, bool>, claims: map<Key, Request>)

  datatype Status = InvalidArgument | NotFound | Unavailable

  // Both levels of one setting, as they stand.
  datatype Inherited = Inherited(orgValue: int, orgLocked: bool, overrides: map<TeamId, int>)

  datatype Answer = Current(setting: Inherited) | Refused(status: Status)
  datatype Reply = Reply(store: Store, answer: Answer)

  // ------------------------------------------------------------------------ validation

  // Branch by branch, as the service checks; true when none refuses.
  predicate Accepted(r: Request) {
    if r.scope == ORG then
      if r.team.Some? then false
      else if r.locked.None? then false
      else if r.clear then false
      else ValueAccepted(r)
    else if r.scope == TEAM then
      if r.team.None? || r.team.value.text == "" then false
      else if r.locked.Some? then false
      else ValueAccepted(r)
    else false
  }

  predicate ValueAccepted(r: Request) {
    if r.value == Some(UNSPECIFIED) then false
    else if r.value.None? && !r.clear then false
    else if r.clear && r.value.Some? then false
    else r.name == OwnerReadsOwnRecord
  }

  // The three requests there are.
  ghost predicate OrgWrite(r: Request) {
    exists value, locked :: value != UNSPECIFIED
      && r == Request(ORG, None, OwnerReadsOwnRecord, Some(value), Some(locked), false)
  }

  ghost predicate TeamWrite(r: Request) {
    exists team: TeamId, value :: team.text != "" && value != UNSPECIFIED
      && r == Request(TEAM, Some(team), OwnerReadsOwnRecord, Some(value), None, false)
  }

  ghost predicate TeamClear(r: Request) {
    exists team: TeamId :: team.text != "" && r == Request(TEAM, Some(team), OwnerReadsOwnRecord, None, None, true)
  }

  // VALIDATION ADMITS EXACTLY THREE SHAPES, each with every field the later writes read.
  lemma AcceptedExactly(r: Request)
    ensures Accepted(r) <==> OrgWrite(r) || TeamWrite(r) || TeamClear(r)
  {
    if Accepted(r) {
      if r.scope == ORG {
        var value: int, locked: bool := r.value.value, r.locked.value;
        assert r == Request(ORG, None, OwnerReadsOwnRecord, Some(value), Some(locked), false);
      } else if r.clear {
        assert r == Request(TEAM, Some(r.team.value), OwnerReadsOwnRecord, None, None, true);
      } else {
        var value: int := r.value.value;
        assert r == Request(TEAM, Some(r.team.value), OwnerReadsOwnRecord, Some(value), None, false);
      }
    }
  }

  // -------------------------------------------------------------------- what a store keeps

  predicate Storable(value: int) {
    value == 1 || value == 2
  }

  // The two CHECK constraints, the foreign key, and what validation adds to them.
  ghost predicate StoreValid(s: Store) {
    && (forall n <- s.org :: Storable(s.org[n].value))
    && (forall p <- s.overrides :: Storable(s.overrides[p]) && p.team in s.teams && p.team.text != "")
    && (forall k <- s.claims :: Accepted(s.claims[k]))
  }

  // ------------------------------------------------------------------------------ writing

  function PlaceOf(r: Request): Place
    requires r.team.Some?
  {
    Place(r.name, r.team.value)
  }

  predicate LiveTeam(s: Store, t: TeamId) {
    t in s.teams && s.teams[t]
  }

  // Why the write at the request's scope fails, if it does.
  function WriteFailure(s: Store, r: Request): Option<Status>
    requires Accepted(r)
  {
    if r.scope == TEAM && !r.clear && !LiveTeam(s, r.team.value) then Some(NotFound)
    else if !r.clear && !Storable(r.value.value) then Some(Unavailable)
    else None
  }

  function Written(s: Store, r: Request): Store
    requires Accepted(r)
  {
    if r.scope == ORG then s.(org := s.org[r.name := OrgSetting(r.value.value, r.locked.value)])
    else if r.clear then s.(overrides := s.overrides - {PlaceOf(r)})
    else s.(overrides := s.overrides[PlaceOf(r) := r.value.value])
  }

  function Claimed(s: Store, key: Option<Key>, r: Request): Store {
    if key.None? then s else s.(claims := s.claims[key.value := r])
  }

  function ReadBack(s: Store, name: Name): Inherited {
    var org := if name in s.org then s.org[name] else OrgSetting(UNSPECIFIED, false);
    Inherited(org.value, org.locked,
              map p | p in s.overrides && p.name == name :: p.team := s.overrides[p])
  }

  predicate Recorded(s: Store, key: Option<Key>) {
    key.Some? && key.value in s.claims
  }

  function Serve(s: Store, key: Option<Key>, r: Request): Reply {
    if !Accepted(r) then Reply(s, Refused(InvalidArgument))
    else if Recorded(s, key) then
      Reply(s, if s.claims[key.value] == r then Current(ReadBack(s, r.name)) else Refused(InvalidArgument))
    else if WriteFailure(s, r).Some? then Reply(s, Refused(WriteFailure(s, r).value))
    else
      var s' := Claimed(Written(s, r), key, r);
      Reply(s', Current(ReadBack(s', r.name)))
  }

  // What the caller reads back is what it asked for.
  lemma ReadsOwnWrite(s: Store, key: Option<Key>, r: Request)
    requires Accepted(r) && !Recorded(s, key) && WriteFailure(s, r).None?
    ensures var a := Serve(s, key, r).answer;
            && a.Current?
            && (r.scope == ORG ==> a.setting.orgValue == r.value.value && a.setting.orgLocked == r.locked.value)
            && (r.scope == TEAM && r.clear ==> r.team.value !in a.setting.overrides)
            && (r.scope == TEAM && !r.clear ==> r.team.value in a.setting.overrides && a.setting.overrides[r.team.value] == r.value.value)
  {
    var s' := Claimed(Written(s, r), key, r);
    if r.scope == TEAM && !r.clear { assert PlaceOf(r) in s'.overrides; }
  }

  // Nothing but the row asked for and the ledger changes.
  ghost predicate OnlyRow(s: Store, s': Store, r: Request)
    requires Accepted(r)
  {
    && s'.teams == s.teams
    && (forall n | r.scope != ORG || n != r.name :: (n in s'.org <==> n in s.org) && (n in s.org ==> s'.org[n] == s.org[n]))
    && (forall p | r.scope == ORG || p != Place(r.name, r.team.value) ::
          (p in s'.overrides <==> p in s.overrides) && (p in s.overrides ==> s'.overrides[p] == s.overrides[p]))
  }

  // THE ROW, AND NO OTHER. A write that is not refused leaves the row it names as asked, every
  // other row of both levels as it was, and its key bound to it.
  lemma WriteIsDescribed(s: Store, key: Option<Key>, r: Request)
    requires Accepted(r) && !(key.Some? && key.value in s.claims) && Serve(s, key, r).answer.Current?
    ensures var s' := Serve(s, key, r).store;
            && OnlyRow(s, s', r)
            && (r.scope == ORG ==> r.name in s'.org && s'.org[r.name] == OrgSetting(r.value.value, r.locked.value))
            && (r.scope != ORG && r.clear ==> Place(r.name, r.team.value) !in s'.overrides)
            && (r.scope != ORG && !r.clear ==>
                  Place(r.name, r.team.value) in s'.overrides && s'.overrides[Place(r.name, r.team.value)] == r.value.value)
            && s'.claims == (if key.Some? then s.claims[key.value := r] else s.claims)
  {
  }

  // REFUSED EXACTLY: a malformed request, a key bound to another, an override for a team that is
  // not live, or a value the columns do not hold; and then nothing changes.
  lemma RefusedExactly(s: Store, key: Option<Key>, r: Request)
    ensures var reply := Serve(s, key, r);
            var recorded := key.Some? && key.value in s.claims;
            && (reply.answer.Refused? ==> reply.store == s)
            && (reply.answer == Refused(NotFound) <==>
                  && Accepted(r) && !recorded && r.scope == 2 && !r.clear
                  && (r.team.value !in s.teams || !s.teams[r.team.value]))
            && (reply.answer == Refused(Unavailable) <==>
                  && Accepted(r) && !recorded && !r.clear && r.value.value != 1 && r.value.value != 2
                  && (r.scope == 2 ==> r.team.value in s.teams && s.teams[r.team.value]))
            && (reply.answer == Refused(InvalidArgument) <==> !Accepted(r) || (recorded && s.claims[key.value] != r))
  {
    if key.Some? { var k: Key := key.value; }
  }

  // What is read back is what is stored, both levels: the organisation's value and lock, or
  // unspecified and unlocked; and of each team exactly its override.
  lemma ReadBackExactly(s: Store, name: Name, t: TeamId)
    ensures var b := ReadBack(s, name);
            && (name in s.org ==> b.orgValue == s.org[name].value && b.orgLocked == s.org[name].locked)
            && (name !in s.org ==> b.orgValue == 0 && !b.orgLocked)
            && (t in b.overrides <==> Place(name, t) in s.overrides)
            && (t in b.overrides ==> b.overrides[t] == s.overrides[Place(name, t)])
  {
    if Place(name, t) in s.overrides { assert Place(name, t).name == name; }
  }

  // ---------------------------------------------------------------------------- whole runs

  datatype Call = SetSetting(key: Option<Key>, request: Request) | InsertTeam(team: TeamId) | MarkTeam(team: TeamId, live: bool)

  function After(s: Store, c: Call): Store {
    match c
    case SetSetting(key, r) => Serve(s, key, r).store
    case InsertTeam(t) => if t in s.teams then s else s.(teams := s.teams[t := true])
    case MarkTeam(t, live) => if t in s.teams then s.(teams := s.teams[t := live]) else s
  }

  ghost predicate Run(states: seq<Store>, calls: seq<Call>) {
    && |states| == |calls| + 1 && StoreValid(states[0])
    && forall i | 0 <= i < |calls| :: states[i + 1] == After(states[i], calls[i])
  }

  // What every step does to the ledger: it only grows.
  ghost predicate LedgerLater(a: Store, b: Store) {
    forall k <- a.claims :: k in b.claims && b.claims[k] == a.claims[k]
  }

  lemma WriteKeeps(s: Store, key: Option<Key>, r: Request)
    requires StoreValid(s) && Accepted(r) && WriteFailure(s, r).None?
    ensures StoreValid(Claimed(Written(s, r), key, r))
  {
  }

  lemma StepKeeps(s: Store, c: Call)
    requires StoreValid(s)
    ensures StoreValid(After(s, c)) && LedgerLater(s, After(s, c))
  {
    if c.SetSetting? && Accepted(c.request) && WriteFailure(s, c.request).None? { WriteKeeps(s, c.key, c.request); }
  }

  lemma {:induction false} RunKeeps(states: seq<Store>, calls: seq<Call>, i: nat, j: nat)
    requires Run(states, calls) && i <= j < |states|
    ensures StoreValid(states[j]) && LedgerLater(states[i], states[j])
    decreases j
  {
    if i < j {
      RunKeeps(states, calls, i, j - 1);
      StepKeeps(states[j - 1], calls[j - 1]);
    } else if j > 0 {
      RunKeeps(states, calls, j - 1, j - 1);
      StepKeeps(states[j - 1], calls[j - 1]);
    }
  }

  // A request was answered, under a key: then and ever after the key is that request's.
  lemma AnsweredIsBound(states: seq<Store>, calls: seq<Call>, i: nat, j: nat)
    requires Run(states, calls) && i < j < |states| && calls[i].SetSetting? && calls[i].key.Some?
    requires Serve(states[i], calls[i].key, calls[i].request).answer.Current?
    ensures calls[i].key.value in states[j].claims && states[j].claims[calls[i].key.value] == calls[i].request
  {
    var k: Key := calls[i].key.value;
    assert states[i + 1] == After(states[i], calls[i]);
    assert k in states[i + 1].claims && states[i + 1].claims[k] == calls[i].request;
    RunKeeps(states, calls, i + 1, j);
  }

  // A KEY IS BOUND TO ONE REQUEST FOR EVER, and using it again changes nothing: of two calls
  // under one key in a run, if the earlier was answered, the later leaves the store as it is,
  // and is answered exactly when it is the same request.
  lemma KeyBoundForEver(states: seq<Store>, calls: seq<Call>, i: nat, j: nat)
    requires Run(states, calls) && i < j < |calls| && calls[i].SetSetting? && calls[j].SetSetting?
    requires calls[i].key.Some? && calls[j].key == calls[i].key
    requires Serve(states[i], calls[i].key, calls[i].request).answer.Current?
    ensures states[j + 1] == states[j]
    ensures Serve(states[j], calls[j].key, calls[j].request).answer.Current? <==> calls[j].request == calls[i].request
  {
    AnsweredIsBound(states, calls, i, j);
    RunKeeps(states, calls, j, j);
    assert states[j + 1] == After(states[j], calls[j]);
  }

  // ------------------------------------------------------------------- the store itself

  class SettingStore {
    var org: map<Name, OrgSetting>
    var overrides: map<Place, int>
    var teams: map<TeamId, bool>
    var claims: map<Key, Request>

    function Snapshot(): Store
      reads this
    {
      Store(org, overrides, teams, claims)
    }

    // Whether the key has a ledger row; a row of another request is a refusal.
    method AlreadyRecorded(key: Option<Key>, r: Request) returns (found: bool, refusal: Option<Status>)
      ensures found <==> Recorded(Snapshot(), key) && claims[key.value] == r
      ensures refusal == if Recorded(Snapshot(), key) && claims[key.value] != r then Some(InvalidArgument) else None
    {
      if key.None? || key.value !in claims { return false, None; }
      if claims[key.value] != r { return false, Some(InvalidArgument); }
      return true, None;
    }

    // INSERT ... SELECT from the live team; no row selected is then a missing team.
    method SetTeamOverride(r: Request) returns (refusal: Option<Status>)
      requires Accepted(r) && r.scope == TEAM && !r.clear
      modifies this`overrides
      ensures refusal == WriteFailure(old(Snapshot()), r)
      ensures Snapshot() == if refusal.None? then Written(old(Snapshot()), r) else old(Snapshot())
    {
      var team, value := r.team.value, r.value.value;
      if team !in teams || !teams[team] { return Some(NotFound); }
      if value != 1 && value != 2 { return Some(Unavailable); }
      overrides := overrides[Place(r.name, team) := value];
      return None;
    }

    method WriteAtScope(r: Request) returns (refusal: Option<Status>)
      requires Accepted(r)
      modifies this`org, this`overrides
      ensures refusal == WriteFailure(old(Snapshot()), r)
      ensures Snapshot() == if refusal.None? then Written(old(Snapshot()), r) else old(Snapshot())
    {
      if r.scope == ORG {
        var value, locked := r.value.value, r.locked.value;
        if value != 1 && value != 2 { return Some(Unavailable); }
        org := org[r.name := OrgSetting(value, locked)];
      } else if r.clear {
        overrides := overrides - {Place(r.name, r.team.value)};
      } else {
        refusal := SetTeamOverride(r);
        return;
      }
      return None;
    }

    // The ledger row, unless the key is already there, when its request must agree.
    method RecordClaim(key: Option<Key>, r: Request) returns (refusal: Option<Status>)
      modifies this`claims
      ensures Recorded(old(Snapshot()), key) ==> claims == old(claims)
      ensures Recorded(old(Snapshot()), key) ==> (refusal.None? <==> claims[key.value] == r)
      ensures !Recorded(old(Snapshot()), key) ==> refusal.None? && Snapshot() == Claimed(old(Snapshot()), key, r)
    {
      if key.Some? {
        if key.value in claims {
          if claims[key.value] != r { return Some(InvalidArgument); }
        } else {
          claims := claims[key.value := r];
        }
      }
      return None;
    }

    method StoreSetting(key: Option<Key>, r: Request) returns (a: Answer)
      requires StoreValid(Snapshot())
      modifies this
      ensures Reply(Snapshot(), a) == Serve(old(Snapshot()), key, r)
      ensures StoreValid(Snapshot())
    {
      StepKeeps(Snapshot(), SetSetting(key, r));
      if !Accepted(r) { return Refused(InvalidArgument); }
      var found, refusal := AlreadyRecorded(key, r);
      if refusal.Some? { return Refused(refusal.value); }
      if !found {
        refusal := WriteAtScope(r);
        if refusal.Some? { return Refused(refusal.value); }
        refusal := RecordClaim(key, r);
      }
      return Current(ReadBack(Snapshot(), r.name));
    }
  }
}
