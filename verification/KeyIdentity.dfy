/**
The key-identity marker: a row written once, by SetKeyIdentity on an empty store or by
AdoptKeyIdentity on evidence, and compared with for ever after.
*/
module KeyIdentity {
  import opened Wrappers
  import opened SetSizes
  import opened Identifiers
  import opened PrintedForms
  import opened KeysetWalks

  type Key = int // an idempotency key; `None` where the call carries none or the empty string
  newtype Byte = b: int | 0 <= b < 256

  const MAX_KEY_FINGERPRINT: nat := 255
  const MAX_EVIDENCE: nat := 64

  // What a caller presents, and what the singleton row holds.
  datatype Pair = Pair(fingerprint: seq<Byte>, version: nat)
  datatype Marker = Marker(pair: Pair, key: Option<Key>)

  datatype Outcome = Recorded | Match | Mismatch | DerivationSkew | Absent
  datatype Status = InvalidArgument | FailedPrecondition
  datatype Answer = Answered(outcome: Outcome) | Refused(status: Status)

  // A person's row: when it was created, in epoch seconds, and its id.
  datatype Store = Store(marker: Option<Marker>, users: set<Position>)
  datatype Reply = Reply(store: Store, answer: Answer)

  // ----------------------------------------------------------------------- comparing

  // The version first: under another derivation the fingerprints say nothing.
  function ComparedWith(stored: Pair, p: Pair): (o: Outcome)
    ensures o == Match <==> stored == p
    ensures o == DerivationSkew <==> stored.version != p.version
  {
    if stored.version != p.version then DerivationSkew
    else if stored.fingerprint == p.fingerprint then Match else Mismatch
  }

  predicate Presentable(p: Pair) {
    0 < |p.fingerprint| <= MAX_KEY_FINGERPRINT && p.version > 0
  }

  // A repeated key returns its original answer, or is refused; anything else is compared.
  function ReplayedOrCompared(stored: Marker, p: Pair, key: Option<Key>): Answer {
    if key.None? || key != stored.key then Answered(ComparedWith(stored.pair, p))
    else if stored.pair == p then Answered(Recorded) else Refused(InvalidArgument)
  }

  // -------------------------------------------------------------------------- evidence

  function TrimEnd(s: string): string {
    if s != "" && s[|s| - 1] == ' ' then TrimEnd(s[..|s| - 1]) else s
  }

  // The key under which the evidence check takes two ids for the same row: trailing spaces
  // trimmed, then lowered. `lower` is Unicode lower-casing.
  function SameRow(lower: string -> string): string -> string {
    (id: string) => lower(TrimEnd(id))
  }

  predicate PlainLower(s: string) {
    forall i | 0 <= i < |s| :: s[i] < 128 as char && !('A' <= s[i] <= 'Z')
  }

  // All that is used of it: it leaves ASCII text without capitals as it is.
  ghost predicate Lowers(lower: string -> string) {
    forall s: string :: PlainLower(s) ==> lower(s) == s
  }

  // ON CANONICAL IDS THE FOLD IS THE IDENTITY, so folded and byte equality agree on them.
  lemma SameRowOfCanonical(lower: string -> string, id: UserId)
    requires Lowers(lower) && CanonicalUserId(id)
    ensures SameRow(lower)(id.text) == id.text
  {
    var s, k := id.text, |USER_PREFIX|;
    var uuid := s[k..];
    forall i | 0 <= i < |s| ensures s[i] < 128 as char && !('A' <= s[i] <= 'Z') && (i == |s| - 1 ==> s[i] != ' ') {
      if i < k {
        assert s[..k][i] == s[i] == USER_PREFIX[i];
      } else {
        assert s[i] == uuid[i - k];
        assert uuid[i - k] == '-' || LowerHex(uuid[i - k]);
      }
    }
    assert PlainLower(s) && TrimEnd(s) == s;
  }

  ghost predicate DistinctUnder(fold: string -> string, ids: seq<string>) {
    forall i, j | 0 <= i < j < |ids| :: fold(ids[i]) != fold(ids[j])
  }

  ghost predicate EvidenceOk(lower: string -> string, ids: seq<string>) {
    0 < |ids| <= MAX_EVIDENCE && DistinctUnder(SameRow(lower), ids)
  }

  // The rules on the evidence that read no table: some, not too many, no id twice.
  method CheckEvidence(lower: string -> string, ids: seq<string>) returns (ok: bool)
    ensures ok <==> EvidenceOk(lower, ids)
  {
    if |ids| == 0 || |ids| > MAX_EVIDENCE { return false; }
    var fold := SameRow(lower);
    var seen: set<string> := {};
    for j := 0 to |ids|
      invariant forall a, b | 0 <= a < b < j :: fold(ids[a]) != fold(ids[b])
      invariant forall k :: k in seen <==> exists a | 0 <= a < j :: fold(ids[a]) == k
    {
      if fold(ids[j]) in seen { return false; }
      seen := seen + {fold(ids[j])};
    }
    return true;
  }

  function Folds(fold: string -> string, ids: seq<string>): set<string> {
    set i | 0 <= i < |ids| :: fold(ids[i])
  }

  function IdsOf(page: seq<Position>): seq<string> {
    seq(|page|, i requires 0 <= i < |page| => page[i].id)
  }

  // How many rows of `oldest` the evidence names, as the INSERT's predicate counts them.
  function Named(fold: string -> string, oldest: seq<Position>, ids: seq<string>): set<int> {
    set i | 0 <= i < |oldest| && fold(oldest[i].id) in Folds(fold, ids)
  }

  lemma OneMoreFold(fold: string -> string, ids: seq<string>, n: nat)
    requires |ids| == n + 1
    ensures Folds(fold, ids) == Folds(fold, ids[..n]) + {fold(ids[n])}
  {
    var front := ids[..n];
    forall k | k in Folds(fold, front) ensures k in Folds(fold, ids) {
      var i :| 0 <= i < n && fold(front[i]) == k;
      assert fold(ids[i]) == k;
    }
    forall k | k in Folds(fold, ids) ensures k in Folds(fold, front) + {fold(ids[n])} {
      var i :| 0 <= i <= n && fold(ids[i]) == k;
      if i < n { assert fold(front[i]) == k; }
    }
  }

  lemma {:induction false} FoldsCount(fold: string -> string, ids: seq<string>)
    ensures |Folds(fold, ids)| <= |ids|
    ensures DistinctUnder(fold, ids) ==> |Folds(fold, ids)| == |ids|
  {
    if ids != [] {
      var n := |ids| - 1;
      FoldsCount(fold, ids[..n]);
      OneMoreFold(fold, ids, n);
      if DistinctUnder(fold, ids) { assert fold(ids[n]) !in Folds(fold, ids[..n]); }
    }
  }

  predicate Below(i: int, n: nat) {
    0 <= i < n
  }

  function Upto(n: nat): set<int> {
    set i | 0 <= i < n && Below(i, n)
  }

  lemma {:induction false} UptoCount(n: nat)
    ensures |Upto(n)| == n
  {
    if n > 0 {
      UptoCount(n - 1);
      assert Upto(n) == Upto(n - 1) + {n - 1};
    }
  }

  // ADOPTION BY COUNTING IS SET EQUALITY. Take a list of N ids and at most N rows, no two rows
  // with ids the column calls equal. N of the rows are in the list exactly when there are N of
  // them and the list is theirs. Two ids of the list may be one to the column.
  lemma CountingIsSetEquality(column: string -> string, oldest: seq<Position>, ids: seq<string>)
    requires DistinctUnder(column, IdsOf(oldest)) && |oldest| <= |ids|
    ensures |Named(column, oldest, ids)| == |ids| <==> AreTheRows(column, oldest, ids)
  {
    var rows, list := Folds(column, IdsOf(oldest)), Folds(column, ids);
    FoldsCount(column, ids);
    FoldsCount(column, IdsOf(oldest));
    UptoCount(|oldest|);
    assert Named(column, oldest, ids) <= Upto(|oldest|);
    SubsetSize(Named(column, oldest, ids), Upto(|oldest|));
    if |Named(column, oldest, ids)| == |ids| {
      forall k | k in rows ensures k in list {
        var i :| 0 <= i < |oldest| && column(IdsOf(oldest)[i]) == k;
        assert i in Upto(|oldest|);
      }
      SubsetSize(rows, list);
    }
    if rows == list {
      forall i | i in Upto(|oldest|) ensures i in Named(column, oldest, ids) {
        assert column(IdsOf(oldest)[i]) in rows;
      }
      assert Named(column, oldest, ids) == Upto(|oldest|);
    }
  }

  // The ids name exactly those rows, all |ids| of them.
  ghost predicate AreTheRows(column: string -> string, oldest: seq<Position>, ids: seq<string>) {
    |oldest| == |ids| && Folds(column, IdsOf(oldest)) == Folds(column, ids)
  }

  // --------------------------------------------------------------------------- the calls

  datatype Call =
    | Set(pair: Pair, key: Option<Key>)
    | Adopt(pair: Pair, key: Option<Key>, ids: seq<string>)
    | Get(pair: Pair)
    | CreateUser(row: Position)

  // The marker is there to compare with, or the recording is refused.
  function Compared(s: Store, p: Pair, key: Option<Key>): Reply {
    if s.marker.Some? then Reply(s, ReplayedOrCompared(s.marker.value, p, key)) else Reply(s, Refused(FailedPrecondition))
  }

  function Written(s: Store, p: Pair, key: Option<Key>): Reply {
    Reply(s.(marker := Some(Marker(p, key))), Answered(Recorded))
  }

  function ServeSet(s: Store, p: Pair, key: Option<Key>): Reply {
    if !Presentable(p) then Reply(s, Refused(InvalidArgument))
    else if s.marker.None? && s.users == {} then Written(s, p, key)
    else Compared(s, p, key)
  }

  // How ids compare: as the evidence check folds them, and as the column does.
  datatype Compare = Compare(lower: string -> string, column: string -> string)

  // `oldest` is the |ids| oldest rows.
  ghost function ServeAdopt(how: Compare, s: Store, p: Pair, key: Option<Key>, ids: seq<string>, oldest: seq<Position>): Reply {
    if !Presentable(p) || !EvidenceOk(how.lower, ids) then Reply(s, Refused(InvalidArgument))
    else if s.marker.None? && AreTheRows(how.column, oldest, ids) then Written(s, p, key)
    else Compared(s, p, key)
  }

  function ServeGet(s: Store, p: Pair): Answer {
    if !Presentable(p) then Refused(InvalidArgument)
    else if s.marker.Some? then Answered(ComparedWith(s.marker.value.pair, p)) else Answered(Absent)
  }

  // The table's order and its primary key: no two rows whose ids the column calls equal.
  ghost predicate RowsDistinct(column: string -> string, users: set<Position>) {
    forall p <- users, q <- users :: column(p.id) == column(q.id) ==> p == q
  }

  ghost predicate OldestRows(less: (Position, Position) -> bool, users: set<Position>, n: int, oldest: seq<Position>) {
    IsPage(less, users, None, n, oldest)
  }

  lemma OldestDistinct(column: string -> string, less: (Position, Position) -> bool, users: set<Position>, n: int, oldest: seq<Position>)
    requires Order(less) && RowsDistinct(column, users) && OldestRows(less, users, n, oldest)
    ensures DistinctUnder(column, IdsOf(oldest))
  {
    forall i, j | 0 <= i < j < |oldest| ensures column(IdsOf(oldest)[i]) != column(IdsOf(oldest)[j]) {
      assert less(oldest[i], oldest[j]);
      assert oldest[i] in users && oldest[j] in users;
    }
  }

  // --------------------------------------------------------------------- the store itself

  class KeyStore {
    var marker: Option<Marker>
    var users: set<Position>

    function Snapshot(): Store
      reads this
    {
      Store(marker, users)
    }

    // The INSERT decided, or it decided nothing and the marker is read again.
    method OutcomeOf(wrote: bool, p: Pair, key: Option<Key>) returns (a: Option<Answer>)
      ensures wrote ==> a == Some(Answered(Recorded))
      ensures !wrote ==> a == if marker.Some? then Some(ReplayedOrCompared(marker.value, p, key)) else None
    {
      if wrote { return Some(Answered(Recorded)); }
      if marker.None? { return None; }
      return Some(ReplayedOrCompared(marker.value, p, key));
    }

    method SetKeyIdentity(p: Pair, key: Option<Key>) returns (a: Answer)
      modifies this
      ensures Reply(Snapshot(), a) == ServeSet(old(Snapshot()), p, key)
    {
      if !Presentable(p) { return Refused(InvalidArgument); }
      var wrote := false;
      // No row selected, or the singleton key taken: nothing written either way.
      if users == {} && marker.None? {
        marker, wrote := Some(Marker(p, key)), true;
      }
      var outcome := OutcomeOf(wrote, p, key);
      if outcome.None? { return Refused(FailedPrecondition); }
      return outcome.value;
    }

    // `oldest` is what the INSERT's derived table selects: the |ids| oldest rows.
    method AdoptKeyIdentity(how: Compare, p: Pair, key: Option<Key>, ids: seq<string>, oldest: seq<Position>,
                            ghost less: (Position, Position) -> bool) returns (a: Answer)
      requires Order(less) && RowsDistinct(how.column, users) && (EvidenceOk(how.lower, ids) ==> OldestRows(less, users, |ids|, oldest))
      modifies this
      ensures Reply(Snapshot(), a) == ServeAdopt(how, old(Snapshot()), p, key, ids, oldest)
    {
      if !Presentable(p) { return Refused(InvalidArgument); }
      var ok := CheckEvidence(how.lower, ids);
      if !ok { return Refused(InvalidArgument); }
      OldestDistinct(how.column, less, users, |ids|, oldest);
      CountingIsSetEquality(how.column, oldest, ids);
      var count := |Named(how.column, oldest, ids)|;
      var wrote := false;
      if count == |ids| && marker.None? {
        marker, wrote := Some(Marker(p, key)), true;
      }
      var outcome := OutcomeOf(wrote, p, key);
      if outcome.None? { return Refused(FailedPrecondition); }
      return outcome.value;
    }

    method GetKeyIdentity(p: Pair) returns (a: Answer)
      ensures a == ServeGet(Snapshot(), p)
    {
      if !Presentable(p) { return Refused(InvalidArgument); }
      if marker.None? { return Answered(Absent); }
      return Answered(ComparedWith(marker.value.pair, p));
    }
  }

  // ----------------------------------------------------------------------------- whole runs

  // How the store compares ids and orders rows.
  datatype World = World(how: Compare, less: (Position, Position) -> bool)

  // `oldest` is what the derived table of the call selects, when it is an adoption.
  ghost predicate Step(w: World, s: Store, c: Call, oldest: seq<Position>, s': Store) {
    match c
    case Set(p, key) => s' == ServeSet(s, p, key).store
    case Adopt(p, key, ids) =>
      && (EvidenceOk(w.how.lower, ids) ==> OldestRows(w.less, s.users, |ids|, oldest))
      && s' == ServeAdopt(w.how, s, p, key, ids, oldest).store
    case Get(_) => s' == s
    case CreateUser(row) => s' == s.(users := s.users + {row})
  }

  ghost predicate Run(w: World, states: seq<Store>, calls: seq<Call>, oldests: seq<seq<Position>>) {
    && |states| == |calls| + 1 && |oldests| == |calls|
    && forall i | 0 <= i < |calls| :: Step(w, states[i], calls[i], oldests[i], states[i + 1])
  }

  // WRITE ONCE. A marker once stored is the marker of every later state.
  lemma {:induction false} MarkerIsPermanent(w: World, states: seq<Store>, calls: seq<Call>, oldests: seq<seq<Position>>, i: nat, j: nat)
    requires Run(w, states, calls, oldests) && i <= j < |states| && states[i].marker.Some?
    ensures states[j].marker == states[i].marker
    decreases j
  {
    if i < j {
      MarkerIsPermanent(w, states, calls, oldests, i, j - 1);
      assert Step(w, states[j - 1], calls[j - 1], oldests[j - 1], states[j]);
    }
  }

  // What a recording call answers.
  ghost function RecordAnswer(w: World, s: Store, c: Call, oldest: seq<Position>): Answer
    requires c.Set? || c.Adopt?
  {
    if c.Set? then ServeSet(s, c.pair, c.key).answer else ServeAdopt(w.how, s, c.pair, c.key, c.ids, oldest).answer
  }

  // A RECORDED ANSWER IS THE TRUTH FOR EVER: the pair a Set or an Adopt was told it recorded is
  // the one stored in every later state, and presenting it again, anywhere later, matches.
  lemma RecordedIsStored(w: World, states: seq<Store>, calls: seq<Call>, oldests: seq<seq<Position>>, i: nat, j: nat)
    requires Run(w, states, calls, oldests) && i < j < |states| && (calls[i].Set? || calls[i].Adopt?)
    requires RecordAnswer(w, states[i], calls[i], oldests[i]) == Answered(Recorded)
    ensures states[j].marker.Some? && states[j].marker.value.pair == calls[i].pair
    ensures ServeGet(states[j], calls[i].pair) == Answered(Match)
  {
    assert Step(w, states[i], calls[i], oldests[i], states[i + 1]);
    MarkerIsPermanent(w, states, calls, oldests, i + 1, j);
  }

  // The column tells canonical ids apart.
  ghost predicate TellsApart(column: string -> string) {
    forall a: UserId, b: UserId | CanonicalUserId(a) && CanonicalUserId(b) && column(a.text) == column(b.text) :: a == b
  }

  lemma FoldedSubset(column: string -> string, a: seq<string>, b: seq<string>)
    requires TellsApart(column)
    requires forall i | 0 <= i < |a| :: CanonicalUserId(UserId(a[i]))
    requires forall i | 0 <= i < |b| :: CanonicalUserId(UserId(b[i]))
    ensures Folds(column, a) <= Folds(column, b) <==> forall i | 0 <= i < |a| :: a[i] in b
  {
    if Folds(column, a) <= Folds(column, b) {
      forall i | 0 <= i < |a| ensures a[i] in b {
        assert column(a[i]) in Folds(column, b);
        var j :| 0 <= j < |b| && column(b[j]) == column(a[i]);
        assert UserId(a[i]) == UserId(b[j]);
      }
    }
    if forall i | 0 <= i < |a| :: a[i] in b {
      forall k | k in Folds(column, a) ensures k in Folds(column, b) {
        var i :| 0 <= i < |a| && column(a[i]) == k;
        var j :| 0 <= j < |b| && b[j] == a[i];
      }
    }
  }

  // AN ADOPTION NAMES THE OLDEST ROWS: over canonical ids, an unmarked store records one exactly
  // when there are N oldest rows and their ids are the ids given, byte for byte.
  lemma AdoptionExactly(w: World, s: Store, p: Pair, key: Option<Key>, ids: seq<string>, oldest: seq<Position>)
    requires TellsApart(w.how.column) && OldestRows(w.less, s.users, |ids|, oldest)
    requires s.marker.None? && Presentable(p) && EvidenceOk(w.how.lower, ids)
    requires forall i | 0 <= i < |ids| :: CanonicalUserId(UserId(ids[i]))
    requires forall i | 0 <= i < |oldest| :: CanonicalUserId(UserId(IdsOf(oldest)[i]))
    ensures ServeAdopt(w.how, s, p, key, ids, oldest).store.marker.Some? <==>
              && |oldest| == |ids|
              && (forall i | 0 <= i < |ids| :: ids[i] in IdsOf(oldest))
              && (forall i | 0 <= i < |oldest| :: IdsOf(oldest)[i] in ids)
  {
    FoldedSubset(w.how.column, ids, IdsOf(oldest));
    FoldedSubset(w.how.column, IdsOf(oldest), ids);
  }
}
