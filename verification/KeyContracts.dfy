/**
The recording calls told from the store before and after, and where a marker can come from.
*/
module KeyContracts {
  import opened Wrappers
  import opened Identifiers
  import opened PrintedForms
  import opened KeysetWalks
  import opened KeyIdentity

  // What a call meets that finds a marker: its own recording replayed, its key refused to any
  // other pair, or the comparison, version first.
  ghost predicate ToldOf(m: Marker, p: Pair, key: Option<Key>, a: Answer) {
    if key.Some? && key == m.key then
      a == if p.fingerprint == m.pair.fingerprint && p.version == m.pair.version then Answered(Recorded) else Refused(InvalidArgument)
    else if p.version != m.pair.version then a == Answered(DerivationSkew)
    else a == Answered(if p.fingerprint == m.pair.fingerprint then Match else Mismatch)
  }

  // A fingerprint of 1 to 255 bytes under a version that is not zero.
  ghost predicate WellPresented(p: Pair) {
    1 <= |p.fingerprint| <= 255 && p.version >= 1
  }

  // A SET WRITES EXACTLY ON AN EMPTY, UNMARKED STORE. On an unmarked store with a user it is
  // refused, on a marked one it is told of the marker, and either way nothing changes.
  lemma SetExactly(s: Store, p: Pair, key: Option<Key>)
    ensures var r := ServeSet(s, p, key);
            && (r.store != s <==> WellPresented(p) && s.marker.None? && s.users == {})
            && (r.store != s ==> r == Reply(Store(Some(Marker(p, key)), {}), Answered(Recorded)))
            && (!WellPresented(p) ==> r.answer == Refused(InvalidArgument))
            && (WellPresented(p) && s.marker.None? && s.users != {} ==> r.answer == Refused(FailedPrecondition))
            && (WellPresented(p) && s.marker.Some? ==> ToldOf(s.marker.value, p, key, r.answer))
  {
  }

  // AN ADOPTION WRITES EXACTLY when no marker is stored and its evidence, 1 to 64 ids no two of
  // which fold alike, names the oldest rows, one each; otherwise nothing changes.
  lemma AdoptExactly(how: Compare, s: Store, p: Pair, key: Option<Key>, ids: seq<string>, oldest: seq<Position>)
    ensures var r := ServeAdopt(how, s, p, key, ids, oldest);
            var formed := WellPresented(p) && 1 <= |ids| <= 64 && DistinctUnder(SameRow(how.lower), ids);
            var named := |oldest| == |ids| && Folds(how.column, IdsOf(oldest)) == Folds(how.column, ids);
            && (r.store != s <==> formed && s.marker.None? && named)
            && (r.store != s ==> r == Reply(Store(Some(Marker(p, key)), s.users), Answered(Recorded)))
            && (!formed ==> r.answer == Refused(InvalidArgument))
            && (formed && s.marker.None? && !named ==> r.answer == Refused(FailedPrecondition))
            && (formed && s.marker.Some? ==> ToldOf(s.marker.value, p, key, r.answer))
  {
  }

  lemma GetExactly(s: Store, p: Pair)
    ensures var a := ServeGet(s, p);
            if !WellPresented(p) then a == Refused(InvalidArgument)
            else if s.marker.None? then a == Answered(Absent)
            else ToldOf(s.marker.value, p, None, a)
  {
  }

  // Call `c` recorded the marker `m`: a Set while there was no user, or an adoption whose ids are
  // those of the oldest rows.
  ghost predicate RecordedBy(w: World, s: Store, c: Call, oldest: seq<Position>, m: Marker) {
    && s.marker.None? && WellPresented(m.pair)
    && match c
       case Set(p, key) => m == Marker(p, key) && s.users == {}
       case Adopt(p, key, ids) =>
         && m == Marker(p, key) && 1 <= |ids| <= 64 && |oldest| == |ids|
         && IsPage(w.less, s.users, None, |ids|, oldest) && Folds(w.how.column, IdsOf(oldest)) == Folds(w.how.column, ids)
       case _ => false
  }

  // WHERE A MARKER COMES FROM. Every marker that appears in a run was recorded by one of these
  // two, at the step it appeared.
  lemma {:induction false} MarkerWasRecorded(w: World, states: seq<Store>, calls: seq<Call>, oldests: seq<seq<Position>>, j: nat)
    requires Run(w, states, calls, oldests) && j < |states| && states[0].marker.None? && states[j].marker.Some?
    ensures exists i :: 0 <= i < j && RecordedBy(w, states[i], calls[i], oldests[i], states[j].marker.value)
  {
    if j > 0 {
      var s, c := states[j - 1], calls[j - 1];
      assert Step(w, s, c, oldests[j - 1], states[j]);
      if s.marker.Some? {
        MarkerWasRecorded(w, states, calls, oldests, j - 1);
        MarkerIsPermanent(w, states, calls, oldests, j - 1, j);
      } else {
        match c {
          case Set(p, key) => SetExactly(s, p, key);
          case Adopt(p, key, ids) => AdoptExactly(w.how, s, p, key, ids, oldests[j - 1]);
          case _ =>
        }
        assert RecordedBy(w, s, c, oldests[j - 1], states[j].marker.value);
      }
    }
  }

  function Spaces(n: nat): string {
    seq(n, _ => ' ')
  }

  lemma {:induction false} TrimmedSpaces(id: string, n: nat)
    ensures TrimEnd(id + Spaces(n)) == TrimEnd(id)
  {
    var s := id + Spaces(n);
    if n > 0 {
      assert s[|s| - 1] == ' ';
      assert s[..|s| - 1] == id + Spaces(n - 1);
      TrimmedSpaces(id, n - 1);
    } else {
      assert s == id;
    }
  }

  // Ids that differ by trailing spaces alone are one to the evidence check, whatever lower-casing
  // does.
  lemma SpacedTwinsAreRefused(lower: string -> string, ids: seq<string>, i: nat, j: nat, n: nat)
    requires i < |ids| && j < |ids| && i != j && ids[j] == ids[i] + Spaces(n)
    ensures !EvidenceOk(lower, ids)
  {
    TrimmedSpaces(ids[i], n);
    assert SameRow(lower)(ids[i]) == SameRow(lower)(ids[j]);
  }

  lemma CaseTwinsAreRefused(lower: string -> string, ids: seq<string>, i: nat, j: nat)
    requires i < |ids| && j < |ids| && i != j && lower(TrimEnd(ids[i])) == lower(TrimEnd(ids[j]))
    ensures !EvidenceOk(lower, ids)
  {
  }
}
