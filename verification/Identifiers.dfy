/** The two identifiers whose text the service checks: user ids and team names. */
module Identifiers {
  const USER_PREFIX: string := "yadgar:user:"
  const TEAM_PREFIX: string := "yadgar:team:"

  // An id compares as a whole; its text is looked at only by the checks below.
  datatype UserId = UserId(text: string)
  datatype TeamId = TeamId(text: string)

  predicate LowerCase(c: char) { 'a' <= c <= 'z' }
  predicate Digit(c: char) { '0' <= c <= '9' }
  predicate LowerHex(c: char) { Digit(c) || 'a' <= c <= 'f' }

  // 8-4-4-4-12 lowercase hexadecimal digits, version nibble 7, variant 8, 9, a or b.
  predicate UuidV7(s: string) {
    && |s| == 36
    && (forall i | 0 <= i < 36 :: if i in {8, 13, 18, 23} then s[i] == '-' else LowerHex(s[i]))
    && s[14] == '7'
    && s[19] in {'8', '9', 'a', 'b'}
  }

  predicate CanonicalUserId(id: UserId) {
    && |USER_PREFIX| <= |id.text| && id.text[..|USER_PREFIX|] == USER_PREFIX
    && UuidV7(id.text[|USER_PREFIX|..])
  }

  // ^[a-z][a-z0-9-]{0,62}$
  predicate TeamName(name: string) {
    && 0 < |name| <= 63
    && LowerCase(name[0])
    && forall i | 0 <= i < |name| :: LowerCase(name[i]) || Digit(name[i]) || name[i] == '-'
  }

  // A declared team's id is computed from its name, so no call returns one a second call needs.
  function TeamIdOf(name: string): TeamId {
    TeamId(TEAM_PREFIX + name)
  }

  function NameOf(id: TeamId): string {
    if |id.text| < |TEAM_PREFIX| then "" else id.text[|TEAM_PREFIX|..]
  }

  lemma NameOfTeamId(name: string)
    ensures NameOf(TeamIdOf(name)) == name
  {
    assert (TEAM_PREFIX + name)[|TEAM_PREFIX|..] == name;
  }

  lemma TeamIdsDistinct(a: string, b: string)
    requires TeamIdOf(a) == TeamIdOf(b)
    ensures a == b
  {
    NameOfTeamId(a);
    NameOfTeamId(b);
  }

  // ------------------------------------------------------------------- what the checks admit

  predicate AllLowerHex(s: string) {
    forall i | 0 <= i < |s| :: LowerHex(s[i])
  }

  // Five groups of lowercase hexadecimal digits, as section 4 of RFC 9562 prints a UUID, with the
  // version and the variant of section 5.7.
  ghost predicate Grouped(s: string, a: string, b: string, c: string, d: string, e: string) {
    && |a| == 8 && |b| == 4 && |c| == 4 && |d| == 4 && |e| == 12
    && AllLowerHex(a) && AllLowerHex(b) && AllLowerHex(c) && AllLowerHex(d) && AllLowerHex(e)
    && c[0] == '7' && (d[0] == '8' || d[0] == '9' || d[0] == 'a' || d[0] == 'b')
    && s == a + "-" + b + "-" + c + "-" + d + "-" + e
  }

  lemma GroupedIsUuidV7(s: string, a: string, b: string, c: string, d: string, e: string)
    requires Grouped(s, a, b, c, d, e)
    ensures UuidV7(s)
  {
    forall i | 0 <= i < 36 ensures if i in {8, 13, 18, 23} then s[i] == '-' else LowerHex(s[i]) {
      if i < 8 {
        assert s[i] == a[i];
      } else if 8 < i < 13 {
        assert s[i] == b[i - 9];
      } else if 13 < i < 18 {
        assert s[i] == c[i - 14];
      } else if 18 < i < 23 {
        assert s[i] == d[i - 19];
      } else if 23 < i {
        assert s[i] == e[i - 24];
      }
    }
  }

  lemma UuidV7IsGrouped(s: string)
    requires UuidV7(s)
    ensures Grouped(s, s[..8], s[9..13], s[14..18], s[19..23], s[24..])
  {
    forall i | 0 <= i < 36 ensures if i in {8, 13, 18, 23} then s[i] == '-' else LowerHex(s[i]) { }
    assert s == s[..8] + "-" + s[9..13] + "-" + s[14..18] + "-" + s[19..23] + "-" + s[24..];
  }

  // A CANONICAL USER ID is exactly the prefix and a UUID so grouped.
  lemma CanonicalExactly(id: UserId)
    ensures CanonicalUserId(id) <==>
              exists a, b, c, d, e, s :: Grouped(s, a, b, c, d, e) && id.text == "yadgar:user:" + s
  {
    if CanonicalUserId(id) {
      var s := id.text[12..];
      UuidV7IsGrouped(s);
      assert id.text == "yadgar:user:" + s;
    }
    if a, b, c, d, e, s :| Grouped(s, a, b, c, d, e) && id.text == "yadgar:user:" + s {
      GroupedIsUuidV7(s, a, b, c, d, e);
      assert id.text[..12] == "yadgar:user:" && id.text[12..] == s;
    }
  }

  ghost predicate Spelled(name: string, first: char, rest: string) {
    && 'a' <= first <= 'z' && |rest| <= 62 && name == [first] + rest
    && forall i | 0 <= i < |rest| :: 'a' <= rest[i] <= 'z' || '0' <= rest[i] <= '9' || rest[i] == '-'
  }

  // A TEAM NAME is exactly a lowercase letter and up to 62 lowercase letters, digits and hyphens.
  lemma TeamNameExactly(name: string)
    ensures TeamName(name) <==> exists first, rest :: Spelled(name, first, rest)
  {
    if TeamName(name) {
      assert Spelled(name, name[0], name[1..]);
    }
    if first, rest :| Spelled(name, first, rest) {
      forall i | 0 <= i < |name| ensures LowerCase(name[i]) || Digit(name[i]) || name[i] == '-' {
        if i > 0 { assert name[i] == rest[i - 1]; }
      }
    }
  }
}
