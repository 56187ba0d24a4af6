/**
The two printed forms the service reads back or relies on: the page token of the
evidence list, and the escaped target of an attribution line.
*/
module PrintedForms {
  import opened Wrappers

  // -------------------------------------------------------------------- decimal numbers

  const I64_MAX: int := 0x7FFF_FFFF_FFFF_FFFF

  predicate IsDigit(c: char) { '0' <= c <= '9' }

  predicate AllDigits(s: string) {
    forall i | 0 <= i < |s| :: IsDigit(s[i])
  }

  function DigitOf(d: nat): char
    requires d < 10
  {
    '0' + d as char
  }

  function Decimal(n: nat): (s: string)
    ensures |s| > 0 && AllDigits(s)
  {
    if n < 10 then [DigitOf(n)] else Decimal(n / 10) + [DigitOf(n % 10)]
  }

  function ValueOf(s: string): nat
    requires AllDigits(s)
  {
    if s == "" then 0 else 10 * ValueOf(s[..|s| - 1]) + (s[|s| - 1] - '0') as nat
  }

  // What `str::parse::<i64>` accepts: one optional sign, then digits, in range.
  function ParseI64(s: string): Option<int> {
    var negative := s != "" && s[0] == '-';
    var digits := if s != "" && (s[0] == '-' || s[0] == '+') then s[1..] else s;
    if digits == "" || !AllDigits(digits) then None
    else
      var v: int := ValueOf(digits);
      var signed: int := if negative then 0 - v else v;
      if -I64_MAX - 1 <= signed <= I64_MAX then Some(signed) else None
  }

  lemma {:induction false} ValueOfDecimal(n: nat)
    ensures ValueOf(Decimal(n)) == n
  {
    var s := Decimal(n);
    if n >= 10 {
      ValueOfDecimal(n / 10);
      assert s[..|s| - 1] == Decimal(n / 10);
    }
  }

  // No leading zero, except zero itself.
  predicate Shortest(s: string) {
    |s| > 0 && (|s| > 1 ==> s[0] != '0')
  }

  lemma {:induction false} DecimalIsShortest(n: nat)
    ensures Shortest(Decimal(n)) && (n > 0 ==> Decimal(n)[0] != '0')
  {
    if n >= 10 { DecimalIsShortest(n / 10); }
  }

  lemma {:induction false} DecimalOfValue(s: string)
    requires AllDigits(s) && Shortest(s)
    ensures Decimal(ValueOf(s)) == s
    ensures s[0] != '0' ==> ValueOf(s) > 0
  {
    if |s| > 1 {
      var front := s[..|s| - 1];
      DecimalOfValue(front);
      assert ValueOf(s) / 10 == ValueOf(front);
      assert s == front + [s[|s| - 1]];
    } else {
      assert ValueOf(s[..0]) == 0;
    }
  }

  // ------------------------------------------------------------------------ page tokens

  // The last row served: its creation in epoch seconds, and its id.
  datatype Position = Position(epoch: int, id: string)

  // Where the first of them is, or the length.
  function FirstColon(s: string): (k: nat)
    ensures k <= |s| && (forall i | 0 <= i < k :: s[i] != ':') && (k < |s| ==> s[k] == ':')
  {
    if s == "" || s[0] == ':' then 0 else 1 + FirstColon(s[1..])
  }

  function Token(p: Position): string {
    (if p.epoch < 0 then "-" + Decimal(-p.epoch) else Decimal(p.epoch)) + ":" + p.id
  }

  // Before the first row; or what the token names; or the token is refused.
  function Parse(token: string): Option<Position> {
    if token == "" then Some(Position(-1, ""))
    else
      var k := FirstColon(token);
      if k == |token| then None
      else
        var epoch := ParseI64(token[..k]);
        if epoch.None? || epoch.value < 0 then None else Some(Position(epoch.value, token[k + 1..]))
  }

  // Only the first colon separates, so an id may hold any number of them.
  lemma SplitsAtFirstColon(front: string, rest: string)
    requires forall i | 0 <= i < |front| :: front[i] != ':'
    ensures FirstColon(front + ":" + rest) == |front|
  {
    var s := front + ":" + rest;
    assert s[|front|] == ':';
    assert forall i | 0 <= i < |front| :: s[i] == front[i];
  }

  lemma ParseDecimal(n: nat)
    requires n <= I64_MAX
    ensures ParseI64(Decimal(n)) == Some(n)
  {
    ValueOfDecimal(n);
    assert IsDigit(Decimal(n)[0]);
  }

  // A TOKEN IS READ BACK: every stored epoch, every id, colons included.
  lemma ParseOfToken(p: Position)
    requires 0 <= p.epoch <= I64_MAX
    ensures Parse(Token(p)) == Some(p) && Token(p) != ""
  {
    var front := Decimal(p.epoch);
    SplitsAtFirstColon(front, p.id);
    ParseDecimal(p.epoch);
    assert Token(p)[..|front|] == front && Token(p)[|front| + 1..] == p.id;
  }

  // An accepted token is the one issued for its position exactly when it writes the epoch
  // in its shortest form, without a sign: "+5:x", "05:x" and "-0:x" are accepted too.
  lemma IssuedExactlyWhenShortest(token: string)
    requires token != "" && Parse(token).Some?
    ensures var front := token[..FirstColon(token)];
            Token(Parse(token).value) == token <==> AllDigits(front) && Shortest(front)
  {
    var k, p := FirstColon(token), Parse(token).value;
    var front := token[..k];
    assert token == front + ":" + p.id;
    if AllDigits(front) && Shortest(front) {
      assert IsDigit(front[0]);
      DecimalOfValue(front);
    }
    if Token(p) == token {
      SplitsAtFirstColon(Decimal(p.epoch), p.id);
      assert Token(p)[..|Decimal(p.epoch)|] == Decimal(p.epoch);
      DecimalIsShortest(p.epoch);
    }
  }

  lemma {:induction false} LeadingZero(s: string)
    requires AllDigits(s)
    ensures AllDigits("0" + s) && ValueOf("0" + s) == ValueOf(s)
  {
    var z := "0" + s;
    if s == "" {
      assert z[..0] == "";
    } else {
      LeadingZero(s[..|s| - 1]);
      assert z[..|z| - 1] == "0" + s[..|s| - 1];
    }
  }

  // An epoch written otherwise than the service writes it.
  lemma ParseFront(front: string, n: nat, id: string)
    requires ParseI64(front) == Some(n) && (forall i | 0 <= i < |front| :: front[i] != ':') && !(AllDigits(front) && Shortest(front))
    ensures Parse(front + ":" + id) == Some(Position(n, id)) && Token(Position(n, id)) != front + ":" + id
  {
    var token := front + ":" + id;
    SplitsAtFirstColon(front, id);
    assert token[..|front|] == front && token[|front| + 1..] == id;
    IssuedExactlyWhenShortest(token);
  }

  lemma PlusAccepted(n: nat)
    requires n <= I64_MAX
    ensures ParseI64("+" + Decimal(n)) == Some(n) && !AllDigits("+" + Decimal(n))
    ensures ':' !in "+" + Decimal(n)
  {
    var s := "+" + Decimal(n);
    ValueOfDecimal(n);
    assert s[1..] == Decimal(n) && !IsDigit(s[0]);
  }

  lemma PaddedAccepted(n: nat)
    requires n <= I64_MAX
    ensures ParseI64("0" + Decimal(n)) == Some(n) && !Shortest("0" + Decimal(n))
    ensures ':' !in "0" + Decimal(n)
  {
    ValueOfDecimal(n);
    LeadingZero(Decimal(n));
  }

  lemma MinusZeroAccepted()
    ensures ParseI64("-0") == Some(0) && !AllDigits("-0")
  {
    LeadingZero("");
    assert "0" + "" == "0" && "-0"[1..] == "0" && !IsDigit("-0"[0]);
  }

  // TOKENS ACCEPTED THOUGH NEVER ISSUED: for every position, its epoch with a plus sign or a
  // leading zero, and zero with a minus sign.
  lemma AcceptedButNeverIssued(n: nat, id: string)
    requires n <= I64_MAX
    ensures Parse("+" + Decimal(n) + ":" + id) == Some(Position(n, id)) && Token(Position(n, id)) != "+" + Decimal(n) + ":" + id
    ensures Parse("0" + Decimal(n) + ":" + id) == Some(Position(n, id)) && Token(Position(n, id)) != "0" + Decimal(n) + ":" + id
    ensures Parse("-0" + ":" + id) == Some(Position(0, id)) && Token(Position(0, id)) != "-0" + ":" + id
  {
    PlusAccepted(n);
    ParseFront("+" + Decimal(n), n, id);
    PaddedAccepted(n);
    ParseFront("0" + Decimal(n), n, id);
    MinusZeroAccepted();
    ParseFront("-0", 0, id);
  }

  // An optional sign and at least one digit.
  ghost predicate Signed(s: string, sign: string, digits: string) {
    s == sign + digits && (sign == "" || sign == "+" || sign == "-") && digits != "" && AllDigits(digits)
  }

  lemma ParseI64Of(s: string, sign: string, digits: string)
    requires Signed(s, sign, digits)
    ensures var v: int := if sign == "-" then 0 - ValueOf(digits) else ValueOf(digits);
            ParseI64(s) == if -0x8000_0000_0000_0000 <= v <= 0x7FFF_FFFF_FFFF_FFFF then Some(v) else None
  {
    if sign == "" {
      assert s == digits && IsDigit(s[0]);
    } else {
      assert s[1..] == digits && s[0] == sign[0];
    }
  }

  lemma ParseI64NeedsDigits(s: string)
    requires ParseI64(s).Some?
    ensures exists sign, digits :: Signed(s, sign, digits)
  {
    if s[0] == '-' || s[0] == '+' {
      assert Signed(s, [s[0]], s[1..]);
    } else {
      assert Signed(s, "", s);
    }
  }

  ghost predicate Writes(token: string, sign: string, digits: string, epoch: int, id: string) {
    && Signed(sign + digits, sign, digits) && token == sign + digits + ":" + id
    && ValueOf(digits) == epoch && (sign == "-" ==> epoch == 0)
  }

  lemma WrittenIsAccepted(token: string, sign: string, digits: string, epoch: int, id: string)
    requires Writes(token, sign, digits, epoch, id) && 0 <= epoch <= 0x7FFF_FFFF_FFFF_FFFF
    ensures Parse(token) == Some(Position(epoch, id))
  {
    var front := sign + digits;
    ParseI64Of(front, sign, digits);
    forall i | 0 <= i < |front| ensures front[i] != ':' {
      if i >= |sign| { assert front[i] == digits[i - |sign|] && IsDigit(digits[i - |sign|]); }
    }
    SplitsAtFirstColon(front, id);
    assert token[..|front|] == front && token[|front| + 1..] == id;
  }

  lemma AcceptedIsWritten(token: string)
    requires token != "" && Parse(token).Some?
    ensures var p := Parse(token).value;
            0 <= p.epoch <= 0x7FFF_FFFF_FFFF_FFFF && exists sign, digits :: Writes(token, sign, digits, p.epoch, p.id)
  {
    var k, p := FirstColon(token), Parse(token).value;
    var front := token[..k];
    ParseI64NeedsDigits(front);
    var sign, digits :| Signed(front, sign, digits);
    ParseI64Of(front, sign, digits);
    assert token == front + ":" + p.id;
    assert Writes(token, sign, digits, p.epoch, p.id);
  }

  // WHAT IS ACCEPTED, exactly: nothing; or an optional sign, digits that are worth 0 to 2^63 - 1
  // with it, a colon, and any id.
  lemma AcceptedExactly(token: string, p: Position)
    ensures Parse(token) == Some(p) <==>
              || (token == "" && p == Position(-1, ""))
              || (0 <= p.epoch <= 0x7FFF_FFFF_FFFF_FFFF && exists sign, digits :: Writes(token, sign, digits, p.epoch, p.id))
  {
    if token != "" && Parse(token) == Some(p) { AcceptedIsWritten(token); }
    if sign, digits :| Writes(token, sign, digits, p.epoch, p.id) && 0 <= p.epoch <= 0x7FFF_FFFF_FFFF_FFFF {
      WrittenIsAccepted(token, sign, digits, p.epoch, p.id);
    }
  }

  // ------------------------------------------------------------------ escaped targets

  const CAP: nat := 256
  const CUT_MARKER: string := "..."

  function Capped(s: string): string {
    if |s| <= CAP then s else s[..CAP] + CUT_MARKER
  }

  function ReplaceAll(s: string, c: char, with: string): string {
    if s == "" then "" else (if s[0] == c then with else [s[0]]) + ReplaceAll(s[1..], c, with)
  }

  // '%' first, or a literal "%2F" would read as an escaped '/'.
  function Escaped(s: string): string {
    ReplaceAll(ReplaceAll(s, '%', "%25"), '/', "%2F")
  }

  function Seg(s: string): string {
    Escaped(Capped(s))
  }

  // What a reader of the line does to get a segment back.
  function Unescaped(s: string): string {
    if s == "" then ""
    else if s[0] == '%' && |s| >= 3 then [if s[2] == 'F' then '/' else '%'] + Unescaped(s[3..])
    else [s[0]] + Unescaped(s[1..])
  }

  function EscapedChar(c: char): string {
    if c == '%' then "%25" else if c == '/' then "%2F" else [c]
  }

  lemma {:induction false} ReplaceConcat(s: string, t: string, c: char, with: string)
    ensures ReplaceAll(s + t, c, with) == ReplaceAll(s, c, with) + ReplaceAll(t, c, with)
  {
    if s == "" {
      assert s + t == t;
    } else {
      assert (s + t)[1..] == s[1..] + t;
      ReplaceConcat(s[1..], t, c, with);
    }
  }

  lemma ReplaceOne(x: char, c: char, with: string)
    ensures ReplaceAll([x], c, with) == if x == c then with else [x]
  {
    assert [x][1..] == "";
    assert ReplaceAll([x][1..], c, with) == "";
  }

  lemma PercentEscapes()
    ensures ReplaceAll("%25", '/', "%2F") == "%25"
  {
    ReplaceOne('%', '/', "%2F");
    ReplaceOne('2', '/', "%2F");
    ReplaceOne('5', '/', "%2F");
    ReplaceConcat("%", "25", '/', "%2F");
    ReplaceConcat("2", "5", '/', "%2F");
    assert "%25" == "%" + "25" && "25" == "2" + "5";
  }

  // The two passes escape each character on its own.
  lemma EscapesCharacterwise(s: string)
    requires s != ""
    ensures Escaped(s) == EscapedChar(s[0]) + Escaped(s[1..])
  {
    var first := if s[0] == '%' then "%25" else [s[0]];
    ReplaceConcat(first, ReplaceAll(s[1..], '%', "%25"), '/', "%2F");
    ReplaceOne(s[0], '/', "%2F");
    PercentEscapes();
  }

  lemma {:induction false} UnescapedEscaped(s: string)
    ensures Unescaped(Escaped(s)) == s
    ensures '/' !in Escaped(s)
  {
    if s != "" {
      UnescapedEscaped(s[1..]);
      EscapesCharacterwise(s);
      var e, rest := EscapedChar(s[0]), Escaped(s[1..]);
      assert Escaped(s)[|e|..] == rest;
      assert s == [s[0]] + s[1..];
    }
  }

  function Segs(parts: seq<string>): seq<string> {
    seq(|parts|, i requires 0 <= i < |parts| => Seg(parts[i]))
  }

  function CappedAll(parts: seq<string>): seq<string> {
    seq(|parts|, i requires 0 <= i < |parts| => Capped(parts[i]))
  }

  function Join(parts: seq<string>): string {
    if parts == [] then "" else if |parts| == 1 then parts[0] else parts[0] + "/" + Join(parts[1..])
  }

  ghost predicate Slashless(parts: seq<string>) {
    forall i | 0 <= i < |parts| :: '/' !in parts[i]
  }

  // The first segment of a joined string ends at its first slash.
  lemma FirstSegment(a: string, x: string, b: string, y: string)
    requires '/' !in a && '/' !in b && a + "/" + x == b + "/" + y
    ensures a == b && x == y
  {
    var s := a + "/" + x;
    assert s[|a|] == '/' && s[|b|] == '/';
    assert forall i | 0 <= i < |a| :: s[i] == a[i];
    assert forall i | 0 <= i < |b| :: s[i] == b[i];
    assert s[..|a|] == a && s[..|b|] == b && s[|a| + 1..] == x && s[|b| + 1..] == y;
  }

  lemma JoinHasSlash(parts: seq<string>)
    requires |parts| > 1
    ensures '/' in Join(parts)
  {
    assert Join(parts)[|parts[0]|] == '/';
  }

  lemma {:induction false} JoinInjective(a: seq<string>, b: seq<string>)
    requires a != [] && b != [] && Slashless(a) && Slashless(b) && Join(a) == Join(b)
    ensures a == b
  {
    if |a| > 1 { JoinHasSlash(a); }
    if |b| > 1 { JoinHasSlash(b); }
    if |a| > 1 {
      FirstSegment(a[0], Join(a[1..]), b[0], Join(b[1..]));
      JoinInjective(a[1..], b[1..]);
      assert a == [a[0]] + a[1..] && b == [b[0]] + b[1..];
    }
  }

  // TARGETS ARE UNAMBIGUOUS, exactly up to the cap: two non-empty lists of segments print
  // the same target if and only if they are the same list once each segment is capped.
  lemma TargetsEqualExactly(a: seq<string>, b: seq<string>)
    requires a != [] && b != []
    ensures Join(Segs(a)) == Join(Segs(b)) <==> CappedAll(a) == CappedAll(b)
  {
    forall i | 0 <= i < |a| ensures Unescaped(Seg(a[i])) == Capped(a[i]) && '/' !in Seg(a[i]) { UnescapedEscaped(Capped(a[i])); }
    forall i | 0 <= i < |b| ensures Unescaped(Seg(b[i])) == Capped(b[i]) && '/' !in Seg(b[i]) { UnescapedEscaped(Capped(b[i])); }
    if Join(Segs(a)) == Join(Segs(b)) {
      JoinInjective(Segs(a), Segs(b));
      forall i | 0 <= i < |a| ensures CappedAll(a)[i] == CappedAll(b)[i] {
        assert Segs(a)[i] == Segs(b)[i];
      }
    }
    if CappedAll(a) == CappedAll(b) {
      forall i | 0 <= i < |a| ensures Segs(a)[i] == Segs(b)[i] {
        assert CappedAll(a)[i] == CappedAll(b)[i];
      }
      assert Segs(a) == Segs(b);
    }
  }

  // The cap: 256 characters pass untouched; of more, the first 256 and three dots.
  lemma CappedExactly(s: string)
    ensures |s| <= 256 ==> Capped(s) == s
    ensures |s| > 256 ==> Capped(s) == s[..256] + "..."
  {
  }

  // The cap merges two segments exactly when both are too long and agree as far as it reads.
  lemma CapMergesExactly(a: string, b: string)
    ensures Capped(a) == Capped(b) <==> a == b || (|a| > CAP && |b| > CAP && a[..CAP] == b[..CAP])
  {
    if |a| > CAP { assert Capped(a)[..CAP] == a[..CAP]; }
    if |b| > CAP { assert Capped(b)[..CAP] == b[..CAP]; }
  }

  // So within the cap a target names its segments.
  lemma TargetsInjective(a: seq<string>, b: seq<string>)
    requires a != [] && b != [] && Join(Segs(a)) == Join(Segs(b))
    requires forall i | 0 <= i < |a| :: |a[i]| <= CAP
    requires forall i | 0 <= i < |b| :: |b[i]| <= CAP
    ensures a == b
  {
    TargetsEqualExactly(a, b);
    assert CappedAll(a) == a && CappedAll(b) == b;
  }

  lemma LongSegmentsCollide(s: string, c: char, d: char)
    requires |s| == CAP && c != d
    ensures s + [c] != s + [d] && Join(Segs([s + [c]])) == Join(Segs([s + [d]]))
  {
    var a, b := s + [c], s + [d];
    assert a[CAP] != b[CAP];
    assert a[..CAP] == s && b[..CAP] == s;
    CapMergesExactly(a, b);
    assert CappedAll([a]) == CappedAll([b]);
    TargetsEqualExactly([a], [b]);
  }
}
