/**
The two paged lists as a caller walks them: by the token strings the service issues. Each
is a keyset walk, so each serves every row that stays exactly once. How ids compare is the
column's collation, a parameter here.
*/
module ListWalks {
  import opened Wrappers
  import opened PrintedForms
  import opened KeysetWalks

  // ---------------------------------------------------------------------- the evidence list

  // ORDER BY created_at, id
  function OldestFirst(idLess: (string, string) -> bool): (Position, Position) -> bool {
    (p: Position, q: Position) => p.epoch < q.epoch || (p.epoch == q.epoch && idLess(p.id, q.id))
  }

  lemma OldestFirstIsOrder(idLess: (string, string) -> bool)
    requires Order(idLess)
    ensures Order(OldestFirst(idLess))
  {
    var less := OldestFirst(idLess);
    forall a: Position ensures !less(a, a) { assert !idLess(a.id, a.id); }
    forall a: Position, b: Position, c: Position | less(a, b) && less(b, c) ensures less(a, c) {
      if a.epoch == c.epoch { Between(idLess, a.id, b.id, c.id); }
    }
  }

  function EvidenceToken(page: seq<Position>, size: int): string {
    var next := NextToken(page, size);
    if next.Some? then Token(next.value) else ""
  }

  // One ListKeyIdentityEvidence: the token parsed, then the SELECT.
  ghost predicate EvidencePage(idLess: (string, string) -> bool, table: set<Position>, token: string, asked: int, page: seq<Position>) {
    var after := Parse(token);
    after.Some? && IsPage(OldestFirst(idLess), table, after, PageSize(asked), page)
  }

  ghost predicate StoredEpochs(table: set<Position>) {
    forall p <- table :: 0 <= p.epoch <= I64_MAX
  }

  // What page `i` is asked with: nothing, or the token the page before it came with.
  ghost predicate EvidenceStep(idLess: (string, string) -> bool, tables: seq<set<Position>>, asked: seq<int>, tokens: seq<string>, pages: seq<seq<Position>>, i: nat)
    requires |tables| == |asked| == |tokens| == |pages| && i < |pages|
  {
    && StoredEpochs(tables[i]) && EvidencePage(idLess, tables[i], tokens[i], asked[i], pages[i])
    && (i == 0 ==> tokens[i] == "")
    && (i > 0 ==> tokens[i] == EvidenceToken(pages[i - 1], PageSize(asked[i - 1])) && tokens[i] != "")
  }

  ghost predicate EvidenceWalk(idLess: (string, string) -> bool, tables: seq<set<Position>>, asked: seq<int>, tokens: seq<string>, pages: seq<seq<Position>>) {
    && |tables| == |asked| == |tokens| == |pages| && |pages| > 0
    && forall i | 0 <= i < |pages| :: EvidenceStep(idLess, tables, asked, tokens, pages, i)
  }

  // Before the first row is (-1, ""): the same page as with no position at all.
  lemma FirstPage(idLess: (string, string) -> bool, table: set<Position>, size: int, page: seq<Position>)
    requires StoredEpochs(table) && IsPage(OldestFirst(idLess), table, Some(Position(-1, "")), size, page)
    ensures IsPage(OldestFirst(idLess), table, None, size, page)
  {
    forall p <- table ensures Beyond(OldestFirst(idLess), Some(Position(-1, "")), p) {
    }
  }

  lemma TokenNamesLast(idLess: (string, string) -> bool, table: set<Position>, token: string, asked: int, page: seq<Position>)
    requires StoredEpochs(table) && EvidencePage(idLess, table, token, asked, page)
    ensures EvidenceToken(page, PageSize(asked)) != "" <==> NextToken(page, PageSize(asked)).Some?
    ensures EvidenceToken(page, PageSize(asked)) != "" ==> Parse(EvidenceToken(page, PageSize(asked))) == NextToken(page, PageSize(asked))
  {
    var next := NextToken(page, PageSize(asked));
    if next.Some? {
      assert next.value in table;
      ParseOfToken(next.value);
    }
  }

  lemma EvidenceStepOk(idLess: (string, string) -> bool, tables: seq<set<Position>>, asked: seq<int>, tokens: seq<string>, pages: seq<seq<Position>>, i: nat)
    requires EvidenceWalk(idLess, tables, asked, tokens, pages) && i < |pages|
    ensures PageOk(OldestFirst(idLess), tables, asked, pages, i)
  {
    assert EvidenceStep(idLess, tables, asked, tokens, pages, i);
    if i == 0 {
      FirstPage(idLess, tables[i], PageSize(asked[i]), pages[i]);
    } else {
      assert EvidenceStep(idLess, tables, asked, tokens, pages, i - 1);
      TokenNamesLast(idLess, tables[i - 1], tokens[i - 1], asked[i - 1], pages[i - 1]);
    }
    if i < |pages| - 1 {
      assert EvidenceStep(idLess, tables, asked, tokens, pages, i + 1);
      TokenNamesLast(idLess, tables[i], tokens[i], asked[i], pages[i]);
    }
  }

  ghost predicate ServedOnce<K(!new)>(pages: seq<seq<K>>, k: K) {
    exists i, a :: 0 <= i < |pages| && 0 <= a < |pages[i]| && pages[i][a] == k
      && forall j, b | 0 <= j < |pages| && 0 <= b < |pages[j]| && pages[j][b] == k :: j == i && b == a
  }

  // THE EVIDENCE WALK: a person whose row is there throughout is served exactly once, in the
  // order of creation, however many are created between two pages.
  lemma EvidenceWalkComplete(idLess: (string, string) -> bool, tables: seq<set<Position>>, asked: seq<int>, tokens: seq<string>, pages: seq<seq<Position>>, p: Position)
    requires Order(idLess) && EvidenceWalk(idLess, tables, asked, tokens, pages)
    requires EvidenceToken(pages[|pages| - 1], PageSize(asked[|pages| - 1])) == ""
    requires forall j | 0 <= j < |tables| :: p in tables[j]
    ensures ServedOnce(pages, p)
    ensures forall i, j, a, b | 0 <= i < j < |pages| && 0 <= a < |pages[i]| && 0 <= b < |pages[j]| ::
              OldestFirst(idLess)(pages[i][a], pages[j][b])
  {
    var less, n := OldestFirst(idLess), |pages| - 1;
    OldestFirstIsOrder(idLess);
    forall i | 0 <= i < |pages| ensures PageOk(less, tables, asked, pages, i) {
      EvidenceStepOk(idLess, tables, asked, tokens, pages, i);
    }
    assert EvidenceStep(idLess, tables, asked, tokens, pages, n);
    TokenNamesLast(idLess, tables[n], tokens[n], asked[n], pages[n]);
    WalkIsComplete(less, tables, asked, pages, p);
    forall i, j, a, b | 0 <= i < j < |pages| && 0 <= a < |pages[i]| && 0 <= b < |pages[j]| ensures less(pages[i][a], pages[j][b]) {
      PagesAscend(less, tables, asked, pages, i, j, a, b);
    }
  }

  // -------------------------------------------------------------------- the credential list

  datatype Row = Row(owner: string, revoked: bool, ownerLive: bool)

  // The rows ListCredentials lists for a person: live ones of a live person.
  function Listed(table: map<string, Row>, user: string): set<string> {
    set id | id in table && table[id].owner == user && !table[id].revoked && table[id].ownerLive
  }

  function ListedAt(tables: seq<map<string, Row>>, user: string): seq<set<string>> {
    seq(|tables|, i requires 0 <= i < |tables| => Listed(tables[i], user))
  }

  // The token is the last id itself; the empty token is below every id.
  function CredentialToken(page: seq<string>, size: int): string {
    var next := NextToken(page, size);
    if next.Some? then next.value else ""
  }

  ghost predicate CredentialStep(idLess: (string, string) -> bool, tables: seq<map<string, Row>>, user: string, asked: seq<int>, tokens: seq<string>, pages: seq<seq<string>>, i: nat)
    requires |tables| == |asked| == |tokens| == |pages| && i < |pages|
  {
    && "" !in tables[i] && IsPage(idLess, Listed(tables[i], user), Some(tokens[i]), PageSize(asked[i]), pages[i])
    && (i == 0 ==> tokens[i] == "")
    && (i > 0 ==> tokens[i] == CredentialToken(pages[i - 1], PageSize(asked[i - 1])) && tokens[i] != "")
  }

  ghost predicate CredentialWalk(idLess: (string, string) -> bool, tables: seq<map<string, Row>>, user: string, asked: seq<int>, tokens: seq<string>, pages: seq<seq<string>>) {
    && |tables| == |asked| == |tokens| == |pages| && |pages| > 0
    && forall i | 0 <= i < |pages| :: CredentialStep(idLess, tables, user, asked, tokens, pages, i)
  }

  lemma CredentialStepOk(idLess: (string, string) -> bool, tables: seq<map<string, Row>>, user: string, asked: seq<int>, tokens: seq<string>, pages: seq<seq<string>>, i: nat)
    requires CredentialWalk(idLess, tables, user, asked, tokens, pages) && i < |pages|
    requires forall id: string :: id != "" ==> idLess("", id)
    ensures PageOk(idLess, ListedAt(tables, user), asked, pages, i)
  {
    assert CredentialStep(idLess, tables, user, asked, tokens, pages, i);
    if i < |pages| - 1 {
      assert CredentialStep(idLess, tables, user, asked, tokens, pages, i + 1);
    }
  }

  // THE CREDENTIAL WALK: a credential that stays listed is served exactly once, and all are in
  // the order of their ids, whatever is minted or revoked between two pages.
  lemma CredentialWalkComplete(idLess: (string, string) -> bool, tables: seq<map<string, Row>>, user: string, asked: seq<int>, tokens: seq<string>, pages: seq<seq<string>>, id: string)
    requires Order(idLess) && (forall id: string :: id != "" ==> idLess("", id))
    requires CredentialWalk(idLess, tables, user, asked, tokens, pages)
    requires CredentialToken(pages[|pages| - 1], PageSize(asked[|pages| - 1])) == ""
    requires forall j | 0 <= j < |tables| ::
               id in tables[j] && tables[j][id].owner == user && !tables[j][id].revoked && tables[j][id].ownerLive
    ensures ServedOnce(pages, id)
    ensures forall i, j, a, b | 0 <= i < j < |pages| && 0 <= a < |pages[i]| && 0 <= b < |pages[j]| ::
              idLess(pages[i][a], pages[j][b])
  {
    var n := |pages| - 1;
    forall i | 0 <= i < |pages| ensures PageOk(idLess, ListedAt(tables, user), asked, pages, i) {
      CredentialStepOk(idLess, tables, user, asked, tokens, pages, i);
    }
    assert CredentialStep(idLess, tables, user, asked, tokens, pages, n);
    forall j | 0 <= j < |tables| ensures id in ListedAt(tables, user)[j] { assert id in tables[j]; }
    WalkIsComplete(idLess, ListedAt(tables, user), asked, pages, id);
    forall i, j, a, b | 0 <= i < j < |pages| && 0 <= a < |pages[i]| && 0 <= b < |pages[j]| ensures idLess(pages[i][a], pages[j][b]) {
      PagesAscend(idLess, ListedAt(tables, user), asked, pages, i, j, a, b);
    }
  }

  // NOBODY ELSE'S IS SERVED: every id on a page is, in the table the page was read from, a
  // credential of that person, unrevoked, and the person lives.
  lemma CredentialsServedAreTheirs(idLess: (string, string) -> bool, tables: seq<map<string, Row>>, user: string, asked: seq<int>, tokens: seq<string>, pages: seq<seq<string>>, i: nat, a: nat)
    requires CredentialWalk(idLess, tables, user, asked, tokens, pages) && i < |pages| && a < |pages[i]|
    ensures var id := pages[i][a];
            id in tables[i] && tables[i][id].owner == user && !tables[i][id].revoked && tables[i][id].ownerLive
  {
    assert CredentialStep(idLess, tables, user, asked, tokens, pages, i);
  }

  // What the evidence list serves are rows of the table.
  lemma EvidenceServedIsStored(idLess: (string, string) -> bool, tables: seq<set<Position>>, asked: seq<int>, tokens: seq<string>, pages: seq<seq<Position>>, i: nat, a: nat)
    requires EvidenceWalk(idLess, tables, asked, tokens, pages) && i < |pages| && a < |pages[i]|
    ensures pages[i][a] in tables[i]
  {
    assert EvidenceStep(idLess, tables, asked, tokens, pages, i);
  }

  // On tables nobody changes, the credential walk ends.
  lemma CredentialWalkEnds(idLess: (string, string) -> bool, table: map<string, Row>, tables: seq<map<string, Row>>, user: string, asked: seq<int>, tokens: seq<string>, pages: seq<seq<string>>)
    requires Order(idLess) && (forall id: string :: id != "" ==> idLess("", id))
    requires CredentialWalk(idLess, tables, user, asked, tokens, pages) && forall j | 0 <= j < |tables| :: tables[j] == table
    ensures |pages| <= 1 + |set id | id in table && table[id].owner == user && !table[id].revoked && table[id].ownerLive|
  {
    forall i | 0 <= i < |pages| ensures PageOk(idLess, ListedAt(tables, user), asked, pages, i) {
      CredentialStepOk(idLess, tables, user, asked, tokens, pages, i);
    }
    WalkEnds(idLess, Listed(table, user), ListedAt(tables, user), asked, pages);
  }

  lemma EvidenceWalkEnds(idLess: (string, string) -> bool, table: set<Position>, tables: seq<set<Position>>, asked: seq<int>, tokens: seq<string>, pages: seq<seq<Position>>)
    requires Order(idLess) && EvidenceWalk(idLess, tables, asked, tokens, pages)
    requires forall j | 0 <= j < |tables| :: tables[j] == table
    ensures |pages| <= |table| + 1
  {
    OldestFirstIsOrder(idLess);
    forall i | 0 <= i < |pages| ensures PageOk(OldestFirst(idLess), tables, asked, pages, i) {
      EvidenceStepOk(idLess, tables, asked, tokens, pages, i);
    }
    WalkEnds(OldestFirst(idLess), table, tables, asked, pages);
  }
}
