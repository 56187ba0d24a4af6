/**
Keyset paging: a SELECT in order, after the last row served, with a LIMIT; and a walk
that follows next-page tokens over a table that others change between two pages.
*/
module KeysetWalks {
  import opened Wrappers
  import opened SetSizes

  const DEFAULT_PAGE_SIZE: int := 50
  const MAX_PAGE_SIZE: int := 200

  function PageSize(asked: int): (n: int)
    ensures 1 <= n <= 200
    ensures asked <= 0 ==> n == 50
    ensures 0 < asked ==> n <= asked && (n == asked || n == 200)
  {
    if asked <= 0 then DEFAULT_PAGE_SIZE else if asked < MAX_PAGE_SIZE then asked else MAX_PAGE_SIZE
  }

  // A strict order, all a walk needs of what ORDER BY sorts by.
  ghost predicate Order<K(!new)>(less: (K, K) -> bool) {
    && (forall a: K :: !less(a, a))
    && (forall a: K, b: K, c: K :: less(a, b) && less(b, c) ==> less(a, c))
  }

  lemma Between<K(!new)>(less: (K, K) -> bool, a: K, b: K, c: K)
    requires Order(less) && (a == b || less(a, b)) && less(b, c)
    ensures less(a, c)
  {
  }

  // `after` is where the previous page ended; nothing yet is before every row.
  predicate Beyond<K(==)>(less: (K, K) -> bool, after: Option<K>, k: K) {
    after.None? || less(after.value, k)
  }

  ghost predicate Ascending<K>(less: (K, K) -> bool, s: seq<K>) {
    forall i, j | 0 <= i < j < |s| :: less(s[i], s[j])
  }

  // SELECT ... WHERE key > after ORDER BY key LIMIT size: rows of the table beyond `after`,
  // in order, and every such row unless the page is full and ends before it.
  ghost predicate IsPage<K>(less: (K, K) -> bool, table: set<K>, after: Option<K>, size: int, page: seq<K>) {
    && |page| <= size && Ascending(less, page)
    && (forall i | 0 <= i < |page| :: page[i] in table && Beyond(less, after, page[i]))
    && forall k <- table :: Beyond(less, after, k) ==>
         k in page || (|page| == size && |page| > 0 && less(page[|page| - 1], k))
  }

  // The answer's next-page token: the last row served, only when the page filled.
  function NextToken<K>(page: seq<K>, size: int): Option<K> {
    if |page| == size && |page| > 0 then Some(page[|page| - 1]) else None
  }

  // The rows copied out one by one, remembering the last: what the two list verbs do with
  // what the SELECT returned.
  method ServePage<K>(rows: seq<K>, asked: int) returns (page: seq<K>, next: Option<K>)
    ensures page == rows && next == NextToken(rows, PageSize(asked))
  {
    var size := PageSize(asked);
    page := [];
    var last := None;
    for i := 0 to |rows|
      invariant page == rows[..i]
      invariant last == if i == 0 then None else Some(rows[i - 1])
    {
      page := page + [rows[i]];
      last := Some(rows[i]);
    }
    next := if |page| == size then last else None;
  }

  // ------------------------------------------------------------------------- walks

  function TokenBefore<K>(asked: seq<int>, pages: seq<seq<K>>, i: nat): Option<K>
    requires |asked| == |pages| && i < |pages|
  {
    if i == 0 then None else NextToken(pages[i - 1], PageSize(asked[i - 1]))
  }

  // Page `i` is read from `tables[i]` after the token of the page before it; it filled,
  // unless it is the last.
  ghost predicate PageOk<K>(less: (K, K) -> bool, tables: seq<set<K>>, asked: seq<int>, pages: seq<seq<K>>, i: nat)
    requires |tables| == |asked| == |pages| && i < |pages|
  {
    && IsPage(less, tables[i], TokenBefore(asked, pages, i), PageSize(asked[i]), pages[i])
    && (i < |pages| - 1 ==> NextToken(pages[i], PageSize(asked[i])).Some?)
  }

  // A walk from the empty token, over whatever the table is at each page; the caller may ask
  // for any size each time.
  ghost predicate Walk<K>(less: (K, K) -> bool, tables: seq<set<K>>, asked: seq<int>, pages: seq<seq<K>>) {
    && |tables| == |asked| == |pages| && |pages| > 0
    && forall i | 0 <= i < |pages| :: PageOk(less, tables, asked, pages, i)
  }

  // The walk is over: the last page came without a token.
  ghost predicate Finished<K>(asked: seq<int>, pages: seq<seq<K>>)
    requires |asked| == |pages| && |pages| > 0
  {
    NextToken(pages[|pages| - 1], PageSize(asked[|pages| - 1])).None?
  }

  // A page begins beyond where the page before it ended.
  lemma NextPage<K>(less: (K, K) -> bool, tables: seq<set<K>>, asked: seq<int>, pages: seq<seq<K>>, j: nat, b: nat)
    requires Walk(less, tables, asked, pages) && 0 < j < |pages| && b < |pages[j]|
    ensures pages[j - 1] != [] && less(pages[j - 1][|pages[j - 1]| - 1], pages[j][b])
  {
    assert PageOk(less, tables, asked, pages, j - 1) && PageOk(less, tables, asked, pages, j);
  }

  lemma WithinPage<K>(less: (K, K) -> bool, tables: seq<set<K>>, asked: seq<int>, pages: seq<seq<K>>, i: nat, a: nat, b: nat)
    requires Walk(less, tables, asked, pages) && i < |pages| && a < b < |pages[i]|
    ensures less(pages[i][a], pages[i][b])
  {
    assert PageOk(less, tables, asked, pages, i);
  }

  // Pages are in order: whatever a later page holds is beyond all an earlier page holds.
  lemma {:induction false} PagesAscend<K(!new)>(less: (K, K) -> bool, tables: seq<set<K>>, asked: seq<int>, pages: seq<seq<K>>,
                                                i: nat, j: nat, a: nat, b: nat)
    requires Order(less) && Walk(less, tables, asked, pages)
    requires i < j < |pages| && a < |pages[i]| && b < |pages[j]|
    ensures less(pages[i][a], pages[j][b])
    decreases j
  {
    NextPage(less, tables, asked, pages, j, b);
    var last := |pages[j - 1]| - 1;
    if i < j - 1 {
      PagesAscend(less, tables, asked, pages, i, j - 1, a, last);
    } else if a < last {
      WithinPage(less, tables, asked, pages, i, a, last);
    }
    Between(less, pages[i][a], pages[j - 1][last], pages[j][b]);
  }

  // NO ROW TWICE, over any walk, whatever happens to the table.
  lemma ServedAtMostOnce<K(!new)>(less: (K, K) -> bool, tables: seq<set<K>>, asked: seq<int>, pages: seq<seq<K>>,
                                  i: nat, j: nat, a: nat, b: nat)
    requires Order(less) && Walk(less, tables, asked, pages)
    requires i < |pages| && j < |pages| && a < |pages[i]| && b < |pages[j]| && pages[i][a] == pages[j][b]
    ensures i == j && a == b
  {
    if i < j {
      PagesAscend(less, tables, asked, pages, i, j, a, b);
    } else if j < i {
      PagesAscend(less, tables, asked, pages, j, i, b, a);
    } else if a < b {
      WithinPage(less, tables, asked, pages, i, a, b);
    } else if b < a {
      WithinPage(less, tables, asked, pages, i, b, a);
    }
  }

  lemma PassedOver<K>(less: (K, K) -> bool, table: set<K>, after: Option<K>, size: int, page: seq<K>, k: K)
    requires IsPage(less, table, after, size, page) && k in table && k !in page && Beyond(less, after, k)
    ensures NextToken(page, size).Some? && less(NextToken(page, size).value, k)
  {
  }

  // A row present throughout that no page up to `i` served is beyond all they served.
  lemma {:induction false} NotYetServed<K>(less: (K, K) -> bool, tables: seq<set<K>>, asked: seq<int>, pages: seq<seq<K>>, k: K, i: nat)
    requires Walk(less, tables, asked, pages) && i < |pages|
    requires forall j | 0 <= j < |tables| :: k in tables[j]
    requires forall j | 0 <= j <= i :: k !in pages[j]
    ensures var next := NextToken(pages[i], PageSize(asked[i])); next.Some? && less(next.value, k)
  {
    if i > 0 { NotYetServed(less, tables, asked, pages, k, i - 1); }
    assert PageOk(less, tables, asked, pages, i);
    PassedOver(less, tables[i], TokenBefore(asked, pages, i), PageSize(asked[i]), pages[i], k);
  }

  lemma SomePageServes<K>(less: (K, K) -> bool, tables: seq<set<K>>, asked: seq<int>, pages: seq<seq<K>>, k: K)
    requires Walk(less, tables, asked, pages) && Finished(asked, pages)
    requires forall j | 0 <= j < |tables| :: k in tables[j]
    ensures exists i :: 0 <= i < |pages| && k in pages[i]
  {
    if forall j | 0 <= j < |pages| :: k !in pages[j] {
      NotYetServed(less, tables, asked, pages, k, |pages| - 1);
    }
  }

  // A WALK IS COMPLETE. A row present at every page of a finished walk is served by it, on
  // exactly one page and at one place, whatever else is inserted or removed meanwhile.
  lemma WalkIsComplete<K(!new)>(less: (K, K) -> bool, tables: seq<set<K>>, asked: seq<int>, pages: seq<seq<K>>, k: K)
    requires Order(less) && Walk(less, tables, asked, pages) && Finished(asked, pages)
    requires forall j | 0 <= j < |tables| :: k in tables[j]
    ensures exists i, a :: 0 <= i < |pages| && 0 <= a < |pages[i]| && pages[i][a] == k
              && forall j, b | 0 <= j < |pages| && 0 <= b < |pages[j]| && pages[j][b] == k :: j == i && b == a
  {
    SomePageServes(less, tables, asked, pages, k);
    var i :| 0 <= i < |pages| && k in pages[i];
    var a :| 0 <= a < |pages[i]| && pages[i][a] == k;
    forall j, b | 0 <= j < |pages| && 0 <= b < |pages[j]| && pages[j][b] == k ensures j == i && b == a {
      ServedAtMostOnce(less, tables, asked, pages, j, i, b, a);
    }
  }

  // ------------------------------------------------------------------------ termination

  function Served<K>(pages: seq<seq<K>>): (s: set<K>) {
    set i, a | 0 <= i < |pages| && 0 <= a < |pages[i]| :: pages[i][a]
  }

  lemma TokensAscend<K(!new)>(less: (K, K) -> bool, tables: seq<set<K>>, asked: seq<int>, pages: seq<seq<K>>, i: nat)
    requires Order(less) && Walk(less, tables, asked, pages) && i < |pages| - 1
    ensures pages[i] != [] && pages[i][|pages[i]| - 1] !in Served(pages[..i])
  {
    assert PageOk(less, tables, asked, pages, i);
    var last := |pages[i]| - 1;
    if pages[i][last] in Served(pages[..i]) {
      var j, b :| 0 <= j < i && 0 <= b < |pages[..i][j]| && pages[..i][j][b] == pages[i][last];
      ServedAtMostOnce(less, tables, asked, pages, j, i, b, last);
    }
  }

  lemma {:induction false} PagesCount<K(!new)>(less: (K, K) -> bool, table: set<K>, tables: seq<set<K>>, asked: seq<int>, pages: seq<seq<K>>, n: nat)
    requires Order(less) && Walk(less, tables, asked, pages) && n < |pages|
    requires forall i | 0 <= i < |tables| :: tables[i] == table
    ensures Served(pages[..n]) <= table && n <= |Served(pages[..n])|
  {
    if n > 0 {
      PagesCount(less, table, tables, asked, pages, n - 1);
      TokensAscend(less, tables, asked, pages, n - 1);
      var before, last := Served(pages[..n - 1]), pages[n - 1][|pages[n - 1]| - 1];
      assert PageOk(less, tables, asked, pages, n - 1);
      forall k | k in before + {last} ensures k in Served(pages[..n]) {
        if k in before {
          var i, a :| 0 <= i < n - 1 && 0 <= a < |pages[..n - 1][i]| && pages[..n - 1][i][a] == k;
          assert pages[..n][i][a] == k;
        } else {
          assert pages[..n][n - 1][|pages[n - 1]| - 1] == k;
        }
      }
      SubsetSize(before + {last}, Served(pages[..n]));
      forall k | k in Served(pages[..n]) ensures k in table {
        var i, a :| 0 <= i < n && 0 <= a < |pages[..n][i]| && pages[..n][i][a] == k;
        assert PageOk(less, tables, asked, pages, i);
      }
    }
  }

  // A WALK ENDS on a table nobody changes: it has at most one page more than the table has rows.
  lemma WalkEnds<K(!new)>(less: (K, K) -> bool, table: set<K>, tables: seq<set<K>>, asked: seq<int>, pages: seq<seq<K>>)
    requires Order(less) && Walk(less, tables, asked, pages)
    requires forall i | 0 <= i < |tables| :: tables[i] == table
    ensures |pages| <= |table| + 1
  {
    var n := |pages| - 1;
    PagesCount(less, table, tables, asked, pages, n);
    SubsetSize(Served(pages[..n]), table);
  }
}
