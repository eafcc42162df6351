/**
  The paginated game listing: the page size, the page count and the offset
  computed from the query string, the two queries built from them, and the
  queries' meaning over a table of games.
*/
module FindGames {
  import opened Wrappers

  /**
    A row of the `game` table as the listing selects it. Only the title takes
    part in filtering and ordering; the other columns are carried unchanged.
  */
  datatype Game = Game(
    id: int,
    title: string,
    steamUrl: string,
    nuuvemUrl: Option<string>,
    greenManGamingUrl: Option<string>)

  /**
    The query string after JavaScript's `Number()` coercion: `None` where the
    coercion gives NaN (an absent or non-numeric parameter).
  */
  datatype FindGamesQuery = FindGamesQuery(limit: Option<int>, page: Option<int>, title: Option<string>)

  /** `perPage` in `find`: the numeric limit as given, 10 when the limit is NaN. */
  function PerPage(q: FindGamesQuery): (n: int)
    ensures q.limit.None? ==> n == 10
    ensures q.limit.Some? ==> n == q.limit.value
  {
    match q.limit
    case None => 10
    case Some(n) => n
  }

  /** The page number inside `offset` in `find`: the numeric page as given, 1 when the page is NaN. */
  function PageNumber(q: FindGamesQuery): (k: int)
    ensures q.page.None? ==> k == 1
    ensures q.page.Some? ==> k == q.page.value
  {
    match q.page
    case None => 1
    case Some(n) => n
  }

  /**
    `offset` in `find`: the rows of the pages before the requested one. It is
    0 exactly for the first page or an empty page size, and never negative
    for a page from 1 on with a page size of at least 0.
  */
  function Offset(q: FindGamesQuery): (o: int)
    ensures o == 0 <==> PageNumber(q) == 1 || PerPage(q) == 0
    ensures PerPage(q) >= 0 && PageNumber(q) >= 1 ==> o >= 0
  {
    PerPage(q) * (PageNumber(q) - 1)
  }

  /** A JavaScript number as `Math.ceil(total / perPage)` can produce it. */
  datatype Pages = Pages(count: int) | PositiveInfinity | NotANumber

  /** `Math.ceil(a / b)` for a non-zero integer divisor: the least integer not below a / b. */
  function CeilDiv(a: int, b: int): (r: int)
    requires b != 0
    ensures b > 0 ==> (r - 1) * b < a <= r * b
    ensures b < 0 ==> r * b <= a < (r - 1) * b
  {
    if b > 0 then
      var q := (a + b - 1) / b;
      assert q * b <= a + b - 1 < q * b + b;
      q
    else
      var q := a / (-b);
      assert q * (-b) <= a < q * (-b) - b;
      -q
  }

  /** `pages` in `find`, `Math.ceil(total / perPage)`; a zero page size divides by zero. */
  function PageCount(total: nat, perPage: int): (p: Pages)
    ensures perPage != 0 ==> p.Pages?
    ensures perPage == 0 ==> (p == NotANumber <==> total == 0) && (p == PositiveInfinity <==> total > 0)
  {
    if perPage == 0 then (if total == 0 then NotANumber else PositiveInfinity)
    else Pages(CeilDiv(total, perPage))
  }

  // ---------------------------------------------------------------------------
  // The two queries and their meaning
  // ---------------------------------------------------------------------------

  /** `SELECT * FROM game [WHERE title LIKE %t%] ORDER BY title ASC LIMIT limit OFFSET offset` */
  datatype SelectQuery = SelectQuery(offset: int, limit: int, titleLike: Option<string>)

  /** `SELECT COUNT(id) FROM game [WHERE title LIKE %t%]` */
  datatype CountQuery = CountQuery(titleLike: Option<string>)

  /** `dbQuery` in `find`: the page query; the title filter is added only for a non-null title. */
  function PageQuery(q: FindGamesQuery): SelectQuery {
    SelectQuery(Offset(q), PerPage(q), q.title)
  }

  /** `getRegistersCount`: the count query, filtered by the same title. */
  function CountOf(q: FindGamesQuery): CountQuery {
    CountQuery(q.title)
  }

  predicate IsPrefix(p: string, s: string) {
    |p| <= |s| && s[..|p|] == p
  }

  /** `LIKE '%needle%'`: the needle occurs somewhere in `s`. */
  predicate Contains(s: string, needle: string)
    decreases |s|
  {
    IsPrefix(needle, s) || (s != [] && Contains(s[1..], needle))
  }

  predicate Matches(titleLike: Option<string>, g: Game) {
    titleLike.None? || Contains(g.title, titleLike.value)
  }

  /** The rows of `table` that the title filter keeps, in table order. */
  function Where(table: seq<Game>, titleLike: Option<string>): (rows: seq<Game>)
    ensures forall g :: g in rows <==> g in table && Matches(titleLike, g)
    ensures forall g :: Matches(titleLike, g) ==> multiset(rows)[g] == multiset(table)[g]
    ensures titleLike.None? ==> rows == table
    ensures |rows| <= |table|
  {
    if table == [] then []
    else
      assert table == [table[0]] + table[1..];
      (if Matches(titleLike, table[0]) then [table[0]] else []) + Where(table[1..], titleLike)
  }

  /** Lexicographic order on titles. */
  predicate TitleAtMost(a: string, b: string)
    decreases |a|
  {
    a == [] || (b != [] && (a[0] < b[0] || (a[0] == b[0] && TitleAtMost(a[1..], b[1..]))))
  }

  lemma {:induction false} TitleOrderTotal(a: string, b: string)
    ensures TitleAtMost(a, b) || TitleAtMost(b, a)
    decreases |a|
  {
    if a != [] && b != [] && a[0] == b[0] {
      TitleOrderTotal(a[1..], b[1..]);
    }
  }

  predicate SortedByTitle(rows: seq<Game>) {
    forall i :: 0 <= i < |rows| - 1 ==> TitleAtMost(rows[i].title, rows[i + 1].title)
  }

  /** A row at most the first title of sorted rows can be put in front of them. */
  lemma SortedCons(g: Game, rows: seq<Game>)
    requires SortedByTitle(rows)
    requires rows != [] ==> TitleAtMost(g.title, rows[0].title)
    ensures SortedByTitle([g] + rows)
  {
    var r := [g] + rows;
    assert forall i :: 1 <= i < |r| ==> r[i] == rows[i - 1];
  }

  /** Insert `g` into rows ordered by title, before the first row whose title is not below `g`'s. */
  function Insert(g: Game, rows: seq<Game>): seq<Game> {
    if rows == [] then [g]
    else if TitleAtMost(g.title, rows[0].title) then [g] + rows
    else [rows[0]] + Insert(g, rows[1..])
  }

  lemma {:induction false} InsertKeepsOrder(g: Game, rows: seq<Game>)
    requires SortedByTitle(rows)
    ensures SortedByTitle(Insert(g, rows))
    ensures Insert(g, rows)[0] == g || (rows != [] && Insert(g, rows)[0] == rows[0])
    decreases |rows|
  {
    if rows == [] {
    } else if TitleAtMost(g.title, rows[0].title) {
      SortedCons(g, rows);
    } else {
      TitleOrderTotal(g.title, rows[0].title);
      var tail := rows[1..];
      assert SortedByTitle(tail) by {
        assert forall i :: 0 <= i < |tail| ==> tail[i] == rows[i + 1];
      }
      InsertKeepsOrder(g, tail);
      var rest := Insert(g, tail);
      assert TitleAtMost(rows[0].title, rest[0].title) by {
        if rest[0] != g {
          assert rows[1] == tail[0] && TitleAtMost(rows[0].title, rows[1].title);
        }
      }
      SortedCons(rows[0], rest);
    }
  }

  lemma {:induction false} InsertAddsOne(g: Game, rows: seq<Game>)
    ensures multiset(Insert(g, rows)) == multiset(rows) + multiset{g}
    decreases |rows|
  {
    if rows != [] && !TitleAtMost(g.title, rows[0].title) {
      InsertAddsOne(g, rows[1..]);
      assert rows == [rows[0]] + rows[1..];
    }
  }

  /** `ORDER BY title ASC`. */
  function SortByTitle(rows: seq<Game>): (r: seq<Game>)
    ensures SortedByTitle(r)
    ensures multiset(r) == multiset(rows)
    ensures |r| == |rows|
  {
    if rows == [] then []
    else
      var rest := SortByTitle(rows[1..]);
      InsertKeepsOrder(rows[0], rest);
      InsertAddsOne(rows[0], rest);
      assert multiset(rows) == multiset(rows[1..]) + multiset{rows[0]} by {
        assert rows == [rows[0]] + rows[1..];
      }
      Insert(rows[0], rest)
  }

  function Min(a: int, b: int): int {
    if a <= b then a else b
  }

  /** `LIMIT limit OFFSET offset` over already ordered rows. */
  function Slice(rows: seq<Game>, offset: nat, limit: nat): seq<Game> {
    rows[Min(offset, |rows|)..Min(offset + limit, |rows|)]
  }

  /** The rows a select query returns; `None` when the database refuses a negative offset or limit. */
  function Execute(sq: SelectQuery, table: seq<Game>): Option<seq<Game>> {
    if sq.offset < 0 || sq.limit < 0 then None
    else Some(Slice(SortByTitle(Where(table, sq.titleLike)), sq.offset, sq.limit))
  }

  /** The number a count query returns. */
  function Count(cq: CountQuery, table: seq<Game>): nat {
    |Where(table, cq.titleLike)|
  }

  datatype QueryData = QueryData(results: seq<Game>, pages: Pages)

  /** Ordering the filtered rows brings in no row that is not a matching table row. */
  lemma OrderedRowsMatch(table: seq<Game>, titleLike: Option<string>)
    ensures forall g :: g in SortByTitle(Where(table, titleLike)) ==> g in table && Matches(titleLike, g)
  {
    var rows := Where(table, titleLike);
    var sorted := SortByTitle(rows);
    forall g | g in sorted
      ensures g in table && Matches(titleLike, g)
    {
      assert g in multiset(sorted);
      assert g in multiset(rows);
    }
  }

  /**
    `find`: one page of games, ordered by title, each matching the title
    filter, at most `perPage` of them, with the page count of the same filter.
  */
  function Find(q: FindGamesQuery, table: seq<Game>): (r: Option<QueryData>)
    ensures r.None? <==> PerPage(q) < 0 || Offset(q) < 0
    ensures r.Some? ==>
              && SortedByTitle(r.value.results)
              && |r.value.results| <= PerPage(q)
              && (forall g :: g in r.value.results ==> g in table && Matches(q.title, g))
              && r.value.pages == PageCount(|Where(table, q.title)|, PerPage(q))
  {
    var total := Count(CountOf(q), table);
    var pages := PageCount(total, PerPage(q));
    var sq := PageQuery(q);
    assert sq.offset == Offset(q) && sq.limit == PerPage(q) && sq.titleLike == q.title;
    match Execute(sq, table)
    case None => None
    case Some(results) =>
      var sorted := SortByTitle(Where(table, q.title));
      assert results == Slice(sorted, sq.offset, sq.limit);
      assert forall g :: g in results ==> g in sorted;
      OrderedRowsMatch(table, q.title);
      Some(QueryData(results, pages))
  }

  // ---------------------------------------------------------------------------
  // Pagination properties
  // ---------------------------------------------------------------------------

  /**
    For a positive page size the page count is the least number of pages that
    hold every row: `pages * perPage` covers the total and one page fewer does
    not; with no rows there are no pages, whatever the non-zero page size.
  */
  lemma PageCountBounds(total: nat, perPage: int)
    requires perPage != 0
    ensures PageCount(total, perPage).Pages?
    ensures var n := PageCount(total, perPage).count;
            && (perPage > 0 ==> n * perPage >= total && (total > 0 ==> (n - 1) * perPage < total))
            && (total == 0 ==> n == 0)
  {
    var n := PageCount(total, perPage).count;
    if total == 0 {
      if perPage > 0 {
        assert (n - 1) * perPage < 0 <= n * perPage;
      } else {
        assert n * perPage <= 0 < (n - 1) * perPage;
      }
    }
  }

  /** For a positive page size, page `k` starts before row `total` exactly when `k` is at most the page count. */
  lemma PageStartBeforeTotal(total: nat, limit: int, k: int)
    requires limit > 0 && k >= 1
    ensures PageCount(total, limit).Pages?
    ensures k <= PageCount(total, limit).count <==> limit * (k - 1) < total
  {
    PageCountBounds(total, limit);
    var n := PageCount(total, limit).count;
    MulStep(k, limit);
    if total == 0 {
      assert n == 0;
    } else if k <= n {
      MulMonotone(k - 1, n - 1, limit);
    } else {
      MulMonotone(n, k - 1, limit);
    }
  }

  lemma MulMonotone(a: int, b: int, c: int)
    requires a <= b && c >= 0
    ensures a * c <= b * c
  {
  }

  /**
    For a positive page size, a requested page from 1 to `pages` starts inside
    the matching rows, and a page past `pages` starts at or beyond their end.
  */
  lemma OffsetWithinRows(q: FindGamesQuery, table: seq<Game>)
    requires PerPage(q) > 0 && PageNumber(q) >= 1
    ensures PageCount(Count(CountOf(q), table), PerPage(q)).Pages?
    ensures var total := Count(CountOf(q), table);
            PageNumber(q) <= PageCount(total, PerPage(q)).count <==> Offset(q) < total
  {
    PageStartBeforeTotal(Count(CountOf(q), table), PerPage(q), PageNumber(q));
  }

  /** Without a numeric page the offset is 0, whatever the page size. */
  lemma DefaultPageStartsAtZero(q: FindGamesQuery)
    requires q.page.None?
    ensures Offset(q) == 0
    ensures PageQuery(q).offset == 0
  {
  }

  /** The query for page `k` of size `limit` filtered by `title`. */
  function PageRequest(limit: int, k: int, title: Option<string>): FindGamesQuery {
    FindGamesQuery(Some(limit), Some(k), title)
  }

  /** The rows of page `k`: the slice of the ordered matching rows that starts at its offset. */
  lemma PageRows(table: seq<Game>, limit: nat, k: int, title: Option<string>)
    requires k >= 1
    ensures Find(PageRequest(limit, k, title), table).Some?
    ensures Find(PageRequest(limit, k, title), table).value.results
            == Slice(SortByTitle(Where(table, title)), limit * (k - 1), limit)
    ensures Find(PageRequest(limit, k, title), table).value.pages
            == PageCount(|SortByTitle(Where(table, title))|, limit)
  {
    var q := PageRequest(limit, k, title);
    var rows := SortByTitle(Where(table, title));
    assert PerPage(q) == limit && Offset(q) == limit * (k - 1) >= 0;
    assert Count(CountOf(q), table) == |rows|;
    assert Execute(PageQuery(q), table) == Some(Slice(rows, limit * (k - 1), limit));
  }

  lemma MulStep(n: int, l: int)
    ensures n * l == (n - 1) * l + l
    ensures l * (n - 1) == (n - 1) * l
  {
  }

  /** Pages 1 to `n` of `rows` for page size `limit`, concatenated. */
  function FirstPages(rows: seq<Game>, limit: nat, n: nat): seq<Game>
  {
    if n == 0 then [] else FirstPages(rows, limit, n - 1) + Slice(rows, limit * (n - 1), limit)
  }

  lemma {:induction false} FirstPagesArePrefix(rows: seq<Game>, limit: nat, n: nat)
    ensures FirstPages(rows, limit, n) == rows[..Min(n * limit, |rows|)]
  {
    if n > 0 {
      FirstPagesArePrefix(rows, limit, n - 1);
      MulStep(n, limit);
      var a := Min((n - 1) * limit, |rows|);
      var b := Min(n * limit, |rows|);
      assert a <= b;
      assert Slice(rows, limit * (n - 1), limit) == rows[a..b];
      assert rows[..b] == rows[..a] + rows[a..b];
    }
  }

  /** Pages 1 to `pages` of any rows, concatenated, are the rows. */
  lemma EveryPageOfRows(rows: seq<Game>, limit: int)
    requires limit > 0
    ensures PageCount(|rows|, limit).Pages?
    ensures PageCount(|rows|, limit).count >= 0
    ensures FirstPages(rows, limit, PageCount(|rows|, limit).count) == rows
  {
    PageCountBounds(|rows|, limit);
    var n := PageCount(|rows|, limit).count;
    FirstPagesArePrefix(rows, limit, n);
    assert rows[..Min(n * limit, |rows|)] == rows;
  }

  /** Slice `k` of any rows is non-empty exactly when `k` is at most the page count. */
  lemma PageOfRowsInRange(rows: seq<Game>, limit: int, k: int)
    requires limit > 0 && k >= 1
    ensures PageCount(|rows|, limit).Pages?
    ensures Slice(rows, limit * (k - 1), limit) != [] <==> k <= PageCount(|rows|, limit).count
  {
    PageStartBeforeTotal(|rows|, limit, k);
  }

  /** The results `find` returns for page `k` of size `limit` filtered by `title`. */
  function FoundPage(table: seq<Game>, limit: nat, title: Option<string>, k: int): seq<Game>
  {
    match Find(PageRequest(limit, k, title), table)
    case Some(d) => d.results
    case None => []
  }

  /** Pages 1 to `n`, each given by `page`, concatenated. */
  function Concat(page: int -> seq<Game>, n: nat): seq<Game>
  {
    if n == 0 then [] else Concat(page, n - 1) + page(n)
  }

  /** The results `find` returns for pages 1 to `n` of size `limit` filtered by `title`, concatenated. */
  function FoundPages(table: seq<Game>, limit: nat, title: Option<string>, n: nat): seq<Game>
  {
    Concat(k => FoundPage(table, limit, title, k), n)
  }

  /** Pages that are, one by one, the slices of `rows` concatenate to the first pages of `rows`. */
  lemma {:induction false} ConcatOfSlices(page: int -> seq<Game>, rows: seq<Game>, limit: nat, n: nat)
    requires forall k :: 1 <= k <= n ==> page(k) == Slice(rows, limit * (k - 1), limit)
    ensures Concat(page, n) == FirstPages(rows, limit, n)
  {
    if n > 0 {
      ConcatOfSlices(page, rows, limit, n - 1);
    }
  }

  lemma EveryFoundPageIsSlice(table: seq<Game>, limit: nat, title: Option<string>)
    ensures forall k :: k >= 1 ==>
              FoundPage(table, limit, title, k) == Slice(SortByTitle(Where(table, title)), limit * (k - 1), limit)
  {
    forall k | k >= 1
      ensures FoundPage(table, limit, title, k) == Slice(SortByTitle(Where(table, title)), limit * (k - 1), limit)
    {
      FoundPageIsSlice(table, limit, title, k);
    }
  }

  lemma FoundPageIsSlice(table: seq<Game>, limit: nat, title: Option<string>, k: int)
    requires k >= 1
    ensures FoundPage(table, limit, title, k) == Slice(SortByTitle(Where(table, title)), limit * (k - 1), limit)
  {
    PageRows(table, limit, k, title);
  }

  /**
    Reading pages 1 to `pages` with a positive page size yields the games
    matching the title, each as often as it is in the table, in title order.
  */
  lemma ReadingEveryPage(table: seq<Game>, limit: int, title: Option<string>)
    requires limit > 0
    ensures Find(PageRequest(limit, 1, title), table).Some?
    ensures Find(PageRequest(limit, 1, title), table).value.pages.Pages?
    ensures Find(PageRequest(limit, 1, title), table).value.pages.count >= 0
    ensures var all := FoundPages(table, limit, title, Find(PageRequest(limit, 1, title), table).value.pages.count);
            && all == SortByTitle(Where(table, title))
            && SortedByTitle(all)
            && (forall g :: g in all <==> g in table && Matches(title, g))
            && (forall g :: Matches(title, g) ==> multiset(all)[g] == multiset(table)[g])
  {
    PageRows(table, limit, 1, title);
    var rows := SortByTitle(Where(table, title));
    EveryPageOfRows(rows, limit);
    var n := PageCount(|rows|, limit).count;
    EveryFoundPageIsSlice(table, limit, title);
    ConcatOfSlices(k => FoundPage(table, limit, title, k), rows, limit, n);
    assert forall g :: g in rows <==> g in multiset(rows);
  }

  /** A page numbered from 1 to `pages` is never empty; a page past `pages` always is. */
  lemma PageInRange(table: seq<Game>, limit: int, k: int, title: Option<string>)
    requires limit > 0 && k >= 1
    ensures Find(PageRequest(limit, k, title), table).Some?
    ensures Find(PageRequest(limit, k, title), table).value.pages.Pages?
    ensures Find(PageRequest(limit, k, title), table).value.results != []
            <==> k <= Find(PageRequest(limit, k, title), table).value.pages.count
  {
    PageRows(table, limit, k, title);
    PageOfRowsInRange(SortByTitle(Where(table, title)), limit, k);
  }
}
