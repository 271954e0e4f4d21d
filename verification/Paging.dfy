/** Listing the catalog page by page: filter, order, limit and offset, and the
    client that follows next_cursor. */
module Paging {
  import opened Collections
  import opened Cursor
  import Names
  import Text

  datatype Row = Row(id: string, title: string, author: string, deleted: bool,
                     libraryId: int, libraryPath: string, libraryEnabled: bool)

  datatype Book = Book(id: string, title: string, authors: seq<string>)

  /** The query parameters of a list request, "" when absent. */
  datatype Query = Query(library: string, search: string, limit: string, page: string, cursor: string, libraryId: string)

  datatype Params = Params(page: int, limit: int, search: string, libraryId: int, library: string)

  datatype Page = Page(items: seq<Book>, total: nat, page: int, limit: int, nextCursor: string)

  /** title ILIKE or author ILIKE: any relation between search text and row. */
  type Like = (string, Row) -> bool

  // ---- request parameters -----------------------------------------------------------

  function NormalizeLimit(n: int): (r: int)
    ensures 1 <= r <= 200
    ensures 1 <= n <= 200 ==> r == n
    ensures n > 200 ==> r == 200
    ensures n <= 0 ==> r == 50
  {
    if n <= 0 then 50 else if n > 200 then 200 else n
  }

  function NormalizePage(n: int): (r: int)
    ensures r >= 1 && (n >= 1 ==> r == n)
    ensures n < 1 ==> r == 1
  {
    if n < 1 then 1 else n
  }

  /** None is the 400 answer: a library_id that is present but invalid is never
      dropped, or the filter it stands for would silently disappear. */
  method ListParams(q: Query) returns (p: Option<Params>)
    ensures p.None? <==> q.libraryId != "" && (!Atoi(q.libraryId).1 || Atoi(q.libraryId).0 <= 0)
    ensures p.Some? ==>
      && p.value.library == q.library && p.value.search == q.search && p.value.limit == Atoi(q.limit).0
      && p.value.page == (if q.cursor != "" then DecodeCursor(q.cursor) else Atoi(q.page).0)
      && p.value.libraryId == (if q.libraryId != "" then Atoi(q.libraryId).0 else 0)
      && (p.value.libraryId > 0 <==> q.libraryId != "")
  {
    var params := Params(0, Atoi(q.limit).0, q.search, 0, q.library);
    if q.cursor != "" {
      params := params.(page := DecodeCursor(q.cursor));
    } else {
      params := params.(page := Atoi(q.page).0);
    }
    if q.libraryId != "" {
      var (n, ok) := Atoi(q.libraryId);
      if !ok || n <= 0 {
        return None;
      }
      params := params.(libraryId := n);
    }
    p := Some(params);
  }

  // ---- the ordered result -------------------------------------------------------------

  predicate Selected(p: Params, like: Like, r: Row) {
    && !r.deleted && r.libraryEnabled
    && (p.search != "" ==> like(p.search, r))
    && (p.library != "" ==> r.libraryPath == p.library)
    && (p.libraryId > 0 ==> r.libraryId == p.libraryId)
  }

  /** ORDER BY title, id. */
  predicate Precedes(a: Row, b: Row) {
    Text.Before(a.title, b.title) || (a.title == b.title && Text.Before(a.id, b.id))
  }

  predicate Ordered(s: seq<Row>) {
    forall i, j | 0 <= i < j < |s| :: Precedes(s[i], s[j])
  }

  function Insert(r: Row, s: seq<Row>): seq<Row> {
    if s == [] then [r] else if Precedes(r, s[0]) then [r] + s else [s[0]] + Insert(r, s[1..])
  }

  /** The selected rows of a table in order, whatever its physical order. */
  function Result(table: seq<Row>, p: Params, like: Like): seq<Row> {
    if table == [] then []
    else if Selected(p, like, table[0]) then Insert(table[0], Result(table[1..], p, like))
    else Result(table[1..], p, like)
  }

  predicate DistinctIds(table: seq<Row>) {
    forall i, j | 0 <= i < j < |table| :: table[i].id != table[j].id
  }

  lemma PrecedesLaws(a: Row, b: Row, c: Row)
    ensures !(Precedes(a, b) && Precedes(b, a)) && !Precedes(a, a)
    ensures a.id != b.id ==> Precedes(a, b) || Precedes(b, a)
    ensures Precedes(a, b) && Precedes(b, c) ==> Precedes(a, c)
  {
    Text.BeforeTotal(a.title, b.title);
    Text.BeforeTotal(a.id, b.id);
    Text.BeforeTotal(a.title, a.title);
    Text.BeforeTotal(a.id, a.id);
    if Text.Before(a.title, b.title) && Text.Before(b.title, c.title) {
      Text.BeforeTransitive(a.title, b.title, c.title);
    }
    if Text.Before(a.id, b.id) && Text.Before(b.id, c.id) {
      Text.BeforeTransitive(a.id, b.id, c.id);
    }
  }

  lemma {:induction false} InsertOrdered(r: Row, s: seq<Row>)
    requires Ordered(s) && forall x | x in s :: x.id != r.id
    ensures Ordered(Insert(r, s)) && forall x | x in Insert(r, s) :: x in s || x == r
  {
    if s == [] {
    } else if Precedes(r, s[0]) {
      forall x | x in s ensures Precedes(r, x) {
        PrecedesLaws(r, s[0], x);
      }
    } else {
      PrecedesLaws(r, s[0], r);
      InsertOrdered(r, s[1..]);
      forall x | x in Insert(r, s[1..]) ensures Precedes(s[0], x) {
      }
    }
  }

  lemma {:induction false} InsertMultiset(r: Row, s: seq<Row>)
    ensures multiset(Insert(r, s)) == multiset(s) + multiset{r}
  {
    if s == [] {
    } else if Precedes(r, s[0]) {
      PushFront(r, s);
    } else {
      InsertMultiset(r, s[1..]);
      PushPast(s[0], s[1..], Insert(r, s[1..]), r);
      FirstApart(s);
    }
  }

  function Chosen(m: multiset<Row>, p: Params, like: Like, r: Row): nat {
    if Selected(p, like, r) then m[r] else 0
  }

  lemma {:induction false} ResultOrdered(table: seq<Row>, p: Params, like: Like)
    requires DistinctIds(table)
    ensures Ordered(Result(table, p, like))
    ensures forall r :: multiset(Result(table, p, like))[r] == Chosen(multiset(table), p, like, r)
  {
    if table != [] {
      var r, rest := table[0], Result(table[1..], p, like);
      assert table == [r] + table[1..];
      ResultOrdered(table[1..], p, like);
      assert multiset(table) == multiset{r} + multiset(table[1..]);
      forall x | x in rest ensures x.id != r.id {
        assert multiset(rest)[x] > 0;
        assert x in multiset(table[1..]);
        assert x in table[1..];
      }
      if Selected(p, like, r) {
        InsertOrdered(r, rest);
        InsertMultiset(r, rest);
      }
    }
  }

  lemma {:induction false} OrderedUnique(a: seq<Row>, b: seq<Row>)
    requires Ordered(a) && Ordered(b) && multiset(a) == multiset(b)
    ensures a == b
  {
    SameLength(a, b);
    if a != [] {
      FirstOfOrdered(a, b);
      TakeOutBoth(a, 0, b, 0);
      assert Without(a, 0) == a[1..] && Without(b, 0) == b[1..];
      OrderedUnique(a[1..], b[1..]);
    }
  }

  lemma FirstOfOrdered(a: seq<Row>, b: seq<Row>)
    requires Ordered(a) && Ordered(b) && multiset(a) == multiset(b) && a != [] && b != []
    ensures a[0] == b[0]
  {
    assert a[0] in multiset(a) && b[0] in multiset(b);
    var i :| 0 <= i < |b| && b[i] == a[0];
    var j :| 0 <= j < |a| && a[j] == b[0];
    PrecedesLaws(a[0], b[0], a[0]);
  }

  /** The id tiebreaker makes the order total, so two queries of the same table
      give the same list even if the rows come in a different physical order. */
  lemma ResultIgnoresPhysicalOrder(t: seq<Row>, u: seq<Row>, p: Params, like: Like)
    requires DistinctIds(t) && DistinctIds(u) && multiset(t) == multiset(u)
    ensures Result(t, p, like) == Result(u, p, like)
  {
    ResultOrdered(t, p, like);
    ResultOrdered(u, p, like);
    assert multiset(Result(t, p, like)) == multiset(Result(u, p, like));
    OrderedUnique(Result(t, p, like), Result(u, p, like));
  }

  lemma {:induction false} ResultCounts(table: seq<Row>, p: Params, like: Like)
    ensures |Result(table, p, like)| == |Places(r => Selected(p, like, r), table)|
  {
    var f := r => Selected(p, like, r);
    if table == [] {
      assert Places(f, table) == {};
    } else {
      ResultCounts(table[1..], p, like);
      FirstApart(table);
      PlacesFirst(f, table[0], table[1..]);
      InsertLength(table[0], Result(table[1..], p, like));
    }
  }

  /** The number of rows that a listing counts, whatever page it shows. */
  lemma TotalMeans(table: seq<Row>, p: Params, like: Like)
    ensures |Result(table, p, like)| == |set i: nat |
              && i < |table| && !table[i].deleted && table[i].libraryEnabled
              && (p.search == "" || like(p.search, table[i]))
              && (p.library == "" || table[i].libraryPath == p.library)
              && (p.libraryId <= 0 || table[i].libraryId == p.libraryId)|
  {
    ResultCounts(table, p, like);
    assert Places(r => Selected(p, like, r), table) == set i: nat |
              && i < |table| && !table[i].deleted && table[i].libraryEnabled
              && (p.search == "" || like(p.search, table[i]))
              && (p.library == "" || table[i].libraryPath == p.library)
              && (p.libraryId <= 0 || table[i].libraryId == p.libraryId);
  }

  // ---- one page --------------------------------------------------------------------------

  function AsBook(r: Row): Book { Book(r.id, r.title, Names.Listed(r.author)) }

  predicate ShowsRow(b: Book, r: Row) {
    b.id == r.id && b.title == r.title && b.authors == Names.Listed(r.author)
  }

  function AsBooks(rs: seq<Row>): seq<Book> { Each(AsBook, rs) }

  lemma BookAt(rs: seq<Row>, i: nat)
    requires i < |rs|
    ensures |AsBooks(rs)| == |rs| && ShowsRow(AsBooks(rs)[i], rs[i])
  {
    assert AsBooks(rs)[i] == AsBook(rs[i]);
  }

  function Min(a: int, b: int): int { if a < b then a else b }

  /** LIMIT and OFFSET. */
  function Window<T>(s: seq<T>, limit: nat, offset: nat): seq<T> {
    s[Min(offset, |s|)..Min(offset + limit, |s|)]
  }

  /** The answer to a list request. None is the error of a negative OFFSET,
      which a wrapped product can produce. */
  function Listing(table: seq<Row>, p: Params, like: Like): Option<Page> {
    var limit, page := NormalizeLimit(p.limit), NormalizePage(p.page);
    var offset := Wrap64((page - 1) * limit);
    var all := Result(table, p, like);
    if offset < 0 then None
    else Some(Page(AsBooks(Window(all, limit, offset)), |all|, page, limit, NextCursor(page, limit, |all|)))
  }

  /** ListEbooks and listEbooks. */
  method ListEbooks(table: seq<Row>, p: Params, like: Like) returns (out: Option<Page>)
    ensures out == Listing(table, p, like)
    ensures out.None? <==> Wrap64((NormalizePage(p.page) - 1) * NormalizeLimit(p.limit)) < 0
    ensures out.Some? ==> out.value.page == NormalizePage(p.page) && out.value.limit == NormalizeLimit(p.limit)
    ensures out.Some? ==>
      out.value.total == |set i: nat |
        && i < |table| && !table[i].deleted && table[i].libraryEnabled
        && (p.search == "" || like(p.search, table[i]))
        && (p.library == "" || table[i].libraryPath == p.library)
        && (p.libraryId <= 0 || table[i].libraryId == p.libraryId)|
  {
    TotalMeans(table, p, like);
    var limit := NormalizeLimit(p.limit);
    var page := NormalizePage(p.page);
    var offset := Wrap64((page - 1) * limit);
    var all := Result(table, p, like);
    if offset < 0 {
      return None;
    }
    var items := ScanRows(Window(all, limit, offset));
    out := Some(Page(items, |all|, page, limit, NextCursor(page, limit, |all|)));
  }

  method ScanRows(rows: seq<Row>) returns (items: seq<Book>)
    ensures items == AsBooks(rows)
  {
    items := [];
    for i := 0 to |rows|
      invariant |items| == i && forall j | 0 <= j < i :: items[j] == AsBook(rows[j])
    {
      var authors := Names.SplitCSV(rows[i].author);
      items := items + [Book(rows[i].id, rows[i].title, authors)];
    }
  }

  lemma ProductSign(a: nat, b: nat)
    ensures a * b >= 0 && (b >= 1 ==> a * b >= a)
  {
    if b >= 1 {
      ProductSign(a, b - 1);
    }
  }

  lemma ListingItems(table: seq<Row>, p: Params, like: Like, limit: nat, offset: int)
    requires limit == NormalizeLimit(p.limit) && offset == Wrap64((NormalizePage(p.page) - 1) * limit)
    ensures Listing(table, p, like).None? <==> offset < 0
    ensures offset >= 0 ==>
              Listing(table, p, like).value.items == AsBooks(Window(Result(table, p, like), limit, offset))
  {
  }

  /** Windows of a non-zero limit at two offsets agree if one is the other, or
      both lie past the end; past the end only with another such. */
  lemma WindowPastEnd<A, B>(f: A -> B, s: seq<A>, limit: nat, offset: nat)
    requires limit >= 1
    ensures Each(f, Window(s, limit, offset)) == [] <==> offset >= |s|
  {
  }

  /** The items of a page are the intended ones exactly while the offset fits
      into 64 bits, or its cut-off value still lies past the end. */
  lemma OffsetFits(table: seq<Row>, p: Params, like: Like)
    requires |Result(table, p, like)| <= MAX_INT
    ensures var all, limit, page := Result(table, p, like), NormalizeLimit(p.limit), NormalizePage(p.page);
      var x := (page - 1) * limit;
      x >= 0 &&
      (Listing(table, p, like).Some? && Listing(table, p, like).value.items == AsBooks(Window(all, limit, x))
       <==> x <= MAX_INT || Wrap64(x) >= |all|)
  {
    var all, limit, page := Result(table, p, like), NormalizeLimit(p.limit), NormalizePage(p.page);
    ProductSign(page - 1, limit);
    var x := (page - 1) * limit;
    WrapFits(x);
    ListingItems(table, p, like, limit, Wrap64(x));
    if x > MAX_INT && Wrap64(x) >= 0 {
      WindowPastEnd(AsBook, all, limit, x);
      WindowPastEnd(AsBook, all, limit, Wrap64(x));
    }
  }

  lemma ListingCursor(table: seq<Row>, p: Params, like: Like, limit: nat, page: int)
    requires limit == NormalizeLimit(p.limit) && page == NormalizePage(p.page)
    requires Listing(table, p, like).Some?
    ensures Listing(table, p, like).value.nextCursor == NextCursor(page, limit, |Result(table, p, like)|)
  {
  }

  /** The cursor of a page is absent exactly at the end, exactly while its own
      product fits or its cut-off value reaches the total. A page can have the
      right items and the wrong cursor. */
  lemma CursorFits(table: seq<Row>, p: Params, like: Like)
    requires p.page <= MAX_INT && |Result(table, p, like)| <= MAX_INT && Listing(table, p, like).Some?
    ensures var total, limit, page := |Result(table, p, like)|, NormalizeLimit(p.limit), NormalizePage(p.page);
      (Listing(table, p, like).value.nextCursor == "" <==> page * limit >= total)
      <==> page * limit <= MAX_INT || Wrap64(page * limit) >= total
  {
    var limit, page := NormalizeLimit(p.limit), NormalizePage(p.page);
    ListingCursor(table, p, like, limit, page);
    ProductSign(page, limit);
    CursorEndsTheList(page, limit, |Result(table, p, like)|);
  }

  /** A page whose own product wraps below zero hands out a cursor wherever it is. */
  lemma WrappedCursor(page: int, limit: int, total: nat)
    requires 1 <= page < MAX_INT && limit >= 1 && Wrap64(page * limit) < 0
    ensures NextCursor(page, limit, total) != "" && DecodeCursor(NextCursor(page, limit, total)) == page + 1
  {
    CursorLeadsToNextPage(page, limit, total);
  }

  lemma EmptyWindow(table: seq<Row>, p: Params, like: Like, limit: nat, offset: nat)
    requires limit == NormalizeLimit(p.limit) && offset == Wrap64((NormalizePage(p.page) - 1) * limit)
    requires offset >= |Result(table, p, like)|
    ensures Listing(table, p, like).Some? && Listing(table, p, like).value.items == []
  {
    ListingItems(table, p, like, limit, offset);
    WindowPastEnd(AsBook, Result(table, p, like), limit, offset);
  }

  /** The offset of the page after such a one. */
  lemma NextOffset(page: int, limit: int)
    requires 1 <= page < MAX_INT && limit >= 1 && Wrap64(page * limit) < 0
    ensures Wrap64((page + 1 - 1) * limit) < 0
  {
    assert page + 1 - 1 == page;
  }

  lemma EmptyPageHasCursor(table: seq<Row>, p: Params, like: Like, limit: int)
    requires 1 <= p.page < MAX_INT && limit == NormalizeLimit(p.limit)
    requires |Result(table, p, like)| <= (p.page - 1) * limit <= MAX_INT && Wrap64(p.page * limit) < 0
    ensures Listing(table, p, like).Some? && Listing(table, p, like).value.items == []
    ensures Listing(table, p, like).value.nextCursor != ""
    ensures DecodeCursor(Listing(table, p, like).value.nextCursor) == p.page + 1
  {
    WrapFits((p.page - 1) * limit);
    EmptyWindow(table, p, like, limit, (p.page - 1) * limit);
    ListingCursor(table, p, like, limit, p.page);
    WrappedCursor(p.page, limit, |Result(table, p, like)|);
  }

  lemma NegativeOffset(table: seq<Row>, p: Params, like: Like)
    requires Wrap64((NormalizePage(p.page) - 1) * NormalizeLimit(p.limit)) < 0
    ensures Listing(table, p, like).None?
  {
  }

  /** A page past the end whose offset fits and whose own product does not, on
      every table: it is empty, yet hands out a cursor, and following that is the
      error of a negative OFFSET. */
  lemma EmptyPageLeadsToError(table: seq<Row>, p: Params, like: Like, limit: int, next: Params)
    requires 1 <= p.page < MAX_INT && limit == NormalizeLimit(p.limit)
    requires |Result(table, p, like)| <= (p.page - 1) * limit <= MAX_INT && Wrap64(p.page * limit) < 0
    requires Listing(table, p, like).Some? ==> next == p.(page := DecodeCursor(Listing(table, p, like).value.nextCursor))
    ensures var far := Listing(table, p, like);
      && far.Some? && far.value.items == [] && far.value.nextCursor != ""
      && next.page == p.page + 1 && Listing(table, next, like).None?
  {
    EmptyPageHasCursor(table, p, like, limit);
    NextOffset(p.page, limit);
    NegativeOffset(table, next, like);
  }

  /** There is such a page, beyond the end of any list. */
  lemma EmptyPage() returns (page: int, limit: int)
    ensures 1 <= page < MAX_INT && 1 <= limit <= 200
    ensures (page - 1) * limit == MAX_INT - 1 && Wrap64(page * limit) < 0
  {
    page, limit := 0x4000_0000_0000_0000, 2;
  }

  /** Beyond that a page far past the end can show the first page again. */
  lemma WrappedPageRepeatsFirst(table: seq<Row>, p: Params, like: Like)
    requires p.limit == 4 && p.page == 0x4000_0000_0000_0001
    ensures p.page <= MAX_INT
    ensures var far, first := Listing(table, p, like), Listing(table, p.(page := 1), like);
      && far.Some? && first.Some?
      && far.value.items == first.value.items == AsBooks(Window(Result(table, p, like), 4, 0))
  {
    PageIsNoFilter(table, p, p.(page := 1), like);
    ListingItems(table, p, like, 4, 0);
    ListingItems(table, p.(page := 1), like, 4, 0);
  }

  // ---- following the cursor ------------------------------------------------------------------

  lemma NextWindow<T>(s: seq<T>, k: nat, limit: nat)
    requires k <= |s|
    ensures s[..k] + Window(s, limit, k) == s[..Min(k + limit, |s|)]
  {
  }

  lemma EachOfWindow<A, B>(f: A -> B, s: seq<A>, k: nat, limit: nat)
    ensures Each(f, Window(s, limit, k)) == Window(Each(f, s), limit, k)
  {
  }

  /** What a query selects, whatever page it asks for. */
  function Wanted(q: Query): Params {
    Params(0, Atoi(q.limit).0, q.search, if q.libraryId != "" then Atoi(q.libraryId).0 else 0, q.library)
  }

  function List(table: seq<Row>, q: Query, like: Like): seq<Book> {
    AsBooks(Result(table, Wanted(q), like))
  }

  predicate Acceptable(q: Query) {
    q.libraryId == "" || (Atoi(q.libraryId).1 && Atoi(q.libraryId).0 > 0)
  }

  /** A request for page n of the same query. */
  predicate Asks(request: Query, q: Query, n: int) {
    && request.(cursor := q.cursor) == q
    && n >= 1
    && NormalizePage(if request.cursor != "" then DecodeCursor(request.cursor) else Atoi(q.page).0) == n
  }

  function PageSize(q: Query): (limit: int)
    ensures 1 <= limit <= 200
  {
    NormalizeLimit(Atoi(q.limit).0)
  }

  /** What the listing answers to a request for page n + 1 of the walk. */
  lemma WalkedPage(table: seq<Row>, p: Params, like: Like, limit: nat, n: nat, k: nat)
    requires limit == NormalizeLimit(p.limit) && NormalizePage(p.page) == n + 1 && k == n * limit
    requires k <= |Result(table, p, like)| && |Result(table, p, like)| + 200 <= MAX_INT
    ensures var all, out := Result(table, p, like), Listing(table, p, like);
      && out.Some? && out.value.items == Window(AsBooks(all), limit, k)
      && (out.value.nextCursor == "" <==> k + limit >= |all|)
      && (out.value.nextCursor != "" ==> DecodeCursor(out.value.nextCursor) == n + 2)
  {
    PageBound(n, limit, |Result(table, p, like)|);
    ListingItems(table, p, like, limit, k);
    ListingCursor(table, p, like, limit, n + 1);
    EachOfWindow(AsBook, Result(table, p, like), k, limit);
  }

  /** One request of the walk: page n, k books into the list. */
  method FetchPage(table: seq<Row>, request: Query, like: Like, ghost q: Query, ghost n: nat, ghost k: nat)
    returns (page: Page)
    requires Acceptable(q) && Asks(request, q, n + 1)
    requires k == n * PageSize(q) <= |List(table, q, like)| && |List(table, q, like)| + 200 <= MAX_INT
    ensures page.items == Window(List(table, q, like), PageSize(q), k)
    ensures page.nextCursor == "" <==> k + PageSize(q) >= |List(table, q, like)|
    ensures page.nextCursor != "" ==> Asks(request.(cursor := page.nextCursor), q, n + 2)
  {
    var params := ListParams(request);
    assert params.value == Wanted(q).(page := params.value.page);
    PageIsNoFilter(table, Wanted(q), params.value, like);
    WalkedPage(table, params.value, like, PageSize(q), n, k);
    var out := ListEbooks(table, params.value, like);
    page := out.value;
  }

  predicate ByTitle(a: Book, b: Book) {
    Text.Before(a.title, b.title) || (a.title == b.title && Text.Before(a.id, b.id))
  }

  /** These books are exactly the rows a query is about, by title and then id:
      undeleted rows of enabled libraries that meet every filter it names. */
  ghost predicate Shows(books: seq<Book>, table: seq<Row>, q: Query, like: Like) {
    && (forall i, j | 0 <= i < j < |books| :: ByTitle(books[i], books[j]))
    && (forall b | b in books :: exists r | r in table :: ShowsRow(b, r))
    && (forall r | r in table ::
          (exists b | b in books :: b.id == r.id) <==>
          && !r.deleted && r.libraryEnabled
          && (q.search == "" || like(q.search, r))
          && (q.library == "" || r.libraryPath == q.library)
          && (q.libraryId == "" || r.libraryId == Atoi(q.libraryId).0))
  }

  lemma ResultMembers(table: seq<Row>, p: Params, like: Like, r: Row)
    requires DistinctIds(table)
    ensures r in Result(table, p, like) <==> r in table && Selected(p, like, r)
  {
    ResultOrdered(table, p, like);
    assert r in Result(table, p, like) <==> multiset(Result(table, p, like))[r] > 0;
    assert r in table <==> multiset(table)[r] > 0;
  }

  lemma SameIdSameRow(table: seq<Row>, a: Row, b: Row)
    requires DistinctIds(table) && a in table && b in table && a.id == b.id
    ensures a == b
  {
  }

  /** A book that is listed is a row that is listed. */
  lemma RowOf(rows: seq<Row>, b: Book) returns (r: Row)
    requires b in AsBooks(rows)
    ensures r in rows && ShowsRow(b, r)
  {
    var i :| 0 <= i < |AsBooks(rows)| && AsBooks(rows)[i] == b;
    BookAt(rows, i);
    r := rows[i];
  }

  lemma BookOf(rows: seq<Row>, r: Row) returns (b: Book)
    requires r in rows
    ensures b in AsBooks(rows) && ShowsRow(b, r)
  {
    var i :| 0 <= i < |rows| && rows[i] == r;
    BookAt(rows, i);
    b := AsBooks(rows)[i];
  }

  lemma RowListed(table: seq<Row>, p: Params, like: Like, r: Row)
    requires DistinctIds(table) && r in table
    ensures (exists b | b in AsBooks(Result(table, p, like)) :: b.id == r.id) <==> Selected(p, like, r)
  {
    var all := Result(table, p, like);
    ResultMembers(table, p, like, r);
    if Selected(p, like, r) {
      var b := BookOf(all, r);
    } else if b :| b in AsBooks(all) && b.id == r.id {
      var x := RowOf(all, b);
      ResultMembers(table, p, like, x);
      SameIdSameRow(table, x, r);
    }
  }

  lemma BooksOrdered(rows: seq<Row>, i: nat, j: nat)
    requires Ordered(rows) && i < j < |rows|
    ensures |AsBooks(rows)| == |rows| && ByTitle(AsBooks(rows)[i], AsBooks(rows)[j])
  {
    assert Precedes(rows[i], rows[j]);
    BookAt(rows, i);
    BookAt(rows, j);
  }

  lemma ListShows(table: seq<Row>, q: Query, like: Like)
    requires DistinctIds(table) && Acceptable(q)
    ensures Shows(List(table, q, like), table, q, like)
  {
    var p := Wanted(q);
    var all, books := Result(table, p, like), List(table, q, like);
    ResultOrdered(table, p, like);
    forall i, j | 0 <= i < j < |books| ensures ByTitle(books[i], books[j]) {
      BooksOrdered(all, i, j);
    }
    forall b | b in books ensures exists r | r in table :: ShowsRow(b, r) {
      var r := RowOf(all, b);
      ResultMembers(table, p, like, r);
    }
    forall r | r in table ensures (exists b | b in books :: b.id == r.id) <==> Selected(p, like, r) {
      RowListed(table, p, like, r);
    }
  }

  /** The same rows at every request, in any physical order. */
  ghost predicate Unchanging(tables: nat -> seq<Row>) {
    forall n :: DistinctIds(tables(n)) && multiset(tables(n)) == multiset(tables(0))
  }

  /** A client that starts at the first page and follows next_cursor until it is
      absent sees every selected book exactly once, in order, in the least
      number of pages (one for an empty list), although every query may meet
      the rows in another physical order. */
  method FollowCursor(tables: nat -> seq<Row>, q: Query, like: Like) returns (books: seq<Book>, pages: nat)
    requires Acceptable(q) && Asks(q, q, 1)
    requires Unchanging(tables) && |tables(0)| + 200 <= MAX_INT
    ensures books == List(tables(0), q, like) && Shows(books, tables(0), q, like)
    ensures pages >= 1 && pages * PageSize(q) >= |books| && (pages == 1 || (pages - 1) * PageSize(q) < |books|)
  {
    ghost var all, limit := List(tables(0), q, like), PageSize(q);
    ResultNoLonger(tables(0), Wanted(q), like);
    ListShows(tables(0), q, like);
    var request := q;
    books, pages := [], 0;
    ghost var k: nat := 0;
    while true
      invariant Asks(request, q, pages + 1)
      invariant k == pages * limit && k <= |all| && books == all[..k] && (pages > 0 ==> k < |all|)
      decreases |all| - k
    {
      SameList(tables, pages, q, like);
      var page := FetchPage(tables(pages), request, like, q, pages, k);
      NextWindow(all, k, limit);
      NextProduct(pages, limit);
      books := books + page.items;
      pages := pages + 1;
      k := k + limit;
      if page.nextCursor == "" {
        return;
      }
      request := request.(cursor := page.nextCursor);
    }
  }

  lemma NextProduct(a: nat, b: nat)
    ensures (a + 1) * b == a * b + b
  {
  }

  lemma {:induction false} ResultNoLonger(table: seq<Row>, p: Params, like: Like)
    ensures |Result(table, p, like)| <= |table|
  {
    if table != [] {
      ResultNoLonger(table[1..], p, like);
      InsertLength(table[0], Result(table[1..], p, like));
    }
  }

  lemma {:induction false} InsertLength(r: Row, s: seq<Row>)
    ensures |Insert(r, s)| == |s| + 1
  {
    if s != [] {
      InsertLength(r, s[1..]);
    }
  }

  /** Every request of the walk sees the same list. */
  lemma SameList(tables: nat -> seq<Row>, n: nat, q: Query, like: Like)
    requires Unchanging(tables)
    ensures List(tables(n), q, like) == List(tables(0), q, like)
  {
    ResultIgnoresPhysicalOrder(tables(n), tables(0), Wanted(q), like);
  }

  lemma {:induction false} PageIsNoFilter(table: seq<Row>, p: Params, p': Params, like: Like)
    requires p' == p.(page := p'.page)
    ensures Result(table, p', like) == Result(table, p, like)
  {
    if table != [] {
      PageIsNoFilter(table[1..], p, p', like);
    }
  }

  /** The arithmetic of page number pages + 1. */
  lemma PageBound(pages: nat, limit: int, total: nat)
    requires 1 <= limit <= 200 && pages * limit <= total && total + 200 <= MAX_INT
    ensures Wrap64(pages * limit) == pages * limit
    ensures (pages + 1) * limit == pages * limit + limit && pages + 1 < MAX_INT
    ensures NextCursor(pages + 1, limit, total) == "" <==> pages * limit + limit >= total
    ensures pages * limit + limit < total ==> DecodeCursor(NextCursor(pages + 1, limit, total)) == pages + 2
  {
    ProductSign(pages, limit);
    ProductSign(pages + 1, limit);
    WrapFits((pages + 1) * limit);
    CursorLeadsToNextPage(pages + 1, limit, total);
  }
}
