/** The fixed read routes over the ADAFRUIT table. Each runs one SELECT:
    best sellers are the rows in stock with at most 70 units, common items the
    rows in stock with at least 100 units, both by quantity from high to low;
    the out-of-stock, coming-soon and discontinued routes select one status
    and order by product name; the categories route lists each distinct
    category once. SQL leaves the order of rows with equal sort keys open, so
    a route's result is specified as a sorted permutation of the selected
    rows; `Query` computes one such permutation. */
module Queries {
  import opened Results
  import opened Text
  import opened Stock
  import opened Categories
  import opened Crawl

  /** The routes that run a fixed SELECT on the rows. */
  datatype Route = BestSeller | CommonItems | OutOfStockItems | ComingSoonItems | DiscontinuedItems

  /** The WHERE clause of each route. */
  predicate Selects(route: Route, row: Row) {
    match route
    case BestSeller => row.qty <= 70 && row.stock == InStock
    case CommonItems => row.qty >= 100 && row.stock == InStock
    case OutOfStockItems => row.stock == OutOfStock
    case ComingSoonItems => row.stock == ComingSoon
    case DiscontinuedItems => row.stock == Discontinued
  }

  /** The ORDER BY clauses: `product_qty DESC` and `product_name ASC`. Names compare by code
      point, which for SQLite's default collation on UTF-8 text is the same order. */
  datatype Order = ByQtyDesc | ByNameAsc

  function OrderOf(route: Route): Order {
    match route
    case BestSeller => ByQtyDesc
    case CommonItems => ByQtyDesc
    case OutOfStockItems => ByNameAsc
    case ComingSoonItems => ByNameAsc
    case DiscontinuedItems => ByNameAsc
  }

  /** `a` may come before `b` in the order. */
  predicate Before(o: Order, a: Row, b: Row) {
    match o
    case ByQtyDesc => a.qty >= b.qty
    case ByNameAsc => LexLe(a.name, b.name)
  }

  lemma BeforeTotal(o: Order, a: Row, b: Row)
    ensures Before(o, a, b) || Before(o, b, a)
  {
    if o == ByNameAsc {
      LexLeTotal(a.name, b.name);
    }
  }

  lemma BeforeTransitive(o: Order, a: Row, b: Row, c: Row)
    requires Before(o, a, b) && Before(o, b, c)
    ensures Before(o, a, c)
  {
    if o == ByNameAsc {
      LexLeTransitive(a.name, b.name, c.name);
    }
  }

  predicate Sorted(o: Order, rows: seq<Row>) {
    forall i, j :: 0 <= i < j < |rows| ==> Before(o, rows[i], rows[j])
  }

  /** The rows the WHERE clause keeps, in table order. */
  function Select(route: Route, rows: seq<Row>): (r: seq<Row>)
    ensures forall x :: multiset(r)[x] == if Selects(route, x) then multiset(rows)[x] else 0
    decreases |rows|
  {
    if |rows| == 0 then []
    else
      var rest := Select(route, rows[1..]);
      assert rows == [rows[0]] + rows[1..];
      if Selects(route, rows[0]) then [rows[0]] + rest else rest
  }

  /** Every row of `rows` may come after `first`. */
  predicate AllAfter(o: Order, first: Row, rows: seq<Row>) {
    forall i :: 0 <= i < |rows| ==> Before(o, first, rows[i])
  }

  /** A row that may come before the head of a sorted sequence may come before all of it. */
  lemma BeforeHead(o: Order, x: Row, s: seq<Row>)
    requires Sorted(o, s) && |s| > 0 && Before(o, x, s[0])
    ensures AllAfter(o, x, s)
  {
    forall i | 0 < i < |s|
      ensures Before(o, x, s[i])
    {
      BeforeTransitive(o, x, s[0], s[i]);
    }
  }

  /** Puts `x` into a sorted sequence, after the rows that come before it. */
  function Insert(o: Order, x: Row, s: seq<Row>): (r: seq<Row>)
    requires Sorted(o, s)
    ensures Sorted(o, r)
    ensures multiset(r) == multiset(s) + multiset{x}
    decreases |s|
  {
    if |s| == 0 then [x]
    else if Before(o, x, s[0]) then
      BeforeHead(o, x, s);
      assert multiset([x] + s) == multiset(s) + multiset{x};
      [x] + s
    else
      var rest := Insert(o, x, s[1..]);
      InsertAfterHead(o, x, s, rest);
      [s[0]] + rest
  }

  lemma InsertAfterHead(o: Order, x: Row, s: seq<Row>, rest: seq<Row>)
    requires Sorted(o, s) && |s| > 0 && !Before(o, x, s[0])
    requires Sorted(o, rest) && multiset(rest) == multiset(s[1..]) + multiset{x}
    ensures Sorted(o, [s[0]] + rest)
    ensures multiset([s[0]] + rest) == multiset(s) + multiset{x}
  {
    BeforeTotal(o, x, s[0]);
    forall j | 0 <= j < |rest|
      ensures Before(o, s[0], rest[j])
    {
      assert rest[j] in multiset(rest);
      if rest[j] != x {
        assert rest[j] in multiset(s[1..]);
        var k :| 0 <= k < |s[1..]| && s[1..][k] == rest[j];
        assert s[1..][k] == s[k + 1];
      }
    }
    assert s == [s[0]] + s[1..];
  }

  /** Orders rows by insertion. */
  function Sort(o: Order, rows: seq<Row>): (r: seq<Row>)
    ensures Sorted(o, r)
    ensures multiset(r) == multiset(rows)
    decreases |rows|
  {
    if |rows| == 0 then []
    else
      assert rows == [rows[0]] + rows[1..];
      Insert(o, rows[0], Sort(o, rows[1..]))
  }

  /** The result of a route: exactly the rows its WHERE clause keeps, each as often as in
      the table, in the route's order. */
  function Query(route: Route, rows: seq<Row>): (r: seq<Row>)
    ensures Sorted(OrderOf(route), r)
    ensures forall x :: multiset(r)[x] == if Selects(route, x) then multiset(rows)[x] else 0
  {
    Sort(OrderOf(route), Select(route, rows))
  }

  /** A row is in a route's result exactly when it is in the table and the route's WHERE
      clause keeps it. */
  lemma QueryMembers(route: Route, rows: seq<Row>)
    ensures forall x :: x in Query(route, rows) <==> x in rows && Selects(route, x)
  {
    var r := Query(route, rows);
    forall x
      ensures x in r <==> x in rows && Selects(route, x)
    {
      assert x in r <==> x in multiset(r);
      assert x in rows <==> x in multiset(rows);
    }
  }

  /** Best sellers hold at most 70 units each and are all in stock, the largest stock first. */
  lemma BestSellerShape(rows: seq<Row>)
    ensures var r := Query(BestSeller, rows);
            (forall i :: 0 <= i < |r| ==> r[i].qty <= 70 && r[i].stock == InStock) &&
            (forall i, j :: 0 <= i < j < |r| ==> r[i].qty >= r[j].qty)
  {
    var r := Query(BestSeller, rows);
    QueryMembers(BestSeller, rows);
    assert forall i :: 0 <= i < |r| ==> r[i] in r;
  }

  /** The categories route: each category value of the table once, in order of first
      appearance; `None` stands for SQL NULL, which DISTINCT keeps as one value. */
  function DistinctCategories(rows: seq<Row>): (cats: seq<Option<string>>)
    ensures forall i, j :: 0 <= i < j < |cats| ==> cats[i] != cats[j]
    ensures forall c :: c in cats <==> exists i :: 0 <= i < |rows| && rows[i].category == c
    decreases |rows|
  {
    if |rows| == 0 then []
    else
      var init := rows[..|rows| - 1];
      var seen := DistinctCategories(init);
      var c := rows[|rows| - 1].category;
      assert forall i :: 0 <= i < |init| ==> init[i] == rows[i];
      if c in seen then seen else seen + [c]
  }

  /** After a crawl, the categories route lists only NULL and names taken from the master
      page's category links. */
  lemma CategoriesAreNamed(links: seq<Link>, pages: string -> seq<Block>, strip: string -> string)
    ensures forall c :: c in DistinctCategories(Table(links, pages, strip)) ==>
      c.None? || c.value in CategoryNames(links).Values
  {
    var rows := Table(links, pages, strip);
    if Download(links, pages, strip).Success? {
      var urls, names := CategoryUrls(links), CategoryNames(links);
      var placed := Placements(urls, names, pages);
      DownloadMatchesReference(links, pages, strip);
      assert RowsOf(rows, placed, strip);
      PlacementsOrigin(urls, names, pages);
      forall c | c in DistinctCategories(rows) && c.Some?
        ensures c.value in names.Values
      {
        var i :| 0 <= i < |rows| && rows[i].category == c;
        assert BlockRow(placed[i].0, placed[i].1, strip) == Success(rows[i]);
        var k :| 0 <= k < |urls| && placed[i].0 in pages(urls[k]) && placed[i].1 == Get(names, urls[k]);
        assert names[urls[k]] == c.value;
      }
    }
  }
}
