/** Keyset pagination of a user's orders: newest first, ids descending among equal times, one extra
    row fetched to see whether another page exists, and the last row of a page as the next cursor. */
module Pagination {
  import opened Domain

  datatype Row = Row(id: string, createdAt: int, userAddress: string, status: string)

  datatype Cursor = Cursor(createdAt: int, id: string)

  datatype Query = Query(address: string, status: Option<string>)

  datatype Page = Page(orders: seq<Row>, nextCursor: Option<Cursor>, hasNext: bool)

  // --------------------------------------------------------------- the order

  predicate LexLess(a: string, b: string) {
    if b == "" then false
    else if a == "" then true
    else if a[0] != b[0] then a[0] < b[0]
    else LexLess(a[1..], b[1..])
  }

  lemma {:induction false} LexTotal(a: string, b: string)
    ensures !(LexLess(a, b) && LexLess(b, a))
    ensures a != b ==> LexLess(a, b) || LexLess(b, a)
    ensures a == b ==> !LexLess(a, b)
  {
    if a != "" && b != "" {
      LexTotal(a[1..], b[1..]);
      assert a == [a[0]] + a[1..] && b == [b[0]] + b[1..];
    }
  }

  lemma {:induction false} LexTransitive(a: string, b: string, c: string)
    requires LexLess(a, b) && LexLess(b, c)
    ensures LexLess(a, c)
  {
    if a != "" && a[0] == b[0] == c[0] {
      LexTransitive(a[1..], b[1..], c[1..]);
    }
  }

  /** Texts compare at their first difference; a text comes before its continuations. */
  ghost predicate DiffersAt(a: string, b: string, k: nat) {
    && k <= |a| && k < |b| && a[..k] == b[..k]
    && (k < |a| ==> a[k] < b[k])
  }

  lemma {:induction false} LessDiffers(a: string, b: string) returns (k: nat)
    requires LexLess(a, b)
    ensures DiffersAt(a, b, k)
  {
    if a == "" || a[0] != b[0] {
      k := 0;
    } else {
      k := LessDiffers(a[1..], b[1..]);
      assert a[..k + 1] == [a[0]] + a[1..][..k] && b[..k + 1] == [b[0]] + b[1..][..k];
      k := k + 1;
    }
  }

  lemma {:induction false} DiffersLess(a: string, b: string, k: nat)
    requires DiffersAt(a, b, k)
    ensures LexLess(a, b)
  {
    if k > 0 {
      assert a[0] == a[..k][0] && b[0] == b[..k][0];
      assert a[1..][..k - 1] == a[..k][1..] && b[1..][..k - 1] == b[..k][1..];
      DiffersLess(a[1..], b[1..], k - 1);
    }
  }

  function CursorOf(row: Row): Cursor {
    Cursor(row.createdAt, row.id)
  }

  /** The row comes strictly after the cursor. */
  predicate After(cursor: Cursor, row: Row) {
    row.createdAt < cursor.createdAt || (row.createdAt == cursor.createdAt && LexLess(row.id, cursor.id))
  }

  predicate Precedes(r: Row, s: Row) {
    After(CursorOf(r), s)
  }

  lemma PrecedesTotal(r: Row, s: Row)
    ensures !(Precedes(r, s) && Precedes(s, r))
    ensures CursorOf(r) != CursorOf(s) ==> Precedes(r, s) || Precedes(s, r)
    ensures !Precedes(r, r)
  {
    LexTotal(r.id, s.id);
    LexTotal(r.id, r.id);
  }

  lemma AfterTransitive(c: Cursor, r: Row, s: Row)
    requires After(c, r) && Precedes(r, s)
    ensures After(c, s)
  {
    if s.createdAt == r.createdAt == c.createdAt {
      LexTransitive(s.id, r.id, c.id);
    }
  }

  // --------------------------------------------------------------- the query

  predicate Matches(row: Row, q: Query, cursor: Option<Cursor>) {
    && row.userAddress == q.address
    && (q.status.Some? ==> row.status == q.status.value)
    && (cursor.Some? ==> After(cursor.value, row))
  }

  function Select(rows: seq<Row>, q: Query, cursor: Option<Cursor>): seq<Row> {
    if rows == [] then []
    else (if Matches(rows[0], q, cursor) then [rows[0]] else []) + Select(rows[1..], q, cursor)
  }

  function InsertRow(sorted: seq<Row>, row: Row): seq<Row> {
    if sorted == [] then [row]
    else if Precedes(row, sorted[0]) then [row] + sorted
    else [sorted[0]] + InsertRow(sorted[1..], row)
  }

  function SortRows(rows: seq<Row>): seq<Row> {
    if rows == [] then [] else InsertRow(SortRows(rows[1..]), rows[0])
  }

  /** The rows from this cursor on, in the order of the endpoint. */
  function From(rows: seq<Row>, q: Query, cursor: Option<Cursor>): seq<Row> {
    SortRows(Select(rows, q, cursor))
  }

  function GetPage(rows: seq<Row>, q: Query, cursor: Option<Cursor>, limit: nat): Page
    requires limit > 0
  {
    var found := From(rows, q, cursor);
    var orders := if |found| > limit + 1 then found[..limit + 1] else found;
    var hasNext := |orders| > limit;
    var page := if hasNext then orders[..limit] else orders;
    Page(page, if hasNext then Some(CursorOf(page[|page| - 1])) else None, hasNext)
  }

  ghost predicate UniqueIds(rows: seq<Row>) {
    forall i, j :: 0 <= i < j < |rows| ==> rows[i].id != rows[j].id
  }

  ghost predicate Descending(s: seq<Row>) {
    forall i, j :: 0 <= i < j < |s| ==> Precedes(s[i], s[j])
  }

  lemma {:induction false} SelectMembers(rows: seq<Row>, q: Query, cursor: Option<Cursor>)
    ensures forall r :: r in Select(rows, q, cursor) <==> r in rows && Matches(r, q, cursor)
    ensures UniqueIds(rows) ==> UniqueIds(Select(rows, q, cursor))
  {
    if rows != [] {
      SelectMembers(rows[1..], q, cursor);
      assert rows == [rows[0]] + rows[1..];
      if UniqueIds(rows) {
        forall r | r in rows[1..] ensures r.id != rows[0].id {
          var i :| 0 <= i < |rows[1..]| && rows[1..][i] == r;
          assert rows[i + 1] == r;
        }
      }
    }
  }

  lemma {:induction false} InsertRowSorted(s: seq<Row>, row: Row)
    requires Descending(s) && forall r :: r in s ==> r.id != row.id
    ensures Descending(InsertRow(s, row)) && |InsertRow(s, row)| == |s| + 1
    ensures forall r :: r in InsertRow(s, row) <==> r in s || r == row
  {
    if s != [] {
      assert s == [s[0]] + s[1..];
      PrecedesTotal(row, s[0]);
      if Precedes(row, s[0]) {
        forall r | r in s[1..] ensures Precedes(row, r) {
          var i :| 0 <= i < |s[1..]| && s[1..][i] == r;
          assert Precedes(s[0], s[i + 1]);
          AfterTransitive(CursorOf(row), s[0], r);
        }
      } else {
        InsertRowSorted(s[1..], row);
        var t := InsertRow(s[1..], row);
        forall r | r in t ensures Precedes(s[0], r) {
          if r in s[1..] {
            var i :| 0 <= i < |s[1..]| && s[1..][i] == r;
            assert Precedes(s[0], s[i + 1]);
          }
        }
      }
    }
  }

  lemma {:induction false} SortSorted(rows: seq<Row>)
    requires UniqueIds(rows)
    ensures Descending(SortRows(rows)) && |SortRows(rows)| == |rows|
    ensures forall r :: r in SortRows(rows) <==> r in rows
  {
    if rows != [] {
      SortSorted(rows[1..]);
      assert rows == [rows[0]] + rows[1..];
      forall r | r in rows[1..] ensures r.id != rows[0].id {
        var i :| 0 <= i < |rows[1..]| && rows[1..][i] == r;
        assert rows[i + 1] == r;
      }
      InsertRowSorted(SortRows(rows[1..]), rows[0]);
    }
  }

  lemma FromSorted(rows: seq<Row>, q: Query, cursor: Option<Cursor>)
    requires UniqueIds(rows)
    ensures Descending(From(rows, q, cursor))
    ensures forall r :: r in From(rows, q, cursor) <==> r in rows && Matches(r, q, cursor)
  {
    SelectMembers(rows, q, cursor);
    SortSorted(Select(rows, q, cursor));
  }

  /** A descending list is determined by its rows. */
  lemma {:induction false} DescendingUnique(s: seq<Row>, t: seq<Row>)
    requires Descending(s) && Descending(t) && forall r :: r in s <==> r in t
    ensures s == t
  {
    SameEmpty(s, t);
    if s != [] {
      HeadFirst(s, t);
      HeadLeaves(s);
      HeadLeaves(t);
      assert s == [s[0]] + s[1..] && t == [t[0]] + t[1..];
      forall r ensures r in s[1..] <==> r in t[1..] {
        assert r in s <==> r == s[0] || r in s[1..];
        assert r in t <==> r == t[0] || r in t[1..];
      }
      DescendingUnique(s[1..], t[1..]);
    }
  }

  lemma SameEmpty(s: seq<Row>, t: seq<Row>)
    requires forall r :: r in s <==> r in t
    ensures s == [] <==> t == []
  {
    if s != [] {
      assert s[0] in t;
    }
    if t != [] {
      assert t[0] in s;
    }
  }

  lemma HeadFirst(s: seq<Row>, t: seq<Row>)
    requires s != [] && t != [] && Descending(s) && Descending(t) && forall r :: r in s <==> r in t
    ensures s[0] == t[0]
  {
    assert s[0] in t && t[0] in s;
    var i :| 0 <= i < |t| && t[i] == s[0];
    var j :| 0 <= j < |s| && s[j] == t[0];
    PrecedesTotal(s[0], t[0]);
  }

  lemma HeadLeaves(s: seq<Row>)
    requires s != [] && Descending(s)
    ensures Descending(s[1..]) && s[0] !in s[1..]
  {
    forall i | 1 <= i < |s| ensures s[i] != s[0] {
      PrecedesTotal(s[0], s[i]);
    }
  }

  /** What comes after row k of the list is the rest of the list. */
  lemma FromRow(rows: seq<Row>, q: Query, cursor: Option<Cursor>, k: nat)
    requires UniqueIds(rows) && k < |From(rows, q, cursor)|
    ensures From(rows, q, Some(CursorOf(From(rows, q, cursor)[k]))) == From(rows, q, cursor)[k + 1..]
  {
    var s := From(rows, q, cursor);
    var c := CursorOf(s[k]);
    FromSorted(rows, q, cursor);
    FromSorted(rows, q, Some(c));
    hide From;
    assert Descending(s[k + 1..]);
    forall r ensures r in From(rows, q, Some(c)) <==> r in s[k + 1..] {
      if r in s[k + 1..] {
        var i :| k < i < |s| && s[i] == r;
        assert Precedes(s[k], s[i]) && r in s;
      }
      if r in From(rows, q, Some(c)) {
        assert s[k] in s;
        BeyondCursor(s, cursor, k, r);
        assert r in s;
        NotBefore(s, k, r);
      }
    }
    DescendingUnique(From(rows, q, Some(c)), s[k + 1..]);
  }

  lemma BeyondCursor(s: seq<Row>, cursor: Option<Cursor>, k: nat, r: Row)
    requires k < |s| && Precedes(s[k], r) && (cursor.Some? ==> After(cursor.value, s[k]))
    ensures cursor.Some? ==> After(cursor.value, r)
  {
    if cursor.Some? {
      AfterTransitive(cursor.value, s[k], r);
    }
  }

  lemma NotBefore(s: seq<Row>, k: nat, r: Row)
    requires Descending(s) && k < |s| && r in s && Precedes(s[k], r)
    ensures r in s[k + 1..]
  {
    var i :| 0 <= i < |s| && s[i] == r;
    PrecedesTotal(s[k], s[i]);
    assert i > k ==> s[k + 1..][i - k - 1] == r;
  }

  // -------------------------------------------------------- following cursors

  /** One page and where the next one starts. */
  lemma PageSplits(rows: seq<Row>, q: Query, cursor: Option<Cursor>, limit: nat)
    requires UniqueIds(rows) && limit > 0
    ensures var page, all := GetPage(rows, q, cursor, limit), From(rows, q, cursor);
      && page.hasNext == page.nextCursor.Some? == (|all| > limit)
      && page.orders == (if |all| > limit then all[..limit] else all)
      && (page.hasNext ==> From(rows, q, page.nextCursor) == all[limit..])
  {
    hide From, Descending, UniqueIds;
    var all := From(rows, q, cursor);
    if |all| > limit {
      FromRow(rows, q, cursor, limit - 1);
      assert all[..limit + 1][..limit] == all[..limit];
    }
  }

  /** All pages from this cursor on, one after the other. */
  function Follow(rows: seq<Row>, q: Query, cursor: Option<Cursor>, limit: nat): seq<Row>
    requires UniqueIds(rows) && limit > 0
    decreases |From(rows, q, cursor)|
  {
    var page := GetPage(rows, q, cursor, limit);
    PageSplits(rows, q, cursor, limit);
    if page.hasNext then page.orders + Follow(rows, q, page.nextCursor, limit) else page.orders
  }

  /** Newest first, and the later id first among equal times. */
  lemma NewestFirst(s: seq<Row>, i: nat, j: nat)
    requires Descending(s) && i < j < |s|
    ensures s[i].createdAt >= s[j].createdAt
    ensures s[i].createdAt == s[j].createdAt ==> exists k: nat :: DiffersAt(s[j].id, s[i].id, k)
  {
    assert Precedes(s[i], s[j]);
    if s[i].createdAt == s[j].createdAt {
      var k := LessDiffers(s[j].id, s[i].id);
    }
  }

  /** Following the cursors ends and gives the filtered rows in order, without gap or repeat. */
  lemma {:induction false} FollowIsAll(rows: seq<Row>, q: Query, cursor: Option<Cursor>, limit: nat)
    requires UniqueIds(rows) && limit > 0
    ensures Follow(rows, q, cursor, limit) == From(rows, q, cursor)
    ensures Descending(From(rows, q, cursor))
    ensures forall r :: r in From(rows, q, cursor) <==> r in rows && Matches(r, q, cursor)
    decreases |From(rows, q, cursor)|
  {
    FromSorted(rows, q, cursor);
    PageSplits(rows, q, cursor, limit);
    var page := GetPage(rows, q, cursor, limit);
    if page.hasNext {
      FollowIsAll(rows, q, page.nextCursor, limit);
      hide From, GetPage;
      assert From(rows, q, cursor)[..limit] + From(rows, q, cursor)[limit..] == From(rows, q, cursor);
    }
  }

  // ------------------------------------------------- rows inserted meanwhile

  /** Page i was read when the table was tables[i], starting where page i - 1 ended; the last page had
      no successor. */
  ghost predicate Walk(tables: seq<seq<Row>>, q: Query, cursor: Option<Cursor>, limit: nat, pages: seq<seq<Row>>)
    requires limit > 0
    decreases |tables|
  {
    && tables != [] && |pages| == |tables|
    && var page := GetPage(tables[0], q, cursor, limit);
      && pages[0] == page.orders
      && if page.hasNext then Walk(tables[1..], q, page.nextCursor, limit, pages[1..]) else |tables| == 1
  }

  /** The same order, whatever its status has become. */
  predicate SameOrder(r: Row, x: Row) {
    r.id == x.id && r.createdAt == x.createdAt && r.userAddress == x.userAddress
  }

  /** The table contains this order in a state that the query asks for. */
  ghost predicate Holds(table: seq<Row>, q: Query, r: Row) {
    exists x :: x in table && SameOrder(r, x) && (q.status.Some? ==> x.status == q.status.value)
  }

  /** The order is there all the time, in states that the query asks for. */
  ghost predicate Stays(tables: seq<seq<Row>>, q: Query, r: Row) {
    forall i :: 0 <= i < |tables| ==> Holds(tables[i], q, r)
  }

  /** Orders are inserted and change their status, but none is deleted. */
  ghost predicate Growing(tables: seq<seq<Row>>) {
    && (forall i :: 0 <= i < |tables| ==> UniqueIds(tables[i]))
    && (forall i, j :: 0 <= i < j < |tables| ==> Within(tables[i], tables[j]))
  }

  ghost predicate Within(a: seq<Row>, b: seq<Row>) {
    forall r :: r in a ==> Returned(b, r)
  }

  /** The order is among these rows. */
  ghost predicate Returned(rows: seq<Row>, r: Row) {
    exists x :: x in rows && SameOrder(r, x)
  }

  function Concat(pages: seq<seq<Row>>): seq<Row> {
    if pages == [] then [] else pages[0] + Concat(pages[1..])
  }

  /** A row is on the page, or comes behind it. */
  lemma OnPageOrBehind(table: seq<Row>, q: Query, cursor: Option<Cursor>, limit: nat, x: Row)
    requires UniqueIds(table) && limit > 0 && x in table && Matches(x, q, cursor)
    ensures var page := GetPage(table, q, cursor, limit);
      x in page.orders || (page.hasNext && page.nextCursor.Some? && After(page.nextCursor.value, x))
  {
    var page, all := GetPage(table, q, cursor, limit), From(table, q, cursor);
    FromSorted(table, q, cursor);
    PageSplits(table, q, cursor, limit);
    FromSorted(table, q, page.nextCursor);
    hide From, GetPage, Descending;
    if page.hasNext {
      assert all == all[..limit] + all[limit..];
    }
  }

  lemma OnThisOrLater(table: seq<Row>, q: Query, cursor: Option<Cursor>, limit: nat, r: Row, rest: seq<Row>)
    requires UniqueIds(table) && limit > 0 && Holds(table, q, r)
    requires r.userAddress == q.address && (cursor.Some? ==> After(cursor.value, r))
    requires var page := GetPage(table, q, cursor, limit);
      page.hasNext && page.nextCursor.Some? && After(page.nextCursor.value, r) ==> Returned(rest, r)
    ensures Returned(GetPage(table, q, cursor, limit).orders + rest, r)
  {
    var x :| x in table && SameOrder(r, x) && (q.status.Some? ==> x.status == q.status.value);
    OnPageOrBehind(table, q, cursor, limit, x);
    hide GetPage;
    var page := GetPage(table, q, cursor, limit);
    if x in page.orders {
      assert x in page.orders + rest;
    } else {
      var y :| y in rest && SameOrder(r, y);
      assert y in page.orders + rest;
    }
  }

  /** Whatever is inserted and whatever becomes of orders between the pages: the pages are in the order of the
      endpoint, and every order that is there all the time in a state that the query asks for is returned. */
  lemma {:induction false} PagesAreComplete(tables: seq<seq<Row>>, q: Query, cursor: Option<Cursor>, limit: nat,
                                             pages: seq<seq<Row>>)
    requires limit > 0 && (forall i :: 0 <= i < |tables| ==> UniqueIds(tables[i]))
    requires Walk(tables, q, cursor, limit, pages)
    ensures Descending(Concat(pages))
    ensures forall r :: r in Concat(pages) ==> Matches(r, q, cursor)
    ensures forall r :: Stays(tables, q, r) && r.userAddress == q.address && (cursor.Some? ==>
      After(cursor.value, r)) ==>
      Returned(Concat(pages), r)
    decreases |tables|
  {
    var page, all := GetPage(tables[0], q, cursor, limit), From(tables[0], q, cursor);
    PageSplits(tables[0], q, cursor, limit);
    FromSorted(tables[0], q, cursor);
    var rest := Concat(pages[1..]);
    if page.hasNext {
      var c := page.nextCursor;
      PagesAreComplete(tables[1..], q, c, limit, pages[1..]);
      hide From, GetPage, Walk;
      JoinPages(all[..limit], rest, q, cursor, c.value);
    } else {
      assert rest == [];
      assert pages[0] + [] == pages[0];
    }
    hide From, Walk, GetPage;
    forall r | Stays(tables, q, r) && r.userAddress == q.address && (cursor.Some? ==> After(cursor.value, r))
      ensures Returned(page.orders + rest, r)
    {
      assert Holds(tables[0], q, r);
      if page.hasNext {
        assert Stays(tables[1..], q, r);
      }
      OnThisOrLater(tables[0], q, cursor, limit, r, rest);
    }
  }

  lemma GrowingStays(tables: seq<seq<Row>>, q: Query, r: Row)
    requires Growing(tables) && q.status.None? && tables != [] && r in tables[0]
    ensures Stays(tables, q, r)
  {
    forall i | 0 <= i < |tables| ensures Holds(tables[i], q, r) {
      assert i > 0 ==> Within(tables[0], tables[i]);
    }
  }

  /** Whatever is inserted between the pages, and whatever status orders get meanwhile: no order is returned twice,
      and every order that was there from the start is returned, if the query asks for all orders, or if the order
      is all the time in the state that it asks for. */
  lemma WalkIsComplete(tables: seq<seq<Row>>, q: Query, cursor: Option<Cursor>, limit: nat, pages: seq<seq<Row>>)
    requires limit > 0 && Growing(tables) && Walk(tables, q, cursor, limit, pages)
    ensures var rows := Concat(pages);
      && Descending(rows) && (forall r :: r in rows ==> Matches(r, q, cursor))
      && (forall i, j :: 0 <= i < j < |rows| ==> !SameOrder(rows[i], rows[j]))
      && (forall r :: r in tables[0] && Matches(r, q, cursor) && (q.status.None? || Stays(tables, q, r)) ==>
           Returned(rows, r))
  {
    PagesAreComplete(tables, q, cursor, limit, pages);
    var rows := Concat(pages);
    hide Walk, Concat, Growing, Stays;
    forall i, j | 0 <= i < j < |rows| ensures !SameOrder(rows[i], rows[j]) {
      assert Precedes(rows[i], rows[j]);
      LexTotal(rows[i].id, rows[j].id);
    }
    forall r | r in tables[0] && Matches(r, q, cursor) && (q.status.None? || Stays(tables, q, r))
      ensures Returned(rows, r)
    {
      if q.status.None? {
        GrowingStays(tables, q, r);
      }
    }
  }

  lemma JoinPages(page: seq<Row>, rest: seq<Row>, q: Query, cursor: Option<Cursor>, c: Cursor)
    requires page != [] && c == CursorOf(page[|page| - 1])
    requires Descending(page) && Descending(rest)
    requires forall r :: r in page ==> Matches(r, q, cursor)
    requires forall r :: r in rest ==> Matches(r, q, Some(c))
    ensures Descending(page + rest)
    ensures forall r :: r in rest ==> Matches(r, q, cursor)
  {
    var last := page[|page| - 1];
    assert last in page;
    forall r | r in rest ensures Matches(r, q, cursor) {
      if cursor.Some? {
        AfterTransitive(cursor.value, last, r);
      }
    }
    forall i, j | 0 <= i < |page| && 0 <= j < |rest| ensures Precedes(page[i], rest[j]) {
      assert rest[j] in rest;
      if i < |page| - 1 {
        AfterTransitive(CursorOf(page[i]), last, rest[j]);
      }
    }
  }
}
