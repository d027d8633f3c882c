/** Building a book from the order rows: the resting rows, cheapest first and oldest first within
    a price, are added one after the other. The result does not depend on the order in which the
    prices come, only on the order of creation within a price. */
module Hydration {
  import opened Domain
  import opened PriorityList
  import opened OrderBooks
  import opened Ledger

  /** A book belongs to one outcome of one market. */
  datatype Key = Key(marketId: string, outcome: Outcome)

  /** A book as values: both sides in price-time order. */
  datatype Book = Book(bids: seq<Order>, asks: seq<Order>) {
    function On(side: Side): seq<Order> {
      if side == Bid then bids else asks
    }
  }

  /** The row is selected by the query: it is of this book and still open. */
  predicate Selected(row: OrderRow, key: Key) {
    row.marketId == key.marketId && row.outcome == key.outcome && row.status != FILLED
  }

  function RemainingOf(row: OrderRow): int {
    row.quantity - row.filledQuantity
  }

  function RestingOrder(row: OrderRow): Order {
    Order(row.id, row.userAddress, RestingSide(row.side), row.price, RemainingOf(row), row.marketId,
          OutcomeToNumber(row.outcome))
  }

  predicate Rests(row: OrderRow, key: Key, side: Side) {
    Selected(row, key) && RemainingOf(row) > 0 && RestingSide(row.side) == side
  }

  /** The resting orders of one side of a book, oldest first. */
  function Resting(rows: seq<OrderRow>, key: Key, side: Side): seq<Order> {
    if rows == [] then []
    else
      var row := rows[|rows| - 1];
      Resting(rows[..|rows| - 1], key, side) + (if Rests(row, key, side) then [RestingOrder(row)] else [])
  }

  /** Orders added one after the other. */
  function InsertAll(side: Side, s: seq<Order>): seq<Order> {
    if s == [] then [] else Insert(side, InsertAll(side, s[..|s| - 1]), s[|s| - 1])
  }

  /** The book that the database describes. */
  function Rebuild(rows: seq<OrderRow>, key: Key): Book {
    Book(InsertAll(Bid, Resting(rows, key, Bid)), InsertAll(Ask, Resting(rows, key, Ask)))
  }

  /** First come, first served within a price, whatever the order of the prices. */
  lemma {:induction false} InsertAllAtPrice(side: Side, s: seq<Order>, p: int)
    ensures Sorted(side, InsertAll(side, s))
    ensures AtPrice(InsertAll(side, s), p) == AtPrice(s, p)
  {
    if s != [] {
      var t, o := s[..|s| - 1], s[|s| - 1];
      InsertAllAtPrice(side, t, p);
      InsertAtPrice(side, InsertAll(side, t), o, p);
      assert s == t + [o];
      AtPriceConcat(t, [o], p);
    }
  }

  lemma {:induction false} InsertAllMembers(side: Side, s: seq<Order>)
    ensures |InsertAll(side, s)| == |s|
    ensures forall o :: o in InsertAll(side, s) <==> o in s
  {
    if s != [] {
      var t, o := s[..|s| - 1], s[|s| - 1];
      InsertAllMembers(side, t);
      InsertMembers(side, InsertAll(side, t), o);
      assert s == t + [o];
    }
  }

  lemma {:induction false} InsertAllDistinct(side: Side, s: seq<Order>)
    requires DistinctIds(s)
    ensures DistinctIds(InsertAll(side, s))
  {
    if s != [] {
      var t, o := s[..|s| - 1], s[|s| - 1];
      InsertAllDistinct(side, t);
      InsertAllMembers(side, t);
      InsertDistinct(side, InsertAll(side, t), o);
    }
  }

  lemma RestingPush(rows: seq<OrderRow>, row: OrderRow, key: Key, side: Side)
    ensures Resting(rows + [row], key, side) == Resting(rows, key, side)
      + (if Rests(row, key, side) then [RestingOrder(row)] else [])
  {
    assert (rows + [row])[..|rows|] == rows;
  }

  lemma {:induction false} RestingConcat(a: seq<OrderRow>, b: seq<OrderRow>, key: Key, side: Side)
    ensures Resting(a + b, key, side) == Resting(a, key, side) + Resting(b, key, side)
  {
    if b == [] {
      assert a + b == a;
    } else {
      var b', row := b[..|b| - 1], b[|b| - 1];
      assert a + b == (a + b') + [row] && b == b' + [row];
      RestingConcat(a, b', key, side);
      RestingPush(a + b', row, key, side);
      RestingPush(b', row, key, side);
    }
  }

  /** The resting orders are the orders of the resting rows. */
  lemma {:induction false} RestingMembers(rows: seq<OrderRow>, key: Key, side: Side)
    ensures forall o :: o in Resting(rows, key, side) <==>
      exists r :: r in rows && Rests(r, key, side) && o == RestingOrder(r)
  {
    if rows != [] {
      var t, row := rows[..|rows| - 1], rows[|rows| - 1];
      RestingMembers(t, key, side);
      assert rows == t + [row];
    }
  }

  lemma {:induction false} RestingDistinct(rows: seq<OrderRow>, key: Key, side: Side)
    requires DistinctRows(rows)
    ensures DistinctIds(Resting(rows, key, side)) && AllPositive(Resting(rows, key, side))
  {
    if rows != [] {
      var t, row := rows[..|rows| - 1], rows[|rows| - 1];
      RestingDistinct(t, key, side);
      RestingMembers(t, key, side);
      forall o | o in Resting(t, key, side) ensures o.id != row.id {
        var r :| r in t && Rests(r, key, side) && o == RestingOrder(r);
        var i :| 0 <= i < |t| && t[i] == r;
        assert rows[i] == r;
      }
    }
  }

  // ------------------------------------------------------------- the query

  /** A row goes behind every row that is not dearer. */
  function Place(sorted: seq<OrderRow>, row: OrderRow): seq<OrderRow> {
    if sorted == [] then [row]
    else if row.price < sorted[0].price then [row] + sorted
    else [sorted[0]] + Place(sorted[1..], row)
  }

  /** The selected rows by price ascending, then by creation. */
  function FindResting(rows: seq<OrderRow>, key: Key): seq<OrderRow> {
    if rows == [] then []
    else
      var row := rows[|rows| - 1];
      if Selected(row, key) then Place(FindResting(rows[..|rows| - 1], key), row)
      else FindResting(rows[..|rows| - 1], key)
  }

  ghost predicate Ascending(rows: seq<OrderRow>) {
    forall i, j :: 0 <= i < j < |rows| ==> rows[i].price <= rows[j].price
  }

  lemma {:induction false} PlaceMembers(sorted: seq<OrderRow>, row: OrderRow)
    requires Ascending(sorted)
    ensures Ascending(Place(sorted, row)) && |Place(sorted, row)| == |sorted| + 1
    ensures forall r :: r in Place(sorted, row) <==> r in sorted || r == row
  {
    if sorted != [] && row.price >= sorted[0].price {
      PlaceMembers(sorted[1..], row);
      assert sorted == [sorted[0]] + sorted[1..];
      assert forall r :: r in Place(sorted[1..], row) ==> r.price >= sorted[0].price;
    }
  }

  lemma {:induction false} PlaceResting(sorted: seq<OrderRow>, row: OrderRow, key: Key, side: Side, p: int)
    requires Ascending(sorted)
    ensures AtPrice(Resting(Place(sorted, row), key, side), p) == AtPrice(Resting(sorted + [row], key, side), p)
  {
    hide Resting, AtPrice;
    if sorted == [] {
      assert sorted + [row] == [row];
    } else {
      var head, tail := sorted[0], sorted[1..];
      assert sorted == [head] + tail;
      if row.price < head.price {
        RestingConcat([row], sorted, key, side);
        RestingConcat(sorted, [row], key, side);
        AtPriceConcat(Resting([row], key, side), Resting(sorted, key, side), p);
        AtPriceConcat(Resting(sorted, key, side), Resting([row], key, side), p);
        DearerElsewhere(sorted, row, key, side, p);
      } else {
        PlaceResting(tail, row, key, side, p);
        assert sorted + [row] == [head] + (tail + [row]);
        RestingConcat([head], Place(tail, row), key, side);
        RestingConcat([head], tail + [row], key, side);
        AtPriceConcat(Resting([head], key, side), Resting(Place(tail, row), key, side), p);
        AtPriceConcat(Resting([head], key, side), Resting(tail + [row], key, side), p);
      }
    }
  }

  lemma DearerElsewhere(sorted: seq<OrderRow>, row: OrderRow, key: Key, side: Side, p: int)
    requires Ascending(sorted) && sorted != [] && row.price < sorted[0].price
    ensures AtPrice(Resting([row], key, side), p) == [] || AtPrice(Resting(sorted, key, side), p) == []
  {
    var here, there := Resting([row], key, side), Resting(sorted, key, side);
    hide Resting, AtPrice, Rests;
    forall o | o in there ensures o.price > row.price {
      RestingMembers(sorted, key, side);
      var r :| r in sorted && o == RestingOrder(r);
      assert exists i :: 0 <= i < |sorted| && sorted[i] == r;
    }
    forall o | o in here ensures o.price == row.price {
      RestingMembers([row], key, side);
      var r :| r in [row] && o == RestingOrder(r);
    }
    NoneAtPrice(if p == row.price then there else here, p);
  }

  /** Sorting by price does not change the order of creation within a price. */
  lemma {:induction false} SortedQuery(rows: seq<OrderRow>, key: Key, side: Side, p: int)
    ensures Ascending(FindResting(rows, key))
    ensures forall r :: r in FindResting(rows, key) <==> r in rows && Selected(r, key)
    ensures AtPrice(Resting(FindResting(rows, key), key, side), p) == AtPrice(Resting(rows, key, side), p)
  {
    if rows != [] {
      var t, row := rows[..|rows| - 1], rows[|rows| - 1];
      assert rows == t + [row];
      SortedQuery(t, key, side, p);
      RestingPush(t, row, key, side);
      if Selected(row, key) {
        var found := FindResting(t, key);
        PlaceMembers(found, row);
        PlaceResting(found, row, key, side, p);
        RestingPush(found, row, key, side);
        var last := if Rests(row, key, side) then [RestingOrder(row)] else [];
        AtPriceConcat(Resting(found, key, side), last, p);
        AtPriceConcat(Resting(t, key, side), last, p);
      } else {
        assert Resting(rows, key, side) == Resting(t, key, side);
      }
    }
  }

  /** Adding the queried rows gives the book of the creation order. */
  lemma QueryRebuilds(rows: seq<OrderRow>, key: Key, side: Side)
    ensures InsertAll(side, Resting(FindResting(rows, key), key, side)) == InsertAll(side, Resting(rows, key, side))
  {
    var found := FindResting(rows, key);
    forall p
      ensures AtPrice(InsertAll(side, Resting(found, key, side)), p) ==
        AtPrice(InsertAll(side, Resting(rows, key, side)), p)
    {
      SortedQuery(rows, key, side, p);
      InsertAllAtPrice(side, Resting(found, key, side), p);
      InsertAllAtPrice(side, Resting(rows, key, side), p);
    }
    InsertAllAtPrice(side, Resting(found, key, side), 0);
    InsertAllAtPrice(side, Resting(rows, key, side), 0);
    Canonical(side, InsertAll(side, Resting(found, key, side)), InsertAll(side, Resting(rows, key, side)));
  }

  lemma {:induction false} PlaceDistinct(sorted: seq<OrderRow>, row: OrderRow)
    requires Ascending(sorted) && DistinctRows(sorted) && !HasRow(sorted, row.id)
    ensures DistinctRows(Place(sorted, row))
  {
    if sorted != [] && row.price >= sorted[0].price {
      var tail := sorted[1..];
      PlaceDistinct(tail, row);
      PlaceMembers(tail, row);
      forall r | r in Place(tail, row) ensures r.id != sorted[0].id {
        if r in tail {
          var i :| 0 <= i < |tail| && tail[i] == r;
          assert sorted[i + 1] == r;
        }
      }
    }
  }

  lemma {:induction false} QueryDistinct(rows: seq<OrderRow>, key: Key)
    requires DistinctRows(rows)
    ensures DistinctRows(FindResting(rows, key))
  {
    if rows != [] {
      var t, row := rows[..|rows| - 1], rows[|rows| - 1];
      QueryDistinct(t, key);
      SortedQuery(t, key, Bid, 0);
      forall r | r in t ensures r.id != row.id {
        var i :| 0 <= i < |t| && t[i] == r;
        assert rows[i] == r;
      }
      if Selected(row, key) {
        PlaceDistinct(FindResting(t, key), row);
      }
    }
  }

  /** A book under construction: it holds the resting orders of these rows. */
  ghost predicate Built(c: Contents, rows: seq<OrderRow>, key: Key) {
    && c.bids == InsertAll(Bid, Resting(rows, key, Bid))
    && c.asks == InsertAll(Ask, Resting(rows, key, Ask))
  }

  /** The next row is not in the book yet. */
  lemma NewOrder(book: OrderBook, rows: seq<OrderRow>, key: Key, id: string)
    requires book.Valid() && Built(book.contents, rows, key) && !HasRow(rows, id)
    ensures id !in book.orderMap
  {
    KeysAreIds(book.contents, book.marketId, book.outcome);
    forall o | o in book.Bids() || o in book.Asks() ensures o.id != id {
      InsertAllMembers(Bid, Resting(rows, key, Bid));
      InsertAllMembers(Ask, Resting(rows, key, Ask));
      RestingMembers(rows, key, Bid);
      RestingMembers(rows, key, Ask);
    }
  }

  lemma InsertNext(rows: seq<OrderRow>, row: OrderRow, key: Key, side: Side)
    ensures InsertAll(side, Resting(rows + [row], key, side)) ==
      if Rests(row, key, side) then Insert(side, InsertAll(side, Resting(rows, key, side)), RestingOrder(row))
      else InsertAll(side, Resting(rows, key, side))
  {
    RestingPush(rows, row, key, side);
    var r := Resting(rows, key, side);
    hide Resting, Rests, RestingOrder, Insert;
    assert (r + [RestingOrder(row)])[..|r|] == r;
    assert r + [] == r;
  }

  lemma BuildStep(c: Contents, rows: seq<OrderRow>, row: OrderRow, key: Key)
    requires Built(c, rows, key) && Selected(row, key)
    ensures Built(if RemainingOf(row) > 0 then WithOrder(c, RestingOrder(row)) else c, rows + [row], key)
  {
    InsertNext(rows, row, key, Bid);
    InsertNext(rows, row, key, Ask);
    hide InsertAll, Insert, Resting, LevelsWith;
  }

  /** Add a new order object with these values. */
  method AddNew(book: OrderBook, order: Order)
    requires book.Valid()
    requires order.marketId == book.marketId && order.outcome == book.outcome && order.id !in book.orderMap
    modifies book
    ensures book.Valid() && book.contents == WithOrder(old(book.contents), order)
    ensures book.orderMap.Keys == old(book.orderMap.Keys) + {order.id}
    ensures fresh(Orders(book.orderMap) - old(Orders(book.orderMap)))
  {
    hide Agree, WithOrder;
    var resting := new BookOrder(order);
    var added := book.AddOrder(resting);
  }

  /** Add one queried row. */
  method AddResting(book: OrderBook, order: OrderRow, key: Key, ghost rows: seq<OrderRow>)
    requires book.Valid() && book.marketId == key.marketId && book.outcome == OutcomeToNumber(key.outcome)
    requires Built(book.contents, rows, key) && Selected(order, key) && !HasRow(rows, order.id)
    modifies book
    ensures book.Valid() && Built(book.contents, rows + [order], key)
    ensures fresh(Orders(book.orderMap) - old(Orders(book.orderMap)))
  {
    NewOrder(book, rows, key, order.id);
    BuildStep(book.contents, rows, order, key);
    hide Agree, EntriesLinked, WithOrder, Built, HasRow, Orders;
    var remaining := order.quantity - order.filledQuantity;
    if remaining > 0 {
      var side := if order.side == BUY then Bid else Ask;
      AddNew(book, Order(order.id, order.userAddress, side, order.price, remaining, key.marketId,
                         OutcomeToNumber(key.outcome)));
    }
  }

  /** The book that the service caches for these rows is the book that the rows describe. */
  method HydrateBook(rows: seq<OrderRow>, key: Key) returns (book: OrderBook)
    requires DistinctRows(rows)
    ensures fresh(book) && fresh(Orders(book.orderMap)) && book.Valid()
    ensures book.marketId == key.marketId && book.outcome == OutcomeToNumber(key.outcome)
    ensures Book(book.Bids(), book.Asks()) == Rebuild(rows, key)
  {
    book := new OrderBook(key.marketId, OutcomeToNumber(key.outcome));
    var resting := FindResting(rows, key);
    QueryDistinct(rows, key);
    SortedQuery(rows, key, Bid, 0);
    hide Agree, EntriesLinked, InsertAll, Resting, FindResting, DistinctRows, Rests;
    EmptyBuild(book.contents, key);
    hide Built;
    var i := 0;
    while i < |resting|
      invariant 0 <= i <= |resting|
      invariant fresh(book) && fresh(Orders(book.orderMap)) && book.Valid()
      invariant Built(book.contents, resting[..i], key)
    {
      NotYet(resting, i);
      AddResting(book, resting[i], key, resting[..i]);
      i := i + 1;
    }
    assert resting[..|resting|] == resting;
    BuiltBook(book.contents, rows, key);
  }

  lemma BuiltBook(c: Contents, rows: seq<OrderRow>, key: Key)
    requires Built(c, FindResting(rows, key), key)
    ensures Book(c.bids, c.asks) == Rebuild(rows, key)
  {
    QueryRebuilds(rows, key, Bid);
    QueryRebuilds(rows, key, Ask);
  }

  lemma EmptyBuild(c: Contents, key: Key)
    requires c.bids == [] && c.asks == []
    ensures Built(c, [], key)
  {
  }

  lemma NotYet(rows: seq<OrderRow>, i: nat)
    requires DistinctRows(rows) && i < |rows|
    ensures !HasRow(rows[..i], rows[i].id) && rows[..i + 1] == rows[..i] + [rows[i]] && rows[i] in rows
  {
  }
}
