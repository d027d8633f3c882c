/** The book in memory and the book in the database take the same step: matching a taker in memory
    and adding its remainder gives the book that would be rebuilt from the rows after the
    transaction, and no other book changes. */
module Coherence {
  import opened Domain
  import opened PriorityList
  import opened GreedyMatch
  import opened Ledger
  import opened Hydration

  // ----------------------------------------------------- steps of a book

  function Makers(b: Book, taker: MatchingOrder): seq<Order> {
    b.On(MatchingSide(taker.side))
  }

  function TradesOf(b: Book, taker: MatchingOrder, timestamp: int): seq<Trade> {
    Fills(taker, Makers(b, taker), taker.quantity, timestamp)
  }

  function LeftOf(b: Book, taker: MatchingOrder): int {
    Unfilled(taker, Makers(b, taker), taker.quantity)
  }

  function WithSide(b: Book, side: Side, s: seq<Order>): Book {
    if side == Bid then b.(bids := s) else b.(asks := s)
  }

  /** The book after the match, before the remainder is added. */
  function Matched(b: Book, taker: MatchingOrder): Book {
    WithSide(b, MatchingSide(taker.side), Leftover(taker, Makers(b, taker), taker.quantity))
  }

  function RemainderOrder(taker: MatchingOrder, left: int): Order {
    Order(taker.id, taker.userAddress, RestingSide(taker.side), taker.price, left, taker.marketId,
          OutcomeToNumber(taker.outcome))
  }

  /** The book after what is left of the taker was added. */
  function Rested(b: Book, taker: MatchingOrder, left: int): Book {
    if left > 0
    then
      var side := RestingSide(taker.side);
      WithSide(b, side, Insert(side, b.On(side), RemainderOrder(taker, left)))
    else b
  }

  function KeyOf(taker: MatchingOrder): Key {
    Key(taker.marketId, taker.outcome)
  }

  /** The rows after the transaction of this match. */
  ghost function RowsAfter(rows: seq<OrderRow>, b: Book, taker: MatchingOrder, timestamp: int): seq<OrderRow> {
    FilledRows(rows + [TakerRow(taker, taker.quantity - LeftOf(b, taker))], taker.id, TradesOf(b, taker, timestamp))
  }

  // ----------------------------------------------------- fills by order id

  lemma {:induction false} MadeConcat(a: seq<Trade>, b: seq<Trade>, takerId: string, id: string)
    ensures MadeBy(a + b, takerId, id) == MadeBy(a, takerId, id) + MadeBy(b, takerId, id)
  {
    if b == [] {
      assert a + b == a;
    } else {
      var b', t := b[..|b| - 1], b[|b| - 1];
      assert a + b == (a + b') + [t] && b == b' + [t];
      MadeConcat(a, b', takerId, id);
      MadeStep(a + b', t, takerId, id);
      MadeStep(b', t, takerId, id);
    }
  }

  lemma {:induction false} MadeNonNegative(trades: seq<Trade>, takerId: string, id: string)
    requires forall t :: t in trades ==> t.quantity >= 0
    ensures MadeBy(trades, takerId, id) >= 0
  {
    if trades != [] {
      MadeNonNegative(trades[..|trades| - 1], takerId, id);
    }
  }

  /** Every trade of a match is with one of the makers, for a positive quantity. */
  lemma {:induction false} FillsMakers(taker: MatchingOrder, makers: seq<Order>, q: int, timestamp: int)
    requires AllPositive(makers) && !HasId(makers, taker.id)
    ensures forall t :: t in Fills(taker, makers, q, timestamp) ==>
      t.quantity > 0 && HasId(makers, MakerId(taker.id, t))
  {
    if !Stops(taker, makers, q) {
      assert makers[0] in makers && makers[0].id != taker.id;
      var fill := Min(q, makers[0].quantity);
      var first := CreateTrade(taker, makers[0], fill, makers[0].price, timestamp);
      var rest := Fills(taker, makers[1..], q - fill, timestamp);
      assert !HasId(makers[1..], taker.id);
      FillsMakers(taker, makers[1..], q - fill, timestamp);
      assert MakerId(taker.id, first) == makers[0].id;
      assert Fills(taker, makers, q, timestamp) == [first] + rest;
      hide Fills, CreateTrade, AllPositive;
      forall t | t in [first] + rest ensures t.quantity > 0 && HasId(makers, MakerId(taker.id, t)) {
        if t in rest {
          var o :| o in makers[1..] && o.id == MakerId(taker.id, t);
          assert o in makers;
        }
      }
    }
  }

  function LeftIn(o: Order, takerId: string, trades: seq<Trade>): int {
    o.quantity - MadeBy(trades, takerId, o.id)
  }

  function Reduced(o: Order, takerId: string, trades: seq<Trade>): seq<Order> {
    if LeftIn(o, takerId, trades) > 0 then [o.(quantity := LeftIn(o, takerId, trades))] else []
  }

  /** A list of orders after these trades: what is used up is gone. */
  function Reduce(s: seq<Order>, takerId: string, trades: seq<Trade>): seq<Order> {
    if s == [] then [] else Reduced(s[0], takerId, trades) + Reduce(s[1..], takerId, trades)
  }

  lemma {:induction false} ReduceConcat(a: seq<Order>, b: seq<Order>, takerId: string, trades: seq<Trade>)
    ensures Reduce(a + b, takerId, trades) == Reduce(a, takerId, trades) + Reduce(b, takerId, trades)
  {
    if a == [] {
      assert a + b == b;
    } else {
      assert (a + b)[0] == a[0] && (a + b)[1..] == a[1..] + b;
      var head := Reduced(a[0], takerId, trades);
      calc {
        Reduce(a + b, takerId, trades);
        head + Reduce(a[1..] + b, takerId, trades);
        { ReduceConcat(a[1..], b, takerId, trades); }
        head + (Reduce(a[1..], takerId, trades) + Reduce(b, takerId, trades));
        (head + Reduce(a[1..], takerId, trades)) + Reduce(b, takerId, trades);
      }
    }
  }

  lemma {:induction false} ReduceAtPrice(s: seq<Order>, takerId: string, trades: seq<Trade>, p: int)
    ensures AtPrice(Reduce(s, takerId, trades), p) == Reduce(AtPrice(s, p), takerId, trades)
  {
    if s != [] {
      ReduceAtPrice(s[1..], takerId, trades, p);
      AtPriceConcat(Reduced(s[0], takerId, trades), Reduce(s[1..], takerId, trades), p);
      ReduceConcat(if s[0].price == p then [s[0]] else [], AtPrice(s[1..], p), takerId, trades);
      hide MadeBy;
    }
  }

  /** Orders that no trade was made with stay as they are. */
  lemma {:induction false} ReduceUntouched(s: seq<Order>, takerId: string, trades: seq<Trade>)
    requires AllPositive(s) && forall o :: o in s ==> !Made(trades, takerId, o.id)
    ensures Reduce(s, takerId, trades) == s
  {
    if s != [] {
      NothingMade(trades, takerId, s[0].id);
      ReduceUntouched(s[1..], takerId, trades);
    }
  }

  lemma {:induction false} ReduceOthers(s: seq<Order>, takerId: string, t: Trade, rest: seq<Trade>)
    requires !HasId(s, MakerId(takerId, t))
    ensures Reduce(s, takerId, [t] + rest) == Reduce(s, takerId, rest)
  {
    if s != [] {
      assert s[0] in s;
      MadeConcat([t], rest, takerId, s[0].id);
      assert [t] == [] + [t];
      MadeStep([], t, takerId, s[0].id);
      assert !HasId(s[1..], MakerId(takerId, t));
      ReduceOthers(s[1..], takerId, t, rest);
      hide HasId, MadeBy;
    }
  }

  /** Taking the fills off the makers, order by order, leaves what the match leaves. */
  lemma {:induction false} ReduceFills(taker: MatchingOrder, makers: seq<Order>, q: int, timestamp: int)
    requires AllPositive(makers) && DistinctIds(makers) && !HasId(makers, taker.id)
    ensures Reduce(makers, taker.id, Fills(taker, makers, q, timestamp)) == Leftover(taker, makers, q)
  {
    if Stops(taker, makers, q) {
      ReduceUntouched(makers, taker.id, []);
    } else {
      var fill, tail := Min(q, makers[0].quantity), makers[1..];
      var first := CreateTrade(taker, makers[0], fill, makers[0].price, timestamp);
      var rest := Fills(taker, tail, q - fill, timestamp);
      TailFacts(taker, makers);
      assert MakerId(taker.id, first) == makers[0].id;
      assert Fills(taker, makers, q, timestamp) == [first] + rest;
      HeadMade(taker, makers, q - fill, timestamp, first);
      ReduceOthers(tail, taker.id, first, rest);
      ReduceFills(taker, tail, q - fill, timestamp);
      assert Leftover(taker, makers, q) ==
        if fill == makers[0].quantity then Leftover(taker, tail, q - fill)
          else [makers[0].(quantity := makers[0].quantity - fill)] + tail;
      if fill < makers[0].quantity {
        assert rest == [] && Leftover(taker, tail, q - fill) == tail;
      }
      hide Fills, Leftover, CreateTrade, MadeBy, HasId, AllPositive, DistinctIds;
    }
  }

  lemma TailFacts(taker: MatchingOrder, makers: seq<Order>)
    requires makers != [] && AllPositive(makers) && DistinctIds(makers) && !HasId(makers, taker.id)
    ensures makers[0].id != taker.id && makers[0].quantity > 0
    ensures AllPositive(makers[1..]) && DistinctIds(makers[1..])
    ensures !HasId(makers[1..], taker.id) && !HasId(makers[1..], makers[0].id)
  {
    assert makers[0] in makers;
    forall o | o in makers[1..] ensures o in makers && o.id != makers[0].id {
      var i :| 0 <= i < |makers[1..]| && makers[1..][i] == o;
      assert makers[i + 1] == o;
    }
  }

  lemma HeadMade(taker: MatchingOrder, makers: seq<Order>, q: int, timestamp: int, first: Trade)
    requires makers != [] && AllPositive(makers) && DistinctIds(makers) && !HasId(makers, taker.id)
    requires MakerId(taker.id, first) == makers[0].id
    ensures MadeBy([first] + Fills(taker, makers[1..], q, timestamp), taker.id, makers[0].id) == first.quantity
  {
    TailFacts(taker, makers);
    FillsMakers(taker, makers[1..], q, timestamp);
    var rest := Fills(taker, makers[1..], q, timestamp);
    hide Fills;
    NothingMade(rest, taker.id, makers[0].id);
    MadeConcat([first], rest, taker.id, makers[0].id);
    assert [first] == [] + [first];
    MadeStep([], first, taker.id, makers[0].id);
  }

  // --------------------------------------------------- the rows afterwards

  ghost predicate StatusesOk(rows: seq<OrderRow>) {
    forall r :: r in rows ==> r.status == StatusOf(r.filledQuantity, r.quantity)
  }

  lemma RowStep(row: OrderRow, takerId: string, trades: seq<Trade>, key: Key, side: Side)
    requires row.status == StatusOf(row.filledQuantity, row.quantity)
    requires forall t :: t in trades ==> t.quantity >= 0
    ensures var row' := FilledRow(row, takerId, trades);
      (if Rests(row', key, side) then [RestingOrder(row')] else []) ==
        if Rests(row, key, side) then Reduced(RestingOrder(row), takerId, trades) else []
  {
    MadeNonNegative(trades, takerId, row.id);
    if !Made(trades, takerId, row.id) {
      NothingMade(trades, takerId, row.id);
    }
    hide MadeBy, Made;
  }

  /** Filling the rows takes the fills off the resting orders. */
  lemma {:induction false} RestingFilled(rows: seq<OrderRow>, takerId: string, trades: seq<Trade>, key: Key, side: Side)
    requires StatusesOk(rows) && forall t :: t in trades ==> t.quantity >= 0
    ensures Resting(FilledRows(rows, takerId, trades), key, side) == Reduce(Resting(rows, key, side), takerId, trades)
  {
    if rows != [] {
      var t, row := rows[..|rows| - 1], rows[|rows| - 1];
      assert rows == t + [row];
      var t', row' := FilledRows(t, takerId, trades), FilledRow(row, takerId, trades);
      assert FilledRows(rows, takerId, trades) == t' + [row'];
      RestingFilled(t, takerId, trades, key, side);
      RestingPush(t, row, key, side);
      RestingPush(t', row', key, side);
      RowStep(row, takerId, trades, key, side);
      var last := if Rests(row, key, side) then [RestingOrder(row)] else [];
      ReduceConcat(Resting(t, key, side), last, takerId, trades);
      hide FilledRow, Resting, Rests, Reduced, RestingOrder, FilledRows;
    }
  }

  /** What a book rebuilt from good rows looks like. */
  lemma RebuiltSide(rows: seq<OrderRow>, key: Key, side: Side)
    requires DistinctRows(rows)
    ensures Sorted(side, Rebuild(rows, key).On(side))
    ensures DistinctIds(Rebuild(rows, key).On(side)) && AllPositive(Rebuild(rows, key).On(side))
    ensures forall o :: o in Rebuild(rows, key).On(side) <==> o in Resting(rows, key, side)
    ensures forall p :: AtPrice(Rebuild(rows, key).On(side), p) == AtPrice(Resting(rows, key, side), p)
  {
    var r := Resting(rows, key, side);
    RestingDistinct(rows, key, side);
    InsertAllMembers(side, r);
    InsertAllDistinct(side, r);
    InsertAllAtPrice(side, r, 0);
    hide Resting, InsertAll, AtPrice, DistinctIds;
    forall p ensures AtPrice(InsertAll(side, r), p) == AtPrice(r, p) {
      InsertAllAtPrice(side, r, p);
    }
    assert forall o :: o in r ==> o.quantity > 0;
  }

  /** An id that rests in one place does not rest in another. */
  lemma OnePlace(rows: seq<OrderRow>, key: Key, side: Side, key': Key, side': Side, id: string)
    requires DistinctRows(rows) && (key != key' || side != side')
    requires HasId(Resting(rows, key, side), id)
    ensures !HasId(Resting(rows, key', side'), id)
  {
    RestingMembers(rows, key, side);
    RestingMembers(rows, key', side');
    forall r, r' | r in rows && r' in rows && r.id == r'.id ensures r == r' {
      var i :| 0 <= i < |rows| && rows[i] == r;
      var j :| 0 <= j < |rows| && rows[j] == r';
    }
  }

  /** A taker about to be matched against the book of its key: its id is new. */
  ghost predicate Incoming(rows: seq<OrderRow>, taker: MatchingOrder) {
    && DistinctRows(rows) && StatusesOk(rows) && !HasRow(rows, taker.id)
    && taker.quantity > 0
  }

  lemma FilledAmount(taker: MatchingOrder, makers: seq<Order>, q: int)
    requires AllPositive(makers) && q >= 0
    ensures 0 <= Unfilled(taker, makers, q) <= q
  {
    if !Stops(taker, makers, q) {
      FilledAmount(taker, makers[1..], q - Min(q, makers[0].quantity));
    }
  }

  lemma FreshToBook(rows: seq<OrderRow>, key: Key, side: Side, id: string)
    requires DistinctRows(rows) && !HasRow(rows, id)
    ensures !HasId(Rebuild(rows, key).On(side), id) && !HasId(Resting(rows, key, side), id)
  {
    RebuiltSide(rows, key, side);
    RestingMembers(rows, key, side);
    hide Rebuild, Resting, Rests;
    forall o | o in Resting(rows, key, side) ensures o.id != id {
      var r :| r in rows && o == RestingOrder(r);
    }
  }

  /** The trades of a match are made with orders of the matching side only. */
  lemma MadeOnSide(rows: seq<OrderRow>, taker: MatchingOrder, timestamp: int, id: string)
    requires Incoming(rows, taker)
    ensures var b := Rebuild(rows, KeyOf(taker));
      var trades := TradesOf(b, taker, timestamp);
      && (forall t :: t in trades ==> t.quantity > 0)
      && (Made(trades, taker.id, id) ==> HasId(Resting(rows, KeyOf(taker), MatchingSide(taker.side)), id))
  {
    var side := MatchingSide(taker.side);
    var makers := Makers(Rebuild(rows, KeyOf(taker)), taker);
    RebuiltSide(rows, KeyOf(taker), side);
    FreshToBook(rows, KeyOf(taker), side, taker.id);
    FillsMakers(taker, makers, taker.quantity, timestamp);
    hide Rebuild, Resting, Fills, AtPrice, AllPositive, DistinctIds, Sorted;
    if Made(TradesOf(Rebuild(rows, KeyOf(taker)), taker, timestamp), taker.id, id) {
      assert HasId(makers, id);
    }
  }

  /** What rests of the taker itself. */
  function RestOfTaker(taker: MatchingOrder, left: int, key: Key, side: Side): seq<Order> {
    if left > 0 && key == KeyOf(taker) && side == RestingSide(taker.side) then [RemainderOrder(taker, left)] else []
  }

  lemma TakerRests(taker: MatchingOrder, left: int, key: Key, side: Side, trades: seq<Trade>)
    requires 0 <= left <= taker.quantity && taker.quantity > 0 && !Made(trades, taker.id, taker.id)
    ensures Reduce(Resting([TakerRow(taker, taker.quantity - left)], key, side), taker.id, trades) ==
      RestOfTaker(taker, left, key, side)
  {
    var row := TakerRow(taker, taker.quantity - left);
    RestingPush([], row, key, side);
    assert [] + [row] == [row];
    NothingMade(trades, taker.id, taker.id);
    hide MadeBy, Made;
  }

  lemma TakerNotMade(rows: seq<OrderRow>, taker: MatchingOrder, timestamp: int)
    requires Incoming(rows, taker)
    ensures !Made(TradesOf(Rebuild(rows, KeyOf(taker)), taker, timestamp), taker.id, taker.id)
    ensures forall t :: t in TradesOf(Rebuild(rows, KeyOf(taker)), taker, timestamp) ==> t.quantity > 0
    ensures 0 <= LeftOf(Rebuild(rows, KeyOf(taker)), taker) <= taker.quantity
  {
    MadeOnSide(rows, taker, timestamp, taker.id);
    FreshToBook(rows, KeyOf(taker), MatchingSide(taker.side), taker.id);
    RebuiltSide(rows, KeyOf(taker), MatchingSide(taker.side));
    hide Rebuild, Unfilled, Sorted, DistinctIds, AllPositive, Made, TradesOf, Resting, AtPrice;
    FilledAmount(taker, Makers(Rebuild(rows, KeyOf(taker)), taker), taker.quantity);
  }

  /** The resting orders of filled rows, the last row apart. */
  lemma RestingOfFilled(rows: seq<OrderRow>, last: OrderRow, takerId: string, trades: seq<Trade>, key: Key, side: Side)
    requires StatusesOk(rows) && last.status == StatusOf(last.filledQuantity, last.quantity)
    requires forall t :: t in trades ==> t.quantity >= 0
    ensures Resting(FilledRows(rows + [last], takerId, trades), key, side) ==
      Reduce(Resting(rows, key, side), takerId, trades) + Reduce(Resting([last], key, side), takerId, trades)
  {
    assert StatusesOk(rows + [last]);
    hide StatusesOk, FilledRows, Resting, Reduce;
    RestingFilled(rows + [last], takerId, trades, key, side);
    RestingConcat(rows, [last], key, side);
    ReduceConcat(Resting(rows, key, side), Resting([last], key, side), takerId, trades);
  }

  lemma IncomingStatuses(rows: seq<OrderRow>, taker: MatchingOrder)
    requires Incoming(rows, taker)
    ensures StatusesOk(rows) && taker.quantity > 0
  {
  }

  /** The resting orders after the transaction. */
  lemma RestingAfter(rows: seq<OrderRow>, taker: MatchingOrder, timestamp: int, key: Key, side: Side)
    requires Incoming(rows, taker)
    ensures var b := Rebuild(rows, KeyOf(taker));
      Resting(RowsAfter(rows, b, taker, timestamp), key, side) ==
        Reduce(Resting(rows, key, side), taker.id, TradesOf(b, taker, timestamp))
          + RestOfTaker(taker, LeftOf(b, taker), key, side)
  {
    hide Incoming, Rebuild, TradesOf, LeftOf, Made, Resting, Reduce, RestOfTaker, FilledRows, StatusesOk, StatusOf;
    var b := Rebuild(rows, KeyOf(taker));
    IncomingStatuses(rows, taker);
    TakerNotMade(rows, taker, timestamp);
    RestingOfFilled(rows, TakerRow(taker, taker.quantity - LeftOf(b, taker)), taker.id, TradesOf(b, taker, timestamp),
                    key, side);
    TakerRests(taker, LeftOf(b, taker), key, side, TradesOf(b, taker, timestamp));
  }

  /** Elsewhere no trade was made. */
  lemma ReducedElsewhere(rows: seq<OrderRow>, taker: MatchingOrder, timestamp: int, key: Key, side: Side)
    requires Incoming(rows, taker) && (key != KeyOf(taker) || side != MatchingSide(taker.side))
    ensures var b := Rebuild(rows, KeyOf(taker));
      Reduce(Resting(rows, key, side), taker.id, TradesOf(b, taker, timestamp)) == Resting(rows, key, side)
  {
    var trades := TradesOf(Rebuild(rows, KeyOf(taker)), taker, timestamp);
    var r := Resting(rows, key, side);
    RestingDistinct(rows, key, side);
    hide Rebuild, Resting, Fills, TradesOf, DistinctIds;
    forall o | o in r ensures !Made(trades, taker.id, o.id) {
      MadeOnSide(rows, taker, timestamp, o.id);
      assert HasId(r, o.id);
      if HasId(Resting(rows, KeyOf(taker), MatchingSide(taker.side)), o.id) {
        OnePlace(rows, KeyOf(taker), MatchingSide(taker.side), key, side, o.id);
      }
    }
    ReduceUntouched(r, taker.id, trades);
  }

  /** The matching side after the transaction is what the match leaves of it. */
  lemma MatchingSideRebuilt(rows: seq<OrderRow>, taker: MatchingOrder, timestamp: int)
    requires Incoming(rows, taker)
    ensures var b, side := Rebuild(rows, KeyOf(taker)), MatchingSide(taker.side);
      InsertAll(side, Reduce(Resting(rows, KeyOf(taker), side), taker.id, TradesOf(b, taker, timestamp)))
        == Leftover(taker, Makers(b, taker), taker.quantity)
  {
    var b, side := Rebuild(rows, KeyOf(taker)), MatchingSide(taker.side);
    var makers, trades := Makers(b, taker), TradesOf(b, taker, timestamp);
    var resting := Resting(rows, KeyOf(taker), side);
    RebuiltSide(rows, KeyOf(taker), side);
    FreshToBook(rows, KeyOf(taker), side, taker.id);
    ReduceFills(taker, makers, taker.quantity, timestamp);
    NothingLeftToMatch(taker, makers, taker.quantity);
    hide Rebuild, Resting, Reduce, Leftover, Unfilled, Fills, InsertAll, AtPrice, Sorted, DistinctIds, AllPositive,
         HasId;
    var now := InsertAll(side, Reduce(resting, taker.id, trades));
    InsertAllAtPrice(side, Reduce(resting, taker.id, trades), 0);
    forall p ensures AtPrice(now, p) == AtPrice(Leftover(taker, makers, taker.quantity), p) {
      InsertAllAtPrice(side, Reduce(resting, taker.id, trades), p);
      ReduceAtPrice(resting, taker.id, trades, p);
      ReduceAtPrice(makers, taker.id, trades, p);
    }
    Canonical(side, now, Leftover(taker, makers, taker.quantity));
  }

  lemma InsertAllPush(side: Side, s: seq<Order>, o: Order)
    ensures InsertAll(side, s + [o]) == Insert(side, InsertAll(side, s), o)
  {
    assert (s + [o])[..|s|] == s;
  }

  /** The transaction and the step in memory agree on every side of every book. */
  lemma SideRebuilt(rows: seq<OrderRow>, taker: MatchingOrder, timestamp: int, key: Key, side: Side)
    requires Incoming(rows, taker)
    ensures var b := Rebuild(rows, KeyOf(taker));
      Rebuild(RowsAfter(rows, b, taker, timestamp), key).On(side) ==
        if key == KeyOf(taker) then Rested(Matched(b, taker), taker, LeftOf(b, taker)).On(side)
          else Rebuild(rows, key).On(side)
  {
    var b := Rebuild(rows, KeyOf(taker));
    var left, r := LeftOf(b, taker), Resting(rows, key, side);
    RestingAfter(rows, taker, timestamp, key, side);
    if key == KeyOf(taker) && side == MatchingSide(taker.side) {
      MatchingSideRebuilt(rows, taker, timestamp);
      hide Resting, InsertAll, Reduce, RowsAfter, Leftover, Unfilled, Fills, TradesOf, LeftOf;
      assert Reduce(r, taker.id, TradesOf(b, taker, timestamp)) + [] ==
        Reduce(r, taker.id, TradesOf(b, taker, timestamp));
    } else {
      ReducedElsewhere(rows, taker, timestamp, key, side);
      InsertAllPush(side, r, RemainderOrder(taker, left));
      hide Resting, InsertAll, Reduce, RowsAfter, Leftover, Unfilled, Fills, TradesOf, LeftOf, RemainderOrder, Insert;
      assert r + [] == r;
    }
  }

  /** What one placed order does to memory and to the database comes to the same: the book rebuilt
      after the transaction is the matched book with the remainder added, and no other book changes. */
  lemma CommitRebuilds(rows: seq<OrderRow>, taker: MatchingOrder, timestamp: int, key: Key)
    requires Incoming(rows, taker)
    ensures var b := Rebuild(rows, KeyOf(taker));
      Rebuild(RowsAfter(rows, b, taker, timestamp), key) ==
        if key == KeyOf(taker) then Rested(Matched(b, taker), taker, LeftOf(b, taker)) else Rebuild(rows, key)
  {
    SideRebuilt(rows, taker, timestamp, key, Bid);
    SideRebuilt(rows, taker, timestamp, key, Ask);
    hide Rebuild, Matched, RowsAfter, Rested, LeftOf;
  }

  // ------------------------------------------- uncrossed and without self-trade

  /** Best bid below best ask, whichever orders those are. */
  ghost predicate Uncrossed(b: Book) {
    forall x, y :: x in b.bids && y in b.asks ==> x.price < y.price
  }

  /** No user rests on both sides. */
  ghost predicate OneSided(b: Book) {
    forall x, y :: x in b.bids && y in b.asks ==> x.userAddress != y.userAddress
  }

  /** The self-trade check of an incoming order. */
  ghost predicate HasOpposite(b: Book, taker: MatchingOrder) {
    exists o :: o in Makers(b, taker) && o.userAddress == taker.userAddress
  }

  ghost predicate WellSorted(b: Book) {
    && Sorted(Bid, b.bids) && AllPositive(b.bids) && Sorted(Ask, b.asks) && AllPositive(b.asks)
  }

  lemma MatchKeepsApart(b: Book, taker: MatchingOrder)
    requires WellSorted(b) && Uncrossed(b) && OneSided(b) && !HasOpposite(b, taker)
    ensures Uncrossed(Rested(Matched(b, taker), taker, LeftOf(b, taker)))
    ensures OneSided(Rested(Matched(b, taker), taker, LeftOf(b, taker)))
  {
    var left, leftover := LeftOf(b, taker), Leftover(taker, Makers(b, taker), taker.quantity);
    var mine := b.On(RestingSide(taker.side));
    LeftoverMembers(taker, Makers(b, taker), taker.quantity);
    NothingLeftToMatch(taker, Makers(b, taker), taker.quantity);
    InsertMembers(RestingSide(taker.side), mine, RemainderOrder(taker, left));
    hide Leftover, Unfilled, Insert, Sorted, AllPositive;
    forall o | o in leftover
      ensures exists m :: m in Makers(b, taker) && m.userAddress == o.userAddress && m.price == o.price
    {
    }
  }
}
