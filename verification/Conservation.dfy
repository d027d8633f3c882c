/** What every state of the database keeps: the rows account for the trades, the positions are the
    signed sums of the trades, and in every market the shares of each outcome and the collateral
    sum to nothing. */
module Conservation {
  import opened Domain
  import opened PriorityList
  import opened GreedyMatch
  import opened Accounts
  import opened Ledger
  import opened Hydration
  import opened Coherence
  import Decimal

  /** How much of the order with this id was traded. */
  function OrderFill(trades: seq<Trade>, id: string): int {
    if trades == [] then 0
    else OrderFill(trades[..|trades| - 1], id) + OrderShare(trades[|trades| - 1], id)
  }

  function OrderShare(t: Trade, id: string): int {
    if t.buyOrderId == id || t.sellOrderId == id then t.quantity else 0
  }

  ghost predicate RowOk(row: OrderRow, trades: seq<Trade>) {
    && row.quantity > 0
    && 0 <= row.filledQuantity <= row.quantity
    && StatusFits(row)
    && row.filledQuantity == OrderFill(trades, row.id)
    && NoUnderscore(row.id)
  }

  /** Generated ids contain no underscore. */
  ghost predicate NoUnderscore(id: string) {
    '_' !in id
  }

  /** There is an order of this kind, and the price is within its limit. */
  ghost predicate Party(rows: seq<OrderRow>, id: string, side: OrderSide, t: Trade, user: string) {
    exists r :: r in rows && r.id == id && IsParty(r, side, t, user)
  }

  predicate IsParty(r: OrderRow, side: OrderSide, t: Trade, user: string) {
    && r.side == side && r.userAddress == user && r.marketId == t.marketId && r.outcome == t.outcome
    && (if side == BUY then t.price <= r.price else r.price <= t.price)
  }

  /** A trade is between two different users, one buying and one selling, within both limits. */
  ghost predicate TradeOk(t: Trade, rows: seq<OrderRow>) {
    && t.quantity > 0
    && t.buyerAddress != t.sellerAddress
    && t.id == GenerateTradeId(t.buyOrderId, t.sellOrderId, t.quantity, t.timestamp)
    && Party(rows, t.buyOrderId, BUY, t, t.buyerAddress)
    && Party(rows, t.sellOrderId, SELL, t, t.sellerAddress)
    && PricedByFirst(rows, t)
  }

  /** The price of the trade is the limit of the one of its two orders that was placed first. */
  ghost predicate PricedByFirst(rows: seq<OrderRow>, t: Trade) {
    exists i, j :: 0 <= i < j < |rows| && PairOf(rows[i], rows[j], t) && t.price == rows[i].price
  }

  predicate PairOf(first: OrderRow, second: OrderRow, t: Trade) {
    || (first.side == SELL && second.side == BUY && first.id == t.sellOrderId && second.id == t.buyOrderId)
    || (first.side == BUY && second.side == SELL && first.id == t.buyOrderId && second.id == t.sellOrderId)
  }

  ghost predicate UniqueTrades(trades: seq<Trade>) {
    forall i, j :: 0 <= i < j < |trades| ==> trades[i].id != trades[j].id
  }

  function InMarket(trades: seq<Trade>, marketId: string): seq<Trade> {
    if trades == [] then []
    else
      var t := trades[|trades| - 1];
      InMarket(trades[..|trades| - 1], marketId) + (if t.marketId == marketId then [t] else [])
  }

  ghost predicate PositionOk(db: Database, marketId: string, user: string) {
    var trades := InMarket(db.trades, marketId);
    && ((marketId, user) in db.positions <==> Traded(trades, user))
    && ((marketId, user) in db.positions ==> db.positions[(marketId, user)] == NetPosition(trades, user))
  }

  ghost predicate LedgerOk(db: Database) {
    && DistinctRows(db.orders)
    && (forall r :: r in db.orders ==> RowOk(r, db.trades))
    && (forall t :: t in db.trades ==> TradeOk(t, db.orders))
    && UniqueTrades(db.trades)
    && (forall marketId, user :: PositionOk(db, marketId, user))
  }

  // -------------------------------------------------------- trades of a match

  /** The trades of a match are one by one with the first makers. */
  ghost predicate OneEach(trades: seq<Trade>, taker: MatchingOrder, makers: seq<Order>, timestamp: int) {
    && |trades| <= |makers|
    && forall i :: 0 <= i < |trades| ==>
         && 0 < trades[i].quantity <= makers[i].quantity
         && CanMatch(taker.price, makers[i].price, taker.side)
         && trades[i] == CreateTrade(taker, makers[i], trades[i].quantity, makers[i].price, timestamp)
  }

  lemma TradesOneEach(taker: MatchingOrder, makers: seq<Order>, q: int, timestamp: int)
    requires Sorted(MatchingSide(taker.side), makers) && AllPositive(makers)
    ensures OneEach(Fills(taker, makers, q, timestamp), taker, makers, timestamp)
  {
    PriceTimePriority(taker, makers, q, timestamp);
    hide Fills, Sorted, Sum;
  }

  /** The taker is on one side of each trade and the maker on the other. */
  lemma Sides(taker: MatchingOrder, maker: Order, q: int, price: int, timestamp: int, id: string)
    requires maker.id != taker.id
    ensures var t := CreateTrade(taker, maker, q, price, timestamp);
      && MakerId(taker.id, t) == maker.id
      && OrderShare(t, id) == if id == taker.id || id == maker.id then q else 0
  {
    hide GenerateTradeId;
  }

  lemma {:induction false} OrderFillConcat(a: seq<Trade>, b: seq<Trade>, id: string)
    ensures OrderFill(a + b, id) == OrderFill(a, id) + OrderFill(b, id)
  {
    if b == [] {
      assert a + b == a;
    } else {
      var b', t := b[..|b| - 1], b[|b| - 1];
      assert (a + b)[..|a + b| - 1] == a + b';
      OrderFillConcat(a, b', id);
    }
  }

  lemma {:induction false} NoFill(trades: seq<Trade>, id: string)
    requires forall t :: t in trades ==> t.buyOrderId != id && t.sellOrderId != id
    ensures OrderFill(trades, id) == 0
  {
    if trades != [] {
      NoFill(trades[..|trades| - 1], id);
    }
  }

  lemma {:induction false} TradedPush(trades: seq<Trade>, t: Trade)
    ensures TradedQuantity(trades + [t]) == TradedQuantity(trades) + t.quantity
  {
    if trades == [] {
      assert trades + [t] == [t];
    } else {
      assert (trades + [t])[1..] == trades[1..] + [t];
      TradedPush(trades[1..], t);
    }
  }

  /** Seen from the rows, the taker traded everything and each maker its own trade. */
  lemma {:induction false} FillOfMatch(trades: seq<Trade>, taker: MatchingOrder, makers: seq<Order>, timestamp: int,
                                       id: string)
    requires OneEach(trades, taker, makers, timestamp) && !HasId(makers, taker.id)
    ensures OrderFill(trades, id) == if id == taker.id then TradedQuantity(trades) else MadeBy(trades, taker.id, id)
  {
    if trades != [] {
      var n := |trades| - 1;
      var t := trades[n];
      FillOfMatch(trades[..n], taker, makers, timestamp, id);
      assert makers[n] in makers;
      Sides(taker, makers[n], t.quantity, makers[n].price, timestamp, id);
      assert trades == trades[..n] + [t];
      TradedPush(trades[..n], t);
      hide CreateTrade;
    }
  }

  /** When no maker comes twice, what was taken from a maker is its one trade. */
  lemma {:induction false} MadeOnce(trades: seq<Trade>, takerId: string, i: nat)
    requires forall j, k :: 0 <= j < k < |trades| ==> MakerId(takerId, trades[j]) != MakerId(takerId, trades[k])
    requires i < |trades|
    ensures MadeBy(trades, takerId, MakerId(takerId, trades[i])) == trades[i].quantity
  {
    var n := |trades| - 1;
    if i < n {
      MadeOnce(trades[..n], takerId, i);
    } else {
      NothingMade(trades[..n], takerId, MakerId(takerId, trades[i]));
    }
  }

  lemma MakersDiffer(trades: seq<Trade>, taker: MatchingOrder, makers: seq<Order>, timestamp: int)
    requires OneEach(trades, taker, makers, timestamp) && !HasId(makers, taker.id) && DistinctIds(makers)
    ensures |trades| <= |makers|
    ensures forall k :: 0 <= k < |trades| ==> MakerId(taker.id, trades[k]) == makers[k].id
    ensures forall j, k :: 0 <= j < k < |trades| ==> MakerId(taker.id, trades[j]) != MakerId(taker.id, trades[k])
  {
    forall k | 0 <= k < |trades| ensures MakerId(taker.id, trades[k]) == makers[k].id {
      assert makers[k] in makers;
      Sides(taker, makers[k], trades[k].quantity, makers[k].price, timestamp, "");
    }
  }

  // ----------------------------------------------------------- trade ids

  lemma {:induction false} FirstPart(a: string, x: string, b: string, y: string)
    requires NoUnderscore(a) && NoUnderscore(b) && a + "_" + x == b + "_" + y
    ensures a == b && x == y
  {
    var s, t := a + "_" + x, b + "_" + y;
    assert s[0] == (if a == "" then '_' else a[0]) && t[0] == (if b == "" then '_' else b[0]);
    assert a != "" ==> a[0] != '_';
    assert b != "" ==> b[0] != '_';
    if a == "" {
      assert s[1..] == x && t[1..] == y;
    } else {
      assert s[1..] == a[1..] + "_" + x && t[1..] == b[1..] + "_" + y;
      FirstPart(a[1..], x, b[1..], y);
      assert a == [a[0]] + a[1..] && b == [b[0]] + b[1..];
    }
  }

  /** A trade id determines its two orders. */
  lemma TradeIdInjective(buy: string, sell: string, q: int, at: int, buy': string, sell': string, q': int, at': int)
    requires NoUnderscore(buy) && NoUnderscore(sell) && NoUnderscore(buy') && NoUnderscore(sell')
    requires GenerateTradeId(buy, sell, q, at) == GenerateTradeId(buy', sell', q', at')
    ensures buy == buy' && sell == sell'
  {
    var tail := Decimal.PrintInt(q) + "_" + Decimal.PrintInt(at);
    var tail' := Decimal.PrintInt(q') + "_" + Decimal.PrintInt(at');
    hide Decimal.PrintInt;
    assert GenerateTradeId(buy, sell, q, at) == "trade" + "_" + (buy + "_" + (sell + "_" + tail));
    assert GenerateTradeId(buy', sell', q', at') == "trade" + "_" + (buy' + "_" + (sell' + "_" + tail'));
    FirstPart("trade", buy + "_" + (sell + "_" + tail), "trade", buy' + "_" + (sell' + "_" + tail'));
    FirstPart(buy, sell + "_" + tail, buy', sell' + "_" + tail');
    FirstPart(sell, tail, sell', tail');
  }

  // ------------------------------------------------- one committed match

  /** A taker that passed the self-trade check, about to be matched. */
  ghost predicate Placed(db: Database, taker: MatchingOrder) {
    && LedgerOk(db) && !HasRow(db.orders, taker.id) && taker.quantity > 0 && NoUnderscore(taker.id)
    && !HasOpposite(Rebuild(db.orders, KeyOf(taker)), taker)
  }

  lemma PlacedIncoming(db: Database, taker: MatchingOrder)
    requires Placed(db, taker)
    ensures Incoming(db.orders, taker)
  {
    hide TradeOk, PositionOk;
    forall r | r in db.orders ensures r.status == StatusOf(r.filledQuantity, r.quantity) {
      assert RowOk(r, db.trades);
    }
  }

  /** Every maker is the resting order of a row of another user. */
  ghost predicate MakersRest(makers: seq<Order>, rows: seq<OrderRow>, taker: MatchingOrder) {
    forall o :: o in makers ==> o.userAddress != taker.userAddress && RestsFor(o, rows, taker)
  }

  ghost predicate RestsFor(o: Order, rows: seq<OrderRow>, taker: MatchingOrder) {
    exists r :: r in rows && Rests(r, KeyOf(taker), MatchingSide(taker.side)) && o == RestingOrder(r)
  }

  /** What a match means, for the proofs about its transaction. */
  ghost predicate MatchFacts(trades: seq<Trade>, left: int, makers: seq<Order>, rows: seq<OrderRow>,
                             taker: MatchingOrder, timestamp: int) {
    && OneEach(trades, taker, makers, timestamp)
    && !HasId(makers, taker.id) && DistinctIds(makers)
    && MakersRest(makers, rows, taker)
    && 0 <= left <= taker.quantity && TradedQuantity(trades) == taker.quantity - left
  }

  lemma MatchIsSound(db: Database, taker: MatchingOrder, timestamp: int)
    requires Placed(db, taker)
    ensures var b := Rebuild(db.orders, KeyOf(taker));
      MatchFacts(TradesOf(b, taker, timestamp), LeftOf(b, taker), Makers(b, taker), db.orders, taker, timestamp)
  {
    var b, side := Rebuild(db.orders, KeyOf(taker)), MatchingSide(taker.side);
    var makers := Makers(b, taker);
    RebuiltSide(db.orders, KeyOf(taker), side);
    RestingMembers(db.orders, KeyOf(taker), side);
    FreshToBook(db.orders, KeyOf(taker), side, taker.id);
    hide Rebuild, Resting, AtPrice, LedgerOk, DistinctIds, HasId, Sorted, AllPositive, Fills, Unfilled, Rests,
         RestingOrder;
    TradesOneEach(taker, makers, taker.quantity, timestamp);
    TotalFilled(taker, makers, taker.quantity, timestamp);
    FilledAmount(taker, makers, taker.quantity);
    forall o | o in makers ensures o.userAddress != taker.userAddress && RestsFor(o, db.orders, taker) {
      assert o in Resting(db.orders, KeyOf(taker), side);
    }
  }

  /** The trades mention the taker and orders of the book only. */
  lemma NewTradeOrders(trades: seq<Trade>, makers: seq<Order>, rows: seq<OrderRow>, taker: MatchingOrder,
                       timestamp: int, i: nat)
    requires OneEach(trades, taker, makers, timestamp) && !HasId(makers, taker.id) && i < |trades|
    ensures trades[i].buyOrderId == (if taker.side == BUY then taker.id else makers[i].id)
    ensures trades[i].sellOrderId == (if taker.side == BUY then makers[i].id else taker.id)
    ensures trades[i].id ==
      GenerateTradeId(trades[i].buyOrderId, trades[i].sellOrderId, trades[i].quantity, trades[i].timestamp)
    ensures trades[i].marketId == taker.marketId
  {
    hide GenerateTradeId;
  }

  /** An old trade does not mention a new order. */
  lemma OldTradeOrders(db: Database, id: string)
    requires LedgerOk(db) && !HasRow(db.orders, id)
    ensures forall t :: t in db.trades ==> t.buyOrderId != id && t.sellOrderId != id
  {
    hide RowOk, PositionOk, IsParty, UniqueTrades, DistinctRows, GenerateTradeId;
    forall t | t in db.trades ensures t.buyOrderId != id && t.sellOrderId != id {
      assert TradeOk(t, db.orders);
    }
  }

  /** What a row gave to the match: nothing, or its maker's one trade. */
  lemma MadeWithin(trades: seq<Trade>, left: int, makers: seq<Order>, rows: seq<OrderRow>, taker: MatchingOrder,
                   timestamp: int,
                   row: OrderRow)
    requires MatchFacts(trades, left, makers, rows, taker, timestamp) && DistinctRows(rows) && row in rows
    requires row.filledQuantity <= row.quantity
    ensures 0 <= MadeBy(trades, taker.id, row.id) <= RemainingOf(row)
  {
    if Made(trades, taker.id, row.id) {
      MakersDiffer(trades, taker, makers, timestamp);
      assert MakersRest(makers, rows, taker) && OneEach(trades, taker, makers, timestamp);
      hide CreateTrade, MadeBy, MakerId, RestsFor, MatchFacts, CanMatch, DistinctRows;
      var t :| t in trades && MakerId(taker.id, t) == row.id;
      var i :| 0 <= i < |trades| && trades[i] == t;
      MadeOnce(trades, taker.id, i);
      assert makers[i] in makers;
      MakerRow(rows, makers[i], taker, row);
    } else {
      NothingMade(trades, taker.id, row.id);
    }
  }

  lemma MakerRow(rows: seq<OrderRow>, o: Order, taker: MatchingOrder, row: OrderRow)
    requires DistinctRows(rows) && RestsFor(o, rows, taker) && row in rows && row.id == o.id
    ensures Rests(row, KeyOf(taker), MatchingSide(taker.side)) && o == RestingOrder(row)
  {
    var r :| r in rows && Rests(r, KeyOf(taker), MatchingSide(taker.side)) && o == RestingOrder(r);
    SameRow(rows, r, row);
  }

  lemma SameRow(rows: seq<OrderRow>, r: OrderRow, r': OrderRow)
    requires DistinctRows(rows) && r in rows && r' in rows && r.id == r'.id
    ensures r == r'
  {
    var i :| 0 <= i < |rows| && rows[i] == r;
    var j :| 0 <= j < |rows| && rows[j] == r';
  }

  /** The rows of makers and bystanders account for the trades. */
  lemma OldRowKept(db: Database, taker: MatchingOrder, trades: seq<Trade>, left: int, makers: seq<Order>,
                   timestamp: int, row: OrderRow)
    requires LedgerOk(db) && !HasRow(db.orders, taker.id) && row in db.orders
    requires MatchFacts(trades, left, makers, db.orders, taker, timestamp)
    ensures RowOk(FilledRow(row, taker.id, trades), db.trades + trades)
  {
    hide MadeBy, Made, OrderFill, MatchFacts, NoUnderscore, HasRow, TradeOk, PositionOk, UniqueTrades;
    assert RowOk(row, db.trades);
    NotThisRow(db.orders, row, taker.id);
    LedgerRows(db);
    hide LedgerOk, DistinctRows;
    MadeWithin(trades, left, makers, db.orders, taker, timestamp, row);
    OrderFillConcat(db.trades, trades, row.id);
    OneEachOf(trades, left, makers, db.orders, taker, timestamp);
    FillOfMatch(trades, taker, makers, timestamp, row.id);
    if !Made(trades, taker.id, row.id) {
      NothingMade(trades, taker.id, row.id);
    }
  }

  lemma NotThisRow(rows: seq<OrderRow>, row: OrderRow, id: string)
    requires row in rows && !HasRow(rows, id)
    ensures row.id != id
  {
  }

  lemma OneEachOf(trades: seq<Trade>, left: int, makers: seq<Order>, rows: seq<OrderRow>, taker: MatchingOrder,
                  timestamp: int)
    requires MatchFacts(trades, left, makers, rows, taker, timestamp)
    ensures OneEach(trades, taker, makers, timestamp) && !HasId(makers, taker.id) && DistinctIds(makers)
  {
  }

  lemma LedgerRows(db: Database)
    requires LedgerOk(db)
    ensures DistinctRows(db.orders)
  {
  }

  /** The row of the taker accounts for the trades. */
  lemma TakerRowKept(db: Database, taker: MatchingOrder, trades: seq<Trade>, left: int, makers: seq<Order>,
                     timestamp: int)
    requires LedgerOk(db) && !HasRow(db.orders, taker.id) && taker.quantity > 0 && NoUnderscore(taker.id)
    requires MatchFacts(trades, left, makers, db.orders, taker, timestamp)
    ensures var row := TakerRow(taker, taker.quantity - left);
      FilledRow(row, taker.id, trades) == row && RowOk(row, db.trades + trades)
  {
    hide LedgerOk, OrderFill, CreateTrade, NoUnderscore, HasRow, TradedQuantity, HasId, OneEach, MadeBy, DistinctIds,
         MakersRest;
    OldTradeOrders(db, taker.id);
    NoFill(db.trades, taker.id);
    OrderFillConcat(db.trades, trades, taker.id);
    FillOfMatch(trades, taker, makers, timestamp, taker.id);
    NeverItself(trades, taker, makers, timestamp);
  }

  lemma NeverItself(trades: seq<Trade>, taker: MatchingOrder, makers: seq<Order>, timestamp: int)
    requires OneEach(trades, taker, makers, timestamp) && !HasId(makers, taker.id) && DistinctIds(makers)
    ensures !Made(trades, taker.id, taker.id)
  {
    MakersDiffer(trades, taker, makers, timestamp);
    hide OneEach, DistinctIds, MakerId;
    forall t | t in trades ensures MakerId(taker.id, t) != taker.id {
      var i :| 0 <= i < |trades| && trades[i] == t;
      assert makers[i] in makers;
    }
  }

  /** Rows keep what a trade says about them. */
  lemma PartyKept(rows: seq<OrderRow>, last: OrderRow, takerId: string, trades: seq<Trade>, id: string, side: OrderSide,
                  t: Trade, user: string)
    requires Party(rows + [last], id, side, t, user)
    ensures Party(FilledRows(rows + [last], takerId, trades), id, side, t, user)
  {
    var all := rows + [last];
    var i :| 0 <= i < |all| && all[i].id == id && IsParty(all[i], side, t, user);
    hide Made, MadeBy, StatusOf;
    var r := FilledRows(all, takerId, trades)[i];
    assert r in FilledRows(all, takerId, trades) && r.id == id && IsParty(r, side, t, user);
  }

  lemma PartyLarger(rows: seq<OrderRow>, last: OrderRow, id: string, side: OrderSide, t: Trade, user: string)
    requires Party(rows, id, side, t, user)
    ensures Party(rows + [last], id, side, t, user)
  {
    var r :| r in rows && r.id == id && IsParty(r, side, t, user);
    assert r in rows + [last];
  }

  /** Rows keep their order, their ids and their prices. */
  lemma PricedKept(rows: seq<OrderRow>, last: OrderRow, takerId: string, trades: seq<Trade>, t: Trade)
    requires PricedByFirst(rows + [last], t)
    ensures PricedByFirst(FilledRows(rows + [last], takerId, trades), t)
  {
    var all := rows + [last];
    var i, j :| 0 <= i < j < |all| && PairOf(all[i], all[j], t) && t.price == all[i].price;
    hide Made, MadeBy, StatusOf;
    var after := FilledRows(all, takerId, trades);
    assert PairOf(after[i], after[j], t) && t.price == after[i].price;
  }

  lemma PricedLarger(rows: seq<OrderRow>, last: OrderRow, t: Trade)
    requires PricedByFirst(rows, t)
    ensures PricedByFirst(rows + [last], t)
  {
    var i, j :| 0 <= i < j < |rows| && PairOf(rows[i], rows[j], t) && t.price == rows[i].price;
    var all := rows + [last];
    assert PairOf(all[i], all[j], t) && t.price == all[i].price;
  }

  /** A new trade is priced by its maker, whose row is there before that of the taker. */
  lemma PricedNew(rows: seq<OrderRow>, last: OrderRow, r: OrderRow, t: Trade)
    requires r in rows && PairOf(r, last, t) && t.price == r.price
    ensures PricedByFirst(rows + [last], t)
  {
    var i :| 0 <= i < |rows| && rows[i] == r;
    var all := rows + [last];
    assert PairOf(all[i], all[|rows|], t) && t.price == all[i].price;
  }

  lemma OldTradeKept(rows: seq<OrderRow>, last: OrderRow, takerId: string, trades: seq<Trade>, t: Trade)
    requires TradeOk(t, rows)
    ensures TradeOk(t, FilledRows(rows + [last], takerId, trades))
  {
    hide Party, GenerateTradeId, FilledRows, PricedByFirst;
    PricedLarger(rows, last, t);
    PricedKept(rows, last, takerId, trades, t);
    PartyLarger(rows, last, t.buyOrderId, BUY, t, t.buyerAddress);
    PartyLarger(rows, last, t.sellOrderId, SELL, t, t.sellerAddress);
    PartyKept(rows, last, takerId, trades, t.buyOrderId, BUY, t, t.buyerAddress);
    PartyKept(rows, last, takerId, trades, t.sellOrderId, SELL, t, t.sellerAddress);
  }

  /** A new trade is sound: its maker rests within the taker's limit and belongs to someone else. */
  lemma NewTradeOk(rows: seq<OrderRow>, taker: MatchingOrder, trades: seq<Trade>, left: int, makers: seq<Order>,
                   timestamp: int, i: nat)
    requires MatchFacts(trades, left, makers, rows, taker, timestamp) && i < |trades|
    ensures TradeOk(trades[i], FilledRows(rows + [TakerRow(taker, taker.quantity - left)], taker.id, trades))
  {
    var t, o, last := trades[i], makers[i], TakerRow(taker, taker.quantity - left);
    NewTradeOrders(trades, makers, rows, taker, timestamp, i);
    assert o in makers && RestsFor(o, rows, taker);
    hide MatchFacts, GenerateTradeId, FilledRows, StatusOf;
    var r :| r in rows && Rests(r, KeyOf(taker), MatchingSide(taker.side)) && o == RestingOrder(r);
    assert IsParty(r, r.side, t, o.userAddress) && Party(rows, r.id, r.side, t, o.userAddress);
    assert last in rows + [last] && IsParty(last, taker.side, t, taker.userAddress);
    assert Party(rows + [last], taker.id, taker.side, t, taker.userAddress);
    assert PairOf(r, last, t) && t.price == r.price;
    hide IsParty, Party, Rests, PricedByFirst, PairOf;
    PricedNew(rows, last, r, t);
    PricedKept(rows, last, taker.id, trades, t);
    PartyLarger(rows, last, r.id, r.side, t, o.userAddress);
    PartyKept(rows, last, taker.id, trades, r.id, r.side, t, o.userAddress);
    PartyKept(rows, last, taker.id, trades, taker.id, taker.side, t, taker.userAddress);
  }

  /** Every id of a new trade is new: it names the new taker, and each maker once. */
  lemma NewTradeId(db: Database, taker: MatchingOrder, trades: seq<Trade>, left: int, makers: seq<Order>,
                   timestamp: int, i: nat)
    requires LedgerOk(db) && !HasRow(db.orders, taker.id) && NoUnderscore(taker.id) && i < |trades|
    requires MatchFacts(trades, left, makers, db.orders, taker, timestamp)
    ensures !HasTrade(db.trades + trades[..i], trades[i].id)
  {
    NewTradeOrders(trades, makers, db.orders, taker, timestamp, i);
    PlainIds(trades, left, makers, db, taker, timestamp, i);
    OldTradeOrders(db, taker.id);
    hide MatchFacts, GenerateTradeId;
    forall t | t in db.trades ensures t.id != trades[i].id {
      OldPlainIds(db, t);
      if t.id == trades[i].id {
        TradeIdInjective(t.buyOrderId, t.sellOrderId, t.quantity, t.timestamp,
                         trades[i].buyOrderId, trades[i].sellOrderId, trades[i].quantity, trades[i].timestamp);
      }
    }
    forall k | 0 <= k < i ensures trades[k].id != trades[i].id {
      NewTradesDiffer(db, taker, trades, left, makers, timestamp, k, i);
    }
  }

  lemma NewTradesDiffer(db: Database, taker: MatchingOrder, trades: seq<Trade>, left: int, makers: seq<Order>,
                        timestamp: int, k: nat, i: nat)
    requires LedgerOk(db) && !HasRow(db.orders, taker.id) && NoUnderscore(taker.id) && k < i < |trades|
    requires MatchFacts(trades, left, makers, db.orders, taker, timestamp)
    ensures trades[k].id != trades[i].id
  {
    NewTradeOrders(trades, makers, db.orders, taker, timestamp, k);
    NewTradeOrders(trades, makers, db.orders, taker, timestamp, i);
    PlainIds(trades, left, makers, db, taker, timestamp, k);
    PlainIds(trades, left, makers, db, taker, timestamp, i);
    assert makers[k].id != makers[i].id;
    hide MatchFacts, GenerateTradeId, LedgerOk;
    if trades[k].id == trades[i].id {
      TradeIdInjective(trades[k].buyOrderId, trades[k].sellOrderId, trades[k].quantity, trades[k].timestamp,
                       trades[i].buyOrderId, trades[i].sellOrderId, trades[i].quantity, trades[i].timestamp);
    }
  }

  lemma OldPlainIds(db: Database, t: Trade)
    requires LedgerOk(db) && t in db.trades
    ensures NoUnderscore(t.buyOrderId) && NoUnderscore(t.sellOrderId)
    ensures t.id == GenerateTradeId(t.buyOrderId, t.sellOrderId, t.quantity, t.timestamp)
  {
    hide PositionOk, UniqueTrades, DistinctRows, GenerateTradeId, NoUnderscore, IsParty, OrderFill, StatusOf;
    assert TradeOk(t, db.orders);
    var b :| b in db.orders && b.id == t.buyOrderId;
    var s :| s in db.orders && s.id == t.sellOrderId;
    assert RowOk(b, db.trades) && RowOk(s, db.trades);
  }

  lemma PlainIds(trades: seq<Trade>, left: int, makers: seq<Order>, db: Database, taker: MatchingOrder, timestamp: int,
                 i: nat)
    requires MatchFacts(trades, left, makers, db.orders, taker, timestamp) && i < |trades|
    requires LedgerOk(db) && NoUnderscore(taker.id)
    ensures NoUnderscore(trades[i].buyOrderId) && NoUnderscore(trades[i].sellOrderId)
  {
    NewTradeOrders(trades, makers, db.orders, taker, timestamp, i);
    assert makers[i] in makers && RestsFor(makers[i], db.orders, taker);
    hide MatchFacts, PositionOk, UniqueTrades, DistinctRows, GenerateTradeId, NoUnderscore, TradeOk, OrderFill,
         StatusOf, Rests;
    var r :| r in db.orders && makers[i] == RestingOrder(r);
    assert RowOk(r, db.trades);
  }

  /** Every upsert of a trade of this match creates a row, and the trade ids stay distinct. */
  lemma {:induction false} EveryUpsertCreates(db: Database, taker: MatchingOrder, trades: seq<Trade>, left: int,
                                              makers: seq<Order>,
                                              timestamp: int, n: nat)
    requires LedgerOk(db) && !HasRow(db.orders, taker.id) && NoUnderscore(taker.id) && n <= |trades|
    requires MatchFacts(trades, left, makers, db.orders, taker, timestamp)
    ensures UpsertedAll(db.trades, trades[..n]) == db.trades + trades[..n]
    ensures UniqueTrades(db.trades + trades[..n])
  {
    hide MatchFacts, LedgerOk, UniqueTrades, HasTrade, NoUnderscore, HasRow;
    if n == 0 {
      LedgerTrades(db);
      assert db.trades + trades[..n] == db.trades;
    } else {
      EveryUpsertCreates(db, taker, trades, left, makers, timestamp, n - 1);
      NewTradeId(db, taker, trades, left, makers, timestamp, n - 1);
      var before, t := db.trades + trades[..n - 1], trades[n - 1];
      UniquePush(before, t);
      assert trades[..n][..n - 1] == trades[..n - 1];
      assert db.trades + trades[..n] == before + [t];
    }
  }

  lemma LedgerTrades(db: Database)
    requires LedgerOk(db)
    ensures UniqueTrades(db.trades)
  {
  }

  lemma UniquePush(trades: seq<Trade>, t: Trade)
    requires UniqueTrades(trades) && !HasTrade(trades, t.id)
    ensures UniqueTrades(trades + [t])
  {
    assert forall k :: 0 <= k < |trades| ==> trades[k] in trades;
  }

  // ---------------------------------------------------------- positions

  lemma {:induction false} InMarketPush(trades: seq<Trade>, more: seq<Trade>, marketId: string, m: string)
    requires forall t :: t in more ==> t.marketId == marketId
    ensures InMarket(trades + more, m) == InMarket(trades, m) + (if m == marketId then more else [])
  {
    if more == [] {
      assert trades + more == trades;
    } else {
      var before, t := more[..|more| - 1], more[|more| - 1];
      assert (trades + more)[..|trades + more| - 1] == trades + before;
      InMarketPush(trades, before, marketId, m);
      assert more == before + [t];
    }
  }

  lemma TradedConcat(a: seq<Trade>, b: seq<Trade>, user: string)
    ensures Traded(a + b, user) <==> Traded(a, user) || Traded(b, user)
  {
    if Traded(a, user) {
      var t :| t in a && TakesPart(t, user);
      assert t in a + b;
    }
    if Traded(b, user) {
      var t :| t in b && TakesPart(t, user);
      assert t in a + b;
    }
  }

  lemma TradersTraded(trades: seq<Trade>, user: string)
    ensures user in Traders(trades) <==> Traded(trades, user)
  {
  }

  /** The position of one user after the transaction is still the signed sum of its trades. */
  lemma PositionKept(db: Database, db': Database, trades: seq<Trade>, marketId: string, m: string, user: string)
    requires PositionOk(db, m, user)
    requires forall t :: t in trades ==> t.marketId == marketId
    requires db'.trades == db.trades + trades
    requires db'.positions == PositionsAfter(db.positions, marketId, trades, Traders(trades))
    ensures PositionOk(db', m, user)
  {
    hide Traders, InMarket, Traded, NetPosition, Plus;
    var before := InMarket(db.trades, m);
    InMarketPush(db.trades, trades, marketId, m);
    TradersTraded(trades, user);
    PositionFound(db.positions, marketId, trades, Traders(trades), m, user);
    hide PositionsAfter;
    if m == marketId {
      PositionGrows(before, trades, user);
    } else {
      assert before + [] == before;
    }
  }

  lemma PositionFound(positions: Positions, marketId: string, trades: seq<Trade>, users: set<string>, m: string,
                      user: string)
    ensures var after := PositionsAfter(positions, marketId, trades, users);
      && ((m, user) in after <==> (m, user) in positions || (m == marketId && user in users))
      && (m == marketId && user in users ==>
            after[(m, user)] == Plus(PositionIn(positions, (m, user)), NetPosition(trades, user)))
      && ((m, user) in positions && !(m == marketId && user in users) ==> after[(m, user)] == positions[(m, user)])
  {
  }

  lemma PlusIs(p: Position, q: Position, r: Position)
    requires r.yesShares == p.yesShares + q.yesShares && r.noShares == p.noShares + q.noShares
    requires r.lockedCollateral == p.lockedCollateral + q.lockedCollateral
    ensures r == Plus(p, q)
    ensures q == Position(0, 0, 0) ==> r == p
  {
  }

  lemma NetNothing(trades: seq<Trade>, user: string)
    requires !Traded(trades, user)
    ensures NetPosition(trades, user) == Position(0, 0, 0)
  {
    NotTraded(trades, user);
  }

  lemma PositionGrows(before: seq<Trade>, trades: seq<Trade>, user: string)
    ensures Traded(before + trades, user) <==> Traded(before, user) || Traded(trades, user)
    ensures NetPosition(before + trades, user) == Plus(NetPosition(before, user), NetPosition(trades, user))
    ensures !Traded(before, user) ==> NetPosition(before, user) == Position(0, 0, 0)
    ensures !Traded(trades, user) ==> NetPosition(before + trades, user) == NetPosition(before, user)
  {
    hide Traded, NetShares, NetCost, Plus;
    TradedConcat(before, trades, user);
    NetConcat(before, trades, user);
    PlusIs(NetPosition(before, user), NetPosition(trades, user), NetPosition(before + trades, user));
    hide NetPosition;
    if !Traded(before, user) {
      NetNothing(before, user);
    }
    if !Traded(trades, user) {
      NetNothing(trades, user);
    }
  }

  // --------------------------------------------------------- the theorem

  /** A committed match keeps the ledger in order, and each of its trades becomes a row. */
  lemma CommitKeepsLedger(db: Database, taker: MatchingOrder, timestamp: int)
    requires Placed(db, taker)
    ensures var b := Rebuild(db.orders, KeyOf(taker));
      var db' := Committed(db, taker, taker.quantity - LeftOf(b, taker), TradesOf(b, taker, timestamp));
      && LedgerOk(db')
      && db'.trades == db.trades + TradesOf(b, taker, timestamp)
      && db'.orders == RowsAfter(db.orders, b, taker, timestamp)
  {
    var b := Rebuild(db.orders, KeyOf(taker));
    MatchIsSound(db, taker, timestamp);
    hide Rebuild, TradesOf, LeftOf, HasOpposite;
    CommitSound(db, taker, TradesOf(b, taker, timestamp), LeftOf(b, taker), Makers(b, taker), timestamp);
  }

  lemma CommitSound(db: Database, taker: MatchingOrder, trades: seq<Trade>, left: int, makers: seq<Order>,
                    timestamp: int)
    requires LedgerOk(db) && !HasRow(db.orders, taker.id) && taker.quantity > 0 && NoUnderscore(taker.id)
    requires MatchFacts(trades, left, makers, db.orders, taker, timestamp)
    ensures var db' := Committed(db, taker, taker.quantity - left, trades);
      LedgerOk(db') && db'.trades == db.trades + trades
  {
    var db' := Committed(db, taker, taker.quantity - left, trades);
    EveryUpsertCreates(db, taker, trades, left, makers, timestamp, |trades|);
    assert trades[..|trades|] == trades;
    RowsKept(db, taker, trades, left, makers, timestamp);
    TradesKept(db, taker, trades, left, makers, timestamp);
    hide MatchFacts, RowOk, TradeOk, UniqueTrades, DistinctRows, FilledRows, PositionsAfter, UpsertedAll,
         NoUnderscore, HasRow;
    forall m, user ensures PositionOk(db', m, user) {
      assert PositionOk(db, m, user);
      SameMarket(trades, left, makers, db.orders, taker, timestamp);
      PositionKept(db, db', trades, taker.marketId, m, user);
    }
  }

  lemma SameMarket(trades: seq<Trade>, left: int, makers: seq<Order>, rows: seq<OrderRow>, taker: MatchingOrder,
                   timestamp: int)
    requires MatchFacts(trades, left, makers, rows, taker, timestamp)
    ensures forall t :: t in trades ==> t.marketId == taker.marketId
  {
    hide GenerateTradeId;
  }

  lemma RowsKept(db: Database, taker: MatchingOrder, trades: seq<Trade>, left: int, makers: seq<Order>, timestamp: int)
    requires LedgerOk(db) && !HasRow(db.orders, taker.id) && taker.quantity > 0 && NoUnderscore(taker.id)
    requires MatchFacts(trades, left, makers, db.orders, taker, timestamp)
    ensures var rows := FilledRows(db.orders + [TakerRow(taker, taker.quantity - left)], taker.id, trades);
      DistinctRows(rows) && forall r :: r in rows ==> RowOk(r, db.trades + trades)
  {
    var all := db.orders + [TakerRow(taker, taker.quantity - left)];
    var rows := FilledRows(all, taker.id, trades);
    LedgerRows(db);
    TakerRowKept(db, taker, trades, left, makers, timestamp);
    hide MatchFacts, LedgerOk, RowOk, Made, MadeBy;
    assert DistinctRows(all);
    assert DistinctRows(rows);
    forall r | r in rows ensures RowOk(r, db.trades + trades) {
      var i :| 0 <= i < |rows| && rows[i] == r;
      if i < |db.orders| {
        assert all[i] == db.orders[i];
        OldRowKept(db, taker, trades, left, makers, timestamp, db.orders[i]);
      }
    }
  }

  lemma TradesKept(db: Database, taker: MatchingOrder, trades: seq<Trade>, left: int, makers: seq<Order>,
                   timestamp: int)
    requires LedgerOk(db) && MatchFacts(trades, left, makers, db.orders, taker, timestamp)
    ensures var rows := FilledRows(db.orders + [TakerRow(taker, taker.quantity - left)], taker.id, trades);
      forall t :: t in db.trades + trades ==> TradeOk(t, rows)
  {
    var last := TakerRow(taker, taker.quantity - left);
    hide MatchFacts, TradeOk, RowOk, PositionOk, FilledRows;
    forall t | t in db.trades + trades ensures TradeOk(t, FilledRows(db.orders + [last], taker.id, trades)) {
      if t in db.trades {
        OldTradeKept(db.orders, last, taker.id, trades, t);
      } else {
        var i :| 0 <= i < |trades| && trades[i] == t;
        NewTradeOk(db.orders, taker, trades, left, makers, timestamp, i);
      }
    }
  }

  /** The transaction of a match never misses a maker and never repeats an order id. */
  lemma MakersAreFound(db: Database, taker: MatchingOrder, timestamp: int)
    requires Placed(db, taker)
    ensures var b := Rebuild(db.orders, KeyOf(taker));
      MakersFound(db.orders + [TakerRow(taker, taker.quantity - LeftOf(b, taker))], taker.id,
                  TradesOf(b, taker, timestamp))
  {
    var b := Rebuild(db.orders, KeyOf(taker));
    var makers, trades := Makers(b, taker), TradesOf(b, taker, timestamp);
    var all := db.orders + [TakerRow(taker, taker.quantity - LeftOf(b, taker))];
    MatchIsSound(db, taker, timestamp);
    hide Rebuild, TradesOf, LeftOf, HasOpposite, LedgerOk, RowOk;
    MakersDiffer(trades, taker, makers, timestamp);
    forall t | t in trades ensures HasRow(all, MakerId(taker.id, t)) {
      var i :| 0 <= i < |trades| && trades[i] == t;
      assert makers[i] in makers && RestsFor(makers[i], db.orders, taker);
      var r :| r in db.orders && makers[i] == RestingOrder(r);
      assert r in all;
    }
  }

  /** No order is matched twice by one taker. */
  lemma EachMakerOnce(db: Database, taker: MatchingOrder, timestamp: int)
    requires Placed(db, taker)
    ensures var trades := TradesOf(Rebuild(db.orders, KeyOf(taker)), taker, timestamp);
      forall j, k :: 0 <= j < k < |trades| ==> MakerId(taker.id, trades[j]) != MakerId(taker.id, trades[k])
  {
    var b := Rebuild(db.orders, KeyOf(taker));
    MatchIsSound(db, taker, timestamp);
    hide Rebuild, TradesOf, LeftOf, Placed, MakersRest, TradedQuantity;
    MakersDiffer(TradesOf(b, taker, timestamp), taker, Makers(b, taker), timestamp);
  }

  // -------------------------------------------------------- the totals

  /** What a list of users holds together. */
  function Total(positions: Positions, marketId: string, users: seq<string>): Position {
    if users == [] then Position(0, 0, 0)
    else Plus(PositionIn(positions, (marketId, users[0])), Total(positions, marketId, users[1..]))
  }

  function NetTotal(trades: seq<Trade>, users: seq<string>): Position {
    if users == [] then Position(0, 0, 0) else Plus(NetPosition(trades, users[0]), NetTotal(trades, users[1..]))
  }

  ghost predicate NoDuplicates(users: seq<string>) {
    forall i, j :: 0 <= i < j < |users| ==> users[i] != users[j]
  }

  /** What one trade moves for one user. */
  function MovedBy(t: Trade, user: string): Position {
    Position(TradeShares(t, user, YES), TradeShares(t, user, NO), TradeCost(t, user))
  }

  function Moved(t: Trade, users: seq<string>): Position {
    if users == [] then Position(0, 0, 0) else Plus(MovedBy(t, users[0]), Moved(t, users[1..]))
  }

  /** What the buyer of a trade gains and the seller loses. */
  function Gain(t: Trade): Position {
    Position(if t.outcome == YES then t.quantity else 0, if t.outcome == NO then t.quantity else 0, CostOf(t))
  }

  function Minus(p: Position): Position {
    Position(-p.yesShares, -p.noShares, -p.lockedCollateral)
  }

  function When(b: bool, p: Position): Position {
    if b then p else Position(0, 0, 0)
  }

  /** Gaining as a buyer and losing as a seller, as plain arithmetic. */
  lemma GainOrLoss(buys: bool, sells: bool, g: Position, p: Position)
    requires p.yesShares == (if buys then g.yesShares else 0) - (if sells then g.yesShares else 0)
    requires p.noShares == (if buys then g.noShares else 0) - (if sells then g.noShares else 0)
    requires p.lockedCollateral == (if buys then g.lockedCollateral else 0) - (if sells then g.lockedCollateral else 0)
    ensures p == Plus(When(buys, g), When(sells, Minus(g)))
  {
  }

  lemma MovedByIs(t: Trade, user: string)
    ensures MovedBy(t, user) ==
      Plus(When(t.buyerAddress == user, Gain(t)), When(t.sellerAddress == user, Minus(Gain(t))))
  {
    hide CostOf;
    GainOrLoss(t.buyerAddress == user, t.sellerAddress == user, Gain(t), MovedBy(t, user));
  }

  lemma PlusShuffle(a: Position, b: Position, c: Position, d: Position)
    ensures Plus(Plus(a, b), Plus(c, d)) == Plus(Plus(a, c), Plus(b, d))
  {
  }

  lemma EitherWay(b: bool, c: bool, g: Position)
    requires !(b && c)
    ensures Plus(When(b, g), When(c, g)) == When(b || c, g)
  {
  }

  lemma NothingPlus()
    ensures Plus(Position(0, 0, 0), Position(0, 0, 0)) == Position(0, 0, 0)
  {
  }

  lemma {:induction false} MovedIs(t: Trade, users: seq<string>)
    requires NoDuplicates(users)
    ensures Moved(t, users) ==
      Plus(When(t.buyerAddress in users, Gain(t)), When(t.sellerAddress in users, Minus(Gain(t))))
  {
    hide MovedBy, Gain, Minus, Plus, NoDuplicates;
    if users == [] {
      NothingPlus();
    } else {
      hide When;
      var u, rest, gain, loss := users[0], users[1..], Gain(t), Minus(Gain(t));
      Rest(users);
      MovedIs(t, rest);
      MovedByIs(t, u);
      HeadOrTail(users, t.buyerAddress);
      HeadOrTail(users, t.sellerAddress);
      PlusShuffle(When(t.buyerAddress == u, gain), When(t.sellerAddress == u, loss),
                  When(t.buyerAddress in rest, gain), When(t.sellerAddress in rest, loss));
      EitherWay(t.buyerAddress == u, t.buyerAddress in rest, gain);
      EitherWay(t.sellerAddress == u, t.sellerAddress in rest, loss);
    }
  }

  lemma Rest(users: seq<string>)
    requires NoDuplicates(users) && users != []
    ensures NoDuplicates(users[1..])
  {
  }

  lemma HeadOrTail(users: seq<string>, u: string)
    requires NoDuplicates(users) && users != []
    ensures u in users <==> u == users[0] || u in users[1..]
    ensures !(u == users[0] && u in users[1..])
  {
    assert users == [users[0]] + users[1..];
  }

  lemma NetPositionPush(trades: seq<Trade>, t: Trade, user: string)
    ensures NetPosition(trades + [t], user) == Plus(NetPosition(trades, user), MovedBy(t, user))
  {
    hide TradeCost, TradeShares, NetShares, NetCost;
    NetPush(trades, t, user);
  }

  lemma {:induction false} NetTotalPush(trades: seq<Trade>, t: Trade, users: seq<string>)
    ensures NetTotal(trades + [t], users) == Plus(NetTotal(trades, users), Moved(t, users))
  {
    hide NetPosition, MovedBy, Plus;
    if users == [] {
      NothingPlus();
    } else {
      NetPositionPush(trades, t, users[0]);
      NetTotalPush(trades, t, users[1..]);
      PlusShuffle(NetPosition(trades, users[0]), MovedBy(t, users[0]), NetTotal(trades, users[1..]),
                  Moved(t, users[1..]));
    }
  }

  /** Whatever one side of a trade gains the other side loses. */
  lemma {:induction false} TradesCancel(trades: seq<Trade>, users: seq<string>)
    requires NoDuplicates(users)
    requires forall t :: t in trades ==> t.buyerAddress in users && t.sellerAddress in users
    ensures NetTotal(trades, users) == Position(0, 0, 0)
  {
    hide Moved, NetTotal, Gain, NoDuplicates;
    if trades == [] {
      NetTotalNothing(users);
    } else {
      var before, t := trades[..|trades| - 1], trades[|trades| - 1];
      assert trades == before + [t];
      TradesCancel(before, users);
      NetTotalPush(before, t, users);
      MovedIs(t, users);
    }
  }

  lemma {:induction false} NetTotalNothing(users: seq<string>)
    ensures NetTotal([], users) == Position(0, 0, 0)
  {
    if users != [] {
      NetTotalNothing(users[1..]);
    }
  }

  lemma {:induction false} TotalIsNet(db: Database, marketId: string, users: seq<string>)
    requires LedgerOk(db)
    ensures Total(db.positions, marketId, users) == NetTotal(InMarket(db.trades, marketId), users)
  {
    hide NetShares, NetCost, Traded, InMarket;
    if users != [] {
      TotalIsNet(db, marketId, users[1..]);
      assert PositionOk(db, marketId, users[0]);
      hide LedgerOk;
      if !Traded(InMarket(db.trades, marketId), users[0]) {
        NotTraded(InMarket(db.trades, marketId), users[0]);
      }
    }
  }

  /** In every market the YES shares, the NO shares and the collateral of all positions sum to zero. */
  lemma PositionsBalance(db: Database, marketId: string, users: seq<string>)
    requires LedgerOk(db) && NoDuplicates(users)
    requires forall u :: (marketId, u) in db.positions ==> u in users
    ensures Total(db.positions, marketId, users) == Position(0, 0, 0)
  {
    var trades := InMarket(db.trades, marketId);
    TotalIsNet(db, marketId, users);
    forall t | t in trades ensures t.buyerAddress in users && t.sellerAddress in users {
      assert PositionOk(db, marketId, t.buyerAddress) && PositionOk(db, marketId, t.sellerAddress);
      assert TakesPart(t, t.buyerAddress) && TakesPart(t, t.sellerAddress);
    }
    hide LedgerOk, NoDuplicates;
    TradesCancel(trades, users);
  }
}
