/** The database transaction of one match: it creates the taker's order, fills the makers' orders,
    writes the trades and moves the positions, in loops over the rows, and comes to what Committed
    says. It fails when a maker's order is missing. */
module Transactions {
  import opened Domain
  import opened GreedyMatch
  import opened Accounts
  import opened Engine
  import opened Ledger

  datatype TransactionError = MakerNotFound | DuplicateRow

  function RowIndex(rows: seq<OrderRow>, id: string): (i: nat)
    ensures i <= |rows|
    ensures i < |rows| ==> rows[i].id == id
    ensures i == |rows| <==> !HasRow(rows, id)
  {
    if rows == [] || rows[0].id == id then 0
    else
      assert rows == [rows[0]] + rows[1..];
      1 + RowIndex(rows[1..], id)
  }

  function TradeKnown(trades: seq<Trade>, id: string): (b: bool)
    ensures b <==> HasTrade(trades, id)
  {
    if trades == [] then false
    else
      assert trades == [trades[0]] + trades[1..];
      trades[0].id == id || TradeKnown(trades[1..], id)
  }

  /** The rows as one transaction sees and changes them. */
  class Transaction {
    var orders: seq<OrderRow>
    var trades: seq<Trade>
    var positions: Positions

    constructor (db: Database)
      ensures Now() == db
    {
      orders, trades, positions := db.orders, db.trades, db.positions;
    }

    ghost function Now(): Database
      reads this
    {
      Database(orders, trades, positions)
    }

    method CreateOrder(row: OrderRow) returns (ok: bool)
      modifies this`orders
      ensures ok <==> !HasRow(old(orders), row.id)
      ensures orders == if ok then old(orders) + [row] else old(orders)
    {
      ok := RowIndex(orders, row.id) == |orders|;
      if ok {
        orders := orders + [row];
      }
    }

    /** Raise the filled quantity of one maker's order. */
    method FillOrder(id: string, quantity: int) returns (found: bool)
      requires DistinctRows(orders)
      modifies this`orders
      ensures found <==> HasRow(old(orders), id)
      ensures orders == RaisedRows(old(orders), id, quantity)
      ensures forall r :: r in orders && r.id == id && 0 <= r.filledQuantity <= r.quantity && r.quantity > 0 ==>
        StatusFits(r)
    {
      var i := RowIndex(orders, id);
      found := i < |orders|;
      if found {
        OnlyRow(orders, i, quantity);
        var makerOrder := orders[i];
        var newFilledQty := makerOrder.filledQuantity + quantity;
        var makerStatus :=
          if newFilledQty == 0 then OPEN else if newFilledQty < makerOrder.quantity then PARTIALLY_FILLED else FILLED;
        orders := orders[i := makerOrder.(filledQuantity := newFilledQty, status := makerStatus)];
      } else {
        NoRow(orders, id, quantity);
      }
    }

    method UpsertTrade(t: Trade)
      modifies this`trades
      ensures trades == Upserted(old(trades), t)
    {
      if !TradeKnown(trades, t.id) {
        trades := trades + [t];
      }
    }

    method UpsertPosition(key: (string, string), delta: Position)
      modifies this`positions
      ensures positions == old(positions)[key := Plus(PositionIn(old(positions), key), delta)]
    {
      if key in positions {
        positions := positions[key := Plus(positions[key], delta)];
      } else {
        positions := positions[key := delta];
      }
    }

    /** Fill the makers of all trades. */
    method FillMakers(takerId: string, trades: seq<Trade>) returns (found: bool)
      requires DistinctRows(orders)
      modifies this`orders
      ensures found <==> MakersFound(old(orders), takerId, trades)
      ensures found ==> orders == FilledRows(old(orders), takerId, trades)
    {
      hide MakersFound, FilledRow, DistinctRows, HasRow;
      StartFilling(orders, takerId, trades);
      found := true;
      var i := 0;
      while i < |trades| && found
        invariant 0 <= i <= |trades|
        invariant found ==> MakersFound(old(orders), takerId, trades[..i])
        invariant found ==> orders == FilledRows(old(orders), takerId, trades[..i])
        invariant !found ==> !MakersFound(old(orders), takerId, trades)
      {
        var maker := if trades[i].buyOrderId == takerId then trades[i].sellOrderId else trades[i].buyOrderId;
        FilledStep(old(orders), takerId, trades[..i], trades[i]);
        FoundStep(old(orders), takerId, trades, i);
        found := FillOrder(maker, trades[i].quantity);
        i := i + 1;
      }
      assert found ==> trades[..|trades|] == trades;
    }

    method UpsertTrades(more: seq<Trade>)
      modifies this`trades
      ensures trades == UpsertedAll(old(trades), more)
    {
      hide Upserted;
      var i := 0;
      while i < |more|
        invariant 0 <= i <= |more|
        invariant trades == UpsertedAll(old(trades), more[..i])
      {
        assert more[..i + 1][..i] == more[..i];
        UpsertTrade(more[i]);
        i := i + 1;
      }
      assert more[..|more|] == more;
    }

    /** Move the position of every trader by its share and collateral deltas. */
    method UpdatePositions(marketId: string, deltas: seq<PositionDelta>, ghost trades: seq<Trade>,
                           collateral: map<string, int>)
      requires DeltasOf(trades, deltas) && CollateralOf(trades, collateral)
      modifies this`positions
      ensures positions == PositionsAfter(old(positions), marketId, trades, Traders(trades))
    {
      hide DeltasOf, CollateralOf, Traders, PositionsAfter, UsersOf;
      TradersListed(trades, deltas);
      NoUsers(positions, marketId, trades, deltas);
      var i := 0;
      while i < |deltas|
        invariant 0 <= i <= |deltas|
        invariant positions == PositionsAfter(old(positions), marketId, trades, UsersOf(deltas[..i]))
      {
        MovePosition(marketId, deltas, i, trades, collateral, old(positions));
        i := i + 1;
      }
      assert deltas[..|deltas|] == deltas;
    }

    /** Move the position of one trader. */
    method MovePosition(marketId: string, deltas: seq<PositionDelta>, i: nat, ghost trades: seq<Trade>,
                        collateral: map<string, int>,
                        ghost start: Positions)
      requires DeltasOf(trades, deltas) && CollateralOf(trades, collateral) && i < |deltas|
      requires positions == PositionsAfter(start, marketId, trades, UsersOf(deltas[..i]))
      modifies this`positions
      ensures positions == PositionsAfter(start, marketId, trades, UsersOf(deltas[..i + 1]))
    {
      hide DeltasOf, CollateralOf, PositionsAfter, NetPosition, PositionIn, Plus, UsersOf, Amount;
      var delta := deltas[i];
      PositionStep(start, marketId, trades, deltas, i);
      CollateralFor(trades, deltas, collateral, i);
      var collateralDelta := Amount(collateral, delta.userAddress);
      UpsertPosition((marketId, delta.userAddress),
                     Position(delta.yesSharesDelta, delta.noSharesDelta, collateralDelta));
    }

    /** The whole transaction. */
    method Persist(taker: MatchingOrder, filled: int, result: MatchResult) returns (r: Result<(), TransactionError>)
      requires DistinctRows(orders) && DeltasOf(result.trades, result.positionDeltas)
      modifies this
      ensures r == Verdict(old(orders), taker, filled, result.trades)
      ensures r.Ok? ==> Now() == Committed(old(Now()), taker, filled, result.trades)
    {
      var created := CreateOrder(TakerRow(taker, filled));
      if !created {
        r := Err(DuplicateRow);
      } else {
        NewRow(old(orders), TakerRow(taker, filled));
        var found := FillMakers(taker.id, result.trades);
        if !found {
          r := Err(MakerNotFound);
        } else {
          UpsertTrades(result.trades);
          var collateral := CollateralDeltas(result.trades);
          UpdatePositions(taker.marketId, result.positionDeltas, result.trades, collateral);
          r := Ok(());
        }
      }
    }
  }

  ghost function Verdict(rows: seq<OrderRow>, taker: MatchingOrder, filled: int,
                         trades: seq<Trade>): Result<(), TransactionError> {
    if HasRow(rows, taker.id) then Err(DuplicateRow)
    else if !MakersFound(rows + [TakerRow(taker, filled)], taker.id, trades) then Err(MakerNotFound)
    else Ok(())
  }

  /** A transaction that fails leaves the database as it was. */
  method RunTransaction(db: Database, taker: MatchingOrder, filled: int, result: MatchResult)
    returns (r: Result<Database, TransactionError>)
    requires DistinctRows(db.orders) && DeltasOf(result.trades, result.positionDeltas)
    ensures r.Err? <==> Verdict(db.orders, taker, filled, result.trades).Err?
    ensures r.Err? ==> r.error == Verdict(db.orders, taker, filled, result.trades).error
    ensures r.Ok? ==> r.value == Committed(db, taker, filled, result.trades)
  {
    var tx := new Transaction(db);
    var outcome := tx.Persist(taker, filled, result);
    if outcome.Ok? {
      r := Ok(Database(tx.orders, tx.trades, tx.positions));
    } else {
      r := Err(outcome.error);
    }
  }

  lemma NewRow(rows: seq<OrderRow>, row: OrderRow)
    requires DistinctRows(rows) && !HasRow(rows, row.id)
    ensures DistinctRows(rows + [row])
  {
  }

  // ------------------------------------------------------------- collateral

  ghost predicate CollateralOf(trades: seq<Trade>, deltas: map<string, int>) {
    && (forall u :: u in deltas <==> Traded(trades, u))
    && (forall u :: u in deltas ==> deltas[u] == NetCost(trades, u))
  }

  function Amount(deltas: map<string, int>, user: string): int {
    if user in deltas then deltas[user] else 0
  }

  /** The buyer pays price times quantity, the seller receives it. */
  method CollateralDeltas(trades: seq<Trade>) returns (deltas: map<string, int>)
    ensures CollateralOf(trades, deltas)
  {
    hide CollateralOf, Amount;
    deltas := map[];
    NoCollateral(trades);
    var i := 0;
    while i < |trades|
      invariant 0 <= i <= |trades|
      invariant CollateralOf(trades[..i], deltas)
    {
      var trade := trades[i];
      var cost := trade.price * trade.quantity;
      CollateralStep(trades[..i], trade, cost, deltas);
      assert trades[..i + 1] == trades[..i] + [trade];
      deltas := deltas[trade.buyerAddress := Amount(deltas, trade.buyerAddress) + cost];
      deltas := deltas[trade.sellerAddress := Amount(deltas, trade.sellerAddress) - cost];
      i := i + 1;
    }
    assert trades[..|trades|] == trades;
  }

  lemma NoCollateral(trades: seq<Trade>)
    ensures CollateralOf(trades[..0], map[])
  {
  }

  lemma CollateralStep(trades: seq<Trade>, t: Trade, cost: int, deltas: map<string, int>)
    requires CollateralOf(trades, deltas) && cost == t.price * t.quantity
    ensures var paid := deltas[t.buyerAddress := Amount(deltas, t.buyerAddress) + cost];
      CollateralOf(trades + [t], paid[t.sellerAddress := Amount(paid, t.sellerAddress) - cost])
  {
    var paid := deltas[t.buyerAddress := Amount(deltas, t.buyerAddress) + cost];
    var moved := paid[t.sellerAddress := Amount(paid, t.sellerAddress) - cost];
    hide Traded, NetCost;
    forall u
      ensures u in moved <==> Traded(trades + [t], u)
      ensures u in moved ==> moved[u] == NetCost(trades + [t], u)
    {
      NetPush(trades, t, u);
      if !Traded(trades, u) {
        NotTraded(trades, u);
      }
    }
  }

  // -------------------------------------------------------------- positions

  ghost function UsersOf(deltas: seq<PositionDelta>): set<string> {
    set d | d in deltas :: d.userAddress
  }

  lemma TradersListed(trades: seq<Trade>, deltas: seq<PositionDelta>)
    requires DeltasOf(trades, deltas)
    ensures Traders(trades) == UsersOf(deltas)
  {
    forall u ensures u in Traders(trades) <==> Traded(trades, u) {
    }
    forall u | u in Traders(trades) ensures u in UsersOf(deltas) {
      assert Traded(trades, u);
    }
  }

  lemma NoUsers(positions: Positions, marketId: string, trades: seq<Trade>, deltas: seq<PositionDelta>)
    ensures PositionsAfter(positions, marketId, trades, UsersOf(deltas[..0])) == positions
  {
    assert UsersOf(deltas[..0]) == {};
    hide UsersOf;
  }

  lemma PositionStep(positions: Positions, marketId: string, trades: seq<Trade>, deltas: seq<PositionDelta>, i: nat)
    requires i < |deltas| && DeltasOf(trades, deltas)
    ensures var before, u := PositionsAfter(positions, marketId, trades, UsersOf(deltas[..i])), deltas[i].userAddress;
      PositionsAfter(positions, marketId, trades, UsersOf(deltas[..i + 1])) ==
        before[(marketId, u) := Plus(PositionIn(before, (marketId, u)), NetPosition(trades, u))]
  {
    var u := deltas[i].userAddress;
    assert deltas[..i + 1] == deltas[..i] + [deltas[i]];
    assert UsersOf(deltas[..i + 1]) == UsersOf(deltas[..i]) + {u};
    assert u !in UsersOf(deltas[..i]);
    hide *;
    AddUser(positions, marketId, trades, UsersOf(deltas[..i]), u);
  }

  lemma CollateralFor(trades: seq<Trade>, deltas: seq<PositionDelta>, collateral: map<string, int>, i: nat)
    requires i < |deltas| && DeltasOf(trades, deltas) && CollateralOf(trades, collateral)
    ensures var d := deltas[i];
      NetPosition(trades, d.userAddress) ==
        Position(d.yesSharesDelta, d.noSharesDelta, Amount(collateral, d.userAddress))
  {
    assert deltas[i] in deltas;
  }

  lemma OnlyRow(rows: seq<OrderRow>, i: nat, quantity: int)
    requires DistinctRows(rows) && i < |rows|
    ensures rows[i := Raise(rows[i], quantity)] == RaisedRows(rows, rows[i].id, quantity)
  {
  }

  lemma NoRow(rows: seq<OrderRow>, id: string, quantity: int)
    requires !HasRow(rows, id)
    ensures rows == RaisedRows(rows, id, quantity)
  {
    assert forall i :: 0 <= i < |rows| ==> rows[i].id != id;
  }

  lemma StartFilling(rows: seq<OrderRow>, takerId: string, trades: seq<Trade>)
    ensures MakersFound(rows, takerId, trades[..0])
    ensures FilledRows(rows, takerId, trades[..0]) == rows
  {
  }

  lemma FoundStep(rows: seq<OrderRow>, takerId: string, trades: seq<Trade>, i: nat)
    requires i < |trades|
    ensures trades[..i + 1] == trades[..i] + [trades[i]]
    ensures MakersFound(rows, takerId, trades[..i + 1]) <==>
      MakersFound(rows, takerId, trades[..i]) && HasRow(rows, MakerId(takerId, trades[i]))
    ensures MakersFound(rows, takerId, trades) ==> MakersFound(rows, takerId, trades[..i + 1])
  {
    hide HasRow, MakerId;
    assert trades[..i + 1] == trades[..i] + [trades[i]];
    assert trades[i] in trades[..i + 1];
  }

  lemma FilledStep(rows: seq<OrderRow>, takerId: string, trades: seq<Trade>, t: Trade)
    requires DistinctRows(rows)
    ensures var now, id := FilledRows(rows, takerId, trades), MakerId(takerId, t);
      && DistinctRows(now) && (HasRow(now, id) <==> HasRow(rows, id))
      && RaisedRows(now, id, t.quantity) == FilledRows(rows, takerId, trades + [t])
  {
    hide StatusOf, MadeBy, Made, DistinctRows, HasRow;
    var now, id := FilledRows(rows, takerId, trades), MakerId(takerId, t);
    FilledIds(rows, takerId, trades);
    forall i | 0 <= i < |rows| ensures RaisedRows(now, id, t.quantity)[i] == FilledRow(rows[i], takerId, trades + [t]) {
      MadeStep(trades, t, takerId, rows[i].id);
    }
  }

  /** Filling keeps every row in its place. */
  lemma FilledIds(rows: seq<OrderRow>, takerId: string, trades: seq<Trade>)
    ensures forall i :: 0 <= i < |rows| ==> FilledRows(rows, takerId, trades)[i].id == rows[i].id
    ensures DistinctRows(FilledRows(rows, takerId, trades)) <==> DistinctRows(rows)
    ensures forall id :: HasRow(FilledRows(rows, takerId, trades), id) <==> HasRow(rows, id)
  {
    var now := FilledRows(rows, takerId, trades);
    forall id ensures HasRow(now, id) <==> HasRow(rows, id) {
      if HasRow(rows, id) {
        var i :| 0 <= i < |rows| && rows[i].id == id;
        assert now[i] in now && now[i].id == id;
      }
    }
  }
}
