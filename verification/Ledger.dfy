/** The database behind the books: order rows in creation order, trade rows and positions, and
    what one committed match does to them. */
module Ledger {
  import opened Domain
  import opened GreedyMatch
  import opened Accounts

  datatype Status = OPEN | PARTIALLY_FILLED | FILLED

  datatype OrderRow = OrderRow(
    id: string,
    marketId: string,
    userAddress: string,
    side: OrderSide,
    outcome: Outcome,
    price: int,
    quantity: int,
    filledQuantity: int,
    status: Status)

  datatype Position = Position(yesShares: int, noShares: int, lockedCollateral: int)

  type Positions = map<(string, string), Position>

  datatype Database = Database(orders: seq<OrderRow>, trades: seq<Trade>, positions: Positions)

  function StatusOf(filled: int, quantity: int): Status {
    if filled == 0 then OPEN else if filled < quantity then PARTIALLY_FILLED else FILLED
  }

  /** The status says how far the order is filled. */
  predicate StatusFits(row: OrderRow) {
    && (row.status == OPEN <==> row.filledQuantity == 0)
    && (row.status == PARTIALLY_FILLED <==> 0 < row.filledQuantity < row.quantity)
    && (row.status == FILLED <==> row.filledQuantity == row.quantity)
  }

  lemma StatusIs(row: OrderRow)
    requires 0 <= row.filledQuantity <= row.quantity && row.quantity > 0
    ensures StatusFits(row) <==> row.status == StatusOf(row.filledQuantity, row.quantity)
  {
  }

  ghost predicate DistinctRows(rows: seq<OrderRow>) {
    forall i, j :: 0 <= i < j < |rows| ==> rows[i].id != rows[j].id
  }

  ghost predicate HasRow(rows: seq<OrderRow>, id: string) {
    exists r :: r in rows && r.id == id
  }

  function TakerRow(taker: MatchingOrder, filled: int): OrderRow {
    OrderRow(taker.id, taker.marketId, taker.userAddress, taker.side, taker.outcome, taker.price, taker.quantity,
             filled, StatusOf(filled, taker.quantity))
  }

  /** What the trades of one taker took from the order with this id. */
  function MadeBy(trades: seq<Trade>, takerId: string, id: string): int {
    if trades == [] then 0
    else
      var t := trades[|trades| - 1];
      MadeBy(trades[..|trades| - 1], takerId, id) + (if MakerId(takerId, t) == id then t.quantity else 0)
  }

  ghost predicate Made(trades: seq<Trade>, takerId: string, id: string) {
    exists t :: t in trades && MakerId(takerId, t) == id
  }

  /** An order row after the trades of one taker. */
  ghost function FilledRow(row: OrderRow, takerId: string, trades: seq<Trade>): OrderRow {
    if Made(trades, takerId, row.id) then
      var filled := row.filledQuantity + MadeBy(trades, takerId, row.id);
      row.(filledQuantity := filled, status := StatusOf(filled, row.quantity))
    else row
  }

  ghost function FilledRows(rows: seq<OrderRow>, takerId: string, trades: seq<Trade>): (r: seq<OrderRow>)
    ensures |r| == |rows|
    ensures forall i :: 0 <= i < |rows| ==> r[i] == FilledRow(rows[i], takerId, trades)
  {
    seq(|rows|, i requires 0 <= i < |rows| => FilledRow(rows[i], takerId, trades))
  }

  /** An order row after one more trade of this quantity. */
  function Raise(row: OrderRow, quantity: int): OrderRow {
    var filled := row.filledQuantity + quantity;
    row.(filledQuantity := filled, status := StatusOf(filled, row.quantity))
  }

  ghost function RaisedRows(rows: seq<OrderRow>, id: string, quantity: int): (r: seq<OrderRow>)
    ensures |r| == |rows|
    ensures forall i :: 0 <= i < |rows| ==> r[i] == (if rows[i].id == id then Raise(rows[i], quantity) else rows[i])
  {
    seq(|rows|, i requires 0 <= i < |rows| => if rows[i].id == id then Raise(rows[i], quantity) else rows[i])
  }

  lemma MadeStep(trades: seq<Trade>, t: Trade, takerId: string, id: string)
    ensures MadeBy(trades + [t], takerId, id) == MadeBy(trades, takerId, id)
      + (if MakerId(takerId, t) == id then t.quantity else 0)
    ensures Made(trades + [t], takerId, id) <==> Made(trades, takerId, id) || MakerId(takerId, t) == id
    ensures !Made(trades, takerId, id) ==> MadeBy(trades, takerId, id) == 0
  {
    assert (trades + [t])[..|trades|] == trades;
    assert t in trades + [t];
    if !Made(trades, takerId, id) {
      NothingMade(trades, takerId, id);
    }
  }

  lemma {:induction false} NothingMade(trades: seq<Trade>, takerId: string, id: string)
    requires !Made(trades, takerId, id)
    ensures MadeBy(trades, takerId, id) == 0
  {
    if trades != [] {
      assert trades[|trades| - 1] in trades;
      NothingMade(trades[..|trades| - 1], takerId, id);
    }
  }

  ghost predicate HasTrade(trades: seq<Trade>, id: string) {
    exists t :: t in trades && t.id == id
  }

  /** A trade row is written once per trade id. */
  ghost function Upserted(trades: seq<Trade>, t: Trade): seq<Trade> {
    if HasTrade(trades, t.id) then trades else trades + [t]
  }

  ghost function UpsertedAll(trades: seq<Trade>, more: seq<Trade>): seq<Trade> {
    if more == [] then trades else Upserted(UpsertedAll(trades, more[..|more| - 1]), more[|more| - 1])
  }

  lemma {:induction false} UpsertedHas(trades: seq<Trade>, more: seq<Trade>, id: string)
    ensures HasTrade(UpsertedAll(trades, more), id) <==> HasTrade(trades, id) || HasTrade(more, id)
  {
    if more != [] {
      var before, t := more[..|more| - 1], more[|more| - 1];
      UpsertedHas(trades, before, id);
      assert more == before + [t];
      var now := UpsertedAll(trades, before);
      assert forall x :: x in now + [t] <==> x in now || x == t;
    }
  }

  /** Trades that are written again leave the rows as they are. */
  lemma {:induction false} UpsertedTwice(trades: seq<Trade>, more: seq<Trade>)
    requires forall t :: t in more ==> HasTrade(trades, t.id)
    ensures UpsertedAll(trades, more) == trades
  {
    if more != [] {
      assert more[|more| - 1] in more;
      UpsertedTwice(trades, more[..|more| - 1]);
    }
  }

  /** So a repetition of the upserts of a match writes nothing. */
  lemma UpsertsRepeat(trades: seq<Trade>, more: seq<Trade>)
    ensures UpsertedAll(UpsertedAll(trades, more), more) == UpsertedAll(trades, more)
  {
    forall t | t in more ensures HasTrade(UpsertedAll(trades, more), t.id) {
      UpsertedHas(trades, more, t.id);
      assert HasTrade(more, t.id);
    }
    UpsertedTwice(UpsertedAll(trades, more), more);
  }

  ghost function Traders(trades: seq<Trade>): set<string> {
    (set t | t in trades :: t.buyerAddress) + (set t | t in trades :: t.sellerAddress)
  }

  function Plus(p: Position, q: Position): Position {
    Position(p.yesShares + q.yesShares, p.noShares + q.noShares, p.lockedCollateral + q.lockedCollateral)
  }

  function PositionIn(positions: Positions, key: (string, string)): Position {
    if key in positions then positions[key] else Position(0, 0, 0)
  }

  /** What these trades add to the position of one user. */
  function NetPosition(trades: seq<Trade>, user: string): Position {
    Position(NetShares(trades, user, YES), NetShares(trades, user, NO), NetCost(trades, user))
  }

  /** The positions of these users in one market after these trades. */
  ghost function PositionsAfter(positions: Positions, marketId: string, trades: seq<Trade>,
                                users: set<string>): Positions {
    map key | key in positions.Keys + (set u | u in users :: (marketId, u)) ::
      if key.0 == marketId && key.1 in users then Plus(PositionIn(positions, key), NetPosition(trades, key.1))
      else positions[key]
  }

  lemma AddUser(positions: Positions, marketId: string, trades: seq<Trade>, users: set<string>, u: string)
    requires u !in users
    ensures var before := PositionsAfter(positions, marketId, trades, users);
      PositionsAfter(positions, marketId, trades, users + {u}) ==
        before[(marketId, u) := Plus(PositionIn(before, (marketId, u)), NetPosition(trades, u))]
  {
    hide NetPosition, Plus;
    var before := PositionsAfter(positions, marketId, trades, users);
    var after := PositionsAfter(positions, marketId, trades, users + {u});
    assert PositionIn(before, (marketId, u)) == PositionIn(positions, (marketId, u));
    forall key: (string, string)
      ensures key in after <==> key in before || key == (marketId, u)
      ensures key in before && key != (marketId, u) ==> after[key] == before[key]
    {
    }
  }

  /** The transaction finds every maker. */
  ghost predicate MakersFound(rows: seq<OrderRow>, takerId: string, trades: seq<Trade>) {
    forall t :: t in trades ==> HasRow(rows, MakerId(takerId, t))
  }

  /** The database after the transaction of one match. */
  ghost function Committed(db: Database, taker: MatchingOrder, filled: int, trades: seq<Trade>): Database {
    Database(
      FilledRows(db.orders + [TakerRow(taker, filled)], taker.id, trades),
      UpsertedAll(db.trades, trades),
      PositionsAfter(db.positions, taker.marketId, trades, Traders(trades)))
  }
}
