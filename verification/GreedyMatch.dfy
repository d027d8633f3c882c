/** What one match does, as functions of the opposite side in price-time order: the trades it
    makes, what is left of the makers and of the taker. PriceTimePriority says the same without
    recursion: each maker gets the smaller of its own quantity and what the better ones left. */
module GreedyMatch {
  import opened Domain
  import opened PriorityList
  import Decimal

  predicate CanMatch(takerPrice: int, makerPrice: int, takerSide: OrderSide) {
    if takerSide == BUY then makerPrice <= takerPrice else makerPrice >= takerPrice
  }

  function GenerateTradeId(buyOrderId: string, sellOrderId: string, quantity: int, timestamp: int): string {
    "trade_" + buyOrderId + "_" + sellOrderId + "_" + Decimal.PrintInt(quantity) + "_" + Decimal.PrintInt(timestamp)
  }

  function CreateTrade(taker: MatchingOrder, maker: Order, quantity: int, price: int, timestamp: int): Trade {
    var isBuyer := taker.side == BUY;
    var buyId := if isBuyer then taker.id else maker.id;
    var sellId := if isBuyer then maker.id else taker.id;
    Trade(GenerateTradeId(buyId, sellId, quantity, timestamp), taker.marketId, taker.outcome,
          if isBuyer then taker.userAddress else maker.userAddress,
          if isBuyer then maker.userAddress else taker.userAddress,
          buyId, sellId, price, quantity, timestamp)
  }

  /** For instance. */
  lemma TradeIdText()
    ensures GenerateTradeId("buy", "sell", 10, 7) == "trade_buy_sell_10_7"
  {
    assert Decimal.PrintInt(10) == Decimal.PrintNat(1) + ['0'];
    assert Decimal.PrintInt(7) == ['7'];
  }

  /** The other party of a trade of this taker. */
  function MakerId(takerId: string, t: Trade): string {
    if t.buyOrderId == takerId then t.sellOrderId else t.buyOrderId
  }

  /** The match stops: nothing left to fill, no maker, or the best maker is out of reach. */
  predicate Stops(taker: MatchingOrder, makers: seq<Order>, remaining: int) {
    remaining <= 0 || makers == [] || !CanMatch(taker.price, makers[0].price, taker.side)
  }

  function Fills(taker: MatchingOrder, makers: seq<Order>, remaining: int, timestamp: int): seq<Trade> {
    if Stops(taker, makers, remaining) then []
    else
      var q := Min(remaining, makers[0].quantity);
      [CreateTrade(taker, makers[0], q, makers[0].price, timestamp)]
        + Fills(taker, makers[1..], remaining - q, timestamp)
  }

  function Leftover(taker: MatchingOrder, makers: seq<Order>, remaining: int): seq<Order> {
    if Stops(taker, makers, remaining) then makers
    else
      var q := Min(remaining, makers[0].quantity);
      if q == makers[0].quantity then Leftover(taker, makers[1..], remaining - q)
      else [makers[0].(quantity := makers[0].quantity - q)] + makers[1..]
  }

  function Unfilled(taker: MatchingOrder, makers: seq<Order>, remaining: int): int {
    if Stops(taker, makers, remaining) then remaining
    else Unfilled(taker, makers[1..], remaining - Min(remaining, makers[0].quantity))
  }

  /** The matching side after the best maker gave up a fill. */
  ghost function AfterFill(makers: seq<Order>, fill: int): seq<Order>
    requires makers != []
  {
    if fill == makers[0].quantity then makers[1..]
    else [makers[0].(quantity := makers[0].quantity - fill)] + makers[1..]
  }

  /** One pass of the loop does the first step of the match and leaves the rest of it. */
  lemma MatchStep(taker: MatchingOrder, makers: seq<Order>, remaining: int, timestamp: int)
    requires !Stops(taker, makers, remaining)
    ensures var fill := Min(remaining, makers[0].quantity);
      var makers' := AfterFill(makers, fill);
      && Fills(taker, makers, remaining, timestamp) ==
           [CreateTrade(taker, makers[0], fill, makers[0].price, timestamp)]
             + Fills(taker, makers', remaining - fill, timestamp)
      && Leftover(taker, makers', remaining - fill) == Leftover(taker, makers, remaining)
      && Unfilled(taker, makers', remaining - fill) == Unfilled(taker, makers, remaining)
      && (fill < makers[0].quantity ==> fill == remaining)
  {
  }

  lemma MatchDone(taker: MatchingOrder, makers: seq<Order>, remaining: int, timestamp: int)
    requires Stops(taker, makers, remaining)
    ensures Fills(taker, makers, remaining, timestamp) == []
    ensures Leftover(taker, makers, remaining) == makers
    ensures Unfilled(taker, makers, remaining) == remaining
  {
  }

  function TradedQuantity(trades: seq<Trade>): int {
    if trades == [] then 0 else trades[0].quantity + TradedQuantity(trades[1..])
  }

  /** What is not traded is left. */
  lemma {:induction false} TradedAndLeft(taker: MatchingOrder, makers: seq<Order>, q: int, timestamp: int)
    ensures TradedQuantity(Fills(taker, makers, q, timestamp)) + Unfilled(taker, makers, q) == q
  {
    if !Stops(taker, makers, q) {
      var fill := Min(q, makers[0].quantity);
      TradedAndLeft(taker, makers[1..], q - fill, timestamp);
      hide Stops, GenerateTradeId;
      assert Fills(taker, makers, q, timestamp)[1..] == Fills(taker, makers[1..], q - fill, timestamp);
    }
  }

  // ------------------------------------------- the same without recursion

  /** What maker i gets from a taker of quantity q: it crosses, and the makers before it have not
      used the quantity up. */
  function FillAt(taker: MatchingOrder, makers: seq<Order>, q: int, i: nat): int
    requires i < |makers|
  {
    if CanMatch(taker.price, makers[i].price, taker.side)
    then Max(0, Min(makers[i].quantity, q - Sum(makers[..i])))
    else 0
  }

  /** The makers a taker can reach at all. */
  function Crossing(taker: MatchingOrder, makers: seq<Order>): seq<Order> {
    if makers == [] then []
    else (if CanMatch(taker.price, makers[0].price, taker.side) then [makers[0]] else []) + Crossing(taker, makers[1..])
  }

  lemma SortedTail(side: Side, s: seq<Order>)
    requires s != [] && Sorted(side, s)
    ensures Sorted(side, s[1..])
    ensures AllPositive(s) ==> AllPositive(s[1..])
    ensures DistinctIds(s) ==> DistinctIds(s[1..])
  {
    assert forall i :: 0 <= i < |s[1..]| ==> s[1..][i] == s[i + 1];
  }

  lemma FillAtTail(taker: MatchingOrder, makers: seq<Order>, q: int, i: nat)
    requires 0 < i < |makers|
    ensures FillAt(taker, makers, q, i) == FillAt(taker, makers[1..], q - makers[0].quantity, i - 1)
  {
    assert makers[..i] == [makers[0]] + makers[1..][..i - 1];
    assert makers[..i][1..] == makers[1..][..i - 1];
  }

  /** Serving the best maker first leaves the same fills for the others. */
  lemma FillAtStep(taker: MatchingOrder, makers: seq<Order>, q: int, i: nat)
    requires 0 < i < |makers| && AllPositive(makers) && q > 0
    ensures FillAt(taker, makers, q, i) == FillAt(taker, makers[1..], q - Min(q, makers[0].quantity), i - 1)
  {
    FillAtTail(taker, makers, q, i);
    var before := makers[1..][..i - 1];
    assert AllPositive(before) by {
      assert forall k :: 0 <= k < |before| ==> before[k] == makers[k + 1];
    }
    SumNonNegative(before);
  }

  /** Beyond a maker out of reach, and once the quantity is used up, nobody is filled. */
  lemma NothingAfterStop(taker: MatchingOrder, makers: seq<Order>, q: int, i: nat)
    requires Sorted(MatchingSide(taker.side), makers) && AllPositive(makers)
    requires Stops(taker, makers, q) && i < |makers|
    ensures FillAt(taker, makers, q, i) == 0
  {
    SumNonNegative(makers[..i]);
    assert i > 0 ==> !Better(MatchingSide(taker.side), makers[i].price, makers[0].price);
  }

  /** A trade of this taker with this maker, field by field: at the maker's price, in the taker's market and outcome,
      with the address and the order of the buyer and of the seller on their sides. */
  predicate TradedWith(t: Trade, taker: MatchingOrder, maker: Order, timestamp: int) {
    && t.price == maker.price && t.timestamp == timestamp
    && t.marketId == taker.marketId && t.outcome == taker.outcome
    && (taker.side == BUY ==>
          && t.buyerAddress == taker.userAddress && t.buyOrderId == taker.id
          && t.sellerAddress == maker.userAddress && t.sellOrderId == maker.id)
    && (taker.side == SELL ==>
          && t.sellerAddress == taker.userAddress && t.sellOrderId == taker.id
          && t.buyerAddress == maker.userAddress && t.buyOrderId == maker.id)
  }

  /** The trades of a match are with the first makers, one each, at their prices. */
  lemma {:induction false} TradedInOrder(taker: MatchingOrder, makers: seq<Order>, q: int, timestamp: int)
    ensures var trades := Fills(taker, makers, q, timestamp);
      && |trades| <= |makers|
      && forall i :: 0 <= i < |trades| ==> TradedWith(trades[i], taker, makers[i], timestamp)
  {
    if !Stops(taker, makers, q) {
      var fill := Min(q, makers[0].quantity);
      TradedInOrder(taker, makers[1..], q - fill, timestamp);
      hide GenerateTradeId, Stops;
      var trades, rest := Fills(taker, makers, q, timestamp), Fills(taker, makers[1..], q - fill, timestamp);
      assert trades == [CreateTrade(taker, makers[0], fill, makers[0].price, timestamp)] + rest;
      forall i | 0 <= i < |trades| ensures TradedWith(trades[i], taker, makers[i], timestamp) {
        if i > 0 {
          assert trades[i] == rest[i - 1] && makers[1..][i - 1] == makers[i];
        }
      }
    }
  }

  /** Each trade is for what its maker is due. */
  lemma TradedForFillAt(taker: MatchingOrder, makers: seq<Order>, q: int, timestamp: int)
    requires Sorted(MatchingSide(taker.side), makers) && AllPositive(makers)
    ensures var trades := Fills(taker, makers, q, timestamp);
      && |trades| <= |makers|
      && forall i :: 0 <= i < |trades| ==> trades[i].quantity == FillAt(taker, makers, q, i)
  {
    PriceTimePriority(taker, makers, q, timestamp);
    hide Fills, FillAt, Sorted, AllPositive, GenerateTradeId;
  }

  /** Price-time priority, exactly: the i-th trade is the i-th maker at the maker's price for
      FillAt, the makers traded with are exactly those with a positive FillAt, and what stays of
      each other maker is untouched. */
  lemma {:induction false} PriceTimePriority(taker: MatchingOrder, makers: seq<Order>, q: int, timestamp: int)
    requires Sorted(MatchingSide(taker.side), makers) && AllPositive(makers)
    ensures var trades := Fills(taker, makers, q, timestamp);
      && |trades| <= |makers|
      && (forall i :: 0 <= i < |trades| ==>
            && FillAt(taker, makers, q, i) > 0
            && trades[i] == CreateTrade(taker, makers[i], FillAt(taker, makers, q, i), makers[i].price, timestamp))
      && (forall i :: |trades| <= i < |makers| ==> FillAt(taker, makers, q, i) == 0)
  {
    if Stops(taker, makers, q) {
      forall i | 0 <= i < |makers| ensures FillAt(taker, makers, q, i) == 0 {
        NothingAfterStop(taker, makers, q, i);
      }
    } else {
      var fill, tail := Min(q, makers[0].quantity), makers[1..];
      SortedTail(MatchingSide(taker.side), makers);
      var trades, rest := Fills(taker, makers, q, timestamp), Fills(taker, tail, q - fill, timestamp);
      assert trades == [CreateTrade(taker, makers[0], fill, makers[0].price, timestamp)] + rest;
      assert makers[..0] == [];
      assert FillAt(taker, makers, q, 0) == fill;
      PriceTimePriority(taker, tail, q - fill, timestamp);
      hide FillAt, CreateTrade, Fills, Sorted, AllPositive;
      forall i | 1 <= i < |makers|
        ensures i < |trades| ==> FillAt(taker, makers, q, i) > 0
        ensures i < |trades| ==>
          trades[i] == CreateTrade(taker, makers[i], FillAt(taker, makers, q, i), makers[i].price, timestamp)
        ensures i >= |trades| ==> FillAt(taker, makers, q, i) == 0
      {
        FillAtStep(taker, makers, q, i);
        assert tail[i - 1] == makers[i];
        assert i < |trades| ==> trades[i] == rest[i - 1];
      }
    }
  }

  /** The taker gets the smaller of what it wants and what crosses, and keeps the rest. */
  lemma {:induction false} TotalFilled(taker: MatchingOrder, makers: seq<Order>, q: int, timestamp: int)
    requires Sorted(MatchingSide(taker.side), makers) && AllPositive(makers) && q >= 0
    ensures TradedQuantity(Fills(taker, makers, q, timestamp)) == Min(q, Sum(Crossing(taker, makers)))
    ensures Unfilled(taker, makers, q) == q - Min(q, Sum(Crossing(taker, makers)))
  {
    if Stops(taker, makers, q) {
      CrossingAfterStop(taker, makers);
    } else {
      SortedTail(MatchingSide(taker.side), makers);
      var fill := Min(q, makers[0].quantity);
      TotalFilled(taker, makers[1..], q - fill, timestamp);
      assert Crossing(taker, makers)[1..] == Crossing(taker, makers[1..]);
      assert Fills(taker, makers, q, timestamp)[1..] == Fills(taker, makers[1..], q - fill, timestamp);
      CrossingPositive(taker, makers[1..]);
      SumNonNegative(Crossing(taker, makers[1..]));
    }
  }

  lemma {:induction false} CrossingPositive(taker: MatchingOrder, makers: seq<Order>)
    requires AllPositive(makers)
    ensures AllPositive(Crossing(taker, makers))
  {
    if makers != [] {
      assert forall i :: 0 <= i < |makers[1..]| ==> makers[1..][i] == makers[i + 1];
      CrossingPositive(taker, makers[1..]);
    }
  }

  lemma {:induction false} CrossingAfterStop(taker: MatchingOrder, makers: seq<Order>)
    requires Sorted(MatchingSide(taker.side), makers) && AllPositive(makers)
    ensures Sum(Crossing(taker, makers)) >= 0
    ensures makers != [] && !CanMatch(taker.price, makers[0].price, taker.side) ==> Crossing(taker, makers) == []
  {
    CrossingPositive(taker, makers);
    SumNonNegative(Crossing(taker, makers));
    if makers != [] && !CanMatch(taker.price, makers[0].price, taker.side) {
      SortedTail(MatchingSide(taker.side), makers);
      if |makers| > 1 {
        assert !Better(MatchingSide(taker.side), makers[1].price, makers[0].price);
        CrossingAfterStop(taker, makers[1..]);
      }
    }
  }

  /** The makers after the first n were traded with, all but the last of them used up. */
  ghost function Remainder(taker: MatchingOrder, makers: seq<Order>, q: int, n: nat): seq<Order>
    requires n <= |makers|
  {
    if n > 0 && FillAt(taker, makers, q, n - 1) < makers[n - 1].quantity
    then [makers[n - 1].(quantity := makers[n - 1].quantity - FillAt(taker, makers, q, n - 1))] + makers[n..]
    else makers[n..]
  }

  lemma FirstFill(taker: MatchingOrder, makers: seq<Order>, q: int)
    requires AllPositive(makers) && !Stops(taker, makers, q)
    ensures FillAt(taker, makers, q, 0) == Min(q, makers[0].quantity)
  {
    assert makers[..0] == [];
  }

  lemma RemainderStep(taker: MatchingOrder, makers: seq<Order>, q: int, n: nat)
    requires AllPositive(makers) && !Stops(taker, makers, q) && q >= makers[0].quantity && n < |makers|
    ensures Remainder(taker, makers, q, n + 1) == Remainder(taker, makers[1..], q - makers[0].quantity, n)
  {
    FirstFill(taker, makers, q);
    if n > 0 {
      FillAtStep(taker, makers, q, n);
    }
    hide FillAt;
    assert makers[1..][n..] == makers[n + 1..];
    assert n > 0 ==> makers[1..][n - 1] == makers[n];
  }

  /** The first n makers were traded with: all but the last of them are used up, the last keeps what
      the taker did not need, and everything behind it stays as it was. */
  ghost predicate Consumed(taker: MatchingOrder, makers: seq<Order>, q: int, n: nat) {
    && n <= |makers|
    && (forall i :: 0 <= i < n - 1 ==> FillAt(taker, makers, q, i) == makers[i].quantity)
    && Leftover(taker, makers, q) == Remainder(taker, makers, q, n)
  }

  /** The makers traded with are a prefix of the matching side. */
  lemma {:induction false} ConsumedPrefix(taker: MatchingOrder, makers: seq<Order>, q: int, timestamp: int)
    requires AllPositive(makers)
    ensures Consumed(taker, makers, q, |Fills(taker, makers, q, timestamp)|)
  {
    if Stops(taker, makers, q) {
      assert makers[0..] == makers;
    } else if q < makers[0].quantity {
      PartialOnly(taker, makers, q, timestamp);
      hide FillAt, Remainder, Leftover, Fills;
    } else {
      UsedUp(taker, makers, q, timestamp);
      ConsumedPrefix(taker, makers[1..], q - makers[0].quantity, timestamp);
      hide Consumed, Fills, Leftover;
      ConsumedStep(taker, makers, q, |Fills(taker, makers[1..], q - makers[0].quantity, timestamp)|);
    }
  }

  lemma ConsumedStep(taker: MatchingOrder, makers: seq<Order>, q: int, n: nat)
    requires AllPositive(makers) && !Stops(taker, makers, q) && q >= makers[0].quantity
    requires Consumed(taker, makers[1..], q - makers[0].quantity, n)
    ensures Consumed(taker, makers, q, n + 1)
  {
    var tail := makers[1..];
    FirstFill(taker, makers, q);
    assert Leftover(taker, makers, q) == Leftover(taker, tail, q - makers[0].quantity);
    hide Leftover, Remainder, FillAt, Stops, AllPositive;
    RemainderStep(taker, makers, q, n);
    forall i | 1 <= i < n ensures FillAt(taker, makers, q, i) == makers[i].quantity {
      FillAtStep(taker, makers, q, i);
      assert tail[i - 1] == makers[i];
    }
  }

  lemma PartialOnly(taker: MatchingOrder, makers: seq<Order>, q: int, timestamp: int)
    requires AllPositive(makers) && !Stops(taker, makers, q) && q < makers[0].quantity
    ensures |Fills(taker, makers, q, timestamp)| == 1
    ensures Leftover(taker, makers, q) == Remainder(taker, makers, q, 1)
  {
    FirstFill(taker, makers, q);
    assert Stops(taker, makers[1..], 0);
    hide FillAt, CreateTrade, AllPositive;
  }

  lemma UsedUp(taker: MatchingOrder, makers: seq<Order>, q: int, timestamp: int)
    requires !Stops(taker, makers, q) && q >= makers[0].quantity
    ensures |Fills(taker, makers, q, timestamp)| == 1 + |Fills(taker, makers[1..], q - makers[0].quantity, timestamp)|
    ensures Leftover(taker, makers, q) == Leftover(taker, makers[1..], q - makers[0].quantity)
  {
  }

  /** Once the match is over, whatever is left of the taker cannot trade with whatever is left of
      the makers. */
  lemma {:induction false} NothingLeftToMatch(taker: MatchingOrder, makers: seq<Order>, q: int)
    requires Sorted(MatchingSide(taker.side), makers) && AllPositive(makers)
    ensures Sorted(MatchingSide(taker.side), Leftover(taker, makers, q)) && AllPositive(Leftover(taker, makers, q))
    ensures Unfilled(taker, makers, q) > 0 ==>
      forall o :: o in Leftover(taker, makers, q) ==> !CanMatch(taker.price, o.price, taker.side)
  {
    var side := MatchingSide(taker.side);
    if Stops(taker, makers, q) {
      if q > 0 {
        forall o | o in makers ensures !CanMatch(taker.price, o.price, taker.side) {
          var i :| 0 <= i < |makers| && makers[i] == o;
          assert i == 0 || !Better(side, makers[i].price, makers[0].price);
        }
      }
    } else {
      SortedTail(side, makers);
      NothingLeftToMatch(taker, makers[1..], q - Min(q, makers[0].quantity));
    }
  }

  /** What is left of the makers are makers: same ids, same users, same prices, in the same order. */
  lemma {:induction false} LeftoverMembers(taker: MatchingOrder, makers: seq<Order>, q: int)
    ensures forall o :: o in Leftover(taker, makers, q) ==>
      exists m ::
        m in makers && m.id == o.id && m.userAddress == o.userAddress && m.price == o.price && m.side == o.side
  {
    if !Stops(taker, makers, q) {
      LeftoverMembers(taker, makers[1..], q - Min(q, makers[0].quantity));
    }
  }
}
