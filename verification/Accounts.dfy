/** What a list of trades means for its participants: shares gained or lost per outcome, and
    collateral paid or received. */
module Accounts {
  import opened Domain

  /** The change one trade makes to one user's shares of one outcome. */
  function TradeShares(t: Trade, user: string, outcome: Outcome): int {
    if t.outcome != outcome then 0
    else (if t.buyerAddress == user then t.quantity else 0) - (if t.sellerAddress == user then t.quantity else 0)
  }

  function NetShares(trades: seq<Trade>, user: string, outcome: Outcome): int {
    if trades == [] then 0
    else NetShares(trades[..|trades| - 1], user, outcome) + TradeShares(trades[|trades| - 1], user, outcome)
  }

  function CostOf(t: Trade): int {
    t.price * t.quantity
  }

  /** The buyer pays price times quantity, the seller receives it. */
  function TradeCost(t: Trade, user: string): int {
    (if t.buyerAddress == user then CostOf(t) else 0) - (if t.sellerAddress == user then CostOf(t) else 0)
  }

  function NetCost(trades: seq<Trade>, user: string): int {
    if trades == [] then 0
    else NetCost(trades[..|trades| - 1], user) + TradeCost(trades[|trades| - 1], user)
  }

  /** A purchase of shares moves shares one way and money the other, and nobody else. */
  lemma BuyerAndSeller(t: Trade, user: string)
    requires t.buyerAddress != t.sellerAddress
    ensures user == t.buyerAddress ==>
      TradeShares(t, user, t.outcome) == t.quantity && TradeCost(t, user) == t.price * t.quantity
    ensures user == t.sellerAddress ==>
      TradeShares(t, user, t.outcome) == -t.quantity && TradeCost(t, user) == -(t.price * t.quantity)
    ensures user != t.buyerAddress && user != t.sellerAddress ==>
      TradeShares(t, user, t.outcome) == 0 && TradeCost(t, user) == 0
    ensures TradeShares(t, user, if t.outcome == YES then NO else YES) == 0
  {
  }

  predicate TakesPart(t: Trade, user: string) {
    t.buyerAddress == user || t.sellerAddress == user
  }

  ghost predicate Traded(trades: seq<Trade>, user: string) {
    exists t :: t in trades && TakesPart(t, user)
  }

  lemma NetPush(trades: seq<Trade>, t: Trade, user: string)
    ensures forall outcome ::
      NetShares(trades + [t], user, outcome) == NetShares(trades, user, outcome) + TradeShares(t, user, outcome)
    ensures NetCost(trades + [t], user) == NetCost(trades, user) + TradeCost(t, user)
    ensures Traded(trades + [t], user) <==> Traded(trades, user) || TakesPart(t, user)
  {
    assert (trades + [t])[..|trades|] == trades;
    assert t in trades + [t];
  }

  lemma {:induction false} NetConcat(a: seq<Trade>, b: seq<Trade>, user: string)
    ensures forall outcome ::
      NetShares(a + b, user, outcome) == NetShares(a, user, outcome) + NetShares(b, user, outcome)
    ensures NetCost(a + b, user) == NetCost(a, user) + NetCost(b, user)
  {
    if b == [] {
      assert a + b == a;
    } else {
      var b', t := b[..|b| - 1], b[|b| - 1];
      assert a + b == (a + b') + [t] && b == b' + [t];
      NetConcat(a, b', user);
      NetPush(a + b', t, user);
      NetPush(b', t, user);
    }
  }

  lemma {:induction false} NotTraded(trades: seq<Trade>, user: string)
    requires !Traded(trades, user)
    ensures forall outcome :: NetShares(trades, user, outcome) == 0
    ensures NetCost(trades, user) == 0
  {
    if trades != [] {
      var t := trades[|trades| - 1];
      assert t in trades;
      NotTraded(trades[..|trades| - 1], user);
    }
  }
}
