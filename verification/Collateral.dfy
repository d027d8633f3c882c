/** The wallet endpoint's recomputation of locked collateral from the trades, and its agreement with
    the column that the transactions keep incrementally. Amounts are in units of 1e-7, the scale of
    indexed prices; a CLOB price tick of 0.01 is 100000 of them. */
module Collateral {
  import opened Domain
  import opened Accounts
  import opened Ledger
  import opened Conservation

  const UNITS_PER_TICK := 100_000

  datatype Direction = Buy | Sell

  datatype IndexedTrade = IndexedTrade(
    marketId: string,
    traderAddress: string,
    counterpartyAddress: string,
    direction: Direction,
    priceRaw: int,
    quantityRaw: int,
    buyOrderId: string,
    sellOrderId: string)

  type Collaterals = map<string, int>

  function PairKey(buyOrderId: string, sellOrderId: string): string {
    buyOrderId + ":" + sellOrderId
  }

  /** The trades of the wallet in these markets. */
  function FindTrades(trades: seq<Trade>, wallet: string, marketIds: seq<string>): seq<Trade> {
    if trades == [] then []
    else
      var t := trades[|trades| - 1];
      FindTrades(trades[..|trades| - 1], wallet, marketIds)
        + (if t.marketId in marketIds && TakesPart(t, wallet) then [t] else [])
  }

  function FindIndexed(trades: seq<IndexedTrade>, wallet: string, marketIds: seq<string>): seq<IndexedTrade> {
    if trades == [] then []
    else
      var t := trades[0];
      (if t.marketId in marketIds && (t.traderAddress == wallet || t.counterpartyAddress == wallet) then [t] else [])
        + FindIndexed(trades[1..], wallet, marketIds)
  }

  /** What one trade adds: the buyer's side is looked at first. */
  function WalletCost(t: Trade, wallet: string): int {
    if t.buyerAddress == wallet then CostOf(t) else if t.sellerAddress == wallet then -CostOf(t) else 0
  }

  function WalletTotal(trades: seq<Trade>, wallet: string, marketId: string): int {
    if trades == [] then 0
    else
      var t := trades[|trades| - 1];
      WalletTotal(trades[..|trades| - 1], wallet, marketId)
        + (if t.marketId == marketId then WalletCost(t, wallet) else 0)
  }

  function IndexedCost(t: IndexedTrade, wallet: string): int {
    var isBuyer :=
      (t.direction == Buy && t.traderAddress == wallet) || (t.direction == Sell && t.counterpartyAddress == wallet);
    var isSeller :=
      (t.direction == Sell && t.traderAddress == wallet) || (t.direction == Buy && t.counterpartyAddress == wallet);
    if isBuyer then t.priceRaw * t.quantityRaw else if isSeller then -(t.priceRaw * t.quantityRaw) else 0
  }

  function At(m: Collaterals, marketId: string): int {
    if marketId in m then m[marketId] else 0
  }

  ghost function PairsOf(trades: seq<Trade>): set<string> {
    set t | t in trades :: PairKey(t.buyOrderId, t.sellOrderId)
  }

  ghost predicate InSome(trades: seq<Trade>, wallet: string, marketId: string) {
    exists t :: t in trades && t.marketId == marketId && TakesPart(t, wallet)
  }

  ghost predicate ClobOnly(trades: seq<Trade>, wallet: string, m: Collaterals, processed: set<string>) {
    && processed == PairsOf(trades)
    && (forall id :: id in m <==> InSome(trades, wallet, id))
    && (forall id :: At(m, id) == UNITS_PER_TICK * WalletTotal(trades, wallet, id))
  }

  method AddClobTrades(wallet: string, clobTrades: seq<Trade>) returns (m: Collaterals, processed: set<string>)
    ensures ClobOnly(clobTrades, wallet, m, processed)
  {
    NoClob(clobTrades, wallet);
    hide ClobOnly, PairKey;
    m, processed := map[], {};
    var i := 0;
    while i < |clobTrades|
      invariant 0 <= i <= |clobTrades|
      invariant ClobOnly(clobTrades[..i], wallet, m, processed)
    {
      var trade := clobTrades[i];
      ClobStep(clobTrades[..i], trade, wallet, m, processed);
      assert clobTrades[..i + 1] == clobTrades[..i] + [trade];
      processed := processed + {PairKey(trade.buyOrderId, trade.sellOrderId)};
      var cost := trade.price * UNITS_PER_TICK * trade.quantity;
      var current := At(m, trade.marketId);
      if trade.buyerAddress == wallet {
        m := m[trade.marketId := current + cost];
      } else if trade.sellerAddress == wallet {
        m := m[trade.marketId := current - cost];
      }
      i := i + 1;
    }
    assert clobTrades[..|clobTrades|] == clobTrades;
  }

  ghost function WithTrade(m: Collaterals, trade: Trade, wallet: string): Collaterals {
    var cost := trade.price * UNITS_PER_TICK * trade.quantity;
    if trade.buyerAddress == wallet then m[trade.marketId := At(m, trade.marketId) + cost]
    else if trade.sellerAddress == wallet then m[trade.marketId := At(m, trade.marketId) - cost]
    else m
  }

  lemma ClobStep(trades: seq<Trade>, trade: Trade, wallet: string, m: Collaterals, processed: set<string>)
    requires ClobOnly(trades, wallet, m, processed)
    ensures ClobOnly(trades + [trade], wallet, WithTrade(m, trade, wallet),
                      processed + {PairKey(trade.buyOrderId, trade.sellOrderId)})
  {
    var m', all := WithTrade(m, trade, wallet), trades + [trade];
    ScaledCost(trade);
    assert all[..|trades|] == trades;
    assert PairsOf(all) == PairsOf(trades) + {PairKey(trade.buyOrderId, trade.sellOrderId)};
    hide PairKey, PairsOf;
    forall id
      ensures id in m' <==> InSome(all, wallet, id)
      ensures At(m', id) == UNITS_PER_TICK * WalletTotal(all, wallet, id)
    {
      SomePush(trades, trade, wallet, id);
    }
  }

  lemma NoClob(trades: seq<Trade>, wallet: string)
    ensures ClobOnly(trades[..0], wallet, map[], {})
  {
  }

  lemma ScaledCost(t: Trade)
    ensures t.price * UNITS_PER_TICK * t.quantity == UNITS_PER_TICK * CostOf(t)
  {
  }

  lemma SomePush(trades: seq<Trade>, t: Trade, wallet: string, id: string)
    ensures InSome(trades + [t], wallet, id) <==>
      InSome(trades, wallet, id) || (t.marketId == id && TakesPart(t, wallet))
  {
    if InSome(trades, wallet, id) {
      var x :| x in trades && x.marketId == id && TakesPart(x, wallet);
      assert x in trades + [t];
    }
    assert t in trades + [t];
  }

  /** Ids without a colon are told apart by their pair. */
  lemma {:induction false} PairKeyInjective(buy: string, sell: string, buy': string, sell': string)
    requires ':' !in buy && ':' !in buy' && PairKey(buy, sell) == PairKey(buy', sell')
    ensures buy == buy' && sell == sell'
  {
    var s, s' := buy + ":" + sell, buy' + ":" + sell';
    assert s[0] == (if buy == "" then ':' else buy[0]) && s'[0] == (if buy' == "" then ':' else buy'[0]);
    assert buy != "" ==> buy[0] != ':';
    assert buy' != "" ==> buy'[0] != ':';
    if buy == "" {
      assert s[1..] == sell && s'[1..] == sell';
    } else {
      assert s[1..] == PairKey(buy[1..], sell) && s'[1..] == PairKey(buy'[1..], sell');
      PairKeyInjective(buy[1..], sell, buy'[1..], sell');
      assert buy == [buy[0]] + buy[1..] && buy' == [buy'[0]] + buy'[1..];
    }
  }

  // ---------------------------------------------------------- indexed trades

  /** The wallet's indexed trades of these markets, and only those. */
  lemma {:induction false} IndexedFound(a: seq<IndexedTrade>, wallet: string, marketIds: seq<string>)
    ensures forall x :: x in FindIndexed(a, wallet, marketIds) <==>
      x in a && x.marketId in marketIds && Involves(x, wallet)
  {
    if a != [] {
      IndexedFound(a[1..], wallet, marketIds);
      assert a == [a[0]] + a[1..];
    }
  }

  /** They come in the order of the table. */
  lemma {:induction false} IndexedInOrder(a: seq<IndexedTrade>, b: seq<IndexedTrade>, wallet: string,
                                          marketIds: seq<string>)
    ensures FindIndexed(a + b, wallet, marketIds) ==
      FindIndexed(a, wallet, marketIds) + FindIndexed(b, wallet, marketIds)
  {
    if a == [] {
      assert a + b == b;
    } else {
      var t := a[0];
      IndexedInOrder(a[1..], b, wallet, marketIds);
      IndexedHead(t, a[1..], wallet, marketIds);
      IndexedHead(t, a[1..] + b, wallet, marketIds);
      hide FindIndexed;
      assert a == [t] + a[1..] && a + b == [t] + (a[1..] + b);
    }
  }

  lemma IndexedHead(t: IndexedTrade, rest: seq<IndexedTrade>, wallet: string, marketIds: seq<string>)
    ensures FindIndexed([t] + rest, wallet, marketIds) ==
      (if t.marketId in marketIds && Involves(t, wallet) then [t] else []) + FindIndexed(rest, wallet, marketIds)
  {
    assert ([t] + rest)[1..] == rest;
  }

  /** Copies of two trades of the book have the same key exactly if the trades have the same orders. */
  lemma SamePair(x: IndexedTrade, y: IndexedTrade, t: Trade)
    requires ':' !in x.buyOrderId && ':' !in y.buyOrderId && ':' !in t.buyOrderId
    ensures KeyOfIndexed(x) == KeyOfIndexed(y) <==> x.buyOrderId == y.buyOrderId && x.sellOrderId == y.sellOrderId
    ensures KeyOfIndexed(x) in PairsOf([t]) <==> x.buyOrderId == t.buyOrderId && x.sellOrderId == t.sellOrderId
  {
    if KeyOfIndexed(x) == KeyOfIndexed(y) {
      PairKeyInjective(x.buyOrderId, x.sellOrderId, y.buyOrderId, y.sellOrderId);
    }
    if KeyOfIndexed(x) == PairKey(t.buyOrderId, t.sellOrderId) {
      PairKeyInjective(x.buyOrderId, x.sellOrderId, t.buyOrderId, t.sellOrderId);
    }
    assert forall k :: k in PairsOf([t]) <==> k == PairKey(t.buyOrderId, t.sellOrderId) by {
      assert t in [t];
    }
  }

  function KeyOfIndexed(t: IndexedTrade): string {
    PairKey(t.buyOrderId, t.sellOrderId)
  }

  ghost function IndexedKeys(trades: seq<IndexedTrade>): set<string> {
    set t | t in trades :: KeyOfIndexed(t)
  }

  predicate Involves(t: IndexedTrade, wallet: string) {
    t.traderAddress == wallet || t.counterpartyAddress == wallet
  }

  /** The trade counts towards this market: its pair of orders was not seen before. */
  ghost predicate Counts(trades: seq<IndexedTrade>, k: nat, processed: set<string>, wallet: string, marketId: string)
    requires k < |trades|
  {
    && trades[k].marketId == marketId && Involves(trades[k], wallet)
    && KeyOfIndexed(trades[k]) !in processed && KeyOfIndexed(trades[k]) !in IndexedKeys(trades[..k])
  }

  /** What the first n trades add to this market. */
  ghost function IndexedTotal(trades: seq<IndexedTrade>, n: nat, processed: set<string>, wallet: string,
                              marketId: string): int
    requires n <= |trades|
  {
    if n == 0 then 0
    else
      IndexedTotal(trades, n - 1, processed, wallet, marketId)
        + (if Counts(trades, n - 1, processed, wallet, marketId) then IndexedCost(trades[n - 1], wallet) else 0)
  }

  ghost predicate IndexedAdded(trades: seq<IndexedTrade>, n: nat, before: set<string>, wallet: string, m0: Collaterals,
                               m: Collaterals, processed: set<string>)
    requires n <= |trades|
  {
    && processed == before + IndexedKeys(trades[..n])
    && (forall id :: id in m <==> id in m0 || exists k :: 0 <= k < n && Counts(trades, k, before, wallet, id))
    && (forall id :: At(m, id) == At(m0, id) + IndexedTotal(trades, n, before, wallet, id))
  }

  method AddIndexedTrades(wallet: string, indexedTrades: seq<IndexedTrade>, m0: Collaterals, before: set<string>)
    returns (m: Collaterals)
    ensures exists processed :: IndexedAdded(indexedTrades, |indexedTrades|, before, wallet, m0, m, processed)
  {
    NoIndexed(indexedTrades, before, wallet, m0);
    hide IndexedAdded, KeyOfIndexed, IndexedCost, Involves;
    m := m0;
    var processed := before;
    var i := 0;
    while i < |indexedTrades|
      invariant 0 <= i <= |indexedTrades|
      invariant IndexedAdded(indexedTrades, i, before, wallet, m0, m, processed)
    {
      var trade := indexedTrades[i];
      IndexedStep(indexedTrades, i, before, wallet, m0, m, processed);
      if KeyOfIndexed(trade) !in processed {
        processed := processed + {KeyOfIndexed(trade)};
        if Involves(trade, wallet) {
          m := m[trade.marketId := At(m, trade.marketId) + IndexedCost(trade, wallet)];
        }
      }
      i := i + 1;
    }
  }

  lemma NoIndexed(trades: seq<IndexedTrade>, before: set<string>, wallet: string, m0: Collaterals)
    ensures IndexedAdded(trades, 0, before, wallet, m0, m0, before)
  {
  }

  ghost function WithIndexed(m: Collaterals, processed: set<string>, t: IndexedTrade,
                             wallet: string): (Collaterals, set<string>) {
    if KeyOfIndexed(t) in processed then (m, processed)
    else
      (if Involves(t, wallet) then m[t.marketId := At(m, t.marketId) + IndexedCost(t, wallet)] else m,
       processed + {KeyOfIndexed(t)})
  }

  lemma IndexedStep(trades: seq<IndexedTrade>, i: nat, before: set<string>, wallet: string, m0: Collaterals,
                    m: Collaterals,
                    processed: set<string>)
    requires i < |trades| && IndexedAdded(trades, i, before, wallet, m0, m, processed)
    ensures var after := WithIndexed(m, processed, trades[i], wallet);
      IndexedAdded(trades, i + 1, before, wallet, m0, after.0, after.1)
  {
    var t := trades[i];
    var after := WithIndexed(m, processed, t, wallet);
    assert trades[..i + 1] == trades[..i] + [t];
    assert IndexedKeys(trades[..i + 1]) == IndexedKeys(trades[..i]) + {KeyOfIndexed(t)};
    hide KeyOfIndexed, IndexedKeys, Involves, IndexedCost;
    forall id
      ensures id in after.0 <==> id in m0 || exists k :: 0 <= k < i + 1 && Counts(trades, k, before, wallet, id)
      ensures At(after.0, id) == At(m0, id) + IndexedTotal(trades, i + 1, before, wallet, id)
    {
      assert id in after.0 <==> id in m || Counts(trades, i, before, wallet, id);
    }
  }

  /** An indexed trade that counts towards this market. */
  ghost predicate SomeCounts(chain: seq<IndexedTrade>, processed: set<string>, wallet: string, marketId: string) {
    exists k :: 0 <= k < |chain| && Counts(chain, k, processed, wallet, marketId)
  }

  /** What indexed trades add to this market: those whose pair of orders is new, each pair once. */
  ghost function ChainOnly(trades: seq<Trade>, indexed: seq<IndexedTrade>, wallet: string, marketIds: seq<string>,
                           marketId: string): int {
    var found, chain := FindTrades(trades, wallet, marketIds), FindIndexed(indexed, wallet, marketIds);
    IndexedTotal(chain, |chain|, PairsOf(found), wallet, marketId)
  }

  ghost predicate Recomputed(m: Collaterals, trades: seq<Trade>, indexed: seq<IndexedTrade>, wallet: string,
                             marketIds: seq<string>) {
    var found, chain := FindTrades(trades, wallet, marketIds), FindIndexed(indexed, wallet, marketIds);
    && (forall id :: id in m <==> InSome(found, wallet, id) || SomeCounts(chain, PairsOf(found), wallet, id))
    && (forall id :: At(m, id) == UNITS_PER_TICK * WalletTotal(found, wallet, id)
         + ChainOnly(trades, indexed, wallet, marketIds, id))
  }

  /** The wallet's locked collateral by market, from CLOB trades and from indexed trades that are not
      already there. */
  method GetCalculatedCollateralMap(wallet: string, marketIds: seq<string>, trades: seq<Trade>,
                                    indexed: seq<IndexedTrade>)
    returns (m: Collaterals)
    ensures Recomputed(m, trades, indexed, wallet, marketIds)
  {
    var clobTrades, indexedTrades := FindTrades(trades, wallet, marketIds), FindIndexed(indexed, wallet, marketIds);
    var fromClob, processed := AddClobTrades(wallet, clobTrades);
    m := AddIndexedTrades(wallet, indexedTrades, fromClob, processed);
  }

  // ------------------------------------------------------------- agreement

  lemma {:induction false} FoundTotal(trades: seq<Trade>, wallet: string, marketIds: seq<string>, id: string)
    requires id in marketIds
    ensures WalletTotal(FindTrades(trades, wallet, marketIds), wallet, id) == WalletTotal(trades, wallet, id)
    ensures InSome(FindTrades(trades, wallet, marketIds), wallet, id) <==> InSome(trades, wallet, id)
  {
    if trades != [] {
      var before, t := trades[..|trades| - 1], trades[|trades| - 1];
      FoundTotal(before, wallet, marketIds, id);
      FoundStep(before, t, wallet, marketIds, id);
      assert trades == before + [t];
    }
  }

  lemma FoundPush(before: seq<Trade>, t: Trade, wallet: string, marketIds: seq<string>)
    ensures FindTrades(before + [t], wallet, marketIds) ==
      FindTrades(before, wallet, marketIds) + (if t.marketId in marketIds && TakesPart(t, wallet) then [t] else [])
  {
    assert (before + [t])[..|before|] == before;
  }

  lemma NotMine(t: Trade, wallet: string)
    requires !TakesPart(t, wallet)
    ensures WalletCost(t, wallet) == 0
  {
  }

  lemma FoundStep(before: seq<Trade>, t: Trade, wallet: string, marketIds: seq<string>, id: string)
    requires id in marketIds
    requires WalletTotal(FindTrades(before, wallet, marketIds), wallet, id) == WalletTotal(before, wallet, id)
    requires InSome(FindTrades(before, wallet, marketIds), wallet, id) <==> InSome(before, wallet, id)
    ensures WalletTotal(FindTrades(before + [t], wallet, marketIds), wallet, id) ==
      WalletTotal(before + [t], wallet, id)
    ensures InSome(FindTrades(before + [t], wallet, marketIds), wallet, id) <==> InSome(before + [t], wallet, id)
  {
    hide *;
    var found := FindTrades(before, wallet, marketIds);
    FoundPush(before, t, wallet, marketIds);
    NewTotal(before, t, wallet, id);
    SomePush(before, t, wallet, id);
    if t.marketId in marketIds && TakesPart(t, wallet) {
      NewTotal(found, t, wallet, id);
      SomePush(found, t, wallet, id);
    } else {
      assert found + [] == found;
      if t.marketId == id {
        NotMine(t, wallet);
      }
    }
  }

  /** Without self-trades the two sums agree, market by market. */
  lemma {:induction false} TotalsAgree(trades: seq<Trade>, wallet: string, id: string)
    requires forall t :: t in trades ==> t.buyerAddress != t.sellerAddress
    ensures WalletTotal(trades, wallet, id) == NetCost(InMarket(trades, id), wallet)
    ensures InSome(trades, wallet, id) <==> Traded(InMarket(trades, id), wallet)
  {
    if trades != [] {
      var before, t := trades[..|trades| - 1], trades[|trades| - 1];
      TotalsAgree(before, wallet, id);
      TotalsStep(before, t, wallet, id);
      assert trades == before + [t];
    }
  }

  lemma TotalsStep(before: seq<Trade>, t: Trade, wallet: string, id: string)
    requires t.buyerAddress != t.sellerAddress
    requires WalletTotal(before, wallet, id) == NetCost(InMarket(before, id), wallet)
    requires InSome(before, wallet, id) <==> Traded(InMarket(before, id), wallet)
    ensures WalletTotal(before + [t], wallet, id) == NetCost(InMarket(before + [t], id), wallet)
    ensures InSome(before + [t], wallet, id) <==> Traded(InMarket(before + [t], id), wallet)
  {
    hide *;
    NewTotal(before, t, wallet, id);
    SomePush(before, t, wallet, id);
    if t.marketId == id {
      SameCost(t, wallet);
      CostPush(InMarket(before, id), t, wallet);
    } else {
      assert InMarket(before, id) + [] == InMarket(before, id);
    }
  }

  lemma CostPush(trades: seq<Trade>, t: Trade, wallet: string)
    ensures NetCost(trades + [t], wallet) == NetCost(trades, wallet) + TradeCost(t, wallet)
    ensures Traded(trades + [t], wallet) <==> Traded(trades, wallet) || TakesPart(t, wallet)
  {
    NetPush(trades, t, wallet);
  }

  lemma NewTotal(before: seq<Trade>, t: Trade, wallet: string, id: string)
    ensures WalletTotal(before + [t], wallet, id) ==
      WalletTotal(before, wallet, id) + (if t.marketId == id then WalletCost(t, wallet) else 0)
    ensures InMarket(before + [t], id) == InMarket(before, id) + (if t.marketId == id then [t] else [])
  {
    assert (before + [t])[..|before|] == before;
  }

  lemma SameCost(t: Trade, wallet: string)
    requires t.buyerAddress != t.sellerAddress
    ensures WalletCost(t, wallet) == TradeCost(t, wallet)
  {
    hide CostOf;
  }

  /** On a trade with itself the endpoint would count the purchase only, the transaction nothing. */
  lemma SelfTradeDisagrees(t: Trade, wallet: string)
    ensures WalletCost(t, wallet) == TradeCost(t, wallet) <==>
      t.buyerAddress != wallet || t.sellerAddress != wallet || CostOf(t) == 0
  {
  }

  /** The indexed trade is the copy of this trade of the book, reported by the buyer or by the seller. */
  predicate CopyOf(x: IndexedTrade, t: Trade) {
    && x.marketId == t.marketId && x.buyOrderId == t.buyOrderId && x.sellOrderId == t.sellOrderId
    && x.priceRaw * 100 == t.price * 10_000_000 && x.quantityRaw == t.quantity
    && (x.direction == Buy ==> x.traderAddress == t.buyerAddress && x.counterpartyAddress == t.sellerAddress)
    && (x.direction == Sell ==> x.traderAddress == t.sellerAddress && x.counterpartyAddress == t.buyerAddress)
  }

  lemma ScaledProduct(p: int, q: int)
    ensures (UNITS_PER_TICK * p) * q == UNITS_PER_TICK * (p * q)
  {
  }

  /** A copy costs every wallet what the trade costs it, in either direction. */
  lemma CopyCosts(x: IndexedTrade, t: Trade, wallet: string)
    requires CopyOf(x, t)
    ensures IndexedCost(x, wallet) == UNITS_PER_TICK * WalletCost(t, wallet)
    ensures t.buyerAddress != t.sellerAddress ==> IndexedCost(x, wallet) == UNITS_PER_TICK * TradeCost(t, wallet)
    ensures Involves(x, wallet) <==> TakesPart(t, wallet)
  {
    assert x.priceRaw == UNITS_PER_TICK * t.price;
    ScaledProduct(t.price, t.quantity);
  }

  /** Whoever buys pays price times quantity, whoever sells receives it. */
  lemma BuyerPays(x: IndexedTrade)
    requires x.traderAddress != x.counterpartyAddress
    ensures x.direction == Buy ==>
      && IndexedCost(x, x.traderAddress) == x.priceRaw * x.quantityRaw
      && IndexedCost(x, x.counterpartyAddress) == -(x.priceRaw * x.quantityRaw)
    ensures x.direction == Sell ==>
      && IndexedCost(x, x.traderAddress) == -(x.priceRaw * x.quantityRaw)
      && IndexedCost(x, x.counterpartyAddress) == x.priceRaw * x.quantityRaw
    ensures forall w :: w != x.traderAddress && w != x.counterpartyAddress ==> IndexedCost(x, w) == 0
  {
  }

  /** If the chain has a copy of every trade and the book has none of them, the chain stands in for the book: the
      same collateral is recomputed. */
  lemma {:induction false} ChainStandsIn(chain: seq<IndexedTrade>, trades: seq<Trade>, n: nat, wallet: string,
                                         id: string)
    requires n <= |chain| == |trades| && forall k :: 0 <= k < |chain| ==> CopyOf(chain[k], trades[k])
    requires forall j, k :: 0 <= j < k < |chain| ==> KeyOfIndexed(chain[j]) != KeyOfIndexed(chain[k])
    ensures IndexedTotal(chain, n, {}, wallet, id) == UNITS_PER_TICK * WalletTotal(trades[..n], wallet, id)
  {
    hide KeyOfIndexed, IndexedCost, WalletCost, CopyOf, Involves;
    if n > 0 {
      ChainStandsIn(chain, trades, n - 1, wallet, id);
      CopyCosts(chain[n - 1], trades[n - 1], wallet);
      NewTotal(trades[..n - 1], trades[n - 1], wallet, id);
      assert trades[..n] == trades[..n - 1] + [trades[n - 1]];
      CopyCounts(chain, trades, n - 1, wallet, id);
    }
  }

  lemma CopyCounts(chain: seq<IndexedTrade>, trades: seq<Trade>, k: nat, wallet: string, id: string)
    requires k < |chain| == |trades| && CopyOf(chain[k], trades[k])
    requires forall i, j :: 0 <= i < j < |chain| ==> KeyOfIndexed(chain[i]) != KeyOfIndexed(chain[j])
    ensures Counts(chain, k, {}, wallet, id) <==> trades[k].marketId == id && TakesPart(trades[k], wallet)
    ensures !TakesPart(trades[k], wallet) ==> WalletCost(trades[k], wallet) == 0
  {
    CopyCosts(chain[k], trades[k], wallet);
    hide KeyOfIndexed, IndexedCost;
    forall x | x in chain[..k] ensures KeyOfIndexed(x) != KeyOfIndexed(chain[k]) {
      var i :| 0 <= i < k && chain[i] == x;
    }
  }

  /** Indexed trades that repeat CLOB trades change nothing. */
  lemma {:induction false} RepeatsDoNotCount(trades: seq<IndexedTrade>, n: nat, processed: set<string>, wallet: string,
                                             id: string)
    requires n <= |trades| && forall t :: t in trades ==> KeyOfIndexed(t) in processed
    ensures IndexedTotal(trades, n, processed, wallet, id) == 0
    ensures forall k :: 0 <= k < n ==> !Counts(trades, k, processed, wallet, id)
  {
    if n > 0 {
      assert trades[n - 1] in trades;
      RepeatsDoNotCount(trades, n - 1, processed, wallet, id);
    }
  }

  /** The collateral of the stored position, none counting as zero. */
  function Stored(db: Database, marketId: string, wallet: string): int {
    if (marketId, wallet) in db.positions then UNITS_PER_TICK * db.positions[(marketId, wallet)].lockedCollateral else 0
  }

  /** In every sound database the recomputed collateral of a wallet is the collateral of its position
      plus what only the chain knows; it exists for the markets with either. */
  lemma RecomputedIsIncremental(db: Database, wallet: string, marketIds: seq<string>, indexed: seq<IndexedTrade>,
                                m: Collaterals, id: string)
    requires LedgerOk(db) && id in marketIds && Recomputed(m, db.trades, indexed, wallet, marketIds)
    ensures id in m <==>
      || (id, wallet) in db.positions
      || SomeCounts(FindIndexed(indexed, wallet, marketIds), PairsOf(FindTrades(db.trades, wallet, marketIds)),
                    wallet, id)
    ensures At(m, id) == Stored(db, id, wallet) + ChainOnly(db.trades, indexed, wallet, marketIds, id)
  {
    FoundTotal(db.trades, wallet, marketIds, id);
    forall t | t in db.trades ensures t.buyerAddress != t.sellerAddress {
      assert TradeOk(t, db.orders);
    }
    TotalsAgree(db.trades, wallet, id);
    PositionCost(db, wallet, id);
    hide LedgerOk, FindTrades, FindIndexed, WalletTotal, InSome, SomeCounts, Traded, NetCost, PairsOf, InMarket,
         ChainOnly, Stored;
  }

  lemma PositionCost(db: Database, wallet: string, id: string)
    requires LedgerOk(db)
    ensures (id, wallet) in db.positions <==> Traded(InMarket(db.trades, id), wallet)
    ensures Stored(db, id, wallet) == UNITS_PER_TICK * NetCost(InMarket(db.trades, id), wallet)
  {
    assert PositionOk(db, id, wallet);
    hide LedgerOk, NetShares, InMarket;
    if !Traded(InMarket(db.trades, id), wallet) {
      NotTraded(InMarket(db.trades, id), wallet);
    }
  }

  /** What the endpoint reports for a position: the recomputed value, or the stored one if there is none. */
  method ReportedCollateral(db: Database, wallet: string, marketIds: seq<string>, indexed: seq<IndexedTrade>,
                            marketId: string)
    returns (collateral: int)
    requires LedgerOk(db) && marketId in marketIds && (marketId, wallet) in db.positions
    ensures collateral == Stored(db, marketId, wallet) + ChainOnly(db.trades, indexed, wallet, marketIds, marketId)
  {
    hide LedgerOk, Recomputed, SomeCounts, ChainOnly, FindTrades, FindIndexed;
    var stored := UNITS_PER_TICK * db.positions[(marketId, wallet)].lockedCollateral;
    var computed := GetCalculatedCollateralMap(wallet, marketIds, db.trades, indexed);
    RecomputedIsIncremental(db, wallet, marketIds, indexed, computed, marketId);
    collateral := if marketId in computed then computed[marketId] else stored;
  }

  /** If the chain only repeats CLOB trades of the wallet, it adds nothing. */
  lemma RepeatedTradesAddNothing(trades: seq<Trade>, indexed: seq<IndexedTrade>, wallet: string, marketIds: seq<string>,
                                 id: string)
    requires var found, chain := FindTrades(trades, wallet, marketIds), FindIndexed(indexed, wallet, marketIds);
      forall t :: t in chain ==> KeyOfIndexed(t) in PairsOf(found)
    ensures ChainOnly(trades, indexed, wallet, marketIds, id) == 0
    ensures !SomeCounts(FindIndexed(indexed, wallet, marketIds), PairsOf(FindTrades(trades, wallet, marketIds)),
                        wallet, id)
  {
    var found, chain := FindTrades(trades, wallet, marketIds), FindIndexed(indexed, wallet, marketIds);
    RepeatsDoNotCount(chain, |chain|, PairsOf(found), wallet, id);
  }
}
