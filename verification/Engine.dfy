/** The matching loop over a live order book, with the commands it can undo. */
module Engine {
  import opened Domain
  import opened PriorityList
  import opened DepthViews
  import opened OrderBooks
  import opened GreedyMatch
  import opened Accounts
  import opened Rollback

  datatype PositionDelta = PositionDelta(userAddress: string, yesSharesDelta: int, noSharesDelta: int)

  datatype MatchResult = MatchResult(
    trades: seq<Trade>,
    remainingOrder: Option<MatchingOrder>,
    positionDeltas: seq<PositionDelta>)

  datatype MatchError = HookFailed

  /** One entry per trader, in the order of first appearance, with the signed sums of its trades. */
  ghost predicate DeltasOf(trades: seq<Trade>, deltas: seq<PositionDelta>) {
    && (forall i, j :: 0 <= i < j < |deltas| ==> deltas[i].userAddress != deltas[j].userAddress)
    && (forall u :: Traded(trades, u) ==> exists d :: d in deltas && d.userAddress == u)
    && (forall d :: d in deltas ==> IsDelta(trades, d))
  }

  ghost predicate IsDelta(trades: seq<Trade>, d: PositionDelta) {
    && Traded(trades, d.userAddress)
    && d.yesSharesDelta == NetShares(trades, d.userAddress, YES)
    && d.noSharesDelta == NetShares(trades, d.userAddress, NO)
  }

  ghost predicate Accumulated(trades: seq<Trade>, deltaMap: map<string, (int, int)>, users: seq<string>) {
    && Listed(deltaMap, users)
    && (forall u :: u in deltaMap <==> Traded(trades, u))
    && (forall u :: u in deltaMap ==> deltaMap[u] == (NetShares(trades, u, YES), NetShares(trades, u, NO)))
  }

  method AccumulateDeltas(trades: seq<Trade>) returns (deltaMap: map<string, (int, int)>, users: seq<string>)
    ensures Accumulated(trades, deltaMap, users)
  {
    deltaMap, users := map[], [];
    var i := 0;
    while i < |trades|
      invariant 0 <= i <= |trades|
      invariant Accumulated(trades[..i], deltaMap, users)
    {
      deltaMap, users := AccumulateTrade(trades[..i], trades[i], deltaMap, users);
      assert trades[..i + 1] == trades[..i] + [trades[i]];
      i := i + 1;
    }
    assert trades[..|trades|] == trades;
  }

  /** A first appearance starts from zero. */
  function Enrolled(deltaMap: map<string, (int, int)>, user: string): map<string, (int, int)> {
    if user in deltaMap then deltaMap else deltaMap[user := (0, 0)]
  }

  function WithUser(users: seq<string>, deltaMap: map<string, (int, int)>, user: string): seq<string> {
    if user in deltaMap then users else users + [user]
  }

  function Credited(deltaMap: map<string, (int, int)>, user: string, outcome: Outcome,
                    quantity: int): map<string, (int, int)>
    requires user in deltaMap
  {
    var d := deltaMap[user];
    deltaMap[user := if outcome == YES then (d.0 + quantity, d.1) else (d.0, d.1 + quantity)]
  }

  ghost predicate Listed(deltaMap: map<string, (int, int)>, users: seq<string>) {
    && (forall i, j :: 0 <= i < j < |users| ==> users[i] != users[j])
    && (forall u :: u in users <==> u in deltaMap)
  }

  lemma EnrolledListed(deltaMap: map<string, (int, int)>, users: seq<string>, user: string)
    requires Listed(deltaMap, users)
    ensures Listed(Enrolled(deltaMap, user), WithUser(users, deltaMap, user))
  {
  }

  lemma CreditedBoth(deltaMap: map<string, (int, int)>, t: Trade)
    requires t.buyerAddress in deltaMap && t.sellerAddress in deltaMap
    ensures Credited(Credited(deltaMap, t.buyerAddress, t.outcome, t.quantity), t.sellerAddress, t.outcome, -t.quantity)
      == Settled(deltaMap, t)
  {
  }

  /** One pass of the loop: enrol both parties, then credit the buyer and debit the seller. */
  method AccumulateTrade(ghost done: seq<Trade>, trade: Trade, before: map<string, (int, int)>, known: seq<string>)
    returns (deltaMap: map<string, (int, int)>, users: seq<string>)
    requires Accumulated(done, before, known)
    ensures Accumulated(done + [trade], deltaMap, users)
  {
    hide NetShares, Traded, Settled;
    deltaMap, users := before, known;
    EnrolledListed(deltaMap, users, trade.buyerAddress);
    deltaMap, users := Enrolled(deltaMap, trade.buyerAddress), WithUser(users, deltaMap, trade.buyerAddress);
    EnrolledListed(deltaMap, users, trade.sellerAddress);
    deltaMap, users := Enrolled(deltaMap, trade.sellerAddress), WithUser(users, deltaMap, trade.sellerAddress);
    ghost var enrolled := deltaMap;
    CreditedBoth(enrolled, trade);
    hide Listed, WithUser, Credited;
    deltaMap := Credited(deltaMap, trade.buyerAddress, trade.outcome, trade.quantity);
    deltaMap := Credited(deltaMap, trade.sellerAddress, trade.outcome, -trade.quantity);
    AccumulateStep(done, trade, before, enrolled, deltaMap);
    ListedKeys(enrolled, deltaMap, users);
  }

  lemma ListedKeys(m: map<string, (int, int)>, m': map<string, (int, int)>, users: seq<string>)
    requires Listed(m, users) && m'.Keys == m.Keys
    ensures Listed(m', users)
  {
  }

  method CalculatePositionDeltas(trades: seq<Trade>) returns (deltas: seq<PositionDelta>)
    ensures DeltasOf(trades, deltas)
  {
    var deltaMap, users := AccumulateDeltas(trades);
    deltas := [];
    var i := 0;
    while i < |users|
      invariant 0 <= i <= |users| && |deltas| == i
      invariant forall k :: 0 <= k < i ==> deltas[k].userAddress == users[k] && IsDelta(trades, deltas[k])
    {
      deltas := deltas + [PositionDelta(users[i], deltaMap[users[i]].0, deltaMap[users[i]].1)];
      i := i + 1;
    }
    hide NetShares, Traded;
    forall u | Traded(trades, u) ensures exists d :: d in deltas && d.userAddress == u {
      var k :| 0 <= k < |users| && users[k] == u;
      assert deltas[k] in deltas;
    }
  }

  lemma AccumulateStep(trades: seq<Trade>, trade: Trade, m: map<string, (int, int)>, enrolled: map<string, (int, int)>,
                       m': map<string, (int, int)>)
    requires forall u :: u in m <==> Traded(trades, u)
    requires forall u :: u in m ==> m[u] == (NetShares(trades, u, YES), NetShares(trades, u, NO))
    requires enrolled.Keys == m.Keys + {trade.buyerAddress, trade.sellerAddress}
    requires forall u :: u in enrolled ==> enrolled[u] == if u in m then m[u] else (0, 0)
    requires m' == Settled(enrolled, trade)
    ensures m'.Keys == enrolled.Keys
    ensures forall u :: u in m' <==> Traded(trades + [trade], u)
    ensures forall u :: u in m' ==> m'[u] == (NetShares(trades + [trade], u, YES), NetShares(trades + [trade], u, NO))
  {
    hide NetShares, Traded, TradeShares;
    forall u
      ensures u in m' <==> Traded(trades + [trade], u)
      ensures u in m' ==> m'[u] == (NetShares(trades + [trade], u, YES), NetShares(trades + [trade], u, NO))
    {
      NetStep(trades, trade, u);
    }
  }

  lemma NetStep(trades: seq<Trade>, t: Trade, u: string)
    ensures Traded(trades + [t], u) <==> Traded(trades, u) || TakesPart(t, u)
    ensures NetShares(trades + [t], u, YES) == NetShares(trades, u, YES) + TradeShares(t, u, YES)
    ensures NetShares(trades + [t], u, NO) == NetShares(trades, u, NO) + TradeShares(t, u, NO)
    ensures !Traded(trades, u) ==> NetShares(trades, u, YES) == 0 && NetShares(trades, u, NO) == 0
  {
    NetPush(trades, t, u);
    if !Traded(trades, u) {
      NotTraded(trades, u);
    }
  }

  /** The buyer gains and the seller loses the traded shares; a self-trade leaves nothing. */
  ghost function Settled(m: map<string, (int, int)>, t: Trade): map<string, (int, int)> {
    map u | u in m :: (m[u].0 + TradeShares(t, u, YES), m[u].1 + TradeShares(t, u, NO))
  }

  // ------------------------------------------------------ commands on a book

  /** A command after it was executed: it remembers what it needs to undo itself. */
  datatype MatchCommand =
    | RemoveOrderCommand(orderId: string, removedOrder: BookOrder)
    | UpdateQuantityCommand(orderId: string, newQuantity: int, previousQuantity: int)

  lemma HeadUpdates(s: seq<Order>, q: int)
    requires s != [] && DistinctIds(s)
    ensures Remove(s, s[0].id) == s[1..]
    ensures Requantify(s, s[0].id, q) == [s[0].(quantity := q)] + s[1..]
  {
    RemoveIndex(s, 0);
    RequantifyShape(s, s[0].id, q);
    hide Remove, Requantify;
    assert s[..0] + s[0 + 1..] == s[1..];
    var r := Requantify(s, s[0].id, q);
    forall i | 1 <= i < |s| ensures r[i] == s[i] {
      assert s[i].id != s[0].id;
    }
    assert r[1..] == s[1..];
  }

  ghost predicate IsBest(book: OrderBook, side: Side, maker: BookOrder)
    requires book.Valid()
    reads book, Orders(book.orderMap), maker
  {
    && maker.id in book.orderMap && book.orderMap[maker.id] == maker
    && maker.side == side && book.View(side) != [] && maker.Value() == book.View(side)[0]
    && DistinctIds(book.View(side))
  }

  /** Take the fill off the best maker: a maker used up leaves the book, any other keeps its place. */
  method ExecuteFill(book: OrderBook, ghost side: Side, maker: BookOrder, fillQty: int) returns (cmd: MatchCommand)
    requires book.Valid() && IsBest(book, side, maker) && fillQty <= maker.quantity
    modifies book, maker
    ensures book.Valid()
    ensures book.View(Opposite(side)) == old(book.View(Opposite(side)))
    ensures fillQty == old(maker.quantity) ==>
      && cmd == RemoveOrderCommand(maker.id, maker) && unchanged(maker)
      && book.View(side) == old(book.View(side))[1..] && book.orderMap == old(book.orderMap) - {maker.id}
    ensures fillQty < old(maker.quantity) ==>
      && cmd == UpdateQuantityCommand(maker.id, old(maker.quantity) - fillQty, old(maker.quantity))
      && book.View(side) == [old(maker.Value()).(quantity := old(maker.quantity) - fillQty)] + old(book.View(side))[1..]
      && book.orderMap == old(book.orderMap)
  {
    hide Agree, EntriesLinked, DistinctIds, Orders;
    var newBookOrderQty := maker.quantity - fillQty;
    if newBookOrderQty == 0 {
      cmd := UseUp(book, side, maker);
    } else {
      cmd := ReduceBest(book, side, maker, newBookOrderQty);
    }
  }

  lemma HeadGone(c: Contents, o: Order)
    ensures o.side == Bid && c.bids != [] && o == c.bids[0] && DistinctIds(c.bids) ==>
      WithoutOrder(c, o).bids == c.bids[1..] && WithoutOrder(c, o).asks == c.asks
    ensures o.side == Ask && c.asks != [] && o == c.asks[0] && DistinctIds(c.asks) ==>
      WithoutOrder(c, o).asks == c.asks[1..] && WithoutOrder(c, o).bids == c.bids
  {
    if o.side == Bid && c.bids != [] && o == c.bids[0] && DistinctIds(c.bids) {
      HeadUpdates(c.bids, 0);
    }
    if o.side == Ask && c.asks != [] && o == c.asks[0] && DistinctIds(c.asks) {
      HeadUpdates(c.asks, 0);
    }
    hide Remove, Requantify, LevelsWithout, DistinctIds;
  }

  method UseUp(book: OrderBook, ghost side: Side, maker: BookOrder) returns (cmd: MatchCommand)
    requires book.Valid() && IsBest(book, side, maker)
    modifies book
    ensures book.Valid() && cmd == RemoveOrderCommand(maker.id, maker)
    ensures book.View(Opposite(side)) == old(book.View(Opposite(side))) && book.View(side) == old(book.View(side))[1..]
    ensures book.orderMap == old(book.orderMap) - {maker.id}
  {
    hide Agree, WithoutOrder, EntriesLinked, DistinctIds, Orders;
    HeadGone(book.contents, maker.Value());
    var removed := book.RemoveOrder(maker.id);
    cmd := RemoveOrderCommand(maker.id, removed);
  }

  method ReduceBest(book: OrderBook, ghost side: Side, maker: BookOrder, newBookOrderQty: int)
    returns (cmd: MatchCommand)
    requires book.Valid() && IsBest(book, side, maker) && newBookOrderQty > 0
    modifies book, maker
    ensures book.Valid() && cmd == UpdateQuantityCommand(maker.id, newBookOrderQty, old(maker.quantity))
    ensures book.View(Opposite(side)) == old(book.View(Opposite(side)))
    ensures book.View(side) == [old(maker.Value()).(quantity := newBookOrderQty)] + old(book.View(side))[1..]
    ensures book.orderMap == old(book.orderMap)
  {
    HeadUpdates(book.View(side), newBookOrderQty);
    hide Agree, Requantify, LevelsRequantified, EntriesLinked, DistinctIds, Orders;
    cmd := UpdateQuantityCommand(maker.id, newBookOrderQty, maker.quantity);
    var updated := book.UpdateOrderQuantity(maker.id, newBookOrderQty);
  }

  method RollbackCommand(book: OrderBook, cmd: MatchCommand)
    requires book.Valid()
    modifies book
    modifies if cmd.UpdateQuantityCommand? && cmd.orderId in book.orderMap then {book.orderMap[cmd.orderId]} else {}
    ensures book.Valid()
    ensures cmd.RemoveOrderCommand? && Readdable(old(book.orderMap), book.marketId, book.outcome, cmd.removedOrder) ==>
      && book.orderMap == old(book.orderMap)[cmd.removedOrder.id := cmd.removedOrder]
      && book.contents == WithOrder(old(book.contents), cmd.removedOrder.Value())
    ensures cmd.UpdateQuantityCommand? && cmd.orderId in old(book.orderMap) && cmd.previousQuantity > 0 ==>
      && book.orderMap == old(book.orderMap)
      && book.contents == WithQuantity(old(book.contents), old(book.orderMap[cmd.orderId].Value()),
                                       cmd.previousQuantity)
  {
    hide Agree, WithOrder, WithQuantity, EntriesLinked;
    match cmd
    case RemoveOrderCommand(_, removedOrder) =>
      var added := book.AddOrder(removedOrder);
    case UpdateQuantityCommand(orderId, _, previousQuantity) =>
      var updated := book.UpdateOrderQuantity(orderId, previousQuantity);
  }

  ghost predicate Readdable(index: map<string, BookOrder>, marketId: string, outcome: nat, order: BookOrder) {
    order.marketId == marketId && order.outcome == outcome && order.id !in index
  }

  /** Commands that took this list of orders, front first, out of a book with this id map. */
  ghost predicate Removals(commands: seq<MatchCommand>, removed: seq<Order>, index: map<string, BookOrder>) {
    && |commands| == |removed|
    && forall i :: 0 <= i < |commands| ==>
         removed[i].id in index && commands[i] == RemoveOrderCommand(removed[i].id, index[removed[i].id])
  }

  /** The order objects still are these orders. */
  ghost predicate Intact(s: seq<Order>, index: map<string, BookOrder>)
    reads Orders(index)
  {
    forall i :: 0 <= i < |s| ==> s[i].id in index ==> index[s[i].id].Value() == s[i]
  }

  lemma MinusLast(index: map<string, BookOrder>, removed: seq<Order>, i: nat)
    requires DistinctIds(removed) && i < |removed| && removed[i].id in index
    ensures removed[i].id !in index - Ids(removed[..i + 1])
    ensures (index - Ids(removed[..i + 1]))[removed[i].id := index[removed[i].id]] == index - Ids(removed[..i])
  {
    assert removed[..i + 1] == removed[..i] + [removed[i]];
    assert removed[i] in removed[..i + 1];
    forall o | o in removed[..i] ensures o.id != removed[i].id {
      var j :| 0 <= j < i && removed[j] == o;
    }
    assert Ids(removed[..i + 1]) == Ids(removed[..i]) + {removed[i].id};
  }

  /** Undo removals, the last one first. */
  method RollbackCommands(book: OrderBook, commands: seq<MatchCommand>, ghost side: Side, ghost removed: seq<Order>,
                          ghost index: map<string, BookOrder>)
    requires book.Valid()
    requires Removals(commands, removed, index) && DistinctIds(removed) && Intact(removed, index)
    requires forall i :: 0 <= i < |removed| ==>
      removed[i].side == side && removed[i].marketId == book.marketId && removed[i].outcome == book.outcome
    requires book.orderMap == index - Ids(removed)
    modifies book
    ensures book.Valid()
    ensures book.orderMap == index
    ensures book.View(side) == Reinsert(side, old(book.View(side)), removed)
    ensures book.View(Opposite(side)) == old(book.View(Opposite(side)))
  {
    hide Agree, Insert, Ids, LevelsWith, EntriesLinked, DistinctIds;
    var i := |commands|;
    assert removed[..|removed|] == removed;
    while i > 0
      invariant 0 <= i <= |commands|
      invariant book.Valid()
      invariant book.orderMap == index - Ids(removed[..i])
      invariant book.View(side) == Reinsert(side, old(book.View(side)), removed[i..])
      invariant book.View(Opposite(side)) == old(book.View(Opposite(side)))
    {
      i := i - 1;
      MinusLast(index, removed, i);
      assert removed[i..][0] == removed[i] && removed[i..][1..] == removed[i + 1..];
      RollbackCommand(book, commands[i]);
    }
    assert removed[0..] == removed;
    assert Ids(removed[..0]) == {} by {
      EmptyIds();
    }
  }

  lemma EmptyIds()
    ensures forall s: seq<Order> :: s == [] ==> Ids(s) == {}
  {
  }

  // ------------------------------------------------- what a rollback restores

  lemma SameEntries(c: Contents, c': Contents, marketId: string, outcome: nat)
    requires EntriesConsistent(c, marketId, outcome) && EntriesConsistent(c', marketId, outcome)
    requires forall o :: o in c.bids <==> o in c'.bids
    requires forall o :: o in c.asks <==> o in c'.asks
    ensures c.entries == c'.entries
  {
    forall id | id in c.entries ensures id in c'.entries && c'.entries[id] == c.entries[id] {
      var o := c.entries[id];
      assert o in (if o.side == Bid then c'.bids else c'.asks);
    }
    forall id | id in c'.entries ensures id in c.entries {
      var o := c'.entries[id];
      assert o in (if o.side == Bid then c.bids else c.asks);
    }
  }

  /** The user index is determined by the orders. */
  lemma SameUsers(users: map<string, set<string>>, users': map<string, set<string>>, entries: map<string, Order>)
    requires UsersConsistent(users, entries) && UsersConsistent(users', entries)
    ensures users == users'
  {
    UsersWithin(users, users', entries);
    UsersWithin(users', users, entries);
    forall u | u in users ensures users[u] == users'[u] {
    }
  }

  lemma UsersWithin(users: map<string, set<string>>, users': map<string, set<string>>, entries: map<string, Order>)
    requires UsersConsistent(users, entries) && UsersConsistent(users', entries)
    ensures forall u :: u in users ==> u in users' && users[u] <= users'[u]
  {
    forall u | u in users ensures u in users' && users[u] <= users'[u] {
      var id :| id in users[u];
      assert id in entries && entries[id].userAddress == u;
      forall x | x in users[u] ensures x in users'[u] {
        assert x in entries && entries[x].userAddress == u;
      }
    }
  }

  /** A side whose first k orders were removed and added again. */
  ghost predicate PutBack(side: Side, before: seq<Order>, after: seq<Order>, k: nat) {
    k <= |before| && after == Reinsert(side, before[k..], before[..k])
  }

  /** After a rollback the user index and both price lists are as before, and so are the total and the
      number of orders of every level. */
  lemma RollbackRestoresBook(s: Structures, c: Contents, s': Structures, c': Contents, marketId: string, outcome: nat,
                             side: Side, k: nat)
    requires Agree(s, c, marketId, outcome) && Agree(s', c', marketId, outcome)
    requires PutBack(side, if side == Bid then c.bids else c.asks, if side == Bid then c'.bids else c'.asks, k)
    requires if side == Bid then c'.asks == c.asks else c'.bids == c.bids
    ensures s'.userOrders == s.userOrders && s'.bidPrices == s.bidPrices && s'.askPrices == s.askPrices
    ensures DepthOf(c'.bids) == DepthOf(c.bids) && DepthOf(c'.asks) == DepthOf(c.asks)
  {
    RollbackRestores(side, if side == Bid then c.bids else c.asks, k);
    PricesOfSide(Bid, c.bids, c.bidLevels, s.bidPrices);
    PricesOfSide(Ask, c.asks, c.askLevels, s.askPrices);
    PricesOfSide(Bid, c'.bids, c'.bidLevels, s'.bidPrices);
    PricesOfSide(Ask, c'.asks, c'.askLevels, s'.askPrices);
    hide SideConsistent, LevelsLinked, Reinsert, Prices, DepthOf, Sorted;
    SameEntries(c, c', marketId, outcome);
    hide EntriesConsistent, UsersConsistent;
    SameUsers(s.userOrders, s'.userOrders, c.entries);
  }

  // ----------------------------------------------------------------- the match

  /** These are the orders of one side of an order book of this market outcome. */
  ghost predicate SideOrders(s: seq<Order>, side: Side, marketId: string, outcome: nat) {
    && Sorted(side, s) && DistinctIds(s)
    && forall i :: 0 <= i < |s| ==> s[i].side == side && s[i].marketId == marketId && s[i].outcome == outcome
  }

  lemma MakersOf(book: OrderBook, side: Side)
    requires book.Valid()
    ensures SideOrders(book.View(side), side, book.marketId, book.outcome)
    ensures forall i :: 0 <= i < |book.View(side)| ==>
      var o := book.View(side)[i];
      o.id in book.orderMap && book.orderMap[o.id].Value() == o && book.orderMap[o.id].id == o.id
  {
    SideLists(book.State(), book.contents, book.marketId, book.outcome);
  }

  /** Where a match stands after some trades: what was traded and what the book and the taker still
      hold together make the whole match, and while the taker wants more every command was the
      removal of the next maker. */
  ghost predicate Underway(taker: MatchingOrder, timestamp: int, makers: seq<Order>, index: map<string, BookOrder>,
                           now: seq<Order>, orderMap: map<string, BookOrder>,
                           trades: seq<Trade>,
                       commands: seq<MatchCommand>, remaining: int)
  {
    && trades + Fills(taker, now, remaining, timestamp) == Fills(taker, makers, taker.quantity, timestamp)
    && Leftover(taker, now, remaining) == Leftover(taker, makers, taker.quantity)
    && Unfilled(taker, now, remaining) == Unfilled(taker, makers, taker.quantity)
    && (remaining > 0 ==>
          && |trades| <= |makers| && now == makers[|trades|..]
          && Removals(commands, makers[..|trades|], index)
          && orderMap == index - Ids(makers[..|trades|]))
  }

  lemma PrefixOrders(s: seq<Order>, side: Side, marketId: string, outcome: nat, k: nat)
    requires SideOrders(s, side, marketId, outcome) && k <= |s|
    ensures DistinctIds(s[..k])
    ensures forall i :: 0 <= i < k ==>
      s[..k][i].side == side && s[..k][i].marketId == marketId && s[..k][i].outcome == outcome
  {
  }

  /** The commands so far and the removal of the next maker. */
  lemma NextRemoval(commands: seq<MatchCommand>, makers: seq<Order>, index: map<string, BookOrder>, maker: BookOrder)
    requires |commands| < |makers| && DistinctIds(makers)
    requires Removals(commands, makers[..|commands|], index)
    requires maker.id == makers[|commands|].id && maker.id in index && index[maker.id] == maker
    ensures Removals(commands + [RemoveOrderCommand(maker.id, maker)], makers[..|commands| + 1], index)
    ensures index - Ids(makers[..|commands|]) - {maker.id} == index - Ids(makers[..|commands| + 1])
  {
    var n := |commands|;
    assert makers[..n + 1] == makers[..n] + [makers[n]];
    assert Ids(makers[..n + 1]) == Ids(makers[..n]) + {maker.id};
  }

  /** The trades so far, the next one and those to come. */
  lemma TradesStep(taker: MatchingOrder, timestamp: int, now: seq<Order>, trades: seq<Trade>, remaining: int,
                   now': seq<Order>)
    requires !Stops(taker, now, remaining) && now' == AfterFill(now, Min(remaining, now[0].quantity))
    ensures var fill := Min(remaining, now[0].quantity);
      && (trades + [CreateTrade(taker, now[0], fill, now[0].price, timestamp)])
           + Fills(taker, now', remaining - fill, timestamp) == trades + Fills(taker, now, remaining, timestamp)
      && |Fills(taker, now, remaining, timestamp)| >= 1
      && Leftover(taker, now', remaining - fill) == Leftover(taker, now, remaining)
      && Unfilled(taker, now', remaining - fill) == Unfilled(taker, now, remaining)
  {
    hide Stops, CreateTrade, Fills, Leftover, Unfilled, AfterFill;
    MatchStep(taker, now, remaining, timestamp);
  }

  lemma UnderwayStep(taker: MatchingOrder, timestamp: int, makers: seq<Order>, index: map<string, BookOrder>,
                     now: seq<Order>, orderMap: map<string, BookOrder>, trades: seq<Trade>,
                       commands: seq<MatchCommand>,
                     remaining: int, maker: BookOrder, now': seq<Order>, orderMap': map<string, BookOrder>,
                     cmd: MatchCommand)
    requires Underway(taker, timestamp, makers, index, now, orderMap, trades, commands, remaining)
    requires !Stops(taker, now, remaining) && DistinctIds(makers)
    requires maker.id == now[0].id && maker.id in orderMap && orderMap[maker.id] == maker
    requires var fill := Min(remaining, now[0].quantity);
      && now' == AfterFill(now, fill)
      && (fill == now[0].quantity ==> cmd == RemoveOrderCommand(maker.id, maker) && orderMap' == orderMap - {maker.id})
    ensures var fill := Min(remaining, now[0].quantity);
      && var trades' := trades + [CreateTrade(taker, now[0], fill, now[0].price, timestamp)];
      && Underway(taker, timestamp, makers, index, now', orderMap', trades', commands + [cmd], remaining - fill)
      && |trades'| <= |trades| + |Fills(taker, now, remaining, timestamp)|
      && (remaining - fill <= 0 || |now'| < |now|)
  {
    TradesStep(taker, timestamp, now, trades, remaining, now');
    hide Fills, Leftover, Unfilled, CreateTrade, DistinctIds, CanMatch, Removals, Ids;
    var fill, n := Min(remaining, now[0].quantity), |trades|;
    if remaining - fill > 0 {
      assert now[0] == makers[n];
      RemovalCount(commands, makers, n, index);
      NextRemoval(commands, makers, index, maker);
      assert now' == makers[n + 1..];
    }
  }

  lemma UnderwayStart(taker: MatchingOrder, timestamp: int, makers: seq<Order>, index: map<string, BookOrder>)
    ensures Underway(taker, timestamp, makers, index, makers, index, [], [], taker.quantity)
  {
    EmptyIds();
    hide Fills, Leftover, Unfilled, Ids;
    assert makers[0..] == makers && makers[..0] == [];
  }

  lemma UnderwayEnd(taker: MatchingOrder, timestamp: int, makers: seq<Order>, index: map<string, BookOrder>,
                    now: seq<Order>, orderMap: map<string, BookOrder>, trades: seq<Trade>,
                       commands: seq<MatchCommand>,
                    remaining: int)
    requires Underway(taker, timestamp, makers, index, now, orderMap, trades, commands, remaining)
    requires Stops(taker, now, remaining)
    ensures trades == Fills(taker, makers, taker.quantity, timestamp)
    ensures now == Leftover(taker, makers, taker.quantity)
    ensures remaining == Unfilled(taker, makers, taker.quantity)
  {
    MatchDone(taker, now, remaining, timestamp);
  }

  lemma IntactPrefix(makers: seq<Order>, n: nat, index: map<string, BookOrder>)
    requires n <= |makers| && Intact(makers, index)
    ensures Intact(makers[..n], index)
  {
  }

  lemma RemovalCount(commands: seq<MatchCommand>, makers: seq<Order>, n: nat, index: map<string, BookOrder>)
    requires n <= |makers| && Removals(commands, makers[..n], index)
    ensures |commands| == n
  {
  }

  /** The body of the loop once a trade was made and the hook was told: the book gives up the fill. */
  method FillMaker(newOrder: MatchingOrder, timestamp: int, book: OrderBook, maker: BookOrder, fillQty: int,
                   ghost trades: seq<Trade>,
                       commands: seq<MatchCommand>, ghost remaining: int,
                   ghost makers: seq<Order>, ghost index: map<string, BookOrder>)
    returns (commands': seq<MatchCommand>)
    requires book.Valid() && IsBest(book, MatchingSide(newOrder.side), maker)
    requires Underway(newOrder, timestamp, makers, index, book.View(MatchingSide(newOrder.side)), book.orderMap,
                      trades, commands, remaining)
    requires !Stops(newOrder, book.View(MatchingSide(newOrder.side)), remaining)
    requires DistinctIds(makers) && fillQty == Min(remaining, maker.quantity)
    modifies book, maker
    ensures book.Valid() && Orders(book.orderMap) <= Orders(old(book.orderMap))
    ensures book.View(RestingSide(newOrder.side)) == old(book.View(RestingSide(newOrder.side)))
    ensures Underway(newOrder, timestamp, makers, index, book.View(MatchingSide(newOrder.side)), book.orderMap,
                     trades + [CreateTrade(newOrder, old(maker.Value()), fillQty, maker.price, timestamp)], commands',
                     remaining - fillQty)
    ensures remaining - fillQty > 0 ==>
      unchanged(maker) && |book.View(MatchingSide(newOrder.side))| < |old(book.View(MatchingSide(newOrder.side)))|
  {
    hide Agree, EntriesLinked, Fills, Leftover, Unfilled, Ids, DistinctIds, CreateTrade, Underway;
    ghost var side := MatchingSide(newOrder.side);
    ghost var now, orderMap := book.View(side), book.orderMap;
    var cmd := ExecuteFill(book, side, maker, fillQty);
    commands' := commands + [cmd];
    UnderwayStep(newOrder, timestamp, makers, index, now, orderMap, trades, commands, remaining, maker,
                 book.View(side), book.orderMap, cmd);
  }

  /** The hook threw at the next trade: the commands so far removed the makers before it. */
  ghost predicate HookThrew(makers: seq<Order>, index: map<string, BookOrder>, now: seq<Order>,
                            orderMap: map<string, BookOrder>, commands: seq<MatchCommand>, k: nat)
  {
    && k <= |makers| && now == makers[k..]
    && Removals(commands, makers[..k], index) && orderMap == index - Ids(makers[..k])
  }

  datatype Pass = Continue | Stop | Threw

  /** Where the loop stands after a pass that ended this way. */
  ghost predicate Standing(taker: MatchingOrder, timestamp: int, hookFailsAt: Option<nat>, makers: seq<Order>,
                           index: map<string, BookOrder>, now: seq<Order>, orderMap: map<string, BookOrder>, pass: Pass,
                           trades: seq<Trade>,
                       commands: seq<MatchCommand>, remaining: int)
  {
    if pass == Threw then
      && hookFailsAt.Some? && hookFailsAt.value < |Fills(taker, makers, taker.quantity, timestamp)|
      && HookThrew(makers, index, now, orderMap, commands, hookFailsAt.value)
    else
      && Underway(taker, timestamp, makers, index, now, orderMap, trades, commands, remaining)
      && (hookFailsAt.Some? ==> |trades| <= hookFailsAt.value)
      && (pass == Stop ==> Stops(taker, now, remaining))
  }

  /** One pass of the loop: find the best maker, trade with it, tell the hook, update the book. */
  method MatchPass(newOrder: MatchingOrder, timestamp: int, hookFailsAt: Option<nat>, book: OrderBook,
                   trades: seq<Trade>,
                       commands: seq<MatchCommand>, remaining: int,
                   ghost makers: seq<Order>, ghost index: map<string, BookOrder>)
    returns (pass: Pass, trades': seq<Trade>, commands': seq<MatchCommand>, remaining': int)
    requires book.Valid() && remaining > 0
    requires Standing(newOrder, timestamp, hookFailsAt, makers, index, book.View(MatchingSide(newOrder.side)),
                      book.orderMap, Continue, trades, commands, remaining)
    requires DistinctIds(makers) && Intact(makers, index)
    modifies book, Orders(book.orderMap)
    ensures book.Valid() && Orders(book.orderMap) <= Orders(old(book.orderMap))
    ensures book.View(RestingSide(newOrder.side)) == old(book.View(RestingSide(newOrder.side)))
    ensures Standing(newOrder, timestamp, hookFailsAt, makers, index, book.View(MatchingSide(newOrder.side)),
                     book.orderMap, pass, trades', commands', remaining')
    ensures remaining' > 0 ==> Intact(makers, index)
    ensures pass == Threw ==> remaining' > 0
    ensures pass == Continue && remaining' > 0 ==>
      |book.View(MatchingSide(newOrder.side))| < |old(book.View(MatchingSide(newOrder.side)))|
  {
    hide Agree, EntriesLinked, Fills, Leftover, Unfilled, Ids, DistinctIds, CreateTrade, AfterFill, Underway,
         HookThrew, Stops;
    trades', commands', remaining' := trades, commands, remaining;
    var maker := NextMaker(book, newOrder, remaining);
    if maker == null {
      pass := Stop;
    } else {
      var fillQty := Min(remaining, maker.quantity);
      trades' := trades + [CreateTrade(newOrder, maker.Value(), fillQty, maker.price, timestamp)];
      if hookFailsAt == Some(|trades|) {
        UnderwayThrow(newOrder, timestamp, makers, index, book.View(MatchingSide(newOrder.side)), book.orderMap,
                      trades, commands, remaining);
        pass := Threw;
      } else {
        commands' := FillMaker(newOrder, timestamp, book, maker, fillQty, trades, commands, remaining, makers, index);
        remaining' := remaining - fillQty;
        pass := Continue;
      }
    }
  }

  /** The loop. It stops early when the hook throws. */
  method MatchLoop(newOrder: MatchingOrder, book: OrderBook, hookFailsAt: Option<nat>, timestamp: int)
    returns (pass: Pass, trades: seq<Trade>, executedCommands: seq<MatchCommand>, remainingQty: int)
    requires book.Valid()
    modifies book, Orders(book.orderMap)
    ensures book.Valid() && Orders(book.orderMap) <= Orders(old(book.orderMap))
    ensures book.View(RestingSide(newOrder.side)) == old(book.View(RestingSide(newOrder.side)))
    ensures Standing(newOrder, timestamp, hookFailsAt, old(book.View(MatchingSide(newOrder.side))), old(book.orderMap),
                     book.View(MatchingSide(newOrder.side)), book.orderMap, pass, trades,
                     executedCommands, remainingQty)
    ensures pass == Continue ==> remainingQty <= 0
    ensures pass == Threw ==> Intact(old(book.View(MatchingSide(newOrder.side))), old(book.orderMap))
  {
    trades, executedCommands, remainingQty, pass := [], [], newOrder.quantity, Continue;
    ghost var side, index := MatchingSide(newOrder.side), book.orderMap;
    ghost var makers := book.View(side);
    MakersOf(book, side);
    UnderwayStart(newOrder, timestamp, makers, index);
    assert Standing(newOrder, timestamp, hookFailsAt, makers, index, makers, index, pass, trades,
                    executedCommands, remainingQty);
    hide Agree, EntriesLinked, Standing, DistinctIds, Sorted, Underway;
    while remainingQty > 0 && pass == Continue
      invariant book.Valid()
      invariant Orders(book.orderMap) <= Orders(index)
      invariant book.View(RestingSide(newOrder.side)) == old(book.View(RestingSide(newOrder.side)))
      invariant Standing(newOrder, timestamp, hookFailsAt, makers, index, book.View(side), book.orderMap, pass,
                         trades, executedCommands, remainingQty)
      invariant remainingQty > 0 ==> Intact(makers, index)
      invariant pass == Threw ==> remainingQty > 0
      decreases pass == Continue, remainingQty > 0, |book.View(side)|
    {
      pass, trades, executedCommands, remainingQty :=
        MatchPass(newOrder, timestamp, hookFailsAt, book, trades, executedCommands, remainingQty, makers, index);
    }
  }

  lemma LoopDone(taker: MatchingOrder, timestamp: int, hookFailsAt: Option<nat>, makers: seq<Order>,
                 index: map<string, BookOrder>, now: seq<Order>, orderMap: map<string, BookOrder>, pass: Pass,
                 trades: seq<Trade>,
                       commands: seq<MatchCommand>, remaining: int)
    requires Standing(taker, timestamp, hookFailsAt, makers, index, now, orderMap, pass, trades, commands, remaining)
    requires pass == Stop || (pass == Continue && remaining <= 0)
    ensures hookFailsAt.Some? ==> |trades| <= hookFailsAt.value
    ensures trades == Fills(taker, makers, taker.quantity, timestamp)
    ensures now == Leftover(taker, makers, taker.quantity)
    ensures remaining == Unfilled(taker, makers, taker.quantity)
  {
    assert Stops(taker, now, remaining);
    UnderwayEnd(taker, timestamp, makers, index, now, orderMap, trades, commands, remaining);
  }

  lemma UnderwayThrow(taker: MatchingOrder, timestamp: int, makers: seq<Order>, index: map<string, BookOrder>,
                      now: seq<Order>, orderMap: map<string, BookOrder>, trades: seq<Trade>,
                       commands: seq<MatchCommand>,
                      remaining: int)
    requires Underway(taker, timestamp, makers, index, now, orderMap, trades, commands, remaining)
    requires !Stops(taker, now, remaining)
    ensures HookThrew(makers, index, now, orderMap, commands, |trades|)
    ensures |trades| < |Fills(taker, makers, taker.quantity, timestamp)|
  {
    MatchStep(taker, now, remaining, timestamp);
    hide Leftover, Unfilled, CreateTrade;
  }

  /** Each trade is with the maker at its place and at that maker's price, and for what this maker is due if no
      maker has a quantity below one. */
  ghost predicate Priced(taker: MatchingOrder, makers: seq<Order>, trades: seq<Trade>, timestamp: int) {
    && |trades| <= |makers|
    && (forall i :: 0 <= i < |trades| ==> TradedWith(trades[i], taker, makers[i], timestamp))
    && (AllPositive(makers) ==>
          forall i :: 0 <= i < |trades| ==> trades[i].quantity == FillAt(taker, makers, taker.quantity, i))
  }

  lemma PricedFills(taker: MatchingOrder, makers: seq<Order>, timestamp: int)
    requires Sorted(MatchingSide(taker.side), makers)
    ensures Priced(taker, makers, Fills(taker, makers, taker.quantity, timestamp), timestamp)
  {
    TradedInOrder(taker, makers, taker.quantity, timestamp);
    if AllPositive(makers) {
      TradedForFillAt(taker, makers, taker.quantity, timestamp);
    }
    hide Fills, FillAt, Sorted, TradedWith;
  }

  /** Match an incoming order against the book. When the hook throws, at trade number hookFailsAt,
      the executed commands are rolled back and the error is passed on. */
  method MatchOrder(newOrder: MatchingOrder, book: OrderBook, hookFailsAt: Option<nat>, timestamp: int)
    returns (r: Result<MatchResult, MatchError>)
    requires book.Valid()
    modifies book, Orders(book.orderMap)
    ensures book.Valid() && Orders(book.orderMap) <= Orders(old(book.orderMap))
    ensures book.View(RestingSide(newOrder.side)) == old(book.View(RestingSide(newOrder.side)))
    ensures var makers := old(book.View(MatchingSide(newOrder.side)));
      r.Err? <==> hookFailsAt.Some? && hookFailsAt.value < |Fills(newOrder, makers, newOrder.quantity, timestamp)|
    ensures r.Ok? ==>
      var makers := old(book.View(MatchingSide(newOrder.side)));
      var left := Unfilled(newOrder, makers, newOrder.quantity);
      && r.value.trades == Fills(newOrder, makers, newOrder.quantity, timestamp)
      && Priced(newOrder, makers, r.value.trades, timestamp)
      && r.value.remainingOrder == (if left > 0 then Some(newOrder.(quantity := left)) else None)
      && DeltasOf(r.value.trades, r.value.positionDeltas)
      && book.View(MatchingSide(newOrder.side)) == Leftover(newOrder, makers, newOrder.quantity)
    ensures r.Err? ==>
      var makers, k := old(book.View(MatchingSide(newOrder.side))), hookFailsAt.value;
      && k <= |makers|
      && book.View(MatchingSide(newOrder.side)) == Reinsert(MatchingSide(newOrder.side), makers[k..], makers[..k])
      && book.orderMap == old(book.orderMap) && book.userOrders == old(book.userOrders)
      && book.bidPrices == old(book.bidPrices) && book.askPrices == old(book.askPrices)
      && DepthOf(book.Bids()) == DepthOf(old(book.Bids())) && DepthOf(book.Asks()) == DepthOf(old(book.Asks()))
  {
    ghost var side, index := MatchingSide(newOrder.side), book.orderMap;
    ghost var makers, state, contents := book.View(side), book.State(), book.contents;
    MakersOf(book, side);
    hide Agree, EntriesLinked, Fills, Leftover, Unfilled, Ids, DistinctIds, Removals, Reinsert, DepthOf, Priced, Sorted;
    var pass, trades, executedCommands, remainingQty := MatchLoop(newOrder, book, hookFailsAt, timestamp);
    if pass == Threw {
      PrefixOrders(makers, side, book.marketId, book.outcome, hookFailsAt.value);
      IntactPrefix(makers, hookFailsAt.value, index);
      RollbackCommands(book, executedCommands, side, makers[..hookFailsAt.value], index);
      RollbackRestoresBook(state, contents, book.State(), book.contents, book.marketId, book.outcome, side,
                           hookFailsAt.value);
      r := Err(HookFailed);
    } else {
      LoopDone(newOrder, timestamp, hookFailsAt, makers, index, book.View(side), book.orderMap, pass,
               trades, executedCommands, remainingQty);
      var remainingOrder := if remainingQty > 0 then Some(newOrder.(quantity := remainingQty)) else None;
      PricedFills(newOrder, makers, timestamp);
      var positionDeltas := CalculatePositionDeltas(trades);
      r := Ok(MatchResult(trades, remainingOrder, positionDeltas));
    }
  }

  method BestMaker(book: OrderBook, side: Side) returns (maker: BookOrder?)
    requires book.Valid()
    ensures maker == null <==> book.View(side) == []
    ensures maker != null ==> IsBest(book, side, maker)
  {
    MakersOf(book, side);
    if side == Ask {
      maker := book.GetBestAsk();
    } else {
      maker := book.GetBestBid();
    }
  }

  /** The best maker, when the taker can match it. */
  method NextMaker(book: OrderBook, newOrder: MatchingOrder, remainingQty: int) returns (maker: BookOrder?)
    requires book.Valid() && remainingQty > 0
    ensures maker == null <==> Stops(newOrder, book.View(MatchingSide(newOrder.side)), remainingQty)
    ensures maker != null ==> IsBest(book, MatchingSide(newOrder.side), maker)
  {
    maker := BestMaker(book, MatchingSide(newOrder.side));
    if maker != null && !CanMatch(newOrder.price, maker.price, newOrder.side) {
      maker := null;
    }
  }
}
