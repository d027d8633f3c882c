/** The in-memory limit order book of one market outcome: two maps of price levels, two sorted
    price lists, an id map and a user index, all updated in place. The order objects are shared
    between the id map and the levels. A ghost field holds the same book as plain values, and
    Valid() ties the six structures to it. */
module OrderBooks {
  import opened Domain
  import opened PriorityList
  import opened DepthViews

  datatype BookError = WrongBook | DuplicateOrder | NegativeQuantity

  /** The levels of one side by price; none is empty. */
  type Levels = map<int, seq<Order>>

  /** A book as plain values: both sides as priority lists and as levels, and every order by id. */
  datatype Contents = Contents(
    bids: seq<Order>,
    asks: seq<Order>,
    bidLevels: Levels,
    askLevels: Levels,
    entries: map<string, Order>)

  class BookOrder {
    const id: string
    const userAddress: string
    const side: Side
    const price: int
    const marketId: string
    const outcome: nat
    var quantity: int

    constructor (o: Order)
      ensures Value() == o
    {
      id, userAddress, side, price := o.id, o.userAddress, o.side, o.price;
      quantity, marketId, outcome := o.quantity, o.marketId, o.outcome;
    }

    function Value(): Order
      reads this
    {
      Order(id, userAddress, side, price, quantity, marketId, outcome)
    }
  }

  datatype PriceLevel = PriceLevel(price: int, orders: seq<BookOrder>, totalQuantity: int) {
    /** This is the given level, sharing its orders with the id map. */
    ghost predicate Holds(price: int, level: seq<Order>, index: map<string, BookOrder>) {
      && this.price == price
      && totalQuantity == Sum(level)
      && |orders| == |level|
      && forall i :: 0 <= i < |level| ==> level[i].id in index && orders[i] == index[level[i].id]
    }
  }

  ghost function Orders(index: map<string, BookOrder>): set<BookOrder> {
    set id | id in index :: index[id]
  }

  function FindOrder(orders: seq<BookOrder>, id: string): (i: nat)
    ensures i <= |orders|
    ensures i < |orders| ==> orders[i].id == id
    ensures i == |orders| ==> forall k :: 0 <= k < |orders| ==> orders[k].id != id
  {
    if orders == [] || orders[0].id == id then 0 else 1 + FindOrder(orders[1..], id)
  }

  function LevelOrNew(records: map<int, PriceLevel>, price: int): PriceLevel {
    if price in records then records[price] else PriceLevel(price, [], 0)
  }

  function Push(level: PriceLevel, order: BookOrder): PriceLevel
    reads order
  {
    level.(orders := level.orders + [order], totalQuantity := level.totalQuantity + order.quantity)
  }

  ghost function LevelAt(levels: Levels, p: int): seq<Order> {
    if p in levels then levels[p] else []
  }

  /** The priority list s has exactly these levels, and the prices are their keys in strict
      priority order. */
  ghost predicate SideConsistent(side: Side, s: seq<Order>, levels: Levels, prices: seq<int>) {
    && Sorted(side, s) && DistinctIds(s)
    && (forall p :: p in levels ==> levels[p] != [])
    && (forall p :: AtPrice(s, p) == LevelAt(levels, p))
    && StrictlySorted(side, prices)
    && (forall p :: p in prices <==> p in levels)
  }

  /** The id map holds exactly the orders of the two sides. */
  ghost predicate EntriesConsistent(c: Contents, marketId: string, outcome: nat) {
    && (forall id :: id in c.entries ==>
          && c.entries[id].id == id
          && c.entries[id].marketId == marketId && c.entries[id].outcome == outcome
          && c.entries[id] in (if c.entries[id].side == Bid then c.bids else c.asks))
    && (forall o :: o in c.bids ==> o.side == Bid && o.id in c.entries && c.entries[o.id] == o)
    && (forall o :: o in c.asks ==> o.side == Ask && o.id in c.entries && c.entries[o.id] == o)
  }

  /** The user index is the inverse of the id map, without empty entries. */
  ghost predicate UsersConsistent(users: map<string, set<string>>, entries: map<string, Order>) {
    && (forall u :: u in users ==> users[u] != {})
    && (forall u, id :: u in users && id in users[u] ==> id in entries && entries[id].userAddress == u)
    && (forall id :: id in entries ==> entries[id].userAddress in users && id in users[entries[id].userAddress])
  }

  /** The level records hold these levels. */
  ghost predicate LevelsLinked(records: map<int, PriceLevel>, levels: Levels, index: map<string, BookOrder>) {
    && records.Keys == levels.Keys
    && forall p :: p in levels ==> records[p].Holds(p, levels[p], index)
  }

  /** The six linked structures of a book. */
  datatype Structures = Structures(
    bidLevels: map<int, PriceLevel>,
    askLevels: map<int, PriceLevel>,
    bidPrices: seq<int>,
    askPrices: seq<int>,
    orderMap: map<string, BookOrder>,
    userOrders: map<string, set<string>>)

  /** The six structures agree on one book. */
  ghost predicate Agree(s: Structures, c: Contents, marketId: string, outcome: nat) {
    && SideConsistent(Bid, c.bids, c.bidLevels, s.bidPrices)
    && SideConsistent(Ask, c.asks, c.askLevels, s.askPrices)
    && EntriesConsistent(c, marketId, outcome)
    && UsersConsistent(s.userOrders, c.entries)
    && LevelsLinked(s.bidLevels, c.bidLevels, s.orderMap)
    && LevelsLinked(s.askLevels, c.askLevels, s.orderMap)
    && s.orderMap.Keys == c.entries.Keys
    && IdsOk(s.orderMap)
  }

  ghost predicate IdsOk(index: map<string, BookOrder>) {
    forall id :: id in index ==> index[id].id == id
  }

  ghost predicate EntriesLinked(index: map<string, BookOrder>, entries: map<string, Order>)
    reads Orders(index)
  {
    forall id :: id in index && id in entries ==> index[id].Value() == entries[id]
  }

  // ------------------------------------------------- the book as plain values

  lemma BestPrice(side: Side, s: seq<Order>, levels: Levels, prices: seq<int>)
    requires SideConsistent(side, s, levels, prices)
    ensures prices == [] <==> s == []
    ensures s != [] ==> s[0].price == prices[0] && prices[0] in levels && levels[prices[0]][0] == s[0]
  {
    HeadLevel(s);
    if prices != [] {
      var p := prices[0];
      AtPriceMembers(s, p);
      assert AtPrice(s, p) == levels[p];
      assert AtPrice(s, p)[0] in s;
      var j :| 0 <= j < |s| && s[j] == AtPrice(s, p)[0];
      assert forall i :: 0 < i < |s| ==> !Better(side, s[i].price, s[0].price);
      assert s[0].price in levels;
      var k := IndexOf(prices, s[0].price);
    }
  }

  lemma LevelOf(side: Side, s: seq<Order>, levels: Levels, prices: seq<int>, p: int)
    requires SideConsistent(side, s, levels, prices)
    ensures AtPrice(s, p) == LevelAt(levels, p)
    ensures forall o :: o in LevelAt(levels, p) <==> o in s && o.price == p
  {
    AtPriceMembers(s, p);
    hide AtPrice;
  }

  lemma LevelMembers(side: Side, s: seq<Order>, levels: Levels, prices: seq<int>)
    requires SideConsistent(side, s, levels, prices)
    ensures forall p, o :: p in levels && o in levels[p] ==> o in s && o.price == p
    ensures forall o :: o in s ==> o.price in levels && o in levels[o.price]
  {
    hide SideConsistent;
    forall p, o | p in levels && o in levels[p] ensures o in s && o.price == p {
      LevelOf(side, s, levels, prices, p);
    }
    forall o | o in s ensures o.price in levels && o in levels[o.price] {
      LevelOf(side, s, levels, prices, o.price);
    }
  }

  ghost function LevelsWith(levels: Levels, o: Order): Levels {
    levels[o.price := LevelAt(levels, o.price) + [o]]
  }

  lemma SideAdd(side: Side, s: seq<Order>, levels: Levels, prices: seq<int>, o: Order, prices': seq<int>)
    requires SideConsistent(side, s, levels, prices) && !HasId(s, o.id)
    requires StrictlySorted(side, prices') && forall p :: p in prices' <==> p in prices || p == o.price
    ensures SideConsistent(side, Insert(side, s, o), LevelsWith(levels, o), prices')
  {
    hide Insert, Sorted, DistinctIds, AtPrice, StrictlySorted, HasId;
    InsertDistinct(side, s, o);
    InsertSorted(side, s, o);
    forall p ensures AtPrice(Insert(side, s, o), p) == LevelAt(LevelsWith(levels, o), p) {
      LevelsAfterInsert(side, s, levels, prices, o, p);
    }
  }

  lemma LevelsAfterInsert(side: Side, s: seq<Order>, levels: Levels, prices: seq<int>, o: Order, p: int)
    requires SideConsistent(side, s, levels, prices)
    ensures AtPrice(Insert(side, s, o), p) == LevelAt(LevelsWith(levels, o), p)
  {
    InsertAtPrice(side, s, o, p);
    assert AtPrice(s, p) == LevelAt(levels, p);
    hide SideConsistent, AtPrice, Insert, Sorted, Sum;
    assert AtPrice(s, p) + [] == AtPrice(s, p);
  }

  ghost function WithOrder(c: Contents, o: Order): Contents {
    if o.side == Bid then
      c.(bids := Insert(Bid, c.bids, o), bidLevels := LevelsWith(c.bidLevels, o), entries := c.entries[o.id := o])
    else
      c.(asks := Insert(Ask, c.asks, o), askLevels := LevelsWith(c.askLevels, o), entries := c.entries[o.id := o])
  }

  lemma EntriesAdd(c: Contents, marketId: string, outcome: nat, o: Order)
    requires EntriesConsistent(c, marketId, outcome)
    requires o.id !in c.entries && o.marketId == marketId && o.outcome == outcome
    ensures EntriesConsistent(WithOrder(c, o), marketId, outcome)
    ensures !HasId(if o.side == Bid then c.bids else c.asks, o.id)
  {
    InsertMembers(o.side, if o.side == Bid then c.bids else c.asks, o);
  }

  function WithUserOrder(users: map<string, set<string>>, user: string, id: string): map<string, set<string>> {
    users[user := (if user in users then users[user] else {}) + {id}]
  }

  lemma UsersAdd(users: map<string, set<string>>, entries: map<string, Order>, o: Order)
    requires UsersConsistent(users, entries) && o.id !in entries
    ensures UsersConsistent(WithUserOrder(users, o.userAddress, o.id), entries[o.id := o])
  {
  }

  /** A new id does not disturb levels that do not mention it. */
  lemma LinkedLarger(records: map<int, PriceLevel>, levels: Levels, index: map<string, BookOrder>, order: BookOrder)
    requires LevelsLinked(records, levels, index) && order.id !in index
    ensures LevelsLinked(records, levels, index[order.id := order])
  {
    forall p | p in levels ensures records[p].Holds(p, levels[p], index[order.id := order]) {
      assert records[p].Holds(p, levels[p], index);
    }
  }

  lemma LinkedPush(records: map<int, PriceLevel>, levels: Levels, index: map<string, BookOrder>, order: BookOrder,
                   o: Order)
    requires LevelsLinked(records, levels, index) && order.id !in index
    requires o.id == order.id && o.price == order.price && o.quantity == order.quantity
    ensures LevelsLinked(records[o.price := Push(LevelOrNew(records, o.price), order)], LevelsWith(levels, o),
                         index[order.id := order])
  {
    LinkedLarger(records, levels, index, order);
    var level := LevelAt(levels, o.price);
    SumConcat(level, [o]);
    assert Push(LevelOrNew(records, o.price), order).Holds(o.price, level + [o], index[order.id := order]);
  }

  lemma SplicePrice(side: Side, prices: seq<int>, price: int, at: nat)
    requires StrictlySorted(side, prices) && at <= |prices|
    requires forall k :: 0 <= k < at ==> Better(side, prices[k], price)
    requires forall k :: at <= k < |prices| ==> !Better(side, prices[k], price)
    ensures var r := prices[..at] + [price] + prices[at..];
            && (forall p :: p in r <==> p in prices || p == price)
            && (price !in prices ==> StrictlySorted(side, r))
  {
    var r := prices[..at] + [price] + prices[at..];
    assert prices == prices[..at] + prices[at..];
    if price !in prices {
      forall i, j | 0 <= i < j < |r| ensures Better(side, r[i], r[j]) {
        assert i < at ==> r[i] == prices[i];
        assert i > at ==> r[i] == prices[i - 1];
        assert j < at ==> r[j] == prices[j];
        assert j > at ==> r[j] == prices[j - 1];
      }
    }
  }

  ghost function AfterAdd(s: Structures, order: BookOrder, prices: seq<int>): Structures
    reads order
  {
    var index, users := s.orderMap[order.id := order], WithUserOrder(s.userOrders, order.userAddress, order.id);
    if order.side == Bid then
      s.(bidLevels := s.bidLevels[order.price := Push(LevelOrNew(s.bidLevels, order.price), order)],
         bidPrices := prices, orderMap := index, userOrders := users)
    else
      s.(askLevels := s.askLevels[order.price := Push(LevelOrNew(s.askLevels, order.price), order)],
         askPrices := prices, orderMap := index, userOrders := users)
  }

  lemma AddAgrees(s: Structures, c: Contents, marketId: string, outcome: nat, order: BookOrder, o: Order,
                  prices: seq<int>)
    requires Agree(s, c, marketId, outcome)
    requires o == order.Value() && o.id !in s.orderMap && o.marketId == marketId && o.outcome == outcome
    requires StrictlySorted(o.side, prices)
    requires forall p :: p in prices <==> p == o.price || p in (if o.side == Bid then s.bidPrices else s.askPrices)
    ensures Agree(AfterAdd(s, order, prices), WithOrder(c, o), marketId, outcome)
    ensures WithOrder(c, o).entries == c.entries[o.id := o]
  {
    hide SideConsistent, EntriesConsistent, UsersConsistent, LevelsLinked;
    hide StrictlySorted, WithUserOrder, LevelOrNew, Push, LevelsWith, Insert, HasId;
    EntriesAdd(c, marketId, outcome, o);
    UsersAdd(s.userOrders, c.entries, o);
    if o.side == Bid {
      SideAdd(Bid, c.bids, c.bidLevels, s.bidPrices, o, prices);
      LinkedPush(s.bidLevels, c.bidLevels, s.orderMap, order, o);
      LinkedLarger(s.askLevels, c.askLevels, s.orderMap, order);
    } else {
      SideAdd(Ask, c.asks, c.askLevels, s.askPrices, o, prices);
      LinkedPush(s.askLevels, c.askLevels, s.orderMap, order, o);
      LinkedLarger(s.bidLevels, c.bidLevels, s.orderMap, order);
    }
  }

  lemma SideKeys(s: Structures, c: Contents, marketId: string, outcome: nat)
    requires Agree(s, c, marketId, outcome)
    ensures StrictlySorted(Bid, s.bidPrices) && forall p :: p in s.bidPrices <==> p in s.bidLevels
    ensures StrictlySorted(Ask, s.askPrices) && forall p :: p in s.askPrices <==> p in s.askLevels
  {
  }

  // ------------------------------------------------------------------ removal

  function Drop(level: PriceLevel, order: BookOrder): PriceLevel
    reads order
  {
    var i := FindOrder(level.orders, order.id);
    if i == |level.orders| then level
    else level.(orders := level.orders[..i] + level.orders[i + 1..],
                totalQuantity := level.totalQuantity - order.quantity)
  }

  function WithoutPrice(prices: seq<int>, price: int): seq<int> {
    if price in prices then var i := IndexOf(prices, price); prices[..i] + prices[i + 1..] else prices
  }

  function WithoutUserOrder(users: map<string, set<string>>, user: string, id: string): map<string, set<string>> {
    if user !in users then users
    else if users[user] - {id} == {} then users - {user}
    else users[user := users[user] - {id}]
  }

  ghost function LevelsWithout(levels: Levels, o: Order): Levels {
    var level := Remove(LevelAt(levels, o.price), o.id);
    if level == [] then levels - {o.price} else levels[o.price := level]
  }

  ghost function WithoutOrder(c: Contents, o: Order): Contents {
    if o.side == Bid then
      c.(bids := Remove(c.bids, o.id), bidLevels := LevelsWithout(c.bidLevels, o), entries := c.entries - {o.id})
    else
      c.(asks := Remove(c.asks, o.id), askLevels := LevelsWithout(c.askLevels, o), entries := c.entries - {o.id})
  }

  lemma SpliceOut(side: Side, prices: seq<int>, i: nat)
    requires StrictlySorted(side, prices) && i < |prices|
    ensures var r := prices[..i] + prices[i + 1..];
            StrictlySorted(side, r) && forall p :: p in r <==> p in prices && p != prices[i]
  {
    var r := prices[..i] + prices[i + 1..];
    forall j, k | 0 <= j < k < |r| ensures Better(side, r[j], r[k]) {
      assert r[j] == prices[if j < i then j else j + 1] && r[k] == prices[if k < i then k else k + 1];
    }
    forall p ensures p in r <==> p in prices && p != prices[i] {
      assert prices == prices[..i] + [prices[i]] + prices[i + 1..];
      assert forall k :: 0 <= k < |prices| && k != i ==> prices[k] != prices[i];
    }
  }

  lemma WithoutPriceSorted(side: Side, prices: seq<int>, price: int)
    requires StrictlySorted(side, prices)
    ensures StrictlySorted(side, WithoutPrice(prices, price))
    ensures forall p :: p in WithoutPrice(prices, price) <==> p in prices && p != price
  {
    if price in prices {
      SpliceOut(side, prices, IndexOf(prices, price));
    }
  }

  lemma LevelsAfterRemove(side: Side, s: seq<Order>, levels: Levels, prices: seq<int>, o: Order, p: int)
    requires SideConsistent(side, s, levels, prices) && o in s
    ensures AtPrice(Remove(s, o.id), p) == LevelAt(LevelsWithout(levels, o), p)
  {
    assert AtPrice(s, p) == LevelAt(levels, p) && DistinctIds(s);
    hide SideConsistent, AtPrice, Remove, DistinctIds;
    RemoveAtPrice(s, o.id, p);
    if p != o.price {
      OtherLevel(s, o, p);
    }
  }

  lemma SideRemove(side: Side, s: seq<Order>, levels: Levels, prices: seq<int>, o: Order)
    requires SideConsistent(side, s, levels, prices) && o in s
    ensures SideConsistent(side, Remove(s, o.id), LevelsWithout(levels, o),
              if Remove(LevelAt(levels, o.price), o.id) == [] then WithoutPrice(prices, o.price) else prices)
    ensures o.price in levels && o in levels[o.price]
  {
    hide AtPrice, Remove, WithoutPrice, StrictlySorted, Sorted, DistinctIds, LevelsWithout, LevelAt;
    SideRemoveOrder(side, s, levels, prices, o);
    SideRemoveLevels(side, s, levels, prices, o);
    SideRemovePrices(side, s, levels, prices, o);
    LevelMembers(side, s, levels, prices);
  }

  lemma SideRemoveOrder(side: Side, s: seq<Order>, levels: Levels, prices: seq<int>, o: Order)
    requires SideConsistent(side, s, levels, prices)
    ensures Sorted(side, Remove(s, o.id)) && DistinctIds(Remove(s, o.id))
  {
    hide AtPrice, Remove, StrictlySorted, Sorted, DistinctIds;
    RemoveSorted(side, s, o.id);
    RemoveDistinct(s, o.id);
  }

  lemma SideRemoveLevels(side: Side, s: seq<Order>, levels: Levels, prices: seq<int>, o: Order)
    requires SideConsistent(side, s, levels, prices) && o in s
    ensures forall p :: p in LevelsWithout(levels, o) ==> LevelsWithout(levels, o)[p] != []
    ensures forall p :: AtPrice(Remove(s, o.id), p) == LevelAt(LevelsWithout(levels, o), p)
  {
    assert forall p :: p in levels ==> levels[p] != [];
    hide SideConsistent, AtPrice, Remove;
    forall p ensures AtPrice(Remove(s, o.id), p) == LevelAt(LevelsWithout(levels, o), p) {
      LevelsAfterRemove(side, s, levels, prices, o, p);
    }
  }

  lemma SideRemovePrices(side: Side, s: seq<Order>, levels: Levels, prices: seq<int>, o: Order)
    requires SideConsistent(side, s, levels, prices) && o in s
    ensures var prices' :=
        if Remove(LevelAt(levels, o.price), o.id) == [] then WithoutPrice(prices, o.price) else prices;
      StrictlySorted(side, prices') && forall p :: p in prices' <==> p in LevelsWithout(levels, o)
  {
    LevelOf(side, s, levels, prices, o.price);
    hide AtPrice, Remove, WithoutPrice, StrictlySorted, Sorted, DistinctIds;
    WithoutPriceSorted(side, prices, o.price);
  }

  /** An id sits on one level only. */
  lemma OtherLevel(s: seq<Order>, o: Order, p: int)
    requires DistinctIds(s) && o in s && p != o.price
    ensures Remove(AtPrice(s, p), o.id) == AtPrice(s, p)
    ensures forall q :: Requantify(AtPrice(s, p), o.id, q) == AtPrice(s, p)
  {
    AtPriceMembers(s, p);
    forall x | x in AtPrice(s, p) ensures x.id != o.id {
      var i :| 0 <= i < |s| && s[i] == x;
      var j :| 0 <= j < |s| && s[j] == o;
    }
    RemoveAbsent(AtPrice(s, p), o.id);
    forall q ensures Requantify(AtPrice(s, p), o.id, q) == AtPrice(s, p) {
      RequantifyAbsent(AtPrice(s, p), o.id, q);
    }
  }

  lemma EntriesRemove(c: Contents, marketId: string, outcome: nat, o: Order)
    requires EntriesConsistent(c, marketId, outcome)
    requires o.id in c.entries && c.entries[o.id] == o
    ensures EntriesConsistent(WithoutOrder(c, o), marketId, outcome)
    ensures o in (if o.side == Bid then c.bids else c.asks)
    ensures WithoutOrder(c, o).entries == c.entries - {o.id}
  {
    RemoveMembers(if o.side == Bid then c.bids else c.asks, o.id);
  }

  lemma UsersRemove(users: map<string, set<string>>, entries: map<string, Order>, o: Order)
    requires UsersConsistent(users, entries) && o.id in entries && entries[o.id] == o
    ensures UsersConsistent(WithoutUserOrder(users, o.userAddress, o.id), entries - {o.id})
  {
  }

  /** Forgetting an id does not disturb levels that do not mention it. */
  lemma LinkedSmaller(records: map<int, PriceLevel>, levels: Levels, index: map<string, BookOrder>, id: string)
    requires LevelsLinked(records, levels, index)
    requires forall p, o :: p in levels && o in levels[p] ==> o.id != id
    ensures LevelsLinked(records, levels, index - {id})
  {
    forall p | p in levels ensures records[p].Holds(p, levels[p], index - {id}) {
      assert records[p].Holds(p, levels[p], index);
    }
  }

  ghost function RecordsAfterDrop(records: map<int, PriceLevel>, order: BookOrder): map<int, PriceLevel>
    requires order.price in records
    reads order
  {
    if Drop(records[order.price], order).orders == [] then records - {order.price}
    else records[order.price := Drop(records[order.price], order)]
  }

  lemma FoundAt(orders: seq<BookOrder>, level: seq<Order>, k: nat, id: string)
    requires DistinctIds(level) && |orders| == |level| && k < |level| && level[k].id == id
    requires forall i :: 0 <= i < |orders| ==> orders[i].id == level[i].id
    ensures FindOrder(orders, id) == k
  {
  }

  lemma SplicedOrders(orders: seq<BookOrder>, level: seq<Order>, k: nat, index: map<string, BookOrder>)
    requires DistinctIds(level) && |orders| == |level| && k < |level|
    requires forall i :: 0 <= i < |level| ==> level[i].id in index && orders[i] == index[level[i].id]
    ensures var r, rest, index' := orders[..k] + orders[k + 1..], level[..k] + level[k + 1..], index - {level[k].id};
      |r| == |rest| && forall i :: 0 <= i < |rest| ==> rest[i].id in index' && r[i] == index'[rest[i].id]
  {
    var r, rest := orders[..k] + orders[k + 1..], level[..k] + level[k + 1..];
    forall i | 0 <= i < |rest| ensures rest[i].id in index - {level[k].id} && r[i] == index[rest[i].id] {
      var at := if i < k then i else i + 1;
      assert rest[i] == level[at] && r[i] == orders[at] && level[at].id != level[k].id;
    }
  }

  lemma DropHolds(level: PriceLevel, p: int, orders: seq<Order>, index: map<string, BookOrder>, order: BookOrder,
                  k: nat)
    requires level.Holds(p, orders, index) && DistinctIds(orders)
    requires k < |orders| && orders[k].id == order.id && orders[k].quantity == order.quantity
    requires forall i :: 0 <= i < |level.orders| ==> level.orders[i].id == orders[i].id
    ensures Drop(level, order).Holds(p, Remove(orders, order.id), index - {order.id})
  {
    hide Remove, Sum, DistinctIds, FindOrder;
    FoundAt(level.orders, orders, k, order.id);
    RemoveIndex(orders, k);
    RemoveSum(orders, k);
    SplicedOrders(level.orders, orders, k, index);
  }

  lemma DroppedLevel(side: Side, s: seq<Order>, levels: Levels, prices: seq<int>, records: map<int, PriceLevel>,
                     index: map<string, BookOrder>, order: BookOrder, o: Order)
    requires SideConsistent(side, s, levels, prices) && o in s
    requires LevelsLinked(records, levels, index) && IdsOk(index)
    requires o == order.Value()
    ensures o.price in records && o.price in levels
    ensures Drop(records[o.price], order).Holds(o.price, Remove(levels[o.price], o.id), index - {o.id})
  {
    LevelMembers(side, s, levels, prices);
    LevelDistinct(s, o.price);
    assert AtPrice(s, o.price) == levels[o.price];
    var k :| 0 <= k < |levels[o.price]| && levels[o.price][k] == o;
    hide AtPrice, SideConsistent;
    assert records[o.price].Holds(o.price, levels[o.price], index);
    DropHolds(records[o.price], o.price, levels[o.price], index, order, k);
  }

  lemma IdsElsewhere(side: Side, s: seq<Order>, levels: Levels, prices: seq<int>, o: Order)
    requires SideConsistent(side, s, levels, prices) && o in s
    ensures forall p, x :: p in levels && p != o.price && x in levels[p] ==> x.id != o.id
  {
    LevelMembers(side, s, levels, prices);
    forall p, x | p in levels && p != o.price && x in levels[p] ensures x.id != o.id {
      var i :| 0 <= i < |s| && s[i] == x;
      var j :| 0 <= j < |s| && s[j] == o;
    }
  }

  /** Taking an order out of its level record takes it out of the level. */
  lemma LinkedDrop(side: Side, s: seq<Order>, levels: Levels, prices: seq<int>, records: map<int, PriceLevel>,
                   index: map<string, BookOrder>, order: BookOrder, o: Order)
    requires SideConsistent(side, s, levels, prices) && o in s
    requires LevelsLinked(records, levels, index) && IdsOk(index)
    requires o == order.Value()
    ensures o.price in records
    ensures LevelsLinked(RecordsAfterDrop(records, order), LevelsWithout(levels, o), index - {o.id})
    ensures Drop(records[o.price], order).orders == [] <==> Remove(LevelAt(levels, o.price), o.id) == []
  {
    hide SideConsistent, Remove, Drop, Sum;
    DroppedLevel(side, s, levels, prices, records, index, order, o);
    IdsElsewhere(side, s, levels, prices, o);
    forall p | p in LevelsWithout(levels, o) && p != o.price
      ensures records[p].Holds(p, levels[p], index - {o.id})
    {
      assert records[p].Holds(p, levels[p], index);
    }
  }

  lemma {:induction false} LevelDistinct(s: seq<Order>, p: int)
    requires DistinctIds(s)
    ensures DistinctIds(AtPrice(s, p))
  {
    if s != [] {
      LevelDistinct(s[1..], p);
      AtPriceMembers(s[1..], p);
      forall x | x in s[1..] ensures x.id != s[0].id {
        var i :| 0 <= i < |s[1..]| && s[1..][i] == x;
        assert s[i + 1] == x;
      }
    }
  }

  ghost function AfterRemove(s: Structures, order: BookOrder): Structures
    requires order.price in (if order.side == Bid then s.bidLevels else s.askLevels)
    reads order
  {
    var index, users := s.orderMap - {order.id}, WithoutUserOrder(s.userOrders, order.userAddress, order.id);
    if order.side == Bid then
      s.(bidLevels := RecordsAfterDrop(s.bidLevels, order), orderMap := index, userOrders := users,
         bidPrices := if Drop(s.bidLevels[order.price], order).orders == [] then WithoutPrice(s.bidPrices, order.price)
                      else s.bidPrices)
    else
      s.(askLevels := RecordsAfterDrop(s.askLevels, order), orderMap := index, userOrders := users,
         askPrices := if Drop(s.askLevels[order.price], order).orders == [] then WithoutPrice(s.askPrices, order.price)
                      else s.askPrices)
  }

  lemma OtherSideIds(c: Contents, marketId: string, outcome: nat, o: Order)
    requires EntriesConsistent(c, marketId, outcome) && o.id in c.entries && c.entries[o.id] == o
    ensures forall x :: x in (if o.side == Bid then c.asks else c.bids) ==> x.id != o.id
  {
  }

  lemma RemoveAgrees(s: Structures, c: Contents, marketId: string, outcome: nat, order: BookOrder, o: Order)
    requires Agree(s, c, marketId, outcome)
    requires o == order.Value() && o.id in s.orderMap && c.entries[o.id] == o
    ensures o.price in (if o.side == Bid then s.bidLevels else s.askLevels)
    ensures Agree(AfterRemove(s, order), WithoutOrder(c, o), marketId, outcome)
    ensures WithoutOrder(c, o).entries == c.entries - {o.id}
  {
    hide SideConsistent, EntriesConsistent, UsersConsistent, LevelsLinked;
    hide StrictlySorted, WithoutUserOrder, RecordsAfterDrop, Drop, LevelsWithout, Remove, WithoutPrice;
    EntriesRemove(c, marketId, outcome, o);
    OtherSideIds(c, marketId, outcome, o);
    UsersRemove(s.userOrders, c.entries, o);
    if o.side == Bid {
      SideRemove(Bid, c.bids, c.bidLevels, s.bidPrices, o);
      LinkedDrop(Bid, c.bids, c.bidLevels, s.bidPrices, s.bidLevels, s.orderMap, order, o);
      LevelMembers(Ask, c.asks, c.askLevels, s.askPrices);
      LinkedSmaller(s.askLevels, c.askLevels, s.orderMap, o.id);
    } else {
      SideRemove(Ask, c.asks, c.askLevels, s.askPrices, o);
      LinkedDrop(Ask, c.asks, c.askLevels, s.askPrices, s.askLevels, s.orderMap, order, o);
      LevelMembers(Bid, c.bids, c.bidLevels, s.bidPrices);
      LinkedSmaller(s.bidLevels, c.bidLevels, s.orderMap, o.id);
    }
  }

  // ---------------------------------------------------------- partial fills

  ghost function WithQuantity(c: Contents, o: Order, q: int): Contents {
    var o' := o.(quantity := q);
    if o.side == Bid then
      c.(bids := Requantify(c.bids, o.id, q), bidLevels := LevelsRequantified(c.bidLevels, o, q),
         entries := c.entries[o.id := o'])
    else
      c.(asks := Requantify(c.asks, o.id, q), askLevels := LevelsRequantified(c.askLevels, o, q),
         entries := c.entries[o.id := o'])
  }

  ghost function LevelsRequantified(levels: Levels, o: Order, q: int): Levels {
    levels[o.price := Requantify(LevelAt(levels, o.price), o.id, q)]
  }

  lemma RequantifyInside(side: Side, s: seq<Order>, o: Order, q: int)
    requires Sorted(side, s) && DistinctIds(s) && o in s
    ensures Sorted(side, Requantify(s, o.id, q)) && DistinctIds(Requantify(s, o.id, q))
    ensures forall x :: x in Requantify(s, o.id, q) <==> x == o.(quantity := q) || (x in s && x.id != o.id)
  {
    var r := Requantify(s, o.id, q);
    RequantifyShape(s, o.id, q);
    var k :| 0 <= k < |s| && s[k] == o;
    assert forall i :: 0 <= i < |s| ==> r[i] == if i == k then o.(quantity := q) else s[i];
    forall x ensures x in r <==> x == o.(quantity := q) || (x in s && x.id != o.id) {
      assert r[k] == o.(quantity := q);
      if x in s && x.id != o.id {
        var i :| 0 <= i < |s| && s[i] == x;
        assert r[i] == x;
      }
    }
  }

  lemma LevelsAfterRequantify(side: Side, s: seq<Order>, levels: Levels, prices: seq<int>, o: Order, q: int, p: int)
    requires SideConsistent(side, s, levels, prices) && o in s
    ensures AtPrice(Requantify(s, o.id, q), p) == LevelAt(LevelsRequantified(levels, o, q), p)
  {
    assert AtPrice(s, p) == LevelAt(levels, p) && DistinctIds(s);
    hide SideConsistent, AtPrice, Requantify, DistinctIds;
    RequantifyAtPrice(s, o.id, q, p);
    if p != o.price {
      OtherLevel(s, o, p);
    }
  }

  lemma SideRequantify(side: Side, s: seq<Order>, levels: Levels, prices: seq<int>, o: Order, q: int)
    requires SideConsistent(side, s, levels, prices) && o in s
    ensures SideConsistent(side, Requantify(s, o.id, q), LevelsRequantified(levels, o, q), prices)
    ensures o.price in levels && o in levels[o.price]
  {
    LevelMembers(side, s, levels, prices);
    hide AtPrice, Requantify, StrictlySorted, Sorted, DistinctIds;
    RequantifyShape(levels[o.price], o.id, q);
    RequantifyInside(side, s, o, q);
    RequantifiedLevels(side, s, levels, prices, o, q);
  }

  lemma RequantifiedLevels(side: Side, s: seq<Order>, levels: Levels, prices: seq<int>, o: Order, q: int)
    requires SideConsistent(side, s, levels, prices) && o in s
    ensures forall p :: AtPrice(Requantify(s, o.id, q), p) == LevelAt(LevelsRequantified(levels, o, q), p)
  {
    hide SideConsistent, AtPrice, Requantify, LevelAt, LevelsRequantified;
    forall p ensures AtPrice(Requantify(s, o.id, q), p) == LevelAt(LevelsRequantified(levels, o, q), p) {
      LevelsAfterRequantify(side, s, levels, prices, o, q, p);
    }
  }

  lemma EntriesReplace(c: Contents, c': Contents, marketId: string, outcome: nat, o: Order, o': Order)
    requires EntriesConsistent(c, marketId, outcome)
    requires o.id in c.entries && c.entries[o.id] == o && o' == o.(quantity := o'.quantity)
    requires c'.entries == c.entries[o.id := o']
    requires forall x :: x in c'.bids <==>
      if o.side == Bid then x == o' || (x in c.bids && x.id != o.id) else x in c.bids
    requires forall x :: x in c'.asks <==>
      if o.side == Ask then x == o' || (x in c.asks && x.id != o.id) else x in c.asks
    ensures EntriesConsistent(c', marketId, outcome)
  {
    forall id | id in c'.entries
      ensures c'.entries[id].id == id
      ensures c'.entries[id].marketId == marketId && c'.entries[id].outcome == outcome
      ensures c'.entries[id] in (if c'.entries[id].side == Bid then c'.bids else c'.asks)
    {
      var x := if id == o.id then o else c.entries[id];
      assert x.id == id && x.marketId == marketId && x.outcome == outcome;
      assert x in (if x.side == Bid then c.bids else c.asks);
    }
    forall x | x in c'.bids ensures x.side == Bid && x.id in c'.entries && c'.entries[x.id] == x {
      assert x == o' || x in c.bids;
    }
    forall x | x in c'.asks ensures x.side == Ask && x.id in c'.entries && c'.entries[x.id] == x {
      assert x == o' || x in c.asks;
    }
  }

  lemma EntriesRequantify(s: Structures, c: Contents, marketId: string, outcome: nat, o: Order, q: int)
    requires Agree(s, c, marketId, outcome)
    requires o.id in c.entries && c.entries[o.id] == o
    ensures EntriesConsistent(WithQuantity(c, o, q), marketId, outcome)
    ensures o in (if o.side == Bid then c.bids else c.asks)
  {
    RequantifyInside(o.side, if o.side == Bid then c.bids else c.asks, o, q);
    hide Requantify, LevelsRequantified, Sorted, DistinctIds, AtPrice, SideConsistent, LevelsLinked, UsersConsistent;
    EntriesReplace(c, WithQuantity(c, o, q), marketId, outcome, o, o.(quantity := q));
  }

  lemma UsersRequantify(users: map<string, set<string>>, entries: map<string, Order>, o: Order, q: int)
    requires UsersConsistent(users, entries) && o.id in entries && entries[o.id] == o
    ensures UsersConsistent(users, entries[o.id := o.(quantity := q)])
  {
  }

  lemma LinkedRequantify(side: Side, s: seq<Order>, levels: Levels, prices: seq<int>, records: map<int, PriceLevel>,
                         index: map<string, BookOrder>, o: Order, q: int)
    requires SideConsistent(side, s, levels, prices) && o in s
    requires LevelsLinked(records, levels, index)
    ensures o.price in records
    ensures LevelsLinked(records[o.price := Revalue(records[o.price], q - o.quantity)],
                         LevelsRequantified(levels, o, q), index)
  {
    LevelMembers(side, s, levels, prices);
    LevelDistinct(s, o.price);
    assert AtPrice(s, o.price) == levels[o.price];
    hide SideConsistent, AtPrice, Sum, Requantify;
    assert records[o.price].Holds(o.price, levels[o.price], index);
    RevalueHolds(records[o.price], o.price, levels[o.price], index, o, q);
    forall p | p in levels && p != o.price ensures records[p].Holds(p, levels[p], index) {
    }
  }

  lemma RevalueHolds(record: PriceLevel, p: int, level: seq<Order>, index: map<string, BookOrder>, o: Order, q: int)
    requires record.Holds(p, level, index) && o in level && DistinctIds(level)
    ensures Revalue(record, q - o.quantity).Holds(p, Requantify(level, o.id, q), index)
    ensures Requantify(level, o.id, q) != []
  {
    var k :| 0 <= k < |level| && level[k] == o;
    RequantifySum(level, k, q);
    RequantifyShape(level, o.id, q);
  }

  function Revalue(level: PriceLevel, delta: int): PriceLevel {
    level.(totalQuantity := level.totalQuantity + delta)
  }

  ghost function AfterRequantify(s: Structures, o: Order, q: int): Structures
    requires o.price in (if o.side == Bid then s.bidLevels else s.askLevels)
  {
    if o.side == Bid then s.(bidLevels := s.bidLevels[o.price := Revalue(s.bidLevels[o.price], q - o.quantity)])
    else s.(askLevels := s.askLevels[o.price := Revalue(s.askLevels[o.price], q - o.quantity)])
  }

  lemma RequantifyAgrees(s: Structures, c: Contents, marketId: string, outcome: nat, o: Order, q: int)
    requires Agree(s, c, marketId, outcome)
    requires o.id in s.orderMap && c.entries[o.id] == o
    ensures o.price in (if o.side == Bid then s.bidLevels else s.askLevels)
    ensures Agree(AfterRequantify(s, o, q), WithQuantity(c, o, q), marketId, outcome)
    ensures WithQuantity(c, o, q).entries == c.entries[o.id := o.(quantity := q)]
  {
    hide SideConsistent, EntriesConsistent, UsersConsistent, LevelsLinked, LevelsRequantified, Requantify, Revalue;
    EntriesRequantify(s, c, marketId, outcome, o, q);
    UsersRequantify(s.userOrders, c.entries, o, q);
    if o.side == Bid {
      SideRequantify(Bid, c.bids, c.bidLevels, s.bidPrices, o, q);
      LinkedRequantify(Bid, c.bids, c.bidLevels, s.bidPrices, s.bidLevels, s.orderMap, o, q);
    } else {
      SideRequantify(Ask, c.asks, c.askLevels, s.askPrices, o, q);
      LinkedRequantify(Ask, c.asks, c.askLevels, s.askPrices, s.askLevels, s.orderMap, o, q);
    }
  }

  lemma SideLists(s: Structures, c: Contents, marketId: string, outcome: nat)
    requires Agree(s, c, marketId, outcome)
    ensures Sorted(Bid, c.bids) && DistinctIds(c.bids) && Sorted(Ask, c.asks) && DistinctIds(c.asks)
    ensures forall o :: o in c.bids ==> o.side == Bid && o.id in c.entries && c.entries[o.id] == o
    ensures forall o :: o in c.asks ==> o.side == Ask && o.id in c.entries && c.entries[o.id] == o
  {
  }

  lemma IdsKnown(s: Structures, c: Contents, marketId: string, outcome: nat)
    requires Agree(s, c, marketId, outcome)
    ensures IdsOk(s.orderMap)
  {
  }

  // ---------------------------------------------------------------- queries

  lemma BestRecord(side: Side, s: seq<Order>, levels: Levels, prices: seq<int>, records: map<int, PriceLevel>,
                   index: map<string, BookOrder>)
    requires SideConsistent(side, s, levels, prices) && LevelsLinked(records, levels, index)
    ensures prices == [] <==> s == []
    ensures s != [] ==>
      && prices[0] in records && records[prices[0]].orders != []
      && s[0].id in index && records[prices[0]].orders[0] == index[s[0].id]
  {
    BestPrice(side, s, levels, prices);
    if s != [] {
      assert records[prices[0]].Holds(prices[0], levels[prices[0]], index);
    }
  }

  lemma PricesOfSide(side: Side, s: seq<Order>, levels: Levels, prices: seq<int>)
    requires SideConsistent(side, s, levels, prices)
    ensures prices == Prices(s)
  {
    PricesSorted(side, s);
    forall p ensures p in prices <==> p in Prices(s) {
      assert AtPrice(s, p) == LevelAt(levels, p);
    }
    StrictlySortedUnique(side, prices, Prices(s));
  }

  lemma RecordDepth(side: Side, s: seq<Order>, levels: Levels, prices: seq<int>, records: map<int, PriceLevel>,
                    index: map<string, BookOrder>, i: nat)
    requires SideConsistent(side, s, levels, prices) && LevelsLinked(records, levels, index) && i < |prices|
    ensures |DepthOf(s)| == |prices|
    ensures prices[i] in records
    ensures var l := records[prices[i]]; DepthLevel(l.price, l.totalQuantity, |l.orders|) == DepthOf(s)[i]
  {
    PricesOfSide(side, s, levels, prices);
    var p := prices[i];
    assert AtPrice(s, p) == LevelAt(levels, p);
    assert records[p].Holds(p, levels[p], index);
  }

  /** The levels of these prices, one after the other. */
  ghost function Flatten(levels: Levels, prices: seq<int>): seq<Order> {
    if prices == [] then [] else Flatten(levels, prices[..|prices| - 1]) + LevelAt(levels, prices[|prices| - 1])
  }

  lemma {:induction false} AllAtPrice(s: seq<Order>, q: int, p: int)
    requires forall o :: o in s ==> o.price == q
    ensures AtPrice(s, p) == if p == q then s else []
  {
    if s != [] {
      AllAtPrice(s[1..], q, p);
      assert s == [s[0]] + s[1..];
    }
  }

  /** Each level stands once. */
  lemma {:induction false} FlattenAtPrice(side: Side, levels: Levels, prices: seq<int>, p: int)
    requires StrictlySorted(side, prices) && forall q, o :: q in levels && o in levels[q] ==> o.price == q
    ensures AtPrice(Flatten(levels, prices), p) == if p in prices then LevelAt(levels, p) else []
  {
    if prices != [] {
      var before, q := prices[..|prices| - 1], prices[|prices| - 1];
      assert prices == before + [q];
      assert q !in before;
      FlattenAtPrice(side, levels, before, p);
      AllAtPrice(LevelAt(levels, q), q, p);
      AtPriceConcat(Flatten(levels, before), LevelAt(levels, q), p);
      hide AtPrice, StrictlySorted;
    }
  }

  /** The levels stand in the order of the prices. */
  lemma {:induction false} FlattenSorted(side: Side, levels: Levels, prices: seq<int>)
    requires StrictlySorted(side, prices) && forall q, o :: q in levels && o in levels[q] ==> o.price == q
    ensures Sorted(side, Flatten(levels, prices))
    ensures forall o :: o in Flatten(levels, prices) ==> o.price in prices
  {
    if prices != [] {
      var before, q := prices[..|prices| - 1], prices[|prices| - 1];
      assert prices == before + [q];
      FlattenSorted(side, levels, before);
      AppendLevel(side, Flatten(levels, before), LevelAt(levels, q), q);
      hide Sorted;
    }
  }

  lemma AppendLevel(side: Side, s: seq<Order>, level: seq<Order>, q: int)
    requires Sorted(side, s) && (forall o :: o in s ==> Better(side, o.price, q)) && forall o :: o in level ==>
      o.price == q
    ensures Sorted(side, s + level)
  {
    var r := s + level;
    forall i, j | 0 <= i < j < |r| ensures !Better(side, r[j].price, r[i].price) {
      assert j >= |s| ==> r[j] in level;
      assert i >= |s| ==> r[i] in level;
      assert i < |s| ==> r[i] in s;
    }
  }

  /** The levels in price order are the priority list. */
  lemma FlattenIsList(side: Side, s: seq<Order>, levels: Levels, prices: seq<int>)
    requires SideConsistent(side, s, levels, prices)
    ensures Flatten(levels, prices) == s
  {
    LevelMembers(side, s, levels, prices);
    FlattenSorted(side, levels, prices);
    forall p ensures AtPrice(Flatten(levels, prices), p) == AtPrice(s, p) {
      FlattenAtPrice(side, levels, prices, p);
      assert AtPrice(s, p) == LevelAt(levels, p);
    }
    Canonical(side, Flatten(levels, prices), s);
  }

  /** The orders with the ids that are no longer left, each once. */
  ghost predicate Gathered(orders: seq<BookOrder>, all: set<string>, left: set<string>, index: map<string, BookOrder>) {
    && (forall o :: o in orders ==> o.id in all && o.id !in left && o.id in index && index[o.id] == o)
    && (forall i, j :: 0 <= i < j < |orders| ==> orders[i].id != orders[j].id)
    && (forall id :: id in all && id !in left ==> id in index && index[id] in orders)
  }

  lemma NothingGathered(all: set<string>, index: map<string, BookOrder>)
    ensures Gathered([], all, all, index)
  {
  }

  lemma GatherOne(orders: seq<BookOrder>, all: set<string>, left: set<string>, index: map<string, BookOrder>,
                  id: string)
    requires Gathered(orders, all, left, index) && id in left && id in all && id in index && index[id].id == id
    ensures Gathered(orders + [index[id]], all, left - {id}, index)
  {
    var more := orders + [index[id]];
    forall i | 0 <= i < |orders| ensures orders[i].id != id {
      assert orders[i] in orders;
    }
    forall x | x in all && x !in left - {id} ensures x in index && index[x] in more {
      assert x == id || index[x] in orders;
    }
  }

  /** These objects are these orders, by the id map. */
  ghost predicate Listed(orders: seq<BookOrder>, s: seq<Order>, index: map<string, BookOrder>) {
    && |orders| == |s|
    && forall i :: 0 <= i < |s| ==> s[i].id in index && orders[i] == index[s[i].id]
  }

  lemma FlattenNext(levels: Levels, prices: seq<int>, records: map<int, PriceLevel>, index: map<string, BookOrder>,
                    i: nat, orders: seq<BookOrder>)
    requires i < |prices| && prices[i] in levels && LevelsLinked(records, levels, index)
    requires Listed(orders, Flatten(levels, prices[..i]), index)
    ensures Listed(orders + records[prices[i]].orders, Flatten(levels, prices[..i + 1]), index)
  {
    assert prices[..i + 1][..i] == prices[..i];
    assert records[prices[i]].Holds(prices[i], levels[prices[i]], index);
  }

  lemma LinkedKeys(records: map<int, PriceLevel>, levels: Levels, index: map<string, BookOrder>)
    requires LevelsLinked(records, levels, index)
    ensures records.Keys == levels.Keys
  {
  }

  lemma SideParts(s: Structures, c: Contents, marketId: string, outcome: nat)
    requires Agree(s, c, marketId, outcome)
    ensures SideConsistent(Bid, c.bids, c.bidLevels, s.bidPrices)
    ensures SideConsistent(Ask, c.asks, c.askLevels, s.askPrices)
    ensures s.bidLevels.Keys == c.bidLevels.Keys && s.askLevels.Keys == c.askLevels.Keys
  {
  }

  lemma NothingListed(levels: Levels, prices: seq<int>, index: map<string, BookOrder>)
    ensures Listed([], Flatten(levels, prices[..0]), index)
  {
  }

  ghost predicate RecordsShow(records: map<int, PriceLevel>, prices: seq<int>, all: seq<DepthLevel>) {
    && |all| == |prices|
    && forall i :: 0 <= i < |prices| ==>
         && prices[i] in records
         && var l := records[prices[i]]; all[i] == DepthLevel(l.price, l.totalQuantity, |l.orders|)
  }

  lemma RecordDepths(side: Side, s: seq<Order>, levels: Levels, prices: seq<int>, records: map<int, PriceLevel>,
                     index: map<string, BookOrder>)
    requires SideConsistent(side, s, levels, prices) && LevelsLinked(records, levels, index)
    ensures RecordsShow(records, prices, DepthOf(s))
  {
    PricesOfSide(side, s, levels, prices);
    assert |DepthOf(s)| == |prices|;
    hide SideConsistent, LevelsLinked, DepthOf;
    forall i | 0 <= i < |prices|
      ensures prices[i] in records
      ensures var l := records[prices[i]]; DepthOf(s)[i] == DepthLevel(l.price, l.totalQuantity, |l.orders|)
    {
      RecordDepth(side, s, levels, prices, records, index, i);
    }
  }

  ghost function Ids(s: seq<Order>): set<string> {
    set o | o in s :: o.id
  }

  lemma TailDistinct(s: seq<Order>)
    requires DistinctIds(s) && s != []
    ensures DistinctIds(s[1..]) && Ids(s) == {s[0].id} + Ids(s[1..]) && s[0].id !in Ids(s[1..])
  {
    forall o | o in s[1..] ensures o.id != s[0].id {
      var i :| 0 <= i < |s[1..]| && s[1..][i] == o;
      assert s[i + 1] == o;
    }
    assert forall o :: o in s <==> o == s[0] || o in s[1..];
  }

  lemma {:induction false} IdsCount(s: seq<Order>)
    requires DistinctIds(s)
    ensures |Ids(s)| == |s|
  {
    if s == [] {
      assert Ids(s) == {};
    } else {
      TailDistinct(s);
      IdsCount(s[1..]);
      hide Ids, DistinctIds;
      assert |Ids(s)| == 1 + |Ids(s[1..])|;
    }
  }

  lemma EntryCount(s: Structures, c: Contents, marketId: string, outcome: nat)
    requires Agree(s, c, marketId, outcome)
    ensures |s.orderMap| == |c.bids| + |c.asks|
  {
    IdsCount(c.bids);
    IdsCount(c.asks);
    KeysAreIds(c, marketId, outcome);
    assert s.orderMap.Keys == Ids(c.bids) + Ids(c.asks);
    assert |s.orderMap| == |s.orderMap.Keys|;
  }

  lemma KeysAreIds(c: Contents, marketId: string, outcome: nat)
    requires EntriesConsistent(c, marketId, outcome)
    ensures c.entries.Keys == Ids(c.bids) + Ids(c.asks)
    ensures Ids(c.bids) !! Ids(c.asks)
  {
    forall id | id in c.entries ensures id in Ids(c.bids) + Ids(c.asks) {
      assert c.entries[id] in (if c.entries[id].side == Bid then c.bids else c.asks);
    }
    forall id | id in Ids(c.bids) ensures id in c.entries && c.entries[id].side == Bid {
    }
    forall id | id in Ids(c.asks) ensures id in c.entries && c.entries[id].side == Ask {
    }
  }

  lemma EntryOf(s: Structures, c: Contents, marketId: string, outcome: nat, order: BookOrder)
    requires Agree(s, c, marketId, outcome) && EntriesLinked(s.orderMap, c.entries)
    requires order.id in s.orderMap && s.orderMap[order.id] == order
    ensures order.id in c.entries && c.entries[order.id] == order.Value()
  {
  }

  class OrderBook {
    const marketId: string
    const outcome: nat
    var bidLevels: map<int, PriceLevel>
    var askLevels: map<int, PriceLevel>
    var bidPrices: seq<int>
    var askPrices: seq<int>
    var orderMap: map<string, BookOrder>
    var userOrders: map<string, set<string>>
    ghost var contents: Contents

    ghost function State(): Structures
      reads this
    {
      Structures(bidLevels, askLevels, bidPrices, askPrices, orderMap, userOrders)
    }

    ghost predicate Valid()
      reads this, Orders(orderMap)
    {
      && Agree(State(), contents, marketId, outcome)
      && EntriesLinked(orderMap, contents.entries)
    }

    ghost function View(side: Side): seq<Order>
      reads this
    {
      if side == Bid then contents.bids else contents.asks
    }

    ghost function Bids(): seq<Order>
      reads this
    {
      contents.bids
    }

    ghost function Asks(): seq<Order>
      reads this
    {
      contents.asks
    }

    constructor (marketId: string, outcome: nat)
      ensures Valid() && Bids() == [] && Asks() == [] && orderMap == map[]
      ensures this.marketId == marketId && this.outcome == outcome
    {
      this.marketId, this.outcome := marketId, outcome;
      bidLevels, askLevels, bidPrices, askPrices := map[], map[], [], [];
      orderMap, userOrders := map[], map[];
      contents := Contents([], [], map[], map[], map[]);
    }

    lemma KnownById(id: string)
      requires Valid() && id in orderMap
      ensures orderMap[id].id == id && id in contents.entries && contents.entries[id] == orderMap[id].Value()
    {
    }

    /** Binary search for the first price that does not come before the new one. */
    method InsertPrice(prices: seq<int>, price: int, descending: bool) returns (r: seq<int>)
      requires StrictlySorted(if descending then Bid else Ask, prices)
      ensures price !in prices ==> StrictlySorted(if descending then Bid else Ask, r)
      ensures forall p :: p in r <==> p in prices || p == price
      ensures |r| == |prices| + 1
    {
      ghost var side := if descending then Bid else Ask;
      var left, right := 0, |prices|;
      while left < right
        invariant 0 <= left <= right <= |prices|
        invariant forall k :: 0 <= k < left ==> Better(side, prices[k], price)
        invariant forall k :: right <= k < |prices| ==> !Better(side, prices[k], price)
      {
        var mid := (left + right) / 2;
        var comparison := if descending then prices[mid] > price else prices[mid] < price;
        if comparison {
          left := mid + 1;
        } else {
          right := mid;
        }
      }
      r := prices[..left] + [price] + prices[left..];
      SplicePrice(side, prices, price, left);
    }

    /** A price without a level is new to the price list. */
    method EnsurePrice(levels: map<int, PriceLevel>, prices: seq<int>, price: int,
                       descending: bool) returns (r: seq<int>)
      requires StrictlySorted(if descending then Bid else Ask, prices) && forall p :: p in prices <==> p in levels
      ensures StrictlySorted(if descending then Bid else Ask, r) && forall p :: p in r <==> p in prices || p == price
    {
      r := prices;
      if price !in levels {
        r := InsertPrice(prices, price, descending);
      }
    }

    /** Put a new order in its level, the id map and the user index. */
    method Place(order: BookOrder)
      requires Valid() && order.marketId == marketId && order.outcome == outcome && order.id !in orderMap
      modifies this
      ensures Valid()
      ensures orderMap == old(orderMap)[order.id := order]
      ensures contents == WithOrder(old(contents), order.Value())
    {
      hide Agree, StrictlySorted, WithOrder, WithUserOrder, LevelOrNew, Push, Better, Insert, LevelsWith;
      SideKeys(State(), contents, marketId, outcome);
      var levels := if order.side == Bid then bidLevels else askLevels;
      var prices := if order.side == Bid then bidPrices else askPrices;
      prices := EnsurePrice(levels, prices, order.price, order.side == Bid);
      levels := levels[order.price := Push(LevelOrNew(levels, order.price), order)];
      ghost var o, c := order.Value(), contents;
      AddAgrees(State(), c, marketId, outcome, order, o, prices);
      if order.side == Bid {
        bidLevels, bidPrices := levels, prices;
      } else {
        askLevels, askPrices := levels, prices;
      }
      orderMap := orderMap[order.id := order];
      userOrders := WithUserOrder(userOrders, order.userAddress, order.id);
      contents := WithOrder(c, o);
    }

    method AddOrder(order: BookOrder) returns (r: Result<(), BookError>)
      requires Valid()
      modifies this
      ensures Valid()
      ensures r == if order.marketId != marketId || order.outcome != outcome then Err(WrongBook)
                   else if order.id in old(orderMap) then Err(DuplicateOrder)
                   else Ok(())
      ensures r.Err? ==> unchanged(this)
      ensures r.Ok? ==> orderMap == old(orderMap)[order.id := order]
      ensures r.Ok? ==> contents == WithOrder(old(contents), order.Value())
    {
      if order.marketId != marketId || order.outcome != outcome {
        return Err(WrongBook);
      }
      if order.id in orderMap {
        return Err(DuplicateOrder);
      }
      Place(order);
      r := Ok(());
    }

    /** Take a resting order out of its level, the id map and the user index. */
    method Take(order: BookOrder)
      requires Valid() && order.id in orderMap && orderMap[order.id] == order
      modifies this
      ensures Valid()
      ensures orderMap == old(orderMap) - {order.id}
      ensures contents == WithoutOrder(old(contents), order.Value())
    {
      hide Agree, WithoutOrder, WithoutUserOrder, Drop, WithoutPrice;
      ghost var o, c, s := order.Value(), contents, State();
      EntryOf(s, c, marketId, outcome, order);
      RemoveAgrees(s, c, marketId, outcome, order, o);
      var levels := if order.side == Bid then bidLevels else askLevels;
      var prices := if order.side == Bid then bidPrices else askPrices;
      var level := Drop(levels[order.price], order);
      if level.orders == [] {
        levels, prices := levels - {order.price}, WithoutPrice(prices, order.price);
      } else {
        levels := levels[order.price := level];
      }
      if order.side == Bid {
        bidLevels, bidPrices := levels, prices;
      } else {
        askLevels, askPrices := levels, prices;
      }
      orderMap := orderMap - {order.id};
      userOrders := WithoutUserOrder(userOrders, order.userAddress, order.id);
      contents := WithoutOrder(c, o);
    }

    method RemoveOrder(orderId: string) returns (r: BookOrder?)
      requires Valid()
      modifies this
      ensures Valid()
      ensures orderId !in old(orderMap) ==> r == null && unchanged(this)
      ensures orderId in old(orderMap) ==>
        && r == old(orderMap)[orderId] && orderMap == old(orderMap) - {orderId}
        && contents == WithoutOrder(old(contents), r.Value())
    {
      r := null;
      if orderId in orderMap {
        r := orderMap[orderId];
        KnownById(orderId);
        Take(r);
      }
    }

    /** Change the quantity of a resting order in place: through the shared order object, and in
        the total of its level. */
    method Requantity(order: BookOrder, newQuantity: int)
      requires Valid() && order.id in orderMap && orderMap[order.id] == order
      modifies this, order
      ensures Valid()
      ensures orderMap == old(orderMap) && userOrders == old(userOrders)
      ensures bidPrices == old(bidPrices) && askPrices == old(askPrices)
      ensures contents == WithQuantity(old(contents), old(order.Value()), newQuantity)
    {
      hide Agree, WithQuantity;
      ghost var o, c, s := order.Value(), contents, State();
      EntryOf(s, c, marketId, outcome, order);
      RequantifyAgrees(s, c, marketId, outcome, o, newQuantity);
      IdsKnown(s, c, marketId, outcome);
      var quantityDelta := newQuantity - order.quantity;
      if order.side == Bid {
        bidLevels := bidLevels[order.price := Revalue(bidLevels[order.price], quantityDelta)];
      } else {
        askLevels := askLevels[order.price := Revalue(askLevels[order.price], quantityDelta)];
      }
      order.quantity := newQuantity;
      contents := WithQuantity(c, o, newQuantity);
    }

    method UpdateOrderQuantity(orderId: string, newQuantity: int) returns (r: Result<bool, BookError>)
      requires Valid()
      modifies this, if orderId in orderMap then {orderMap[orderId]} else {}
      ensures Valid()
      ensures r == if orderId !in old(orderMap) then Ok(false)
                   else if newQuantity < 0 then Err(NegativeQuantity) else Ok(true)
      ensures r != Ok(true) ==>
        unchanged(this) && forall id :: id in orderMap ==> orderMap[id].Value() == old(orderMap[id].Value())
      ensures r == Ok(true) && newQuantity == 0 ==>
        orderMap == old(orderMap) - {orderId} && contents == WithoutOrder(old(contents), old(orderMap[orderId].Value()))
      ensures r == Ok(true) && newQuantity != 0 ==>
        && orderMap == old(orderMap)
        && contents == WithQuantity(old(contents), old(orderMap[orderId].Value()), newQuantity)
    {
      hide Agree, WithQuantity, WithoutOrder;
      if orderId !in orderMap {
        r := Ok(false);
      } else if newQuantity < 0 {
        r := Err(NegativeQuantity);
      } else if newQuantity == 0 {
        var removed := RemoveOrder(orderId);
        r := Ok(true);
      } else {
        KnownById(orderId);
        Requantity(orderMap[orderId], newQuantity);
        r := Ok(true);
      }
    }

    method GetBestBid() returns (r: BookOrder?)
      requires Valid()
      ensures r == null <==> Bids() == []
      ensures r != null ==> r.id in orderMap && orderMap[r.id] == r && r.Value() == Bids()[0]
    {
      BestRecord(Bid, contents.bids, contents.bidLevels, bidPrices, bidLevels, orderMap);
      SideLists(State(), contents, marketId, outcome);
      hide Agree;
      if bidPrices == [] {
        r := null;
      } else {
        KnownById(Bids()[0].id);
        r := bidLevels[bidPrices[0]].orders[0];
      }
    }

    method GetBestAsk() returns (r: BookOrder?)
      requires Valid()
      ensures r == null <==> Asks() == []
      ensures r != null ==> r.id in orderMap && orderMap[r.id] == r && r.Value() == Asks()[0]
    {
      BestRecord(Ask, contents.asks, contents.askLevels, askPrices, askLevels, orderMap);
      SideLists(State(), contents, marketId, outcome);
      hide Agree;
      if askPrices == [] {
        r := null;
      } else {
        KnownById(Asks()[0].id);
        r := askLevels[askPrices[0]].orders[0];
      }
    }

    /** Exactly the resting orders of one user. */
    method GetOrdersByUser(user: string) returns (orders: seq<BookOrder>)
      requires Valid()
      ensures forall o :: o in orders ==> o.id in orderMap && orderMap[o.id] == o
      ensures forall i, j :: 0 <= i < j < |orders| ==> orders[i].id != orders[j].id
      ensures forall x :: x in Bids() + Asks() && x.userAddress == user <==> exists o :: o in orders && o.Value() == x
    {
      orders := [];
      if user in userOrders {
        orders := OrdersWithIds(user, userOrders[user]);
      }
      OrdersOfUser(user, orders);
    }

    /** The orders with these ids, each once. */
    method OrdersWithIds(user: string, all: set<string>) returns (orders: seq<BookOrder>)
      requires Valid() && user in userOrders && all == userOrders[user]
      ensures Gathered(orders, all, {}, orderMap)
    {
      forall id | id in all ensures id in orderMap && orderMap[id].id == id {
        KnownByUser(user, id);
      }
      hide Agree, EntriesLinked, Gathered;
      orders := [];
      var ids := all;
      NothingGathered(all, orderMap);
      while ids != {}
        invariant ids <= all && Gathered(orders, all, ids, orderMap)
        decreases |ids|
      {
        var id :| id in ids;
        GatherOne(orders, all, ids, orderMap, id);
        orders := orders + [orderMap[id]];
        ids := ids - {id};
      }
    }

    lemma KnownByUser(user: string, id: string)
      requires Valid() && user in userOrders && id in userOrders[user]
      ensures id in orderMap && orderMap[id].id == id && orderMap[id].userAddress == user
    {
      assert id in contents.entries;
      KnownById(id);
    }

    lemma OrdersOfUser(user: string, orders: seq<BookOrder>)
      requires Valid()
      requires user !in userOrders ==> orders == []
      requires user in userOrders ==>
        Gathered(orders, userOrders[user], {}, orderMap)
      ensures forall o :: o in orders ==> o.id in orderMap && orderMap[o.id] == o
      ensures forall i, j :: 0 <= i < j < |orders| ==> orders[i].id != orders[j].id
      ensures forall x :: x in Bids() + Asks() && x.userAddress == user <==> exists o :: o in orders && o.Value() == x
    {
      forall x | x in Bids() + Asks() && x.userAddress == user ensures exists o :: o in orders && o.Value() == x {
        assert x.id in contents.entries && contents.entries[x.id] == x;
        assert x.id in userOrders[user];
        KnownById(x.id);
        assert orderMap[x.id] in orders;
      }
      forall o | o in orders ensures o.Value() in Bids() + Asks() && o.userAddress == user {
        KnownByUser(user, o.id);
        KnownById(o.id);
      }
    }

    /** The orders of one side, level by level, each level first in first out. */
    method IterateOrders(side: Side) returns (orders: seq<BookOrder>)
      requires Valid()
      ensures |orders| == |View(side)|
      ensures forall i :: 0 <= i < |orders| ==> orders[i].Value() == View(side)[i]
    {
      ghost var sideLevels := if side == Bid then contents.bidLevels else contents.askLevels;
      SideKeys(State(), contents, marketId, outcome);
      ListedOrders(side);
      SideParts(State(), contents, marketId, outcome);
      hide Agree, Flatten, LevelsLinked, StrictlySorted, SideConsistent;
      if side == Bid {
        FlattenIsList(Bid, contents.bids, contents.bidLevels, bidPrices);
        orders := IterateLevels(bidPrices, bidLevels, sideLevels);
      } else {
        FlattenIsList(Ask, contents.asks, contents.askLevels, askPrices);
        orders := IterateLevels(askPrices, askLevels, sideLevels);
      }
    }

    method IterateLevels(prices: seq<int>, records: map<int, PriceLevel>,
                         ghost levels: Levels) returns (orders: seq<BookOrder>)
      requires LevelsLinked(records, levels, orderMap) && forall p :: p in prices ==> p in levels
      ensures Listed(orders, Flatten(levels, prices), orderMap)
    {
      orders := [];
      NothingListed(levels, prices, orderMap);
      hide Flatten, LevelsLinked, Listed;
      var i := 0;
      assert records.Keys == levels.Keys by {
        LinkedKeys(records, levels, orderMap);
      }
      while i < |prices|
        invariant 0 <= i <= |prices|
        invariant Listed(orders, Flatten(levels, prices[..i]), orderMap)
      {
        var price := prices[i];
        assert price in prices;
        FlattenNext(levels, prices, records, orderMap, i, orders);
        orders := orders + records[price].orders;
        i := i + 1;
      }
      assert prices[..|prices|] == prices;
    }

    lemma ListedOrders(side: Side)
      requires Valid()
      ensures LevelsLinked(if side == Bid then bidLevels else askLevels,
                           if side == Bid then contents.bidLevels else contents.askLevels, orderMap)
      ensures forall i :: 0 <= i < |View(side)| ==>
        View(side)[i].id in orderMap && orderMap[View(side)[i].id].Value() == View(side)[i]
    {
      SideLists(State(), contents, marketId, outcome);
    }

    method GetDepth(levels: int) returns (depth: (seq<DepthLevel>, seq<DepthLevel>))
      requires Valid()
      ensures |DepthOf(Bids())| == |bidPrices| && |DepthOf(Asks())| == |askPrices|
      ensures depth.0 == DepthOf(Bids())[..Max(0, Min(levels, |bidPrices|))]
      ensures depth.1 == DepthOf(Asks())[..Max(0, Min(levels, |askPrices|))]
    {
      RecordDepths(Bid, contents.bids, contents.bidLevels, bidPrices, bidLevels, orderMap);
      RecordDepths(Ask, contents.asks, contents.askLevels, askPrices, askLevels, orderMap);
      hide SideConsistent, LevelsLinked, DepthOf, Agree;
      var bids := SideDepth(bidPrices, bidLevels, levels, DepthOf(Bids()));
      var asks := SideDepth(askPrices, askLevels, levels, DepthOf(Asks()));
      depth := (bids, asks);
    }

    method SideDepth(prices: seq<int>, records: map<int, PriceLevel>, levels: int, ghost all: seq<DepthLevel>)
      returns (depth: seq<DepthLevel>)
      requires RecordsShow(records, prices, all)
      ensures depth == all[..Max(0, Min(levels, |prices|))]
    {
      depth := [];
      var i := 0;
      while i < Min(levels, |prices|)
        invariant 0 <= i <= Max(0, Min(levels, |prices|))
        invariant depth == all[..i]
      {
        var level := records[prices[i]];
        depth := depth + [DepthLevel(level.price, level.totalQuantity, |level.orders|)];
        i := i + 1;
      }
    }

    method GetTotalVolume() returns (bidVolume: int, askVolume: int)
      requires Valid()
      ensures bidVolume == Sum(Bids()) && askVolume == Sum(Asks())
    {
      RecordDepths(Bid, contents.bids, contents.bidLevels, bidPrices, bidLevels, orderMap);
      RecordDepths(Ask, contents.asks, contents.askLevels, askPrices, askLevels, orderMap);
      DepthTotals(Bid, Bids());
      DepthTotals(Ask, Asks());
      hide SideConsistent, LevelsLinked, DepthOf, Agree;
      bidVolume := SideVolume(bidPrices, bidLevels, DepthOf(Bids()));
      askVolume := SideVolume(askPrices, askLevels, DepthOf(Asks()));
    }

    method SideVolume(prices: seq<int>, records: map<int, PriceLevel>, ghost all: seq<DepthLevel>) returns (volume: int)
      requires RecordsShow(records, prices, all)
      ensures volume == TotalQuantity(all)
    {
      volume := 0;
      var i := 0;
      while i < |prices|
        invariant 0 <= i <= |prices|
        invariant volume == TotalQuantity(all[..i])
      {
        TotalQuantityPush(all[..i], all[i]);
        assert all[..i + 1] == all[..i] + [all[i]];
        volume := volume + records[prices[i]].totalQuantity;
        i := i + 1;
      }
      assert all[..|prices|] == all;
    }

    method GetOrderCount() returns (n: nat)
      requires Valid()
      ensures n == |Bids()| + |Asks()|
    {
      EntryCount(State(), contents, marketId, outcome);
      n := |orderMap|;
    }

    method Clear()
      modifies this
      ensures Valid() && Bids() == [] && Asks() == [] && orderMap == map[]
    {
      bidLevels, askLevels, bidPrices, askPrices := map[], map[], [], [];
      orderMap, userOrders := map[], map[];
      contents := Contents([], [], map[], map[], map[]);
    }
  }
}
