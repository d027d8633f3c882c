/** placeOrder inside its critical section, on real book objects: find or hydrate the book, refuse a
    self-trade, match, run the transaction, and then either drop the book or add the remainder. */
module MatchingService {
  import opened Domain
  import opened PriorityList
  import opened OrderBooks
  import opened GreedyMatch
  import opened Engine
  import opened Ledger
  import opened Transactions
  import opened Hydration
  import opened Coherence
  import opened Conservation
  import opened Service

  datatype ServiceError = ReadFailed | SelfTrade | TransactionFailed | AuditFailed

  /** What the database does with the transaction of a call. */
  datatype TransactionFate = Succeeds | Aborts | RepliesLost

  datatype PlaceOrderResult = PlaceOrderResult(trades: seq<Trade>, filledQuantity: int)

  /** The books map key of a book. */
  function BookName(marketId: string, outcome: Outcome): string {
    marketId + ":" + (if outcome == YES then "YES" else "NO")
  }

  /** Different books have different names, whatever characters market ids contain. */
  lemma BookNameInjective(marketId: string, outcome: Outcome, marketId': string, outcome': Outcome)
    requires BookName(marketId, outcome) == BookName(marketId', outcome')
    ensures marketId == marketId' && outcome == outcome'
  {
    var s, t := BookName(marketId, outcome), BookName(marketId', outcome');
    assert s[|s| - 1] == if outcome == YES then 'S' else 'O';
    assert t[|t| - 1] == if outcome' == YES then 'S' else 'O';
    assert marketId == s[..|s| - |if outcome == YES then ":YES" else ":NO"|];
    assert marketId' == t[..|t| - |if outcome' == YES then ":YES" else ":NO"|];
  }

  ghost function ValueOf(book: OrderBook): Book
    reads book
  {
    Book(book.Bids(), book.Asks())
  }

  /** The user index decides whether the incoming user rests on the matching side. */
  method HasOppositeResting(book: OrderBook, input: OrderInput) returns (found: bool)
    requires book.Valid()
    ensures found <==> exists o :: o in book.View(MatchingSide(input.side)) && o.userAddress == input.userAddress
  {
    hide Agree, EntriesLinked;
    MakersOf(book, Bid);
    MakersOf(book, Ask);
    var userOrders := book.GetOrdersByUser(input.userAddress);
    var oppositeSide := if input.side == BUY then Ask else Bid;
    found := false;
    var i := 0;
    while i < |userOrders|
      invariant 0 <= i <= |userOrders|
      invariant found <==> exists k :: 0 <= k < i && userOrders[k].side == oppositeSide
    {
      if userOrders[i].side == oppositeSide {
        found := true;
      }
      i := i + 1;
    }
    OppositeFound(book, input, userOrders);
  }

  lemma OppositeFound(book: OrderBook, input: OrderInput, userOrders: seq<BookOrder>)
    requires SideOrders(book.Bids(), Bid, book.marketId, book.outcome)
    requires SideOrders(book.Asks(), Ask, book.marketId, book.outcome)
    requires forall x :: x in book.Bids() + book.Asks() && x.userAddress == input.userAddress <==>
      exists o :: o in userOrders && o.Value() == x
    ensures (exists k :: 0 <= k < |userOrders| && userOrders[k].side == MatchingSide(input.side)) <==>
      exists o :: o in book.View(MatchingSide(input.side)) && o.userAddress == input.userAddress
  {
    var side := MatchingSide(input.side);
    if k :| 0 <= k < |userOrders| && userOrders[k].side == side {
      var x := userOrders[k].Value();
      assert userOrders[k] in userOrders;
      assert x in book.Bids() + book.Asks() && x.userAddress == input.userAddress;
      assert x in book.View(side);
    }
    if x :| x in book.View(side) && x.userAddress == input.userAddress {
      assert x in book.Bids() + book.Asks();
      var o :| o in userOrders && o.Value() == x;
      var k :| 0 <= k < |userOrders| && userOrders[k] == o;
      assert userOrders[k].side == side;
    }
  }

  /** The id is new to the book. */
  ghost predicate Unknown(b: Book, id: string) {
    !HasId(b.bids, id) && !HasId(b.asks, id)
  }

  lemma UnknownId(book: OrderBook, id: string)
    requires book.Valid() && Unknown(ValueOf(book), id)
    ensures id !in book.orderMap
  {
    KeysAreIds(book.contents, book.marketId, book.outcome);
  }

  lemma StillUnknown(b: Book, taker: MatchingOrder, id: string)
    requires Unknown(b, id)
    ensures Unknown(Matched(b, taker), id)
  {
    LeftoverMembers(taker, Makers(b, taker), taker.quantity);
    hide Leftover;
  }

  ghost predicate BookOfKey(book: OrderBook, key: Key) {
    book.marketId == key.marketId && book.outcome == OutcomeToNumber(key.outcome)
  }

  /** A book belongs to one key. */
  lemma OneKeyPerBook(book: OrderBook, key: Key, key': Key)
    requires BookOfKey(book, key) && BookOfKey(book, key')
    ensures key == key'
  {
  }

  /** Match the taker; the match hook only starts audit writes and does not throw. */
  method MatchTaker(book: OrderBook, taker: MatchingOrder, timestamp: int) returns (result: MatchResult)
    requires book.Valid() && Unknown(ValueOf(book), taker.id)
    modifies book, Orders(book.orderMap)
    ensures book.Valid() && Unknown(ValueOf(book), taker.id) && Orders(book.orderMap) <= old(Orders(book.orderMap))
    ensures ValueOf(book) == Matched(old(ValueOf(book)), taker)
    ensures result.trades == TradesOf(old(ValueOf(book)), taker, timestamp)
    ensures DeltasOf(result.trades, result.positionDeltas)
    ensures var left := LeftOf(old(ValueOf(book)), taker);
      result.remainingOrder == if left > 0 then Some(taker.(quantity := left)) else None
  {
    ghost var b := ValueOf(book);
    StillUnknown(b, taker, taker.id);
    hide Agree, EntriesLinked, Fills, Leftover, Unfilled, DeltasOf, Unknown, HasId;
    var matchResult := MatchOrder(taker, book, None, timestamp);
    result := matchResult.value;
  }

  /** Add what is left of the taker. */
  method AddRemainder(book: OrderBook, remainingOrder: MatchingOrder, key: Key)
    requires book.Valid() && BookOfKey(book, key) && KeyOf(remainingOrder) == key
    requires Unknown(ValueOf(book), remainingOrder.id)
    requires remainingOrder.quantity > 0
    modifies book
    ensures book.Valid() && ValueOf(book) == Rested(old(ValueOf(book)), remainingOrder, remainingOrder.quantity)
    ensures fresh(Orders(book.orderMap) - old(Orders(book.orderMap)))
  {
    UnknownId(book, remainingOrder.id);
    hide Agree, EntriesLinked, Insert, LevelsWith, Unknown, Orders;
    AddNew(book, Order(remainingOrder.id, remainingOrder.userAddress, if remainingOrder.side == BUY then Bid else Ask,
                       remainingOrder.price, remainingOrder.quantity, key.marketId, OutcomeToNumber(key.outcome)));
  }

  /** What one call does to its book and to the database. */
  datatype Effect = Effect(db: Database, book: Option<Book>, result: Result<PlaceOrderResult, ServiceError>)

  ghost function EffectOf(db: Database, b: Book, taker: MatchingOrder, timestamp: int, fate: TransactionFate,
                          auditFails: bool): Effect {
    var trades, left := TradesOf(b, taker, timestamp), LeftOf(b, taker);
    var filled := taker.quantity - left;
    if HasOpposite(b, taker) then Effect(db, Some(b), Err(SelfTrade))
    else if fate == Aborts || Verdict(db.orders, taker, filled, trades).Err? then
      Effect(db, None, Err(TransactionFailed))
    else if fate == RepliesLost then Effect(Committed(db, taker, filled, trades), None, Err(TransactionFailed))
    else Effect(Committed(db, taker, filled, trades), Some(Rested(Matched(b, taker), taker, left)),
                if auditFails then Err(AuditFailed) else Ok(PlaceOrderResult(trades, filled)))
  }

  lemma {:induction false} LeftNonNegative(taker: MatchingOrder, makers: seq<Order>, q: int)
    requires q >= 0
    ensures Unfilled(taker, makers, q) >= 0
  {
    if !Stops(taker, makers, q) {
      LeftNonNegative(taker, makers[1..], q - Min(q, makers[0].quantity));
    }
  }

  lemma FilledIsTraded(b: Book, taker: MatchingOrder, timestamp: int)
    ensures TradedQuantity(TradesOf(b, taker, timestamp)) == taker.quantity - LeftOf(b, taker)
  {
    TradedAndLeft(taker, Makers(b, taker), taker.quantity, timestamp);
  }

  /** A result counts what its trades sum to. */
  lemma EffectIs(db: Database, b: Book, taker: MatchingOrder, timestamp: int, fate: TransactionFate, auditFails: bool)
    ensures var e := EffectOf(db, b, taker, timestamp, fate, auditFails);
      e.result.Ok? ==> e.result.value.filledQuantity == TradedQuantity(e.result.value.trades)
  {
    FilledIsTraded(b, taker, timestamp);
    hide TradesOf, LeftOf, HasOpposite, Committed, Rested, Matched, Verdict, TradedQuantity;
  }

  /** Run the transaction under this fate. */
  method Transact(db: Database, taker: MatchingOrder, filled: int, result: MatchResult, fate: TransactionFate)
    returns (db': Database, resolved: bool)
    requires DistinctRows(db.orders) && DeltasOf(result.trades, result.positionDeltas)
    ensures resolved <==> fate == Succeeds && Verdict(db.orders, taker, filled, result.trades).Ok?
    ensures db' == if fate == Aborts || Verdict(db.orders, taker, filled, result.trades).Err? then db
                   else Committed(db, taker, filled, result.trades)
  {
    db', resolved := db, false;
    if fate != Aborts {
      var committed := RunTransaction(db, taker, filled, result);
      if committed.Ok? {
        db', resolved := committed.value, fate == Succeeds;
      }
    }
  }

  /** The callback of one call, once it has its book. */
  method PlaceInBook(book: OrderBook, input: OrderInput, db: Database, orderId: string, timestamp: int,
                     fate: TransactionFate, auditFails: bool)
    returns (db': Database, keep: bool, r: Result<PlaceOrderResult, ServiceError>)
    requires book.Valid() && BookOfKey(book, BookKey(input)) && Unknown(ValueOf(book), orderId)
    requires DistinctRows(db.orders) && input.quantity > 0
    modifies book, Orders(book.orderMap)
    ensures book.Valid() && fresh(Orders(book.orderMap) - old(Orders(book.orderMap)))
    ensures var e := EffectOf(db, old(ValueOf(book)), TakerOf(input, orderId), timestamp, fate, auditFails);
      && db' == e.db && r == e.result && keep == e.book.Some?
      && (keep ==> ValueOf(book) == e.book.value)
    ensures r.Ok? ==> r.value.filledQuantity == TradedQuantity(r.value.trades)
  {
    FilledIsTraded(ValueOf(book), TakerOf(input, orderId), timestamp);
    hide Agree, Verdict, Committed, TradesOf, Unknown, Matched, DistinctRows, DeltasOf;
    ghost var b := ValueOf(book);
    var takerOrder := TakerOf(input, orderId);
    LeftNonNegative(takerOrder, Makers(b, takerOrder), input.quantity);
    hide Rested, Unfilled;
    db' := db;
    var hasOppositeResting := HasOppositeResting(book, input);
    if hasOppositeResting {
      keep, r := true, Err(SelfTrade);
    } else {
      var matchResult := MatchTaker(book, takerOrder, timestamp);
      var takerFilledQuantity := 
        input.quantity - (if matchResult.remainingOrder.Some? then matchResult.remainingOrder.value.quantity else 0);
      db', keep := Transact(db, takerOrder, takerFilledQuantity, matchResult, fate);
      if !keep {
        r := Err(TransactionFailed);
      } else {
        if matchResult.remainingOrder.Some? {
          AddRemainder(book, matchResult.remainingOrder.value, BookKey(input));
        }
        r := if auditFails then Err(AuditFailed) else Ok(PlaceOrderResult(matchResult.trades, takerFilledQuantity));
      }
    }
  }

  /** Whatever happens to its transaction, a call leaves the ledger in order, its book either dropped
      or equal to what the database describes, and every other book as it was. */
  lemma CallKeepsCoherence(db: Database, taker: MatchingOrder, timestamp: int, fate: TransactionFate, auditFails: bool,
                           key: Key)
    requires LedgerOk(db) && !HasRow(db.orders, taker.id) && NoUnderscore(taker.id) && taker.quantity > 0
    ensures var e := EffectOf(db, Rebuild(db.orders, KeyOf(taker)), taker, timestamp, fate, auditFails);
      && LedgerOk(e.db)
      && (e.book.Some? ==> e.book.value == Rebuild(e.db.orders, KeyOf(taker)))
      && (key != KeyOf(taker) ==> Rebuild(e.db.orders, key) == Rebuild(db.orders, key))
      && (!HasOpposite(Rebuild(db.orders, KeyOf(taker)), taker) && fate == Succeeds ==> e.book.Some?)
  {
    hide LedgerOk, Rebuild, NoUnderscore, HasRow, HasOpposite, Committed, TradesOf, LeftOf, MakersFound, Rested,
         Matched, RowsAfter, Incoming;
    var b := Rebuild(db.orders, KeyOf(taker));
    if !HasOpposite(b, taker) {
      assert Placed(db, taker);
      PlacedIncoming(db, taker);
      MakersAreFound(db, taker, timestamp);
      CommitKeepsLedger(db, taker, timestamp);
      CommitRebuilds(db.orders, taker, timestamp, KeyOf(taker));
      CommitRebuilds(db.orders, taker, timestamp, key);
    }
  }

  /** The trades that the caller is told of are the new trade rows, what it is told to be filled is what they sum to,
      and the new order row says the same. */
  ghost predicate Told(db: Database, db': Database, taker: MatchingOrder, told: PlaceOrderResult) {
    && db'.trades == db.trades + told.trades
    && told.filledQuantity == TradedQuantity(told.trades)
    && NewRowIs(db', taker, told.filledQuantity)
  }

  /** There is a row of this order, filled by this much. */
  ghost predicate NewRowIs(db: Database, taker: MatchingOrder, filled: int) {
    exists r :: r in db.orders && r.id == taker.id && RecordsOrder(r, taker) && r.filledQuantity == filled
  }

  /** The row of an order says what its caller asked for. */
  predicate RecordsInput(r: OrderRow, input: OrderInput) {
    && r.marketId == input.marketId && r.outcome == input.outcome && r.userAddress == input.userAddress
    && r.side == input.side && r.price == input.price && r.quantity == input.quantity
  }

  predicate RecordsOrder(r: OrderRow, taker: MatchingOrder) {
    && r.marketId == taker.marketId && r.outcome == taker.outcome && r.userAddress == taker.userAddress
    && r.side == taker.side && r.price == taker.price && r.quantity == taker.quantity
  }

  /** The user rests on the side that it wants to match. */
  ghost predicate RestsOpposite(rows: seq<OrderRow>, taker: MatchingOrder) {
    exists r :: r in rows && r.userAddress == taker.userAddress && Rests(r, KeyOf(taker), MatchingSide(taker.side))
  }

  lemma OppositeInRows(rows: seq<OrderRow>, taker: MatchingOrder)
    requires DistinctRows(rows)
    ensures HasOpposite(Rebuild(rows, KeyOf(taker)), taker) <==> RestsOpposite(rows, taker)
  {
    var key, side := KeyOf(taker), MatchingSide(taker.side);
    RebuiltSide(rows, key, side);
    RestingMembers(rows, key, side);
    hide Rebuild, Resting, DistinctRows, Rests, AtPrice, Sorted, DistinctIds, AllPositive;
    var makers := Makers(Rebuild(rows, key), taker);
    if o :| o in makers && o.userAddress == taker.userAddress {
      assert o in Resting(rows, key, side);
    }
    if r :| r in rows && r.userAddress == taker.userAddress && Rests(r, key, side) {
      assert RestingOrder(r) in Resting(rows, key, side);
    }
  }

  /** What a call answers, and which failure gives which error, in every sound database. */
  lemma CallerIsTold(db: Database, taker: MatchingOrder, timestamp: int, fate: TransactionFate, auditFails: bool)
    requires LedgerOk(db) && !HasRow(db.orders, taker.id) && NoUnderscore(taker.id) && taker.quantity > 0
    ensures var e := EffectOf(db, Rebuild(db.orders, KeyOf(taker)), taker, timestamp, fate, auditFails);
      var opposite := RestsOpposite(db.orders, taker);
      && (e.result == Err(SelfTrade) <==> opposite)
      && (e.result == Err(TransactionFailed) <==> !opposite && fate != Succeeds)
      && (e.result == Err(AuditFailed) <==> !opposite && fate == Succeeds && auditFails)
      && (e.result.Ok? <==> !opposite && fate == Succeeds && !auditFails)
      && (e.result.Ok? ==> Told(db, e.db, taker, e.result.value))
      && (e.db == db <==> opposite || fate == Aborts)
  {
    hide LedgerOk, Rebuild, HasOpposite, RestsOpposite, TradesOf, LeftOf, Told, HasRow, NoUnderscore, Committed,
         EffectOf, DistinctRows, Verdict;
    var b := Rebuild(db.orders, KeyOf(taker));
    LedgerRows(db);
    OppositeInRows(db.orders, taker);
    if !HasOpposite(b, taker) {
      assert Placed(db, taker);
      CommitGoesThrough(db, taker, timestamp);
      AllIsTold(db, taker, timestamp);
    }
    EffectResult(db, b, taker, timestamp, fate, auditFails);
  }

  lemma CommitGoesThrough(db: Database, taker: MatchingOrder, timestamp: int)
    requires Placed(db, taker)
    ensures var b := Rebuild(db.orders, KeyOf(taker));
      Verdict(db.orders, taker, taker.quantity - LeftOf(b, taker), TradesOf(b, taker, timestamp)).Ok?
  {
    MakersAreFound(db, taker, timestamp);
    hide LedgerOk, Rebuild, TradesOf, LeftOf, HasRow, MakersFound;
  }

  /** Which failure gives which error, whatever the book. */
  lemma EffectResult(db: Database, b: Book, taker: MatchingOrder, timestamp: int, fate: TransactionFate,
                     auditFails: bool)
    ensures var e := EffectOf(db, b, taker, timestamp, fate, auditFails);
      var trades, filled := TradesOf(b, taker, timestamp), taker.quantity - LeftOf(b, taker);
      var goes := fate != Aborts && Verdict(db.orders, taker, filled, trades).Ok?;
      var opposite := HasOpposite(b, taker);
      && (e.result == Err(SelfTrade) <==> opposite)
      && (e.result == Err(TransactionFailed) <==> !opposite && !(goes && fate == Succeeds))
      && (e.result == Err(AuditFailed) <==> !opposite && goes && fate == Succeeds && auditFails)
      && (e.result.Ok? <==> !opposite && goes && fate == Succeeds && !auditFails)
      && (e.result.Ok? ==> e.result.value == PlaceOrderResult(trades, filled))
      && e.db == if !opposite && goes then Committed(db, taker, filled, trades) else db
  {
    hide TradesOf, LeftOf, HasOpposite, Committed, Rested, Matched, Verdict;
  }

  lemma AllIsTold(db: Database, taker: MatchingOrder, timestamp: int)
    requires Placed(db, taker)
    ensures var b := Rebuild(db.orders, KeyOf(taker));
      var trades, filled := TradesOf(b, taker, timestamp), taker.quantity - LeftOf(b, taker);
      var db' := Committed(db, taker, filled, trades);
      Told(db, db', taker, PlaceOrderResult(trades, filled)) && db' != db
  {
    var b := Rebuild(db.orders, KeyOf(taker));
    var trades, left := TradesOf(b, taker, timestamp), LeftOf(b, taker);
    MatchIsSound(db, taker, timestamp);
    CommitKeepsLedger(db, taker, timestamp);
    hide LedgerOk, Rebuild, TradesOf, LeftOf, OneEach, HasId, DistinctIds, MakersRest, TradedQuantity, HasOpposite,
         NoUnderscore, UpsertedAll, PositionsAfter, StatusOf;
    TakerRowKept(db, taker, trades, left, Makers(b, taker), timestamp);
    var all := db.orders + [TakerRow(taker, taker.quantity - left)];
    var after := FilledRows(all, taker.id, trades);
    assert after[|db.orders|] == TakerRow(taker, taker.quantity - left);
    assert after[|db.orders|] in after && after[|db.orders|].id == taker.id;
    hide FilledRows, Made, MadeBy;
    assert |after| != |db.orders|;
  }

  function NameOf(key: Key): string {
    BookName(key.marketId, key.outcome)
  }

  lemma NamesDiffer(key: Key)
    ensures forall k: Key :: NameOf(k) == NameOf(key) ==> k == key
  {
    forall k: Key | NameOf(k) == NameOf(key) ensures k == key {
      BookNameInjective(k.marketId, k.outcome, key.marketId, key.outcome);
    }
  }

  ghost predicate AllSound(books: map<string, OrderBook>)
    reads set name | name in books :: books[name]
    reads set name, order | name in books && order in Orders(books[name].orderMap) :: order
  {
    forall name :: name in books ==> books[name].Valid()
  }

  ghost predicate AllNamed(books: map<string, OrderBook>)
    reads set name | name in books :: books[name]
  {
    forall key: Key :: NameOf(key) in books ==> BookOfKey(books[NameOf(key)], key)
  }

  ghost predicate AllApart(books: map<string, OrderBook>)
    reads set name | name in books :: books[name]
  {
    forall n, m :: n in books && m in books && n != m ==>
      books[n] != books[m] && Orders(books[n].orderMap) !! Orders(books[m].orderMap)
  }

  lemma OneMoreBook(books: map<string, OrderBook>, key: Key, book: OrderBook)
    requires AllSound(books) && AllNamed(books) && AllApart(books)
    requires book.Valid() && BookOfKey(book, key)
    requires forall n :: n in books ==> books[n] != book && Orders(books[n].orderMap) !! Orders(book.orderMap)
    ensures AllSound(books[NameOf(key) := book])
    ensures AllNamed(books[NameOf(key) := book])
    ensures AllApart(books[NameOf(key) := book])
  {
    NamesDiffer(key);
    hide Agree, EntriesLinked, Orders, BookOfKey, NameOf;
  }

  class BookCache {
    var books: map<string, OrderBook>

    constructor ()
      ensures Valid() && books == map[]
    {
      books := map[];
    }

    ghost function Held(): set<object>
      reads this
    {
      set name | name in books :: books[name]
    }

    ghost function Parts(): set<object>
      reads this, Held()
    {
      set name, order | name in books && order in Orders(books[name].orderMap) :: order
    }

    /** Every cached book is sound and stands under its own name, and no two share anything. */
    ghost predicate Valid()
      reads this, Held(), Parts()
    {
      AllSound(books) && AllNamed(books) && AllApart(books)
    }

    /** Everything but the book of this name. */
    twostate predicate OthersKept(name: string)
      reads this, Held()
    {
      forall n :: n != name ==> (n in books <==> n in old(books)) && (n in books ==>
        books[n] == old(books[n]) && ValueOf(books[n]) == old(ValueOf(books[n])))
    }

    ghost predicate Separate(book: OrderBook)
      reads this, Held(), book
    {
      forall n :: n in books ==> books[n] != book && Orders(books[n].orderMap) !! Orders(book.orderMap)
    }

    method Remember(key: Key, book: OrderBook)
      requires Valid() && book.Valid() && BookOfKey(book, key) && Separate(book)
      modifies this
      ensures Valid() && books == old(books)[NameOf(key) := book]
    {
      OneMoreBook(books, key, book);
      hide Agree, Orders, BookOfKey, NameOf, AllSound, AllNamed, AllApart;
      books := books[NameOf(key) := book];
    }

    method GetOrHydrateBook(key: Key, db: Database, readFails: bool) returns (found: bool)
      requires Valid() && DistinctRows(db.orders)
      modifies this
      ensures Valid() && OthersKept(NameOf(key))
      ensures found <==> NameOf(key) in old(books) || !readFails
      ensures found <==> NameOf(key) in books
      ensures NameOf(key) in old(books) || !found ==> books == old(books)
      ensures found && NameOf(key) !in old(books) ==>
        && fresh(books[NameOf(key)]) && fresh(Orders(books[NameOf(key)].orderMap))
        && ValueOf(books[NameOf(key)]) == Rebuild(db.orders, key)
    {
      hide Agree, Rebuild, NameOf, BookOfKey, DistinctRows, OutcomeToNumber, AllSound, AllNamed, AllApart;
      found := NameOf(key) in books || !readFails;
      if NameOf(key) !in books && !readFails {
        var book := HydrateBook(db.orders, key);
        assert Separate(book);
        assert BookOfKey(book, key) by {
          SameKey(book, key);
        }
        Remember(key, book);
      }
    }

    method InvalidateBook(key: Key)
      requires Valid()
      modifies this
      ensures Valid() && books == old(books) - {NameOf(key)}
    {
      hide Agree, NameOf, Orders, BookOfKey;
      books := books - {NameOf(key)};
    }

    /** The book of this key and everything it owns. */
    ghost function BookParts(key: Key): set<object>
      reads this, Held()
    {
      if NameOf(key) !in books then {}
      else {books[NameOf(key)]} + (set order | order in Orders(books[NameOf(key)].orderMap) :: order as object)
    }

    /** Run the call in its cached book; nothing else in the cache is touched. */
    method RunInBook(key: Key, input: OrderInput, db: Database, orderId: string, timestamp: int,
                     fate: TransactionFate, auditFails: bool)
      returns (db': Database, keep: bool, r: Result<PlaceOrderResult, ServiceError>)
      requires Valid() && key == BookKey(input) && NameOf(key) in books
      requires Unknown(ValueOf(books[NameOf(key)]), orderId) && DistinctRows(db.orders) && input.quantity > 0
      modifies BookParts(key)
      ensures Valid() && books == old(books) && OthersKept(NameOf(key))
      ensures var taker := TakerOf(input, orderId);
        var e := EffectOf(db, old(ValueOf(books[NameOf(key)])), taker, timestamp, fate, auditFails);
        && db' == e.db && r == e.result && keep == e.book.Some?
        && (keep ==> ValueOf(books[NameOf(key)]) == e.book.value)
    {
      hide Agree, EffectOf, Unknown, DistinctRows, NameOf, BookOfKey;
      db', keep, r := PlaceInBook(books[NameOf(key)], input, db, orderId, timestamp, fate, auditFails);
    }

    /** The callback of one call: what it does to the database and to the cached book, as EffectOf says.
        A failed transaction drops the book. */
    method PlaceCached(key: Key, input: OrderInput, db: Database, orderId: string, timestamp: int,
                       fate: TransactionFate, auditFails: bool)
      returns (db': Database, r: Result<PlaceOrderResult, ServiceError>)
      requires Valid() && key == BookKey(input) && NameOf(key) in books
      requires Unknown(ValueOf(books[NameOf(key)]), orderId) && DistinctRows(db.orders) && input.quantity > 0
      modifies this, BookParts(key)
      ensures Valid() && OthersKept(NameOf(key))
      ensures var taker := TakerOf(input, orderId);
        var e := EffectOf(db, old(ValueOf(books[NameOf(key)])), taker, timestamp, fate, auditFails);
        && db' == e.db && r == e.result && (NameOf(key) in books <==> e.book.Some?)
        && (NameOf(key) in books ==> ValueOf(books[NameOf(key)]) == e.book.value)
    {
      hide Agree, EffectOf, Unknown, DistinctRows, NameOf, BookOfKey, Orders, AllSound, AllNamed, AllApart;
      var keep := true;
      db', keep, r := RunInBook(key, input, db, orderId, timestamp, fate, auditFails);
      if !keep {
        InvalidateBook(key);
      }
    }

    /** What the call starts from: the cached book, or the one the database describes. */
    ghost function BookFor(key: Key, db: Database): Book
      reads this, Held()
    {
      if NameOf(key) in books then ValueOf(books[NameOf(key)]) else Rebuild(db.orders, key)
    }

    /** One call of placeOrder, from start to end of its critical section. */
    method PlaceOrder(input: OrderInput, db: Database, orderId: string, timestamp: int, readFails: bool,
                      fate: TransactionFate, auditFails: bool)
      returns (db': Database, r: Result<PlaceOrderResult, ServiceError>)
      requires Valid() && DistinctRows(db.orders) && input.quantity > 0
      requires Unknown(BookFor(BookKey(input), db), orderId)
      modifies this, BookParts(BookKey(input))
      ensures Valid() && OthersKept(NameOf(BookKey(input)))
      ensures NameOf(BookKey(input)) !in old(books) && readFails ==>
        r == Err(ReadFailed) && db' == db && books == old(books)
      ensures var taker := TakerOf(input, orderId);
        var e := EffectOf(db, old(BookFor(BookKey(input), db)), taker, timestamp, fate, auditFails);
        NameOf(BookKey(input)) in old(books) || !readFails ==>
        && db' == e.db && r == e.result && (NameOf(BookKey(input)) in books <==> e.book.Some?)
        && (e.book.Some? ==> ValueOf(books[NameOf(BookKey(input))]) == e.book.value)
      ensures r.Ok? ==> r.value.filledQuantity == TradedQuantity(r.value.trades)
    {
      EffectIs(db, BookFor(BookKey(input), db), TakerOf(input, orderId), timestamp, fate, auditFails);
      hide Agree, EffectOf, Unknown, DistinctRows, NameOf, BookOfKey, Rebuild, BookKey;
      var found := GetOrHydrateBook(BookKey(input), db, readFails);
      if !found {
        db', r := db, Err(ReadFailed);
      } else {
        db', r := PlaceCached(BookKey(input), input, db, orderId, timestamp, fate, auditFails);
      }
    }
  }

  lemma SameKey(book: OrderBook, key: Key)
    requires book.marketId == key.marketId && book.outcome == OutcomeToNumber(key.outcome)
    ensures BookOfKey(book, key)
  {
  }
}
