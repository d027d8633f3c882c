# Order book, ledger and indexer of a prediction market

This project models the parts of the system in which several pieces of state must agree, and proves
that they do.

- **Matching.** A limit order book per market outcome keeps six linked structures in place
  (`OrderBook.dfy`). The matching loop trades a taker against it in price-time order and can roll back
  (`Engine.dfy`); `GreedyMatch.dfy` says what a match is, once by recursion and once without, and
  `Rollback.dfy` says what a rollback restores.
- **Ledger.** One database transaction per placed order creates and fills order rows, writes trades and
  moves positions (`Ledger.dfy`, `Transactions.dfy`). A book can be rebuilt from the rows
  (`Hydration.dfy`). `Coherence.dfy` proves that memory and database take the same step,
  `Conservation.dfy` what every transaction keeps.
- **Service.** Calls of one book queue on a promise-chain mutex (`MutexChain.dfy`). `Service.dfy` is the
  state machine of all interleavings: cached book objects, reads, matches, commits, aborts, commits whose
  answer is lost, failed audits and restarts, on any set of books. `MatchingService.dfy` is the same critical
  section as methods on the book objects, and `CallEvents.dfy` proves that a call
  does there what its events do.
- **Readers.** The wallet endpoint recomputes collateral from trades (`Collateral.dfy`), the order book
  endpoint aggregates rows into depth (`OrderbookEndpoint.dfy`). `Agreement.dfy` relates both to what the
  writers keep, in every state the service reaches.
- **Indexer.** Paged fetching (`EventFetcher.dfy`), keys (`EventIds.dfy`), batch writing
  statement by statement (`BatchWriter.dfy`), the polling loop with its checkpoints (`Ingestion.dfy`), the position
  rows that it and the ledger both write (`IndexedPositions.dfy`), and what whole runs do to them
  (`PositionsOfRuns.dfy`).
- **Small pieces.** Eight-decimal amounts (`FixedPoint.dfy`), keyset pagination (`Pagination.dfy`), the
  fixed-window rate limiter (`RateLimiter.dfy`).

Conventions. Prices are whole ticks of 0.01 and quantities positive whole shares, as the input validation
demands (`src/matching/validation.ts:98-158`); money is exact in ticks times shares. Order rows are listed
in order of creation. A transaction is all-or-nothing. In the indexer a statement that fails in the database ends
its transaction: every later statement fails, and the commit undoes everything without an error. A statement that
is refused before it is sent leaves the transaction as it is. Clocks, random ids, the node's answers and every
failure are parameters, so each result holds for all of them. Random order ids are new and contain no underscore;
hashes do not collide.

Where code and comment differ the model follows the code:

- `matchOrder` promises that a failed match leaves the book in its previous state
  (`src/matching/engine.ts:204-206`). Re-adding puts an order at the back of its level, so this holds exactly
  when every touched level held one order (`Rollback.RollbackExact`, `Rollback.PriorityLost`). The service's
  hook only starts audit writes and does not throw.
- The profit functions read the sign of an amount for its whole part only (`src/api/routes/positions.ts:77-80`).
  Collateral is negative for net sellers, so the profit is then too low by twice the fraction
  (`FixedPoint.RealizedPnlRightIff`, `FixedPoint.UnrealizedPnlRightIff`, `FixedPoint.SellerProfitIsWrong`).
- A position row that a chain trade creates is cut off at zero (`apps/indexer/src/batchWriter.ts:273-308`), so
  a seller without a row starts at zero instead of below it. In a market that only the chain trades in, any trade
  between two users leaves more shares than were made, for good (`IndexedPositions.ChainOnlyBalancesIff`,
  `IndexedPositions.OneTradeUnbalances`). With both writers a market balances exactly when none of its rows was
  created by a chain sale (`IndexedPositions.BalancesIff`); sales by users who already have a row do no harm.
- The recomputed collateral adds trades that only the chain has, the stored one does not
  (`src/api/routes/positions.ts:189-215`), so the two agree exactly when those sum to no cost
  (`Agreement.CollateralOfRuns`).
- Positions of an indexed trade are to be skipped silently if its market has no row, without blocking ingestion
  (`apps/indexer/src/batchWriter.ts:243-247`). The foreign key fails in the database, which ends the transaction. If
  that trade is the last new record of its batch, the batch commits nothing, no error is reported and the cursor
  moves on: its events are lost (`Ingestion.TradeIsLost`, `Ingestion.LostForGood`). `BatchWriter.NothingWrittenIff`
  says exactly when. The other way to lose an event is a row that the client refuses after its event was marked.
  The exactly-once results are for the runs without such ticks, and `Ingestion.SoundIff` says that no others have
  the invariant.
- A tick of the indexer that finds nothing new, or whose batch has errors, turns a missing cursor into zero
  and counts as a batch (`apps/indexer/src/ingestion.ts:115-124`, `203-209`, `288-291`).

## Model

| member | source | states |
|---|---|---|
| PriorityList.InsertAtPrice | src/matching/orderbook.ts:49-82 | Adding an order keeps the side in price order and appends to exactly one price level, behind everything that rests there. |
| PriorityList.Canonical | src/matching/orderbook.ts:33-37 | A side in price order is determined by its price levels, so levels and sorted prices carry the same information as the priority list. |
| PriorityList.RemoveIndex | src/matching/orderbook.ts:85-123 | Removing an id takes out exactly one position and keeps the order of the rest. |
| PriorityList.RemoveAtPrice | src/matching/orderbook.ts:85-123 | A removal acts level by level. |
| PriorityList.RequantifySum | src/matching/orderbook.ts:197-224 | Changing one quantity changes the total of its side by the difference. |
| DepthViews.DepthTotals | src/matching/orderbook.ts:234-247 | Depth quantities sum to the side's volume and depth counts to its number of orders. |
| OrderBooks.AddAgrees | src/matching/orderbook.ts:49-82 | After an addition the two level maps, the two price lists, the id map and the user index still describe one book: levels non-empty, totals equal to their orders' sums, prices equal to level keys, user index the inverse of the id map. |
| OrderBooks.RemoveAgrees | src/matching/orderbook.ts:85-123 | The same after a removal, including the level, the price and the user entry that become empty. |
| OrderBooks.RequantifyAgrees | src/matching/orderbook.ts:197-224 | The same after a change of quantity. |
| OrderBooks.FlattenIsList | src/matching/orderbook.ts:301-313 | The levels taken in the order of the price list are the priority list. |
| OrderBooks.PricesOfSide | src/matching/orderbook.ts:36-37 | The price list is the list of the prices of the resting orders, best first, each once. |
| OrderBooks.OrderBook.constructor | src/matching/orderbook.ts:43-46 | A new book is empty and its six structures agree. |
| OrderBooks.OrderBook.InsertPrice | src/matching/orderbook.ts:278-298 | The binary search inserts a price; a price that was not there leaves the list strictly sorted. |
| OrderBooks.OrderBook.AddOrder | src/matching/orderbook.ts:49-82 | Rejects an order of another book and a duplicate id without any change; otherwise inserts it on its side, in its level, in the id map and in the user index. |
| OrderBooks.OrderBook.RemoveOrder | src/matching/orderbook.ts:85-123 | Unknown ids change nothing; a known order is returned and leaves every structure. |
| OrderBooks.OrderBook.UpdateOrderQuantity | src/matching/orderbook.ts:197-224 | Unknown id: false. Negative quantity: an error and no change. Zero: the order is removed. Otherwise the order keeps its place with the new quantity and its level's total follows. |
| OrderBooks.OrderBook.GetBestBid | src/matching/orderbook.ts:126-134 | The first bid in price-time order, if any. |
| OrderBooks.OrderBook.GetBestAsk | src/matching/orderbook.ts:137-145 | The first ask in price-time order, if any. |
| OrderBooks.OrderBook.GetOrdersByUser | src/matching/orderbook.ts:148-162 | Exactly the resting orders of the user on both sides, each returned once. |
| OrderBooks.OrderBook.IterateOrders | src/matching/orderbook.ts:301-313 | Walking the price list and each level's queue yields the priority list, order by order. |
| OrderBooks.OrderBook.GetDepth | src/matching/orderbook.ts:165-194 | The first so many levels of each side, with total and count of each. |
| OrderBooks.OrderBook.GetTotalVolume | src/matching/orderbook.ts:234-247 | The sums of the remaining quantities of both sides. |
| OrderBooks.OrderBook.GetOrderCount | src/matching/orderbook.ts:272-274 | The number of resting orders of both sides. |
| OrderBooks.OrderBook.Clear | src/matching/orderbook.ts:262-269 | An empty book whose structures agree. |
| GreedyMatch.PriceTimePriority | src/matching/engine.ts:217-284 | The i-th trade is with the i-th maker in price-time order, at the maker's price, for the smaller of the maker's quantity and what the better makers left; makers out of reach get nothing. |
| GreedyMatch.TradedInOrder | src/matching/engine.ts:131-161 | Every trade of a match, field by field: with the maker at its place, at that maker's price, in the taker's market and outcome, and with the address and order of the buyer and of the seller on their sides, for buying and for selling takers. |
| GreedyMatch.TradedForFillAt | src/matching/engine.ts:229-272 | Its quantity is what the maker at its place is due in price-time order. |
| GreedyMatch.TradedAndLeft | src/matching/engine.ts:215-275 | The quantities of the trades and what stays unfilled sum to what the taker wanted. |
| GreedyMatch.TotalFilled | src/matching/engine.ts:229-272 | The total filled is the smaller of the taker's quantity and the total crossing quantity; the rest stays with the taker. |
| GreedyMatch.ConsumedPrefix | src/matching/engine.ts:229-272 | The makers traded with are a prefix; all but the last are used up, the last keeps what was not needed, the others are untouched. |
| GreedyMatch.NothingLeftToMatch | src/matching/engine.ts:229-239 | If the taker is not filled, none of the makers left can match it. |
| Engine.CalculatePositionDeltas | src/matching/engine.ts:165-200 | One delta per trader, with the signed sums of its YES and NO trades; self-trades cancel. |
| Engine.ExecuteFill | src/matching/engine.ts:250-268 | The best maker gives up the fill: removed when used up, otherwise reduced in place at the head of the queue; the other side is untouched. |
| Engine.RollbackCommand | src/matching/engine.ts:64-95 | Undoing a removal adds the same order object again; undoing an update restores the quantity. |
| Engine.RollbackCommands | src/matching/engine.ts:159-163 | Undoing removals in reverse order restores the id map and re-adds the orders last first. |
| Engine.NextMaker | src/matching/engine.ts:229-239 | The maker of the next trade, or none exactly when the match stops. |
| Engine.MatchPass | src/matching/engine.ts:229-272 | One pass keeps the trades, the book and the remaining quantity in step with the whole match, and either removes a maker, fills the taker, stops, or lets the hook's error through. |
| Engine.MatchOrder | src/matching/engine.ts:217-284 | The trades, the remaining order, the position deltas and the matching side are those of the greedy match, each trade is with the maker at its place at that maker's price, and the taker's own side is untouched; if the hook throws at trade k, the id map, the user index, both price lists and all level totals and counts are restored and each removed prefix comes back in reverse order. |
| Engine.RollbackRestoresBook | src/matching/engine.ts:202-206 | After a rollback the user index, both price lists and the total and count of every level are as before. |
| Rollback.ReinsertAtPrice | src/matching/engine.ts:159-163 | Each touched level ends as its untouched suffix followed by the removed prefix reversed. |
| Rollback.RollbackRestores | src/matching/engine.ts:202-206 | Orders, prices, level totals and level counts are restored whatever was removed. |
| Rollback.RollbackExact | src/matching/engine.ts:202-206 | The book is back in its previous state if and only if every touched level held a single order. |
| Rollback.PriorityLost | src/matching/orderbook.ts:73-73 | With two orders at one price, undoing the removal of the first puts it behind the second. |
| Transactions.Transaction.CreateOrder | src/matching/matching-service.ts:210-222 | Creates the taker's row unless the id exists. |
| Transactions.Transaction.FillOrder | src/matching/matching-service.ts:231-257 | Raises the maker's filled quantity and sets the status that says whether nothing, a part or all is filled, or reports a missing row. |
| Transactions.Transaction.FillMakers | src/matching/matching-service.ts:225-258 | The loop over the trades raises every row by what the trades took from it and succeeds exactly when every maker has a row. |
| Transactions.Transaction.UpsertTrades | src/matching/matching-service.ts:261-278 | Each trade id gets one row. |
| Ledger.UpsertsRepeat | src/matching/matching-service.ts:260-278 | Writing the trades of a match again changes no trade row. |
| Transactions.CollateralDeltas | src/matching/matching-service.ts:281-292 | Per trader the signed sum of price times quantity over all trades. |
| Accounts.BuyerAndSeller | src/matching/matching-service.ts:280-324 | A trade moves its quantity of its outcome to the buyer and price times quantity to the seller, and nothing for anyone else. |
| Transactions.Transaction.UpdatePositions | src/matching/matching-service.ts:295-324 | Every trader's position moves by the net of its trades, created or incremented; all others stay. |
| Transactions.Transaction.Persist | src/matching/matching-service.ts:207-325 | The whole transaction: its error cases, and the database it leaves. |
| Transactions.RunTransaction | src/matching/matching-service.ts:206-329 | All or nothing: an error leaves the database as it was. |
| Hydration.SortedQuery | src/matching/matching-service.ts:58-66 | Ordering the selected rows by price and creation keeps, within a price, the order of creation. |
| Hydration.QueryRebuilds | src/matching/matching-service.ts:58-83 | Adding the rows in query order gives the same side as adding them in order of creation. |
| Hydration.HydrateBook | src/matching/matching-service.ts:49-86 | The hydrated book object is sound and is the book that the rows describe; no row is refused. |
| Coherence.ReduceFills | src/matching/engine.ts:229-272 | Taking the fills off the makers id by id and dropping what is used up gives what the match leaves in the book. |
| Coherence.RestingFilled | src/matching/matching-service.ts:225-258 | Filling rows takes the fills off the resting orders; filled rows stop resting. |
| Coherence.CommitRebuilds | src/matching/matching-service.ts:188-344 | Matching in memory and adding the remainder gives exactly the book that would be rebuilt after the transaction, and every other book is rebuilt as before. |
| Coherence.MatchKeepsApart | src/matching/matching-service.ts:160-344 | An uncrossed book in which nobody rests on both sides stays so through a match that passed the self-trade check. |
| Conservation.FillOfMatch | src/matching/matching-service.ts:194-258 | Summed by order id, the trades of a match fill the taker by its filled quantity and each maker by its own trade. |
| Conservation.EachMakerOnce | src/matching/engine.ts:229-272 | No resting order is traded with twice in one match, in any sound database. |
| Conservation.MadeOnce | src/matching/matching-service.ts:230-258 | So the fill summed up for a maker is the quantity of its one trade. |
| Conservation.TradeIdInjective | src/matching/engine.ts:122-129 | For order ids without underscore a trade id determines both orders. |
| Conservation.EveryUpsertCreates | src/matching/matching-service.ts:260-278 | Each trade of a committed match has a new id, so every upsert creates a row. |
| Conservation.CommitKeepsLedger | src/matching/matching-service.ts:207-325 | A committed match keeps every row's fill equal to its trades and its status equal to its fill, every trade between two users within both limits, all trade ids distinct, and every position equal to its user's signed trade sums. |
| Conservation.MakersAreFound | src/matching/matching-service.ts:236-238 | The missing-maker error cannot occur for a match against the book the rows describe. |
| Conservation.PositionsBalance | src/matching/matching-service.ts:280-324 | YES shares, NO shares and collateral of all positions of a market each sum to zero. |
| MutexChain.MutualExclusion | src/matching/mutex.ts:25-39 | At most one callback runs in every interleaving of calls, starts and ends, returned or thrown. |
| MutexChain.FirstComeFirstServed | src/matching/mutex.ts:25-39 | Callbacks start in the order of the calls, none skipped, none twice. |
| MutexChain.Progress | src/matching/mutex.ts:25-39 | While a caller has not finished a start or an end is possible, each brings it strictly nearer, and new calls do not push it back. |
| MutexChain.EveryCallerFinishes | src/matching/mutex.ts:25-39 | Over any continuation of a run, a caller has finished or its distance has dropped by every start and end that happened. |
| MutexChain.AllCanFinish | src/matching/mutex.ts:25-39 | Every run can go on until all its callers have finished. |
| MutexChain.Mutex.Call | src/matching/mutex.ts:26-31 | The caller gets the old tail to wait for and a fresh promise becomes the tail. |
| MutexChain.Mutex.Proceed | src/matching/mutex.ts:34-34 | The awaited promise is resolved exactly when the mutex lets this caller start. |
| MutexChain.Mutex.Release | src/matching/mutex.ts:36-38 | The end of a callback, also a thrown one, resolves its own promise and no other. |
| Service.MatchKeeps | src/matching/matching-service.ts:173-204 | Matching in the critical section keeps the invariant of all books: this one runs ahead of the database by exactly its match. |
| Service.CommitKeeps | src/matching/matching-service.ts:206-325 | A commit keeps the invariant of all books, also of those in the middle of their own calls. |
| Service.RejectKeeps | src/matching/matching-service.ts:326-329 | Dropping the book after a failed or unanswered transaction restores coherence. |
| Service.RestartKeeps | src/matching/matching-service.ts:102-137 | After a restart that warms any set of books the invariant holds. |
| Service.InvariantOfRuns | src/matching/matching-service.ts:153-393 | The invariant holds after every sequence of events of all books. |
| Service.CachedBooksAreCoherent | src/matching/matching-service.ts:139-344 | In every reachable state a cached book whose mutex is free equals the book the database describes: levels, queue order and remaining quantities, whether transactions failed, committed, or committed without an answer. |
| Service.OneCallPerBook | src/matching/matching-service.ts:153-156 | Two calls of one book are never in its critical section together. |
| Service.LedgerIsConserved | src/matching/matching-service.ts:194-325 | In every reachable database fills are within bounds and equal to the trades, an order is OPEN, PARTIALLY_FILLED or FILLED exactly if nothing, a part or all of it is filled, positions are the signed trade sums, and every market balances although its two books commit concurrently. |
| Service.TradesAreFair | src/matching/engine.ts:215-275 | In every reachable database a trade is between a buy order of its buyer and a sell order of its seller, within both limits, at the limit of the order that was placed first. |
| Service.NoCrossNoSelfTrade | src/matching/matching-service.ts:158-171 | In every reachable state every book is uncrossed, nobody rests on both sides, and no trade has buyer equal to seller. |
| Service.EveryTradeIsARow | src/matching/matching-service.ts:260-278 | In every reachable state trade ids are distinct and a commit appends exactly the trades of its match. |
| Service.TransactionsCanCommit | src/matching/matching-service.ts:206-258 | A transaction under way finds its order id new and all its makers. |
| MatchingService.BookNameInjective | src/matching/matching-service.ts:36-38 | Different market outcomes have different book keys, whatever the market id contains. |
| MatchingService.HasOppositeResting | src/matching/matching-service.ts:158-171 | The check finds exactly the users that rest on the matching side. |
| MatchingService.MatchTaker | src/matching/matching-service.ts:188-192 | The match of a call, on the book object. |
| MatchingService.AddRemainder | src/matching/matching-service.ts:333-344 | The remainder rests behind its price level. |
| MatchingService.PlaceInBook | src/matching/matching-service.ts:156-393 | What one call does to its book and to the database for every fate of its transaction. |
| MatchingService.CallKeepsCoherence | src/matching/matching-service.ts:156-393 | A call leaves the ledger sound, its book dropped or equal to what the database describes, and every other book as it was. |
| MatchingService.CallerIsTold | src/matching/matching-service.ts:156-393 | What the caller gets in every sound database: a self-trade error exactly if the user rests on the other side, a transaction error exactly if the transaction fails or its answer is lost, an audit error exactly if only the audit fails, and otherwise the new trade rows with the sum of their quantities, which is also what the new order row says is filled. |
| MatchingService.OneKeyPerBook | src/matching/matching-service.ts:36-44 | A book belongs to one market and outcome. |
| MatchingService.BookCache.GetOrHydrateBook | src/matching/matching-service.ts:139-151 | A cached book is reused, a missing one is built from the rows and cached under its own key. |
| MatchingService.BookCache.InvalidateBook | src/matching/matching-service.ts:88-91 | Exactly this book is dropped. |
| MatchingService.BookCache.PlaceOrder | src/matching/matching-service.ts:153-393 | A whole call, from the cache to the cache, touching no other book. |
| CallEvents.CallIsItsEvents | src/matching/matching-service.ts:153-393 | From every reachable state, a call that runs without a pause is possible as a sequence of events of the service, and for every fate of its transaction these events do to the database and the cached book what the method does, and nothing to other books. |
| CallEvents.CallerOfRuns | src/matching/matching-service.ts:156-393 | The same in every reachable state, with the new order row saying what the caller asked for. |
| CallEvents.FailedReadIsItsEvents | src/matching/matching-service.ts:139-156 | A call whose read fails ends and leaves database and cache as they were. |
| Collateral.AddClobTrades | src/api/routes/positions.ts:176-187 | The loop over the wallet's trades: which markets get an entry, and its value. |
| Collateral.AddIndexedTrades | src/api/routes/positions.ts:189-215 | An indexed trade counts once, and only if its pair of orders was not seen. |
| Collateral.GetCalculatedCollateralMap | src/api/routes/positions.ts:149-218 | The recomputed collateral per market from both sources. |
| Collateral.TotalsAgree | src/api/routes/positions.ts:176-187 | Without self-trades the endpoint's sum equals the net cost that the transactions accumulate. |
| Collateral.CopyCosts | src/api/routes/positions.ts:189-215 | An indexed copy of a trade of the book, in either direction, costs every wallet what the trade costs it. |
| Collateral.BuyerPays | src/api/routes/positions.ts:201-213 | On an indexed trade the buyer's collateral grows by price times quantity and the seller's shrinks by it, whoever reported the trade. |
| Collateral.ChainStandsIn | src/api/routes/positions.ts:149-218 | If the chain has copies of all trades and the book none of them, the same collateral is recomputed. |
| Collateral.SamePair | src/api/routes/positions.ts:176-195 | Two trades have one key exactly if they have the same two orders. |
| Collateral.IndexedFound | src/api/routes/positions.ts:167-172 | The query returns the indexed trades of these markets in which the wallet takes part. |
| Collateral.RecomputedIsIncremental | src/api/routes/positions.ts:149-218 | In every sound database the recomputed collateral is the stored one plus the signed cost of the trades that only the chain has, and exists for exactly the markets with either. |
| Collateral.ReportedCollateral | src/api/routes/positions.ts:327-333 | What the endpoint reports for a position is the stored collateral plus that cost. |
| Collateral.RepeatedTradesAddNothing | src/api/routes/positions.ts:189-215 | Indexed trades that repeat the wallet's CLOB trades add nothing. |
| Agreement.CollateralOfRuns | src/api/routes/positions.ts:149-218 | In every state the service reaches, recomputed and stored collateral are equal if and only if the trades that only the chain has sum to no cost. |
| OrderbookEndpoint.Aggregate | src/api/routes/markets.ts:207-227 | One entry per side, outcome and price with resting orders, with their quantity and number. |
| OrderbookEndpoint.AnyOrder | src/api/routes/markets.ts:180-194 | The order in which the rows are returned does not matter. |
| OrderbookEndpoint.EndpointShowsDepth | src/api/routes/markets.ts:180-253 | Restricted to one outcome the endpoint's levels are, in order, the depth of the book the rows describe. |
| OrderbookEndpoint.GetOrderbook | src/api/routes/markets.ts:180-261 | The same for the whole response, both sides and both outcomes. |
| Agreement.EndpointShowsTheCachedBook | src/api/routes/markets.ts:180-253 | In every state the service reaches, the endpoint shows the depth of the cached book of every key that no call is at work on. |
| FixedPoint.PrintThenParse | src/api/routes/positions.ts:127-143 | Printing and parsing is the identity on every number of 1e-8 units. |
| FixedPoint.AddIsExact | src/api/routes/positions.ts:127-143 | Adding printed amounts prints their sum. |
| FixedPoint.FoldAnyOrder | src/api/routes/positions.ts:384-398 | The summary folds give the printed exact sum in whatever order the exposures come. |
| FixedPoint.ReadersAgree | src/api/routes/positions.ts:76-80 | The profit functions and the adder read the same amount if and only if the text has no sign or its fraction is zero; otherwise they differ by twice the fraction. |
| FixedPoint.FractionReads | src/api/routes/positions.ts:76-80 | A fraction shorter than eight digits counts as filled up with zeros, a longer one is cut off. |
| FixedPoint.NoWholePart | src/api/routes/positions.ts:76-80 | A text that starts with the point reads as its fraction. |
| FixedPoint.RealizedPnl | src/api/routes/positions.ts:68-88 | The realized profit, with its exact error for negative collateral. |
| FixedPoint.RealizedPnlRightIff | src/api/routes/positions.ts:68-88 | It is payout minus collateral if and only if the collateral is not negative or a whole number. |
| FixedPoint.UnrealizedPnl | src/api/routes/positions.ts:101-124 | The unrealized profit, with the same error. |
| FixedPoint.UnrealizedPnlRightIff | src/api/routes/positions.ts:101-124 | It is market value minus collateral if and only if the collateral is not negative or a whole number. |
| FixedPoint.SellerProfitIsWrong | src/api/routes/positions.ts:76-80 | A seller who received 1.50 and holds nothing is shown a profit of 0.50. |
| Pagination.FollowIsAll | src/api/routes/orders.ts:355-391 | Following the cursors terminates and concatenates to the filtered rows in descending order. |
| Pagination.NewestFirst | src/api/routes/orders.ts:374-379 | That order is newest first, and among equal times the id first that is later at the first difference of the two. |
| Pagination.FromRow | src/api/routes/orders.ts:357-368 | The cursor condition of a row selects exactly what comes after it. |
| Pagination.PageSplits | src/api/routes/orders.ts:374-391 | A page is the next rows, and another page is announced exactly when there are more. |
| Pagination.PagesAreComplete | src/api/routes/orders.ts:355-391 | Whatever is inserted and whatever status orders get between pages: the pages stay in the order of the endpoint, and every order that is there all the time in a state that the query asks for is returned. |
| Pagination.WalkIsComplete | src/api/routes/orders.ts:355-391 | While orders are inserted and change their status between pages, no order is returned twice, and in a listing of all orders every order present from the start is returned. |
| RateLimiter.Limiter.ApplyLimit | src/api/middleware/rateLimiter.ts:88-130 | The decision about one request, with the window it leaves; no other client or tier is affected. |
| RateLimiter.WindowBound | src/api/middleware/rateLimiter.ts:103-129 | No window admits more than the limit, or one request if the limit is below one. |
| RateLimiter.IntervalBound | src/api/middleware/rateLimiter.ts:103-129 | Any half-open interval of one window length admits at most one less than twice that, over any run with a nondecreasing clock (`RateLimiter.BoundIsReached` admits that many). |
| RateLimiter.NextAdmittedIff | src/api/middleware/rateLimiter.ts:103-129 | While a window is open a request is admitted exactly if the window admitted fewer than the limit, and the answer says how many it will still admit. |
| RateLimiter.OpensWindow | src/api/middleware/rateLimiter.ts:103-113 | A request that finds no open window opens one and is the first that it admits. |
| EventFetcher.FetchByLedgerWindow | apps/indexer/src/eventFetcher.ts:39-77 | The paging loop terminates and returns the events of the window as far as the chain has come, in order and once each, unless its last request failed; the requests before were answered. |
| EventFetcher.PageLooked | apps/indexer/src/eventFetcher.ts:46-69 | After a page the loop has everything up to its position, and everything there is when it stops. |
| EventIds.ReadEventId | apps/indexer/src/idempotency.ts:51-65 | An event id reads as its three numbers however they are padded. |
| EventIds.KeyInjective | apps/indexer/src/idempotency.ts:72-85 | Under a collision-free hash a key names one contract and one position. |
| BatchWriter.PrismaBatchWriter.InsertAllIfNew | apps/indexer/src/idempotency.ts:192-217 | The records whose keys are processed are taken out and counted. |
| BatchWriter.PrismaBatchWriter.ReconcileTradeIntoPositions | apps/indexer/src/batchWriter.ts:248-315 | Both positions of a trade are upserted inside the transaction; what fails there is caught, whatever it did to the transaction. |
| BatchWriter.PrismaBatchWriter.PersistRecord | apps/indexer/src/batchWriter.ts:139-243 | One record: a known key is skipped, otherwise the event is marked, its row written and its positions upserted, up to the first statement that fails; in a transaction that was ended every record throws. |
| BatchWriter.PrismaBatchWriter.PersistAll | apps/indexer/src/batchWriter.ts:86-130 | The records of a batch in one transaction, which sees its own changes, with the counters and errors of the source. |
| BatchWriter.PrismaBatchWriter.Write | apps/indexer/src/batchWriter.ts:55-133 | What the database holds after a batch and what the caller is told, for every fault of every statement and every end of the transaction. |
| BatchWriter.EveryRecordIsCounted | apps/indexer/src/batchWriter.ts:86-133 | Whoever gets an answer is told of every record as written, skipped or failed. |
| BatchWriter.HowItWent | apps/indexer/src/batchWriter.ts:86-130 | A batch ends its transaction if and only if one of its records does; otherwise it reports errors if and only if a record throws, and without errors every new key is done once and counted. |
| BatchWriter.NothingWrittenIff | apps/indexer/src/batchWriter.ts:51-133 | A batch with new events is answered without errors although nothing of it is committed if and only if the transaction is to commit and of the new records the last one, and only it, fails where that is caught. |
| BatchWriter.WrittenOnce | apps/indexer/src/batchWriter.ts:51-133 | A batch without errors that loses nothing applies the last record of each new key once, skips what was processed, and counts it. |
| BatchWriter.BatchKeeps | apps/indexer/src/batchWriter.ts:51-133 | Any batch that loses nothing leaves each event applied at most once and exactly the marked ones applied, whatever else fails. |
| BatchWriter.BatchLost | apps/indexer/src/batchWriter.ts:51-133 | A batch that loses an event leaves one that is marked without effect, or passes over one that is not marked without an error. |
| Ingestion.PollingIngestionLoop.IngestFromCursor | apps/indexer/src/ingestion.ts:185-315 | Fetching, parsing and writing one window with the requests that were made, and the cursor that follows from each failure, silent ones included. |
| Ingestion.PollingIngestionLoop.FlushCheckpoint | apps/indexer/src/ingestion.ts:140-161 | When the cursor is saved and when the count of batches restarts. |
| Ingestion.PollingIngestionLoop.TickOnce | apps/indexer/src/ingestion.ts:106-138 | One tick is one step of the run machine, and a tick in progress makes it do nothing. |
| Ingestion.StepKeeps | apps/indexer/src/ingestion.ts:106-161 | Every tick that loses nothing, and every stop, crash and restart, keeps: everything due is processed, nothing took effect twice, the saved cursor is not ahead. |
| Ingestion.LosingBreaks | apps/indexer/src/ingestion.ts:185-314 | Every tick that loses an event breaks that. |
| Ingestion.SoundIff | apps/indexer/src/ingestion.ts:106-315 | So it holds all along a run if and only if no tick of the run loses an event. |
| Ingestion.ExactlyOnce | apps/indexer/src/ingestion.ts:106-315 | Over every run of successes, failures, crashes and restarts in which no tick loses an event, each parseable event above the starting cursor and up to the cursor in memory took effect exactly once. |
| Ingestion.TradeIsLost | apps/indexer/src/ingestion.ts:272-314 | One trade whose market has no row: one tick moves and saves the cursor, reports no error and commits nothing, and the trade is lost whatever happens later. |
| Ingestion.LostForGood | apps/indexer/src/ingestion.ts:185-204 | An event that the saved cursor has passed without a mark never takes effect, in any run. |
| Ingestion.CleanTicksCatchUp | apps/indexer/src/ingestion.ts:106-138 | After n ticks in which nothing fails the cursor has moved n windows or has reached the latest ledger, from any state. |
| Ingestion.EventuallyExactlyOnce | apps/indexer/src/ingestion.ts:106-315 | After any run that lost nothing, enough clean ticks make every parseable event up to the latest ledger take effect exactly once. |
| Ingestion.StampedKeysDistinct | apps/indexer/src/idempotency.ts:51-85 | The generated keys are distinct for events at distinct positions, which is what the exactly-once results ask of them. |
| Ingestion.PollingIngestionLoop.StopLoop | apps/indexer/src/ingestion.ts:80-104 | The end of the process saves the cursor whatever the count of batches. |
| Ingestion.BatchOrder | apps/indexer/src/ingestion.ts:255-285 | In a batch markets come before trades, trades before resolutions, those before deposits, and each kind in the order of the log. |
| Ingestion.StopSaves | apps/indexer/src/ingestion.ts:80-104 | A restart after a stop goes on where the loop had come, whatever the count of batches was. |
| Ingestion.CheckpointLag | apps/indexer/src/ingestion.ts:106-161 | While saves succeed a crash repeats fewer than flushEvery batches of at most one window each. |
| IndexedPositions.PositionTable.UpsertShares | apps/indexer/src/batchWriter.ts:273-308 | One upsert creates a row from its delta cut off at zero, or increments it. |
| IndexedPositions.PositionTable.ReconcileTradeIntoPositions | apps/indexer/src/batchWriter.ts:248-308 | Both sides of an indexed trade are upserted in turn; a failure of either is caught and ends the method. |
| IndexedPositions.BalanceIs | apps/indexer/src/batchWriter.ts:273-308 | Whatever upserts the book and the chain do, in any order: a position is its book deltas plus its chain deltas plus what a creating chain delta was cut off by. |
| IndexedPositions.CopyMovesShares | apps/indexer/src/batchWriter.ts:248-308 | An indexed copy of a trade of the book moves, for every user, the YES and the NO shares that the trade moves, in both directions and for both outcomes. |
| IndexedPositions.CopiesMoveShares | apps/indexer/src/batchWriter.ts:248-308 | A chain that copies the book moves every position by the shares of the book's trades. |
| IndexedPositions.RowsAfterTrade | apps/indexer/src/batchWriter.ts:248-308 | The rows after one indexed trade, for users with and without rows: the buyer's and the seller's shares of its outcome change, nothing else does. |
| IndexedPositions.SharedPosition | src/matching/matching-service.ts:298-324 | With transactions of the book and chain trades in any order, a position is the signed sum of its user's trades of the book, plus its chain deltas, plus the cut-off if a chain trade created the row. |
| IndexedPositions.MarketTotal | apps/indexer/src/batchWriter.ts:273-308 | The shares of a market sum to what its creating chain deltas were cut off by, whatever the book added. |
| IndexedPositions.BalancesIff | apps/indexer/src/batchWriter.ts:273-308 | They sum to zero if and only if no row of the market was created by a chain sale. |
| IndexedPositions.ChainOnlyBalancesIff | apps/indexer/src/batchWriter.ts:248-308 | If only the chain writes, and every trade is between two users, a market balances if and only if it has no trade with a positive quantity. |
| IndexedPositions.OneTradeUnbalances | apps/indexer/src/batchWriter.ts:248-308 | One purchase gives the buyer the shares and the seller none, so the market holds that many too many. |
| PositionsOfRuns.MovedStep | apps/indexer/src/batchWriter.ts:248-315 | A tick keeps every trade row with its position upserts if and only if it commits no row without them. |
| PositionsOfRuns.ChainPositions | apps/indexer/src/batchWriter.ts:248-315 | After every run that loses no event and skips no position, the upserts of each position sum to those of the processed trades of the log, each once, among them all that are due. |
| PositionsOfRuns.RecordsMoveShares | apps/indexer/src/batchWriter.ts:248-308 | Records of trades that copy trades of a book move every position by the shares of these trades. |
| PositionsOfRuns.PositionsOfBoth | src/matching/matching-service.ts:298-324 | With transactions of the book in between, a position is the net of its user's book trades, plus the trades of the log that are processed, each once, plus the cut-off. |

## One-step facts

Small lemmas that stand beside the results above; each reads off one definition.

- `Collateral.SelfTradeDisagrees` (`src/api/routes/positions.ts:183-187`): on a trade of a wallet with itself the
  recomputed and the stored cost would differ, unless it is zero.
- `CallEvents.ResultOfEvents` (`src/matching/matching-service.ts:353-393`): the caller gets a result exactly when its
  events end with an audit that did not fail.
- `RateLimiter.RetryAfterIsEnough`, `RateLimiter.RetryAfterIsNeeded` (`src/api/middleware/rateLimiter.ts:116-125`): a
  refused client that waits as long as it was told is admitted, and a second less is not enough.
- `Ingestion.CursorMovesForward` (`apps/indexer/src/ingestion.ts:193-204`): the cursor in memory never goes back and
  moves by at most one window.
- `Ingestion.TickAdvances` (`apps/indexer/src/ingestion.ts:185-314`): a tick in which nothing fails takes in the next
  window as far as the chain has come.
- `GreedyMatch.TradeIdText` (`src/matching/engine.ts:122-129`): the text of one trade id.
- `FixedPoint.NothingToRead` (`src/api/routes/positions.ts:76-80`): the empty text reads as zero, a sign alone is refused.
- `Ingestion.SavesEvery` (`apps/indexer/src/ingestion.ts:140-161`): a tick saves the cursor only when flushEvery batches
  have come together.

## Left out

- Concurrency inside one database transaction: a transaction is one atomic step; transactions of different books interleave freely.
- Restarts during a transaction: a transaction that has not committed when the process stops never commits.
- `POST /orders`, which writes an order row without calling `placeOrder`: the service is taken to be the only writer of orders.
- Settlement queue, Redis cache refresh and the audit stream: outside the transaction; only a failing audit write is modelled, as an error after the commit.
- Timestamps of book orders: nothing in the book reads them, and memory and hydration set them differently.
- Iteration order of `getOrdersByUser` and of the level maps: the model returns the right orders and sums in an unspecified order.
- Price levels and match commands as objects: they are values here, stored in the maps and lists that the methods update; the order objects are shared by reference as in the source.
- Guards that the book's invariant makes unreachable, such as a missing level of a known order, are not modelled; nor are `getOrdersAtPrice` and `getSpread`.
- Floating point: price ticks, cost sums and mid prices are integers; the mid prices of the unrealized profit are given in units of 1e-8.
- Text of cursors (JSON and base64) and HTTP, authentication, logging and metrics around the routes.
- Retries inside `fetchPageWithRetry`: a request either answers or fails for good.
- Stellar node, XDR decoding and SHA-256: the four parsers are one function from an event to an optional record, and the hash is a parameter.
- MarketTotal: takes both upserts of a chain trade to go through; BalanceIs, ReconcileTradeIntoPositions and the batch writer allow either to fail.
- UnrealizedPnl: takes the mid prices as rounded to units of 1e-8; how they are rounded is floating point.
- Faults that differ for one key within a batch: what befalls the statements of a record depends on its key.
- A commit that reaches the database after its caller has seen the error: a reply is lost only after the commit, so no other call of the book runs in between.
- Chain trades during the service's runs: `Service.dfy` takes the transactions to be the only writer of positions; `IndexedPositions.dfy` interleaves both writers, without the rest of the service.
- Overlapping ticks: a tick is one step, because the in-progress flag makes an overlapping tick do nothing.
- The oracle, submission queues, settlement and finalization workers, and market resolution.
- What a persisted indexer record does to tables other than positions: a record takes effect or it does not.
- Orders that are deleted between two pages of a listing; the repository deletes none.
