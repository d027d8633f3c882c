/** What the readers show in every state that the service reaches. */
module Agreement {
  import opened Domain
  import opened DepthViews
  import opened Ledger
  import opened Hydration
  import opened Conservation
  import opened MutexChain
  import opened Service
  import opened OrderbookEndpoint
  import Collateral

  /** Whatever calls have run, the endpoint shows for each side the depth of the cached book of this
      key, unless a call of that book is under way. */
  lemma EndpointShowsTheCachedBook(events: seq<Event>, key: Key, openOrders: seq<OrderRow>, levels: seq<Entry>,
                                   side: OrderSide)
    requires Run(events).Some?
    requires var s := Run(events).value;
      && multiset(openOrders) == multiset(FindOpen(s.db.orders, key.marketId))
      && Aggregated(levels, openOrders, key.marketId)
      && Free(LineOf(s, key)) && key in s.books
    ensures var s := Run(events).value;
      && s.books[key] < |s.store|
      && OnlyOutcome(SideLevels(levels, side), key.outcome) == DepthOf(s.store[s.books[key]].On(RestingSide(side)))
  {
    var s := Run(events).value;
    InvariantOfRuns(events);
    LedgerRows(s.db);
    CachedBooksAreCoherent(events, key);
    hide *;
    assert key == Key(key.marketId, key.outcome);
    EndpointShowsDepth(s.db.orders, openOrders, levels, key.marketId, key.outcome, side);
  }

  /** Whatever calls have run, the recomputed collateral of a wallet is the stored one plus what only
      the chain knows: the two are equal exactly when that sums to nothing. */
  lemma CollateralOfRuns(events: seq<Event>, wallet: string, marketIds: seq<string>,
                         indexed: seq<Collateral.IndexedTrade>,
                         m: Collateral.Collaterals, id: string)
    requires Run(events).Some? && id in marketIds
    requires Collateral.Recomputed(m, Run(events).value.db.trades, indexed, wallet, marketIds)
    ensures var db := Run(events).value.db;
      && Collateral.At(m, id) == Collateral.Stored(db, id, wallet)
         + Collateral.ChainOnly(db.trades, indexed, wallet, marketIds, id)
      && (Collateral.At(m, id) == Collateral.Stored(db, id, wallet) <==>
           Collateral.ChainOnly(db.trades, indexed, wallet, marketIds, id) == 0)
  {
    InvariantOfRuns(events);
    var db := Run(events).value.db;
    assert LedgerOk(db);
    hide *;
    Collateral.RecomputedIsIncremental(db, wallet, marketIds, indexed, m, id);
  }
}
