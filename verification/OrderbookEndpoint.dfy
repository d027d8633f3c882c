/** The order book endpoint: it aggregates the open order rows of a market, in whatever order the
    database returns them, into price levels. Restricted to one outcome these are the depth levels
    of the book in memory. */
module OrderbookEndpoint {
  import opened Domain
  import opened PriorityList
  import opened DepthViews
  import opened Ledger
  import opened Hydration
  import opened Coherence

  /** One accumulated level; the list of them keeps the order of first appearance. */
  datatype Entry = Entry(side: OrderSide, price: int, outcome: Outcome, totalQuantity: int, orderCount: nat) {
    predicate Is(side: OrderSide, outcome: Outcome, price: int) {
      this.side == side && this.outcome == outcome && this.price == price
    }
  }

  datatype Level = Level(price: int, outcome: Outcome, totalQuantity: int, orderCount: nat)

  /** The open rows of a market. */
  function FindOpen(rows: seq<OrderRow>, marketId: string): seq<OrderRow> {
    if rows == [] then []
    else
      var row := rows[|rows| - 1];
      FindOpen(rows[..|rows| - 1], marketId) + (if row.marketId == marketId && row.status != FILLED then [row] else [])
  }

  predicate Stands(row: OrderRow, key: Key, side: OrderSide, p: int) {
    Rests(row, key, RestingSide(side)) && row.price == p
  }

  function QuantityAt(rows: seq<OrderRow>, key: Key, side: OrderSide, p: int): int {
    if rows == [] then 0
    else
      var row := rows[|rows| - 1];
      QuantityAt(rows[..|rows| - 1], key, side, p) + (if Stands(row, key, side, p) then RemainingOf(row) else 0)
  }

  function CountAt(rows: seq<OrderRow>, key: Key, side: OrderSide, p: int): nat {
    if rows == [] then 0
    else CountAt(rows[..|rows| - 1], key, side, p) + (if Stands(rows[|rows| - 1], key, side, p) then 1 else 0)
  }

  lemma AtPush(rows: seq<OrderRow>, row: OrderRow, key: Key, side: OrderSide, p: int)
    ensures QuantityAt(rows + [row], key, side, p) ==
      QuantityAt(rows, key, side, p) + (if Stands(row, key, side, p) then RemainingOf(row) else 0)
    ensures CountAt(rows + [row], key, side, p) ==
      CountAt(rows, key, side, p) + (if Stands(row, key, side, p) then 1 else 0)
  {
    assert (rows + [row])[..|rows|] == rows;
  }

  lemma {:induction false} AtConcat(a: seq<OrderRow>, b: seq<OrderRow>, key: Key, side: OrderSide, p: int)
    ensures QuantityAt(a + b, key, side, p) == QuantityAt(a, key, side, p) + QuantityAt(b, key, side, p)
    ensures CountAt(a + b, key, side, p) == CountAt(a, key, side, p) + CountAt(b, key, side, p)
  {
    if b == [] {
      assert a + b == a;
    } else {
      var b', row := b[..|b| - 1], b[|b| - 1];
      assert a + b == (a + b') + [row] && b == b' + [row];
      AtConcat(a, b', key, side, p);
      AtPush(a + b', row, key, side, p);
      AtPush(b', row, key, side, p);
    }
  }

  lemma AtWithout(rows: seq<OrderRow>, k: nat, key: Key, side: OrderSide, p: int)
    requires k < |rows|
    ensures var rest := rows[..k] + rows[k + 1..];
      && QuantityAt(rows, key, side, p) == QuantityAt(rest, key, side, p)
         + (if Stands(rows[k], key, side, p) then RemainingOf(rows[k]) else 0)
      && CountAt(rows, key, side, p) == CountAt(rest, key, side, p) + (if Stands(rows[k], key, side, p) then 1 else 0)
  {
    var a, row, b := rows[..k], rows[k], rows[k + 1..];
    hide QuantityAt, CountAt, Stands;
    assert rows == (a + [row]) + b;
    AtConcat(a + [row], b, key, side, p);
    AtPush(a, row, key, side, p);
    AtConcat(a, b, key, side, p);
  }

  /** The order in which the database returns the rows does not matter. */
  lemma {:induction false} AnyOrder(a: seq<OrderRow>, b: seq<OrderRow>, key: Key, side: OrderSide, p: int)
    requires multiset(a) == multiset(b)
    ensures QuantityAt(a, key, side, p) == QuantityAt(b, key, side, p)
    ensures CountAt(a, key, side, p) == CountAt(b, key, side, p)
  {
    hide QuantityAt, CountAt, Stands;
    if a == [] {
      assert |b| == |multiset(b)|;
    } else {
      var last := |a| - 1;
      assert a[last] in multiset(a);
      assert a[last] in multiset(b);
      var k :| 0 <= k < |b| && b[k] == a[last];
      MultisetWithout(a, last);
      MultisetWithout(b, k);
      AnyOrder(a[..last] + a[last + 1..], b[..k] + b[k + 1..], key, side, p);
      AtWithout(a, last, key, side, p);
      AtWithout(b, k, key, side, p);
    }
  }

  lemma LastLevel(row: OrderRow, key: Key, side: OrderSide, p: int)
    ensures var level := AtPrice(if Rests(row, key, RestingSide(side)) then [RestingOrder(row)] else [], p);
      && Sum(level) == (if Stands(row, key, side, p) then RemainingOf(row) else 0)
      && |level| == (if Stands(row, key, side, p) then 1 else 0)
  {
  }

  lemma OpenPush(rows: seq<OrderRow>, row: OrderRow, marketId: string, outcome: Outcome, side: OrderSide, p: int)
    ensures var key := Key(marketId, outcome);
      var before, after := FindOpen(rows, marketId), FindOpen(rows + [row], marketId);
      && QuantityAt(after, key, side, p) == QuantityAt(before, key, side, p)
         + (if Stands(row, key, side, p) then RemainingOf(row) else 0)
      && CountAt(after, key, side, p) == CountAt(before, key, side, p) + (if Stands(row, key, side, p) then 1 else 0)
  {
    assert (rows + [row])[..|rows|] == rows;
    AtPush(FindOpen(rows, marketId), row, Key(marketId, outcome), side, p);
    hide QuantityAt, CountAt;
    assert FindOpen(rows, marketId) + [] == FindOpen(rows, marketId);
  }

  /** The rows that stand at a price are that level of the book. */
  lemma {:induction false} LevelOfRows(rows: seq<OrderRow>, marketId: string, outcome: Outcome, side: OrderSide, p: int)
    ensures var key := Key(marketId, outcome);
      var level := AtPrice(Resting(rows, key, RestingSide(side)), p);
      && QuantityAt(FindOpen(rows, marketId), key, side, p) == Sum(level)
      && CountAt(FindOpen(rows, marketId), key, side, p) == |level|
  {
    if rows != [] {
      var key := Key(marketId, outcome);
      var before, row := rows[..|rows| - 1], rows[|rows| - 1];
      assert rows == before + [row];
      LevelOfRows(before, marketId, outcome, side, p);
      hide QuantityAt, CountAt, FindOpen, Resting, Rests, Stands, AtPrice, Sum;
      OpenPush(before, row, marketId, outcome, side, p);
      RestingPush(before, row, key, RestingSide(side));
      LastLevel(row, key, side, p);
      var last := if Rests(row, key, RestingSide(side)) then [RestingOrder(row)] else [];
      AtPriceConcat(Resting(before, key, RestingSide(side)), last, p);
      SumConcat(AtPrice(Resting(before, key, RestingSide(side)), p), AtPrice(last, p));
    }
  }

  // ------------------------------------------------------------ aggregation

  function IndexOfLevel(levels: seq<Entry>, side: OrderSide, outcome: Outcome, price: int): (i: nat)
    ensures i <= |levels|
    ensures i < |levels| ==> levels[i].Is(side, outcome, price)
    ensures forall k :: 0 <= k < i ==> !levels[k].Is(side, outcome, price)
  {
    if levels == [] || levels[0].Is(side, outcome, price) then 0
      else 1 + IndexOfLevel(levels[1..], side, outcome, price)
  }

  ghost predicate Correct(e: Entry, rows: seq<OrderRow>, marketId: string) {
    && e.totalQuantity == QuantityAt(rows, Key(marketId, e.outcome), e.side, e.price)
    && e.orderCount == CountAt(rows, Key(marketId, e.outcome), e.side, e.price)
    && e.orderCount > 0
  }

  ghost predicate DistinctEntries(s: seq<Entry>) {
    forall i, j :: 0 <= i < j < |s| ==> !s[i].Is(s[j].side, s[j].outcome, s[j].price)
  }

  /** One entry per side, outcome and price at which rows stand, with their quantity and number. */
  ghost predicate Aggregated(levels: seq<Entry>, rows: seq<OrderRow>, marketId: string) {
    && DistinctEntries(levels)
    && (forall i :: 0 <= i < |levels| ==> Correct(levels[i], rows, marketId))
    && (forall side, outcome, p :: CountAt(rows, Key(marketId, outcome), side, p) > 0 ==>
         Present(levels, side, outcome, p))
  }

  ghost predicate Present(levels: seq<Entry>, side: OrderSide, outcome: Outcome, p: int) {
    exists i :: 0 <= i < |levels| && levels[i].Is(side, outcome, p)
  }

  /** The list after one more row. */
  function Counted(levels: seq<Entry>, row: OrderRow): seq<Entry> {
    if RemainingOf(row) <= 0 then levels
    else
      var i := IndexOfLevel(levels, row.side, row.outcome, row.price);
      if i < |levels| then
        levels[i := levels[i].(totalQuantity := levels[i].totalQuantity + RemainingOf(row),
                               orderCount := levels[i].orderCount + 1)]
      else levels + [Entry(row.side, row.price, row.outcome, RemainingOf(row), 1)]
  }

  lemma CountedStep(levels: seq<Entry>, rows: seq<OrderRow>, row: OrderRow, marketId: string)
    requires Aggregated(levels, rows, marketId) && row.marketId == marketId && row.status != FILLED
    ensures Aggregated(Counted(levels, row), rows + [row], marketId)
  {
    var levels', all, at := Counted(levels, row), rows + [row], IndexOfLevel(levels, row.side, row.outcome, row.price);
    forall side, outcome, p
      ensures QuantityAt(all, Key(marketId, outcome), side, p) == QuantityAt(rows, Key(marketId, outcome), side, p)
        + (if RemainingOf(row) > 0 && row.side == side && row.outcome == outcome && row.price == p
          then RemainingOf(row) else 0)
      ensures CountAt(all, Key(marketId, outcome), side, p) == CountAt(rows, Key(marketId, outcome), side, p)
        + (if RemainingOf(row) > 0 && row.side == side && row.outcome == outcome && row.price == p then 1 else 0)
    {
      AtPush(rows, row, Key(marketId, outcome), side, p);
    }
    if RemainingOf(row) > 0 && at == |levels| {
      assert !Present(levels, row.side, row.outcome, row.price);
      NothingAt(rows, marketId, row.outcome, row.side, row.price);
    }
    hide QuantityAt, CountAt;
    forall side, outcome, p | CountAt(all, Key(marketId, outcome), side, p) > 0
      ensures Present(levels', side, outcome, p)
    {
      if CountAt(rows, Key(marketId, outcome), side, p) > 0 {
        var i :| 0 <= i < |levels| && levels[i].Is(side, outcome, p);
        assert levels'[i].Is(side, outcome, p);
      } else {
        assert levels'[at].Is(side, outcome, p);
      }
    }
  }

  lemma {:induction false} NothingAt(rows: seq<OrderRow>, marketId: string, outcome: Outcome, side: OrderSide, p: int)
    requires CountAt(rows, Key(marketId, outcome), side, p) == 0
    ensures QuantityAt(rows, Key(marketId, outcome), side, p) == 0
  {
    if rows != [] {
      NothingAt(rows[..|rows| - 1], marketId, outcome, side, p);
    }
  }

  method Aggregate(openOrders: seq<OrderRow>, ghost marketId: string) returns (levels: seq<Entry>)
    requires forall r :: r in openOrders ==> r.marketId == marketId && r.status != FILLED
    ensures Aggregated(levels, openOrders, marketId)
  {
    levels := [];
    hide Aggregated;
    assert Aggregated([], [], marketId) by {
      NoRows(marketId);
    }
    var n := 0;
    while n < |openOrders|
      invariant 0 <= n <= |openOrders|
      invariant Aggregated(levels, openOrders[..n], marketId)
    {
      var order := openOrders[n];
      CountedStep(levels, openOrders[..n], order, marketId);
      assert openOrders[..n + 1] == openOrders[..n] + [order];
      var remainingQuantity := order.quantity - order.filledQuantity;
      if remainingQuantity > 0 {
        var i := IndexOfLevel(levels, order.side, order.outcome, order.price);
        if i < |levels| {
          var existing := levels[i];
          levels := levels[i := existing.(totalQuantity := existing.totalQuantity + remainingQuantity,
                                        orderCount := existing.orderCount + 1)];
        } else {
          levels := levels + [Entry(order.side, order.price, order.outcome, remainingQuantity, 1)];
        }
      }
      n := n + 1;
    }
    assert openOrders[..|openOrders|] == openOrders;
  }

  lemma NoRows(marketId: string)
    ensures Aggregated([], [], marketId)
  {
  }

  // ----------------------------------------------------------- the response

  function OfSide(levels: seq<Entry>, side: OrderSide): seq<Entry> {
    if levels == [] then []
    else
      var e := levels[|levels| - 1];
      OfSide(levels[..|levels| - 1], side) + (if e.side == side then [e] else [])
  }

  /** Behind every entry whose price is at least as good. */
  function InsertEntry(side: Side, sorted: seq<Entry>, e: Entry): seq<Entry> {
    if sorted == [] then [e]
    else if Better(side, e.price, sorted[0].price) then [e] + sorted
    else [sorted[0]] + InsertEntry(side, sorted[1..], e)
  }

  function SortEntries(side: Side, s: seq<Entry>): seq<Entry> {
    if s == [] then [] else InsertEntry(side, SortEntries(side, s[..|s| - 1]), s[|s| - 1])
  }

  function ToLevels(s: seq<Entry>): seq<Level> {
    if s == [] then [] else [Level(s[0].price, s[0].outcome, s[0].totalQuantity, s[0].orderCount)] + ToLevels(s[1..])
  }

  /** The bids or the asks of the response. */
  function SideLevels(levels: seq<Entry>, side: OrderSide): seq<Level> {
    ToLevels(SortEntries(RestingSide(side), OfSide(levels, side)))
  }

  /** The levels of one outcome. */
  function OnlyOutcome(levels: seq<Level>, outcome: Outcome): seq<DepthLevel> {
    if levels == [] then []
    else
      var l := levels[0];
      (if l.outcome == outcome then [DepthLevel(l.price, l.totalQuantity, l.orderCount)] else [])
        + OnlyOutcome(levels[1..], outcome)
  }

  /** In price order, and no entry twice. */
  ghost predicate Ordered(side: Side, s: seq<Entry>) {
    forall i, j :: 0 <= i < j < |s| ==>
      !Better(side, s[j].price, s[i].price) && !s[i].Is(s[j].side, s[j].outcome, s[j].price)
  }

  ghost predicate NewEntry(s: seq<Entry>, e: Entry) {
    forall x :: x in s ==> !x.Is(e.side, e.outcome, e.price)
  }

  lemma {:induction false} InsertEntryOrdered(side: Side, s: seq<Entry>, e: Entry)
    requires Ordered(side, s) && NewEntry(s, e)
    ensures Ordered(side, InsertEntry(side, s, e))
    ensures forall x :: x in InsertEntry(side, s, e) <==> x in s || x == e
  {
    if s != [] {
      assert s == [s[0]] + s[1..];
      if !Better(side, e.price, s[0].price) {
        InsertEntryOrdered(side, s[1..], e);
        var r := InsertEntry(side, s[1..], e);
        forall x | x in r ensures !Better(side, x.price, s[0].price) && !s[0].Is(x.side, x.outcome, x.price) {
          if x in s[1..] {
            var i :| 0 <= i < |s[1..]| && s[1..][i] == x;
            assert s[i + 1] == x;
          }
        }
      }
    }
  }

  lemma {:induction false} SortOrdered(side: Side, s: seq<Entry>)
    requires DistinctEntries(s)
    ensures Ordered(side, SortEntries(side, s))
    ensures forall x :: x in SortEntries(side, s) <==> x in s
  {
    if s != [] {
      var t, e := s[..|s| - 1], s[|s| - 1];
      assert s == t + [e];
      SortOrdered(side, t);
      hide Ordered;
      InsertEntryOrdered(side, SortEntries(side, t), e);
    }
  }

  lemma {:induction false} OfSideDistinct(levels: seq<Entry>, side: OrderSide)
    requires DistinctEntries(levels)
    ensures forall x :: x in OfSide(levels, side) <==> x in levels && x.side == side
    ensures DistinctEntries(OfSide(levels, side))
  {
    if levels != [] {
      var t, e := levels[..|levels| - 1], levels[|levels| - 1];
      assert levels == t + [e];
      OfSideDistinct(t, side);
      forall x | x in OfSide(t, side) ensures !x.Is(e.side, e.outcome, e.price) {
        var i :| 0 <= i < |t| && t[i] == x;
        assert levels[i] == x;
      }
    }
  }

  function PricesIn(d: seq<DepthLevel>): (r: seq<int>)
    ensures |r| == |d| && forall i :: 0 <= i < |d| ==> r[i] == d[i].price
  {
    seq(|d|, i requires 0 <= i < |d| => d[i].price)
  }

  ghost predicate Shown(s: seq<Entry>, outcome: Outcome, d: DepthLevel) {
    exists e :: e in s && e.outcome == outcome && d == DepthLevel(e.price, e.totalQuantity, e.orderCount)
  }

  /** The levels of one outcome keep the price order, strictly. */
  lemma {:induction false} OutcomeSorted(side: Side, s: seq<Entry>, orderSide: OrderSide, outcome: Outcome)
    requires Ordered(side, s) && forall e :: e in s ==> e.side == orderSide
    ensures var d := OnlyOutcome(ToLevels(s), outcome);
      StrictlySorted(side, PricesIn(d)) && forall x :: x in d <==> Shown(s, outcome, x)
  {
    if s != [] {
      var t, e := s[1..], s[0];
      assert s == [e] + t;
      OutcomeSorted(side, t, orderSide, outcome);
      assert ToLevels(s)[1..] == ToLevels(t);
      var d, rest := OnlyOutcome(ToLevels(s), outcome), OnlyOutcome(ToLevels(t), outcome);
      assert d == (if e.outcome == outcome then [DepthLevel(e.price, e.totalQuantity, e.orderCount)] else []) + rest;
      hide OnlyOutcome, ToLevels;
      ShownStep(e, t, outcome);
      if e.outcome == outcome {
        forall k | 0 <= k < |rest| ensures Better(side, e.price, rest[k].price) {
          assert Shown(t, outcome, rest[k]);
          var x :| x in t && x.outcome == outcome && x.price == rest[k].price;
          var i :| 0 <= i < |t| && t[i] == x;
          assert s[i + 1] == x && !s[0].Is(s[i + 1].side, s[i + 1].outcome, s[i + 1].price);
        }
        PrependSorted(side, DepthLevel(e.price, e.totalQuantity, e.orderCount), rest);
      }
      hide StrictlySorted, Ordered;
    }
  }

  lemma PrependSorted(side: Side, l: DepthLevel, rest: seq<DepthLevel>)
    requires StrictlySorted(side, PricesIn(rest)) && forall k :: 0 <= k < |rest| ==>
      Better(side, l.price, rest[k].price)
    ensures StrictlySorted(side, PricesIn([l] + rest))
  {
  }

  lemma ShownStep(e: Entry, t: seq<Entry>, outcome: Outcome)
    ensures forall d :: Shown([e] + t, outcome, d) <==>
      Shown(t, outcome, d) || (e.outcome == outcome && d == DepthLevel(e.price, e.totalQuantity, e.orderCount))
  {
    assert e in [e] + t;
    assert forall x :: x in t ==> x in [e] + t;
  }

  ghost predicate ShownOn(levels: seq<Entry>, side: OrderSide, outcome: Outcome, d: DepthLevel) {
    exists e ::
      e in levels && e.side == side && e.outcome == outcome && d == DepthLevel(e.price, e.totalQuantity, e.orderCount)
  }

  lemma ResponseSorted(levels: seq<Entry>, side: OrderSide, outcome: Outcome)
    requires DistinctEntries(levels)
    ensures var d := OnlyOutcome(SideLevels(levels, side), outcome);
      StrictlySorted(RestingSide(side), PricesIn(d)) && forall x :: x in d <==> ShownOn(levels, side, outcome, x)
  {
    var sorted := SortEntries(RestingSide(side), OfSide(levels, side));
    OfSideDistinct(levels, side);
    SortOrdered(RestingSide(side), OfSide(levels, side));
    hide OnlyOutcome, ToLevels, SortEntries, OfSide, Ordered, StrictlySorted;
    OutcomeSorted(RestingSide(side), sorted, side, outcome);
    var d := OnlyOutcome(ToLevels(sorted), outcome);
    forall x ensures x in d <==> ShownOn(levels, side, outcome, x) {
      assert x in d <==> Shown(sorted, outcome, x);
    }
  }

  /** A list of depth levels in strict price order, one for each price at which orders rest, is the depth. */
  lemma DepthFromMembers(side: Side, d: seq<DepthLevel>, view: seq<Order>)
    requires Sorted(side, view) && StrictlySorted(side, PricesIn(d))
    requires forall x :: x in d <==> AtPrice(view, x.price) != [] && x == LevelDepth(view, x.price)
    ensures d == DepthOf(view)
  {
    PricesSorted(side, view);
    hide Prices, AtPrice, Sorted, StrictlySorted, Sum;
    forall p ensures p in PricesIn(d) <==> p in Prices(view) {
      if p in PricesIn(d) {
        var i :| 0 <= i < |d| && PricesIn(d)[i] == p;
        assert d[i] in d;
      }
      if p in Prices(view) {
        assert LevelDepth(view, p) in d;
        var i :| 0 <= i < |d| && d[i] == LevelDepth(view, p);
        assert PricesIn(d)[i] == p;
      }
    }
    StrictlySortedUnique(side, PricesIn(d), Prices(view));
    forall i | 0 <= i < |d| ensures d[i] == DepthOf(view)[i] {
      assert d[i] in d && PricesIn(d)[i] == Prices(view)[i];
    }
  }

  /** For each outcome the endpoint shows, level by level and in order, the depth of the book that the
      rows describe. */
  lemma EndpointShowsDepth(rows: seq<OrderRow>, openOrders: seq<OrderRow>, levels: seq<Entry>, marketId: string,
                           outcome: Outcome,
                           side: OrderSide)
    requires DistinctRows(rows) && multiset(openOrders) == multiset(FindOpen(rows, marketId))
    requires Aggregated(levels, openOrders, marketId)
    ensures OnlyOutcome(SideLevels(levels, side), outcome) ==
      DepthOf(Rebuild(rows, Key(marketId, outcome)).On(RestingSide(side)))
  {
    var bookSide, view := RestingSide(side), Rebuild(rows, Key(marketId, outcome)).On(RestingSide(side));
    var d := OnlyOutcome(SideLevels(levels, side), outcome);
    ResponseSorted(levels, side, outcome);
    RebuiltSide(rows, Key(marketId, outcome), bookSide);
    hide OnlyOutcome, SideLevels, Rebuild, Resting, AtPrice, Sorted, DistinctIds, AllPositive, FindOpen,
         StrictlySorted, Sum, ShownOn, Aggregated;
    forall x ensures x in d <==> AtPrice(view, x.price) != [] && x == LevelDepth(view, x.price) {
      ShownIsDepth(rows, openOrders, levels, marketId, outcome, side, x);
    }
    DepthFromMembers(bookSide, d, view);
  }

  /** An entry is shown exactly when orders rest at its price, with their quantity and number. */
  lemma ShownIsDepth(rows: seq<OrderRow>, openOrders: seq<OrderRow>, levels: seq<Entry>, marketId: string,
                     outcome: Outcome,
                     side: OrderSide, x: DepthLevel)
    requires multiset(openOrders) == multiset(FindOpen(rows, marketId)) && Aggregated(levels, openOrders, marketId)
    ensures ShownOn(levels, side, outcome, x) <==>
      var level := AtPrice(Resting(rows, Key(marketId, outcome), RestingSide(side)), x.price);
      level != [] && x == DepthLevel(x.price, Sum(level), |level|)
  {
    var key, p := Key(marketId, outcome), x.price;
    AnyOrder(openOrders, FindOpen(rows, marketId), key, side, p);
    LevelOfRows(rows, marketId, outcome, side, p);
    hide FindOpen, Resting, AtPrice, Sum, QuantityAt, CountAt, DistinctEntries;
    if ShownOn(levels, side, outcome, x) {
      var e :|
        e in levels && e.side == side && e.outcome == outcome
        && x == DepthLevel(e.price, e.totalQuantity, e.orderCount);
      var i :| 0 <= i < |levels| && levels[i] == e;
      assert Correct(levels[i], openOrders, marketId);
    }
    if CountAt(openOrders, key, side, p) > 0 {
      assert Present(levels, side, outcome, p);
      var i :| 0 <= i < |levels| && levels[i].Is(side, outcome, p);
      assert Correct(levels[i], openOrders, marketId) && levels[i] in levels;
    }
  }

  lemma {:induction false} OpenMembers(rows: seq<OrderRow>, marketId: string)
    ensures forall r :: r in FindOpen(rows, marketId) ==> r.marketId == marketId && r.status != FILLED
  {
    if rows != [] {
      OpenMembers(rows[..|rows| - 1], marketId);
    }
  }

  /** The response of the endpoint, whatever order the open rows come in. */
  method GetOrderbook(ghost rows: seq<OrderRow>, openOrders: seq<OrderRow>, ghost marketId: string)
    returns (bids: seq<Level>, asks: seq<Level>)
    requires DistinctRows(rows) && multiset(openOrders) == multiset(FindOpen(rows, marketId))
    ensures forall outcome :: OnlyOutcome(bids, outcome) == DepthOf(Rebuild(rows, Key(marketId, outcome)).bids)
    ensures forall outcome :: OnlyOutcome(asks, outcome) == DepthOf(Rebuild(rows, Key(marketId, outcome)).asks)
  {
    OpenMembers(rows, marketId);
    forall r | r in openOrders ensures r.marketId == marketId && r.status != FILLED {
      assert r in multiset(openOrders);
      assert r in multiset(FindOpen(rows, marketId));
    }
    hide OnlyOutcome, SideLevels, Rebuild, FindOpen, DepthOf, DistinctRows, Aggregated;
    var levels := Aggregate(openOrders, marketId);
    bids, asks := SideLevels(levels, BUY), SideLevels(levels, SELL);
    forall outcome
      ensures OnlyOutcome(bids, outcome) == DepthOf(Rebuild(rows, Key(marketId, outcome)).bids)
      ensures OnlyOutcome(asks, outcome) == DepthOf(Rebuild(rows, Key(marketId, outcome)).asks)
    {
      EndpointShowsDepth(rows, openOrders, levels, marketId, outcome, BUY);
      EndpointShowsDepth(rows, openOrders, levels, marketId, outcome, SELL);
    }
  }
}
