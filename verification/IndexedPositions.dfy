/** The position rows have two writers: the transactions of placed orders, and the indexer, which
    upserts both sides of every chain trade. A row that the indexer creates starts from its delta cut
    off at zero, so a user whose first trade of a market was a chain sale keeps too much, for good. */
module IndexedPositions {
  import opened Domain
  import opened Accounts
  import opened Ledger
  import opened Conservation

  datatype Direction = Buy | Sell

  datatype ChainTrade = ChainTrade(
    marketId: string,
    traderAddress: string,
    counterpartyAddress: string,
    direction: Direction,
    outcome: Outcome,
    quantity: int)

  datatype Writer = Book | Chain

  /** One upsert of one position. */
  datatype Move = Move(writer: Writer, key: (string, string), delta: Position)

  const ZERO := Position(0, 0, 0)

  function TraderDelta(t: ChainTrade): Position {
    var signed := if t.direction == Buy then t.quantity else -t.quantity;
    if t.outcome == YES then Position(signed, 0, 0) else Position(0, signed, 0)
  }

  /** The trader's move, then the counterparty's; a trade without a quantity moves nothing. */
  function MovesOf(t: ChainTrade): seq<Move> {
    if t.quantity <= 0 then []
    else [Move(Chain, (t.marketId, t.traderAddress), TraderDelta(t)),
          Move(Chain, (t.marketId, t.counterpartyAddress), Minus(TraderDelta(t)))]
  }

  /** The row that a first upsert creates. */
  function Created(m: Move): Position {
    if m.writer == Book then m.delta else Position(Max(0, m.delta.yesShares), Max(0, m.delta.noShares), 0)
  }

  function Upsert(rows: Positions, m: Move): Positions {
    rows[m.key := if m.key in rows then Plus(rows[m.key], m.delta) else Created(m)]
  }

  function UpsertAll(rows: Positions, moves: seq<Move>): Positions {
    if moves == [] then rows else Upsert(UpsertAll(rows, moves[..|moves| - 1]), moves[|moves| - 1])
  }

  class PositionTable {
    var rows: Positions

    constructor ()
      ensures rows == map[]
    {
      rows := map[];
    }

    /** An upsert creates the row, or increments its shares; a chain trade does not touch collateral. */
    method UpsertShares(key: (string, string), yesDelta: int, noDelta: int)
      modifies this
      ensures rows == Upsert(old(rows), Move(Chain, key, Position(yesDelta, noDelta, 0)))
    {
      if key in rows {
        var row := rows[key];
        rows := rows[key := row.(yesShares := row.yesShares + yesDelta, noShares := row.noShares + noDelta)];
      } else {
        rows := rows[key := Position(Max(0, yesDelta), Max(0, noDelta), 0)];
      }
    }

    /** Upsert both sides of a trade. Either upsert may fail, which is caught and ends the method. */
    method ReconcileTradeIntoPositions(trade: ChainTrade, firstFails: bool, secondFails: bool)
      modifies this
      ensures rows == UpsertAll(old(rows), Reached(MovesOf(trade), firstFails, secondFails))
    {
      ReachedMoves(rows, trade);
      hide UpsertAll, Upsert, MovesOf, Reached;
      if trade.quantity > 0 && !firstFails {
        var signed := if trade.direction == Buy then trade.quantity else -trade.quantity;
        var traderYesDelta := if trade.outcome == YES then signed else 0;
        var traderNoDelta := if trade.outcome == NO then signed else 0;
        UpsertShares((trade.marketId, trade.traderAddress), traderYesDelta, traderNoDelta);
        if !secondFails {
          UpsertShares((trade.marketId, trade.counterpartyAddress), -traderYesDelta, -traderNoDelta);
        }
      }
    }
  }

  /** The upserts before the first one that fails. */
  function Reached(moves: seq<Move>, firstFails: bool, secondFails: bool): seq<Move> {
    if moves == [] || firstFails then [] else if secondFails then moves[..1] else moves
  }

  lemma ReachedMoves(rows: Positions, t: ChainTrade)
    ensures forall a, b :: t.quantity <= 0 || a ==> UpsertAll(rows, Reached(MovesOf(t), a, b)) == rows
    ensures t.quantity > 0 ==>
      var first, second := Move(Chain, (t.marketId, t.traderAddress), TraderDelta(t)),
                           Move(Chain, (t.marketId, t.counterpartyAddress), Minus(TraderDelta(t)));
      && UpsertAll(rows, Reached(MovesOf(t), false, true)) == Upsert(rows, first)
      && UpsertAll(rows, Reached(MovesOf(t), false, false)) == Upsert(Upsert(rows, first), second)
  {
    if t.quantity > 0 {
      var first, second := Move(Chain, (t.marketId, t.traderAddress), TraderDelta(t)),
                           Move(Chain, (t.marketId, t.counterpartyAddress), Minus(TraderDelta(t)));
      assert MovesOf(t) == [first, second] && MovesOf(t)[..1] == [first];
      hide Upsert, MovesOf, TraderDelta, Minus;
      UpsertPush(rows, [], first);
      UpsertPush(rows, [first], second);
      assert [] + [first] == [first] && [first] + [second] == [first, second];
    }
  }

  lemma UpsertPush(rows: Positions, moves: seq<Move>, m: Move)
    ensures UpsertAll(rows, moves + [m]) == Upsert(UpsertAll(rows, moves), m)
  {
    assert (moves + [m])[..|moves|] == moves;
  }

  // ------------------------------------------------------------ one position

  /** What one writer moved one position by. */
  function Sum(moves: seq<Move>, writer: Writer, key: (string, string)): Position {
    if moves == [] then ZERO
    else
      var before, m := Sum(moves[..|moves| - 1], writer, key), moves[|moves| - 1];
      if m.writer == writer && m.key == key then Plus(before, m.delta) else before
  }

  /** The move that created the row. */
  function First(moves: seq<Move>, key: (string, string)): Option<Move> {
    if moves == [] then None
    else
      var first, m := First(moves[..|moves| - 1], key), moves[|moves| - 1];
      if first.Some? then first else if m.key == key then Some(m) else None
  }

  /** What a creating move was cut off by. */
  function CutOff(m: Move): Position {
    if m.writer == Book then ZERO else Position(Max(0, -m.delta.yesShares), Max(0, -m.delta.noShares), 0)
  }

  function Correction(moves: seq<Move>, key: (string, string)): Position {
    if First(moves, key).Some? then CutOff(First(moves, key).value) else ZERO
  }

  /** Chain trades move shares only. */
  ghost predicate SharesOnly(moves: seq<Move>) {
    forall i :: 0 <= i < |moves| && moves[i].writer == Chain ==> moves[i].delta.lockedCollateral == 0
  }

  lemma CreatedIs(m: Move)
    requires m.writer == Chain ==> m.delta.lockedCollateral == 0
    ensures Created(m) == Plus(m.delta, CutOff(m))
  {
  }

  lemma SumPush(moves: seq<Move>, m: Move, writer: Writer, key: (string, string))
    ensures Sum(moves + [m], writer, key) ==
      if m.writer == writer && m.key == key then Plus(Sum(moves, writer, key), m.delta) else Sum(moves, writer, key)
  {
    assert (moves + [m])[..|moves|] == moves;
  }

  lemma FirstPush(moves: seq<Move>, m: Move, key: (string, string))
    ensures First(moves + [m], key) ==
      if First(moves, key).Some? then First(moves, key) else if m.key == key then Some(m) else None
  {
    assert (moves + [m])[..|moves|] == moves;
  }

  function Balance(moves: seq<Move>, key: (string, string)): Position {
    Plus(Plus(Sum(moves, Book, key), Sum(moves, Chain, key)), Correction(moves, key))
  }

  lemma Unrelated(moves: seq<Move>, m: Move, key: (string, string))
    requires m.key != key
    ensures Balance(moves + [m], key) == Balance(moves, key)
    ensures First(moves + [m], key) == First(moves, key)
    ensures forall w :: Sum(moves + [m], w, key) == Sum(moves, w, key)
  {
    hide Sum, First, Plus, CutOff;
    forall w ensures Sum(moves + [m], w, key) == Sum(moves, w, key) {
      SumPush(moves, m, w, key);
    }
    FirstPush(moves, m, key);
  }

  lemma AddDelta(b: Position, c: Position, k: Position, d: Position)
    ensures Plus(Plus(Plus(b, d), c), k) == Plus(Plus(Plus(b, c), k), d)
    ensures Plus(Plus(b, Plus(c, d)), k) == Plus(Plus(Plus(b, c), k), d)
  {
  }

  lemma Increments(moves: seq<Move>, m: Move)
    requires First(moves, m.key).Some?
    ensures Balance(moves + [m], m.key) == Plus(Balance(moves, m.key), m.delta)
    ensures First(moves + [m], m.key) == First(moves, m.key)
  {
    hide Sum, First, Plus, CutOff;
    SumPush(moves, m, Book, m.key);
    SumPush(moves, m, Chain, m.key);
    FirstPush(moves, m, m.key);
    AddDelta(Sum(moves, Book, m.key), Sum(moves, Chain, m.key), Correction(moves, m.key), m.delta);
  }

  lemma FromZero(d: Position, k: Position)
    ensures Plus(Plus(Plus(ZERO, d), ZERO), k) == Plus(d, k)
    ensures Plus(Plus(ZERO, Plus(ZERO, d)), k) == Plus(d, k)
  {
  }

  lemma Creates(moves: seq<Move>, m: Move)
    requires First(moves, m.key).None? && Sum(moves, Book, m.key) == ZERO && Sum(moves, Chain, m.key) == ZERO
    requires m.writer == Chain ==> m.delta.lockedCollateral == 0
    ensures Balance(moves + [m], m.key) == Created(m)
    ensures First(moves + [m], m.key) == Some(m)
  {
    hide Sum, First, Plus, CutOff, Created;
    SumPush(moves, m, Book, m.key);
    SumPush(moves, m, Chain, m.key);
    FirstPush(moves, m, m.key);
    CreatedIs(m);
    FromZero(m.delta, CutOff(m));
  }

  ghost predicate Accounted(rows: Positions, moves: seq<Move>, key: (string, string)) {
    && (key in rows <==> First(moves, key).Some?)
    && (key in rows ==> rows[key] == Balance(moves, key))
    && (key !in rows ==> Sum(moves, Book, key) == ZERO && Sum(moves, Chain, key) == ZERO)
  }

  lemma AccountedStep(rows: Positions, moves: seq<Move>, m: Move, key: (string, string))
    requires Accounted(rows, moves, key) && (m.writer == Chain ==> m.delta.lockedCollateral == 0)
    ensures Accounted(Upsert(rows, m), moves + [m], key)
  {
    hide Sum, First, Balance, Plus, Created;
    if m.key != key {
      Unrelated(moves, m, key);
    } else if key in rows {
      Increments(moves, m);
    } else {
      Creates(moves, m);
    }
  }

  /** Starting without rows, whatever the two writers do in whatever order: a position is what its user
      traded in the book plus what it traded on the chain plus what a creating chain move was cut off by. */
  lemma {:induction false} BalanceIs(moves: seq<Move>, key: (string, string))
    requires SharesOnly(moves)
    ensures Accounted(UpsertAll(map[], moves), moves, key)
  {
    if moves == [] {
    } else {
      var before, m := moves[..|moves| - 1], moves[|moves| - 1];
      BalanceIs(before, key);
      hide Accounted, Upsert;
      AccountedStep(UpsertAll(map[], before), before, m, key);
      assert moves == before + [m];
    }
  }

  // -------------------------------------------------- two writers, one table

  /** One committed transaction of either writer; users are the traders of the match. */
  datatype Write =
    | Match(marketId: string, trades: seq<Trade>, users: seq<string>)
    | Reconciled(trade: ChainTrade)

  ghost predicate WriteOk(w: Write) {
    w.Match? ==>
      && NoDuplicates(w.users) && (forall u :: u in w.users <==> Traded(w.trades, u))
      && forall t :: t in w.trades ==> t.marketId == w.marketId
  }

  ghost predicate WritesOk(writes: seq<Write>) {
    forall w :: w in writes ==> WriteOk(w)
  }

  /** The rows after these transactions, in this order. */
  ghost function RowsAfterWrites(writes: seq<Write>): Positions {
    if writes == [] then map[]
    else
      var before, w := RowsAfterWrites(writes[..|writes| - 1]), writes[|writes| - 1];
      if w.Match? then PositionsAfter(before, w.marketId, w.trades, Traders(w.trades))
        else UpsertAll(before, MovesOf(w.trade))
  }

  /** The trades of the book. */
  function BookTrades(writes: seq<Write>): seq<Trade> {
    if writes == [] then []
    else
      var w := writes[|writes| - 1];
      BookTrades(writes[..|writes| - 1]) + (if w.Match? then w.trades else [])
  }

  function MatchMoves(marketId: string, trades: seq<Trade>, users: seq<string>): seq<Move> {
    if users == [] then []
    else
      var u := users[|users| - 1];
      MatchMoves(marketId, trades, users[..|users| - 1]) + [Move(Book, (marketId, u), NetPosition(trades, u))]
  }

  function WriteMoves(w: Write): seq<Move> {
    if w.Match? then MatchMoves(w.marketId, w.trades, w.users) else MovesOf(w.trade)
  }

  function AllMoves(writes: seq<Write>): seq<Move> {
    if writes == [] then [] else AllMoves(writes[..|writes| - 1]) + WriteMoves(writes[|writes| - 1])
  }

  lemma {:induction false} UpsertConcat(rows: Positions, a: seq<Move>, b: seq<Move>)
    ensures UpsertAll(rows, a + b) == UpsertAll(UpsertAll(rows, a), b)
  {
    if b == [] {
      assert a + b == a;
    } else {
      var b', m := b[..|b| - 1], b[|b| - 1];
      UpsertConcat(rows, a, b');
      UpsertPush(rows, a + b', m);
      assert a + b == (a + b') + [m];
      hide Upsert;
    }
  }

  ghost function SetOf(users: seq<string>): set<string> {
    set u | u in users
  }

  /** A first upsert of the book creates the row with its delta, a later one increments it. */
  lemma BookUpsert(rows: Positions, marketId: string, u: string, delta: Position)
    ensures Upsert(rows, Move(Book, (marketId, u), delta)) ==
      rows[(marketId, u) := Plus(PositionIn(rows, (marketId, u)), delta)]
  {
  }

  lemma {:induction false} MatchUpserts(rows: Positions, marketId: string, trades: seq<Trade>, users: seq<string>)
    requires NoDuplicates(users)
    ensures UpsertAll(rows, MatchMoves(marketId, trades, users)) == PositionsAfter(rows, marketId, trades, SetOf(users))
  {
    hide Upsert, NetPosition;
    if users == [] {
      assert SetOf(users) == {};
    } else {
      hide PositionsAfter;
      var before, u := users[..|users| - 1], users[|users| - 1];
      MatchUpserts(rows, marketId, trades, before);
      assert users == before + [u];
      assert SetOf(users) == SetOf(before) + {u};
      AddUser(rows, marketId, trades, SetOf(before), u);
      BookUpsert(PositionsAfter(rows, marketId, trades, SetOf(before)), marketId, u, NetPosition(trades, u));
      UpsertPush(rows, MatchMoves(marketId, trades, before), Move(Book, (marketId, u), NetPosition(trades, u)));
    }
  }

  lemma {:induction false} RowsAreMoves(writes: seq<Write>)
    requires WritesOk(writes)
    ensures RowsAfterWrites(writes) == UpsertAll(map[], AllMoves(writes))
  {
    if writes != [] {
      var before, w := writes[..|writes| - 1], writes[|writes| - 1];
      assert w in writes && forall x :: x in before ==> x in writes;
      RowsAreMoves(before);
      UpsertConcat(map[], AllMoves(before), WriteMoves(w));
      assert WriteOk(w);
      hide UpsertAll, PositionsAfter, MatchMoves, MovesOf;
      if w.Match? {
        forall u ensures u in Traders(w.trades) <==> u in SetOf(w.users) {
          TradersTraded(w.trades, u);
        }
        assert Traders(w.trades) == SetOf(w.users);
        MatchUpserts(RowsAfterWrites(before), w.marketId, w.trades, w.users);
      }
    }
  }

  lemma {:induction false} MovesShareOnly(writes: seq<Write>)
    ensures SharesOnly(AllMoves(writes))
  {
    if writes != [] {
      MovesShareOnly(writes[..|writes| - 1]);
      var w := writes[|writes| - 1];
      if w.Match? {
        BookMovesOnly(w.marketId, w.trades, w.users);
      }
    }
  }

  lemma {:induction false} BookMovesOnly(marketId: string, trades: seq<Trade>, users: seq<string>)
    ensures forall i :: 0 <= i < |MatchMoves(marketId, trades, users)| ==>
      MatchMoves(marketId, trades, users)[i].writer == Book
  {
    if users != [] {
      BookMovesOnly(marketId, trades, users[..|users| - 1]);
    }
  }

  lemma {:induction false} SumConcat(a: seq<Move>, b: seq<Move>, writer: Writer, key: (string, string))
    ensures Sum(a + b, writer, key) == Plus(Sum(a, writer, key), Sum(b, writer, key))
  {
    hide Plus, Sum;
    if b == [] {
      assert a + b == a;
      SumNothing(a, b, writer, key);
    } else {
      var b', m := b[..|b| - 1], b[|b| - 1];
      SumConcat(a, b', writer, key);
      assert a + b == (a + b') + [m] && b == b' + [m];
      SumPush(a + b', m, writer, key);
      SumPush(b', m, writer, key);
      PlusAssociates(Sum(a, writer, key), Sum(b', writer, key), m.delta);
    }
  }

  lemma SumNothing(a: seq<Move>, b: seq<Move>, writer: Writer, key: (string, string))
    requires b == []
    ensures Sum(b, writer, key) == ZERO && Plus(Sum(a, writer, key), ZERO) == Sum(a, writer, key)
  {
  }

  lemma PlusAssociates(a: Position, b: Position, c: Position)
    ensures Plus(Plus(a, b), c) == Plus(a, Plus(b, c))
  {
  }

  lemma PlusZero(a: Position)
    ensures Plus(a, ZERO) == a && Plus(ZERO, a) == a
  {
  }

  lemma {:induction false} NobodysMoves(moves: seq<Move>, writer: Writer, key: (string, string))
    requires forall i :: 0 <= i < |moves| ==> moves[i].writer != writer || moves[i].key != key
    ensures Sum(moves, writer, key) == ZERO
  {
    if moves != [] {
      NobodysMoves(moves[..|moves| - 1], writer, key);
    }
  }

  lemma {:induction false} MatchSum(marketId: string, trades: seq<Trade>, users: seq<string>, m: string, u: string)
    requires NoDuplicates(users)
    ensures Sum(MatchMoves(marketId, trades, users), Book, (m, u)) ==
      if m == marketId && u in users then NetPosition(trades, u) else ZERO
  {
    hide Plus, NetPosition, Sum;
    if users == [] {
      NobodysMoves([], Book, (m, u));
    } else {
      var before, last := users[..|users| - 1], users[|users| - 1];
      assert users == before + [last];
      assert last !in before;
      MatchSum(marketId, trades, before, m, u);
      SumPush(MatchMoves(marketId, trades, before), Move(Book, (marketId, last), NetPosition(trades, last)), Book,
              (m, u));
      PlusZero(NetPosition(trades, last));
    }
  }

  /** What the book moved a position by is the net of the user's trades in the market. */
  lemma {:induction false} BookSum(writes: seq<Write>, m: string, u: string)
    requires WritesOk(writes)
    ensures Sum(AllMoves(writes), Book, (m, u)) == NetPosition(InMarket(BookTrades(writes), m), u)
  {
    hide Plus, Sum, InMarket, NetPosition;
    if writes == [] {
      NobodysMoves([], Book, (m, u));
      NoTrades(m, u);
    } else {
      var before, w := writes[..|writes| - 1], writes[|writes| - 1];
      assert w in writes && forall x :: x in before ==> x in writes;
      BookSum(before, m, u);
      SumConcat(AllMoves(before), WriteMoves(w), Book, (m, u));
      PlusZero(Sum(AllMoves(before), Book, (m, u)));
      assert WriteOk(w);
      if w.Match? {
        MatchSum(w.marketId, w.trades, w.users, m, u);
        InMarketPush(BookTrades(before), w.trades, w.marketId, m);
        PositionGrows(InMarket(BookTrades(before), m), w.trades, u);
        assert InMarket(BookTrades(before), m) + [] == InMarket(BookTrades(before), m);
      } else {
        NobodysMoves(MovesOf(w.trade), Book, (m, u));
        assert BookTrades(before) + [] == BookTrades(before);
      }
    }
  }

  lemma NoTrades(m: string, u: string)
    ensures NetPosition(InMarket([], m), u) == ZERO
  {
  }

  /** Whatever order the transactions of the two writers come in: a position is the net of the user's
      book trades, plus its chain deltas, plus a correction only if a chain trade created the row. */
  lemma SharedPosition(writes: seq<Write>, m: string, u: string)
    requires WritesOk(writes)
    ensures var rows, moves, key := RowsAfterWrites(writes), AllMoves(writes), (m, u);
      && (key in rows <==> First(moves, key).Some?)
      && var book := NetPosition(InMarket(BookTrades(writes), m), u);
        (key in rows ==> rows[key] == Plus(Plus(book, Sum(moves, Chain, key)), Correction(moves, key)))
  {
    RowsAreMoves(writes);
    MovesShareOnly(writes);
    BalanceIs(AllMoves(writes), (m, u));
    BookSum(writes, m, u);
    hide RowsAfterWrites, UpsertAll, AllMoves, BookTrades, Sum, First, Correction, Plus, NetPosition, InMarket;
  }

  // ------------------------------------------------ what a chain trade moves

  /** The chain trade is the copy of this trade of the book, reported by the buyer or by the seller. */
  predicate CopyOf(c: ChainTrade, t: Trade) {
    && c.marketId == t.marketId && c.outcome == t.outcome && c.quantity == t.quantity
    && (c.direction == Buy ==> c.traderAddress == t.buyerAddress && c.counterpartyAddress == t.sellerAddress)
    && (c.direction == Sell ==> c.traderAddress == t.sellerAddress && c.counterpartyAddress == t.buyerAddress)
  }

  /** The shares, without the money. */
  function SharesOf(p: Position): Position {
    p.(lockedCollateral := 0)
  }

  lemma TwoMoves(first: Move, second: Move, key: (string, string))
    requires first.writer == Chain && second.writer == Chain
    ensures Sum([first, second], Chain, key) ==
      Plus(if first.key == key then first.delta else ZERO, if second.key == key then second.delta else ZERO)
  {
    hide Plus;
    SumPush([], first, Chain, key);
    SumPush([first], second, Chain, key);
    assert [] + [first] == [first] && [first] + [second] == [first, second];
    assert Sum([], Chain, key) == ZERO;
    PlusZero(ZERO);
    PlusZero(first.delta);
    PlusZero(second.delta);
  }

  /** A chain trade moves for every user the YES and the NO shares that the trade of the book moves, in both
      directions and for both outcomes. */
  lemma CopyMovesShares(c: ChainTrade, t: Trade, m: string, u: string)
    requires CopyOf(c, t) && c.quantity > 0
    ensures Sum(MovesOf(c), Chain, (m, u)) ==
      if m == t.marketId then Position(TradeShares(t, u, YES), TradeShares(t, u, NO), 0) else ZERO
  {
    hide Sum, MovesOf, TraderDelta, Minus, Plus, Shares, TradeShares;
    var delta := TraderDelta(c);
    MovesAre(c);
    SharesBySide(t, u);
    DeltaBySide(c, t);
    TwoMoves(Move(Chain, (c.marketId, c.traderAddress), delta),
             Move(Chain, (c.marketId, c.counterpartyAddress), Minus(delta)), (m, u));
    if m != t.marketId {
      PlusZero(ZERO);
    } else if c.direction == Sell {
      PlusSwap(if t.buyerAddress == u then Shares(t) else ZERO,
               if t.sellerAddress == u then Minus(Shares(t)) else ZERO);
    }
  }

  lemma MovesAre(c: ChainTrade)
    requires c.quantity > 0
    ensures MovesOf(c) == [Move(Chain, (c.marketId, c.traderAddress), TraderDelta(c)),
                           Move(Chain, (c.marketId, c.counterpartyAddress), Minus(TraderDelta(c)))]
  {
  }

  /** The shares that change hands. */
  function Shares(t: Trade): Position {
    if t.outcome == YES then Position(t.quantity, 0, 0) else Position(0, t.quantity, 0)
  }

  lemma PlusSwap(a: Position, b: Position)
    ensures Plus(a, b) == Plus(b, a)
  {
  }

  lemma SharesBySide(t: Trade, u: string)
    ensures Position(TradeShares(t, u, YES), TradeShares(t, u, NO), 0) ==
      Plus(if t.buyerAddress == u then Shares(t) else ZERO, if t.sellerAddress == u then Minus(Shares(t)) else ZERO)
  {
  }

  lemma DeltaBySide(c: ChainTrade, t: Trade)
    requires CopyOf(c, t)
    ensures c.direction == Buy ==> TraderDelta(c) == Shares(t) && Minus(TraderDelta(c)) == Minus(Shares(t))
    ensures c.direction == Sell ==> TraderDelta(c) == Minus(Shares(t)) && Minus(TraderDelta(c)) == Shares(t)
  {
  }

  function CopyMoves(copies: seq<ChainTrade>): seq<Move> {
    if copies == [] then [] else CopyMoves(copies[..|copies| - 1]) + MovesOf(copies[|copies| - 1])
  }

  lemma SharesPush(trades: seq<Trade>, t: Trade, m: string, u: string)
    ensures SharesOf(NetPosition(InMarket(trades + [t], m), u)) ==
      Plus(SharesOf(NetPosition(InMarket(trades, m), u)),
           if m == t.marketId then Position(TradeShares(t, u, YES), TradeShares(t, u, NO), 0) else ZERO)
  {
    assert (trades + [t])[..|trades|] == trades;
    var here := InMarket(trades, m);
    NetPush(here, t, u);
    assert here + [] == here;
    hide InMarket, NetShares, NetCost, TradeShares, TradeCost;
  }

  /** A chain that copies the book moves every position by the shares that the book's trades move it by. */
  lemma {:induction false} CopiesMoveShares(copies: seq<ChainTrade>, trades: seq<Trade>, m: string, u: string)
    requires |copies| == |trades| && forall k :: 0 <= k < |copies| ==>
      CopyOf(copies[k], trades[k]) && copies[k].quantity > 0
    ensures Sum(CopyMoves(copies), Chain, (m, u)) == SharesOf(NetPosition(InMarket(trades, m), u))
  {
    hide Sum, Plus, MovesOf, NetPosition, InMarket, CopyOf, SharesOf;
    if copies == [] {
      NoShares(m, u);
    } else {
      var n := |copies| - 1;
      CopiesMoveShares(copies[..n], trades[..n], m, u);
      SumConcat(CopyMoves(copies[..n]), MovesOf(copies[n]), Chain, (m, u));
      CopyMovesShares(copies[n], trades[n], m, u);
      SharesPush(trades[..n], trades[n], m, u);
      assert trades == trades[..n] + [trades[n]];
    }
  }

  lemma NoShares(m: string, u: string)
    ensures Sum([], Chain, (m, u)) == SharesOf(NetPosition(InMarket([], m), u))
  {
  }

  /** After a chain trade: whoever buys has more shares of its outcome, whoever sells has fewer but, if it had no row,
      none instead of less; the other outcome, the collateral and everybody else's rows are as they were. */
  lemma RowsAfterTrade(rows: Positions, c: ChainTrade, buyer: string, seller: string)
    requires c.quantity > 0 && buyer != seller
    requires c.direction == Buy ==> c.traderAddress == buyer && c.counterpartyAddress == seller
    requires c.direction == Sell ==> c.traderAddress == seller && c.counterpartyAddress == buyer
    ensures var after := UpsertAll(rows, MovesOf(c));
      var b, s := (c.marketId, buyer), (c.marketId, seller);
      && after.Keys == rows.Keys + {b, s}
      && (forall key :: key in rows && key != b && key != s ==> after[key] == rows[key])
      && after[b] == Bought(PositionIn(rows, b), c.outcome, c.quantity)
      && after[s] == (if s in rows then Bought(rows[s], c.outcome, -c.quantity) else ZERO)
  {
    var first, second := Move(Chain, (c.marketId, c.traderAddress), TraderDelta(c)),
                         Move(Chain, (c.marketId, c.counterpartyAddress), Minus(TraderDelta(c)));
    ReachedMoves(rows, c);
    DeltaIs(rows, first, c.outcome, if c.direction == Buy then c.quantity else -c.quantity);
    DeltaIs(Upsert(rows, first), second, c.outcome, if c.direction == Buy then -c.quantity else c.quantity);
    hide UpsertAll, Plus, Created, MovesOf, TraderDelta, Minus, Bought;
  }

  function Bought(p: Position, outcome: Outcome, quantity: int): Position {
    if outcome == YES then p.(yesShares := p.yesShares + quantity) else p.(noShares := p.noShares + quantity)
  }

  lemma DeltaIs(rows: Positions, mv: Move, outcome: Outcome, quantity: int)
    requires mv.writer == Chain
    requires mv.delta == if outcome == YES then Position(quantity, 0, 0) else Position(0, quantity, 0)
    ensures mv.key in rows ==> Upsert(rows, mv) == rows[mv.key := Bought(rows[mv.key], outcome, quantity)]
    ensures mv.key !in rows && quantity >= 0 ==>
      Upsert(rows, mv) == rows[mv.key := Bought(PositionIn(rows, mv.key), outcome, quantity)]
    ensures mv.key !in rows && quantity < 0 ==> Upsert(rows, mv) == rows[mv.key := ZERO]
  {
  }

  // ---------------------------------------------------------- market totals

  /** What the chain moved a list of users by. */
  function ChainOver(moves: seq<Move>, m: string, users: seq<string>): Position {
    if users == [] then ZERO else Plus(Sum(moves, Chain, (m, users[0])), ChainOver(moves, m, users[1..]))
  }

  function CorrectionOver(moves: seq<Move>, m: string, users: seq<string>): Position {
    if users == [] then ZERO else Plus(Correction(moves, (m, users[0])), CorrectionOver(moves, m, users[1..]))
  }

  lemma SplitThree(b: Position, c: Position, k: Position, b': Position, c': Position, k': Position)
    ensures Plus(Plus(Plus(b, c), k), Plus(Plus(b', c'), k')) == Plus(Plus(Plus(b, b'), Plus(c, c')), Plus(k, k'))
  {
  }

  lemma NoBalance(moves: seq<Move>, key: (string, string))
    requires First(moves, key).None? && Sum(moves, Book, key) == ZERO && Sum(moves, Chain, key) == ZERO
    ensures Balance(moves, key) == ZERO
  {
    hide Plus, Sum, First, CutOff;
    PlusZero(ZERO);
  }

  /** Every position, also a missing one, has its three parts. */
  lemma PositionParts(writes: seq<Write>, m: string, u: string)
    requires WritesOk(writes)
    ensures PositionIn(RowsAfterWrites(writes), (m, u)) ==
      Plus(Plus(NetPosition(InMarket(BookTrades(writes), m), u), Sum(AllMoves(writes), Chain, (m, u))),
           Correction(AllMoves(writes), (m, u)))
  {
    hide RowsAfterWrites, UpsertAll, AllMoves, BookTrades, Sum, First, Correction, Plus, NetPosition, InMarket,
         WritesOk, SharesOnly;
    RowsAreMoves(writes);
    MovesShareOnly(writes);
    BalanceIs(AllMoves(writes), (m, u));
    BookSum(writes, m, u);
    if (m, u) !in RowsAfterWrites(writes) {
      NoBalance(AllMoves(writes), (m, u));
    }
  }

  lemma {:induction false} TotalParts(writes: seq<Write>, m: string, users: seq<string>)
    requires WritesOk(writes)
    ensures Total(RowsAfterWrites(writes), m, users) ==
      Plus(Plus(NetTotal(InMarket(BookTrades(writes), m), users), ChainOver(AllMoves(writes), m, users)),
           CorrectionOver(AllMoves(writes), m, users))
  {
    hide RowsAfterWrites, AllMoves, BookTrades, Sum, Correction, Plus, NetPosition, InMarket, PositionIn, WritesOk;
    if users == [] {
      PlusZero(ZERO);
    } else {
      PositionParts(writes, m, users[0]);
      TotalParts(writes, m, users[1..]);
      SplitThree(NetPosition(InMarket(BookTrades(writes), m), users[0]), Sum(AllMoves(writes), Chain, (m, users[0])),
                 Correction(AllMoves(writes), (m, users[0])),
                 NetTotal(InMarket(BookTrades(writes), m), users[1..]), ChainOver(AllMoves(writes), m, users[1..]),
                 CorrectionOver(AllMoves(writes), m, users[1..]));
    }
  }

  predicate Counts(mv: Move, m: string, users: seq<string>) {
    mv.writer == Chain && mv.key.0 == m && mv.key.1 in users
  }

  lemma PlusLast(a: Position, b: Position, d: Position)
    ensures Plus(Plus(a, d), b) == Plus(Plus(a, b), d) && Plus(a, Plus(b, d)) == Plus(Plus(a, b), d)
  {
  }

  lemma {:induction false} ChainOverPush(moves: seq<Move>, mv: Move, m: string, users: seq<string>)
    requires NoDuplicates(users)
    ensures ChainOver(moves + [mv], m, users) ==
      if Counts(mv, m, users) then Plus(ChainOver(moves, m, users), mv.delta) else ChainOver(moves, m, users)
  {
    hide Plus, Sum, NoDuplicates;
    if users != [] {
      var u, rest := users[0], users[1..];
      Rest(users);
      HeadOrTail(users, mv.key.1);
      SumPush(moves, mv, Chain, (m, u));
      ChainOverPush(moves, mv, m, rest);
      PlusLast(Sum(moves, Chain, (m, u)), ChainOver(moves, m, rest), mv.delta);
    }
  }

  lemma PlusMinus(a: Position, d: Position)
    ensures Plus(Plus(a, d), Minus(d)) == a
  {
  }

  /** The two sides of a chain trade cancel. */
  lemma TradeCancels(moves: seq<Move>, t: ChainTrade, m: string, users: seq<string>)
    requires NoDuplicates(users)
    requires t.marketId == m && t.quantity > 0 ==> t.traderAddress in users && t.counterpartyAddress in users
    ensures ChainOver(moves + MovesOf(t), m, users) == ChainOver(moves, m, users)
  {
    hide Plus, Minus, TraderDelta, ChainOver, NoDuplicates;
    if t.quantity <= 0 {
      assert moves + MovesOf(t) == moves;
    } else {
      var a, b := MovesOf(t)[0], MovesOf(t)[1];
      assert moves + MovesOf(t) == (moves + [a]) + [b];
      ChainOverPush(moves, a, m, users);
      ChainOverPush(moves + [a], b, m, users);
      PlusMinus(ChainOver(moves, m, users), TraderDelta(t));
    }
  }

  lemma {:induction false} BookMovesDoNotCount(moves: seq<Move>, marketId: string, trades: seq<Trade>,
                                               names: seq<string>, m: string, users: seq<string>)
    requires NoDuplicates(users)
    ensures ChainOver(moves + MatchMoves(marketId, trades, names), m, users) == ChainOver(moves, m, users)
  {
    hide ChainOver, NetPosition, NoDuplicates;
    if names == [] {
      assert moves + MatchMoves(marketId, trades, names) == moves;
    } else {
      var before, u := names[..|names| - 1], names[|names| - 1];
      BookMovesDoNotCount(moves, marketId, trades, before, m, users);
      var earlier := moves + MatchMoves(marketId, trades, before);
      var mv := Move(Book, (marketId, u), NetPosition(trades, u));
      assert moves + MatchMoves(marketId, trades, names) == earlier + [mv];
      ChainOverPush(earlier, mv, m, users);
    }
  }

  /** Every side of an effective chain trade of the market is named. */
  ghost predicate NamesSides(writes: seq<Write>, m: string, users: seq<string>) {
    forall w :: w in writes && Effective(w, m) ==>
      w.trade.traderAddress in users && w.trade.counterpartyAddress in users
  }

  lemma {:induction false} ChainCancels(writes: seq<Write>, m: string, users: seq<string>)
    requires NoDuplicates(users) && NamesSides(writes, m, users)
    ensures ChainOver(AllMoves(writes), m, users) == ZERO
  {
    hide ChainOver, NoDuplicates, MovesOf, MatchMoves;
    if writes == [] {
      NothingOver(m, users);
    } else {
      var before, w := writes[..|writes| - 1], writes[|writes| - 1];
      assert w in writes && forall x :: x in before ==> x in writes;
      ChainCancels(before, m, users);
      if w.Match? {
        BookMovesDoNotCount(AllMoves(before), w.marketId, w.trades, w.users, m, users);
      } else {
        TradeCancels(AllMoves(before), w.trade, m, users);
      }
    }
  }

  lemma {:induction false} NothingOver(m: string, users: seq<string>)
    ensures ChainOver([], m, users) == ZERO
  {
    if users != [] {
      NothingOver(m, users[1..]);
    }
  }

  lemma {:induction false} FirstConcat(a: seq<Move>, b: seq<Move>, key: (string, string))
    ensures First(a + b, key) == if First(a, key).Some? then First(a, key) else First(b, key)
  {
    if b == [] {
      assert a + b == a;
    } else {
      var b', mv := b[..|b| - 1], b[|b| - 1];
      FirstConcat(a, b', key);
      assert a + b == (a + b') + [mv] && b == b' + [mv];
      FirstPush(a + b', mv, key);
      FirstPush(b', mv, key);
    }
  }

  lemma {:induction false} MatchFirst(marketId: string, trades: seq<Trade>, users: seq<string>, u: string)
    ensures u in users ==> First(MatchMoves(marketId, trades, users), (marketId, u)).Some?
  {
    if users != [] {
      var before, last := users[..|users| - 1], users[|users| - 1];
      MatchFirst(marketId, trades, before, u);
      FirstPush(MatchMoves(marketId, trades, before), Move(Book, (marketId, last), NetPosition(trades, last)),
                (marketId, u));
      assert users == before + [last];
    }
  }

  predicate Effective(w: Write, m: string) {
    w.Reconciled? && w.trade.marketId == m && w.trade.quantity > 0
  }

  predicate Involves(w: Write, m: string, u: string) {
    Effective(w, m) && (w.trade.traderAddress == u || w.trade.counterpartyAddress == u)
  }

  /** Whoever traded in a market, in the book or on the chain, has a row. */
  lemma {:induction false} TradersHaveRows(writes: seq<Write>, m: string, u: string)
    requires WritesOk(writes)
    ensures Traded(InMarket(BookTrades(writes), m), u) ==> First(AllMoves(writes), (m, u)).Some?
    ensures forall w :: w in writes && Involves(w, m, u) ==> First(AllMoves(writes), (m, u)).Some?
  {
    if writes != [] {
      var before, w := writes[..|writes| - 1], writes[|writes| - 1];
      assert writes == before + [w];
      TradersHaveRows(before, m, u);
      FirstConcat(AllMoves(before), WriteMoves(w), (m, u));
      assert WriteOk(w);
      if w.Match? {
        InMarketPush(BookTrades(before), w.trades, w.marketId, m);
        TradedConcat(InMarket(BookTrades(before), m), w.trades, u);
        MatchFirst(w.marketId, w.trades, w.users, u);
      } else if w.trade.quantity > 0 && w.trade.marketId == m {
        SidesFirst(w.trade, u);
      }
      assert BookTrades(before) + [] == BookTrades(before);
      assert InMarket(BookTrades(before), m) + [] == InMarket(BookTrades(before), m);
      hide First, Traded, InMarket, MatchMoves, MovesOf;
    }
  }

  lemma SidesFirst(t: ChainTrade, u: string)
    requires t.quantity > 0
    ensures t.traderAddress == u ==> First(MovesOf(t), (t.marketId, u)) == Some(MovesOf(t)[0])
    ensures t.traderAddress != u && t.counterpartyAddress == u ==>
      First(MovesOf(t), (t.marketId, u)) == Some(MovesOf(t)[1])
  {
    var moves := MovesOf(t);
    assert moves[..1] == [moves[0]] && moves[..1][..0] == [];
    assert First(moves[..1], (t.marketId, u)) == if moves[0].key.1 == u then Some(moves[0]) else None;
  }

  /** The list names everyone who has a position in the market, nobody twice. */
  ghost predicate NamesAll(users: seq<string>, rows: Positions, m: string) {
    NoDuplicates(users) && forall u :: (m, u) in rows ==> u in users
  }

  /** The shares of a market sum to what the creating chain moves were cut off by, and the collateral
      to zero, whatever the book and the chain did in whatever order. */
  lemma MarketTotal(writes: seq<Write>, m: string, users: seq<string>)
    requires WritesOk(writes) && NamesAll(users, RowsAfterWrites(writes), m)
    ensures Total(RowsAfterWrites(writes), m, users) == CorrectionOver(AllMoves(writes), m, users)
  {
    TotalParts(writes, m, users);
    SidesNamed(writes, m, users);
    hide RowsAfterWrites, AllMoves, BookTrades, ChainOver, CorrectionOver, InMarket, NetTotal, Total, NoDuplicates;
    TradesCancel(InMarket(BookTrades(writes), m), users);
    ChainCancels(writes, m, users);
    OnlyCorrection(CorrectionOver(AllMoves(writes), m, users));
  }

  lemma OnlyCorrection(k: Position)
    ensures Plus(Plus(ZERO, ZERO), k) == k
  {
    hide Plus;
    PlusZero(ZERO);
    PlusZero(k);
  }

  lemma SidesNamed(writes: seq<Write>, m: string, users: seq<string>)
    requires WritesOk(writes) && NamesAll(users, RowsAfterWrites(writes), m)
    ensures NamesSides(writes, m, users)
    ensures forall t :: t in InMarket(BookTrades(writes), m) ==> t.buyerAddress in users && t.sellerAddress in users
  {
    hide InMarket, BookTrades, AllMoves, RowsAfterWrites, NoDuplicates, First, Plus;
    forall u ensures First(AllMoves(writes), (m, u)).Some? ==> u in users {
      SharedPosition(writes, m, u);
    }
    forall w | w in writes && Effective(w, m)
      ensures w.trade.traderAddress in users && w.trade.counterpartyAddress in users
    {
      assert Involves(w, m, w.trade.traderAddress) && Involves(w, m, w.trade.counterpartyAddress);
      TradersHaveRows(writes, m, w.trade.traderAddress);
      TradersHaveRows(writes, m, w.trade.counterpartyAddress);
    }
    forall t | t in InMarket(BookTrades(writes), m) ensures t.buyerAddress in users && t.sellerAddress in users {
      assert TakesPart(t, t.buyerAddress) && TakesPart(t, t.sellerAddress);
      TradersHaveRows(writes, m, t.buyerAddress);
      TradersHaveRows(writes, m, t.sellerAddress);
    }
  }

  // ------------------------------------------------------ when it balances

  /** The row was created by a chain sale. */
  predicate CreatedBySale(moves: seq<Move>, key: (string, string)) {
    var first := First(moves, key);
    first.Some? && first.value.writer == Chain && (first.value.delta.yesShares < 0 || first.value.delta.noShares < 0)
  }

  lemma SaleOrNot(moves: seq<Move>, key: (string, string))
    ensures !CreatedBySale(moves, key) ==> Correction(moves, key) == ZERO
    ensures Correction(moves, key).yesShares >= 0 && Correction(moves, key).noShares >= 0
    ensures CreatedBySale(moves, key) ==> Correction(moves, key).yesShares + Correction(moves, key).noShares > 0
  {
    hide First;
  }

  lemma {:induction false} NoCorrection(moves: seq<Move>, m: string, users: seq<string>)
    requires forall u :: u in users ==> !CreatedBySale(moves, (m, u))
    ensures CorrectionOver(moves, m, users) == ZERO
  {
    hide Correction, CreatedBySale, Plus;
    if users != [] {
      assert users[0] in users && forall u :: u in users[1..] ==> u in users;
      NoCorrection(moves, m, users[1..]);
      SaleOrNot(moves, (m, users[0]));
      PlusZero(ZERO);
    }
  }

  lemma PlusFields(a: Position, b: Position)
    ensures Plus(a, b).yesShares == a.yesShares + b.yesShares && Plus(a, b).noShares == a.noShares + b.noShares
  {
  }

  lemma {:induction false} SomeCorrection(moves: seq<Move>, m: string, users: seq<string>)
    ensures CorrectionOver(moves, m, users).yesShares >= 0 && CorrectionOver(moves, m, users).noShares >= 0
    ensures (exists u :: u in users && CreatedBySale(moves, (m, u))) ==>
      CorrectionOver(moves, m, users).yesShares + CorrectionOver(moves, m, users).noShares > 0
  {
    hide Correction, CreatedBySale, Plus;
    if users != [] {
      SomeCorrection(moves, m, users[1..]);
      assert users == [users[0]] + users[1..];
      SaleOrNot(moves, (m, users[0]));
      PlusFields(Correction(moves, (m, users[0])), CorrectionOver(moves, m, users[1..]));
    }
  }

  /** A market balances if and only if none of its rows was created by a chain sale. */
  lemma BalancesIff(writes: seq<Write>, m: string, users: seq<string>)
    requires WritesOk(writes) && NamesAll(users, RowsAfterWrites(writes), m)
    ensures Total(RowsAfterWrites(writes), m, users) == ZERO <==>
      forall u :: u in users ==> !CreatedBySale(AllMoves(writes), (m, u))
  {
    MarketTotal(writes, m, users);
    hide RowsAfterWrites, AllMoves, Total, CorrectionOver, CreatedBySale, NamesAll;
    SomeCorrection(AllMoves(writes), m, users);
    if forall u :: u in users ==> !CreatedBySale(AllMoves(writes), (m, u)) {
      NoCorrection(AllMoves(writes), m, users);
    }
  }

  /** The chain is the only writer, and the two sides of every trade are different users. */
  ghost predicate ChainOnly(writes: seq<Write>) {
    forall w :: w in writes ==> w.Reconciled? && w.trade.traderAddress != w.trade.counterpartyAddress
  }

  function Seller(t: ChainTrade): string {
    if t.direction == Sell then t.traderAddress else t.counterpartyAddress
  }

  lemma {:induction false} NothingEffective(writes: seq<Write>, m: string, u: string)
    requires ChainOnly(writes) && forall w :: w in writes ==> !Effective(w, m)
    ensures First(AllMoves(writes), (m, u)) == None
  {
    if writes != [] {
      var before, w := writes[..|writes| - 1], writes[|writes| - 1];
      assert writes == before + [w];
      NothingEffective(before, m, u);
      FirstConcat(AllMoves(before), MovesOf(w.trade), (m, u));
      hide First;
      ElsewhereFirst(w.trade, m, u);
    }
  }

  lemma ElsewhereFirst(t: ChainTrade, m: string, u: string)
    requires t.marketId != m || t.quantity <= 0
    ensures First(MovesOf(t), (m, u)) == None
  {
    if t.quantity > 0 {
      var moves := MovesOf(t);
      assert moves[..1] == [moves[0]] && moves[..1][..0] == [];
      assert First(moves[..1], (m, u)) == None;
    }
  }

  /** The seller of the first effective trade of a market gets its row from a sale. */
  lemma {:induction false} FirstSale(writes: seq<Write>, m: string) returns (seller: string)
    requires ChainOnly(writes) && exists w :: w in writes && Effective(w, m)
    ensures CreatedBySale(AllMoves(writes), (m, seller))
  {
    var before, w := writes[..|writes| - 1], writes[|writes| - 1];
    assert writes == before + [w];
    if exists x :: x in before && Effective(x, m) {
      seller := FirstSale(before, m);
      FirstConcat(AllMoves(before), WriteMoves(w), (m, seller));
    } else {
      seller := Seller(w.trade);
      NothingEffective(before, m, seller);
      FirstConcat(AllMoves(before), WriteMoves(w), (m, seller));
      hide First;
      SidesFirst(w.trade, seller);
    }
  }

  /** A market that only the chain trades in is out of balance from its first trade on. */
  lemma ChainOnlyBalancesIff(writes: seq<Write>, m: string, users: seq<string>)
    requires WritesOk(writes) && ChainOnly(writes) && NamesAll(users, RowsAfterWrites(writes), m)
    ensures Total(RowsAfterWrites(writes), m, users) == ZERO <==> forall w :: w in writes ==> !Effective(w, m)
  {
    BalancesIff(writes, m, users);
    hide RowsAfterWrites, AllMoves, Total, NoDuplicates, Effective, ChainOnly, WritesOk;
    if forall w :: w in writes ==> !Effective(w, m) {
      forall u | u in users ensures !CreatedBySale(AllMoves(writes), (m, u)) {
        NothingEffective(writes, m, u);
      }
    } else {
      var seller := FirstSale(writes, m);
      assert seller in users by {
        hide Plus;
        SharedPosition(writes, m, seller);
      }
    }
  }

  lemma NewRow(rows: Positions, m: Move)
    requires m.key !in rows
    ensures Upsert(rows, m) == rows[m.key := Created(m)]
  {
  }

  lemma TotalOfTwo(rows: Positions, m: string, a: string, b: string)
    ensures Total(rows, m, [a, b]) == Plus(PositionIn(rows, (m, a)), PositionIn(rows, (m, b)))
  {
    hide Plus, PositionIn;
    assert [a, b][1..] == [b] && [b][1..] == [];
    PlusZero(PositionIn(rows, (m, b)));
    assert Total(rows, m, [b]) == PositionIn(rows, (m, b));
  }

  /** One purchase: the buyer holds the shares, the seller none, and the market has too many. */
  lemma OneTradeUnbalances(m: string, buyer: string, seller: string, quantity: int)
    requires buyer != seller && quantity > 0
    ensures var rows := RowsAfterWrites([Reconciled(ChainTrade(m, buyer, seller, Buy, YES, quantity))]);
      && rows == map[(m, buyer) := Position(quantity, 0, 0), (m, seller) := ZERO]
      && Total(rows, m, [buyer, seller]) == Position(quantity, 0, 0)
  {
    var t := ChainTrade(m, buyer, seller, Buy, YES, quantity);
    var first, second := Move(Chain, (m, buyer), TraderDelta(t)), Move(Chain, (m, seller), Minus(TraderDelta(t)));
    OneWrite(t);
    ReachedMoves(map[], t);
    assert Created(first) == Position(quantity, 0, 0) && Created(second) == ZERO;
    hide Created, Upsert, UpsertAll, MovesOf, TraderDelta, RowsAfterWrites, Plus;
    NewRow(map[], first);
    NewRow(Upsert(map[], first), second);
    TotalOfTwo(RowsAfterWrites([Reconciled(t)]), m, buyer, seller);
    PlusZero(Position(quantity, 0, 0));
  }

  lemma OneWrite(t: ChainTrade)
    requires t.quantity > 0
    ensures RowsAfterWrites([Reconciled(t)]) == UpsertAll(map[], Reached(MovesOf(t), false, false))
  {
    hide UpsertAll;
    assert [Reconciled(t)][..0] == [];
    assert RowsAfterWrites([]) == map[];
  }
}
