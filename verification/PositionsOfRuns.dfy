/** What the runs of the indexer do to positions: the upserts in the database are those of the trades of the
    log that are due, each once, and with the trades of the book they make up the position rows. */
module PositionsOfRuns {
  import opened Domain
  import opened Ledger
  import opened Accounts
  import opened Conservation
  import opened EventFetcher
  import opened BatchWriter
  import opened Ingestion
  import IndexedPositions

  type Move = IndexedPositions.Move

  /** The upserts of these records, one record after the other. */
  function AllUpserts(records: seq<BatchRecord>): seq<Move> {
    if records == [] then [] else AllUpserts(records[..|records| - 1]) + UpsertsOf(records[|records| - 1])
  }

  lemma UpsertsPush(records: seq<BatchRecord>, r: BatchRecord)
    ensures AllUpserts(records + [r]) == AllUpserts(records) + UpsertsOf(r)
  {
    assert (records + [r])[..|records|] == records;
  }

  lemma NoUpserts(a: seq<BatchRecord>)
    ensures AllUpserts(a + []) == AllUpserts(a) + AllUpserts([])
  {
    assert a + [] == a;
  }

  lemma {:induction false} UpsertsConcat(a: seq<BatchRecord>, b: seq<BatchRecord>)
    ensures AllUpserts(a + b) == AllUpserts(a) + AllUpserts(b)
  {
    hide AllUpserts, UpsertsOf;
    if b == [] {
      NoUpserts(a);
    } else {
      var b', r := b[..|b| - 1], b[|b| - 1];
      UpsertsConcat(a, b');
      UpsertsPush(a + b', r);
      UpsertsPush(b', r);
      assert a + b == a + b' + [r] && b == b' + [r];
    }
  }

  // --------------------------------------------------------------- one batch

  /** Every row has its upserts. */
  ghost predicate Moved(s: Store) {
    s.moves == AllUpserts(s.applied)
  }

  ghost predicate AnySkips(todo: seq<BatchRecord>, faults: string -> Fault) {
    exists r :: r in todo && SkipsMoves(r, faults(r.idempotencyKey))
  }

  /** Upserts are missing exactly when some were refused. */
  ghost predicate Moves(todo: seq<BatchRecord>, faults: string -> Fault, p: Progress) {
    !p.tx.aborted ==>
      if AnySkips(todo, faults) then |p.tx.store.moves| < |AllUpserts(p.tx.store.applied)| else Moved(p.tx.store)
  }

  lemma SkipsPush(before: seq<BatchRecord>, r: BatchRecord, faults: string -> Fault)
    ensures AnySkips(before + [r], faults) <==> AnySkips(before, faults) || SkipsMoves(r, faults(r.idempotencyKey))
    ensures r in before && SkipsMoves(r, faults(r.idempotencyKey)) ==> AnySkips(before, faults)
  {
    hide SkipsMoves;
    assert r in before + [r];
    assert forall x :: x in before ==> x in before + [r];
  }

  lemma ExecutedMoves(s: Store, r: BatchRecord, n: nat)
    requires n <= Statements(r) && |s.moves| <= |AllUpserts(s.applied)|
    ensures var s' := Executed(s, r, n);
      && (n < 2 || n == Statements(r) ==>
            && |s'.moves| - |AllUpserts(s'.applied)| == |s.moves| - |AllUpserts(s.applied)|
            && (Moved(s) ==> Moved(s')))
      && (2 <= n < Statements(r) ==> |s'.moves| < |AllUpserts(s'.applied)|)
  {
    UpsertsPush(s.applied, r);
    hide AllUpserts, UpsertsOf;
    var all := UpsertsOf(r);
    assert all[..|all|] == all;
    assert s.moves + [] == s.moves && AllUpserts(s.applied) + [] == AllUpserts(s.applied);
  }

  lemma MovesNew(before: seq<BatchRecord>, r: BatchRecord, faults: string -> Fault, p: Progress)
    requires Moves(before, faults, p) && (p.tx.aborted || r.idempotencyKey !in p.tx.store.processed)
    ensures Moves(before + [r], faults, Advance(p, r, faults(r.idempotencyKey)))
  {
    SkipsPush(before, r, faults);
    var fault := faults(r.idempotencyKey);
    if !p.tx.aborted {
      ExecutedMoves(p.tx.store, r, if Hits(r, fault) then fault.at else Statements(r));
    }
    hide AnySkips, UpsertsOf, Executed, AllUpserts;
  }

  lemma MovesAgain(before: seq<BatchRecord>, r: BatchRecord, faults: string -> Fault, p: Progress)
    requires Moves(before, faults, p) && !p.tx.aborted && r.idempotencyKey in p.tx.store.processed && r in before
    ensures Moves(before + [r], faults, Advance(p, r, faults(r.idempotencyKey)))
  {
    SkipsPush(before, r, faults);
    hide AnySkips, SkipsMoves, AllUpserts;
  }

  lemma {:induction false} HowItMoves(s: Store, todo: seq<BatchRecord>, faults: string -> Fault)
    requires Moved(s) && Fresh(todo, s.processed)
    ensures Moves(todo, faults, PersistFrom(s, todo, faults))
  {
    if todo != [] {
      var before, r := todo[..|todo| - 1], todo[|todo| - 1];
      FreshPrefix(todo, s.processed);
      HowItMoves(s, before, faults);
      PersistGrows(s, before, faults);
      var p := PersistFrom(s, before, faults);
      PersistPush(s, before, r, faults);
      NotYet(s, before, r, p);
      hide PersistFrom, Fresh, KeysOf, Grown, Moves, Advance;
      if !p.tx.aborted && r.idempotencyKey in p.tx.store.processed {
        SameRecord(todo, before, r, s.processed);
        MovesAgain(before, r, faults, p);
      } else {
        MovesNew(before, r, faults, p);
      }
    }
  }

  // ----------------------------------------------------------------- one run

  /** The tick commits a row without all its upserts. */
  ghost predicate SkipsPositions(setup: Setup, s: Indexer, a: Action) {
    && a.Tick? && a.env.fetched && SequenceOf(s.cursor) < a.env.latestLedger && a.env.fate != RollsBack
    && var todo := Todo(Window(setup, s, a.env), s.store.processed);
      !AnyBreaks(todo, a.env.faults) && AnySkips(todo, a.env.faults)
  }

  lemma MovedWrite(s: Store, records: seq<BatchRecord>, faults: string -> Fault, fate: Fate)
    requires Moved(s)
    ensures var todo := Todo(records, s.processed);
      Moved(AfterWrite(s, records, faults, fate)) <==>
        fate == RollsBack || AnyBreaks(todo, faults) || !AnySkips(todo, faults)
  {
    var todo := Todo(records, s.processed);
    TodoIs(records, s.processed);
    HowItMoves(s, todo, faults);
    HowItWent(s, todo, faults);
    hide Todo, PersistFrom, AnyBreaks, AnySkips, AnyThrows, Fresh, AllUpserts, KeysOf, Firsts;
  }

  lemma StoreAfter(setup: Setup, s: Indexer, a: Action)
    ensures Step(setup, s, a).store ==
      if a.Tick? && a.env.fetched && SequenceOf(s.cursor) < a.env.latestLedger
      then AfterWrite(s.store, Window(setup, s, a.env), a.env.faults, a.env.fate) else s.store
  {
    hide Window, Answer, AfterWrite;
  }

  /** A tick keeps every row with its upserts if and only if it commits none without them. */
  lemma MovedStep(setup: Setup, s: Indexer, a: Action)
    requires Moved(s.store)
    ensures Moved(Step(setup, s, a).store) <==> !SkipsPositions(setup, s, a)
  {
    StoreAfter(setup, s, a);
    hide Window, AfterWrite, Step, Todo, AnyBreaks, AnySkips, Moved;
    if a.Tick? {
      MovedWrite(s.store, Window(setup, s, a.env), a.env.faults, a.env.fate);
    }
  }

  ghost predicate KeepsPositions(setup: Setup, initial: Option<nat>, actions: seq<Action>) {
    forall n :: 0 <= n < |actions| ==> !SkipsPositions(setup, Run(setup, initial, actions[..n]), actions[n])
  }

  lemma {:induction false} MovedInRuns(setup: Setup, initial: Option<nat>, actions: seq<Action>)
    requires KeepsPositions(setup, initial, actions)
    ensures Moved(Run(setup, initial, actions).store)
    decreases |actions|
  {
    hide Step, SkipsPositions;
    if actions != [] {
      var n := |actions| - 1;
      forall k | 0 <= k < n ensures !SkipsPositions(setup, Run(setup, initial, actions[..n][..k]), actions[..n][k]) {
        assert actions[..n][..k] == actions[..k];
      }
      MovedInRuns(setup, initial, actions[..n]);
      MovedStep(setup, Run(setup, initial, actions[..n]), actions[n]);
    }
  }

  // ------------------------------------------------------- sums in any order

  function SumOf(records: seq<BatchRecord>, key: (string, string)): Position {
    IndexedPositions.Sum(AllUpserts(records), IndexedPositions.Chain, key)
  }

  lemma SumJoins(a: seq<BatchRecord>, b: seq<BatchRecord>, key: (string, string))
    ensures SumOf(a + b, key) == Plus(SumOf(a, key), SumOf(b, key))
  {
    UpsertsConcat(a, b);
    hide AllUpserts, IndexedPositions.Sum, Plus;
    IndexedPositions.SumConcat(AllUpserts(a), AllUpserts(b), IndexedPositions.Chain, key);
  }

  /** Records of trades that copy trades of a book move every position by the shares of these trades. */
  lemma {:induction false} RecordsMoveShares(records: seq<BatchRecord>, trades: seq<Trade>, m: string, u: string)
    requires |records| == |trades| && forall k :: 0 <= k < |records| ==> Copies(records[k], trades[k])
    ensures SumOf(records, (m, u)) == IndexedPositions.SharesOf(NetPosition(InMarket(trades, m), u))
  {
    hide SumOf, Plus, NetPosition, InMarket, Copies, IndexedPositions.SharesOf;
    if records == [] {
      IndexedPositions.NoShares(m, u);
      assert SumOf([], (m, u)) == IndexedPositions.Sum([], IndexedPositions.Chain, (m, u)) by {
        NoRecords((m, u));
      }
    } else {
      var n := |records| - 1;
      RecordsMoveShares(records[..n], trades[..n], m, u);
      SumJoins(records[..n], [records[n]], (m, u));
      OneRecordMoves(records[n], trades[n], m, u);
      IndexedPositions.SharesPush(trades[..n], trades[n], m, u);
      assert trades == trades[..n] + [trades[n]] && records == records[..n] + [records[n]];
    }
  }

  predicate Copies(r: BatchRecord, t: Trade) {
    r.payload.TradeEvent? && IndexedPositions.CopyOf(r.payload.trade, t) && t.quantity > 0
  }

  lemma NoRecords(key: (string, string))
    ensures SumOf([], key) == IndexedPositions.Sum([], IndexedPositions.Chain, key)
  {
  }

  lemma OneRecordMoves(r: BatchRecord, t: Trade, m: string, u: string)
    requires Copies(r, t)
    ensures SumOf([r], (m, u)) ==
      if m == t.marketId then Position(TradeShares(t, u, YES), TradeShares(t, u, NO), 0) else IndexedPositions.ZERO
  {
    IndexedPositions.CopyMovesShares(r.payload.trade, t, m, u);
    hide IndexedPositions.Sum, TradeShares;
    UpsertsPush([], r);
    assert [] + [r] == [r] && AllUpserts([]) + UpsertsOf(r) == UpsertsOf(r);
  }

  lemma PlusSwaps(a: Position, b: Position, c: Position)
    ensures Plus(Plus(a, b), c) == Plus(Plus(a, c), b)
  {
  }

  lemma WithoutOne(a: seq<BatchRecord>, left: seq<BatchRecord>, right: seq<BatchRecord>, r: BatchRecord)
    requires multiset(a + [r]) == multiset(left + [r] + right)
    ensures multiset(a) == multiset(left + right)
  {
    assert multiset(a) == multiset(a + [r]) - multiset{r};
    assert multiset(left + right) == multiset(left + [r] + right) - multiset{r};
  }

  /** What records move a position by does not depend on their order. */
  lemma {:induction false} SumAnyOrder(a: seq<BatchRecord>, b: seq<BatchRecord>, key: (string, string))
    requires multiset(a) == multiset(b)
    ensures SumOf(a, key) == SumOf(b, key)
  {
    hide SumOf, Plus;
    if a == [] {
      assert |multiset(a)| == 0 && |multiset(b)| == |b|;
    } else {
      var a', r := a[..|a| - 1], a[|a| - 1];
      assert a == a' + [r];
      assert r in multiset(b);
      var j :| 0 <= j < |b| && b[j] == r;
      var left, right := b[..j], b[j + 1..];
      assert b == left + [r] + right;
      WithoutOne(a', left, right, r);
      SumAnyOrder(a', left + right, key);
      SumJoins(a', [r], key);
      SumJoins(left, [r], key);
      SumJoins(left + [r], right, key);
      SumJoins(left, right, key);
      PlusSwaps(SumOf(left, key), SumOf([r], key), SumOf(right, key));
    }
  }

  // ---------------------------------------------------------- the due trades

  /** The records of the log above a ledger whose keys are marked, in the order of the log. */
  function MarkedRecords(setup: Setup, log: seq<ChainEvent>, base: nat, processed: set<string>): seq<BatchRecord> {
    if log == [] then []
    else
      var e := log[|log| - 1];
      var r := setup.parse(e);
      MarkedRecords(setup, log[..|log| - 1], base, processed)
        + (if e.ledger > base && r.Some? && r.value.idempotencyKey in processed then [r.value] else [])
  }

  ghost predicate NoRepeats<T>(s: seq<T>) {
    forall i, j :: 0 <= i < j < |s| ==> s[i] != s[j]
  }

  lemma {:induction false} MarkedMembers(setup: Setup, log: seq<ChainEvent>, base: nat, processed: set<string>)
    ensures forall r :: r in MarkedRecords(setup, log, base, processed) <==>
      r.idempotencyKey in processed && exists e :: e in log && e.ledger > base && setup.parse(e) == Some(r)
  {
    if log != [] {
      var before, e := log[..|log| - 1], log[|log| - 1];
      assert log == before + [e];
      MarkedMembers(setup, before, base, processed);
    }
  }

  lemma {:induction false} MarkedOnlyOnce(setup: Setup, log: seq<ChainEvent>, base: nat, processed: set<string>)
    requires DistinctKeys(setup) && NoRepeats(log) && forall e :: e in log ==> e in setup.log
    ensures NoRepeats(MarkedRecords(setup, log, base, processed))
  {
    if log != [] {
      var before, e := log[..|log| - 1], log[|log| - 1];
      assert log == before + [e];
      MarkedOnlyOnce(setup, before, base, processed);
      MarkedMembers(setup, before, base, processed);
      hide MarkedRecords, DistinctKeys;
      var records := MarkedRecords(setup, before, base, processed);
      forall x | x in records && setup.parse(e).Some? ensures x != setup.parse(e).value {
        var e' :| e' in before && setup.parse(e') == Some(x);
        var i :| 0 <= i < |before| && before[i] == e';
        assert log[i] == e' && e' != e;
        DifferentRecords(setup, e, e');
      }
      RepeatsPush(records, setup.parse(e));
      assert MarkedRecords(setup, log, base, processed) == records || (setup.parse(e).Some?
          && MarkedRecords(setup, log, base, processed) == records + [setup.parse(e).value]) by {
        MarkedPush(setup, before, e, base, processed);
      }
    }
  }

  lemma MarkedPush(setup: Setup, before: seq<ChainEvent>, e: ChainEvent, base: nat, processed: set<string>)
    ensures var r := setup.parse(e);
      MarkedRecords(setup, before + [e], base, processed) == MarkedRecords(setup, before, base, processed)
        + (if e.ledger > base && r.Some? && r.value.idempotencyKey in processed then [r.value] else [])
  {
    assert (before + [e])[..|before|] == before;
  }

  lemma RepeatsPush(records: seq<BatchRecord>, r: Option<BatchRecord>)
    requires NoRepeats(records) && (r.Some? ==> r.value !in records)
    ensures r.Some? ==> NoRepeats(records + [r.value])
  {
  }

  lemma DifferentRecords(setup: Setup, e: ChainEvent, e': ChainEvent)
    requires DistinctKeys(setup) && e in setup.log && e' in setup.log && e != e' && setup.parse(e).Some?
    ensures setup.parse(e') != setup.parse(e)
  {
    if setup.parse(e') == setup.parse(e) {
      assert SameKey(setup, e, e');
    }
  }

  /** Lists without repeats and with the same members are one multiset. */
  lemma SameBags(a: seq<BatchRecord>, b: seq<BatchRecord>)
    requires NoRepeats(a) && NoRepeats(b) && forall r :: r in a <==> r in b
    ensures multiset(a) == multiset(b)
  {
    OneOfEach(a);
    OneOfEach(b);
    forall r ensures multiset(a)[r] == multiset(b)[r] {
      assert r in a <==> r in multiset(a);
    }
  }

  lemma {:induction false} OneOfEach(s: seq<BatchRecord>)
    requires NoRepeats(s)
    ensures forall r :: multiset(s)[r] == if r in s then 1 else 0
  {
    if s != [] {
      var before, last := s[..|s| - 1], s[|s| - 1];
      assert s == before + [last];
      OneOfEach(before);
    }
  }

  /** In a run that loses nothing the applied records are the marked records of the log. */
  lemma AppliedAreMarked(setup: Setup, base: nat, s: Indexer)
    requires DistinctKeys(setup) && Inv(setup, base, s)
    ensures forall r :: r in s.store.applied <==> r in MarkedRecords(setup, setup.log, base, s.store.processed)
  {
    MarkedMembers(setup, setup.log, base, s.store.processed);
    hide MarkedRecords, DistinctKeys, Due;
    forall r ensures r in s.store.applied <==> r in MarkedRecords(setup, setup.log, base, s.store.processed) {
      if r in s.store.applied {
        assert FromLog(setup, r, base);
        InKeys(s.store.applied, r);
      }
      if r in MarkedRecords(setup, setup.log, base, s.store.processed) {
        var e :| e in setup.log && setup.parse(e) == Some(r);
        var x :| x in s.store.applied && x.idempotencyKey == r.idempotencyKey;
        assert FromLog(setup, x, base);
        var e' :| e' in setup.log && setup.parse(e') == Some(x);
        if e != e' {
          assert !SameKey(setup, e, e') by {
            NotSameKey(setup, e, e');
          }
        }
      }
    }
  }

  lemma NotSameKey(setup: Setup, e: ChainEvent, e': ChainEvent)
    requires DistinctKeys(setup) && e != e'
    ensures !SameKey(setup, e, e')
  {
  }

  lemma AppliedNoRepeats(s: Store)
    requires AtMostOnce(s)
    ensures NoRepeats(s.applied)
  {
    hide KeysOf;
  }

  /** After every run that loses no event and skips no position, the upserts in the database sum, for every
      position, to those of the marked trades of the log, each once; and all that are due are marked. */
  lemma ChainPositions(setup: Setup, initial: Option<nat>, actions: seq<Action>, key: (string, string))
    requires DistinctKeys(setup) && NoRepeats(setup.log)
    requires LosesNothing(setup, initial, actions) && KeepsPositions(setup, initial, actions)
    ensures var s := Run(setup, initial, actions);
      var marked := MarkedRecords(setup, setup.log, SequenceOf(initial), s.store.processed);
      && NoRepeats(marked)
      && IndexedPositions.Sum(s.store.moves, IndexedPositions.Chain, key) == SumOf(marked, key)
      && forall e :: Due(setup, e, SequenceOf(initial), SequenceOf(s.cursor)) ==> setup.parse(e).value in marked
  {
    var s, base := Run(setup, initial, actions), SequenceOf(initial);
    var marked := MarkedRecords(setup, setup.log, base, s.store.processed);
    InvariantOfRuns(setup, initial, actions);
    MovedInRuns(setup, initial, actions);
    AppliedAreMarked(setup, base, s);
    AppliedNoRepeats(s.store);
    MarkedOnlyOnce(setup, setup.log, base, s.store.processed);
    MarkedMembers(setup, setup.log, base, s.store.processed);
    hide Run, MarkedRecords, AllUpserts, IndexedPositions.Sum, NoRepeats, DistinctKeys, LosesNothing, KeepsPositions,
         KeysOf;
    SameBags(s.store.applied, marked);
    SumAnyOrder(s.store.applied, marked, key);
  }

  // ------------------------------------------------------------ both writers

  function ChainMoves(moves: seq<Move>): seq<Move> {
    if moves == [] then []
    else
      var m := moves[|moves| - 1];
      ChainMoves(moves[..|moves| - 1]) + (if m.writer == IndexedPositions.Chain then [m] else [])
  }

  lemma {:induction false} ChainSum(moves: seq<Move>, key: (string, string))
    ensures IndexedPositions.Sum(ChainMoves(moves), IndexedPositions.Chain, key) ==
      IndexedPositions.Sum(moves, IndexedPositions.Chain, key)
  {
    hide Plus, IndexedPositions.Sum;
    if moves != [] {
      var before, m := moves[..|moves| - 1], moves[|moves| - 1];
      ChainSum(before, key);
      IndexedPositions.SumPush(before, m, IndexedPositions.Chain, key);
      IndexedPositions.SumPush(ChainMoves(before), m, IndexedPositions.Chain, key);
      assert moves == before + [m] && ChainMoves(before) + [] == ChainMoves(before);
    }
  }

  /** Book and indexer write in any order, the indexer what such a run left: a position is the net of its user's
      trades of the book, plus the marked trades of the log, each once, plus the correction. */
  lemma PositionsOfBoth(setup: Setup, initial: Option<nat>, actions: seq<Action>, writes: seq<IndexedPositions.Write>,
                        m: string, u: string)
    requires DistinctKeys(setup) && NoRepeats(setup.log)
    requires LosesNothing(setup, initial, actions) && KeepsPositions(setup, initial, actions)
    requires IndexedPositions.WritesOk(writes)
    requires ChainMoves(IndexedPositions.AllMoves(writes)) == Run(setup, initial, actions).store.moves
    ensures var s, rows := Run(setup, initial, actions), IndexedPositions.RowsAfterWrites(writes);
      var marked := MarkedRecords(setup, setup.log, SequenceOf(initial), s.store.processed);
      var book := NetPosition(InMarket(IndexedPositions.BookTrades(writes), m), u);
      var correction := IndexedPositions.Correction(IndexedPositions.AllMoves(writes), (m, u));
      (m, u) in rows ==>
        rows[(m, u)] == Plus(Plus(book, SumOf(marked, (m, u))), correction)
  {
    hide Run, MarkedRecords, SumOf, Plus, NetPosition, InMarket, IndexedPositions.Sum,
         IndexedPositions.RowsAfterWrites, LosesNothing,
         KeepsPositions, DistinctKeys, NoRepeats, IndexedPositions.AllMoves, IndexedPositions.Correction,
         IndexedPositions.First, ChainMoves;
    ChainPositions(setup, initial, actions, (m, u));
    ChainSum(IndexedPositions.AllMoves(writes), (m, u));
    IndexedPositions.SharedPosition(writes, m, u);
  }
}
