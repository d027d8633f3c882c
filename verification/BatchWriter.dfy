/** Writing a batch of parsed events in one transaction: events whose key is known are skipped, the
    others are persisted statement by statement. A statement that fails in the database ends the
    transaction: every later one fails, and the commit undoes everything without saying so. A statement
    that is refused before it is sent leaves the transaction as it is. */
module BatchWriter {
  import opened Domain
  import IndexedPositions

  datatype Payload =
    | TradeEvent(trade: IndexedPositions.ChainTrade)
    | ResolutionEvent(data: string)
    | CollateralDeposited(data: string)
    | MarketCreated(data: string)

  datatype Kind = TradeKind | ResolutionKind | DepositKind | MarketKind

  function KindOf(payload: Payload): Kind {
    match payload
    case TradeEvent(_) => TradeKind
    case ResolutionEvent(_) => ResolutionKind
    case CollateralDeposited(_) => DepositKind
    case MarketCreated(_) => MarketKind
  }

  datatype BatchRecord = BatchRecord(payload: Payload, idempotencyKey: string)

  datatype WriteResult = WriteResult(written: nat, skipped: nat, errors: seq<BatchRecord>)

  datatype WriteError = TransactionThrew

  /** How the transaction ends. */
  datatype Fate = Commits | RollsBack | RepliesLost

  /** What befalls the statements of one record. */
  datatype Fault = NoFault | Fails(at: nat) | Refused(at: nat)

  /** The keys of the processed events, the records whose rows were written, and the upserts of positions. */
  datatype Store = Store(processed: set<string>, applied: seq<BatchRecord>, moves: seq<IndexedPositions.Move>)

  /** A transaction, with what it would commit. */
  datatype Tx = Tx(store: Store, aborted: bool)

  /** How one record fared. */
  datatype Outcome = Inserted | Duplicate | Threw

  /** Where the transaction stands after some records. */
  datatype Progress = Progress(tx: Tx, written: nat, skipped: nat, errors: seq<BatchRecord>)

  const EMPTY := Store({}, [], [])

  function KeysOf(records: seq<BatchRecord>): set<string> {
    set r | r in records :: r.idempotencyKey
  }

  // -------------------------------------------------------------- one record

  /** A trade with a quantity moves two positions. */
  function UpsertsOf(r: BatchRecord): seq<IndexedPositions.Move> {
    if r.payload.TradeEvent? then IndexedPositions.MovesOf(r.payload.trade) else []
  }

  /** Mark the event, write its row, and upsert positions. */
  function Statements(r: BatchRecord): nat {
    2 + |UpsertsOf(r)|
  }

  predicate Hits(r: BatchRecord, fault: Fault) {
    fault != NoFault && fault.at < Statements(r)
  }

  /** The record ends the transaction. */
  predicate Breaks(r: BatchRecord, fault: Fault) {
    Hits(r, fault) && fault.Fails?
  }

  /** The record is reported as an error. Failures of position upserts are caught and count as success. */
  predicate Throws(r: BatchRecord, fault: Fault) {
    Hits(r, fault) && fault.at < 2
  }

  /** The event is marked, and its row is not written. */
  predicate OnlyMarks(r: BatchRecord, fault: Fault) {
    Hits(r, fault) && fault == Refused(1)
  }

  /** The row is written, and a position is not moved. */
  predicate SkipsMoves(r: BatchRecord, fault: Fault) {
    Hits(r, fault) && fault.Refused? && fault.at >= 2
  }

  /** What the first statements of the record do. */
  function Executed(s: Store, r: BatchRecord, n: nat): Store
    requires n <= Statements(r)
  {
    Store(if n >= 1 then s.processed + {r.idempotencyKey} else s.processed,
          if n >= 2 then s.applied + [r] else s.applied,
          if n > 2 then s.moves + UpsertsOf(r)[..n - 2] else s.moves)
  }

  function Persisting(tx: Tx, r: BatchRecord, fault: Fault): (Tx, Outcome) {
    if tx.aborted then (tx, Threw)
    else if r.idempotencyKey in tx.store.processed then (tx, Duplicate)
    else if !Hits(r, fault) then (Tx(Executed(tx.store, r, Statements(r)), false), Inserted)
    else (Tx(Executed(tx.store, r, fault.at), fault.Fails?), if fault.at < 2 then Threw else Inserted)
  }

  // --------------------------------------------------------------- one batch

  /** The records whose keys are not processed. */
  function Unprocessed(records: seq<BatchRecord>, processed: set<string>): seq<BatchRecord> {
    if records == [] then []
    else
      var r := records[|records| - 1];
      Unprocessed(records[..|records| - 1], processed) + (if r.idempotencyKey in processed then [] else [r])
  }

  /** The last record with the key of this one, as a map of the batch by key has it. */
  function RecordByKey(records: seq<BatchRecord>, r: BatchRecord): BatchRecord {
    if records == [] then r
    else
      var last := records[|records| - 1];
      if last.idempotencyKey == r.idempotencyKey then last else RecordByKey(records[..|records| - 1], r)
  }

  function RecordsByKey(records: seq<BatchRecord>, some: seq<BatchRecord>): seq<BatchRecord> {
    if some == [] then []
    else RecordsByKey(records, some[..|some| - 1]) + [RecordByKey(records, some[|some| - 1])]
  }

  /** What a batch has to persist. */
  function Todo(records: seq<BatchRecord>, processed: set<string>): seq<BatchRecord> {
    RecordsByKey(records, Unprocessed(records, processed))
  }

  function Advance(p: Progress, r: BatchRecord, fault: Fault): Progress {
    var (tx, outcome) := Persisting(p.tx, r, fault);
    match outcome
    case Inserted => Progress(tx, p.written + 1, p.skipped, p.errors)
    case Duplicate => Progress(tx, p.written, p.skipped + 1, p.errors)
    case Threw => Progress(tx, p.written, p.skipped, p.errors + [r])
  }

  /** The transaction after these records. */
  function PersistFrom(s: Store, todo: seq<BatchRecord>, faults: string -> Fault): Progress {
    if todo == [] then Progress(Tx(s, false), 0, 0, [])
    else
      var r := todo[|todo| - 1];
      Advance(PersistFrom(s, todo[..|todo| - 1], faults), r, faults(r.idempotencyKey))
  }

  /** What the database holds after a batch. */
  function AfterWrite(s: Store, records: seq<BatchRecord>, faults: string -> Fault, fate: Fate): Store {
    var p := PersistFrom(s, Todo(records, s.processed), faults);
    if fate == RollsBack || p.tx.aborted then s else p.tx.store
  }

  /** What the caller is told. */
  function Answer(s: Store, records: seq<BatchRecord>, faults: string -> Fault,
                  fate: Fate): Result<WriteResult, WriteError> {
    var todo := Todo(records, s.processed);
    var p := PersistFrom(s, todo, faults);
    if records == [] then Ok(WriteResult(0, 0, []))
    else if fate != Commits then Err(TransactionThrew)
    else Ok(WriteResult(p.written, Max(0, |records| - |todo|) + p.skipped, p.errors))
  }

  lemma KeysJoin(a: seq<BatchRecord>, b: seq<BatchRecord>)
    ensures KeysOf(a + b) == KeysOf(a) + KeysOf(b)
  {
    forall k | k in KeysOf(a) ensures k in KeysOf(a + b) {
      var r :| r in a && r.idempotencyKey == k;
      assert r in a + b;
    }
    forall k | k in KeysOf(b) ensures k in KeysOf(a + b) {
      var r :| r in b && r.idempotencyKey == k;
      assert r in a + b;
    }
  }

  lemma KeysPush(records: seq<BatchRecord>, r: BatchRecord)
    ensures KeysOf(records + [r]) == KeysOf(records) + {r.idempotencyKey}
  {
    KeysJoin(records, [r]);
    assert KeysOf([r]) == {r.idempotencyKey};
  }

  // -------------------------------------------------------- what a batch does

  /** Every event took effect at most once, and none that is not marked. */
  ghost predicate AtMostOnce(s: Store) {
    && KeysOf(s.applied) <= s.processed
    && forall i, j :: 0 <= i < j < |s.applied| ==> s.applied[i].idempotencyKey != s.applied[j].idempotencyKey
  }

  /** Every marked event took effect once. */
  ghost predicate OnceEach(s: Store) {
    AtMostOnce(s) && s.processed <= KeysOf(s.applied)
  }

  /** Records with one key are one record, and none is processed: what RecordsByKey makes of unprocessed records. */
  ghost predicate Fresh(todo: seq<BatchRecord>, processed: set<string>) {
    && (forall r :: r in todo ==> r.idempotencyKey !in processed)
    && (forall r, r' :: r in todo && r' in todo && r.idempotencyKey == r'.idempotencyKey ==> r == r')
  }

  lemma FreshPrefix(todo: seq<BatchRecord>, processed: set<string>)
    requires Fresh(todo, processed) && todo != []
    ensures Fresh(todo[..|todo| - 1], processed)
    ensures todo[|todo| - 1].idempotencyKey !in processed && todo == todo[..|todo| - 1] + [todo[|todo| - 1]]
    ensures forall r :: r in todo <==> r in todo[..|todo| - 1] || r == todo[|todo| - 1]
    ensures KeysOf(todo) == KeysOf(todo[..|todo| - 1]) + {todo[|todo| - 1].idempotencyKey}
  {
    var before, last := todo[..|todo| - 1], todo[|todo| - 1];
    assert todo == before + [last];
    KeysPush(before, last);
  }

  /** What was there stays, and what is added comes from the batch. */
  ghost predicate Grown(s: Store, s': Store, todo: seq<BatchRecord>) {
    && s.processed <= s'.processed <= s.processed + KeysOf(todo)
    && s.applied <= s'.applied
    && forall r :: r in s'.applied ==> r in s.applied || r in todo
  }

  lemma GrownStep(s: Store, s1: Store, todo: seq<BatchRecord>, r: BatchRecord, n: nat)
    requires Grown(s, s1, todo) && n <= Statements(r)
    ensures Grown(s, s1, todo + [r])
    ensures Grown(s, Executed(s1, r, n), todo + [r])
  {
    KeysPush(todo, r);
    hide KeysOf, UpsertsOf;
  }

  lemma {:induction false} PersistGrows(s: Store, todo: seq<BatchRecord>, faults: string -> Fault)
    ensures Grown(s, PersistFrom(s, todo, faults).tx.store, todo)
  {
    if todo != [] {
      var before, r := todo[..|todo| - 1], todo[|todo| - 1];
      PersistGrows(s, before, faults);
      assert todo == before + [r];
      hide Grown, Hits, Executed, UpsertsOf;
      var p := PersistFrom(s, before, faults);
      GrownStep(s, p.tx.store, before, r, 0);
      if !p.tx.aborted && r.idempotencyKey !in p.tx.store.processed {
        var fault := faults(r.idempotencyKey);
        GrownStep(s, p.tx.store, before, r, if Hits(r, fault) then fault.at else Statements(r)) by {
          assert Hits(r, fault) ==> fault.at < Statements(r);
        }
      }
    }
  }

  ghost predicate AnyBreaks(todo: seq<BatchRecord>, faults: string -> Fault) {
    exists r :: r in todo && Breaks(r, faults(r.idempotencyKey))
  }

  ghost predicate AnyThrows(todo: seq<BatchRecord>, faults: string -> Fault) {
    exists r :: r in todo && Throws(r, faults(r.idempotencyKey))
  }

  /** The first record of each key. */
  function Firsts(todo: seq<BatchRecord>): seq<BatchRecord> {
    if todo == [] then []
    else
      var before, r := todo[..|todo| - 1], todo[|todo| - 1];
      Firsts(before) + (if r.idempotencyKey in KeysOf(before) then [] else [r])
  }

  /** How a batch went: it ends its transaction if and only if a record does; otherwise it reports an error
      if and only if a record throws, and without errors every key is done once. */
  ghost predicate Went(s: Store, todo: seq<BatchRecord>, faults: string -> Fault, p: Progress) {
    && (p.tx.aborted <==> AnyBreaks(todo, faults))
    && (!p.tx.aborted ==> (p.errors == [] <==> !AnyThrows(todo, faults)))
    && (!p.tx.aborted && p.errors == [] ==>
          && p.tx.store.processed == s.processed + KeysOf(todo)
          && p.tx.store.applied == s.applied + Firsts(todo)
          && p.written == |Firsts(todo)|)
  }

  lemma WentAgain(s: Store, before: seq<BatchRecord>, r: BatchRecord, faults: string -> Fault, p: Progress)
    requires Went(s, before, faults, p) && !p.tx.aborted && r.idempotencyKey in p.tx.store.processed && r in before
    ensures Went(s, before + [r], faults, Advance(p, r, faults(r.idempotencyKey)))
  {
    KeysPush(before, r);
    assert (before + [r])[..|before|] == before;
    assert r.idempotencyKey in KeysOf(before);
    hide KeysOf, Breaks, Throws;
    assert Firsts(before) + [] == Firsts(before);
  }

  lemma WentNew(s: Store, before: seq<BatchRecord>, r: BatchRecord, faults: string -> Fault, p: Progress)
    requires Went(s, before, faults, p) && !p.tx.aborted && r.idempotencyKey !in p.tx.store.processed
    ensures Went(s, before + [r], faults, Advance(p, r, faults(r.idempotencyKey)))
  {
    KeysPush(before, r);
    assert (before + [r])[..|before|] == before;
    hide KeysOf, UpsertsOf;
    AnyPush(before, r, faults);
    hide AnyBreaks, AnyThrows;
  }

  lemma AnyPush(before: seq<BatchRecord>, r: BatchRecord, faults: string -> Fault)
    ensures AnyBreaks(before + [r], faults) <==> AnyBreaks(before, faults) || Breaks(r, faults(r.idempotencyKey))
    ensures AnyThrows(before + [r], faults) <==> AnyThrows(before, faults) || Throws(r, faults(r.idempotencyKey))
  {
    hide Breaks, Throws;
    assert r in before + [r];
    assert forall x :: x in before ==> x in before + [r];
  }

  lemma {:induction false} HowItWent(s: Store, todo: seq<BatchRecord>, faults: string -> Fault)
    requires Fresh(todo, s.processed)
    ensures Went(s, todo, faults, PersistFrom(s, todo, faults))
  {
    if todo != [] {
      var before, r := todo[..|todo| - 1], todo[|todo| - 1];
      FreshPrefix(todo, s.processed);
      HowItWent(s, before, faults);
      PersistGrows(s, before, faults);
      var p := PersistFrom(s, before, faults);
      PersistPush(s, before, r, faults);
      hide PersistFrom, Went, Advance, Fresh;
      if p.tx.aborted {
        WentAborted(s, before, r, faults, p);
      } else if r.idempotencyKey in p.tx.store.processed {
        SameRecord(todo, before, r, s.processed);
        WentAgain(s, before, r, faults, p);
      } else {
        WentNew(s, before, r, faults, p);
      }
    }
  }

  lemma WentAborted(s: Store, before: seq<BatchRecord>, r: BatchRecord, faults: string -> Fault, p: Progress)
    requires Went(s, before, faults, p) && p.tx.aborted
    ensures Went(s, before + [r], faults, Advance(p, r, faults(r.idempotencyKey)))
  {
    AnyPush(before, r, faults);
    hide AnyBreaks, AnyThrows, KeysOf, Firsts;
  }

  lemma SameRecord(todo: seq<BatchRecord>, before: seq<BatchRecord>, r: BatchRecord, processed: set<string>)
    requires Fresh(todo, processed) && r in todo && (forall x :: x in before ==> x in todo)
    requires r.idempotencyKey in KeysOf(before)
    ensures r in before
  {
  }

  // ---------------------------------------------------- batches that lose events

  /** The only record that ends the transaction is the last one, by a failure that is caught, and no other
      record throws. */
  ghost predicate LastIsCaught(todo: seq<BatchRecord>, faults: string -> Fault) {
    && todo != []
    && var before, last := todo[..|todo| - 1], todo[|todo| - 1];
      && Breaks(last, faults(last.idempotencyKey)) && !Throws(last, faults(last.idempotencyKey))
      && last !in before && !AnyBreaks(before, faults) && !AnyThrows(before, faults)
  }

  /** Nothing is reported and nothing is committed: exactly if of the new records the last one, and only it,
      ends the transaction, by a failure that is caught. */
  lemma SilentIff(s: Store, todo: seq<BatchRecord>, faults: string -> Fault)
    requires Fresh(todo, s.processed)
    ensures var p := PersistFrom(s, todo, faults);
      p.tx.aborted && p.errors == [] <==> LastIsCaught(todo, faults)
  {
    if todo != [] {
      var before, r := todo[..|todo| - 1], todo[|todo| - 1];
      FreshPrefix(todo, s.processed);
      HowItWent(s, before, faults);
      PersistGrows(s, before, faults);
      PersistPush(s, before, r, faults);
      var p := PersistFrom(s, before, faults);
      NotYet(s, before, r, p);
      hide PersistFrom, AnyBreaks, AnyThrows, Breaks, Throws, KeysOf, Firsts, Advance, Grown, Went;
      if r.idempotencyKey in KeysOf(before) {
        SameRecord(todo, before, r, s.processed);
      }
      InKeys(before, r);
      SilentStep(s, before, r, faults, p);
    }
  }

  lemma SilentStep(s: Store, before: seq<BatchRecord>, r: BatchRecord, faults: string -> Fault, p: Progress)
    requires Went(s, before, faults, p) && r.idempotencyKey !in s.processed
    requires r.idempotencyKey in p.tx.store.processed ==> r.idempotencyKey in KeysOf(before)
    requires r in before <==> r.idempotencyKey in KeysOf(before)
    ensures var p', fault := Advance(p, r, faults(r.idempotencyKey)), faults(r.idempotencyKey);
      p'.tx.aborted && p'.errors == [] <==>
        && Breaks(r, fault) && !Throws(r, fault) && r !in before
        && !AnyBreaks(before, faults) && !AnyThrows(before, faults)
  {
    hide AnyBreaks, AnyThrows, KeysOf, Firsts, Executed, Hits;
  }

  lemma InKeys(records: seq<BatchRecord>, r: BatchRecord)
    ensures r in records ==> r.idempotencyKey in KeysOf(records)
  {
  }

  lemma NotYet(s: Store, before: seq<BatchRecord>, r: BatchRecord, p: Progress)
    requires Grown(s, p.tx.store, before) && r.idempotencyKey !in s.processed
    ensures r.idempotencyKey in p.tx.store.processed ==> r.idempotencyKey in KeysOf(before)
  {
  }

  ghost predicate AnyOnlyMarks(todo: seq<BatchRecord>, faults: string -> Fault) {
    exists r :: r in todo && OnlyMarks(r, faults(r.idempotencyKey))
  }

  /** Marked events without a row are those whose row was refused. */
  ghost predicate Marks(todo: seq<BatchRecord>, faults: string -> Fault, p: Progress) {
    && AtMostOnce(p.tx.store)
    && (!p.tx.aborted ==> (p.tx.store.processed <= KeysOf(p.tx.store.applied) <==> !AnyOnlyMarks(todo, faults)))
  }

  lemma {:induction false} HowItMarks(s: Store, todo: seq<BatchRecord>, faults: string -> Fault)
    requires OnceEach(s) && Fresh(todo, s.processed)
    ensures Marks(todo, faults, PersistFrom(s, todo, faults))
  {
    if todo != [] {
      var before, r := todo[..|todo| - 1], todo[|todo| - 1];
      FreshPrefix(todo, s.processed);
      HowItMarks(s, before, faults);
      PersistGrows(s, before, faults);
      var p := PersistFrom(s, before, faults);
      PersistPush(s, before, r, faults);
      NotYet(s, before, r, p);
      hide PersistFrom, Fresh, KeysOf, OnceEach, Grown, Marks, Advance;
      if !p.tx.aborted && r.idempotencyKey in p.tx.store.processed {
        SameRecord(todo, before, r, s.processed);
        MarkAmong(before, r, faults);
        MarksAgain(before, r, faults, p);
      } else {
        MarksNew(before, r, faults, p);
      }
    } else {
      NoMarks(s, faults);
    }
  }

  lemma NoMarks(s: Store, faults: string -> Fault)
    requires OnceEach(s)
    ensures Marks([], faults, PersistFrom(s, [], faults))
  {
  }

  lemma MarksAgain(before: seq<BatchRecord>, r: BatchRecord, faults: string -> Fault, p: Progress)
    requires Marks(before, faults, p) && !p.tx.aborted && r.idempotencyKey in p.tx.store.processed
    requires OnlyMarks(r, faults(r.idempotencyKey)) ==> AnyOnlyMarks(before, faults)
    ensures Marks(before + [r], faults, Advance(p, r, faults(r.idempotencyKey)))
  {
    MarkPush(before, r, faults);
    hide AnyOnlyMarks, OnlyMarks, KeysOf, AtMostOnce, Hits, Executed;
  }

  lemma MarksNew(before: seq<BatchRecord>, r: BatchRecord, faults: string -> Fault, p: Progress)
    requires Marks(before, faults, p) && (p.tx.aborted || r.idempotencyKey !in p.tx.store.processed)
    ensures Marks(before + [r], faults, Advance(p, r, faults(r.idempotencyKey)))
  {
    MarkPush(before, r, faults);
    hide AnyOnlyMarks, KeysOf, AtMostOnce, Executed, UpsertsOf;
    var fault := faults(r.idempotencyKey);
    if !p.tx.aborted {
      ExecutedMarks(p.tx.store, r, if Hits(r, fault) then fault.at else Statements(r));
    }
  }

  lemma MarkAmong(before: seq<BatchRecord>, r: BatchRecord, faults: string -> Fault)
    requires r in before
    ensures OnlyMarks(r, faults(r.idempotencyKey)) ==> AnyOnlyMarks(before, faults)
  {
  }

  lemma MarkPush(before: seq<BatchRecord>, r: BatchRecord, faults: string -> Fault)
    ensures AnyOnlyMarks(before + [r], faults) <==>
      AnyOnlyMarks(before, faults) || OnlyMarks(r, faults(r.idempotencyKey))
  {
    hide OnlyMarks;
    assert r in before + [r];
    assert forall x :: x in before ==> x in before + [r];
  }

  lemma ExecutedMarks(s: Store, r: BatchRecord, n: nat)
    requires AtMostOnce(s) && r.idempotencyKey !in s.processed && n <= Statements(r)
    ensures var s' := Executed(s, r, n);
      && AtMostOnce(s')
      && (s'.processed <= KeysOf(s'.applied) <==> s.processed <= KeysOf(s.applied) && n != 1)
  {
    KeysPush(s.applied, r);
    AppliedKeys(s);
    hide KeysOf, UpsertsOf;
  }

  lemma AppliedKeys(s: Store)
    ensures forall i :: 0 <= i < |s.applied| ==> s.applied[i].idempotencyKey in KeysOf(s.applied)
  {
    forall i | 0 <= i < |s.applied| ensures s.applied[i].idempotencyKey in KeysOf(s.applied) {
      InKeys(s.applied, s.applied[i]);
    }
  }

  // ------------------------------------------------- what a batch has to persist

  lemma {:induction false} RecordByKeyIs(records: seq<BatchRecord>, r: BatchRecord)
    requires r in records
    ensures RecordByKey(records, r) in records && RecordByKey(records, r).idempotencyKey == r.idempotencyKey
  {
    var before, last := records[..|records| - 1], records[|records| - 1];
    assert records == before + [last];
    if last.idempotencyKey != r.idempotencyKey {
      RecordByKeyIs(before, r);
    }
  }

  lemma {:induction false} OneByKey(records: seq<BatchRecord>, r: BatchRecord, x: BatchRecord)
    requires r in records && x in records && r.idempotencyKey == x.idempotencyKey
    ensures RecordByKey(records, r) == RecordByKey(records, x)
  {
    var before, last := records[..|records| - 1], records[|records| - 1];
    assert records == before + [last];
    if last.idempotencyKey != r.idempotencyKey {
      OneByKey(before, r, x);
    }
  }

  lemma {:induction false} ByKeyMembers(records: seq<BatchRecord>, some: seq<BatchRecord>)
    ensures forall x :: x in RecordsByKey(records, some) <==> exists r :: r in some && x == RecordByKey(records, r)
  {
    if some != [] {
      var before, r := some[..|some| - 1], some[|some| - 1];
      assert some == before + [r];
      ByKeyMembers(records, before);
      hide RecordByKey;
      assert forall y :: y in some <==> y in before || y == r;
      TodoPush(records, before, r);
      forall x ensures x in RecordsByKey(records, some) <==> exists y :: y in some && x == RecordByKey(records, y) {
        assert x in RecordsByKey(records, some) <==> x in RecordsByKey(records, before) || x == RecordByKey(records, r);
      }
    }
  }

  lemma {:induction false} ByKeyKeys(records: seq<BatchRecord>, some: seq<BatchRecord>)
    requires forall r :: r in some ==> r in records
    ensures KeysOf(RecordsByKey(records, some)) == KeysOf(some)
  {
    if some != [] {
      var before, r := some[..|some| - 1], some[|some| - 1];
      assert some == before + [r];
      ByKeyKeys(records, before);
      RecordByKeyIs(records, r);
      KeysPush(before, r);
      KeysPush(RecordsByKey(records, before), RecordByKey(records, r));
    }
  }

  lemma {:induction false} UnprocessedMembers(records: seq<BatchRecord>, processed: set<string>)
    ensures forall r :: r in Unprocessed(records, processed) <==> r in records && r.idempotencyKey !in processed
  {
    if records != [] {
      UnprocessedMembers(records[..|records| - 1], processed);
      assert records == records[..|records| - 1] + [records[|records| - 1]];
    }
  }

  lemma UnprocessedKeys(records: seq<BatchRecord>, processed: set<string>)
    ensures KeysOf(Unprocessed(records, processed)) == KeysOf(records) - processed
  {
    UnprocessedMembers(records, processed);
    hide Unprocessed;
  }

  /** A batch has to persist the records of its new keys, the last one of each key. */
  lemma TodoIs(records: seq<BatchRecord>, processed: set<string>)
    ensures Fresh(Todo(records, processed), processed)
    ensures KeysOf(Todo(records, processed)) == KeysOf(records) - processed
    ensures forall r :: r in Todo(records, processed) ==> r in records && r == RecordByKey(records, r)
  {
    var some := Unprocessed(records, processed);
    UnprocessedMembers(records, processed);
    ByKeyMembers(records, some);
    ByKeyKeys(records, some);
    UnprocessedKeys(records, processed);
    hide RecordByKey, RecordsByKey, Unprocessed, KeysOf;
    forall x | x in Todo(records, processed)
      ensures x in records && x.idempotencyKey !in processed && x == RecordByKey(records, x)
    {
      var r :| r in some && x == RecordByKey(records, r);
      RecordByKeyIs(records, r);
      OneByKey(records, r, x);
    }
    forall x, y | x in Todo(records, processed) && y in Todo(records, processed) && x.idempotencyKey == y.idempotencyKey
      ensures x == y
    {
      OneByKey(records, x, y);
    }
  }

  // ---------------------------------------------------------- the whole batch

  /** The batch commits and loses an event, or tells its caller that all went well and commits nothing. */
  ghost predicate BatchLoses(s: Store, records: seq<BatchRecord>, faults: string -> Fault, fate: Fate) {
    var todo := Todo(records, s.processed);
    || (fate == Commits && LastIsCaught(todo, faults))
    || (fate != RollsBack && !AnyBreaks(todo, faults) && AnyOnlyMarks(todo, faults))
  }

  /** Write returns without errors although it commits nothing of a batch with new events if and only if the
      transaction is to commit and of the new records the last one, and only it, fails where that is caught. */
  lemma NothingWrittenIff(s: Store, records: seq<BatchRecord>, faults: string -> Fault, fate: Fate)
    requires !(KeysOf(records) <= s.processed)
    ensures var answer := Answer(s, records, faults, fate);
      answer.Ok? && answer.value.errors == [] && AfterWrite(s, records, faults, fate) == s <==>
        fate == Commits && LastIsCaught(Todo(records, s.processed), faults)
  {
    var todo := Todo(records, s.processed);
    TodoIs(records, s.processed);
    SilentIff(s, todo, faults);
    HowItWent(s, todo, faults);
    assert records != [];
    var k :| k in KeysOf(records) && k !in s.processed;
    assert k in KeysOf(todo);
    hide Todo, PersistFrom, LastIsCaught, KeysOf, AnyBreaks, AnyThrows, Firsts;
  }

  lemma AllDone(s: Store, todo: seq<BatchRecord>, faults: string -> Fault)
    requires OnceEach(s) && Fresh(todo, s.processed) && !LastIsCaught(todo, faults) && !AnyOnlyMarks(todo, faults)
    requires PersistFrom(s, todo, faults).errors == []
    ensures var p := PersistFrom(s, todo, faults);
      && !p.tx.aborted && OnceEach(p.tx.store) && p.tx.store.processed == s.processed + KeysOf(todo)
      && p.tx.store.applied == s.applied + Firsts(todo) && p.written == |Firsts(todo)|
  {
    SilentIff(s, todo, faults);
    HowItWent(s, todo, faults);
    MarkedOnce(s, todo, faults);
    hide PersistFrom, LastIsCaught, KeysOf, AnyBreaks, AnyThrows, AnyOnlyMarks, Firsts, OnceEach;
  }

  /** A batch without errors that is not lost applies each of its new events once, the last record of each
      key, and is counted. */
  lemma WrittenOnce(s: Store, records: seq<BatchRecord>, faults: string -> Fault, fate: Fate)
    requires OnceEach(s) && Answer(s, records, faults, fate).Ok? && Answer(s, records, faults, fate).value.errors == []
    requires !BatchLoses(s, records, faults, fate) && records != []
    ensures var s', todo := AfterWrite(s, records, faults, fate), Todo(records, s.processed);
      && OnceEach(s') && s'.processed == s.processed + KeysOf(records)
      && s'.applied == s.applied + Firsts(todo)
      && (forall r :: r in Firsts(todo) ==>
            r in records && r == RecordByKey(records, r) && r.idempotencyKey !in s.processed)
      && Answer(s, records, faults, fate).value.written == |s'.applied| - |s.applied|
  {
    var todo := Todo(records, s.processed);
    FirstsOfBatch(records, s.processed);
    AnswerOk(s, records, faults, fate);
    NewKeys(records, s.processed);
    assert !LastIsCaught(todo, faults) && !(!AnyBreaks(todo, faults) && AnyOnlyMarks(todo, faults));
    hide *;
    NotLost(s, todo, faults);
    AllDone(s, todo, faults);
  }

  lemma NewKeys(records: seq<BatchRecord>, processed: set<string>)
    ensures Fresh(Todo(records, processed), processed)
    ensures processed + KeysOf(Todo(records, processed)) == processed + KeysOf(records)
  {
    TodoIs(records, processed);
    hide Todo, KeysOf, Fresh, RecordByKey;
  }

  lemma FirstsOfBatch(records: seq<BatchRecord>, processed: set<string>)
    ensures forall r :: r in Firsts(Todo(records, processed)) ==>
      r in records && r == RecordByKey(records, r) && r.idempotencyKey !in processed
  {
    TodoIs(records, processed);
    FirstsMembers(Todo(records, processed));
    hide Todo, KeysOf, RecordByKey, Firsts;
  }

  /** A commit that is answered. */
  lemma AnswerOk(s: Store, records: seq<BatchRecord>, faults: string -> Fault, fate: Fate)
    requires Answer(s, records, faults, fate).Ok? && records != []
    ensures var p, answer := PersistFrom(s, Todo(records, s.processed), faults), Answer(s, records, faults, fate);
      && fate == Commits && answer.value.errors == p.errors
      && (!p.tx.aborted ==> AfterWrite(s, records, faults, fate) == p.tx.store)
      && answer.value.written == p.written
  {
    hide PersistFrom, Todo;
  }

  lemma NotLost(s: Store, todo: seq<BatchRecord>, faults: string -> Fault)
    requires Fresh(todo, s.processed) && !LastIsCaught(todo, faults) && PersistFrom(s, todo, faults).errors == []
    ensures !AnyBreaks(todo, faults)
  {
    SilentIff(s, todo, faults);
    HowItWent(s, todo, faults);
  }

  lemma MarkedOnce(s: Store, todo: seq<BatchRecord>, faults: string -> Fault)
    requires OnceEach(s) && Fresh(todo, s.processed)
    ensures var p := PersistFrom(s, todo, faults);
      !p.tx.aborted ==> AtMostOnce(p.tx.store) && (OnceEach(p.tx.store) <==> !AnyOnlyMarks(todo, faults))
  {
    HowItMarks(s, todo, faults);
    hide PersistFrom, Fresh, KeysOf, AnyOnlyMarks;
  }

  lemma {:induction false} FirstsMembers(todo: seq<BatchRecord>)
    ensures forall r :: r in Firsts(todo) ==> r in todo
    ensures KeysOf(Firsts(todo)) == KeysOf(todo)
  {
    if todo != [] {
      var before, r := todo[..|todo| - 1], todo[|todo| - 1];
      FirstsMembers(before);
      assert todo == before + [r];
      KeysPush(before, r);
      KeysPush(Firsts(before), r);
      hide KeysOf;
      assert Firsts(before) + [] == Firsts(before);
    }
  }

  /** Whatever happens to a batch that loses nothing, each event took effect at most once, and exactly the
      marked ones did. */
  lemma BatchKeeps(s: Store, records: seq<BatchRecord>, faults: string -> Fault, fate: Fate)
    requires OnceEach(s)
    ensures var s', answer := AfterWrite(s, records, faults, fate), Answer(s, records, faults, fate);
      && Grown(s, s', Todo(records, s.processed)) && AtMostOnce(s')
      && (!BatchLoses(s, records, faults, fate) ==> OnceEach(s'))
      && (!BatchLoses(s, records, faults, fate) && answer.Ok? && answer.value.errors == [] ==>
           KeysOf(records) <= s'.processed)
  {
    var todo := Todo(records, s.processed);
    TodoIs(records, s.processed);
    PersistGrows(s, todo, faults);
    SilentIff(s, todo, faults);
    HowItWent(s, todo, faults);
    MarkedOnce(s, todo, faults);
    NothingGrown(s, todo);
    assert AtMostOnce(s);
    hide Todo, PersistFrom, LastIsCaught, KeysOf, AnyBreaks, AnyThrows, AnyOnlyMarks, Firsts, Grown, OnceEach,
         AtMostOnce;
    if records == [] {
      assert KeysOf(records) == {} by {
        NoKeys();
      }
    }
  }

  lemma NoKeys()
    ensures KeysOf([]) == {}
  {
  }

  lemma NothingGrown(s: Store, todo: seq<BatchRecord>)
    ensures Grown(s, s, todo)
  {
  }

  /** A batch whose statements all succeed has no errors and loses nothing. */
  lemma CleanBatch(s: Store, records: seq<BatchRecord>, faults: string -> Fault, fate: Fate)
    requires forall k :: faults(k) == NoFault
    ensures PersistFrom(s, Todo(records, s.processed), faults).errors == [] && !BatchLoses(s, records, faults, fate)
  {
    var todo := Todo(records, s.processed);
    TodoIs(records, s.processed);
    HowItWent(s, todo, faults);
    hide Todo, PersistFrom, Fresh, KeysOf, Firsts, UpsertsOf;
  }

  /** A batch that loses an event: the caller goes on behind a new event that is not marked, or an event is
      marked that has no effect. */
  lemma BatchLost(s: Store, records: seq<BatchRecord>, faults: string -> Fault, fate: Fate)
    requires OnceEach(s) && BatchLoses(s, records, faults, fate)
    ensures var s', answer := AfterWrite(s, records, faults, fate), Answer(s, records, faults, fate);
      || !OnceEach(s')
      || (answer.Ok? && answer.value.errors == [] && s' == s && !(KeysOf(records) <= s.processed))
  {
    var todo := Todo(records, s.processed);
    TodoIs(records, s.processed);
    SilentIff(s, todo, faults);
    HowItWent(s, todo, faults);
    MarkedOnce(s, todo, faults);
    if LastIsCaught(todo, faults) {
      assert todo[|todo| - 1] in todo;
    }
    hide OnceEach, Todo, PersistFrom, LastIsCaught, KeysOf, AnyBreaks, AnyThrows, AnyOnlyMarks, Firsts, Grown;
  }

  // -------------------------------------------------------------- the writer

  lemma TodoPush(records: seq<BatchRecord>, some: seq<BatchRecord>, r: BatchRecord)
    ensures RecordsByKey(records, some + [r]) == RecordsByKey(records, some) + [RecordByKey(records, r)]
  {
    assert (some + [r])[..|some|] == some;
  }

  lemma PersistPush(s: Store, todo: seq<BatchRecord>, r: BatchRecord, faults: string -> Fault)
    ensures PersistFrom(s, todo + [r], faults) == Advance(PersistFrom(s, todo, faults), r, faults(r.idempotencyKey))
  {
    assert (todo + [r])[..|todo|] == todo;
  }

  lemma NoRecords(s: Store, records: seq<BatchRecord>, inserted: seq<BatchRecord>, faults: string -> Fault)
    ensures PersistFrom(s, RecordsByKey(records, inserted[..0]), faults) == Progress(Tx(s, false), 0, 0, [])
  {
  }

  lemma NextRecord(s: Store, records: seq<BatchRecord>, inserted: seq<BatchRecord>, i: nat, faults: string -> Fault)
    requires i < |inserted|
    ensures var r := RecordByKey(records, inserted[i]);
      PersistFrom(s, RecordsByKey(records, inserted[..i + 1]), faults) ==
      Advance(PersistFrom(s, RecordsByKey(records, inserted[..i]), faults), r, faults(r.idempotencyKey))
  {
    hide PersistFrom, RecordsByKey, RecordByKey, Advance;
    TodoPush(records, inserted[..i], inserted[i]);
    PersistPush(s, RecordsByKey(records, inserted[..i]), RecordByKey(records, inserted[i]), faults);
    assert inserted[..i + 1] == inserted[..i] + [inserted[i]];
  }

  class PrismaBatchWriter {
    var store: Store

    constructor ()
      ensures store == EMPTY
    {
      store := EMPTY;
    }

    /** Take out the records that are processed already. */
    method InsertAllIfNew(records: seq<BatchRecord>) returns (inserted: seq<BatchRecord>, duplicateCount: nat)
      ensures inserted == Unprocessed(records, store.processed) && |inserted| + duplicateCount == |records|
    {
      inserted, duplicateCount := [], 0;
      var i := 0;
      while i < |records|
        invariant 0 <= i <= |records|
        invariant inserted == Unprocessed(records[..i], store.processed) && |inserted| + duplicateCount == i
      {
        assert records[..i + 1][..i] == records[..i];
        if records[i].idempotencyKey in store.processed {
          duplicateCount := duplicateCount + 1;
        } else {
          inserted := inserted + [records[i]];
        }
        i := i + 1;
      }
      assert records[..|records|] == records;
    }

    /** Send one statement; n of the record were executed before. */
    method Execute(tx: Tx, ghost s: Store, r: BatchRecord, n: nat, fault: Fault) returns (tx': Tx, ok: bool)
      requires !tx.aborted && n < Statements(r) && tx.store == Executed(s, r, n)
      ensures ok <==> fault == NoFault || fault.at != n
      ensures tx' == if ok then Tx(Executed(s, r, n + 1), false) else Tx(tx.store, fault.Fails?)
    {
      ok := fault == NoFault || fault.at != n;
      if !ok {
        tx' := Tx(tx.store, fault.Fails?);
      } else if n == 0 {
        tx' := Tx(tx.store.(processed := tx.store.processed + {r.idempotencyKey}), false);
      } else if n == 1 {
        tx' := Tx(tx.store.(applied := tx.store.applied + [r]), false);
      } else {
        tx' := Tx(tx.store.(moves := tx.store.moves + [UpsertsOf(r)[n - 2]]), false);
        assert UpsertsOf(r)[..n - 1] == UpsertsOf(r)[..n - 2] + [UpsertsOf(r)[n - 2]];
        assert s.moves + [] == s.moves && UpsertsOf(r)[..0] == [];
      }
    }

    /** Upsert both sides of a trade. What goes wrong is caught. */
    method ReconcileTradeIntoPositions(tx: Tx, ghost s: Store, r: BatchRecord, fault: Fault) returns (tx': Tx)
      requires !tx.aborted && tx.store == Executed(s, r, 2) && (fault == NoFault || fault.at >= 2)
      ensures tx' == if Hits(r, fault) then Tx(Executed(s, r, fault.at), fault.Fails?)
                     else Tx(Executed(s, r, Statements(r)), false)
    {
      tx' := tx;
      if UpsertsOf(r) != [] {
        var ok;
        tx', ok := Execute(tx', s, r, 2, fault);
        if ok {
          tx', ok := Execute(tx', s, r, 3, fault);
        }
      }
    }

    /** Persist one record inside the transaction: nothing to do if its key came up already. */
    method PersistRecord(tx: Tx, r: BatchRecord, fault: Fault) returns (tx': Tx, outcome: Outcome)
      ensures (tx', outcome) == Persisting(tx, r, fault)
    {
      tx', outcome := tx, Threw;
      if !tx.aborted {
        if r.idempotencyKey in tx.store.processed {
          outcome := Duplicate;
        } else {
          var ok;
          tx', ok := Execute(tx', tx.store, r, 0, fault);
          if ok {
            tx', ok := Execute(tx', tx.store, r, 1, fault);
            if ok {
              outcome := Inserted;
              tx' := ReconcileTradeIntoPositions(tx', tx.store, r, fault);
            }
          }
        }
      }
    }

    /** Persist one record and count it. */
    method PersistNext(p: Progress, r: BatchRecord, fault: Fault) returns (p': Progress)
      ensures p' == Advance(p, r, fault)
    {
      hide Persisting;
      var tx, outcome := PersistRecord(p.tx, r, fault);
      match outcome
      case Inserted => p' := Progress(tx, p.written + 1, p.skipped, p.errors);
      case Duplicate => p' := Progress(tx, p.written, p.skipped + 1, p.errors);
      case Threw => p' := Progress(tx, p.written, p.skipped, p.errors + [r]);
    }

    /** Persist the records inside the transaction, which sees its own changes. */
    method PersistAll(records: seq<BatchRecord>, inserted: seq<BatchRecord>,
                      faults: string -> Fault) returns (p: Progress)
      ensures p == PersistFrom(store, RecordsByKey(records, inserted), faults)
    {
      NoRecords(store, records, inserted, faults);
      hide PersistFrom, RecordsByKey, RecordByKey, Advance;
      p := Progress(Tx(store, false), 0, 0, []);
      var i := 0;
      while i < |inserted|
        invariant 0 <= i <= |inserted|
        invariant p == PersistFrom(store, RecordsByKey(records, inserted[..i]), faults)
      {
        var r := RecordByKey(records, inserted[i]);
        NextRecord(store, records, inserted, i, faults);
        p := PersistNext(p, r, faults(r.idempotencyKey));
        i := i + 1;
      }
      assert inserted[..|inserted|] == inserted;
    }

    /** Write a batch in one transaction, which ends by this fate. */
    method Write(records: seq<BatchRecord>, faults: string -> Fault,
                 fate: Fate) returns (r: Result<WriteResult, WriteError>)
      modifies this
      ensures store == AfterWrite(old(store), records, faults, fate)
      ensures r == Answer(old(store), records, faults, fate)
    {
      hide PersistFrom, RecordsByKey, Unprocessed;
      if records == [] {
        UntouchedStore(store, faults);
        r := Ok(WriteResult(0, 0, []));
      } else {
        var inserted, duplicateCount := InsertAllIfNew(records);
        var p := PersistAll(records, inserted, faults);
        TodoLength(records, inserted);
        if fate != RollsBack && !p.tx.aborted {
          store := p.tx.store;
        }
        r := if fate == Commits then Ok(WriteResult(p.written, duplicateCount + p.skipped, p.errors))
          else Err(TransactionThrew);
      }
    }
  }

  /** Whoever gets an answer is told of every record: as written, as skipped or as an error. */
  lemma EveryRecordIsCounted(s: Store, records: seq<BatchRecord>, faults: string -> Fault, fate: Fate)
    requires Answer(s, records, faults, fate).Ok?
    ensures var answer := Answer(s, records, faults, fate).value;
      answer.written + answer.skipped + |answer.errors| == |records|
  {
    TodoLength(records, Unprocessed(records, s.processed));
    UnprocessedLength(records, s.processed);
    Counted(s, Todo(records, s.processed), faults);
    hide PersistFrom, RecordsByKey, Unprocessed;
  }

  lemma {:induction false} UnprocessedLength(records: seq<BatchRecord>, processed: set<string>)
    ensures |Unprocessed(records, processed)| <= |records|
  {
    if records != [] {
      UnprocessedLength(records[..|records| - 1], processed);
    }
  }

  lemma {:induction false} Counted(s: Store, todo: seq<BatchRecord>, faults: string -> Fault)
    ensures var p := PersistFrom(s, todo, faults);
      p.written + p.skipped + |p.errors| == |todo|
  {
    if todo != [] {
      Counted(s, todo[..|todo| - 1], faults);
      hide Persisting;
    }
  }

  lemma UntouchedStore(s: Store, faults: string -> Fault)
    ensures Todo([], s.processed) == [] && PersistFrom(s, [], faults).tx == Tx(s, false)
  {
  }

  lemma {:induction false} TodoLength(records: seq<BatchRecord>, some: seq<BatchRecord>)
    ensures |RecordsByKey(records, some)| == |some|
  {
    if some != [] {
      TodoLength(records, some[..|some| - 1]);
    }
  }
}
