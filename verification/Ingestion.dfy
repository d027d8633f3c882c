/** The polling loop of the indexer: it fetches the window after its cursor, writes the parsed events,
    advances, and saves the cursor only every so many batches. Fetches, statements, transactions and saves
    may fail and the process may crash at any time; on a start the loop goes on from the saved cursor. */
module Ingestion {
  import opened Domain
  import opened EventFetcher
  import opened BatchWriter
  import opened EventIds

  /** The chain, the parsers taken together, and the configuration. */
  datatype Setup = Setup(
    log: seq<ChainEvent>,
    parse: ChainEvent -> Option<BatchRecord>,
    windowSize: nat,
    flushEvery: nat)

  /** What the process holds in memory and what the database holds. */
  datatype Indexer = Indexer(cursor: Option<nat>, batches: nat, saved: Option<nat>, store: Store)

  /** What happens during one tick: the fetch fails or sees the chain up to some ledger, statements
      of some records fail, the transaction ends somehow, and saving the cursor may fail. */
  datatype Surroundings = Surroundings(
    fetched: bool,
    latestLedger: nat,
    faults: string -> Fault,
    fate: Fate,
    saveFails: bool)

  datatype Action = Tick(env: Surroundings) | Stop(saveFails: bool) | Crash

  /** No cursor counts as ledger zero. */
  function SequenceOf(cursor: Option<nat>): nat {
    if cursor.Some? then cursor.value else 0
  }

  function OfKind(events: seq<ChainEvent>, parse: ChainEvent -> Option<BatchRecord>, kind: Kind): seq<BatchRecord> {
    if events == [] then []
    else
      var r := parse(events[0]);
      (if r.Some? && KindOf(r.value.payload) == kind then [r.value] else []) + OfKind(events[1..], parse, kind)
  }

  /** The records of a batch: markets first, then trades, resolutions and deposits. */
  function RecordsOf(events: seq<ChainEvent>, parse: ChainEvent -> Option<BatchRecord>): seq<BatchRecord> {
    OfKind(events, parse, MarketKind) + OfKind(events, parse, TradeKind) + OfKind(events, parse, ResolutionKind)
      + OfKind(events, parse, DepositKind)
  }

  /** Where a tick that fetches ends. */
  function EndLedger(setup: Setup, s: Indexer, env: Surroundings): nat {
    Min(SequenceOf(s.cursor) + setup.windowSize, env.latestLedger)
  }

  function Window(setup: Setup, s: Indexer, env: Surroundings): seq<BatchRecord> {
    RecordsOf(Between(setup.log, SequenceOf(s.cursor) + 1, EndLedger(setup, s, env)), setup.parse)
  }

  /** The cursor to go on from, or nothing if the tick threw. */
  ghost function Ingest(setup: Setup, s: Indexer, env: Surroundings): (Store, Option<nat>) {
    var here := SequenceOf(s.cursor);
    if !env.fetched then (s.store, None)
    else if here >= env.latestLedger then (s.store, Some(here))
    else
      var answer := Answer(s.store, Window(setup, s, env), env.faults, env.fate);
      (AfterWrite(s.store, Window(setup, s, env), env.faults, env.fate),
       if answer.Err? then None else if answer.value.errors == [] then Some(EndLedger(setup, s, env)) else Some(here))
  }

  function Flushed(s: Indexer, flushEvery: nat, force: bool, saveFails: bool): Indexer {
    if s.cursor.None? || (!force && s.batches < flushEvery) || saveFails then s
    else s.(saved := s.cursor, batches := 0)
  }

  ghost function Step(setup: Setup, s: Indexer, a: Action): Indexer {
    match a
    case Tick(env) =>
      var (store, next) := Ingest(setup, s, env);
      var s' := s.(store := store);
      if next.Some? && next != s.cursor
      then Flushed(s'.(cursor := next, batches := s.batches + 1), setup.flushEvery, false, env.saveFails)
      else s'
    case Stop(saveFails) => Flushed(s, setup.flushEvery, true, saveFails)
    case Crash => s.(cursor := s.saved, batches := 0)
  }

  /** The state after these actions, from this cursor on an empty store. */
  ghost function Run(setup: Setup, initial: Option<nat>, actions: seq<Action>): Indexer {
    if actions == [] then Indexer(initial, 0, initial, EMPTY)
    else Step(setup, Run(setup, initial, actions[..|actions| - 1]), actions[|actions| - 1])
  }

  // ------------------------------------------------------------ the invariant

  ghost predicate DistinctKeys(setup: Setup) {
    forall e, e' :: SameKey(setup, e, e') ==> e == e'
  }

  predicate SameKey(setup: Setup, e: ChainEvent, e': ChainEvent) {
    && e in setup.log && e' in setup.log && setup.parse(e).Some? && setup.parse(e').Some?
    && setup.parse(e).value.idempotencyKey == setup.parse(e').value.idempotencyKey
  }

  /** The event is one to be applied. */
  predicate Due(setup: Setup, e: ChainEvent, above: nat, upTo: nat) {
    e in setup.log && setup.parse(e).Some? && above < e.ledger <= upTo
  }

  ghost predicate FromLog(setup: Setup, r: BatchRecord, above: nat) {
    exists e :: e in setup.log && setup.parse(e) == Some(r) && e.ledger > above
  }

  /** Everything due is processed, nothing else took effect, nothing took effect twice, and the saved
      cursor is not ahead. */
  ghost predicate Inv(setup: Setup, base: nat, s: Indexer) {
    && OnceEach(s.store)
    && base <= SequenceOf(s.saved) <= SequenceOf(s.cursor)
    && (forall e :: Due(setup, e, base, SequenceOf(s.cursor)) ==>
         setup.parse(e).value.idempotencyKey in s.store.processed)
    && (forall r :: r in s.store.applied ==> FromLog(setup, r, base))
  }

  lemma {:induction false} OfKindMembers(events: seq<ChainEvent>, parse: ChainEvent -> Option<BatchRecord>, kind: Kind)
    ensures forall r :: r in OfKind(events, parse, kind) <==>
      KindOf(r.payload) == kind && exists e :: e in events && parse(e) == Some(r)
  {
    if events != [] {
      OfKindMembers(events[1..], parse, kind);
      assert events == [events[0]] + events[1..];
    }
  }

  lemma RecordsMembers(events: seq<ChainEvent>, parse: ChainEvent -> Option<BatchRecord>)
    ensures forall r :: r in RecordsOf(events, parse) <==> exists e :: e in events && parse(e) == Some(r)
  {
    OfKindMembers(events, parse, MarketKind);
    OfKindMembers(events, parse, TradeKind);
    OfKindMembers(events, parse, ResolutionKind);
    OfKindMembers(events, parse, DepositKind);
    hide OfKind;
  }

  /** The place of a kind in a batch: the rows of markets are there before their trades are written. */
  function Rank(kind: Kind): nat {
    match kind
    case MarketKind => 0
    case TradeKind => 1
    case ResolutionKind => 2
    case DepositKind => 3
  }

  ghost predicate InOrder(events: seq<ChainEvent>, parse: ChainEvent -> Option<BatchRecord>, r: BatchRecord,
                          x: BatchRecord) {
    exists a, b :: 0 <= a < b < |events| && parse(events[a]) == Some(r) && parse(events[b]) == Some(x)
  }

  lemma InOrderLater(events: seq<ChainEvent>, parse: ChainEvent -> Option<BatchRecord>, r: BatchRecord, x: BatchRecord)
    requires events != [] && InOrder(events[1..], parse, r, x)
    ensures InOrder(events, parse, r, x)
  {
    var a, b :| 0 <= a < b < |events[1..]| && parse(events[1..][a]) == Some(r) && parse(events[1..][b]) == Some(x);
    assert events[a + 1] == events[1..][a] && events[b + 1] == events[1..][b];
  }

  ghost predicate AllInOrder(events: seq<ChainEvent>, parse: ChainEvent -> Option<BatchRecord>, s: seq<BatchRecord>) {
    forall i, j :: 0 <= i < j < |s| ==> InOrder(events, parse, s[i], s[j])
  }

  lemma LaterInOrder(events: seq<ChainEvent>, parse: ChainEvent -> Option<BatchRecord>, rest: seq<BatchRecord>)
    requires events != [] && AllInOrder(events[1..], parse, rest)
    ensures AllInOrder(events, parse, rest)
  {
    hide InOrder;
    forall i, j | 0 <= i < j < |rest| ensures InOrder(events, parse, rest[i], rest[j]) {
      InOrderLater(events, parse, rest[i], rest[j]);
    }
  }

  lemma PushInOrder(events: seq<ChainEvent>, parse: ChainEvent -> Option<BatchRecord>, r: BatchRecord,
                    rest: seq<BatchRecord>)
    requires events != [] && parse(events[0]) == Some(r) && AllInOrder(events, parse, rest)
    requires forall x :: x in rest ==> exists e :: e in events[1..] && parse(e) == Some(x)
    ensures AllInOrder(events, parse, [r] + rest)
  {
    hide InOrder;
    var s := [r] + rest;
    forall i, j | 0 <= i < j < |s| ensures InOrder(events, parse, s[i], s[j]) {
      if i == 0 {
        assert s[j] in rest;
        FirstInOrder(events, parse, r, s[j]);
      }
    }
  }

  lemma {:induction false} OfKindOrdered(events: seq<ChainEvent>, parse: ChainEvent -> Option<BatchRecord>, kind: Kind)
    ensures AllInOrder(events, parse, OfKind(events, parse, kind))
  {
    if events != [] {
      hide AllInOrder;
      var rest, r := OfKind(events[1..], parse, kind), parse(events[0]);
      OfKindOrdered(events[1..], parse, kind);
      LaterInOrder(events, parse, rest);
      if r.Some? && KindOf(r.value.payload) == kind {
        OfKindMembers(events[1..], parse, kind);
        PushInOrder(events, parse, r.value, rest);
      } else {
        assert [] + rest == rest;
      }
    }
  }

  lemma FirstInOrder(events: seq<ChainEvent>, parse: ChainEvent -> Option<BatchRecord>, r: BatchRecord, x: BatchRecord)
    requires events != [] && parse(events[0]) == Some(r) && exists e :: e in events[1..] && parse(e) == Some(x)
    ensures InOrder(events, parse, r, x)
  {
    var e :| e in events[1..] && parse(e) == Some(x);
    var b :| 0 <= b < |events[1..]| && events[1..][b] == e;
    assert parse(events[0]) == Some(r) && parse(events[b + 1]) == Some(x);
  }

  ghost predicate Ordered(events: seq<ChainEvent>, parse: ChainEvent -> Option<BatchRecord>, s: seq<BatchRecord>) {
    forall i, j :: 0 <= i < j < |s| ==>
      && Rank(KindOf(s[i].payload)) <= Rank(KindOf(s[j].payload))
      && (KindOf(s[i].payload) == KindOf(s[j].payload) ==> InOrder(events, parse, s[i], s[j]))
  }

  lemma OneKindOrdered(events: seq<ChainEvent>, parse: ChainEvent -> Option<BatchRecord>, kind: Kind)
    ensures Ordered(events, parse, OfKind(events, parse, kind))
    ensures forall r :: r in OfKind(events, parse, kind) ==> KindOf(r.payload) == kind
  {
    OfKindOrdered(events, parse, kind);
    OfKindMembers(events, parse, kind);
    hide OfKind, InOrder;
  }

  lemma JoinOrdered(events: seq<ChainEvent>, parse: ChainEvent -> Option<BatchRecord>, a: seq<BatchRecord>,
                    b: seq<BatchRecord>, kind: Kind)
    requires Ordered(events, parse, a) && Ordered(events, parse, b)
    requires forall r :: r in a ==> Rank(KindOf(r.payload)) < Rank(kind)
    requires forall r :: r in b ==> KindOf(r.payload) == kind
    ensures Ordered(events, parse, a + b)
    ensures forall r :: r in a + b ==> Rank(KindOf(r.payload)) <= Rank(kind)
  {
    hide InOrder, KindOf;
    var s := a + b;
    forall i, j | 0 <= i < j < |s|
      ensures Rank(KindOf(s[i].payload)) <= Rank(KindOf(s[j].payload))
      ensures KindOf(s[i].payload) == KindOf(s[j].payload) ==> InOrder(events, parse, s[i], s[j])
    {
      if i < |a| <= j {
        assert s[i] in a && s[j] in b;
      } else if i >= |a| {
        assert s[i] == b[i - |a|] && s[j] == b[j - |a|];
      }
    }
  }

  /** In a batch markets come before trades, trades before resolutions and those before deposits, and each kind is in
      the order of the log. */
  lemma BatchOrder(events: seq<ChainEvent>, parse: ChainEvent -> Option<BatchRecord>)
    ensures Ordered(events, parse, RecordsOf(events, parse))
  {
    OneKindOrdered(events, parse, MarketKind);
    OneKindOrdered(events, parse, TradeKind);
    OneKindOrdered(events, parse, ResolutionKind);
    OneKindOrdered(events, parse, DepositKind);
    hide OfKind, Ordered, KindOf;
    var markets, trades := OfKind(events, parse, MarketKind), OfKind(events, parse, TradeKind);
    JoinOrdered(events, parse, markets, trades, TradeKind);
    JoinOrdered(events, parse, markets + trades, OfKind(events, parse, ResolutionKind), ResolutionKind);
    JoinOrdered(events, parse, markets + trades + OfKind(events, parse, ResolutionKind),
                OfKind(events, parse, DepositKind), DepositKind);
  }

  /** The records of a window are those of its events. */
  lemma WindowRecords(setup: Setup, here: nat, endLedger: nat)
    ensures var records := RecordsOf(Between(setup.log, here + 1, endLedger), setup.parse);
      && (forall e :: Due(setup, e, here, endLedger) ==> setup.parse(e).value.idempotencyKey in KeysOf(records))
      && (forall r :: r in records ==> FromLog(setup, r, here))
  {
    var events := Between(setup.log, here + 1, endLedger);
    BetweenMembers(setup.log, here + 1, endLedger);
    RecordsMembers(events, setup.parse);
    hide Between, RecordsOf;
    forall e | Due(setup, e, here, endLedger)
      ensures setup.parse(e).value.idempotencyKey in KeysOf(RecordsOf(events, setup.parse))
    {
      assert e in events;
      assert setup.parse(e).value in RecordsOf(events, setup.parse);
    }
    forall r | r in RecordsOf(events, setup.parse) ensures FromLog(setup, r, here) {
      var e :| e in events && setup.parse(e) == Some(r);
      assert e in setup.log;
    }
  }

  /** The tick writes a batch that loses an event. */
  ghost predicate Loses(setup: Setup, s: Indexer, a: Action) {
    && a.Tick? && a.env.fetched && SequenceOf(s.cursor) < a.env.latestLedger
    && BatchLoses(s.store, Window(setup, s, a.env), a.env.faults, a.env.fate)
  }

  /** A store that grew by a window: what is applied comes from the log, and if the window is done, the cursor
      may go on behind it. */
  lemma GrownWindow(setup: Setup, base: nat, s: Indexer, env: Surroundings, store: Store)
    requires Inv(setup, base, s) && OnceEach(store) && SequenceOf(s.cursor) < env.latestLedger
    requires Grown(s.store, store, Todo(Window(setup, s, env), s.store.processed))
    ensures Inv(setup, base, s.(store := store))
    ensures KeysOf(Window(setup, s, env)) <= store.processed ==>
      Inv(setup, base, s.(store := store, cursor := Some(EndLedger(setup, s, env))))
  {
    var here, endLedger, records := SequenceOf(s.cursor), EndLedger(setup, s, env), Window(setup, s, env);
    WindowRecords(setup, here, endLedger);
    TodoIs(records, s.store.processed);
    hide RecordsOf, Between, Todo, KeysOf, OnceEach, Due, Fresh;
    forall r | r in store.applied ensures FromLog(setup, r, base) {
      if r !in s.store.applied {
        assert FromLog(setup, r, here);
      }
    }
    hide FromLog;
    forall e | Due(setup, e, base, endLedger) && KeysOf(records) <= store.processed
      ensures setup.parse(e).Some? && setup.parse(e).value.idempotencyKey in store.processed
    {
      DueSplits(setup, e, base, here, endLedger);
    }
  }

  lemma DueSplits(setup: Setup, e: ChainEvent, base: nat, here: nat, endLedger: nat)
    requires Due(setup, e, base, Max(here, endLedger))
    ensures setup.parse(e).Some? && (Due(setup, e, base, here) || Due(setup, e, here, endLedger))
  {
  }

  lemma DueLess(setup: Setup, base: nat, a: nat, b: nat)
    requires a <= b
    ensures forall e :: Due(setup, e, base, a) ==> Due(setup, e, base, b)
  {
  }

  lemma FlushKeeps(setup: Setup, base: nat, s: Indexer, flushEvery: nat, force: bool, saveFails: bool)
    requires Inv(setup, base, s)
    ensures Inv(setup, base, Flushed(s, flushEvery, force, saveFails))
  {
    hide OnceEach, FromLog, Due;
  }

  lemma IngestKeeps(setup: Setup, base: nat, s: Indexer, env: Surroundings)
    requires Inv(setup, base, s) && !Loses(setup, s, Tick(env))
    ensures var (store, next) := Ingest(setup, s, env);
      Inv(setup, base, s.(store := store)) && (next.Some? ==> Inv(setup, base, s.(store := store, cursor := next)))
  {
    var here := SequenceOf(s.cursor);
    assert OnceEach(s.store);
    hide Window, EndLedger, AfterWrite, Answer, Inv, OnceEach, KeysOf, Grown, BatchLoses, Todo;
    SamePosition(setup, base, s, Some(here));
    if env.fetched && here < env.latestLedger {
      var records := Window(setup, s, env);
      var store := AfterWrite(s.store, records, env.faults, env.fate);
      BatchKeeps(s.store, records, env.faults, env.fate);
      GrownWindow(setup, base, s, env, store);
      SamePosition(setup, base, s.(store := store), Some(here));
    }
  }

  lemma SamePosition(setup: Setup, base: nat, s: Indexer, cursor: Option<nat>)
    requires Inv(setup, base, s) && SequenceOf(cursor) == SequenceOf(s.cursor)
    ensures Inv(setup, base, s.(cursor := cursor))
  {
    hide OnceEach, FromLog, Due;
  }

  lemma StepKeeps(setup: Setup, base: nat, s: Indexer, a: Action)
    requires Inv(setup, base, s) && !Loses(setup, s, a)
    ensures Inv(setup, base, Step(setup, s, a))
  {
    match a
    case Tick(env) =>
      IngestKeeps(setup, base, s, env);
      hide Ingest, OnceEach, FromLog, Due;
      var (store, next) := Ingest(setup, s, env);
      var s' := s.(store := store);
      if next.Some? && next != s.cursor {
        FlushKeeps(setup, base, s'.(cursor := next, batches := s.batches + 1), setup.flushEvery, false, env.saveFails);
      }
    case Stop(saveFails) => FlushKeeps(setup, base, s, setup.flushEvery, true, saveFails);
    case Crash =>
  }

  /** A tick that loses an event leaves it behind the cursor without a mark, or marked without effect. */
  lemma LosingBreaks(setup: Setup, base: nat, s: Indexer, a: Action)
    requires Inv(setup, base, s) && Loses(setup, s, a)
    ensures !Inv(setup, base, Step(setup, s, a))
  {
    var records := Window(setup, s, a.env);
    BatchLost(s.store, records, a.env.faults, a.env.fate);
    hide OnceEach, AfterWrite, Answer, BatchLoses, Window, EndLedger;
    if OnceEach(AfterWrite(s.store, records, a.env.faults, a.env.fate)) {
      var r :| r in records && r.idempotencyKey !in s.store.processed;
      var e := EventOf(setup, s, a.env, r);
      assert Due(setup, e, base, EndLedger(setup, s, a.env));
    }
  }

  lemma EventOf(setup: Setup, s: Indexer, env: Surroundings, r: BatchRecord) returns (e: ChainEvent)
    requires r in Window(setup, s, env)
    ensures e in setup.log && setup.parse(e) == Some(r) && SequenceOf(s.cursor) < e.ledger <= EndLedger(setup, s, env)
  {
    var events := Between(setup.log, SequenceOf(s.cursor) + 1, EndLedger(setup, s, env));
    BetweenMembers(setup.log, SequenceOf(s.cursor) + 1, EndLedger(setup, s, env));
    RecordsMembers(events, setup.parse);
    hide Between, RecordsOf;
    e :| e in events && setup.parse(e) == Some(r);
  }

  /** No tick of the run loses an event. */
  ghost predicate LosesNothing(setup: Setup, initial: Option<nat>, actions: seq<Action>) {
    forall n :: 0 <= n < |actions| ==> !Loses(setup, Run(setup, initial, actions[..n]), actions[n])
  }

  lemma LosesNothingBefore(setup: Setup, initial: Option<nat>, actions: seq<Action>, n: nat)
    requires n <= |actions| && LosesNothing(setup, initial, actions)
    ensures LosesNothing(setup, initial, actions[..n])
  {
    forall k | 0 <= k < n ensures !Loses(setup, Run(setup, initial, actions[..n][..k]), actions[..n][k]) {
      assert actions[..n][..k] == actions[..k];
    }
  }

  lemma {:induction false} InvariantOfRuns(setup: Setup, initial: Option<nat>, actions: seq<Action>)
    requires LosesNothing(setup, initial, actions)
    ensures Inv(setup, SequenceOf(initial), Run(setup, initial, actions))
    decreases |actions|
  {
    hide Step, Loses;
    if actions == [] {
    } else {
      var n := |actions| - 1;
      LosesNothingBefore(setup, initial, actions, n);
      InvariantOfRuns(setup, initial, actions[..n]);
      StepKeeps(setup, SequenceOf(initial), Run(setup, initial, actions[..n]), actions[n]);
    }
  }

  /** The invariant holds all along a run exactly when no tick of it loses an event. */
  lemma SoundIff(setup: Setup, initial: Option<nat>, actions: seq<Action>)
    ensures LosesNothing(setup, initial, actions) <==>
      forall n :: 0 <= n <= |actions| ==> Inv(setup, SequenceOf(initial), Run(setup, initial, actions[..n]))
  {
    hide Step, Loses, Inv;
    if LosesNothing(setup, initial, actions) {
      forall n | 0 <= n <= |actions| ensures Inv(setup, SequenceOf(initial), Run(setup, initial, actions[..n])) {
        LosesNothingBefore(setup, initial, actions, n);
        InvariantOfRuns(setup, initial, actions[..n]);
      }
    }
    if !LosesNothing(setup, initial, actions) {
      var n :| 0 <= n < |actions| && Loses(setup, Run(setup, initial, actions[..n]), actions[n]);
      if Inv(setup, SequenceOf(initial), Run(setup, initial, actions[..n])) {
        LosingBreaks(setup, SequenceOf(initial), Run(setup, initial, actions[..n]), actions[n]);
        assert actions[..n + 1][..n] == actions[..n];
        assert !Inv(setup, SequenceOf(initial), Run(setup, initial, actions[..n + 1]));
      }
    }
  }

  /** Over every run of ticks, failures, crashes and restarts in which no tick loses an event, every parseable
      event above the starting cursor and up to the cursor in memory took effect exactly once, nothing else above
      it took effect more than once, and the saved cursor is never ahead. */
  lemma ExactlyOnce(setup: Setup, initial: Option<nat>, actions: seq<Action>)
    requires DistinctKeys(setup) && LosesNothing(setup, initial, actions)
    ensures var s := Run(setup, initial, actions);
      && SequenceOf(s.saved) <= SequenceOf(s.cursor)
      && (forall e :: Due(setup, e, SequenceOf(initial), SequenceOf(s.cursor)) ==>
           AppliedOnce(s.store, setup.parse(e).value))
      && (forall i, j :: 0 <= i < j < |s.store.applied| ==>
           s.store.applied[i].idempotencyKey != s.store.applied[j].idempotencyKey)
      && (forall r :: r in s.store.applied ==> FromLog(setup, r, SequenceOf(initial)))
  {
    InvariantOfRuns(setup, initial, actions);
    var s, base := Run(setup, initial, actions), SequenceOf(initial);
    hide Run;
    forall e | Due(setup, e, base, SequenceOf(s.cursor)) ensures AppliedOnce(s.store, setup.parse(e).value) {
      var key := setup.parse(e).value.idempotencyKey;
      assert key in KeysOf(s.store.applied);
      var r :| r in s.store.applied && r.idempotencyKey == key;
      var i :| 0 <= i < |s.store.applied| && s.store.applied[i] == r;
      assert FromLog(setup, r, base);
      var e' :| e' in setup.log && setup.parse(e') == Some(r);
      assert SameKey(setup, e, e');
      assert s.store.applied[i] == setup.parse(e).value;
    }
  }

  /** The record took effect at exactly one place. */
  ghost predicate AppliedOnce(store: Store, r: BatchRecord) {
    exists i :: 0 <= i < |store.applied| && store.applied[i] == r
      && forall j :: 0 <= j < |store.applied| && j != i ==> store.applied[j] != r
  }

  // ---------------------------------------------------------------- liveness

  /** Whatever fails, the cursor in memory only moves forward, and at most by one window. */
  lemma CursorMovesForward(setup: Setup, s: Indexer, a: Action)
    requires !a.Crash?
    ensures SequenceOf(s.cursor) <= SequenceOf(Step(setup, s, a).cursor) <= SequenceOf(s.cursor) + setup.windowSize
  {
    hide RecordsOf, Between, AfterWrite, Answer;
  }

  ghost function RunFrom(setup: Setup, s: Indexer, actions: seq<Action>): Indexer {
    if actions == [] then s else Step(setup, RunFrom(setup, s, actions[..|actions| - 1]), actions[|actions| - 1])
  }

  /** A tick in which nothing fails and the node has come at least this far. */
  ghost predicate Clean(a: Action, latestLedger: nat) {
    && a.Tick? && a.env.fetched && a.env.fate == Commits && (forall k :: a.env.faults(k) == NoFault)
    && a.env.latestLedger >= latestLedger
  }

  /** Whatever went wrong before, clean ticks catch up: each takes in a whole window or all there is. */
  lemma {:induction false} CleanTicksCatchUp(setup: Setup, s: Indexer, actions: seq<Action>, latestLedger: nat)
    requires forall a :: a in actions ==> Clean(a, latestLedger)
    ensures SequenceOf(RunFrom(setup, s, actions).cursor) >=
      Min(latestLedger, SequenceOf(s.cursor) + |actions| * setup.windowSize)
    decreases |actions|
  {
    hide Step, Clean;
    if actions != [] {
      var before, a := actions[..|actions| - 1], actions[|actions| - 1];
      CleanTicksCatchUp(setup, s, before, latestLedger);
      var now := RunFrom(setup, s, before);
      assert RunFrom(setup, s, actions) == Step(setup, now, a);
      hide RunFrom;
      assert a in actions;
      CleanTick(setup, now, a, latestLedger);
      OneMore(|before|, setup.windowSize);
    }
  }

  lemma OneMore(n: nat, w: nat)
    ensures (n + 1) * w == n * w + w
  {
  }

  lemma CleanTick(setup: Setup, s: Indexer, a: Action, latestLedger: nat)
    requires Clean(a, latestLedger)
    ensures SequenceOf(Step(setup, s, a).cursor) >= Min(latestLedger, SequenceOf(s.cursor) + setup.windowSize)
  {
    TickAdvances(setup, s, a.env);
    hide Step;
  }

  lemma CleanAnswer(s: Store, records: seq<BatchRecord>, faults: string -> Fault)
    requires forall k :: faults(k) == NoFault
    ensures var answer := Answer(s, records, faults, Commits);
      answer.Ok? && answer.value.errors == []
  {
    CleanBatch(s, records, faults, Commits);
    hide BatchLoses, PersistFrom, Todo;
  }

  /** A tick in which nothing fails takes in the next window, as far as the chain has come. */
  lemma TickAdvances(setup: Setup, s: Indexer, env: Surroundings)
    requires env.fetched && env.fate == Commits && (forall k :: env.faults(k) == NoFault)
    ensures env.latestLedger > SequenceOf(s.cursor) ==>
      SequenceOf(Step(setup, s, Tick(env)).cursor) == Min(SequenceOf(s.cursor) + setup.windowSize, env.latestLedger)
    ensures env.latestLedger <= SequenceOf(s.cursor) ==>
      SequenceOf(Step(setup, s, Tick(env)).cursor) == SequenceOf(s.cursor)
  {
    CleanAnswer(s.store, Window(setup, s, env), env.faults);
    hide Window, AfterWrite, Answer;
  }

  lemma RunPush(setup: Setup, initial: Option<nat>, actions: seq<Action>, a: Action)
    ensures Run(setup, initial, actions + [a]) == Step(setup, Run(setup, initial, actions), a)
  {
    assert (actions + [a])[..|actions|] == actions;
    hide Step;
  }

  lemma RunFromPush(setup: Setup, s: Indexer, actions: seq<Action>, a: Action)
    ensures RunFrom(setup, s, actions + [a]) == Step(setup, RunFrom(setup, s, actions), a)
  {
    assert (actions + [a])[..|actions|] == actions;
    hide Step;
  }

  lemma NoActions(setup: Setup, s: Indexer, before: seq<Action>)
    ensures before + [] == before && RunFrom(setup, s, []) == s
  {
  }

  lemma {:induction false} RunJoins(setup: Setup, initial: Option<nat>, before: seq<Action>, after: seq<Action>)
    ensures Run(setup, initial, before + after) == RunFrom(setup, Run(setup, initial, before), after)
    decreases |after|
  {
    hide Step, Run, RunFrom;
    if after == [] {
      NoActions(setup, Run(setup, initial, before), before);
    } else {
      var a, rest := after[|after| - 1], after[..|after| - 1];
      RunJoins(setup, initial, before, rest);
      RunPush(setup, initial, before + rest, a);
      RunFromPush(setup, Run(setup, initial, before), rest, a);
      assert after == rest + [a] && before + after == before + rest + [a];
    }
  }

  // ------------------------------------------------------------- checkpoints

  /** A stop saves where the loop has come, so that a restart goes on from there. */
  lemma StopSaves(setup: Setup, initial: Option<nat>, actions: seq<Action>)
    ensures var s, stopped := Run(setup, initial, actions), Run(setup, initial, actions + [Stop(false)]);
      && stopped.cursor == s.cursor && stopped.store == s.store
      && (s.cursor.Some? ==> stopped.saved == s.cursor && stopped.batches == 0)
      && (s.cursor.Some? ==> Run(setup, initial, actions + [Stop(false)] + [Crash]).cursor == s.cursor)
  {
    RunPush(setup, initial, actions, Stop(false));
    RunPush(setup, initial, actions + [Stop(false)], Crash);
    hide Run;
  }

  ghost predicate SavesSucceed(actions: seq<Action>) {
    forall a :: a in actions ==> (a.Tick? ==> !a.env.saveFails) && (a.Stop? ==> !a.saveFails)
  }

  /** While saves succeed the saved cursor is fewer than flushEvery batches behind, each of at most one window: a crash
      repeats no more than that. */
  lemma {:induction false} CheckpointLag(setup: Setup, initial: Option<nat>, actions: seq<Action>)
    requires setup.flushEvery > 0 && SavesSucceed(actions)
    ensures Lags(setup, Run(setup, initial, actions))
    decreases |actions|
  {
    if actions != [] {
      var before, a := actions[..|actions| - 1], actions[|actions| - 1];
      assert a in actions && forall x :: x in before ==> x in actions;
      assert SavesSucceed(before) && SavesSucceed([a]);
      CheckpointLag(setup, initial, before);
      var s := Run(setup, initial, before);
      assert Run(setup, initial, actions) == Step(setup, s, a);
      hide Run, Step;
      LagStep(setup, s, a);
    }
  }

  ghost predicate Lags(setup: Setup, s: Indexer) {
    && s.batches < setup.flushEvery
    && SequenceOf(s.saved) <= SequenceOf(s.cursor) <= SequenceOf(s.saved) + s.batches * setup.windowSize
  }

  lemma LagStep(setup: Setup, s: Indexer, a: Action)
    requires setup.flushEvery > 0 && SavesSucceed([a]) && Lags(setup, s)
    ensures Lags(setup, Step(setup, s, a))
  {
    assert a in [a];
    if a.Tick? {
      CursorMovesForward(setup, s, a);
      OneMore(s.batches, setup.windowSize);
      hide Ingest;
      LagAfter(setup, s, a.env);
    }
  }

  lemma LagAfter(setup: Setup, s: Indexer, env: Surroundings)
    requires setup.flushEvery > 0 && !env.saveFails
    ensures var s' := Step(setup, s, Tick(env));
      || (s'.cursor == s.cursor && s'.saved == s.saved && s'.batches == s.batches)
      || (s'.saved == s.saved && s'.batches == s.batches + 1 < setup.flushEvery)
      || (s'.saved == s'.cursor && s'.batches == 0)
  {
    hide Ingest;
  }

  /** A tick saves the cursor only when flushEvery batches have come together. */
  lemma SavesEvery(setup: Setup, s: Indexer, env: Surroundings)
    ensures s.batches + 1 < setup.flushEvery ==> Step(setup, s, Tick(env)).saved == s.saved
    ensures env.saveFails ==> Step(setup, s, Tick(env)).saved == s.saved
  {
    hide Ingest;
  }

  lemma CleanLosesNothing(setup: Setup, s: Indexer, a: Action, latestLedger: nat)
    requires Clean(a, latestLedger)
    ensures !Loses(setup, s, a)
  {
    CleanBatch(s.store, Window(setup, s, a.env), a.env.faults, a.env.fate);
    hide BatchLoses;
  }

  lemma CleanAfter(setup: Setup, initial: Option<nat>, before: seq<Action>, clean: seq<Action>, latestLedger: nat)
    requires LosesNothing(setup, initial, before) && forall a :: a in clean ==> Clean(a, latestLedger)
    ensures LosesNothing(setup, initial, before + clean)
  {
    var all := before + clean;
    forall n | 0 <= n < |all| ensures !Loses(setup, Run(setup, initial, all[..n]), all[n]) {
      if n < |before| {
        assert all[..n] == before[..n];
      } else {
        assert all[n] == clean[n - |before|] && all[n] in clean;
        CleanLosesNothing(setup, Run(setup, initial, all[..n]), all[n], latestLedger);
      }
    }
  }

  /** After any run that lost nothing, with any failures and crashes, enough clean ticks apply every parseable
      event above the starting cursor up to the node's latest ledger, each exactly once. */
  lemma EventuallyExactlyOnce(setup: Setup, initial: Option<nat>, before: seq<Action>, clean: seq<Action>,
                              latestLedger: nat, e: ChainEvent)
    requires DistinctKeys(setup) && LosesNothing(setup, initial, before) && forall a :: a in clean ==>
      Clean(a, latestLedger)
    requires SequenceOf(Run(setup, initial, before).cursor) + |clean| * setup.windowSize >= latestLedger
    requires Due(setup, e, SequenceOf(initial), latestLedger)
    ensures AppliedOnce(Run(setup, initial, before + clean).store, setup.parse(e).value)
  {
    hide Run, RunFrom, DistinctKeys, AppliedOnce, Clean, FromLog, LosesNothing;
    RunJoins(setup, initial, before, clean);
    CleanTicksCatchUp(setup, Run(setup, initial, before), clean, latestLedger);
    CleanAfter(setup, initial, before, clean, latestLedger);
    ExactlyOnce(setup, initial, before + clean);
    assert Due(setup, e, SequenceOf(initial), SequenceOf(Run(setup, initial, before + clean).cursor));
  }

  // --------------------------------------------------------------- lost events

  /** The saved cursor has passed the event, which is not marked and took no effect. */
  ghost predicate Passed(setup: Setup, s: Indexer, e: ChainEvent) {
    && e in setup.log && setup.parse(e).Some? && e.ledger <= SequenceOf(s.saved) <= SequenceOf(s.cursor)
    && Untouched(s.store, setup.parse(e).value.idempotencyKey)
  }

  ghost predicate Untouched(store: Store, key: string) {
    key !in store.processed && key !in KeysOf(store.applied)
  }

  lemma StaysUntouched(store: Store, store': Store, todo: seq<BatchRecord>, key: string)
    requires Untouched(store, key) && Grown(store, store', todo) && key !in KeysOf(todo)
    ensures Untouched(store', key)
  {
    forall r | r in store'.applied ensures r.idempotencyKey != key {
      InKeys(store.applied, r);
      InKeys(todo, r);
    }
  }

  lemma NotMarked(setup: Setup, s: Indexer, env: Surroundings, e: ChainEvent)
    requires DistinctKeys(setup) && Passed(setup, s, e)
    ensures var store := AfterWrite(s.store, Window(setup, s, env), env.faults, env.fate);
      Untouched(store, setup.parse(e).value.idempotencyKey)
  {
    var records := Window(setup, s, env);
    NotInWindow(setup, s, env, e);
    TodoIs(records, s.store.processed);
    PersistGrows(s.store, Todo(records, s.store.processed), env.faults);
    hide DistinctKeys, Window, PersistFrom, KeysOf, Todo, Fresh, Grown, Untouched;
    var p := PersistFrom(s.store, Todo(records, s.store.processed), env.faults);
    StaysUntouched(s.store, p.tx.store, Todo(records, s.store.processed), setup.parse(e).value.idempotencyKey);
  }

  lemma PassedStep(setup: Setup, s: Indexer, a: Action, e: ChainEvent)
    requires DistinctKeys(setup) && Passed(setup, s, e)
    ensures Passed(setup, Step(setup, s, a), e)
  {
    hide DistinctKeys, Window, AfterWrite, Answer, Untouched;
    if a.Tick? {
      NotMarked(setup, s, a.env, e);
    }
  }

  lemma NotInWindow(setup: Setup, s: Indexer, env: Surroundings, e: ChainEvent)
    requires DistinctKeys(setup) && e in setup.log && setup.parse(e).Some? && e.ledger <= SequenceOf(s.cursor)
    ensures setup.parse(e).value.idempotencyKey !in KeysOf(Window(setup, s, env))
  {
    var records, key := Window(setup, s, env), setup.parse(e).value.idempotencyKey;
    hide Window, EndLedger;
    forall r | r in records ensures r.idempotencyKey != key {
      var e' := EventOf(setup, s, env, r);
      assert !SameKey(setup, e, e');
    }
  }

  /** An event that the saved cursor has passed without a mark never takes effect, whatever happens. */
  lemma {:induction false} LostForGood(setup: Setup, s: Indexer, actions: seq<Action>, e: ChainEvent)
    requires DistinctKeys(setup) && Passed(setup, s, e)
    ensures Passed(setup, RunFrom(setup, s, actions), e)
    decreases |actions|
  {
    hide Step, Passed, DistinctKeys;
    if actions != [] {
      LostForGood(setup, s, actions[..|actions| - 1], e);
      PassedStep(setup, RunFrom(setup, s, actions[..|actions| - 1]), actions[|actions| - 1], e);
    }
  }

  /** A log of one trade. */
  function OneTrade(event: ChainEvent, record: BatchRecord): Setup {
    Setup([event], _ => Some(record), event.ledger, 1)
  }

  const FIRST_UPSERT := 2

  /** The tick in which the position upsert of that trade fails, for want of a row of its market. */
  function NoMarketRow(event: ChainEvent): Action {
    Tick(Surroundings(true, event.ledger, _ => Fails(FIRST_UPSERT), Commits, false))
  }

  lemma OneRecord(event: ChainEvent, record: BatchRecord)
    requires event.ledger > 0
    ensures RecordsOf(Between([event], 1, event.ledger), OneTrade(event, record).parse) == [record]
  {
    OneEvent(event);
    hide Between, KindOf, OfKind;
    OneKind(event, record, MarketKind);
    OneKind(event, record, TradeKind);
    OneKind(event, record, ResolutionKind);
    OneKind(event, record, DepositKind);
  }

  lemma OneEvent(event: ChainEvent)
    requires event.ledger > 0
    ensures Between([event], 1, event.ledger) == [event]
  {
    assert [event][..0] == [];
  }

  lemma OneKind(event: ChainEvent, record: BatchRecord, kind: Kind)
    ensures OfKind([event], OneTrade(event, record).parse, kind) ==
      if KindOf(record.payload) == kind then [record] else []
  {
    assert [event][1..] == [];
  }

  lemma OneTodo(record: BatchRecord)
    ensures Todo([record], {}) == [record]
  {
    var one := [record];
    assert one[..0] == [] && Unprocessed(one, {}) == one;
    assert RecordsByKey(one, one) == RecordsByKey(one, []) + [RecordByKey(one, record)];
  }

  lemma OneBatch(record: BatchRecord, faults: string -> Fault)
    requires UpsertsOf(record) != [] && faults(record.idempotencyKey) == Fails(FIRST_UPSERT)
    ensures AfterWrite(EMPTY, [record], faults, Commits) == EMPTY
    ensures Answer(EMPTY, [record], faults, Commits).Ok? && Answer(EMPTY, [record], faults, Commits).value.errors == []
  {
    OneTodo(record);
    OneCaught(record, faults);
    hide Todo, PersistFrom, LastIsCaught;
    assert Fresh([record], {});
    SilentIff(EMPTY, [record], faults);
  }

  lemma OneCaught(record: BatchRecord, faults: string -> Fault)
    requires UpsertsOf(record) != [] && faults(record.idempotencyKey) == Fails(FIRST_UPSERT)
    ensures LastIsCaught([record], faults)
  {
    assert [record][..0] == [];
    hide UpsertsOf;
  }

  lemma OneTick(setup: Setup, env: Surroundings)
    requires env.fetched && env.fate == Commits && setup.windowSize == env.latestLedger > 0 && setup.flushEvery == 1
    requires !env.saveFails
    requires var s := Indexer(None, 0, None, EMPTY);
      var answer := Answer(EMPTY, Window(setup, s, env), env.faults, Commits);
      AfterWrite(EMPTY, Window(setup, s, env), env.faults, Commits) == EMPTY && answer.Ok? && answer.value.errors == []
    ensures Run(setup, None, [Tick(env)]) == Indexer(Some(env.latestLedger), 0, Some(env.latestLedger), EMPTY)
  {
    assert [Tick(env)][..0] == [] && Run(setup, None, []) == Indexer(None, 0, None, EMPTY);
    hide Window, AfterWrite, Answer;
  }

  lemma OnePassed(event: ChainEvent, record: BatchRecord)
    ensures DistinctKeys(OneTrade(event, record))
    ensures Passed(OneTrade(event, record), Indexer(Some(event.ledger), 0, Some(event.ledger), EMPTY), event)
  {
  }

  lemma LostTick(event: ChainEvent, record: BatchRecord)
    requires event.ledger > 0 && UpsertsOf(record) != []
    ensures Run(OneTrade(event, record), None, [NoMarketRow(event)]) ==
      Indexer(Some(event.ledger), 0, Some(event.ledger), EMPTY)
  {
    var setup, env := OneTrade(event, record), NoMarketRow(event).env;
    OneRecord(event, record);
    assert Window(setup, Indexer(None, 0, None, EMPTY), env) == [record];
    hide RecordsOf, Between, AfterWrite, Answer, Run, UpsertsOf, Window;
    OneBatch(record, env.faults);
    OneTick(setup, env);
  }

  /** The tick commits nothing, reports no error and moves the cursor, which is saved: the trade is lost, whatever
      happens later. */
  lemma TradeIsLost(event: ChainEvent, record: BatchRecord, later: seq<Action>)
    requires event.ledger > 0 && UpsertsOf(record) != []
    ensures var setup := OneTrade(event, record);
      var s := Run(setup, None, [NoMarketRow(event)]);
      && s == Indexer(Some(event.ledger), 0, Some(event.ledger), EMPTY)
      && Passed(setup, RunFrom(setup, s, later), event)
  {
    hide Run, RunFrom, Passed, DistinctKeys, UpsertsOf, NoMarketRow;
    LostTick(event, record);
    OnePassed(event, record);
    LostForGood(OneTrade(event, record), Indexer(Some(event.ledger), 0, Some(event.ledger), EMPTY), later, event);
  }

  // ---------------------------------------------------------------- the keys

  /** The events of the log are at different positions or of different contracts. */
  ghost predicate DistinctPositions(log: seq<ChainEvent>) {
    forall e, e' ::
      e in log && e' in log && e.contractId == e'.contractId && ParseEventId(e.id) == ParseEventId(e'.id) ==> e == e'
  }

  /** Every parsed record carries the key of its event. */
  ghost predicate Stamped(setup: Setup, hash: string -> string) {
    forall e :: e in setup.log && setup.parse(e).Some? ==>
      GenerateIdempotencyKey(hash, e.contractId, e.id) == Some(setup.parse(e).value.idempotencyKey)
  }

  /** Keys stamped under a collision-free hash tell the events of a log apart. */
  lemma StampedKeysDistinct(setup: Setup, hash: string -> string)
    requires forall x, y :: hash(x) == hash(y) ==> x == y
    requires DistinctPositions(setup.log) && Stamped(setup, hash)
    ensures DistinctKeys(setup)
  {
    hide ParseEventId, Canonical;
    forall e, e' | SameKey(setup, e, e') ensures e == e' {
      KeyInjective(hash, e.contractId, e.id, e'.contractId, e'.id);
    }
  }

  // ---------------------------------------------------------------- the loop

  class CursorStorage {
    var saved: Option<nat>

    constructor (saved: Option<nat>)
      ensures this.saved == saved
    {
      this.saved := saved;
    }

    method SaveCursor(cursor: nat, fails: bool) returns (ok: bool)
      modifies this
      ensures ok == !fails
      ensures saved == if fails then old(saved) else Some(cursor)
    {
      if !fails {
        saved := Some(cursor);
      }
      ok := !fails;
    }
  }

  /** The pages of one fetch: the node's latest ledger at each request and the requests that fail. */
  datatype Node = Node(latest: nat -> nat, fails: nat -> bool, pageLimit: nat)

  /** What the tick saw is what the node answered to this many requests: all but the last were answered, and the
      last failed, or its latest ledger is the one. */
  ghost predicate Answered(node: Node, requests: nat, env: Surroundings) {
    && requests > 0 && (forall i :: 0 <= i < requests - 1 ==> !node.fails(i))
    && (env.fetched <==> !node.fails(requests - 1))
    && (env.fetched ==> env.latestLedger == node.latest(requests - 1))
  }

  class PollingIngestionLoop {
    const setup: Setup
    const storage: CursorStorage
    const writer: PrismaBatchWriter
    var cursor: Option<nat>
    var successfulBatchesSinceLastCheckpoint: nat
    var isTickInProgress: bool

    ghost function State(): Indexer
      reads this, storage, writer
    {
      Indexer(cursor, successfulBatchesSinceLastCheckpoint, storage.saved, writer.store)
    }

    /** A start of the process: the loop goes on from the saved cursor. */
    constructor (setup: Setup, storage: CursorStorage, writer: PrismaBatchWriter)
      ensures this.setup == setup && this.storage == storage && this.writer == writer && !isTickInProgress
      ensures State() == Indexer(storage.saved, 0, storage.saved, writer.store)
    {
      this.setup, this.storage, this.writer := setup, storage, writer;
      cursor, successfulBatchesSinceLastCheckpoint, isTickInProgress := storage.saved, 0, false;
    }

    method FlushCheckpoint(force: bool, saveFails: bool) returns (ok: bool)
      modifies this`successfulBatchesSinceLastCheckpoint, storage
      ensures State() == Flushed(old(State()), setup.flushEvery, force, saveFails)
      ensures !ok <==>
        saveFails && old(cursor).Some? && (force || old(successfulBatchesSinceLastCheckpoint) >= setup.flushEvery)
    {
      ok := true;
      if cursor.Some? && (force || successfulBatchesSinceLastCheckpoint >= setup.flushEvery) {
        ok := storage.SaveCursor(cursor.value, saveFails);
        if ok {
          successfulBatchesSinceLastCheckpoint := 0;
        }
      }
    }

    /** Fetch and write the window after the cursor. Nothing is returned when something threw. */
    method IngestFromCursor(node: Node, faults: string -> Fault, fate: Fate)
      returns (next: Option<nat>, ghost env: Surroundings, ghost requests: nat)
      requires LedgerOrder(setup.log) && node.pageLimit > 0 && Advancing(node.latest)
      modifies writer
      ensures env.faults == faults && env.fate == fate && Answered(node, requests, env)
      ensures (writer.store, next) == Ingest(setup, old(State()), env)
    {
      hide LedgerOrder, Between, RecordsOf, AfterWrite, Answer, Advancing;
      var safeCurrentSequence := SequenceOf(cursor);
      var startLedger := safeCurrentSequence + 1;
      var provisionalEnd := startLedger + setup.windowSize - 1;
      var fetched, requestCount :=
        FetchByLedgerWindow(setup.log, startLedger, provisionalEnd, node.pageLimit, node.latest, node.fails);
      requests := requestCount;
      env := Surroundings(fetched.Ok?, node.latest(requests - 1), faults, fate, false);
      next := None;
      if fetched.Ok? {
        var events, latestLedger := fetched.value.events, fetched.value.latestLedger;
        if startLedger > latestLedger {
          next := Some(safeCurrentSequence);
        } else {
          var endLedger := Min(provisionalEnd, latestLedger);
          var records := RecordsOf(events, setup.parse);
          var written := writer.Write(records, faults, fate);
          if written.Ok? {
            next := if written.value.errors != [] then Some(safeCurrentSequence) else Some(endLedger);
          }
        }
      }
    }

    /** One tick, unless one is in progress. It never throws. */
    method TickOnce(node: Node, faults: string -> Fault, fate: Fate, saveFails: bool)
      returns (ghost env: Surroundings, ghost requests: nat)
      requires LedgerOrder(setup.log) && node.pageLimit > 0 && Advancing(node.latest)
      modifies this, storage, writer
      ensures env.faults == faults && env.fate == fate && env.saveFails == saveFails
      ensures !old(isTickInProgress) ==> Answered(node, requests, env)
      ensures State() == if old(isTickInProgress) then old(State()) else Step(setup, old(State()), Tick(env))
      ensures isTickInProgress == old(isTickInProgress)
    {
      hide LedgerOrder, Advancing, Ingest;
      env, requests := Surroundings(false, 0, faults, fate, saveFails), 0;
      if !isTickInProgress {
        isTickInProgress := true;
        ghost var before := State();
        var next;
        next, env, requests := IngestFromCursor(node, faults, fate);
        SameIngest(setup, before, env, saveFails);
        env := env.(saveFails := saveFails);
        if next.Some? && next != cursor {
          cursor := next;
          successfulBatchesSinceLastCheckpoint := successfulBatchesSinceLastCheckpoint + 1;
          var flushed := FlushCheckpoint(false, saveFails);
        }
        isTickInProgress := false;
      }
    }

    /** The end of the process: the last cursor is saved, whatever the count of batches. */
    method StopLoop(saveFails: bool)
      modifies this`successfulBatchesSinceLastCheckpoint, storage
      ensures State() == Step(setup, old(State()), Stop(saveFails))
    {
      var flushed := FlushCheckpoint(true, saveFails);
    }
  }

  /** Ingesting does not depend on whether the save will fail. */
  lemma SameIngest(setup: Setup, s: Indexer, env: Surroundings, saveFails: bool)
    ensures Ingest(setup, s, env.(saveFails := saveFails)) == Ingest(setup, s, env)
  {
  }
}
