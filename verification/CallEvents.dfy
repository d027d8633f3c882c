/** A call of placeOrder that is not interleaved with others is a sequence of events of the service:
    the method on book objects and the state machine describe one critical section. */
module CallEvents {
  import opened Domain
  import opened PriorityList
  import opened GreedyMatch
  import opened Ledger
  import opened Transactions
  import opened Hydration
  import opened Coherence
  import opened Conservation
  import opened MutexChain
  import opened Service
  import opened MatchingService

  /** What the call starts from: the cached book, or the one the database describes. */
  ghost function StartBook(s: State, key: Key): Book {
    if BookOf(s, key).Some? then BookOf(s, key).value else Rebuild(s.db.orders, key)
  }

  function Opening(cached: bool, key: Key, i: nat): seq<Event> {
    if cached then [Begin(key, i)] else [Begin(key, i), ReadRows(key, i), Hydrate(key, i)]
  }

  /** What follows the match, if the transaction commits or not and is answered or not. */
  function Ending(commits: bool, answered: bool, auditFails: bool, key: Key, i: nat): seq<Event> {
    if !commits then [Abort(key, i), Reject(key, i)]
    else if !answered then [Commit(key, i), LoseReply(key, i), Reject(key, i)]
    else [Commit(key, i), Resolve(key, i), AuditEnds(key, i, auditFails)]
  }

  ghost function EventsOf(s: State, key: Key, i: nat, taker: MatchingOrder, timestamp: int, fate: TransactionFate,
                          auditFails: bool): seq<Event> {
    var b := StartBook(s, key);
    var left := LeftOf(b, taker);
    var verdict := Verdict(s.db.orders, taker, taker.quantity - left, TradesOf(b, taker, timestamp));
    var commits := fate != Aborts && verdict.Ok?;
    Opening(key in s.books, key, i) + [Place(key, i, taker.id, timestamp)]
      + (if HasOpposite(b, taker) then [] else Ending(commits, fate == Succeeds, auditFails, key, i))
  }

  /** The books and queues of the other keys are untouched. */
  ghost predicate Elsewhere(s: State, s': State, key: Key) {
    forall k: Key :: k != key ==> LineOf(s', k) == LineOf(s, k) && BookOf(s', k) == BookOf(s, k)
  }

  /** The call runs at this stage, with this database and this cached book. */
  ghost predicate Inside(s: State, s': State, key: Key, i: nat, db: Database, book: Option<Book>, stage: Stage) {
    && Runs(s', key, i) && StageOf(s', key, i) == stage
    && i < |LineOf(s, key).phases| && LineOf(s', key).phases == LineOf(s, key).phases[i := Running]
    && s'.db == db && BookOf(s', key) == book
    && Elsewhere(s, s', key)
  }

  /** The call has ended, with this database and this cached book. */
  ghost predicate Over(s: State, s': State, key: Key, i: nat, db: Database, book: Option<Book>) {
    && i < |LineOf(s, key).phases| && LineOf(s', key).phases == LineOf(s, key).phases[i := Finished]
    && s'.db == db && BookOf(s', key) == book
    && Elsewhere(s, s', key)
  }

  lemma RunPush(events: seq<Event>, e: Event)
    requires Run(events).Some? && Can(Run(events).value, e)
    ensures Run(events + [e]) == Some(Next(Run(events).value, e))
  {
    assert (events + [e])[..|events|] == events;
    hide Can, Next;
  }

  function KeyIn(e: Event): Option<(Key, nat)> {
    match e
    case Arrive(_) => None
    case Begin(key, i) => Some((key, i))
    case ReadRows(key, i) => Some((key, i))
    case ReadFails(key, i) => Some((key, i))
    case Hydrate(key, i) => Some((key, i))
    case Place(key, i, _, _) => Some((key, i))
    case Commit(key, i) => Some((key, i))
    case Abort(key, i) => Some((key, i))
    case LoseReply(key, i) => Some((key, i))
    case Reject(key, i) => Some((key, i))
    case Resolve(key, i) => Some((key, i))
    case AuditEnds(key, i, _) => Some((key, i))
    case Restart(_) => None
  }

  /** Only the queue of this key is new; its book is as it was, replaced, added or dropped. */
  ghost predicate Touched(s: State, s': State, key: Key) {
    && (forall k: Key :: k != key ==> LineOf(s', k) == LineOf(s, k))
    && (BookReplaced(s, s', key) || BookAdded(s, s', key) || (s'.books == s.books - {key} && s'.store == s.store))
  }

  ghost predicate BookReplaced(s: State, s': State, key: Key) {
    && s'.books == s.books && |s'.store| == |s.store|
    && forall r :: 0 <= r < |s.store| && RefOf(s, key) != Some(r) ==> s'.store[r] == s.store[r]
  }

  ghost predicate BookAdded(s: State, s': State, key: Key) {
    && s'.books == s.books[key := |s.store|] && |s'.store| == |s.store| + 1
    && forall r :: 0 <= r < |s.store| ==> s'.store[r] == s.store[r]
  }

  lemma TouchedElsewhere(s: State, s': State, key: Key)
    requires RefsOk(s) && Touched(s, s', key)
    ensures Elsewhere(s, s', key)
  {
  }

  lemma EventTouches(s: State, e: Event, key: Key, i: nat)
    requires RefsOk(s) && Can(s, e) && KeyIn(e) == Some((key, i))
    requires Runs(s, key, i) && (StageOf(s, key, i).Ready? || StageOf(s, key, i).Persisted?) ==>
      RefOf(s, key) == Some(StageOf(s, key, i).book)
    ensures Touched(s, Next(s, e), key)
  {
    hide Rebuild, HasOpposite, Commits, Committed, TradesOf, LeftOf, Matched, Rested, Advanced, Ended;
  }

  lemma RunningBook(s: State, key: Key, i: nat)
    requires Inv(s)
    ensures Runs(s, key, i) && (StageOf(s, key, i).Ready? || StageOf(s, key, i).Persisted?) ==>
      RefOf(s, key) == Some(StageOf(s, key, i).book)
  {
    assert KeyOk(s, key);
    hide Inv, KeyOk, MatchingOk, Rebuild;
    if Runs(s, key, i) {
      RunningStage(s, key, i);
    }
  }

  /** An event of one book touches no other book. */
  lemma StaysElsewhere(s: State, e: Event, key: Key, i: nat)
    requires Inv(s) && Can(s, e) && KeyIn(e) == Some((key, i))
    ensures Elsewhere(s, Next(s, e), key)
  {
    RunningBook(s, key, i);
    assert RefsOk(s);
    hide Inv, RefsOk, Can, Next, Runs, StageOf, Touched, Elsewhere;
    EventTouches(s, e, key, i);
    TouchedElsewhere(s, Next(s, e), key);
  }

  /** One more event of this call: the other books stay as they were at its start. */
  lemma OneMoreEvent(s: State, events: seq<Event>, e: Event, key: Key, i: nat)
    requires Run(events).Some? && Elsewhere(s, Run(events).value, key)
    requires Can(Run(events).value, e) && KeyIn(e) == Some((key, i))
    ensures Run(events + [e]) == Some(Next(Run(events).value, e))
    ensures Inv(Run(events + [e]).value) && Elsewhere(s, Run(events + [e]).value, key)
  {
    hide Inv, Can, Next, Run, LineOf, BookOf;
    InvariantOfRuns(events);
    RunPush(events, e);
    InvariantOfRuns(events + [e]);
    StaysElsewhere(Run(events).value, e, key, i);
  }

  // ------------------------------------------------- one event after another

  /** The call runs at this stage and, apart from its queue, nothing has changed. */
  ghost predicate AtStage(s: State, s': State, key: Key, i: nat, stage: Stage) {
    && Inside(s, s', key, i, s.db, BookOf(s, key), stage)
    && s'.books == s.books && s'.store == s.store && s'.issued == s.issued
    && i < |LineOf(s, key).calls| && LineOf(s', key).calls[i].input == LineOf(s, key).calls[i].input
  }

  lemma Begun(s: State, events: seq<Event>, key: Key, i: nat)
    requires Run(events) == Some(s) && Can(s, Begin(key, i))
    ensures var after := Run(events + [Begin(key, i)]);
      after.Some? && AtStage(s, after.value, key, i, if key in s.books then Ready(s.books[key]) else Reading)
  {
    hide Inv, Run;
    assert Elsewhere(s, s, key);
    OneMoreEvent(s, events, Begin(key, i), key, i);
  }

  lemma RowsRead(s: State, events: seq<Event>, key: Key, i: nat)
    requires Run(events).Some? && AtStage(s, Run(events).value, key, i, Reading)
    ensures var after := Run(events + [ReadRows(key, i)]);
      after.Some? && AtStage(s, after.value, key, i, Loaded(s.db.orders))
  {
    hide Inv, Run;
    OneMoreEvent(s, events, ReadRows(key, i), key, i);
  }

  /** The call is ready for its match, with this book and the input it came with. */
  ghost predicate HasBook(s: State, s': State, key: Key, i: nat) {
    && key in s'.books && s'.issued == s.issued
    && Inside(s, s', key, i, s.db, Some(StartBook(s, key)), Ready(s'.books[key]))
    && i < |LineOf(s, key).calls| && LineOf(s', key).calls[i].input == LineOf(s, key).calls[i].input
  }

  lemma Hydrated(s: State, events: seq<Event>, key: Key, i: nat)
    requires Run(events).Some? && AtStage(s, Run(events).value, key, i, Loaded(s.db.orders)) && key !in s.books
    ensures var after := Run(events + [Hydrate(key, i)]);
      after.Some? && HasBook(s, after.value, key, i)
  {
    hide Inv, Run, Rebuild;
    OneMoreEvent(s, events, Hydrate(key, i), key, i);
  }

  lemma Cached(s: State, s': State, key: Key, i: nat)
    requires RefsOk(s) && key in s.books && AtStage(s, s', key, i, Ready(s.books[key]))
    ensures HasBook(s, s', key, i)
  {
    hide Rebuild;
  }

  lemma OpeningSteps(events: seq<Event>, key: Key, i: nat)
    ensures events + Opening(true, key, i) == events + [Begin(key, i)]
    ensures events + Opening(false, key, i) == events + [Begin(key, i)] + [ReadRows(key, i)] + [Hydrate(key, i)]
  {
  }

  lemma Opened(s: State, events: seq<Event>, key: Key, i: nat)
    requires Run(events) == Some(s) && Can(s, Begin(key, i))
    ensures var after := Run(events + Opening(key in s.books, key, i));
      after.Some? && HasBook(s, after.value, key, i)
  {
    InvariantOfRuns(events);
    assert RefsOk(s);
    OpeningSteps(events, key, i);
    hide Inv, Run, RefsOk, HasBook, AtStage, Opening, Inside, Can;
    Begun(s, events, key, i);
    var e1 := events + [Begin(key, i)];
    if key in s.books {
      Cached(s, Run(e1).value, key, i);
    } else {
      RowsRead(s, e1, key, i);
      Hydrated(s, e1 + [ReadRows(key, i)], key, i);
    }
  }

  /** The call stands before its match, with this book in the cache. */
  ghost predicate Prepared(s: State, events: seq<Event>, key: Key, i: nat, b: Book) {
    && Run(events).Some? && key in Run(events).value.books
    && Inside(s, Run(events).value, key, i, s.db, Some(b), Ready(Run(events).value.books[key]))
  }

  ghost predicate Pending(s: State, events: seq<Event>, key: Key, i: nat, b: Book, m: Matching) {
    && Run(events).Some? && key in Run(events).value.books
    && Inside(s, Run(events).value, key, i, s.db, Some(Matched(b, m.taker)),
              Persisting(Run(events).value.books[key], m))
  }

  lemma Refused(s: State, events: seq<Event>, key: Key, i: nat, b: Book, taker: MatchingOrder, timestamp: int)
    requires Prepared(s, events, key, i, b) && Can(Run(events).value, Place(key, i, taker.id, timestamp))
    requires taker == TakerOf(LineOf(Run(events).value, key).calls[i].input, taker.id) && HasOpposite(b, taker)
    ensures var after := Run(events + [Place(key, i, taker.id, timestamp)]);
      after.Some? && Over(s, after.value, key, i, s.db, Some(b))
  {
    hide Inv, Run, HasOpposite;
    OneMoreEvent(s, events, Place(key, i, taker.id, timestamp), key, i);
  }

  lemma MatchedOnce(s: State, events: seq<Event>, key: Key, i: nat, b: Book, taker: MatchingOrder, timestamp: int)
    requires Prepared(s, events, key, i, b) && Can(Run(events).value, Place(key, i, taker.id, timestamp))
    requires taker == TakerOf(LineOf(Run(events).value, key).calls[i].input, taker.id) && !HasOpposite(b, taker)
    ensures Pending(s, events + [Place(key, i, taker.id, timestamp)], key, i, b,
                    Matching(taker, timestamp, TradesOf(b, taker, timestamp), LeftOf(b, taker)))
  {
    hide Inv, Run, HasOpposite, TradesOf, LeftOf, Matched;
    OneMoreEvent(s, events, Place(key, i, taker.id, timestamp), key, i);
  }

  lemma Rejected(s: State, events: seq<Event>, key: Key, i: nat, db: Database, book: Option<Book>)
    requires Run(events).Some? && Inside(s, Run(events).value, key, i, db, book, Rejecting)
    ensures var after := Run(events + [Reject(key, i)]);
      after.Some? && Over(s, after.value, key, i, db, None)
  {
    hide Inv, Run;
    OneMoreEvent(s, events, Reject(key, i), key, i);
  }

  lemma Aborted(s: State, events: seq<Event>, key: Key, i: nat, b: Book, m: Matching)
    requires Pending(s, events, key, i, b, m)
    ensures var after := Run(events + [Abort(key, i), Reject(key, i)]);
      after.Some? && Over(s, after.value, key, i, s.db, None)
  {
    hide Inv, Run, Matched, Over;
    OneMoreEvent(s, events, Abort(key, i), key, i);
    Rejected(s, events + [Abort(key, i)], key, i, s.db, Some(Matched(b, m.taker)));
    assert events + [Abort(key, i), Reject(key, i)] == events + [Abort(key, i)] + [Reject(key, i)];
  }

  lemma CommittedOnce(s: State, events: seq<Event>, key: Key, i: nat, b: Book, m: Matching)
    requires Pending(s, events, key, i, b, m) && Commits(s.db, m)
    ensures var after := Run(events + [Commit(key, i)]);
      && after.Some? && key in after.value.books
      && Inside(s, after.value, key, i, Committed(s.db, m.taker, m.taker.quantity - m.left, m.trades),
                Some(Matched(b, m.taker)), Persisted(after.value.books[key], m))
  {
    hide Inv, Run, Matched, Commits, Committed;
    OneMoreEvent(s, events, Commit(key, i), key, i);
  }

  lemma Unanswered(s: State, events: seq<Event>, key: Key, i: nat, b: Book, m: Matching)
    requires Pending(s, events, key, i, b, m) && Commits(s.db, m)
    ensures var after := Run(events + [Commit(key, i), LoseReply(key, i), Reject(key, i)]);
      after.Some? && Over(s, after.value, key, i, Committed(s.db, m.taker, m.taker.quantity - m.left, m.trades), None)
  {
    hide Inv, Run, Matched, Over, Commits, Committed;
    CommittedOnce(s, events, key, i, b, m);
    var e1 := events + [Commit(key, i)];
    OneMoreEvent(s, e1, LoseReply(key, i), key, i);
    Rejected(s, e1 + [LoseReply(key, i)], key, i, Committed(s.db, m.taker, m.taker.quantity - m.left, m.trades),
             Some(Matched(b, m.taker)));
    assert events + [Commit(key, i), LoseReply(key, i), Reject(key, i)] == e1 + [LoseReply(key, i)] + [Reject(key, i)];
  }

  lemma Answered(s: State, events: seq<Event>, key: Key, i: nat, b: Book, m: Matching, auditFails: bool)
    requires Pending(s, events, key, i, b, m) && Commits(s.db, m)
    ensures var after := Run(events + [Commit(key, i), Resolve(key, i), AuditEnds(key, i, auditFails)]);
      && after.Some?
      && Over(s, after.value, key, i, Committed(s.db, m.taker, m.taker.quantity - m.left, m.trades),
              Some(Rested(Matched(b, m.taker), m.taker, m.left)))
  {
    hide Inv, Run, Matched, Rested, Commits, Committed;
    CommittedOnce(s, events, key, i, b, m);
    var e1 := events + [Commit(key, i)];
    OneMoreEvent(s, e1, Resolve(key, i), key, i);
    OneMoreEvent(s, e1 + [Resolve(key, i)], AuditEnds(key, i, auditFails), key, i);
    assert events + [Commit(key, i), Resolve(key, i), AuditEnds(key, i, auditFails)]
        == e1 + [Resolve(key, i)] + [AuditEnds(key, i, auditFails)];
  }

  // ------------------------------------------------------------ the whole call

  ghost predicate Goes(s: State, m: Matching, fate: TransactionFate) {
    fate != Aborts && Commits(s.db, m)
  }

  lemma AfterMatch(s: State, events: seq<Event>, key: Key, i: nat, b: Book, m: Matching, fate: TransactionFate,
                   auditFails: bool)
    requires Pending(s, events, key, i, b, m)
    ensures var after := Run(events + Ending(Goes(s, m, fate), fate == Succeeds, auditFails, key, i));
      && after.Some?
      && Over(s, after.value, key, i,
              if Goes(s, m, fate) then Committed(s.db, m.taker, m.taker.quantity - m.left, m.trades) else s.db,
              if Goes(s, m, fate) && fate == Succeeds then Some(Rested(Matched(b, m.taker), m.taker, m.left)) else None)
  {
    hide Run, Over, Pending, Matched, Rested, Committed, Commits;
    if !Goes(s, m, fate) {
      Aborted(s, events, key, i, b, m);
    } else if fate == RepliesLost {
      Unanswered(s, events, key, i, b, m);
    } else {
      Answered(s, events, key, i, b, m, auditFails);
    }
  }

  /** The match that a call of this taker makes. */
  ghost function MatchingOf(b: Book, taker: MatchingOrder, timestamp: int): Matching {
    Matching(taker, timestamp, TradesOf(b, taker, timestamp), LeftOf(b, taker))
  }

  /** From the match on: what the events of the call are, and that they do what EffectOf says. */
  lemma FromMatch(s: State, events: seq<Event>, key: Key, i: nat, b: Book, taker: MatchingOrder, timestamp: int,
                  fate: TransactionFate,
                  auditFails: bool)
    requires Prepared(s, events, key, i, b) && Can(Run(events).value, Place(key, i, taker.id, timestamp))
    requires taker == TakerOf(LineOf(Run(events).value, key).calls[i].input, taker.id)
    ensures var m, e := MatchingOf(b, taker, timestamp), EffectOf(s.db, b, taker, timestamp, fate, auditFails);
      var rest := if HasOpposite(b, taker) then [] else Ending(Goes(s, m, fate), fate == Succeeds, auditFails, key, i);
      var after := Run(events + [Place(key, i, taker.id, timestamp)] + rest);
      after.Some? && Over(s, after.value, key, i, e.db, e.book)
  {
    hide Run, Inv, HasOpposite, Over, Ending, TradesOf, LeftOf, Prepared, Pending, Can, Matched, Rested, Committed,
         MakersFound, HasRow;
    if HasOpposite(b, taker) {
      Refused(s, events, key, i, b, taker, timestamp);
      assert events + [Place(key, i, taker.id, timestamp)] + [] == events + [Place(key, i, taker.id, timestamp)];
    } else {
      MatchedOnce(s, events, key, i, b, taker, timestamp);
      AfterMatch(s, events + [Place(key, i, taker.id, timestamp)], key, i, b, MatchingOf(b, taker, timestamp), fate,
                 auditFails);
    }
  }

  /** The call is ready for its match, with the input it came with. */
  lemma ReadyToPlace(s: State, events: seq<Event>, key: Key, i: nat, id: string, timestamp: int)
    requires Run(events) == Some(s) && Can(s, Begin(key, i)) && id !in s.issued && NoUnderscore(id)
    ensures var e1 := events + Opening(key in s.books, key, i);
      && Prepared(s, e1, key, i, StartBook(s, key)) && Can(Run(e1).value, Place(key, i, id, timestamp))
      && LineOf(Run(e1).value, key).calls[i].input == LineOf(s, key).calls[i].input
  {
    hide Run, Inv, StartBook, Opening, NoUnderscore, Elsewhere;
    Opened(s, events, key, i);
    var e1 := events + Opening(key in s.books, key, i);
    InvariantOfRuns(e1);
    CanPlace(Run(e1).value, key, i, id, timestamp);
  }

  /** A call that the service runs without a pause changes the database and its book as EffectOf says,
      for every fate of its transaction and in every reachable state, and no other book. */
  lemma CallIsItsEvents(events: seq<Event>, key: Key, i: nat, id: string, timestamp: int, fate: TransactionFate,
                        auditFails: bool)
    requires Run(events).Some? && Can(Run(events).value, Begin(key, i))
    requires id !in Run(events).value.issued && NoUnderscore(id)
    ensures var s := Run(events).value;
      var taker := TakerOf(LineOf(s, key).calls[i].input, id);
      var e := EffectOf(s.db, StartBook(s, key), taker, timestamp, fate, auditFails);
      var after := Run(events + EventsOf(s, key, i, taker, timestamp, fate, auditFails));
      after.Some? && Over(s, after.value, key, i, e.db, e.book)
  {
    var s := Run(events).value;
    var taker := TakerOf(LineOf(s, key).calls[i].input, id);
    var b, opening, place := StartBook(s, key), Opening(key in s.books, key, i), [Place(key, i, id, timestamp)];
    var m := MatchingOf(b, taker, timestamp);
    var rest := if HasOpposite(b, taker) then [] else Ending(Goes(s, m, fate), fate == Succeeds, auditFails, key, i);
    Joined(events, opening, place, rest);
    TheseEvents(s, key, i, taker, timestamp, fate, auditFails);
    hide Run, HasOpposite, StartBook, Over, Opening, Ending, NoUnderscore, EffectOf, EventsOf, MatchingOf, Goes, Can,
         Prepared;
    ReadyToPlace(s, events, key, i, id, timestamp);
    FromMatch(s, events + opening, key, i, b, taker, timestamp, fate, auditFails);
  }

  lemma StartsCoherent(s: State, key: Key, i: nat, id: string)
    requires Inv(s) && Can(s, Begin(key, i)) && id !in s.issued
    ensures StartBook(s, key) == Rebuild(s.db.orders, key) && LedgerOk(s.db) && !HasRow(s.db.orders, id)
    ensures BookKey(LineOf(s, key).calls[i].input) == key && LineOf(s, key).calls[i].input.quantity > 0
  {
    assert KeyOk(s, key);
    NewId(s.db.orders, s.issued, id);
    FreeToStart(LineOf(s, key).phases, i);
    hide LedgerOk, BooksApart, IssuedOk, HasRow, StageOk, Rebuild, Queue;
  }

  /** In every reachable state: what the caller of a call that runs without a pause is told, and which failure
      gives which error. The trades are the new trade rows, what is filled is what they sum to, and the new order
      row says the same. */
  lemma CallerOfRuns(events: seq<Event>, key: Key, i: nat, id: string, timestamp: int, fate: TransactionFate,
                     auditFails: bool)
    requires Run(events).Some? && Can(Run(events).value, Begin(key, i))
    requires id !in Run(events).value.issued && NoUnderscore(id)
    ensures var s := Run(events).value;
      var taker := TakerOf(LineOf(s, key).calls[i].input, id);
      var after := Run(events + EventsOf(s, key, i, taker, timestamp, fate, auditFails));
      var result := EffectOf(s.db, StartBook(s, key), taker, timestamp, fate, auditFails).result;
      var opposite := RestsOpposite(s.db.orders, taker);
      && after.Some?
      && (result.Ok? <==> !opposite && fate == Succeeds && !auditFails)
      && (result.Ok? ==> Told(s.db, after.value.db, taker, result.value))
      && (result == Err(SelfTrade) <==> opposite)
      && (result == Err(TransactionFailed) <==> !opposite && fate != Succeeds)
      && (result == Err(AuditFailed) <==> !opposite && fate == Succeeds && auditFails)
      && (after.value.db == s.db <==> opposite || fate == Aborts)
      && (result.Ok? ==> RowSays(after.value.db, id, LineOf(s, key).calls[i].input, result.value.filledQuantity))
  {
    var s := Run(events).value;
    InvariantOfRuns(events);
    hide Run, Inv, Can, LedgerOk, HasRow, NoUnderscore, Rebuild, StartBook, EventsOf, EffectOf, Told, RestsOpposite,
         Elsewhere;
    StartsCoherent(s, key, i, id);
    CallIsItsEvents(events, key, i, id, timestamp, fate, auditFails);
    CallerIsTold(s.db, TakerOf(LineOf(s, key).calls[i].input, id), timestamp, fate, auditFails);
    var input := LineOf(s, key).calls[i].input;
    var e := EffectOf(s.db, StartBook(s, key), TakerOf(input, id), timestamp, fate, auditFails);
    if e.result.Ok? {
      RowOfInput(s.db, e.db, input, id, e.result.value);
    }
  }

  /** There is a row of this order, with what its caller asked for, filled by this much. */
  ghost predicate RowSays(db: Database, id: string, input: OrderInput, filled: int) {
    exists r :: r in db.orders && r.id == id && RecordsInput(r, input) && r.filledQuantity == filled
  }

  lemma RowOfInput(db: Database, db': Database, input: OrderInput, id: string, told: PlaceOrderResult)
    requires Told(db, db', TakerOf(input, id), told)
    ensures RowSays(db', id, input, told.filledQuantity)
  {
    var taker := TakerOf(input, id);
    var r :| r in db'.orders && r.id == id && RecordsOrder(r, taker) && r.filledQuantity == told.filledQuantity;
    assert RecordsInput(r, input);
  }

  /** The caller gets a result exactly when the last event is an audit that did not fail. */
  lemma ResultOfEvents(s: State, key: Key, i: nat, taker: MatchingOrder, timestamp: int, fate: TransactionFate,
                       auditFails: bool)
    ensures var all := EventsOf(s, key, i, taker, timestamp, fate, auditFails);
      EffectOf(s.db, StartBook(s, key), taker, timestamp, fate, auditFails).result.Ok? <==>
        all[|all| - 1] == AuditEnds(key, i, false)
  {
    hide HasOpposite, StartBook, TradesOf, LeftOf, MakersFound, HasRow, Committed, Rested, Matched;
  }

  lemma TheseEvents(s: State, key: Key, i: nat, taker: MatchingOrder, timestamp: int, fate: TransactionFate,
                    auditFails: bool)
    ensures var b := StartBook(s, key);
      var goes := Goes(s, MatchingOf(b, taker, timestamp), fate);
      EventsOf(s, key, i, taker, timestamp, fate, auditFails) ==
        Opening(key in s.books, key, i) + [Place(key, i, taker.id, timestamp)]
        + (if HasOpposite(b, taker) then [] else Ending(goes, fate == Succeeds, auditFails, key, i))
  {
    hide HasOpposite, StartBook, Opening, Ending, TradesOf, LeftOf, MakersFound, HasRow;
  }

  lemma Joined(a: seq<Event>, b: seq<Event>, c: seq<Event>, d: seq<Event>)
    ensures a + (b + c + d) == a + b + c + d
  {
  }

  lemma CanPlace(s: State, key: Key, i: nat, id: string, timestamp: int)
    requires Inv(s) && Runs(s, key, i) && key in s.books && StageOf(s, key, i) == Ready(s.books[key])
    requires id !in s.issued && NoUnderscore(id)
    ensures Can(s, Place(key, i, id, timestamp))
  {
    hide LedgerOk, BooksApart, IssuedOk, KeyOk, NoUnderscore;
    assert RefsOk(s);
  }

  lemma ReadFailed(s: State, events: seq<Event>, key: Key, i: nat)
    requires Run(events).Some? && AtStage(s, Run(events).value, key, i, Reading) && key !in s.books
    ensures var after := Run(events + [ReadFails(key, i)]);
      after.Some? && Over(s, after.value, key, i, s.db, None)
  {
    hide Inv, Run;
    OneMoreEvent(s, events, ReadFails(key, i), key, i);
  }

  /** A call whose read fails changes nothing. */
  lemma FailedReadIsItsEvents(events: seq<Event>, key: Key, i: nat)
    requires Run(events).Some? && Can(Run(events).value, Begin(key, i)) && key !in Run(events).value.books
    ensures var s, after := Run(events).value, Run(events + [Begin(key, i), ReadFails(key, i)]);
      after.Some? && Over(s, after.value, key, i, s.db, None)
  {
    var s := Run(events).value;
    hide Inv, Run, Over, AtStage, Can;
    Begun(s, events, key, i);
    ReadFailed(s, events + [Begin(key, i)], key, i);
    assert events + [Begin(key, i), ReadFails(key, i)] == events + [Begin(key, i)] + [ReadFails(key, i)];
  }
}
