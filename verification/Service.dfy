/** Every interleaving of placeOrder calls on all books: the calls of one book queue on its mutex,
    the book objects are cached by key and dropped when a transaction fails, and the database
    transactions commit, abort, or commit without the caller learning it. */
module Service {
  import opened Domain
  import opened PriorityList
  import opened GreedyMatch
  import opened Ledger
  import opened Hydration
  import opened Coherence
  import opened Conservation
  import opened MutexChain

  datatype OrderInput = OrderInput(
    marketId: string,
    outcome: Outcome,
    userAddress: string,
    side: OrderSide,
    price: int,
    quantity: int)

  datatype Matching = Matching(taker: MatchingOrder, timestamp: int, trades: seq<Trade>, left: int)

  /** Where a running call stands; book objects are named by their place in the store. */
  datatype Stage =
    | Idle
    | Reading
    | Loaded(rows: seq<OrderRow>)
    | Ready(book: nat)
    | Persisting(book: nat, matching: Matching)
    | Persisted(book: nat, matching: Matching)
    | Rejecting
    | Auditing

  datatype Call = Call(input: OrderInput, stage: Stage)

  /** The calls of one book, in the order in which they came to its mutex. */
  datatype Line = Line(phases: seq<Phase>, calls: seq<Call>)

  datatype State = State(
    db: Database,
    books: map<Key, nat>,
    store: seq<Book>,
    lines: map<Key, Line>,
    issued: map<string, Key>)

  datatype Event =
    | Arrive(input: OrderInput)
    | Begin(key: Key, i: nat)
    | ReadRows(key: Key, i: nat)
    | ReadFails(key: Key, i: nat)
    | Hydrate(key: Key, i: nat)
    | Place(key: Key, i: nat, id: string, timestamp: int)
    | Commit(key: Key, i: nat)
    | Abort(key: Key, i: nat)
    | LoseReply(key: Key, i: nat)
    | Reject(key: Key, i: nat)
    | Resolve(key: Key, i: nat)
    | AuditEnds(key: Key, i: nat, failed: bool)
    | Restart(warm: seq<Key>)

  function BookKey(input: OrderInput): Key {
    Key(input.marketId, input.outcome)
  }

  function TakerOf(input: OrderInput, id: string): MatchingOrder {
    MatchingOrder(id, input.userAddress, input.side, input.price, input.quantity, input.marketId, input.outcome)
  }

  function LineOf(s: State, key: Key): Line {
    if key in s.lines then s.lines[key] else Line([], [])
  }

  /** The call is the one its mutex lets run, and it stands at this stage. */
  predicate Runs(s: State, key: Key, i: nat) {
    var line := LineOf(s, key);
    i < |line.phases| && i < |line.calls| && line.phases[i] == Running
  }

  function StageOf(s: State, key: Key, i: nat): Stage
    requires Runs(s, key, i)
  {
    LineOf(s, key).calls[i].stage
  }

  function Advanced(line: Line, i: nat, stage: Stage): Line
    requires i < |line.calls|
  {
    line.(calls := line.calls[i := line.calls[i].(stage := stage)])
  }

  function Ended(line: Line, i: nat, threw: bool): Line
    requires i < |line.phases| && line.phases[i] == Running
  {
    line.(phases := Apply(line.phases, Finish(i, threw)))
  }

  function At(s: State, key: Key, i: nat, stage: Stage): State
    requires Runs(s, key, i)
  {
    s.(lines := s.lines[key := Advanced(LineOf(s, key), i, stage)])
  }

  function End(s: State, key: Key, i: nat, threw: bool): State
    requires Runs(s, key, i)
  {
    s.(lines := s.lines[key := Ended(LineOf(s, key), i, threw)])
  }

  ghost predicate Can(s: State, e: Event) {
    match e
    case Arrive(input) => input.quantity > 0
    case Begin(key, i) => Enabled(LineOf(s, key).phases, Start(i)) && i < |LineOf(s, key).calls|
    case ReadRows(key, i) => Runs(s, key, i) && StageOf(s, key, i).Reading?
    case ReadFails(key, i) => Runs(s, key, i) && StageOf(s, key, i).Reading?
    case Hydrate(key, i) => Runs(s, key, i) && StageOf(s, key, i).Loaded?
    case Place(key, i, id, _) =>
      && Runs(s, key, i) && StageOf(s, key, i).Ready? && StageOf(s, key, i).book < |s.store|
      && id !in s.issued && NoUnderscore(id)
    case Commit(key, i) =>
      Runs(s, key, i) && StageOf(s, key, i).Persisting? && Commits(s.db, StageOf(s, key, i).matching)
    case Abort(key, i) => Runs(s, key, i) && StageOf(s, key, i).Persisting?
    case LoseReply(key, i) => Runs(s, key, i) && StageOf(s, key, i).Persisted?
    case Reject(key, i) => Runs(s, key, i) && StageOf(s, key, i).Rejecting?
    case Resolve(key, i) => Runs(s, key, i) && StageOf(s, key, i).Persisted? && StageOf(s, key, i).book < |s.store|
    case AuditEnds(key, i, _) => Runs(s, key, i) && StageOf(s, key, i).Auditing?
    case Restart(warm) => forall i, j :: 0 <= i < j < |warm| ==> warm[i] != warm[j]
  }

  /** The transaction goes through: the order id is new and every maker is found. */
  ghost predicate Commits(db: Database, m: Matching) {
    && !HasRow(db.orders, m.taker.id)
    && MakersFound(db.orders + [TakerRow(m.taker, m.taker.quantity - m.left)], m.taker.id, m.trades)
  }

  ghost function Next(s: State, e: Event): State
    requires Can(s, e)
  {
    match e
    case Arrive(input) =>
      var line := LineOf(s, BookKey(input));
      s.(lines := s.lines[BookKey(input) := Line(Apply(line.phases, Enter), line.calls + [Call(input, Idle)])])
    case Begin(key, i) =>
      var line := LineOf(s, key);
      var started := Line(Apply(line.phases, Start(i)), line.calls);
      s.(lines := s.lines[key := Advanced(started, i, if key in s.books then Ready(s.books[key]) else Reading)])
    case ReadRows(key, i) => At(s, key, i, Loaded(s.db.orders))
    case ReadFails(key, i) => End(s, key, i, true)
    case Hydrate(key, i) =>
      var s' := s.(store := s.store + [Rebuild(StageOf(s, key, i).rows, key)], books := s.books[key := |s.store|]);
      At(s', key, i, Ready(|s.store|))
    case Place(key, i, id, timestamp) =>
      var r := StageOf(s, key, i).book;
      var taker, b := TakerOf(LineOf(s, key).calls[i].input, id), s.store[r];
      if HasOpposite(b, taker) then End(s, key, i, true)
      else
        var m := Matching(taker, timestamp, TradesOf(b, taker, timestamp), LeftOf(b, taker));
        At(s.(store := s.store[r := Matched(b, taker)], issued := s.issued[id := key]), key, i, Persisting(r, m))
    case Commit(key, i) =>
      var m := StageOf(s, key, i).matching;
      At(s.(db := Committed(s.db, m.taker, m.taker.quantity - m.left, m.trades)), key, i,
         Persisted(StageOf(s, key, i).book, m))
    case Abort(key, i) => At(s, key, i, Rejecting)
    case LoseReply(key, i) => At(s, key, i, Rejecting)
    case Reject(key, i) => End(s.(books := s.books - {key}), key, i, true)
    case Resolve(key, i) =>
      var r, m := StageOf(s, key, i).book, StageOf(s, key, i).matching;
      At(s.(store := s.store[r := Rested(s.store[r], m.taker, m.left)]), key, i, Auditing)
    case AuditEnds(key, i, failed) => End(s, key, i, failed)
    case Restart(warm) =>
      s.(lines := map[],
         books := map k | k in warm :: IndexOf(warm, k),
         store := seq(|warm|, j requires 0 <= j < |warm| => Rebuild(s.db.orders, warm[j])))
  }

  const INITIAL := State(Database([], [], map[]), map[], [], map[], map[])

  /** The state after these events, if they can happen in this order. */
  ghost function Run(events: seq<Event>): Option<State> {
    if events == [] then Some(INITIAL)
    else
      var before, e := Run(events[..|events| - 1]), events[|events| - 1];
      if before.Some? && Can(before.value, e) then Some(Next(before.value, e)) else None
  }

  // ------------------------------------------------------------ the invariant

  function RefOf(s: State, key: Key): Option<nat> {
    if key in s.books then Some(s.books[key]) else None
  }

  /** The cached book of this key. */
  function BookOf(s: State, key: Key): Option<Book> {
    if key in s.books && s.books[key] < |s.store| then Some(s.store[s.books[key]]) else None
  }

  ghost predicate MatchingOk(rows: seq<OrderRow>, issued: map<string, Key>, key: Key, m: Matching) {
    var b := Rebuild(rows, key);
    && KeyOf(m.taker) == key
    && !HasRow(rows, m.taker.id) && NoUnderscore(m.taker.id) && m.taker.quantity > 0
    && !HasOpposite(b, m.taker)
    && m.trades == TradesOf(b, m.taker, m.timestamp) && m.left == LeftOf(b, m.taker)
    && m.taker.id in issued && issued[m.taker.id] == key
  }

  /** What a running call may rely on. */
  ghost predicate StageOk(rows: seq<OrderRow>, issued: map<string, Key>, key: Key, ref: Option<nat>, book: Option<Book>,
                          stage: Stage) {
    match stage
    case Idle => false
    case Reading => ref == None
    case Loaded(read) => ref == None && Rebuild(read, key) == Rebuild(rows, key)
    case Ready(r) => ref == Some(r) && book == Some(Rebuild(rows, key))
    case Persisting(r, m) =>
      ref == Some(r) && book == Some(Matched(Rebuild(rows, key), m.taker)) && MatchingOk(rows, issued, key, m)
    case Persisted(r, m) =>
      ref == Some(r) && book.Some? && Rested(book.value, m.taker, m.left) == Rebuild(rows, key)
    case Rejecting => true
    case Auditing => Coherent(rows, key, book)
  }

  /** The cached book, if there is one, is the book that the database describes. */
  ghost predicate Coherent(rows: seq<OrderRow>, key: Key, book: Option<Book>) {
    book.Some? ==> book.value == Rebuild(rows, key)
  }

  ghost predicate Free(line: Line) {
    forall i :: 0 <= i < |line.phases| ==> line.phases[i] != Running
  }

  ghost predicate LineOk(rows: seq<OrderRow>, issued: map<string, Key>, key: Key, ref: Option<nat>, book: Option<Book>,
                         line: Line) {
    && |line.phases| == |line.calls| && Queue(line.phases)
    && (forall i :: 0 <= i < |line.calls| ==> BookKey(line.calls[i].input) == key && line.calls[i].input.quantity > 0)
    && (forall i :: 0 <= i < |line.calls| ==> line.phases[i] == Running ==>
         StageOk(rows, issued, key, ref, book, line.calls[i].stage))
    && (Free(line) ==> Coherent(rows, key, book))
  }

  ghost predicate RefsOk(s: State) {
    && (forall k :: k in s.books ==> s.books[k] < |s.store|)
    && (forall k, k' :: k in s.books && k' in s.books && s.books[k] == s.books[k'] ==> k == k')
  }

  ghost predicate IssuedOk(rows: seq<OrderRow>, issued: map<string, Key>) {
    forall r :: r in rows ==> r.id in issued && issued[r.id] == Key(r.marketId, r.outcome)
  }

  ghost predicate BooksApart(rows: seq<OrderRow>) {
    forall key: Key :: Uncrossed(Rebuild(rows, key)) && OneSided(Rebuild(rows, key))
  }

  ghost predicate KeyOk(s: State, key: Key) {
    LineOk(s.db.orders, s.issued, key, RefOf(s, key), BookOf(s, key), LineOf(s, key))
  }

  ghost predicate Inv(s: State) {
    && LedgerOk(s.db) && BooksApart(s.db.orders) && IssuedOk(s.db.orders, s.issued)
    && RefsOk(s)
    && forall key: Key :: KeyOk(s, key)
  }

  // ----------------------------------------------------- one call of one book

  lemma LineAdvances(rows: seq<OrderRow>, issued: map<string, Key>, key: Key, ref: Option<nat>, book: Option<Book>,
                     line: Line, i: nat,
                     rows': seq<OrderRow>, issued': map<string, Key>, ref': Option<nat>, book': Option<Book>,
                     stage: Stage)
    requires LineOk(rows, issued, key, ref, book, line)
    requires i < |line.phases| && line.phases[i] == Running
    requires StageOk(rows', issued', key, ref', book', stage)
    ensures LineOk(rows', issued', key, ref', book', Advanced(line, i, stage))
  {
    hide StageOk, Coherent;
    var line' := Advanced(line, i, stage);
    assert line'.phases[i] == Running;
    forall j | 0 <= j < |line.phases| && line.phases[j] == Running ensures j == i {
    }
  }

  lemma LineEnds(rows: seq<OrderRow>, issued: map<string, Key>, key: Key, ref: Option<nat>, book: Option<Book>,
                 line: Line, i: nat,
                 threw: bool, ref': Option<nat>, book': Option<Book>)
    requires LineOk(rows, issued, key, ref, book, line)
    requires i < |line.phases| && line.phases[i] == Running
    requires Coherent(rows, key, book')
    ensures LineOk(rows, issued, key, ref', book', Ended(line, i, threw))
  {
    hide StageOk, Coherent;
    QueueInductive(line.phases, Finish(i, threw));
    forall j | 0 <= j < |line.phases| && line.phases[j] == Running ensures j == i {
    }
  }

  /** What the running call may rely on. */
  lemma RunningStage(s: State, key: Key, i: nat)
    requires KeyOk(s, key) && Runs(s, key, i)
    ensures StageOk(s.db.orders, s.issued, key, RefOf(s, key), BookOf(s, key), StageOf(s, key, i))
    ensures BookKey(LineOf(s, key).calls[i].input) == key && LineOf(s, key).calls[i].input.quantity > 0
  {
    hide StageOk, Coherent;
  }

  /** A step of one book that does not touch the database leaves every other book alone. */
  lemma OnlyThisBook(s: State, s': State, key: Key)
    requires Inv(s) && s'.db == s.db
    requires forall id :: id in s.issued ==> id in s'.issued && s'.issued[id] == s.issued[id]
    requires forall k: Key :: k != key ==>
      LineOf(s', k) == LineOf(s, k) && RefOf(s', k) == RefOf(s, k) && BookOf(s', k) == BookOf(s, k)
    requires RefsOk(s') && KeyOk(s', key)
    ensures Inv(s')
  {
    hide LedgerOk, BooksApart, RefsOk, LineOf, RefOf, BookOf, LineOk;
    forall k: Key ensures KeyOk(s', k) {
      assert KeyOk(s, k);
      if k != key {
        MoreIssued(s.db.orders, s.issued, s'.issued, k, RefOf(s, k), BookOf(s, k), LineOf(s, k));
      }
    }
  }

  lemma MoreIssued(rows: seq<OrderRow>, issued: map<string, Key>, issued': map<string, Key>, key: Key, ref: Option<nat>,
                   book: Option<Book>, line: Line)
    requires LineOk(rows, issued, key, ref, book, line)
    requires forall id :: id in issued ==> id in issued' && issued'[id] == issued[id]
    ensures LineOk(rows, issued', key, ref, book, line)
  {
    hide HasOpposite, Rebuild, HasRow, NoUnderscore, TradesOf, LeftOf, Coherent;
    forall i | 0 <= i < |line.calls| && line.phases[i] == Running
      ensures StageOk(rows, issued', key, ref, book, line.calls[i].stage)
    {
      assert StageOk(rows, issued, key, ref, book, line.calls[i].stage);
    }
  }

  // -------------------------------------------------- steps of one book

  /** The step moved call i of this book to a new stage and touched nothing of the other books. */
  ghost predicate Moved(s: State, s': State, key: Key, line: Line) {
    && s'.db == s.db && s'.lines == s.lines[key := line]
    && (forall id :: id in s.issued ==> id in s'.issued && s'.issued[id] == s.issued[id])
    && (forall k: Key :: k != key ==> RefOf(s', k) == RefOf(s, k) && BookOf(s', k) == BookOf(s, k))
    && RefsOk(s')
  }

  lemma AdvanceKeeps(s: State, s': State, key: Key, i: nat, stage: Stage)
    requires Inv(s) && Runs(s, key, i)
    requires Moved(s, s', key, Advanced(LineOf(s, key), i, stage))
    requires StageOk(s'.db.orders, s'.issued, key, RefOf(s', key), BookOf(s', key), stage)
    ensures Inv(s')
  {
    hide StageOk, LedgerOk, BooksApart, IssuedOk, RefsOk, LineOk, RefOf, BookOf, Advanced;
    assert KeyOk(s, key);
    LineAdvances(s.db.orders, s.issued, key, RefOf(s, key), BookOf(s, key), LineOf(s, key), i,
                 s'.db.orders, s'.issued, RefOf(s', key), BookOf(s', key), stage);
    OnlyThisBook(s, s', key);
  }

  lemma EndKeeps(s: State, s': State, key: Key, i: nat, threw: bool)
    requires Inv(s) && Runs(s, key, i)
    requires Moved(s, s', key, Ended(LineOf(s, key), i, threw)) && s'.issued == s.issued
    requires Coherent(s.db.orders, key, BookOf(s', key))
    ensures Inv(s')
  {
    hide StageOk, LedgerOk, BooksApart, IssuedOk, RefsOk, LineOk, RefOf, BookOf, Ended, Coherent;
    assert KeyOk(s, key);
    LineEnds(s.db.orders, s.issued, key, RefOf(s, key), BookOf(s, key), LineOf(s, key), i, threw, RefOf(s', key),
             BookOf(s', key));
    OnlyThisBook(s, s', key);
  }

  lemma ArriveKeeps(s: State, input: OrderInput)
    requires Inv(s) && Can(s, Arrive(input))
    ensures Inv(Next(s, Arrive(input)))
  {
    hide LedgerOk, BooksApart, IssuedOk, StageOk, Coherent;
    var key, s' := BookKey(input), Next(s, Arrive(input));
    assert KeyOk(s, key);
    var line := LineOf(s, key);
    QueueInductive(line.phases, Enter);
    var line' := LineOf(s', key);
    assert line'.phases == line.phases + [Waiting] && line'.calls == line.calls + [Call(input, Idle)];
    assert Free(line') ==> Free(line) by {
      assert forall i :: 0 <= i < |line.phases| ==> line'.phases[i] == line.phases[i];
    }
    assert KeyOk(s', key);
    OnlyThisBook(s, s', key);
  }

  /** A caller that may start finds no other callback running. */
  lemma FreeToStart(phases: seq<Phase>, i: nat)
    requires Queue(phases) && Enabled(phases, Start(i))
    ensures forall j :: 0 <= j < |phases| ==> phases[j] != Running
  {
    forall j | 0 <= j < |phases| ensures phases[j] != Running {
      assert j > i ==> phases[j] == Waiting;
      assert i > 0 && j < i ==> phases[j] == Finished;
    }
  }

  lemma BeginKeeps(s: State, key: Key, i: nat)
    requires Inv(s) && Can(s, Begin(key, i))
    ensures Inv(Next(s, Begin(key, i)))
  {
    hide LedgerOk, BooksApart, IssuedOk;
    var s', line := Next(s, Begin(key, i)), LineOf(s, key);
    assert KeyOk(s, key);
    FreeToStart(line.phases, i);
    QueueInductive(line.phases, Start(i));
    hide Queue;
    var stage := if key in s.books then Ready(s.books[key]) else Reading;
    assert LineOf(s', key) == Advanced(Line(Apply(line.phases, Start(i)), line.calls), i, stage);
    assert StageOk(s.db.orders, s.issued, key, RefOf(s, key), BookOf(s, key), stage);
    hide StageOk, Coherent;
    assert KeyOk(s', key);
    OnlyThisBook(s, s', key);
  }

  lemma ReadKeeps(s: State, key: Key, i: nat)
    requires Inv(s) && Can(s, ReadRows(key, i))
    ensures Inv(Next(s, ReadRows(key, i)))
  {
    RunningStage(s, key, i);
    hide LedgerOk, BooksApart, IssuedOk, LineOk;
    AdvanceKeeps(s, Next(s, ReadRows(key, i)), key, i, Loaded(s.db.orders));
  }

  lemma FailedReadKeeps(s: State, key: Key, i: nat)
    requires Inv(s) && Can(s, ReadFails(key, i))
    ensures Inv(Next(s, ReadFails(key, i)))
  {
    RunningStage(s, key, i);
    hide LedgerOk, BooksApart, IssuedOk, LineOk;
    EndKeeps(s, Next(s, ReadFails(key, i)), key, i, true);
  }

  /** A new book object is nobody else's. */
  lemma NewBook(s: State, s': State, key: Key, i: nat, b: Book)
    requires RefsOk(s) && Runs(s, key, i)
    requires s' == At(s.(store := s.store + [b], books := s.books[key := |s.store|]), key, i, Ready(|s.store|))
    ensures Moved(s, s', key, Advanced(LineOf(s, key), i, Ready(|s.store|)))
    ensures RefOf(s', key) == Some(|s.store|) && BookOf(s', key) == Some(b)
  {
  }

  lemma HydrateKeeps(s: State, key: Key, i: nat)
    requires Inv(s) && Can(s, Hydrate(key, i))
    ensures Inv(Next(s, Hydrate(key, i)))
  {
    hide LedgerOk, BooksApart, IssuedOk, LineOk, Rebuild, RefsOk, RefOf, BookOf, Moved, Advanced;
    assert KeyOk(s, key);
    RunningStage(s, key, i);
    NewBook(s, Next(s, Hydrate(key, i)), key, i, Rebuild(StageOf(s, key, i).rows, key));
    AdvanceKeeps(s, Next(s, Hydrate(key, i)), key, i, Ready(|s.store|));
  }

  lemma PlaceKeeps(s: State, key: Key, i: nat, id: string, timestamp: int)
    requires Inv(s) && Can(s, Place(key, i, id, timestamp))
    ensures Inv(Next(s, Place(key, i, id, timestamp)))
  {
    RunningStage(s, key, i);
    var r, s' := StageOf(s, key, i).book, Next(s, Place(key, i, id, timestamp));
    var taker := TakerOf(LineOf(s, key).calls[i].input, id);
    assert s.store[r] == Rebuild(s.db.orders, key) && RefOf(s, key) == Some(r);
    hide LedgerOk, BooksApart, LineOk, Rebuild, HasOpposite, TradesOf, LeftOf, Matched, StageOk;
    if HasOpposite(s.store[r], taker) {
      EndKeeps(s, s', key, i, true);
    } else {
      MatchKeeps(s, s', key, i, r, taker, timestamp);
    }
  }

  lemma MatchKeeps(s: State, s': State, key: Key, i: nat, r: nat, taker: MatchingOrder, timestamp: int)
    requires Inv(s) && Runs(s, key, i) && RefOf(s, key) == Some(r) && KeyOf(taker) == key && taker.quantity > 0
    requires taker.id !in s.issued && NoUnderscore(taker.id) && !HasOpposite(Rebuild(s.db.orders, key), taker)
    requires var b := Rebuild(s.db.orders, key);
      s' == At(s.(store := s.store[r := Matched(b, taker)], issued := s.issued[taker.id := key]), key, i,
               Persisting(r, Matching(taker, timestamp, TradesOf(b, taker, timestamp), LeftOf(b, taker))))
    ensures Inv(s')
  {
    var b := Rebuild(s.db.orders, key);
    var m := Matching(taker, timestamp, TradesOf(b, taker, timestamp), LeftOf(b, taker));
    NewId(s.db.orders, s.issued, taker.id);
    hide LedgerOk, BooksApart, LineOk, Rebuild, HasOpposite, TradesOf, LeftOf, Matched, IssuedOk, HasRow, NoUnderscore;
    assert MatchingOk(s.db.orders, s'.issued, key, m);
    hide MatchingOk;
    AdvanceKeeps(s, s', key, i, Persisting(r, m));
  }

  lemma NewId(rows: seq<OrderRow>, issued: map<string, Key>, id: string)
    requires IssuedOk(rows, issued) && id !in issued
    ensures !HasRow(rows, id)
  {
  }

  lemma AbortKeeps(s: State, key: Key, i: nat)
    requires Inv(s) && Can(s, Abort(key, i))
    ensures Inv(Next(s, Abort(key, i)))
  {
    hide LedgerOk, BooksApart, IssuedOk, LineOk;
    AdvanceKeeps(s, Next(s, Abort(key, i)), key, i, Rejecting);
  }

  lemma LostReplyKeeps(s: State, key: Key, i: nat)
    requires Inv(s) && Can(s, LoseReply(key, i))
    ensures Inv(Next(s, LoseReply(key, i)))
  {
    hide LedgerOk, BooksApart, IssuedOk, LineOk;
    AdvanceKeeps(s, Next(s, LoseReply(key, i)), key, i, Rejecting);
  }

  lemma RejectKeeps(s: State, key: Key, i: nat)
    requires Inv(s) && Can(s, Reject(key, i))
    ensures Inv(Next(s, Reject(key, i)))
  {
    hide LedgerOk, BooksApart, IssuedOk, LineOk;
    EndKeeps(s, Next(s, Reject(key, i)), key, i, true);
  }

  lemma ResolveKeeps(s: State, key: Key, i: nat)
    requires Inv(s) && Can(s, Resolve(key, i))
    ensures Inv(Next(s, Resolve(key, i)))
  {
    RunningStage(s, key, i);
    hide LedgerOk, BooksApart, IssuedOk, LineOk, Rebuild, Rested;
    AdvanceKeeps(s, Next(s, Resolve(key, i)), key, i, Auditing);
  }

  lemma AuditKeeps(s: State, key: Key, i: nat, failed: bool)
    requires Inv(s) && Can(s, AuditEnds(key, i, failed))
    ensures Inv(Next(s, AuditEnds(key, i, failed)))
  {
    assert KeyOk(s, key);
    RunningStage(s, key, i);
    hide Inv, KeyOk, MatchingOk, Coherent, Ended;
    EndKeeps(s, Next(s, AuditEnds(key, i, failed)), key, i, failed);
  }

  // ------------------------------------------------------------- the commit

  /** Another book does not notice: it is rebuilt the same, and its own taker is still new. */
  lemma OtherLine(rows: seq<OrderRow>, rows': seq<OrderRow>, issued: map<string, Key>, key: Key, ref: Option<nat>,
                  book: Option<Book>, line: Line, id: string)
    requires LineOk(rows, issued, key, ref, book, line)
    requires Rebuild(rows', key) == Rebuild(rows, key)
    requires forall x :: HasRow(rows', x) <==> HasRow(rows, x) || x == id
    requires id in issued && issued[id] != key
    ensures LineOk(rows', issued, key, ref, book, line)
  {
    hide HasOpposite, Rebuild, HasRow, NoUnderscore, TradesOf, LeftOf, Matched, Rested;
    forall i | 0 <= i < |line.calls| && line.phases[i] == Running
      ensures StageOk(rows', issued, key, ref, book, line.calls[i].stage)
    {
      assert StageOk(rows, issued, key, ref, book, line.calls[i].stage);
    }
  }

  /** The ids after the transaction are the ids before it and the new one. */
  lemma RowsAfterIds(rows: seq<OrderRow>, b: Book, taker: MatchingOrder, timestamp: int, issued: map<string, Key>)
    ensures forall x :: HasRow(RowsAfter(rows, b, taker, timestamp), x) <==> HasRow(rows, x) || x == taker.id
    ensures IssuedOk(rows, issued) && taker.id in issued && issued[taker.id] == KeyOf(taker) ==>
      IssuedOk(RowsAfter(rows, b, taker, timestamp), issued)
  {
    var all := rows + [TakerRow(taker, taker.quantity - LeftOf(b, taker))];
    var trades := TradesOf(b, taker, timestamp);
    hide LeftOf, TradesOf, Made, MadeBy, StatusOf;
    var after := FilledRows(all, taker.id, trades);
    forall x ensures HasRow(after, x) <==> HasRow(rows, x) || x == taker.id {
      if HasRow(rows, x) {
        var i :| 0 <= i < |rows| && rows[i].id == x;
        assert after[i] in after && after[i].id == all[i].id;
      }
      if x == taker.id {
        assert after[|rows|] in after && after[|rows|].id == all[|rows|].id;
      }
    }
  }

  lemma BooksStayApart(rows: seq<OrderRow>, taker: MatchingOrder, timestamp: int)
    requires Incoming(rows, taker) && BooksApart(rows) && !HasOpposite(Rebuild(rows, KeyOf(taker)), taker)
    ensures BooksApart(RowsAfter(rows, Rebuild(rows, KeyOf(taker)), taker, timestamp))
  {
    var b := Rebuild(rows, KeyOf(taker));
    RebuiltSide(rows, KeyOf(taker), Bid);
    RebuiltSide(rows, KeyOf(taker), Ask);
    assert WellSorted(b);
    hide Rebuild, RowsAfter, WellSorted, AtPrice, Resting, Sorted, DistinctIds, AllPositive, HasOpposite, Uncrossed,
         OneSided;
    MatchKeepsApart(b, taker);
    forall key: Key
      ensures Uncrossed(Rebuild(RowsAfter(rows, b, taker, timestamp), key))
      ensures OneSided(Rebuild(RowsAfter(rows, b, taker, timestamp), key))
    {
      CommitRebuilds(rows, taker, timestamp, key);
    }
  }

  /** What the transaction of a sound match does to the database. */
  ghost predicate CommitFacts(db: Database, db': Database, issued: map<string, Key>, key: Key, m: Matching) {
    && LedgerOk(db') && BooksApart(db'.orders) && IssuedOk(db'.orders, issued)
    && (forall x :: HasRow(db'.orders, x) <==> HasRow(db.orders, x) || x == m.taker.id)
    && Rebuild(db'.orders, key) == Rested(Matched(Rebuild(db.orders, key), m.taker), m.taker, m.left)
    && (forall k: Key :: k != key ==> Rebuild(db'.orders, k) == Rebuild(db.orders, k))
  }

  lemma CommitIsSound(db: Database, issued: map<string, Key>, key: Key, m: Matching)
    requires LedgerOk(db) && BooksApart(db.orders) && IssuedOk(db.orders, issued)
    requires MatchingOk(db.orders, issued, key, m)
    ensures CommitFacts(db, Committed(db, m.taker, m.taker.quantity - m.left, m.trades), issued, key, m)
  {
    var b, rows := Rebuild(db.orders, key), db.orders;
    hide LedgerOk, BooksApart, IssuedOk, Rebuild, HasOpposite, HasRow, NoUnderscore, TradesOf, LeftOf, Committed,
         Matched, Rested,
         RowsAfter, Incoming;
    assert Placed(db, m.taker);
    PlacedIncoming(db, m.taker);
    CommitKeepsLedger(db, m.taker, m.timestamp);
    hide Placed;
    RowsAfterIds(rows, b, m.taker, m.timestamp, issued);
    BooksStayApart(rows, m.taker, m.timestamp);
    CommitRebuilds(rows, m.taker, m.timestamp, key);
    forall k: Key | k != key ensures Rebuild(RowsAfter(rows, b, m.taker, m.timestamp), k) == Rebuild(rows, k) {
      CommitRebuilds(rows, m.taker, m.timestamp, k);
    }
  }

  lemma CommitKeeps(s: State, key: Key, i: nat)
    requires Inv(s) && Can(s, Commit(key, i))
    ensures Inv(Next(s, Commit(key, i)))
  {
    hide LineOk, BookOf, LedgerOk, BooksApart, IssuedOk, Rebuild, HasOpposite, HasRow, NoUnderscore, TradesOf, LeftOf,
         Committed,
         Commits, Matched, RefsOk;
    assert KeyOk(s, key);
    RunningStage(s, key, i);
    var r, m := StageOf(s, key, i).book, StageOf(s, key, i).matching;
    var s' := Next(s, Commit(key, i));
    CommitIsSound(s.db, s.issued, key, m);
    CommitStep(s, s', key, i, r, m);
  }

  /** A sound commit keeps the invariant on every book. */
  lemma CommitStep(s: State, s': State, key: Key, i: nat, r: nat, m: Matching)
    requires Inv(s) && Runs(s, key, i) && RefOf(s, key) == Some(r) && m.taker.id in s.issued
    requires s.issued[m.taker.id] == key
    requires BookOf(s, key) == Some(Matched(Rebuild(s.db.orders, key), m.taker))
    requires CommitFacts(s.db, s'.db, s.issued, key, m)
    requires s' == At(s.(db := s'.db), key, i, Persisted(r, m))
    ensures Inv(s')
  {
    hide LineOk, LedgerOk, BooksApart, IssuedOk, Rebuild, HasRow, Matched, Rested, RefsOk, Advanced;
    assert KeyOk(s, key);
    CommitAt(s, s', key, i, r, m);
    SameRefs(s, s');
    forall k: Key ensures KeyOk(s', k) {
      assert KeyOk(s, k);
      if k != key {
        OtherLine(s.db.orders, s'.db.orders, s.issued, k, RefOf(s, k), BookOf(s, k), LineOf(s, k), m.taker.id);
      }
    }
  }

  lemma SameRefs(s: State, s': State)
    requires RefsOk(s) && s'.books == s.books && s'.store == s.store
    ensures RefsOk(s')
  {
  }

  lemma CommitAt(s: State, s': State, key: Key, i: nat, r: nat, m: Matching)
    requires KeyOk(s, key) && Runs(s, key, i) && RefOf(s, key) == Some(r)
    requires BookOf(s, key).Some? && Rebuild(s'.db.orders, key) == Rested(BookOf(s, key).value, m.taker, m.left)
    requires s' == At(s.(db := s'.db), key, i, Persisted(r, m))
    ensures KeyOk(s', key)
  {
    hide Rebuild, Rested, LineOk;
    LineAdvances(s.db.orders, s.issued, key, RefOf(s, key), BookOf(s, key), LineOf(s, key), i,
                 s'.db.orders, s'.issued, RefOf(s', key), BookOf(s', key), Persisted(r, m));
  }

  // ------------------------------------------------------------ the restart

  lemma RestartKeeps(s: State, warm: seq<Key>)
    requires Inv(s) && Can(s, Restart(warm))
    ensures Inv(Next(s, Restart(warm)))
  {
    hide LedgerOk, BooksApart, IssuedOk, Rebuild, StageOk;
    var s' := Next(s, Restart(warm));
    forall key: Key ensures KeyOk(s', key) {
      assert LineOf(s', key) == Line([], []);
    }
  }

  // ---------------------------------------------------------- whole runs

  lemma EmptyDatabase()
    ensures LedgerOk(INITIAL.db)
    ensures forall key: Key :: Rebuild([], key) == Book([], [])
  {
    var db := INITIAL.db;
    forall m, user ensures PositionOk(db, m, user) {
      assert InMarket(db.trades, m) == [];
    }
  }

  lemma InitiallyOk()
    ensures Inv(INITIAL)
  {
    EmptyDatabase();
    hide LedgerOk, Rebuild;
    forall key: Key ensures KeyOk(INITIAL, key) {
      assert LineOf(INITIAL, key) == Line([], []);
    }
  }

  lemma StepKeeps(s: State, e: Event)
    requires Inv(s) && Can(s, e)
    ensures Inv(Next(s, e))
  {
    hide Inv, Can, Next;
    match e
    case Arrive(input) => ArriveKeeps(s, input);
    case Begin(key, i) => BeginKeeps(s, key, i);
    case ReadRows(key, i) => ReadKeeps(s, key, i);
    case ReadFails(key, i) => FailedReadKeeps(s, key, i);
    case Hydrate(key, i) => HydrateKeeps(s, key, i);
    case Place(key, i, id, timestamp) => PlaceKeeps(s, key, i, id, timestamp);
    case Commit(key, i) => CommitKeeps(s, key, i);
    case Abort(key, i) => AbortKeeps(s, key, i);
    case LoseReply(key, i) => LostReplyKeeps(s, key, i);
    case Reject(key, i) => RejectKeeps(s, key, i);
    case Resolve(key, i) => ResolveKeeps(s, key, i);
    case AuditEnds(key, i, failed) => AuditKeeps(s, key, i, failed);
    case Restart(warm) => RestartKeeps(s, warm);
  }

  lemma {:induction false} InvariantOfRuns(events: seq<Event>)
    requires Run(events).Some?
    ensures Inv(Run(events).value)
    decreases |events|
  {
    hide Inv, Can, Next;
    if events == [] {
      InitiallyOk();
    } else {
      var earlier := events[..|events| - 1];
      InvariantOfRuns(earlier);
      StepKeeps(Run(earlier).value, events[|events| - 1]);
    }
  }

  /** In every interleaving, with transactions that fail or that commit without telling, a cached
      book whose mutex is free is the book that would be rebuilt from the database. */
  lemma CachedBooksAreCoherent(events: seq<Event>, key: Key)
    requires Run(events).Some?
    ensures var s := Run(events).value;
      Free(LineOf(s, key)) && key in s.books ==>
        s.books[key] < |s.store| && s.store[s.books[key]] == Rebuild(s.db.orders, key)
  {
    InvariantOfRuns(events);
    var s := Run(events).value;
    hide Run, LedgerOk, BooksApart, IssuedOk, StageOk, Queue, Rebuild;
    assert KeyOk(s, key);
  }

  /** Two calls of one book are never inside its critical section together. */
  lemma OneCallPerBook(events: seq<Event>, key: Key, i: nat, j: nat)
    requires Run(events).Some?
    requires Runs(Run(events).value, key, i) && Runs(Run(events).value, key, j)
    ensures i == j
  {
    InvariantOfRuns(events);
    var s := Run(events).value;
    hide Run, LedgerOk, BooksApart, IssuedOk, StageOk, RefsOk, Coherent;
    assert KeyOk(s, key);
  }

  /** The list names everyone who has a position in the market, nobody twice. */
  ghost predicate NamesAll(users: seq<string>, positions: Positions, marketId: string) {
    NoDuplicates(users) && forall u :: (marketId, u) in positions ==> u in users
  }

  /** In every reachable database each order row accounts for its trades, each position is the
      signed sum of its user's trades, and every market balances, although both books of a market
      write the same positions. */
  lemma LedgerIsConserved(events: seq<Event>, marketId: string, users: seq<string>)
    requires Run(events).Some?
    ensures var db := Run(events).value.db;
      && (forall r :: r in db.orders ==>
            0 <= r.filledQuantity <= r.quantity && r.filledQuantity == OrderFill(db.trades, r.id))
      && (forall r :: r in db.orders ==> (r.status == OPEN <==> r.filledQuantity == 0))
      && (forall r :: r in db.orders ==> (r.status == PARTIALLY_FILLED <==> 0 < r.filledQuantity < r.quantity))
      && (forall r :: r in db.orders ==> (r.status == FILLED <==> r.filledQuantity == r.quantity))
      && (forall u :: (marketId, u) in db.positions ==>
           db.positions[(marketId, u)] == NetPosition(InMarket(db.trades, marketId), u))
      && (NamesAll(users, db.positions, marketId) ==> Total(db.positions, marketId, users) == Position(0, 0, 0))
  {
    InvariantOfRuns(events);
    var db := Run(events).value.db;
    hide Run, BooksApart, IssuedOk, RefsOk, KeyOk, StatusOf, OrderFill, NoUnderscore, TradeOk, UniqueTrades,
         DistinctRows, NetPosition,
         InMarket, Total;
    assert LedgerOk(db);
    forall r | r in db.orders
      ensures 0 <= r.filledQuantity <= r.quantity && r.filledQuantity == OrderFill(db.trades, r.id)
      ensures r.status == OPEN <==> r.filledQuantity == 0
      ensures r.status == PARTIALLY_FILLED <==> 0 < r.filledQuantity < r.quantity
      ensures r.status == FILLED <==> r.filledQuantity == r.quantity
    {
      assert RowOk(r, db.trades);
    }
    forall u | (marketId, u) in db.positions
      ensures db.positions[(marketId, u)] == NetPosition(InMarket(db.trades, marketId), u)
    {
      assert PositionOk(db, marketId, u);
    }
    if NamesAll(users, db.positions, marketId) {
      PositionsBalance(db, marketId, users);
    }
  }

  /** In every reachable state the book of every key is uncrossed and no user rests on both sides of
      it, and no trade has one user on both sides. */
  lemma NoCrossNoSelfTrade(events: seq<Event>, key: Key)
    requires Run(events).Some?
    ensures var s := Run(events).value;
      && Uncrossed(Rebuild(s.db.orders, key)) && OneSided(Rebuild(s.db.orders, key))
      && (Free(LineOf(s, key)) && BookOf(s, key).Some? ==>
           Uncrossed(BookOf(s, key).value) && OneSided(BookOf(s, key).value))
      && (forall t :: t in s.db.trades ==> t.buyerAddress != t.sellerAddress)
  {
    InvariantOfRuns(events);
    CachedBooksAreCoherent(events, key);
    var s := Run(events).value;
    hide Run, KeyOk, RowOk, PositionOk, UniqueTrades, DistinctRows, IssuedOk, RefsOk, Rebuild, Uncrossed, OneSided,
         Party;
    forall t | t in s.db.trades ensures t.buyerAddress != t.sellerAddress {
      assert TradeOk(t, s.db.orders);
    }
  }

  /** In every reachable database each trade is between an order to sell and an order to buy of its two users, within
      both limits, at the limit of the one that was placed first. */
  lemma TradesAreFair(events: seq<Event>, t: Trade)
    requires Run(events).Some? && t in Run(events).value.db.trades
    ensures var rows := Run(events).value.db.orders;
      && t.quantity > 0
      && (exists r :: r in rows && r.id == t.buyOrderId && r.side == BUY && r.userAddress == t.buyerAddress &&
           r.marketId == t.marketId && r.outcome == t.outcome && t.price <= r.price)
      && (exists r :: r in rows && r.id == t.sellOrderId && r.side == SELL && r.userAddress == t.sellerAddress &&
           r.marketId == t.marketId && r.outcome == t.outcome && r.price <= t.price)
      && (exists i, j :: 0 <= i < j < |rows| && {rows[i].id, rows[j].id} == {t.buyOrderId, t.sellOrderId}
           && t.price == rows[i].price)
  {
    InvariantOfRuns(events);
    var db := Run(events).value.db;
    assert LedgerOk(db);
    hide Run, Inv, RowOk, PositionOk, UniqueTrades, DistinctRows;
    assert TradeOk(t, db.orders);
    hide LedgerOk;
    var i, j :| 0 <= i < j < |db.orders| && PairOf(db.orders[i], db.orders[j], t) && t.price == db.orders[i].price;
    assert {db.orders[i].id, db.orders[j].id} == {t.buyOrderId, t.sellOrderId};
  }

  /** All trade ids of a run are distinct, and a commit writes a row for each of its trades. */
  lemma EveryTradeIsARow(events: seq<Event>, key: Key, i: nat)
    requires Run(events).Some?
    ensures var s := Run(events).value;
      && UniqueTrades(s.db.trades)
      && (Can(s, Commit(key, i)) ==>
            Next(s, Commit(key, i)).db.trades == s.db.trades + StageOf(s, key, i).matching.trades)
  {
    InvariantOfRuns(events);
    var s := Run(events).value;
    hide Run, BooksApart, IssuedOk, RefsOk, LineOk, Rebuild, HasOpposite, HasRow, NoUnderscore, TradesOf, LeftOf,
         Committed, Commits;
    LedgerTrades(s.db);
    hide LedgerOk;
    if Can(s, Commit(key, i)) {
      assert KeyOk(s, key);
      RunningStage(s, key, i);
      var m := StageOf(s, key, i).matching;
      assert Placed(s.db, m.taker);
      CommitKeepsLedger(s.db, m.taker, m.timestamp);
    }
  }

  /** A transaction under way can always commit: no maker is missing and the order id is new. */
  lemma TransactionsCanCommit(events: seq<Event>, key: Key, i: nat)
    requires Run(events).Some?
    requires var s := Run(events).value; Runs(s, key, i) && StageOf(s, key, i).Persisting?
    ensures Can(Run(events).value, Commit(key, i))
  {
    InvariantOfRuns(events);
    var s := Run(events).value;
    hide Run, BooksApart, IssuedOk, RefsOk, LineOk, Rebuild, HasOpposite, HasRow, NoUnderscore, TradesOf, LeftOf,
         LedgerOk, MakersFound;
    assert KeyOk(s, key);
    RunningStage(s, key, i);
    var m := StageOf(s, key, i).matching;
    assert Placed(s.db, m.taker);
    MakersAreFound(s.db, m.taker, m.timestamp);
  }
}
