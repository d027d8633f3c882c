/** Fetching the events of a window of ledgers page by page, while the chain goes on growing. */
module EventFetcher {
  import opened Domain

  datatype ChainEvent = ChainEvent(id: string, contractId: string, ledger: nat, value: string)

  datatype FetchError = PageFailed

  datatype Fetched = Fetched(events: seq<ChainEvent>, latestLedger: nat)

  /** What the node answers: up to limit events from a position of the log, as far as the latest ledger. */
  datatype PageResponse = PageResponse(events: seq<ChainEvent>, latestLedger: nat)

  /** The log of the contract is in ledger order. */
  ghost predicate LedgerOrder(log: seq<ChainEvent>) {
    forall i, j :: 0 <= i < j < |log| ==> log[i].ledger <= log[j].ledger
  }

  /** The events of these ledgers, in order. */
  function Between(log: seq<ChainEvent>, startLedger: nat, endLedger: nat): seq<ChainEvent> {
    if log == [] then []
    else
      var e := log[|log| - 1];
      Between(log[..|log| - 1], startLedger, endLedger) + (if startLedger <= e.ledger <= endLedger then [e] else [])
  }

  /** How many events come before this ledger. */
  function Below(log: seq<ChainEvent>, ledger: nat): (n: nat)
    ensures n <= |log|
    ensures forall i :: 0 <= i < n ==> log[i].ledger < ledger
    ensures n < |log| ==> log[n].ledger >= ledger
  {
    if log == [] || log[0].ledger >= ledger then 0 else 1 + Below(log[1..], ledger)
  }

  /** One request: from the cursor, or from the first event of the start ledger. */
  function GetEvents(log: seq<ChainEvent>, startLedger: nat, cursor: Option<nat>, limit: nat,
                     latestLedger: nat): (r: PageResponse)
    requires cursor.Some? ==> cursor.value <= |log|
    ensures |r.events| <= limit
  {
    var from := if cursor.Some? then cursor.value else Below(log, startLedger);
    var visible := Below(log, latestLedger + 1);
    var to := if visible < from then from else if visible < from + limit then visible else from + limit;
    PageResponse(log[from..to], latestLedger)
  }

  lemma {:induction false} BetweenConcat(a: seq<ChainEvent>, b: seq<ChainEvent>, startLedger: nat, endLedger: nat)
    ensures Between(a + b, startLedger, endLedger) ==
      Between(a, startLedger, endLedger) + Between(b, startLedger, endLedger)
  {
    if b == [] {
      assert a + b == a;
    } else {
      var b', e := b[..|b| - 1], b[|b| - 1];
      assert (a + b)[..|a + b| - 1] == a + b';
      BetweenConcat(a, b', startLedger, endLedger);
    }
  }

  lemma {:induction false} BetweenNone(s: seq<ChainEvent>, startLedger: nat, endLedger: nat)
    requires forall e :: e in s ==> !(startLedger <= e.ledger <= endLedger)
    ensures Between(s, startLedger, endLedger) == []
  {
    if s != [] {
      BetweenNone(s[..|s| - 1], startLedger, endLedger);
    }
  }

  lemma {:induction false} BetweenMembers(s: seq<ChainEvent>, startLedger: nat, endLedger: nat)
    ensures forall e :: e in Between(s, startLedger, endLedger) <==> e in s && startLedger <= e.ledger <= endLedger
  {
    if s != [] {
      var t, e := s[..|s| - 1], s[|s| - 1];
      assert s == t + [e];
      BetweenMembers(t, startLedger, endLedger);
    }
  }

  /** Where the loop stands: everything before this position was looked at, and nothing there is newer
      than the node's latest ledger. */
  ghost predicate Looked(log: seq<ChainEvent>, startLedger: nat, endLedger: nat, at: nat, events: seq<ChainEvent>,
                         latestLedger: nat) {
    && at <= |log| && events == Between(log[..at], startLedger, endLedger)
    && forall i :: 0 <= i < at ==> log[i].ledger < startLedger || log[i].ledger <= latestLedger
  }

  lemma LookedStart(log: seq<ChainEvent>, startLedger: nat, endLedger: nat, latestLedger: nat)
    ensures Looked(log, startLedger, endLedger, Below(log, startLedger), [], latestLedger)
  {
    var n := Below(log, startLedger);
    forall e | e in log[..n] ensures e.ledger < startLedger {
      var i :| 0 <= i < n && log[i] == e;
    }
    BetweenNone(log[..n], startLedger, endLedger);
  }

  lemma LookedLater(log: seq<ChainEvent>, startLedger: nat, endLedger: nat, at: nat, events: seq<ChainEvent>, a: nat,
                    b: nat)
    requires Looked(log, startLedger, endLedger, at, events, a) && a <= b
    ensures Looked(log, startLedger, endLedger, at, events, b)
  {
  }

  lemma LookedNext(log: seq<ChainEvent>, startLedger: nat, endLedger: nat, at: nat, to: nat, events: seq<ChainEvent>,
                   latestLedger: nat)
    requires Looked(log, startLedger, endLedger, at, events, latestLedger) && at <= to <= |log|
    requires forall i :: at <= i < to ==> log[i].ledger <= latestLedger
    ensures Looked(log, startLedger, endLedger, to, events + Between(log[at..to], startLedger, endLedger), latestLedger)
  {
    assert log[..to] == log[..at] + log[at..to];
    BetweenConcat(log[..at], log[at..to], startLedger, endLedger);
  }

  /** The loop may stop: what it did not look at is beyond the window or beyond the latest ledger. */
  lemma LookedAll(log: seq<ChainEvent>, startLedger: nat, endLedger: nat, at: nat, latestLedger: nat,
                  events: seq<ChainEvent>)
    requires Looked(log, startLedger, endLedger, at, events, latestLedger)
    requires forall i :: at <= i < |log| ==> log[i].ledger > Min(endLedger, latestLedger)
    ensures events == Between(log, startLedger, Min(endLedger, latestLedger))
  {
    var end := Min(endLedger, latestLedger);
    DoneAndRest(log, startLedger, at, latestLedger, end);
    hide Between;
    BetweenConcat(log[..at], log[at..], startLedger, end);
    BetweenNone(log[at..], startLedger, end);
    BetweenCut(log[..at], startLedger, endLedger, latestLedger);
    AddNothing(Between(log[..at], startLedger, end));
  }

  lemma AddNothing(s: seq<ChainEvent>)
    ensures s + [] == s
  {
  }

  lemma DoneAndRest(log: seq<ChainEvent>, startLedger: nat, at: nat, latestLedger: nat, end: nat)
    requires at <= |log|
    requires forall i :: 0 <= i < at ==> log[i].ledger < startLedger || log[i].ledger <= latestLedger
    requires forall i :: at <= i < |log| ==> log[i].ledger > end
    ensures log[..at] + log[at..] == log
    ensures forall e :: e in log[..at] ==> e.ledger < startLedger || e.ledger <= latestLedger
    ensures forall e :: e in log[at..] ==> e.ledger > end
  {
    forall e | e in log[at..] ensures e.ledger > end {
      var i :| 0 <= i < |log[at..]| && log[at..][i] == e;
      assert e == log[at + i];
    }
  }

  lemma {:induction false} BetweenCut(s: seq<ChainEvent>, startLedger: nat, endLedger: nat, latestLedger: nat)
    requires forall e :: e in s ==> e.ledger < startLedger || e.ledger <= latestLedger
    ensures Between(s, startLedger, endLedger) == Between(s, startLedger, Min(endLedger, latestLedger))
  {
    if s != [] {
      assert s[|s| - 1] in s;
      BetweenCut(s[..|s| - 1], startLedger, endLedger, latestLedger);
    }
  }

  ghost predicate At(log: seq<ChainEvent>, startLedger: nat, cursor: Option<nat>, at: nat) {
    at <= |log| && (cursor == Some(at) || (cursor == None && at == Below(log, startLedger)))
  }

  /** What a page holds: the next events of the log, all that there are if it is not full. */
  lemma PageHolds(log: seq<ChainEvent>, startLedger: nat, cursor: Option<nat>, limit: nat, latestLedger: nat, at: nat)
    requires LedgerOrder(log) && At(log, startLedger, cursor, at)
    ensures var n := |GetEvents(log, startLedger, cursor, limit, latestLedger).events|;
      && at + n <= |log| && GetEvents(log, startLedger, cursor, limit, latestLedger).events == log[at..at + n]
      && (forall i :: at <= i < at + n ==> log[i].ledger <= latestLedger)
      && (n < limit ==> forall i :: at + n <= i < |log| ==> log[i].ledger > latestLedger)
  {
    var visible := Below(log, latestLedger + 1);
    if visible < |log| {
      forall i | visible <= i < |log| ensures log[i].ledger > latestLedger {
        assert log[visible].ledger <= log[i].ledger;
      }
    }
  }

  /** One page: the loop goes on behind it, or it has everything. */
  lemma PageLooked(log: seq<ChainEvent>, startLedger: nat, endLedger: nat, limit: nat, at: nat, cursor: Option<nat>,
                   events: seq<ChainEvent>, latestLedger: nat)
    requires LedgerOrder(log) && limit > 0 && Looked(log, startLedger, endLedger, at, events, latestLedger)
    requires At(log, startLedger, cursor, at)
    ensures var page := GetEvents(log, startLedger, cursor, limit, latestLedger);
      var events' := events + Between(page.events, startLedger, endLedger);
      && at + |page.events| <= |log|
      && Looked(log, startLedger, endLedger, at + |page.events|, events', latestLedger)
      && (|page.events| < limit || page.events[|page.events| - 1].ledger > endLedger ==>
            events' == Between(log, startLedger, Min(endLedger, latestLedger)))
  {
    hide GetEvents, Looked, Between;
    var page := GetEvents(log, startLedger, cursor, limit, latestLedger);
    var to := at + |page.events|;
    PageHolds(log, startLedger, cursor, limit, latestLedger, at);
    LookedNext(log, startLedger, endLedger, at, to, events, latestLedger);
    if |page.events| < limit || page.events[|page.events| - 1].ledger > endLedger {
      forall i | to <= i < |log| ensures log[i].ledger > Min(endLedger, latestLedger) {
        if |page.events| >= limit {
          assert log[to - 1].ledger <= log[i].ledger;
        }
      }
      LookedAll(log, startLedger, endLedger, to, latestLedger, events + Between(page.events, startLedger, endLedger));
    }
  }

  /** The body of the loop: take in one page and see whether another one is needed. */
  method TakePage(log: seq<ChainEvent>, startLedger: nat, endLedger: nat, pageLimit: nat, latestLedger: nat,
                  cursor: Option<nat>, allEvents: seq<ChainEvent>, ghost at: nat)
    returns (events: seq<ChainEvent>, next: Option<nat>)
    requires LedgerOrder(log) && pageLimit > 0 && At(log, startLedger, cursor, at)
    requires Looked(log, startLedger, endLedger, at, allEvents, latestLedger)
    ensures next.None? ==> events == Between(log, startLedger, Min(endLedger, latestLedger))
    ensures next.Some? ==>
      at < next.value <= |log| && Looked(log, startLedger, endLedger, next.value, events, latestLedger)
  {
    hide Looked, LedgerOrder, Between, GetEvents;
    var page := GetEvents(log, startLedger, cursor, pageLimit, latestLedger);
    PageLooked(log, startLedger, endLedger, pageLimit, at, cursor, allEvents, latestLedger);
    events := allEvents + Between(page.events, startLedger, endLedger);
    var fullPage := |page.events| >= pageLimit;
    if fullPage && page.events[|page.events| - 1].ledger <= endLedger {
      next := Some((if cursor.Some? then cursor.value else Below(log, startLedger)) + |page.events|);
    } else {
      next := None;
    }
  }

  /** The node's latest ledger never goes back. */
  ghost predicate Advancing(latest: nat -> nat) {
    forall i: nat, j: nat :: i <= j ==> latest(i) <= latest(j)
  }

  /** The events of the window as far as the chain has come, in order and once each. The node's latest
      ledger at each request, and whether the request fails for good, are given; a failed request fails
      the fetch. */
  method FetchByLedgerWindow(log: seq<ChainEvent>, startLedger: nat, endLedger: nat, pageLimit: nat,
                             latest: nat -> nat, fails: nat -> bool)
    returns (r: Result<Fetched, FetchError>, requests: nat)
    requires LedgerOrder(log) && pageLimit > 0 && Advancing(latest)
    ensures requests > 0
    ensures r.Ok? ==> r.value.latestLedger == latest(requests - 1)
    ensures r.Ok? ==> r.value.events == Between(log, startLedger, Min(endLedger, r.value.latestLedger))
    ensures r.Ok? <==> !fails(requests - 1)
    ensures forall i :: 0 <= i < requests - 1 ==> !fails(i)
  {
    var allEvents: seq<ChainEvent>, cursor: Option<nat> := [], None;
    ghost var at: nat := Below(log, startLedger);
    hide Looked, LedgerOrder, Between, Advancing, At;
    requests := 0;
    var more := true;
    FirstRequest(log, startLedger, endLedger, latest);
    hide Underway;
    while more && !fails(requests)
      invariant forall i :: 0 <= i < requests ==> !fails(i)
      invariant Underway(log, startLedger, endLedger, at, cursor, allEvents, latest, requests, more)
      decreases more, |log| - at
    {
      UnderwayMore(log, startLedger, endLedger, at, cursor, allEvents, latest, requests);
      allEvents, cursor := TakePage(log, startLedger, endLedger, pageLimit, latest(requests), cursor, allEvents, at);
      more := cursor.Some?;
      at := if more then cursor.value else at;
      NextRequest(log, startLedger, endLedger, at, cursor, allEvents, latest, requests);
      requests := requests + 1;
    }
    if more {
      requests := requests + 1;
      r := Err(PageFailed);
    } else {
      UnderwayDone(log, startLedger, endLedger, at, cursor, allEvents, latest, requests);
      r := Ok(Fetched(allEvents, latest(requests - 1)));
    }
  }

  /** Where the loop stands before its next request, or that it has everything. */
  ghost predicate Underway(log: seq<ChainEvent>, startLedger: nat, endLedger: nat, at: nat, cursor: Option<nat>,
                           events: seq<ChainEvent>, latest: nat -> nat, requests: nat, more: bool)
  {
    if more then At(log, startLedger, cursor, at) && Looked(log, startLedger, endLedger, at, events, latest(requests))
    else requests > 0 && events == Between(log, startLedger, Min(endLedger, latest(requests - 1)))
  }

  lemma FirstRequest(log: seq<ChainEvent>, startLedger: nat, endLedger: nat, latest: nat -> nat)
    requires LedgerOrder(log)
    ensures Underway(log, startLedger, endLedger, Below(log, startLedger), None, [], latest, 0, true)
  {
    LookedStart(log, startLedger, endLedger, latest(0));
  }

  lemma UnderwayMore(log: seq<ChainEvent>, startLedger: nat, endLedger: nat, at: nat, cursor: Option<nat>,
                     events: seq<ChainEvent>, latest: nat -> nat, requests: nat)
    requires Underway(log, startLedger, endLedger, at, cursor, events, latest, requests, true)
    ensures at <= |log| && At(log, startLedger, cursor, at)
    ensures Looked(log, startLedger, endLedger, at, events, latest(requests))
  {
  }

  lemma UnderwayDone(log: seq<ChainEvent>, startLedger: nat, endLedger: nat, at: nat, cursor: Option<nat>,
                     events: seq<ChainEvent>, latest: nat -> nat, requests: nat)
    requires Underway(log, startLedger, endLedger, at, cursor, events, latest, requests, false)
    ensures requests > 0 && events == Between(log, startLedger, Min(endLedger, latest(requests - 1)))
  {
  }

  /** After a page. */
  lemma NextRequest(log: seq<ChainEvent>, startLedger: nat, endLedger: nat, at: nat, cursor: Option<nat>,
                    events: seq<ChainEvent>, latest: nat -> nat, n: nat)
    requires Advancing(latest)
    requires cursor.None? ==> events == Between(log, startLedger, Min(endLedger, latest(n)))
    requires cursor.Some? ==>
      at == cursor.value <= |log| && Looked(log, startLedger, endLedger, at, events, latest(n))
    ensures Underway(log, startLedger, endLedger, at, cursor, events, latest, n + 1, cursor.Some?)
  {
    if cursor.Some? {
      LookedLater(log, startLedger, endLedger, at, events, latest(n), latest(n + 1));
    }
  }
}
