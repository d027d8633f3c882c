/** The fixed-window rate limiter: per tier and per client one window, opened by a request that finds
    none open. */
module RateLimiter {
  import opened Domain

  datatype WindowEntry = WindowEntry(count: int, resetAt: int)

  datatype Decision = Admit(remaining: int) | Refuse(retryAfter: int)

  type Store = map<string, WindowEntry>

  /** Seconds, rounded up. */
  function Seconds(ms: int): int {
    (ms + 999) / 1000
  }

  /** One request of one client. */
  function Step(entry: Option<WindowEntry>, now: int, windowMs: int, maxRequests: int): (WindowEntry, Decision) {
    if entry.None? || now >= entry.value.resetAt then
      (WindowEntry(1, now + windowMs), Admit(Max(0, maxRequests - 1)))
    else
      var count := entry.value.count + 1;
      (WindowEntry(count, entry.value.resetAt),
       if count > maxRequests then Refuse(Seconds(entry.value.resetAt - now)) else Admit(Max(0, maxRequests - count)))
  }

  class Limiter {
    var stores: map<string, Store>

    constructor ()
      ensures stores == map[]
    {
      stores := map[];
    }

    function EntryOf(tier: string, key: string): Option<WindowEntry>
      reads this
    {
      if tier in stores && key in stores[tier] then Some(stores[tier][key]) else None
    }

    method GetStore(tier: string) returns (store: Store)
      modifies this
      ensures tier in stores && stores[tier] == store
      ensures stores == if tier in old(stores) then old(stores) else old(stores)[tier := map[]]
    {
      if tier !in stores {
        stores := stores[tier := map[]];
      }
      store := stores[tier];
    }

    /** Decide about one request; no other client and no other tier is affected. */
    method ApplyLimit(tier: string, key: string, now: int, windowMs: int, maxRequests: int) returns (d: Decision)
      modifies this
      ensures (EntryOf(tier, key), d) == (Some(Step(old(EntryOf(tier, key)), now, windowMs, maxRequests).0),
                                          Step(old(EntryOf(tier, key)), now, windowMs, maxRequests).1)
      ensures forall t, k :: t != tier || k != key ==> EntryOf(t, k) == old(EntryOf(t, k))
    {
      var store := GetStore(tier);
      if key !in store || now >= store[key].resetAt {
        var newEntry := WindowEntry(1, now + windowMs);
        stores := stores[tier := store[key := newEntry]];
        d := Admit(Max(0, maxRequests - 1));
      } else {
        var entry := store[key].(count := store[key].count + 1);
        stores := stores[tier := store[key := entry]];
        if entry.count > maxRequests {
          d := Refuse(Seconds(entry.resetAt - now));
        } else {
          d := Admit(Max(0, maxRequests - entry.count));
        }
      }
    }
  }

  // ------------------------------------------------------------ runs of one client

  /** The window after requests at these times. */
  function After(times: seq<int>, windowMs: int, maxRequests: int): Option<WindowEntry> {
    if times == [] then None
    else Some(Step(After(times[..|times| - 1], windowMs, maxRequests), times[|times| - 1], windowMs, maxRequests).0)
  }

  /** The last of these requests is admitted. */
  predicate LastAdmitted(times: seq<int>, windowMs: int, maxRequests: int)
    requires times != []
  {
    Step(After(times[..|times| - 1], windowMs, maxRequests), times[|times| - 1], windowMs, maxRequests).1.Admit?
  }

  /** How many requests were admitted from this time on. */
  function AdmittedSince(times: seq<int>, windowMs: int, maxRequests: int, from: int): nat {
    if times == [] then 0
    else
      AdmittedSince(times[..|times| - 1], windowMs, maxRequests, from)
        + (if LastAdmitted(times, windowMs, maxRequests) && times[|times| - 1] >= from then 1 else 0)
  }

  /** How many requests were admitted in the window that resets at this time. */
  function AdmittedInWindow(times: seq<int>, windowMs: int, maxRequests: int, resetAt: int): nat {
    if times == [] then 0
    else
      AdmittedInWindow(times[..|times| - 1], windowMs, maxRequests, resetAt)
        + (if LastAdmitted(times, windowMs, maxRequests) && After(times, windowMs, maxRequests).value.resetAt == resetAt
           then 1 else 0)
  }

  ghost predicate Nondecreasing(times: seq<int>) {
    forall i, j :: 0 <= i < j < |times| ==> times[i] <= times[j]
  }

  /** No window admits more than the limit (and a window always admits the request that opens it). */
  lemma {:induction false} WindowBound(times: seq<int>, windowMs: int, maxRequests: int, resetAt: int)
    requires windowMs > 0
    ensures AdmittedInWindow(times, windowMs, maxRequests, resetAt) <= Max(1, maxRequests)
    ensures var e := After(times, windowMs, maxRequests);
      && (e.None? ==> AdmittedInWindow(times, windowMs, maxRequests, resetAt) == 0)
      && (e.Some? ==> e.value.count >= 1)
      && (e.Some? && resetAt > e.value.resetAt ==> AdmittedInWindow(times, windowMs, maxRequests, resetAt) == 0)
      && (e.Some? && resetAt == e.value.resetAt ==>
            AdmittedInWindow(times, windowMs, maxRequests, resetAt) == Min(e.value.count, Max(1, maxRequests)))
  {
    if times != [] {
      WindowBound(times[..|times| - 1], windowMs, maxRequests, resetAt);
    }
  }

  /** The requests of a run that fall before the end of an interval of one window length: those
      admitted since its start are those of the window that was open then, and of at most one more. */
  lemma {:induction false} IntervalStep(times: seq<int>, windowMs: int, maxRequests: int, from: int)
    requires windowMs > 0 && Nondecreasing(times)
    requires forall t :: t in times ==> t < from + windowMs
    ensures var e, n := After(times, windowMs, maxRequests), AdmittedSince(times, windowMs, maxRequests, from);
      var m := Max(1, maxRequests);
      && (e.None? ==> n == 0)
      && (e.Some? ==> e.value.count >= 1)
      && (times != [] && times[|times| - 1] < from ==> n == 0 && e.value.resetAt - windowMs < from)
      && (e.Some? && e.value.resetAt - windowMs < from ==> n <= Min(e.value.count, m) - 1)
      && (e.Some? && e.value.resetAt - windowMs >= from ==> n <= m - 1 + Min(e.value.count, m))
  {
    if times != [] {
      var before := times[..|times| - 1];
      assert times[|times| - 1] in times && forall t :: t in before ==> t in times;
      IntervalStep(before, windowMs, maxRequests, from);
    }
  }

  /** While a window is open a request is admitted exactly if the window has admitted fewer than the limit, and the
      answer says how many it will still admit. */
  lemma NextAdmittedIff(times: seq<int>, now: int, windowMs: int, maxRequests: int)
    requires windowMs > 0 && times != [] && now < After(times, windowMs, maxRequests).value.resetAt
    ensures var resetAt := After(times, windowMs, maxRequests).value.resetAt;
      var admitted := AdmittedInWindow(times, windowMs, maxRequests, resetAt);
      var d := Step(After(times, windowMs, maxRequests), now, windowMs, maxRequests).1;
      && (LastAdmitted(times + [now], windowMs, maxRequests) <==> admitted < maxRequests)
      && (d.Admit? <==> admitted < maxRequests)
      && (d.Admit? ==> d.remaining == maxRequests - (admitted + 1))
  {
    var resetAt := After(times, windowMs, maxRequests).value.resetAt;
    WindowBound(times, windowMs, maxRequests, resetAt);
    AdmittedPush(times, now, windowMs, maxRequests, resetAt);
    hide After, AdmittedInWindow, LastAdmitted;
  }

  /** A request that finds no open window opens one, which it is the first to use. */
  lemma OpensWindow(times: seq<int>, now: int, windowMs: int, maxRequests: int)
    requires windowMs > 0 && (times == [] || now >= After(times, windowMs, maxRequests).value.resetAt)
    ensures LastAdmitted(times + [now], windowMs, maxRequests)
    ensures After(times + [now], windowMs, maxRequests).value.resetAt == now + windowMs
    ensures AdmittedInWindow(times + [now], windowMs, maxRequests, now + windowMs) == 1
    ensures Step(After(times, windowMs, maxRequests), now, windowMs, maxRequests).1 == Admit(Max(0, maxRequests - 1))
  {
    hide After, AdmittedInWindow, LastAdmitted;
    WindowBound(times, windowMs, maxRequests, now + windowMs);
    NoWindow(windowMs, maxRequests);
    AdmittedPush(times, now, windowMs, maxRequests, now + windowMs);
  }

  lemma NoWindow(windowMs: int, maxRequests: int)
    ensures After([], windowMs, maxRequests) == None
  {
  }

  lemma AdmittedPush(times: seq<int>, now: int, windowMs: int, maxRequests: int, resetAt: int)
    ensures var (e, d) := Step(After(times, windowMs, maxRequests), now, windowMs, maxRequests);
      && After(times + [now], windowMs, maxRequests) == Some(e)
      && (LastAdmitted(times + [now], windowMs, maxRequests) <==> d.Admit?)
      && AdmittedInWindow(times + [now], windowMs, maxRequests, resetAt) ==
         AdmittedInWindow(times, windowMs, maxRequests, resetAt) + (if d.Admit? && e.resetAt == resetAt then 1 else 0)
  {
    assert (times + [now])[..|times|] == times;
    hide Step;
  }

  /** In any run, any half-open interval of one window length sees fewer than twice the limit admitted: the request
      that opened the earlier window is before the interval. */
  lemma {:induction false} IntervalBound(times: seq<int>, windowMs: int, maxRequests: int, from: int)
    requires windowMs > 0 && Nondecreasing(times)
    ensures var inInterval := AdmittedSince(times, windowMs, maxRequests, from)
        - AdmittedSince(times, windowMs, maxRequests, from + windowMs);
      inInterval <= 2 * Max(1, maxRequests) - 1
    decreases |times|
  {
    if times != [] && times[|times| - 1] >= from + windowMs {
      IntervalBound(times[..|times| - 1], windowMs, maxRequests, from);
    } else {
      forall t | t in times ensures t < from + windowMs {
        var i :| 0 <= i < |times| && times[i] == t;
        assert i < |times| - 1 ==> times[i] <= times[|times| - 1];
      }
      IntervalStep(times, windowMs, maxRequests, from);
    }
  }

  /** And that many can be admitted: with a limit of two, three within ten milliseconds. */
  lemma BoundIsReached()
    ensures var times := [0, 9, 10, 10];
      && Nondecreasing(times)
      && AdmittedSince(times, 10, 2, 1) - AdmittedSince(times, 10, 2, 11) == 2 * 2 - 1
  {
    var times := [0, 9, 10, 10];
    assert times[..3] == [0, 9, 10] && times[..3][..2] == [0, 9] && times[..3][..2][..1] == [0];
    assert times[..3][..2][..1][..0] == [];
    assert After([0], 10, 2) == Some(WindowEntry(1, 10));
    assert After([0, 9], 10, 2) == Some(WindowEntry(2, 10));
    assert After([0, 9, 10], 10, 2) == Some(WindowEntry(1, 20));
    assert After(times, 10, 2) == Some(WindowEntry(2, 20));
  }

  /** A refused client that waits as long as it was told is admitted. */
  lemma RetryAfterIsEnough(entry: Option<WindowEntry>, now: int, later: int, windowMs: int, maxRequests: int)
    requires Step(entry, now, windowMs, maxRequests).1.Refuse?
    requires later >= now + 1000 * Step(entry, now, windowMs, maxRequests).1.retryAfter
    ensures Step(entry, now, windowMs, maxRequests).1.retryAfter > 0
    ensures Step(Some(Step(entry, now, windowMs, maxRequests).0), later, windowMs, maxRequests).1.Admit?
  {
  }

  /** A second less would not have been enough. */
  lemma RetryAfterIsNeeded(entry: Option<WindowEntry>, now: int, sooner: int, windowMs: int, maxRequests: int)
    requires Step(entry, now, windowMs, maxRequests).1.Refuse?
    requires sooner <= now + 1000 * (Step(entry, now, windowMs, maxRequests).1.retryAfter - 1)
    ensures Step(Some(Step(entry, now, windowMs, maxRequests).0), sooner, windowMs, maxRequests).1.Refuse?
  {
  }
}
