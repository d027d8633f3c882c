/** The promise-chain mutex: every caller waits for the promise that was the tail when it came and
    leaves a fresh promise as the new tail, which it resolves when its callback ends, whether it
    returned or threw. The promises and the tail are a class; what a run of calls can do is stated
    on the list of the callers' phases, to which the class is tied. */
module MutexChain {
  import opened Domain

  datatype Phase = Waiting | Running | Finished

  datatype Action = Enter | Start(i: nat) | Finish(i: nat, threw: bool)

  predicate Enabled(phases: seq<Phase>, a: Action) {
    match a
    case Enter => true
    case Start(i) => i < |phases| && phases[i] == Waiting && (i == 0 || phases[i - 1] == Finished)
    case Finish(i, _) => i < |phases| && phases[i] == Running
  }

  function Apply(phases: seq<Phase>, a: Action): seq<Phase>
    requires Enabled(phases, a)
  {
    match a
    case Enter => phases + [Waiting]
    case Start(i) => phases[i := Running]
    case Finish(i, _) => phases[i := Finished]
  }

  /** The phases after these actions, if they can happen in this order. */
  function Execute(actions: seq<Action>): Option<seq<Phase>> {
    if actions == [] then Some([])
    else
      var before, a := Execute(actions[..|actions| - 1]), actions[|actions| - 1];
      if before.Some? && Enabled(before.value, a) then Some(Apply(before.value, a)) else None
  }

  /** The callers whose callbacks were started, in the order of the starts. */
  function Started(actions: seq<Action>): seq<nat> {
    if actions == [] then []
    else
      var a := actions[|actions| - 1];
      Started(actions[..|actions| - 1]) + (if a.Start? then [a.i] else [])
  }

  /** Whoever is past waiting has only finished callers before it. */
  ghost predicate Queue(phases: seq<Phase>) {
    forall i, j :: 0 <= i < j < |phases| && phases[j] != Waiting ==> phases[i] == Finished
  }

  ghost predicate Served(phases: seq<Phase>, n: nat) {
    && n <= |phases|
    && (forall i :: 0 <= i < n ==> phases[i] != Waiting)
    && (forall i :: n <= i < |phases| ==> phases[i] == Waiting)
  }

  lemma {:induction false} QueueKept(actions: seq<Action>, phases: seq<Phase>)
    requires Execute(actions) == Some(phases)
    ensures Queue(phases) && Served(phases, |Started(actions)|)
    ensures forall k :: 0 <= k < |Started(actions)| ==> Started(actions)[k] == k
    decreases |actions|
  {
    if actions != [] {
      var earlier, a := actions[..|actions| - 1], actions[|actions| - 1];
      var before := Execute(earlier).value;
      QueueKept(earlier, before);
      QueueStep(before, a, |Started(earlier)|);
    }
  }

  lemma QueueStep(phases: seq<Phase>, a: Action, n: nat)
    requires Enabled(phases, a) && Queue(phases) && Served(phases, n)
    ensures a.Start? ==> a.i == n
    ensures Queue(Apply(phases, a)) && Served(Apply(phases, a), if a.Start? then n + 1 else n)
  {
    assert a.Start? ==> a.i <= n;
  }

  /** The queue order alone is kept by every action. */
  lemma QueueInductive(phases: seq<Phase>, a: Action)
    requires Queue(phases) && Enabled(phases, a)
    ensures Queue(Apply(phases, a))
  {
    var after := Apply(phases, a);
    if !a.Enter? {
      assert forall j :: a.i < j < |phases| && phases[j] != Waiting ==> phases[a.i] == Finished;
    }
  }

  /** At most one callback is running, in every interleaving of calls, starts and ends. */
  lemma MutualExclusion(actions: seq<Action>, phases: seq<Phase>, i: nat, j: nat)
    requires Execute(actions) == Some(phases)
    requires i < |phases| && j < |phases| && phases[i] == Running && phases[j] == Running
    ensures i == j
  {
    QueueKept(actions, phases);
  }

  /** Callbacks start in the order of the calls, none is skipped and none starts twice. */
  lemma FirstComeFirstServed(actions: seq<Action>, phases: seq<Phase>)
    requires Execute(actions) == Some(phases)
    ensures forall k :: 0 <= k < |Started(actions)| ==> Started(actions)[k] == k
    ensures forall i :: 0 <= i < |phases| ==> (phases[i] == Waiting <==> i !in Started(actions))
  {
    QueueKept(actions, phases);
    var n := |Started(actions)|;
    forall i | 0 <= i < |phases| ensures phases[i] == Waiting <==> i !in Started(actions) {
      if i < n {
        assert Started(actions)[i] == i;
      }
    }
  }

  function Outstanding(p: Phase): nat {
    if p == Waiting then 2 else if p == Running then 1 else 0
  }

  /** How many starts and ends lie between now and the end of caller i. */
  function Distance(phases: seq<Phase>, i: nat): nat
    requires i < |phases|
  {
    (if i == 0 then 0 else Distance(phases, i - 1)) + Outstanding(phases[i])
  }

  lemma {:induction false} DistanceChange(phases: seq<Phase>, k: nat, p: Phase, i: nat)
    requires i < |phases| && k < |phases|
    ensures Distance(phases[k := p], i) == Distance(phases, i)
      + (if k <= i then Outstanding(p) - Outstanding(phases[k]) else 0)
  {
    if i > 0 {
      DistanceChange(phases, k, p, i - 1);
    }
  }

  lemma {:induction false} DistanceSame(phases: seq<Phase>, p: Phase, i: nat)
    requires i < |phases|
    ensures Distance(phases + [p], i) == Distance(phases, i)
  {
    if i > 0 {
      DistanceSame(phases, p, i - 1);
    }
  }

  /** Nobody starves: while caller i has not finished, a start or an end is possible; every start
      and every end that happens brings caller i nearer; new calls do not push it back. */
  lemma Progress(actions: seq<Action>, phases: seq<Phase>, i: nat)
    requires Execute(actions) == Some(phases) && i < |phases| && phases[i] != Finished
    ensures Distance(phases, i) > 0
    ensures exists a: Action :: !a.Enter? && Enabled(phases, a)
    ensures forall a: Action :: Enabled(phases, a) ==>
      Distance(Apply(phases, a), i) == Distance(phases, i) - (if a.Enter? then 0 else 1)
  {
    hide Distance, Served, Execute, Started, Queue;
    QueueKept(actions, phases);
    DistancePositive(phases, i);
    SomeoneMoves(phases, |Started(actions)|, i);
    forall a: Action | Enabled(phases, a)
      ensures Distance(Apply(phases, a), i) == Distance(phases, i) - (if a.Enter? then 0 else 1)
    {
      Approach(phases, a, i);
    }
  }

  lemma SomeoneMoves(phases: seq<Phase>, n: nat, i: nat)
    requires Queue(phases) && Served(phases, n) && i < |phases| && phases[i] != Finished
    ensures exists a: Action :: !a.Enter? && Enabled(phases, a)
  {
    if n > 0 && phases[n - 1] == Running {
      assert Enabled(phases, Finish(n - 1, false));
    } else {
      assert n < |phases|;
      assert Enabled(phases, Start(n));
    }
  }

  lemma DistancePositive(phases: seq<Phase>, i: nat)
    requires i < |phases| && phases[i] != Finished
    ensures Distance(phases, i) > 0
  {
  }

  lemma Approach(phases: seq<Phase>, a: Action, i: nat)
    requires Queue(phases) && i < |phases| && phases[i] != Finished && Enabled(phases, a)
    ensures Distance(Apply(phases, a), i) == Distance(phases, i) - (if a.Enter? then 0 else 1)
  {
    if a.Enter? {
      DistanceSame(phases, Waiting, i);
    } else {
      assert a.i <= i;
      DistanceChange(phases, a.i, if a.Start? then Running else Finished, i);
    }
  }

  lemma {:induction false} PrefixExecutes(actions: seq<Action>, more: seq<Action>)
    requires Execute(actions + more).Some?
    ensures Execute(actions).Some? && |Execute(actions).value| <= |Execute(actions + more).value|
  {
    if more == [] {
      assert actions + more == actions;
    } else {
      var all := actions + more;
      assert all[..|all| - 1] == actions + more[..|more| - 1];
      PrefixExecutes(actions, more[..|more| - 1]);
    }
  }

  /** Starts and ends among these actions. */
  function Moves(actions: seq<Action>): nat {
    if actions == [] then 0 else Moves(actions[..|actions| - 1]) + (if actions[|actions| - 1].Enter? then 0 else 1)
  }

  /** A caller has finished at the latest after as many further starts and ends as its distance,
      whatever other calls arrive meanwhile. */
  lemma {:induction false} EveryCallerFinishes(actions: seq<Action>, more: seq<Action>, i: nat)
    requires Execute(actions + more).Some?
    requires Execute(actions).Some? && i < |Execute(actions).value| <= |Execute(actions + more).value|
    ensures var now, later := Execute(actions).value, Execute(actions + more).value;
      later[i] == Finished || Distance(later, i) + Moves(more) == Distance(now, i)
  {
    if more == [] {
      assert actions + more == actions;
    } else {
      var all, fewer := actions + more, more[..|more| - 1];
      assert all[..|all| - 1] == actions + fewer && all[|all| - 1] == more[|more| - 1];
      PrefixExecutes(actions, fewer);
      EveryCallerFinishes(actions, fewer, i);
      var before := Execute(actions + fewer).value;
      hide Distance, Execute;
      if before[i] != Finished {
        Progress(actions + fewer, before, i);
      }
    }
  }

  lemma ExecutePush(actions: seq<Action>, a: Action)
    requires Execute(actions).Some? && Enabled(Execute(actions).value, a)
    ensures Execute(actions + [a]) == Some(Apply(Execute(actions).value, a))
  {
    assert (actions + [a])[..|actions|] == actions;
  }

  /** Every run can go on until all its callers have finished, with as many starts and ends as there are left. */
  lemma {:induction false} AllCanFinish(actions: seq<Action>, phases: seq<Phase>) returns (more: seq<Action>)
    requires Execute(actions) == Some(phases)
    ensures Execute(actions + more) == Some(seq(|phases|, _ => Finished))
    ensures |more| == if phases == [] then 0 else Distance(phases, |phases| - 1)
    decreases if phases == [] then 0 else Distance(phases, |phases| - 1)
  {
    hide Distance, Execute, Queue, Served, Started, Apply, Enabled;
    QueueKept(actions, phases);
    if phases == [] || phases[|phases| - 1] == Finished {
      more := [];
      AllFinished(actions, phases);
    } else {
      Progress(actions, phases, |phases| - 1);
      var a: Action :| !a.Enter? && Enabled(phases, a);
      ExecutePush(actions, a);
      SameCallers(phases, a);
      var rest := AllCanFinish(actions + [a], Apply(phases, a));
      more := [a] + rest;
      assert actions + more == actions + [a] + rest;
    }
  }

  lemma SameCallers(phases: seq<Phase>, a: Action)
    requires !a.Enter? && Enabled(phases, a)
    ensures |Apply(phases, a)| == |phases|
  {
  }

  lemma AllFinished(actions: seq<Action>, phases: seq<Phase>)
    requires Execute(actions) == Some(phases) && Queue(phases)
    requires phases == [] || phases[|phases| - 1] == Finished
    ensures Execute(actions + []) == Some(seq(|phases|, _ => Finished))
    ensures phases != [] ==> Distance(phases, |phases| - 1) == 0
  {
    hide Execute, Distance;
    assert actions + [] == actions;
    assert phases == seq(|phases|, _ => Finished);
    if phases != [] {
      NothingOutstanding(phases, |phases| - 1);
    }
  }

  lemma {:induction false} NothingOutstanding(phases: seq<Phase>, i: nat)
    requires i < |phases| && forall k :: 0 <= k <= i ==> phases[k] == Finished
    ensures Distance(phases, i) == 0
  {
    if i > 0 {
      NothingOutstanding(phases, i - 1);
    }
  }

  // -------------------------------------------------------------- the class

  class Promise {
    var resolved: bool

    constructor (resolved: bool)
      ensures this.resolved == resolved
    {
      this.resolved := resolved;
    }
  }

  class Mutex {
    var tail: Promise
    /** The promise of the start and those of all callers: caller i waits for chain[i] and resolves
        chain[i + 1]. */
    ghost var chain: seq<Promise>
    ghost var phases: seq<Phase>

    /** The tail is the last promise, and a promise is resolved exactly when its caller has finished. */
    ghost predicate Valid()
      reads this, chain
    {
      && |chain| == |phases| + 1
      && tail == chain[|phases|]
      && chain[0].resolved
      && (forall k :: 1 <= k < |chain| ==> (chain[k].resolved <==> phases[k - 1] == Finished))
      && (forall j, k :: 0 <= j < k < |chain| ==> chain[j] != chain[k])
    }

    constructor ()
      ensures Valid() && fresh(chain) && phases == []
    {
      var resolved := new Promise(true);
      tail, chain, phases := resolved, [resolved], [];
    }

    /** The synchronous part of a call: capture the tail and replace it. */
    method Call() returns (prev: Promise, own: Promise)
      requires Valid()
      modifies this
      ensures Valid() && fresh(own) && chain == old(chain) + [own]
      ensures prev == chain[|old(phases)|]
      ensures phases == Apply(old(phases), Enter)
    {
      prev := tail;
      own := new Promise(false);
      tail := own;
      chain, phases := chain + [own], phases + [Waiting];
    }

    /** Awaiting the predecessor ends exactly when the caller may start. */
    method Proceed(prev: Promise, ghost i: nat) returns (started: bool)
      requires Valid() && i < |phases| && prev == chain[i] && phases[i] == Waiting
      modifies this`phases
      ensures Valid()
      ensures started <==> Enabled(old(phases), Start(i))
      ensures phases == if started then Apply(old(phases), Start(i)) else old(phases)
    {
      started := prev.resolved;
      if started {
        phases := phases[i := Running];
      }
    }

    /** The end of a callback, returned or thrown: its promise is resolved. */
    method Release(own: Promise, ghost i: nat, ghost threw: bool)
      requires Valid() && Enabled(phases, Finish(i, threw)) && own == chain[i + 1]
      modifies this`phases, own
      ensures Valid() && chain == old(chain)
      ensures phases == Apply(old(phases), Finish(i, threw))
    {
      own.resolved := true;
      phases := phases[i := Finished];
    }
  }
}
