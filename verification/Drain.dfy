/**
 * No deadlock: a sound store with only local dependencies and nothing in progress or blocked
 * always offers work, and one worker that keeps acquiring and completing empties it.
 */
module Drain {
  import opened Wrappers
  import opened TaskReference
  import opened Digraph
  import opened Orders
  import opened StoreModel
  import opened DependencyGraph
  import opened Readiness
  import opened Transitions
  import opened Invariant
  import opened StepEffects
  import opened Runs
  import opened Transactions
  import opened FileProtocol

  function PendingIds(tasks: map<nat, Task>): set<nat> {
    set k | k in tasks && tasks[k].status == PENDING
  }

  /** Every dependency is a local one, and every task is waiting or done. */
  ghost predicate Drainable(tasks: map<nat, Task>) {
    && (forall k, d :: k in tasks && d in tasks[k].depends ==> ParseLocalID(d).Some?)
    && (forall k :: k in tasks ==> tasks[k].status == PENDING || tasks[k].status == COMPLETED)
  }

  /** While anything is pending, something is ready: the graph has no cycle to wait in. */
  lemma SomethingIsReady(s: StoreState, resolver: Resolver)
    requires Sound(s) && Drainable(s.tasks) && PendingIds(s.tasks) != {}
    ensures ReadyIds(s.tasks, resolver) != {}
  {
    var n := AcyclicHasSource(DepEdges(s.tasks), PendingIds(s.tasks));
    DepsSoundLocal(s.tasks[n].depends, s.tasks.Keys);
    forall d | d in s.tasks[n].depends ensures DependencyMet(d, s.tasks, resolver) {
      var a := ParseLocalID(d).value;
      assert a in LocalDeps(s.tasks[n].depends);
      DepEdgesMember(s.tasks, a, n);
      assert a !in PendingIds(s.tasks);
    }
    assert n in ReadyIds(s.tasks, resolver);
  }

  // ----- one round -----

  datatype Worker = Worker(actor: string, capabilities: seq<string>, maxLoad: int, ttl: Duration, fingerprint: string)

  /** The request ID of one acquisition, and when it and the completion after it happen. */
  datatype Round = Round(requestId: string, acquiredAt: nat, completedAt: nat)

  function RequestOf(w: Worker, r: Round): AcquireRequest {
    AcquireRequest(w.actor, r.requestId, w.fingerprint, w.ttl, w.capabilities, w.maxLoad)
  }

  ghost predicate Capable(w: Worker, tasks: map<nat, Task>) {
    w.actor != "" && forall k :: k in tasks ==> MatchesCapabilities(tasks[k].capabilities, w.capabilities)
  }

  /** The same work, except that the tasks `done` are now complete. */
  ghost predicate OnlyCompletes(before: map<nat, Task>, after: map<nat, Task>, done: set<nat>) {
    && after.Keys == before.Keys
    && forall k :: k in before ==>
         && after[k].depends == before[k].depends && after[k].capabilities == before[k].capabilities
         && after[k].status == if k in done then COMPLETED else before[k].status
  }

  lemma NothingExpired(s: StoreState, now: nat)
    requires forall k :: k in s.tasks ==> s.tasks[k].status != IN_PROGRESS
    ensures ExpiredIds(s.tasks, now) == {} && Sweep(s, now) == s
  {
    NothingToSweep(s, now);
  }

  lemma IdleWorkerIsGranted(s: StoreState, q: AcquireRequest, resolver: Resolver, now: nat) returns (id: nat)
    requires Sound(s) && Drainable(s.tasks) && PendingIds(s.tasks) != {} && q.requestId !in s.acquisitions
    requires forall k :: k in s.tasks ==> MatchesCapabilities(s.tasks[k].capabilities, q.capabilities)
    ensures id in ReadyIds(s.tasks, resolver)
    ensures Acquire(s, q, resolver, now).outcome == Outcome(Grant(s, q, id, now), None)
  {
    SomethingIsReady(s, resolver);
    var ids := Candidates(s.tasks, resolver, q.capabilities, true);
    assert ids == ReadyIds(s.tasks, resolver);
    assert OwnedIds(s.tasks, q.actor) == {};
    id := Best(s.tasks, ids);
  }

  /** The acquisition of a round: it succeeds, whatever the load limit, and leases one ready task. */
  lemma RoundAcquires(s: StoreState, w: Worker, r: Round, resolver: Resolver) returns (id: nat)
    requires Good(s) && Drainable(s.tasks) && Capable(w, s.tasks) && PendingIds(s.tasks) != {}
    requires r.requestId !in s.acquisitions && r.acquiredAt > 0
    ensures KeyedById(s.tasks)
    ensures var o := Transact(s, Step(AcquireTask(RequestOf(w, r), resolver), r.acquiredAt));
            && o.error.None? && id in ReadyIds(s.tasks, resolver)
            && id in o.store.tasks && o.store.tasks == s.tasks[id := o.store.tasks[id]]
            && o.store.tasks[id].status == IN_PROGRESS && o.store.tasks[id].owner == w.actor
            && o.store.tasks[id].depends == s.tasks[id].depends
            && o.store.tasks[id].capabilities == s.tasks[id].capabilities
            && o.store.tasks[id].id == id
            && o.store.acquisitions.Keys == s.acquisitions.Keys + {r.requestId}
            && o.store.acquisitions[r.requestId].task.id == id
  {
    hide Acquire, Sweep, Candidates, LogWindow;
    NothingExpired(s, r.acquiredAt);
    id := IdleWorkerIsGranted(s, RequestOf(w, r), resolver, r.acquiredAt);
  }

  lemma CompletesWhenFree(s: StoreState, id: nat, actor: string, resolver: Resolver, now: nat)
    requires id in s.tasks && s.tasks[id].status != COMPLETED && DependenciesComplete(s.tasks[id], s.tasks, resolver)
    requires s.tasks[id].owner == "" || s.tasks[id].owner == actor
    ensures var o := Complete(s, id, actor, resolver, now);
            o.error.None? && OnlyCompletes(s.tasks, o.store.tasks, {id}) && o.store.acquisitions == s.acquisitions
  {
    hide DependenciesComplete;
  }

  lemma CompletesAfterSweep(s: StoreState, id: nat, actor: string, resolver: Resolver, now: nat)
    requires id in s.tasks && s.tasks[id].status == IN_PROGRESS && s.tasks[id].owner == actor
    requires DependenciesComplete(s.tasks[id], s.tasks, resolver)
    requires forall k :: k in s.tasks && k != id ==> s.tasks[k].status == PENDING || s.tasks[k].status == COMPLETED
    ensures var o := Complete(Sweep(s, now), id, actor, resolver, now);
            o.error.None? && OnlyCompletes(s.tasks, o.store.tasks, {id}) && o.store.acquisitions == s.acquisitions
  {
    hide Complete, Sweep;
    SweepTasks(s, now);
    var swept := Sweep(s, now);
    forall d | d in swept.tasks[id].depends ensures DependencyMet(d, swept.tasks, resolver) {
      assert DependencyMet(d, s.tasks, resolver);
    }
    CompletesWhenFree(swept, id, actor, resolver, now);
  }

  /** The completion of a round: it succeeds even if the lease expired and was swept in between. */
  lemma RoundCompletes(s: StoreState, id: nat, actor: string, resolver: Resolver, now: nat)
    requires KeyedById(s.tasks) && id in s.tasks
    requires s.tasks[id].status == IN_PROGRESS && s.tasks[id].owner == actor
    requires DependenciesComplete(s.tasks[id], s.tasks, resolver)
    requires forall k :: k in s.tasks && k != id ==> s.tasks[k].status == PENDING || s.tasks[k].status == COMPLETED
    ensures var o := Transact(s, Step(CompleteTask(id, actor, resolver), now));
            && o.error.None? && OnlyCompletes(s.tasks, o.store.tasks, {id}) && o.store.acquisitions == s.acquisitions
  {
    hide Complete, Sweep, OnlyCompletes, DependenciesComplete, ExpiredIds;
    CompletesAfterSweep(s, id, actor, resolver, now);
  }

  // ----- the whole queue -----

  lemma {:induction false} TransactGood(s: StoreState, step: Step)
    requires Good(s) && step.now > 0 && Admitted(AfterSweep(s, UpdateJob([step], step.now)), step)
    ensures KeyedById(s.tasks) && Good(Transact(s, step).store)
  {
    hide Good, Next, Perform, Transact, Effect, AfterSweep;
    EffectIsTheTransaction(s, [step], step.now);
    OneStepTransaction(s, step);
  }

  predicate CanWork(w: Worker, r: Round) {
    w.actor != "" && r.acquiredAt > 0 && r.completedAt > 0
  }

  /** One round of the loop: acquire under a fresh request ID, then complete what was granted. */
  ghost function WorkRound(s: StoreState, w: Worker, r: Round, resolver: Resolver): (result: (StoreState, Option<nat>))
    requires Good(s) && CanWork(w, r)
    ensures Good(result.0)
  {
    var acquire := Step(AcquireTask(RequestOf(w, r), resolver), r.acquiredAt);
    TransactGood(s, acquire);
    var acquired := Transact(s, acquire);
    GoodIsKeyed(acquired.store);
    if acquired.error.Some? || r.requestId !in acquired.store.acquisitions then (acquired.store, None)
    else
      var id := acquired.store.acquisitions[r.requestId].task.id;
      var complete := Step(CompleteTask(id, w.actor, resolver), r.completedAt);
      TransactGood(acquired.store, complete);
      (Transact(acquired.store, complete).store, Some(id))
  }

  datatype Drained = Drained(store: StoreState, taken: seq<nat>)

  /** The loop: round after round, and the tasks completed on the way. */
  ghost function DrainQueue(s: StoreState, w: Worker, rounds: seq<Round>, resolver: Resolver): Drained
    requires Good(s) && forall r :: r in rounds ==> CanWork(w, r)
    decreases |rounds|
  {
    if rounds == [] then Drained(s, [])
    else
      var (after, id) := WorkRound(s, w, rounds[0], resolver);
      var rest := DrainQueue(after, w, rounds[1..], resolver);
      Drained(rest.store, (if id.Some? then [id.value] else []) + rest.taken)
  }

  lemma RoundCompletesOne(s: StoreState, w: Worker, r: Round, resolver: Resolver)
    requires Good(s) && Drainable(s.tasks) && Capable(w, s.tasks) && PendingIds(s.tasks) != {} && CanWork(w, r)
    requires r.requestId !in s.acquisitions
    ensures var (s', id) := WorkRound(s, w, r, resolver);
            && id.Some? && id.value in ReadyIds(s.tasks, resolver)
            && OnlyCompletes(s.tasks, s'.tasks, {id.value})
            && s'.acquisitions.Keys == s.acquisitions.Keys + {r.requestId}
  {
    hide Good, Transact, Perform, PrereqsMet, LocalPrereqsDone, DependenciesComplete, Capable;
    var id := RoundAcquires(s, w, r, resolver);
    var acquire := Step(AcquireTask(RequestOf(w, r), resolver), r.acquiredAt);
    TransactGood(s, acquire);
    var acquired := Transact(s, acquire).store;
    GoodIsKeyed(acquired);
    LeasedStaysReady(s.tasks, acquired.tasks, id, resolver);
    RoundCompletes(acquired, id, w.actor, resolver, r.completedAt);
  }

  lemma LeasedStaysReady(before: map<nat, Task>, after: map<nat, Task>, id: nat, resolver: Resolver)
    requires id in ReadyIds(before, resolver) && id in after && after == before[id := after[id]]
    requires after[id].depends == before[id].depends
    ensures DependenciesComplete(after[id], after, resolver)
  {
    forall d | d in after[id].depends ensures DependencyMet(d, after, resolver) {
      assert DependencyMet(d, before, resolver);
    }
  }

  lemma OneFewerPending(before: map<nat, Task>, after: map<nat, Task>, id: nat, w: Worker)
    requires Drainable(before) && Capable(w, before) && OnlyCompletes(before, after, {id}) && id in PendingIds(before)
    ensures Drainable(after) && Capable(w, after) && PendingIds(after) == PendingIds(before) - {id}
    ensures |PendingIds(after)| == |PendingIds(before)| - 1
  {
    assert forall k, d :: k in after && d in after[k].depends ==> d in before[k].depends;
  }

  ghost predicate FreshRequests(rounds: seq<Round>, used: set<string>) {
    && (forall i :: 0 <= i < |rounds| ==> rounds[i].requestId !in used)
    && (forall i, j :: 0 <= i < j < |rounds| ==> rounds[i].requestId != rounds[j].requestId)
  }

  /** Each task was taken after every local dependency it has that was not complete from the start. */
  ghost predicate InDependencyOrder(tasks: map<nat, Task>, taken: seq<nat>) {
    forall i, a: nat :: 0 <= i < |taken| && taken[i] in tasks && a in LocalDeps(tasks[taken[i]].depends) ==>
                          a in tasks && (tasks[a].status == COMPLETED || a in taken[..i])
  }

  lemma FirstInOrder(before: map<nat, Task>, after: map<nat, Task>, id: nat, rest: seq<nat>, resolver: Resolver)
    requires id in ReadyIds(before, resolver) && OnlyCompletes(before, after, {id}) && InDependencyOrder(after, rest)
    ensures InDependencyOrder(before, [id] + rest)
  {
    var taken := [id] + rest;
    forall i, a: nat | 0 <= i < |taken| && taken[i] in before && a in LocalDeps(before[taken[i]].depends)
      ensures a in before && (before[a].status == COMPLETED || a in taken[..i])
    {
      if i == 0 {
        var d :| d in before[id].depends && ParseLocalID(d) == Some(a);
        assert DependencyMet(d, before, resolver);
      } else {
        assert taken[i] == rest[i - 1] && taken[..i] == [id] + rest[..i - 1];
        assert a in LocalDeps(after[rest[i - 1]].depends);
      }
    }
  }

  lemma CompletesMore(a: map<nat, Task>, b: map<nat, Task>, c: map<nat, Task>, id: nat, rest: seq<nat>)
    requires OnlyCompletes(a, b, {id}) && OnlyCompletes(b, c, Elements(rest))
    requires Distinct(rest) && Elements(rest) <= PendingIds(a) - {id} && id in PendingIds(a)
    ensures OnlyCompletes(a, c, Elements([id] + rest))
    ensures Distinct([id] + rest) && Elements([id] + rest) <= PendingIds(a)
  {
    assert forall x :: x in rest ==> x in Elements(rest);
  }

  /**
   * The queue drains: as long as there are tasks left, every round completes exactly one more, each
   * after its dependencies. The load limit does not matter, nor do leases that expire between an
   * acquisition and its completion.
   */
  lemma {:induction false} EveryRoundCompletesOne(s: StoreState, w: Worker, rounds: seq<Round>, resolver: Resolver)
    requires Good(s) && Drainable(s.tasks) && Capable(w, s.tasks)
    requires (forall r :: r in rounds ==> CanWork(w, r)) && FreshRequests(rounds, s.acquisitions.Keys)
    requires |rounds| <= |PendingIds(s.tasks)|
    ensures var d := DrainQueue(s, w, rounds, resolver);
            && |d.taken| == |rounds| && Distinct(d.taken) && Elements(d.taken) <= PendingIds(s.tasks)
            && OnlyCompletes(s.tasks, d.store.tasks, Elements(d.taken))
            && InDependencyOrder(s.tasks, d.taken)
    decreases |rounds|
  {
    hide Good, WorkRound, Drainable, Capable, OnlyCompletes, PendingIds, InDependencyOrder;
    if rounds == [] {
      NothingTaken(s.tasks);
    } else {
      var (s', taken) := WorkRound(s, w, rounds[0], resolver);
      RoundCompletesOne(s, w, rounds[0], resolver);
      var id := taken.value;
      ReadyIsPending(s.tasks, id, resolver);
      OneFewerPending(s.tasks, s'.tasks, id, w);
      EveryRoundCompletesOne(s', w, rounds[1..], resolver);
      var rest := DrainQueue(s', w, rounds[1..], resolver);
      FirstInOrder(s.tasks, s'.tasks, id, rest.taken, resolver);
      CompletesMore(s.tasks, s'.tasks, rest.store.tasks, id, rest.taken);
    }
  }

  lemma NothingTaken(tasks: map<nat, Task>)
    ensures OnlyCompletes(tasks, tasks, Elements([])) && InDependencyOrder(tasks, [])
  {
  }

  lemma ReadyIsPending(tasks: map<nat, Task>, id: nat, resolver: Resolver)
    requires id in ReadyIds(tasks, resolver)
    ensures id in PendingIds(tasks)
  {
  }

  /** So exactly as many rounds as there are pending tasks complete everything, and no fewer do. */
  lemma {:induction false} QueueDrains(s: StoreState, w: Worker, rounds: seq<Round>, resolver: Resolver)
    requires Good(s) && Drainable(s.tasks) && Capable(w, s.tasks)
    requires (forall r :: r in rounds ==> CanWork(w, r)) && FreshRequests(rounds, s.acquisitions.Keys)
    requires |rounds| <= |PendingIds(s.tasks)|
    ensures var after := DrainQueue(s, w, rounds, resolver).store.tasks;
            && after.Keys == s.tasks.Keys
            && |PendingIds(after)| == |PendingIds(s.tasks)| - |rounds|
            && (|rounds| == |PendingIds(s.tasks)| <==> forall k :: k in after ==> after[k].status == COMPLETED)
  {
    hide Good, WorkRound, Capable, DrainQueue, Drainable, InDependencyOrder, OnlyCompletes, PendingIds;
    EveryRoundCompletesOne(s, w, rounds, resolver);
    var d := DrainQueue(s, w, rounds, resolver);
    StillPending(s.tasks, d.store.tasks, d.taken);
  }

  lemma StillPending(before: map<nat, Task>, after: map<nat, Task>, taken: seq<nat>)
    requires Drainable(before) && OnlyCompletes(before, after, Elements(taken))
    requires Distinct(taken) && Elements(taken) <= PendingIds(before)
    ensures after.Keys == before.Keys && |PendingIds(after)| == |PendingIds(before)| - |taken|
    ensures |taken| == |PendingIds(before)| <==> forall k :: k in after ==> after[k].status == COMPLETED
  {
    DistinctLength(taken);
    var pending, done := PendingIds(before), Elements(taken);
    forall k | k in before ensures after[k].status == (if k in pending && k !in done then PENDING else COMPLETED) {}
    var left := pending - done;
    assert PendingIds(after) == left;
    assert pending == left + done && left !! done;
    assert left == {} <==> forall k :: k in after ==> after[k].status == COMPLETED by {
      assert forall k :: k in after ==> (k in left <==> after[k].status != COMPLETED);
    }
  }
}
