/** Which tasks are ready, which are held up by dependencies, and in what order work is offered. */
module Readiness {
  import opened Wrappers
  import opened Orders
  import opened TaskReference
  import opened StoreModel
  import opened DependencyGraph

  predicate DependencyMet(dep: string, tasks: map<nat, Task>, resolver: Resolver) {
    var id := ParseLocalID(dep);
    if id.Some? then id.value in tasks && tasks[id.value].status == COMPLETED else resolver(dep)
  }

  predicate DependenciesComplete(t: Task, tasks: map<nat, Task>, resolver: Resolver) {
    forall d | d in t.depends :: DependencyMet(d, tasks, resolver)
  }

  /** Every task of the store that the list names is there and completed. */
  ghost predicate LocalPrereqsDone(depends: seq<string>, tasks: map<nat, Task>) {
    forall a :: a in LocalDeps(depends) ==> a in tasks && tasks[a].status == COMPLETED
  }

  /** And every other reference, into another repository or unreadable, is answered yes. */
  ghost predicate PrereqsMet(depends: seq<string>, tasks: map<nat, Task>, resolver: Resolver) {
    LocalPrereqsDone(depends, tasks) && forall d :: d in depends && ParseLocalID(d).None? ==> resolver(d)
  }

  lemma CompleteIffPrereqsMet(t: Task, tasks: map<nat, Task>, resolver: Resolver)
    ensures DependenciesComplete(t, tasks, resolver) <==> PrereqsMet(t.depends, tasks, resolver)
  {
    if PrereqsMet(t.depends, tasks, resolver) {
      forall d | d in t.depends ensures DependencyMet(d, tasks, resolver) {
        assert ParseLocalID(d).Some? ==> ParseLocalID(d).value in LocalDeps(t.depends);
      }
    } else if a :| a in LocalDeps(t.depends) && !(a in tasks && tasks[a].status == COMPLETED) {
      var d :| d in t.depends && ParseLocalID(d) == Some(a);
      assert !DependencyMet(d, tasks, resolver);
    }
  }

  predicate IsReady(t: Task, tasks: map<nat, Task>, resolver: Resolver) {
    t.status == PENDING && DependenciesComplete(t, tasks, resolver)
  }

  function ReadyIds(tasks: map<nat, Task>, resolver: Resolver): set<nat> {
    set k | k in tasks && IsReady(tasks[k], tasks, resolver)
  }

  /** A task is compatible with a worker that provides every capability it asks for. */
  predicate MatchesCapabilities(required: seq<string>, provided: seq<string>) {
    forall c | c in required :: c in provided
  }

  /** The ready tasks a worker with these capabilities can take (all of them when unfiltered). */
  function Candidates(tasks: map<nat, Task>, resolver: Resolver, capabilities: seq<string>, filter: bool): set<nat> {
    set k | k in ReadyIds(tasks, resolver) && (filter ==> MatchesCapabilities(tasks[k].capabilities, capabilities))
  }

  /** Higher priority first, then lower ID. */
  predicate RanksBefore(a: Task, b: Task) {
    if a.priority == b.priority then a.id < b.id else a.priority > b.priority
  }

  lemma RanksBeforeTotal(ts: set<Task>)
    requires forall a, b :: a in ts && b in ts && a.id == b.id ==> a == b
    ensures StrictTotalOn(ts, RanksBefore)
  {
  }

  ghost predicate IsBest(tasks: map<nat, Task>, ids: set<nat>, id: nat) {
    id in ids && id in tasks && forall k :: k in ids && k in tasks && k != id ==> RanksBefore(tasks[id], tasks[k])
  }

  /** The best of a nonempty set of tasks exists, and (`BestUnique`) there is only one. */
  lemma {:induction false} BestExists(tasks: map<nat, Task>, ids: set<nat>)
    requires KeyedById(tasks) && ids != {} && ids <= tasks.Keys
    ensures exists id :: IsBest(tasks, ids, id)
    decreases ids
  {
    var id :| id in ids;
    if ids == {id} {
      assert IsBest(tasks, ids, id);
    } else {
      assert ids == ids - {id} + {id};
      BestExists(tasks, ids - {id});
      var other :| IsBest(tasks, ids - {id}, other);
      assert IsBest(tasks, ids, if RanksBefore(tasks[other], tasks[id]) then other else id);
    }
  }

  lemma BestUnique(tasks: map<nat, Task>, ids: set<nat>, a: nat, b: nat)
    requires IsBest(tasks, ids, a) && IsBest(tasks, ids, b)
    ensures a == b
  {
    var forward, backward := RanksBefore(tasks[a], tasks[b]), RanksBefore(tasks[b], tasks[a]);
    assert !(forward && backward);
  }

  ghost function Best(tasks: map<nat, Task>, ids: set<nat>): (id: nat)
    requires KeyedById(tasks) && ids != {} && ids <= tasks.Keys
    ensures IsBest(tasks, ids, id)
  {
    BestExists(tasks, ids);
    var id :| IsBest(tasks, ids, id);
    id
  }
}
