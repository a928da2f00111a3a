/**
 * What a completion releases: the report made after a batch of completions, and the prediction
 * `what-if` makes before one.
 */
module Unblocking {
  import opened Wrappers
  import opened TaskReference
  import opened Orders
  import opened StoreModel
  import opened Readiness
  import opened Transitions
  import opened Allocation
  import opened Batches

  // ----- batches of completions -----

  /** Completions in order; the first refusal ends the batch. */
  function CompleteAll(s: StoreState, ids: seq<nat>, actor: string, resolver: Resolver, now: nat): Outcome {
    InTurn(s, ids, Completion(actor, resolver, now))
  }

  lemma CompleteOneTasks(s: StoreState, id: nat, actor: string, resolver: Resolver, now: nat)
    requires Complete(s, id, actor, resolver, now).error.None?
    ensures var s' := Complete(s, id, actor, resolver, now).store;
            && id in s.tasks && s.tasks[id].status != COMPLETED && s'.tasks.Keys == s.tasks.Keys
            && s'.tasks[id].status == COMPLETED && s'.tasks[id].depends == s.tasks[id].depends
            && s'.tasks[id].id == s.tasks[id].id
            && forall k :: k in s.tasks && k != id ==> s'.tasks[k] == s.tasks[k]
  {
  }

  /** The listed tasks were not completed and are now; no other task changed. */
  ghost predicate CompletesExactly(before: map<nat, Task>, after: map<nat, Task>, ids: set<nat>) {
    && after.Keys == before.Keys && ids <= before.Keys
    && (forall k :: k in before && k !in ids ==> after[k] == before[k])
    && (forall k :: k in ids ==> before[k].status != COMPLETED && after[k].status == COMPLETED
                                 && after[k].depends == before[k].depends)
  }

  lemma {:induction false} CompleteAllTasks(s: StoreState, ids: seq<nat>, actor: string, resolver: Resolver, now: nat)
    requires CompleteAll(s, ids, actor, resolver, now).error.None?
    ensures CompletesExactly(s.tasks, CompleteAll(s, ids, actor, resolver, now).store.tasks, Elements(ids))
  {
    hide Complete;
    if ids != [] {
      var init, last := ids[..|ids| - 1], ids[|ids| - 1];
      CompleteAllTasks(s, init, actor, resolver, now);
      CompleteOneTasks(CompleteAll(s, init, actor, resolver, now).store, last, actor, resolver, now);
      assert ids == init + [last];
      ElementsSnoc(init, last);
    }
  }

  // ----- the report after the fact -----

  predicate DependsOnAny(t: Task, ids: set<nat>) {
    exists d :: d in t.depends && ParseLocalID(d).Some? && ParseLocalID(d).value in ids
  }

  ghost function NewlyReadyIds(tasks: map<nat, Task>, completed: set<nat>, resolver: Resolver): set<nat> {
    set k | k in ReadyIds(tasks, resolver) && DependsOnAny(tasks[k], completed)
  }

  predicate TaskIdLess(a: Task, b: Task) {
    a.id < b.id
  }

  method DependsOn(t: Task, ids: set<nat>) returns (found: bool)
    ensures found <==> DependsOnAny(t, ids)
  {
    for i := 0 to |t.depends|
      invariant forall j :: 0 <= j < i && ParseLocalID(t.depends[j]).Some? ==> ParseLocalID(t.depends[j]).value !in ids
    {
      var dependencyId := ParseLocalID(t.depends[i]);
      if dependencyId.Some? && dependencyId.value in ids {
        return true;
      }
    }
    return false;
  }

  /** The ready tasks that depend on one of the completed ones, by ID. */
  method NewlyReadyAfter(tasks: map<nat, Task>, completedIds: seq<nat>, resolver: Resolver)
    returns (unblocked: seq<Task>)
    requires KeyedById(tasks)
    ensures IsListing(unblocked, TasksAt(tasks, NewlyReadyIds(tasks, Elements(completedIds), resolver)), TaskIdLess)
    ensures forall i, j :: 0 <= i < j < |unblocked| ==> unblocked[i].id < unblocked[j].id
  {
    unblocked := [];
    ghost var released := NewlyReadyIds(tasks, Elements(completedIds), resolver);
    if |completedIds| == 0 {
      assert released == {};
      return;
    }
    var justCompleted := set id | id in completedIds;
    assert justCompleted == Elements(completedIds);
    var remaining := tasks.Keys;
    ghost var met: set<nat> := {};
    while remaining != {}
      invariant remaining <= tasks.Keys && met == released - remaining
      invariant Distinct(unblocked) && Elements(unblocked) == TasksAt(tasks, met)
    {
      var key :| key in remaining;
      remaining := remaining - {key};
      var task := tasks[key];
      if task.status == PENDING && DependenciesComplete(task, tasks, resolver) {
        var dependsOnCompletion := DependsOn(task, justCompleted);
        if dependsOnCompletion {
          assert task !in unblocked by {
            assert task in unblocked ==> task in Elements(unblocked);
          }
          ElementsSnoc(unblocked, task);
          TasksAtInsert(tasks, met, key);
          unblocked := unblocked + [task];
          met := met + {key};
        }
      }
      assert met == released - remaining;
    }
    assert met == released;
    SortIsListing(unblocked, TaskIdLess);
    unblocked := SortBy(unblocked, TaskIdLess);
  }

  lemma BecameMet(d: string, before: map<nat, Task>, after: map<nat, Task>, ids: set<nat>, resolver: Resolver)
    requires CompletesExactly(before, after, ids)
    ensures DependencyMet(d, after, resolver) <==>
            DependencyMet(d, before, resolver) || (ParseLocalID(d).Some? && ParseLocalID(d).value in ids)
    ensures DependencyMet(d, before, resolver) ==> !(ParseLocalID(d).Some? && ParseLocalID(d).value in ids)
  {
  }

  lemma ReleasedByCompletion(before: map<nat, Task>, after: map<nat, Task>, ids: set<nat>, resolver: Resolver)
    requires CompletesExactly(before, after, ids)
    ensures NewlyReadyIds(after, ids, resolver) == ReadyIds(after, resolver) - ReadyIds(before, resolver)
  {
    forall k | k in ReadyIds(after, resolver)
      ensures k in before && before[k] == after[k]
      ensures DependsOnAny(after[k], ids) <==> !DependenciesComplete(before[k], before, resolver)
    {
      forall d | d in after[k].depends
        ensures (ParseLocalID(d).Some? && ParseLocalID(d).value in ids) <==> !DependencyMet(d, before, resolver)
      {
        BecameMet(d, before, after, ids, resolver);
      }
    }
  }

  /** After any batch of successful completions the report is exactly what is ready now and was not before. */
  lemma NewlyReadyIsTheDifference(s: StoreState, ids: seq<nat>, actor: string, resolver: Resolver, now: nat)
    requires CompleteAll(s, ids, actor, resolver, now).error.None?
    ensures var after := CompleteAll(s, ids, actor, resolver, now).store.tasks;
            NewlyReadyIds(after, Elements(ids), resolver) == ReadyIds(after, resolver) - ReadyIds(s.tasks, resolver)
  {
    hide CompleteAll;
    CompleteAllTasks(s, ids, actor, resolver, now);
    ReleasedByCompletion(s.tasks, CompleteAll(s, ids, actor, resolver, now).store.tasks, Elements(ids), resolver);
  }

  // ----- the prediction -----

  /** The unmet dependencies of a task, in their order. */
  function UnmetDeps(depends: seq<string>, tasks: map<nat, Task>, resolver: Resolver): seq<string> {
    if depends == [] then []
    else
      var last := depends[|depends| - 1];
      UnmetDeps(depends[..|depends| - 1], tasks, resolver)
      + (if DependencyMet(last, tasks, resolver) then [] else [last])
  }

  lemma {:induction false} NoUnmetDeps(depends: seq<string>, tasks: map<nat, Task>, resolver: Resolver)
    ensures UnmetDeps(depends, tasks, resolver) == [] <==>
            forall d :: d in depends ==> DependencyMet(d, tasks, resolver)
  {
    if depends != [] {
      var init, last := depends[..|depends| - 1], depends[|depends| - 1];
      NoUnmetDeps(init, tasks, resolver);
      assert depends == init + [last];
    }
  }

  /** The unmet references are met in the order of the list, and are the ones nothing completed stands for. */
  lemma {:induction false} UnmetDepsMean(depends: seq<string>, tasks: map<nat, Task>, resolver: Resolver, i: nat)
    requires i < |depends|
    ensures var d := depends[i];
            var waits := if ParseLocalID(d).Some?
                         then ParseLocalID(d).value in tasks ==> tasks[ParseLocalID(d).value].status != COMPLETED
                         else !resolver(d);
            UnmetDeps(depends[..i + 1], tasks, resolver) ==
            UnmetDeps(depends[..i], tasks, resolver) + (if waits then [d] else [])
    ensures UnmetDeps([], tasks, resolver) == []
  {
    var prefix := depends[..i + 1];
    assert prefix[..|prefix| - 1] == depends[..i] && prefix[|prefix| - 1] == depends[i];
  }

  /** The tasks that are not done and wait for a dependency. */
  ghost function BlockedIds(tasks: map<nat, Task>, resolver: Resolver): set<nat> {
    set k | k in tasks && tasks[k].status != COMPLETED && !DependenciesComplete(tasks[k], tasks, resolver)
  }

  lemma BlockedIff(tasks: map<nat, Task>, resolver: Resolver, k: nat)
    ensures k in BlockedIds(tasks, resolver) <==>
            k in tasks && tasks[k].status != COMPLETED && !PrereqsMet(tasks[k].depends, tasks, resolver)
  {
    if k in tasks {
      CompleteIffPrereqsMet(tasks[k], tasks, resolver);
    }
  }

  method CollectUnmet(depends: seq<string>, tasks: map<nat, Task>, resolver: Resolver) returns (unmet: seq<string>)
    ensures unmet == UnmetDeps(depends, tasks, resolver)
  {
    unmet := [];
    for i := 0 to |depends|
      invariant unmet == UnmetDeps(depends[..i], tasks, resolver)
    {
      var prefix := depends[..i + 1];
      assert prefix[..|prefix| - 1] == depends[..i] && prefix[|prefix| - 1] == depends[i];
      if !DependencyMet(depends[i], tasks, resolver) {
        unmet := unmet + [depends[i]];
      }
    }
    assert depends[..|depends|] == depends;
  }

  method GetBlockedTasks(tasks: map<nat, Task>, resolver: Resolver) returns (blocked: map<nat, seq<string>>)
    requires KeyedById(tasks)
    ensures blocked.Keys == BlockedIds(tasks, resolver)
    ensures forall k :: k in blocked ==> blocked[k] == UnmetDeps(tasks[k].depends, tasks, resolver)
  {
    blocked := map[];
    var remaining := tasks.Keys;
    while remaining != {}
      invariant remaining <= tasks.Keys
      invariant blocked.Keys == BlockedIds(tasks, resolver) - remaining
      invariant forall k :: k in blocked ==> blocked[k] == UnmetDeps(tasks[k].depends, tasks, resolver)
    {
      var key :| key in remaining;
      remaining := remaining - {key};
      var task := tasks[key];
      if task.status != COMPLETED {
        var unmet := CollectUnmet(task.depends, tasks, resolver);
        NoUnmetDeps(task.depends, tasks, resolver);
        if |unmet| > 0 {
          blocked := blocked[task.id := unmet];
        }
      }
    }
  }

  /** The tasks as they would be with `id` completed. */
  function Simulated(tasks: map<nat, Task>, id: nat): map<nat, Task> {
    if id in tasks then tasks[id := tasks[id].(status := COMPLETED)] else tasks
  }

  lemma PredictedTasks(tasks: map<nat, Task>, id: nat, resolver: Resolver, ready: seq<Task>, newlyReady: seq<Task>)
    requires KeyedById(tasks)
    requires Elements(ready) == TasksAt(Simulated(tasks, id), ReadyIds(Simulated(tasks, id), resolver))
    requires forall t :: t in newlyReady <==> t in ready && t.id in BlockedIds(tasks, resolver)
    ensures Elements(newlyReady) ==
            TasksAt(Simulated(tasks, id), ReadyIds(Simulated(tasks, id), resolver) * BlockedIds(tasks, resolver))
  {
    hide ReadyIds, BlockedIds;
    assert forall t :: t in ready <==> t in Elements(ready);
  }

  /** The tasks of a list that are among the blocked ones, in their order. */
  method KeepBlocked(ready: seq<Task>, blocked: set<nat>) returns (kept: seq<Task>)
    requires Distinct(ready)
    ensures Distinct(kept)
    ensures forall t :: t in kept <==> t in ready && t.id in blocked
  {
    kept := [];
    for i := 0 to |ready|
      invariant Distinct(kept)
      invariant forall t :: t in kept <==> t in ready[..i] && t.id in blocked
    {
      assert ready[..i + 1] == ready[..i] + [ready[i]];
      assert ready[i] !in ready[..i];
      if ready[i].id in blocked {
        kept := kept + [ready[i]];
      }
    }
    assert ready[..|ready|] == ready;
  }

  /** What would become ready, and how many tasks would still wait. */
  method WhatIf(tasks: map<nat, Task>, id: nat, resolver: Resolver) returns (newlyReady: seq<Task>, stillBlocked: nat)
    requires KeyedById(tasks)
    ensures Distinct(newlyReady)
    ensures Elements(newlyReady) ==
            TasksAt(Simulated(tasks, id), ReadyIds(Simulated(tasks, id), resolver) * BlockedIds(tasks, resolver))
    ensures stillBlocked == |BlockedIds(Simulated(tasks, id), resolver)|
  {
    hide PrereqsMet, UnmetDeps, DependenciesComplete;
    var simTasks := tasks;
    if id in simTasks {
      simTasks := simTasks[id := simTasks[id].(status := COMPLETED)];
    }
    var ready := GetReadyTasks(simTasks, resolver);
    var blocked := GetBlockedTasks(simTasks, resolver);
    var beforeBlocked := GetBlockedTasks(tasks, resolver);
    newlyReady := KeepBlocked(ready, beforeBlocked.Keys);
    PredictedTasks(tasks, id, resolver, ready, newlyReady);
    stillBlocked := |blocked|;
    assert blocked.Keys == BlockedIds(simTasks, resolver);
  }

  /**
   * For a task that can be completed, the prediction made before is the report made after, and
   * the tasks it counts as still blocked are the ones that then are.
   */
  lemma WhatIfPredicts(s: StoreState, id: nat, actor: string, resolver: Resolver, now: nat)
    requires Complete(s, id, actor, resolver, now).error.None?
    ensures var sim, after := Simulated(s.tasks, id), Complete(s, id, actor, resolver, now).store.tasks;
            && ReadyIds(sim, resolver) * BlockedIds(s.tasks, resolver) == NewlyReadyIds(after, {id}, resolver)
            && BlockedIds(sim, resolver) == BlockedIds(after, resolver)
            && forall k :: k in ReadyIds(sim, resolver) ==> k in after && sim[k] == after[k]
  {
    hide Complete;
    CompleteOneTasks(s, id, actor, resolver, now);
    var sim, after := Simulated(s.tasks, id), Complete(s, id, actor, resolver, now).store.tasks;
    ReleasedByCompletion(s.tasks, after, {id}, resolver);
    SameReadiness(sim, after, resolver);
    assert forall k :: k in ReadyIds(after, resolver) ==> after[k] == s.tasks[k];
  }

  /** Readiness depends on statuses and dependency lists alone. */
  lemma SameReadiness(a: map<nat, Task>, b: map<nat, Task>, resolver: Resolver)
    requires a.Keys == b.Keys && forall k :: k in a ==> a[k].status == b[k].status && a[k].depends == b[k].depends
    ensures ReadyIds(a, resolver) == ReadyIds(b, resolver) && BlockedIds(a, resolver) == BlockedIds(b, resolver)
  {
    forall k | k in a ensures DependenciesComplete(a[k], a, resolver) <==> DependenciesComplete(b[k], b, resolver) {
      assert forall d :: DependencyMet(d, a, resolver) <==> DependencyMet(d, b, resolver);
    }
  }
}
