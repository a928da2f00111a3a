/**
 * The allocator: which ready tasks a worker is offered and in what order, why it gets none, and
 * the idempotent acquisition that leases the first of them.
 */
module Allocation {
  import opened Orders
  import opened StoreModel
  import opened Readiness

  // ----- the ready queue -----

  ghost function TasksAt(tasks: map<nat, Task>, ids: set<nat>): set<Task> {
    set k | k in ids && k in tasks :: tasks[k]
  }

  lemma TasksAtInsert(tasks: map<nat, Task>, ids: set<nat>, k: nat)
    requires k in tasks
    ensures TasksAt(tasks, ids + {k}) == TasksAt(tasks, ids) + {tasks[k]}
  {
    forall t ensures t in TasksAt(tasks, ids + {k}) <==> t in TasksAt(tasks, ids) + {tasks[k]} {
      if t in TasksAt(tasks, ids) {
        var j :| j in ids && j in tasks && t == tasks[j];
        assert j in ids + {k};
      }
      if t == tasks[k] {
        assert k in ids + {k};
      }
    }
  }

  lemma {:induction false} TasksAtSize(tasks: map<nat, Task>, ids: set<nat>)
    requires KeyedById(tasks) && ids <= tasks.Keys
    ensures |TasksAt(tasks, ids)| == |ids|
    decreases ids
  {
    if k :| k in ids {
      TasksAtSize(tasks, ids - {k});
      TasksAtInsert(tasks, ids - {k}, k);
      assert ids - {k} + {k} == ids;
      assert tasks[k] !in TasksAt(tasks, ids - {k});
    } else {
      assert TasksAt(tasks, ids) == {};
    }
  }

  /** Every ready task once, in whatever order the map is walked. */
  method GetReadyTasks(tasks: map<nat, Task>, resolver: Resolver) returns (ready: seq<Task>)
    requires KeyedById(tasks)
    ensures Distinct(ready) && Elements(ready) == TasksAt(tasks, ReadyIds(tasks, resolver))
    ensures forall t :: t in ready <==>
              t.id in tasks && t == tasks[t.id] && t.status == PENDING && PrereqsMet(t.depends, tasks, resolver)
  {
    ready := [];
    var remaining := tasks.Keys;
    ghost var met: set<nat> := {};
    while remaining != {}
      invariant remaining <= tasks.Keys && met == ReadyIds(tasks, resolver) - remaining
      invariant Distinct(ready) && Elements(ready) == TasksAt(tasks, met)
    {
      var key :| key in remaining;
      remaining := remaining - {key};
      var task := tasks[key];
      if task.status == PENDING && DependenciesComplete(task, tasks, resolver) {
        assert task !in ready by {
          assert task in ready ==> task in Elements(ready);
        }
        ElementsSnoc(ready, task);
        TasksAtInsert(tasks, met, key);
        ready := ready + [task];
        met := met + {key};
      }
      assert met == ReadyIds(tasks, resolver) - remaining;
    }
    ReadyInFields(tasks, resolver, ready);
  }

  lemma ReadyInFields(tasks: map<nat, Task>, resolver: Resolver, ready: seq<Task>)
    requires KeyedById(tasks) && Elements(ready) == TasksAt(tasks, ReadyIds(tasks, resolver))
    ensures forall t :: t in ready <==>
              t.id in tasks && t == tasks[t.id] && t.status == PENDING && PrereqsMet(t.depends, tasks, resolver)
  {
    hide DependenciesComplete, PrereqsMet;
    forall t ensures t in ready <==>
      t.id in tasks && t == tasks[t.id] && t.status == PENDING && PrereqsMet(t.depends, tasks, resolver)
    {
      CompleteIffPrereqsMet(t, tasks, resolver);
      assert t in ready <==> t in TasksAt(tasks, ReadyIds(tasks, resolver));
      if t.id in tasks && t == tasks[t.id] && t.status == PENDING && PrereqsMet(t.depends, tasks, resolver) {
        assert t.id in ReadyIds(tasks, resolver);
      }
    }
  }

  /** The tasks of a list a worker with these capabilities can take, in their order. */
  method FilterCompatible(tasks: seq<Task>, capabilities: seq<string>) returns (filtered: seq<Task>)
    requires Distinct(tasks)
    ensures Distinct(filtered)
    ensures Elements(filtered) == set t | t in tasks && MatchesCapabilities(t.capabilities, capabilities)
  {
    filtered := [];
    for i := 0 to |tasks|
      invariant Distinct(filtered)
      invariant forall t :: t in filtered <==> t in tasks[..i] && MatchesCapabilities(t.capabilities, capabilities)
    {
      assert tasks[..i + 1] == tasks[..i] + [tasks[i]];
      assert tasks[i] !in tasks[..i];
      if MatchesCapabilities(tasks[i].capabilities, capabilities) {
        filtered := filtered + [tasks[i]];
      }
    }
    assert tasks[..|tasks|] == tasks;
  }

  lemma CandidatesAreTasks(tasks: map<nat, Task>, resolver: Resolver, capabilities: seq<string>, filter: bool)
    ensures TasksAt(tasks, Candidates(tasks, resolver, capabilities, filter)) ==
            set t | t in TasksAt(tasks, ReadyIds(tasks, resolver)) &&
                    (filter ==> MatchesCapabilities(t.capabilities, capabilities))
  {
  }

  /** The ready tasks on offer, best first: the one listing of them by priority, then ID. */
  method RankedReadyTasks(tasks: map<nat, Task>, resolver: Resolver, capabilities: seq<string>, filter: bool)
    returns (ready: seq<Task>)
    requires KeyedById(tasks)
    ensures IsListing(ready, TasksAt(tasks, Candidates(tasks, resolver, capabilities, filter)), RanksBefore)
    ensures |ready| == |Candidates(tasks, resolver, capabilities, filter)|
    ensures forall i, j :: 0 <= i < j < |ready| ==>
              ready[i].priority > ready[j].priority ||
              (ready[i].priority == ready[j].priority && ready[i].id < ready[j].id)
  {
    ready := GetReadyTasks(tasks, resolver);
    if filter {
      ghost var all := ready;
      ready := FilterCompatible(ready, capabilities);
      assert forall t :: t in all <==> t in Elements(all);
    }
    CandidatesAreTasks(tasks, resolver, capabilities, filter);
    ghost var ids := Candidates(tasks, resolver, capabilities, filter);
    assert Elements(ready) == TasksAt(tasks, ids);
    RanksBeforeTotal(Elements(ready));
    SortIsListing(ready, RanksBefore);
    ready := SortBy(ready, RanksBefore);
    ListingLength(ready, TasksAt(tasks, ids), RanksBefore);
    TasksAtSize(tasks, ids);
  }

  /** The head of the ranking is the best candidate there is. */
  lemma RankedFirstIsBest(tasks: map<nat, Task>, ids: set<nat>, ready: seq<Task>)
    requires KeyedById(tasks) && ids <= tasks.Keys && IsListing(ready, TasksAt(tasks, ids), RanksBefore)
    ensures ready == [] <==> ids == {}
    ensures ready != [] ==> IsBest(tasks, ids, ready[0].id) && tasks[ready[0].id] == ready[0]
  {
    assert forall t :: t in ready <==> t in TasksAt(tasks, ids);
    forall k | k in ids ensures tasks[k] in ready {
      assert tasks[k] in TasksAt(tasks, ids);
    }
    if ready != [] {
      assert ready[0] in ready;
      forall k | k in ids && k != ready[0].id ensures RanksBefore(ready[0], tasks[k]) {
        var i :| 0 <= i < |ready| && ready[i] == tasks[k];
      }
    }
  }
}
