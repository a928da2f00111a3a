/**
 * The lifecycle operations as the program performs them, on a `TaskStore` whose fields they
 * overwrite step by step. Each is proved to do exactly what its transition in `Transitions` says.
 */
module CoordinationOps {
  import opened Wrappers
  import opened Decimal
  import opened TaskReference
  import opened Digraph
  import opened Orders
  import opened StoreModel
  import opened DependencyGraph
  import opened Transitions
  import opened TaskStores

  method ClaimTask(s: TaskStore, id: nat, actor: string, ttl: Duration, resolver: Resolver, now: nat)
    returns (error: Option<Error>)
    modifies s
    ensures Outcome(s.State(), error) == Claim(old(s.State()), id, actor, ttl, resolver, now)
  {
    if id !in s.tasks {
      return Some(TaskNotFound);
    }
    var task := s.tasks[id];
    error := RequireClaimable(task);
    if error.Some? { return; }
    error := RequireDependencies(task, s.tasks, resolver);
    if error.Some? { return; }
    error := RequireLeaseAvailable(task, actor, now);
    if error.Some? { return; }

    s.tasks := s.tasks[id := task.(owner := actor, status := IN_PROGRESS, leaseExpires := now + ttl.millis)];
    var _ := s.AddLog(id, actor, "claimed", now);
    s.AddEvent(TaskClaimed, id, actor, map["ttl" := ttl.text], now);
  }

  method CompleteTask(s: TaskStore, id: nat, actor: string, resolver: Resolver, now: nat) returns (error: Option<Error>)
    modifies s
    ensures Outcome(s.State(), error) == Complete(old(s.State()), id, actor, resolver, now)
  {
    if id !in s.tasks {
      return Some(TaskNotFound);
    }
    var task := s.tasks[id];
    if task.status == COMPLETED {
      return Some(InvalidTransition);
    }
    error := RequireDependencies(task, s.tasks, resolver);
    if error.Some? { return; }
    error := RequireOwner(task, actor);
    if error.Some? { return; }

    s.tasks := s.tasks[id := task.(status := COMPLETED, completed := now, owner := "", leaseExpires := 0,
                                   blockReason := "")];
    s.AddEvent(TaskCompleted, id, actor, map[], now);
  }

  method ReleaseTask(s: TaskStore, id: nat, actor: string, failure: string, now: nat) returns (error: Option<Error>)
    modifies s
    ensures Outcome(s.State(), error) == Release(old(s.State()), id, actor, failure, now)
  {
    if id !in s.tasks {
      return Some(TaskNotFound);
    }
    error := RequireInProgress(s.tasks[id]);
    if error.Some? { return; }
    error := RequireOwner(s.tasks[id], actor);
    if error.Some? { return; }

    var task := s.tasks[id];
    s.tasks := s.tasks[id := task.(retryCount := (task.retryCount + 1) % RETRY_LIMIT)];
    var data: map<string, string> := map[];
    if failure != "" {
      s.tasks := s.tasks[id := s.tasks[id].(lastError := failure)];
      data := data["error" := failure];
      var _ := s.AddLog(id, actor, "released with error: " + failure, now);
    } else {
      var _ := s.AddLog(id, actor, "released", now);
    }
    s.AddEvent(TaskReleased, id, actor, data, now);
    s.tasks := s.tasks[id := s.tasks[id].(owner := "", leaseExpires := 0, status := PENDING)];
  }

  method BlockTask(s: TaskStore, id: nat, actor: string, reason: string, now: nat) returns (error: Option<Error>)
    modifies s
    ensures Outcome(s.State(), error) == Block(old(s.State()), id, actor, reason, now)
  {
    if id !in s.tasks {
      return Some(TaskNotFound);
    }
    var task := s.tasks[id];
    if task.status == COMPLETED {
      return Some(InvalidTransition);
    }
    error := RequireOwner(task, actor);
    if error.Some? { return; }

    s.tasks := s.tasks[id := task.(status := BLOCKED, blockReason := reason, owner := "", leaseExpires := 0)];
    var _ := s.AddLog(id, actor, "blocked: " + reason, now);
    s.AddEvent(TaskBlocked, id, actor, map["reason" := reason], now);
  }

  method UnblockTask(s: TaskStore, id: nat, actor: string, now: nat) returns (error: Option<Error>)
    modifies s
    ensures Outcome(s.State(), error) == Unblock(old(s.State()), id, actor, now)
  {
    if id !in s.tasks {
      return Some(TaskNotFound);
    }
    var task := s.tasks[id];
    if task.status != BLOCKED {
      return Some(InvalidTransition);
    }
    s.tasks := s.tasks[id := task.(status := PENDING, blockReason := "", owner := "", leaseExpires := 0)];
    var _ := s.AddLog(id, actor, "unblocked", now);
    s.AddEvent(TaskUnblocked, id, actor, map[], now);
    return None;
  }

  method LogTask(s: TaskStore, id: nat, actor: string, message: string, now: nat) returns (error: Option<Error>)
    modifies s
    ensures Outcome(s.State(), error) == Note(old(s.State()), id, actor, message, now)
  {
    if id !in s.tasks {
      return Some(TaskNotFound);
    }
    error := RequireOwner(s.tasks[id], actor);
    if error.Some? { return; }
    var _ := s.AddLog(id, actor, message, now);
  }

  method RenewLease(s: TaskStore, id: nat, actor: string, ttl: Duration, render: Rendering, now: nat)
    returns (error: Option<Error>)
    modifies s
    ensures Outcome(s.State(), error) == Renew(old(s.State()), id, actor, ttl, render, now)
  {
    if id !in s.tasks {
      return Some(LeaseTaskNotFound);
    }
    var task := s.tasks[id];
    error := RequireLiveLease(task, actor, now);
    if error.Some? { return; }
    var previousExpiry := task.leaseExpires;
    s.tasks := s.tasks[id := task.(leaseExpires := now + ttl.millis)];
    s.AddEvent(LeaseRenewed, id, actor, map["ttl" := ttl.text, "previous_expires" := render(previousExpiry)], now);
  }

  lemma MergedSize(current: map<string, string>, updates: map<string, string>)
    ensures |current + updates| == |current| + |updates.Keys - current.Keys|
  {
    var added := updates.Keys - current.Keys;
    assert (current + updates).Keys == current.Keys + added;
    assert |current.Keys + added| == |current.Keys| + |added|;
  }

  lemma OneMoreCounted(counted: set<string>, remaining: set<string>, key: string)
    requires key in remaining
    ensures |counted - (remaining - {key})| == |counted - remaining| + (if key in counted then 1 else 0)
  {
    assert counted - (remaining - {key}) == counted - remaining + (if key in counted then {key} else {});
  }

  /** The number of entries after the updates: the ones there plus the keys that are new. */
  method ProjectedExtraCount(current: map<string, string>, updates: map<string, string>) returns (count: nat)
    ensures count == |current + updates|
  {
    MergedSize(current, updates);
    count := |current|;
    var remaining := updates.Keys;
    ghost var newKeys := updates.Keys - current.Keys;
    assert newKeys - remaining == {};
    while remaining != {}
      invariant remaining <= updates.Keys && count == |current| + |newKeys - remaining|
    {
      var key :| key in remaining;
      OneMoreCounted(newKeys, remaining, key);
      remaining := remaining - {key};
      if key !in current {
        count := count + 1;
      }
    }
    assert newKeys - remaining == newKeys;
  }

  method HandoffTask(s: TaskStore, id: nat, actor: string, extra: map<string, string>, now: nat)
    returns (error: Option<Error>)
    modifies s
    ensures Outcome(s.State(), error) == Handoff(old(s.State()), id, actor, extra, now)
  {
    if id !in s.tasks {
      return Some(LeaseTaskNotFound);
    }
    var task := s.tasks[id];
    error := RequireLiveLease(task, actor, now);
    if error.Some? { return; }
    var projected := ProjectedExtraCount(task.extra, extra);
    if !WithinCardinality(|task.extra|, projected, MAX_EXTRA) {
      return Some(PersistedInput);
    }
    YieldWithContext(s, id, actor, extra, now);
  }

  /** The writes of a handoff: context merged in, then the task given up. */
  method YieldWithContext(s: TaskStore, id: nat, actor: string, extra: map<string, string>, now: nat)
    requires id in s.tasks
    modifies s
    ensures s.State() == HandedOff(old(s.State()), id, actor, extra, now)
  {
    ghost var before := s.State();
    var task := s.tasks[id];
    s.tasks := s.tasks[id := task.(extra := task.extra + extra)];
    s.AddEvent(TaskUpdated, id, actor, map["source" := "handoff"], now);
    var _ := s.AddLog(id, actor, "handed off with structured context", now);
    s.AddEvent(TaskReleased, id, actor, map["handoff" := "true"], now);
    s.tasks := s.tasks[id := s.tasks[id].(owner := "", leaseExpires := 0, status := PENDING)];
    assert s.tasks == HandedOff(before, id, actor, extra, now).tasks;
  }

  // ----- creating work -----

  /** The transaction of `todo add`: local references checked and made canonical, then the cycle check. */
  method AddTask(s: TaskStore, title: string, afterIds: seq<string>, priority: real, capabilities: seq<string>,
                 tags: seq<string>, now: nat) returns (error: Option<Error>)
    modifies s
    ensures Outcome(s.State(), error) == Add(old(s.State()), title, afterIds, priority, capabilities, tags, now)
  {
    var d := new DAG();
    d.BuildFromTasks(s.tasks);
    var finalDeps: seq<string> := [];
    for i := 0 to |afterIds|
      invariant finalDeps == CreatedDeps(afterIds[..i])
      invariant AddGuard(s.tasks, afterIds) == AddGuard(s.tasks, afterIds[i..])
      invariant s.State() == old(s.State()) && d.EdgeSet() == DepEdges(s.tasks)
    {
      var dep := afterIds[i];
      assert afterIds[i..][0] == dep && afterIds[i..][1..] == afterIds[i + 1..];
      var depId := ParseLocalID(dep);
      if depId.Some? {
        if depId.value !in s.tasks {
          return Some(TaskNotFound);
        }
        finalDeps := finalDeps + [LocalUri(depId.value)];
      } else {
        if ParseTaskURI(dep).None? {
          return Some(PersistedInput);
        }
        finalDeps := finalDeps + [dep];
      }
      assert CreatedDeps(afterIds[..i + 1]) == CreatedDeps(afterIds[..i]) + [CreatedDep(dep)];
    }
    assert afterIds[..|afterIds|] == afterIds;
    var cycle := d.DetectCycle(finalDeps, s.nextId);
    if cycle.Some? {
      return Some(CycleDetected);
    }
    FileTask(s, title, finalDeps, priority, capabilities, tags, now);
    return None;
  }

  method FileTask(s: TaskStore, title: string, finalDeps: seq<string>, priority: real, capabilities: seq<string>,
                  tags: seq<string>, now: nat)
    modifies s
    ensures s.State() == Created(old(s.State()), title, finalDeps, priority, capabilities, tags, now)
  {
    var id := s.AddTask(title, finalDeps, now);
    s.tasks := s.tasks[id := s.tasks[id].(priority := priority)];
    s.tasks := s.tasks[id := s.tasks[id].(capabilities := capabilities)];
    s.tasks := s.tasks[id := s.tasks[id].(tags := tags)];
    s.AddEvent(TaskCreated, id, "", map["title" := title], now);
  }

  /** The distinct canonical forms of a dependency list. */
  method CollectCanonical(depends: seq<string>) returns (deps: set<string>)
    ensures deps == CanonicalSet(depends)
  {
    deps := {};
    for i := 0 to |depends|
      invariant deps == CanonicalSet(depends[..i])
    {
      assert depends[..i + 1] == depends[..i] + [depends[i]];
      var canonical := CanonicalDependency(depends[i]);
      assert CanonicalSet(depends[..i + 1]) == CanonicalSet(depends[..i]) + {CanonicalOrSelf(depends[i])};
      deps := deps + {if canonical.Some? then canonical.value else depends[i]};
    }
    assert depends[..|depends|] == depends;
  }

  lemma CanonicalSetLocalDeps(depends: seq<string>, listed: seq<string>)
    requires Elements(listed) == CanonicalSet(depends)
    ensures LocalDeps(listed) == LocalDeps(depends)
  {
    forall d | d in depends
      ensures CanonicalOrSelf(d) in listed && ParseLocalID(CanonicalOrSelf(d)) == ParseLocalID(d)
    {
      CanonicalOrSelfStable(d);
      assert CanonicalOrSelf(d) in Elements(listed);
    }
    forall c | c in listed ensures exists d :: d in depends && c == CanonicalOrSelf(d) {
      assert c in Elements(listed);
    }
  }

  lemma ChildUrisNext(first: nat, n: nat)
    ensures ChildUris(first, n + 1) == ChildUris(first, n) + [LocalUri(first + n)]
  {
  }

  /** The parent's distinct edges followed by the children's reserved URIs. */
  method ProjectDeps(parentDeps: set<string>, firstChild: nat, count: nat)
    returns (projected: seq<string>, ghost listed: seq<string>)
    ensures projected == listed + ChildUris(firstChild, count)
    ensures Elements(listed) == parentDeps && |listed| == |parentDeps|
  {
    projected := [];
    var remaining := parentDeps;
    while remaining != {}
      invariant remaining <= parentDeps
      invariant Elements(projected) == parentDeps - remaining
      invariant |projected| == |parentDeps| - |remaining|
    {
      var dep :| dep in remaining;
      assert parentDeps - (remaining - {dep}) == parentDeps - remaining + {dep};
      remaining := remaining - {dep};
      ElementsSnoc(projected, dep);
      projected := projected + [dep];
    }
    listed := projected;
    for i := 0 to count
      invariant projected == listed + ChildUris(firstChild, i)
    {
      projected := projected + [LocalUri(firstChild + i)];
      ChildUrisNext(firstChild, i);
    }
  }

  lemma WithChildrenStart(s: StoreState, parent: nat, subtasks: seq<Subtask>, now: nat)
    requires parent in s.tasks
    ensures WithChildren(s, parent, subtasks[..0], now) == s
  {
    var s' := WithChildren(s, parent, subtasks[..0], now);
    assert s.tasks[parent].depends + ChildUris(s.nextId, 0) == s.tasks[parent].depends;
    assert s'.tasks == s.tasks;
  }

  /** The store with one more child filed and appended to the parent's dependencies. */
  function WithChild(s: StoreState, parent: nat, sub: Subtask, now: nat): StoreState
    requires parent in s.tasks
  {
    var child := NewTask(s.nextId, sub.title, [], now).(capabilities := sub.capabilities, lineage := LocalUri(parent));
    var p := s.tasks[parent].(depends := s.tasks[parent].depends + [LocalUri(s.nextId)]);
    s.(tasks := s.tasks[s.nextId := child][parent := p], nextId := s.nextId + 1, lastModified := now)
  }

  /** The tasks of a decomposition one by one; a child takes its ID whatever was stored there. */
  lemma WithChildrenAt(s: StoreState, parent: nat, subtasks: seq<Subtask>, now: nat, k: nat)
    requires parent in s.tasks
    ensures var tasks, n := WithChildren(s, parent, subtasks, now).tasks, |subtasks|;
            && (k in tasks <==> k in s.tasks || s.nextId <= k < s.nextId + n)
            && (k == parent ==>
                  tasks[k] == s.tasks[parent].(depends := s.tasks[parent].depends + ChildUris(s.nextId, n)))
            && (k != parent && s.nextId <= k < s.nextId + n ==> tasks[k] == Child(s, parent, subtasks, k, now))
            && (k != parent && k in tasks && !(s.nextId <= k < s.nextId + n) ==> tasks[k] == s.tasks[k])
  {
  }

  /** Filing one more child changes the task under its ID, and the parent. */
  lemma WithChildrenStepAt(s: StoreState, parent: nat, subtasks: seq<Subtask>, i: nat, now: nat, k: nat)
    requires parent in s.tasks && i < |subtasks| && !(s.nextId <= parent < s.nextId + |subtasks|)
    requires var before := WithChildren(s, parent, subtasks[..i], now);
             parent in before.tasks && before.nextId == s.nextId + i
    ensures var before := WithChildren(s, parent, subtasks[..i], now);
            var stepped, after := WithChild(before, parent, subtasks[i], now).tasks,
                                  WithChildren(s, parent, subtasks[..i + 1], now).tasks;
            (k in after <==> k in stepped) && (k in after ==> after[k] == stepped[k])
  {
    hide WithChildren, ChildUris;
    ChildUrisNext(s.nextId, i);
    WithChildrenAt(s, parent, subtasks[..i], now, parent);
    WithChildrenAt(s, parent, subtasks[..i], now, k);
    WithChildrenAt(s, parent, subtasks[..i + 1], now, k);
  }

  lemma WithChildrenStep(s: StoreState, parent: nat, subtasks: seq<Subtask>, i: nat, now: nat)
    requires parent in s.tasks && i < |subtasks| && !(s.nextId <= parent < s.nextId + |subtasks|)
    ensures var before := WithChildren(s, parent, subtasks[..i], now);
            && before.nextId == s.nextId + i && parent in before.tasks && parent != before.nextId
            && WithChildren(s, parent, subtasks[..i + 1], now) == WithChild(before, parent, subtasks[i], now)
  {
    hide ChildUris, Child;
    var before, after := WithChildren(s, parent, subtasks[..i], now), WithChildren(s, parent, subtasks[..i + 1], now);
    var stepped := WithChild(before, parent, subtasks[i], now);
    assert after.tasks == stepped.tasks by {
      hide WithChildren, WithChild;
      forall k
        ensures k in after.tasks <==> k in stepped.tasks
        ensures k in after.tasks ==> after.tasks[k] == stepped.tasks[k]
      {
        WithChildrenStepAt(s, parent, subtasks, i, now, k);
      }
    }
  }

  /** A parent that the children would overwrite is refused, because it would depend on itself. */
  lemma ChildOfItselfIsACycle(tasks: map<nat, Task>, parent: nat, depends: seq<string>, first: nat, n: nat)
    requires 0 < parent < UINT64_LIMIT && first <= parent < first + n
    ensures Cyclic(DepEdges(tasks) + ProposedEdges(depends + ChildUris(first, n), parent))
  {
    var edges := DepEdges(tasks) + ProposedEdges(depends + ChildUris(first, n), parent);
    LocalUriParses(parent);
    assert ChildUris(first, n)[parent - first] == LocalUri(parent);
    assert parent in LocalDeps(depends + ChildUris(first, n));
    assert IsCycle(edges, [parent, parent]);
  }

  method DecomposeTask(s: TaskStore, parentId: nat, actor: string, subtasks: seq<Subtask>, now: nat)
    returns (error: Option<Error>, added: seq<nat>)
    requires 0 < parentId < UINT64_LIMIT
    modifies s
    ensures Outcome(s.State(), error) == Decompose(old(s.State()), parentId, actor, subtasks, now)
    ensures added == if error.None? then seq(|subtasks|, i => old(s.nextId) + i) else []
  {
    added := [];
    if parentId !in s.tasks {
      return Some(TaskNotFound), [];
    }
    var parent := s.tasks[parentId];
    if parent.status == COMPLETED {
      return Some(InvalidTransition), [];
    }
    error := RequireOwner(parent, actor);
    if error.Some? { return; }
    var parentDepSet := CollectCanonical(parent.depends);
    var projectedDeps, listed := ProjectDeps(parentDepSet, s.nextId, |subtasks|);
    if !WithinCardinality(|parentDepSet|, |projectedDeps|, MAX_DEPENDENCIES) {
      return Some(PersistedInput), [];
    }
    var d := new DAG();
    d.BuildFromTasks(s.tasks);
    var cycle := d.DetectCycle(projectedDeps, parentId);
    CanonicalSetLocalDeps(parent.depends, listed);
    LocalDepsConcat(listed, ChildUris(s.nextId, |subtasks|));
    LocalDepsConcat(parent.depends, ChildUris(s.nextId, |subtasks|));
    if cycle.Some? {
      return Some(CycleDetected), [];
    }
    if s.nextId <= parentId < s.nextId + |subtasks| {
      ChildOfItselfIsACycle(s.tasks, parentId, parent.depends, s.nextId, |subtasks|);
      assert false;
    }
    added := AddChildren(s, parentId, subtasks, now);
    s.tasks := s.tasks[parentId := s.tasks[parentId].(status := PENDING, owner := "", leaseExpires := 0,
                                                      blockReason := "")];
    s.AddEvent(TaskDecomposed, parentId, actor, map["count" := FormatUint(|subtasks|)], now);
  }

  method AddChild(s: TaskStore, parentId: nat, sub: Subtask, now: nat) returns (childId: nat)
    requires parentId in s.tasks && parentId != s.nextId
    modifies s
    ensures childId == old(s.nextId) && s.State() == WithChild(old(s.State()), parentId, sub, now)
  {
    childId := s.AddTask(sub.title, [], now);
    s.tasks := s.tasks[childId := s.tasks[childId].(capabilities := sub.capabilities)];
    s.tasks := s.tasks[childId := s.tasks[childId].(lineage := LocalUri(parentId))];
    s.tasks := s.tasks[parentId := s.tasks[parentId].(depends := s.tasks[parentId].depends + [LocalUri(childId)])];
  }

  /** The loop that files the children and extends the parent's dependency list. */
  method AddChildren(s: TaskStore, parentId: nat, subtasks: seq<Subtask>, now: nat) returns (added: seq<nat>)
    requires parentId in s.tasks && !(s.nextId <= parentId < s.nextId + |subtasks|)
    modifies s
    ensures s.State() == WithChildren(old(s.State()), parentId, subtasks, now)
    ensures added == seq(|subtasks|, i => old(s.nextId) + i)
  {
    added := [];
    ghost var before := s.State();
    WithChildrenStart(before, parentId, subtasks, now);
    for i := 0 to |subtasks|
      invariant s.State() == WithChildren(before, parentId, subtasks[..i], now)
      invariant added == seq(i, j => before.nextId + j)
    {
      WithChildrenStep(before, parentId, subtasks, i, now);
      var childId := AddChild(s, parentId, subtasks[i], now);
      added := added + [childId];
    }
    assert subtasks[..|subtasks|] == subtasks;
  }
}
