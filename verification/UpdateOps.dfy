/** `updateTask` and `applyDependencyEdits` as loops over sets and lists, tied to their transitions. */
module UpdateOps {
  import opened Wrappers
  import opened TaskReference
  import opened Digraph
  import opened Orders
  import opened StoreModel
  import opened DependencyGraph
  import opened Transitions
  import opened TaskStores
  import opened CoordinationOps

  method RemoveDeps(current: set<string>, remove: seq<string>) returns (result: Result<set<string>, Error>)
    ensures result == RemoveEdits(current, {}, remove)
  {
    var deps, seen: set<string> := current, {};
    for i := 0 to |remove|
      invariant RemoveEdits(current, {}, remove) == RemoveEdits(deps, seen, remove[i..])
    {
      var rest := remove[i..];
      assert rest[0] == remove[i] && rest[1..] == remove[i + 1..];
      var canonical := CanonicalDependency(remove[i]);
      if canonical.None? {
        return Failure(PersistedInput);
      }
      if canonical.value !in seen {
        seen := seen + {canonical.value};
        if canonical.value !in deps {
          return Failure(TaskNotFound);
        }
        deps := deps - {canonical.value};
      }
    }
    return Success(deps);
  }

  method AddDeps(tasks: map<nat, Task>, current: set<string>, add: seq<string>)
    returns (result: Result<set<string>, Error>)
    ensures result == AddEdits(tasks, current, add)
  {
    var deps := current;
    for i := 0 to |add|
      invariant AddEdits(tasks, current, add) == AddEdits(tasks, deps, add[i..])
    {
      var rest := add[i..];
      assert rest[0] == add[i] && rest[1..] == add[i + 1..];
      var canonical := CanonicalDependency(add[i]);
      if canonical.None? {
        return Failure(PersistedInput);
      }
      if canonical.value !in deps {
        var depId := ParseLocalID(canonical.value);
        if depId.Some? && depId.value !in tasks {
          return Failure(TaskNotFound);
        }
        deps := deps + {canonical.value};
      }
    }
    return Success(deps);
  }

  /** The store with one event per listed edge appended to its log. */
  function WithEdgeEvents(s: StoreState, kind: EventType, deps: seq<string>, id: nat, actor: string,
                          now: nat): StoreState
  {
    s.(events := s.events + EdgeEvents(kind, deps, id, actor, s.nextEventId, now),
       nextEventId := s.nextEventId + |deps|,
       lastModified := if deps == [] then s.lastModified else now)
  }

  lemma WithEdgeEventsStep(s: StoreState, kind: EventType, deps: seq<string>, dep: string, id: nat, actor: string,
                           now: nat)
    ensures WithEdgeEvents(s, kind, [], id, actor, now) == s
    ensures WithEdgeEvents(s, kind, deps + [dep], id, actor, now) ==
            WithEvent(WithEdgeEvents(s, kind, deps, id, actor, now), kind, id, actor, map["dep" := dep], now)
  {
    assert s.events + EdgeEvents(kind, [], id, actor, s.nextEventId, now) == s.events;
    assert EdgeEvents(kind, deps + [dep], id, actor, s.nextEventId, now) ==
           EdgeEvents(kind, deps, id, actor, s.nextEventId, now)
           + [Event(s.nextEventId + |deps|, now, kind, id, actor, map["dep" := dep])];
  }

  /** One event for each listed edge that was not there before, in list order. */
  method LogAdditions(s: TaskStore, id: nat, actor: string, newDeps: seq<string>, oldSet: set<string>, now: nat)
    modifies s
    ensures s.State() == WithEdgeEvents(old(s.State()), DependencyAdded, NotIn(newDeps, oldSet), id, actor, now)
  {
    ghost var before := s.State();
    WithEdgeEventsStep(before, DependencyAdded, [], "", id, actor, now);
    for i := 0 to |newDeps|
      invariant s.State() == WithEdgeEvents(before, DependencyAdded, NotIn(newDeps[..i], oldSet), id, actor, now)
    {
      var prefix := newDeps[..i + 1];
      assert prefix[..|prefix| - 1] == newDeps[..i] && prefix[|prefix| - 1] == newDeps[i];
      if newDeps[i] !in oldSet {
        WithEdgeEventsStep(before, DependencyAdded, NotIn(newDeps[..i], oldSet), newDeps[i], id, actor, now);
        s.AddEvent(DependencyAdded, id, actor, map["dep" := newDeps[i]], now);
      }
    }
    assert newDeps[..|newDeps|] == newDeps;
  }

  /** One event for each old edge that is gone, in the order the iteration meets them. */
  method LogRemovals(s: TaskStore, id: nat, actor: string, oldSet: set<string>, depSet: set<string>, now: nat)
    returns (ghost order: seq<string>)
    modifies s
    ensures Enumerates(order, oldSet - depSet)
    ensures s.State() == WithEdgeEvents(old(s.State()), DependencyRemoved, order, id, actor, now)
  {
    ghost var before := s.State();
    WithEdgeEventsStep(before, DependencyRemoved, [], "", id, actor, now);
    order := [];
    var remaining := oldSet;
    while remaining != {}
      invariant remaining <= oldSet && Distinct(order)
      invariant forall d :: d in order <==> d in oldSet && d !in remaining && d !in depSet
      invariant s.State() == WithEdgeEvents(before, DependencyRemoved, order, id, actor, now)
    {
      var dep :| dep in remaining;
      remaining := remaining - {dep};
      if dep !in depSet {
        WithEdgeEventsStep(before, DependencyRemoved, order, dep, id, actor, now);
        s.AddEvent(DependencyRemoved, id, actor, map["dep" := dep], now);
        order := order + [dep];
      }
    }
  }

  lemma WithEdgesInSteps(s: StoreState, id: nat, actor: string, target: set<string>, order: seq<string>, now: nat)
    requires id in s.tasks && Enumerates(order, CanonicalSet(s.tasks[id].depends) - target)
    ensures var added := AdditionOrder(target, CanonicalSet(s.tasks[id].depends));
            var logged := WithEdgeEvents(WithEdgeEvents(s, DependencyAdded, added, id, actor, now), DependencyRemoved,
                                         order, id, actor, now);
            logged.(tasks := s.tasks[id := s.tasks[id].(depends := SortedStrings(target))]) ==
            WithEdges(s, id, actor, target, order, now)
  {
    hide AdditionOrder, SortedStrings, CanonicalSet, Enumerates;
    var added := AdditionOrder(target, CanonicalSet(s.tasks[id].depends));
    assert RemovalOrder(order, CanonicalSet(s.tasks[id].depends) - target) == order;
    var a := EdgeEvents(DependencyAdded, added, id, actor, s.nextEventId, now);
    var r := EdgeEvents(DependencyRemoved, order, id, actor, s.nextEventId + |added|, now);
    assert EditEvents(s, id, actor, target, order, now) == a + r;
    assert s.events + a + r == s.events + (a + r);
  }

  lemma NoProposedEdges(e: Edges, id: nat)
    ensures e + ProposedEdges([], id) == e
  {
  }

  method ApplyDependencyEdits(s: TaskStore, id: nat, actor: string, add: seq<string>, remove: seq<string>, now: nat)
    returns (error: Option<Error>, ghost order: seq<string>)
    requires id in s.tasks
    modifies s
    ensures Outcome(s.State(), error) == EditDependencies(old(s.State()), id, actor, add, remove, order, now)
  {
    order := [];
    var task := s.tasks[id];
    var depSet := CollectCanonical(task.depends);
    var removed := RemoveDeps(depSet, remove);
    if removed.Failure? {
      return Some(removed.error), [];
    }
    var edited := AddDeps(s.tasks, removed.value, add);
    if edited.Failure? {
      return Some(edited.error), [];
    }
    depSet := edited.value;
    if !WithinCardinality(|task.depends|, |depSet|, MAX_DEPENDENCIES) {
      return Some(PersistedInput), [];
    }
    var newDeps := SortedMembers(depSet);

    // The cycle check runs on the graph as it would be, not as it is.
    var d := new DAG();
    d.BuildFromTasks(s.tasks[id := task.(depends := newDeps)]);
    var cycle := d.DetectCycle([], id);
    NoProposedEdges(d.EdgeSet(), id);
    if cycle.Some? {
      return Some(CycleDetected), [];
    }
    order := LogAndStore(s, id, actor, depSet, newDeps, now);
    return None, order;
  }

  /** The end of a successful edit: the events, then the new list. */
  method LogAndStore(s: TaskStore, id: nat, actor: string, depSet: set<string>, newDeps: seq<string>, now: nat)
    returns (ghost order: seq<string>)
    requires id in s.tasks && newDeps == SortedStrings(depSet)
    modifies s
    ensures s.State() == WithEdges(old(s.State()), id, actor, depSet, order, now)
  {
    ghost var before := s.State();
    var oldSet := CollectCanonical(s.tasks[id].depends);
    LogAdditions(s, id, actor, newDeps, oldSet, now);
    order := LogRemovals(s, id, actor, oldSet, depSet, now);
    WithEdgesInSteps(before, id, actor, depSet, order, now);
    s.tasks := s.tasks[id := s.tasks[id].(depends := newDeps)];
  }

  method UpdateTask(s: TaskStore, id: nat, actor: string, u: TaskUpdate, now: nat)
    returns (error: Option<Error>, ghost order: seq<string>)
    modifies s
    ensures Outcome(s.State(), error) == Update(old(s.State()), id, actor, u, order, now)
  {
    order := [];
    if id !in s.tasks {
      return Some(TaskNotFound), [];
    }
    error := RequireOwner(s.tasks[id], actor);
    if error.Some? { return; }
    if |u.addDeps| > 0 || |u.removeDeps| > 0 {
      error, order := ApplyDependencyEdits(s, id, actor, u.addDeps, u.removeDeps, now);
      if error.Some? { return; }
    }
    error := UpdateFields(s, id, actor, u, now);
  }

  method SetTitle(s: TaskStore, id: nat, title: Option<string>) returns (error: Option<Error>)
    requires id in s.tasks
    modifies s
    ensures var e := EditTitle(old(s.tasks[id]), title);
            error == e.error && s.State() == WithTask(old(s.State()), id, e.task)
  {
    if title.Some? {
      var trimmed := TrimSpace(title.value);
      if trimmed == "" {
        return Some(InvalidArgs);
      }
      s.tasks := s.tasks[id := s.tasks[id].(title := trimmed)];
    }
    return None;
  }

  method SetPriority(s: TaskStore, id: nat, priority: Option<real>) returns (error: Option<Error>)
    requires id in s.tasks
    modifies s
    ensures var e := EditPriority(old(s.tasks[id]), priority);
            error == e.error && s.State() == WithTask(old(s.State()), id, e.task)
  {
    if priority.Some? {
      if !ValidPriority(priority.value) {
        return Some(InvalidArgs);
      }
      s.tasks := s.tasks[id := s.tasks[id].(priority := priority.value)];
    }
    return None;
  }

  method MergeExtra(s: TaskStore, id: nat, updates: map<string, string>) returns (error: Option<Error>)
    requires id in s.tasks
    modifies s
    ensures var e := EditExtra(old(s.tasks[id]), updates);
            error == e.error && s.State() == WithTask(old(s.State()), id, e.task)
  {
    var extra := s.tasks[id].extra;
    var projected := ProjectedExtraCount(extra, updates);
    if !WithinCardinality(|extra|, projected, MAX_EXTRA) {
      return Some(PersistedInput);
    }
    s.tasks := s.tasks[id := s.tasks[id].(extra := extra + updates)];
    return None;
  }

  lemma LaterTaskWins(s: StoreState, id: nat, a: Task, b: Task)
    ensures WithTask(WithTask(s, id, a), id, b) == WithTask(s, id, b)
  {
    assert s.tasks[id := a][id := b] == s.tasks[id := b];
  }

  /** The field edits in their order; an edit that is refused leaves the earlier ones in place. */
  method UpdateFields(s: TaskStore, id: nat, actor: string, u: TaskUpdate, now: nat) returns (error: Option<Error>)
    requires id in s.tasks
    modifies s
    ensures Outcome(s.State(), error) == EditFields(old(s.State()), id, actor, u, now)
  {
    ghost var before, t := s.State(), s.tasks[id];
    error := SetTitle(s, id, u.title);
    if error.Some? { return; }
    ghost var t1 := s.tasks[id];
    error := SetPriority(s, id, u.priority);
    LaterTaskWins(before, id, t1, s.tasks[id]);
    if error.Some? { return; }
    ghost var t2 := s.tasks[id];
    if u.capabilities.Some? {
      s.tasks := s.tasks[id := s.tasks[id].(capabilities := u.capabilities.value)];
    }
    ghost var t3 := s.tasks[id];
    assert t3 == EditCapabilities(t2, u.capabilities);
    LaterTaskWins(before, id, t2, t3);
    assert s.State() == WithTask(before, id, t3);
    error := MergeExtra(s, id, u.extra);
    LaterTaskWins(before, id, t3, s.tasks[id]);
    assert EditTask(t, u) == Edited(s.tasks[id], error);
    if error.Some? { return; }
    if u.title.Some? || u.priority.Some? || u.capabilities.Some? || |u.extra| > 0 {
      s.AddEvent(TaskUpdated, id, actor, map[], now);
    }
  }
}
