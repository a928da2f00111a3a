/** Every operation keeps the store invariant, whether it succeeds or is refused. */
module Soundness {
  import opened Wrappers
  import opened Decimal
  import opened TaskReference
  import opened Digraph
  import opened Orders
  import opened StoreModel
  import opened DependencyGraph
  import opened Readiness
  import opened Transitions
  import opened DependencyEdits
  import opened Invariant

  // ----- operations that rewrite one task's lifecycle fields -----

  lemma ClaimSound(s: StoreState, id: nat, actor: string, ttl: Duration, resolver: Resolver, now: nat)
    requires Sound(s) && actor != "" && now > 0
    ensures Sound(Claim(s, id, actor, ttl, resolver, now).store)
  {
    var o := Claim(s, id, actor, ttl, resolver, now);
    if o.error.None? {
      SoundWhenOneTouched(s, o.store, id);
    }
  }

  lemma CompleteSound(s: StoreState, id: nat, actor: string, resolver: Resolver, now: nat)
    requires Sound(s) && now > 0
    ensures Sound(Complete(s, id, actor, resolver, now).store)
  {
    var o := Complete(s, id, actor, resolver, now);
    if o.error.None? {
      SoundWhenOneTouched(s, o.store, id);
    }
  }

  lemma ReleaseSound(s: StoreState, id: nat, actor: string, failure: string, now: nat)
    requires Sound(s)
    ensures Sound(Release(s, id, actor, failure, now).store)
  {
    var o := Release(s, id, actor, failure, now);
    if o.error.None? {
      SoundWhenOneTouched(s, o.store, id);
    }
  }

  lemma BlockSound(s: StoreState, id: nat, actor: string, reason: string, now: nat)
    requires Sound(s)
    ensures Sound(Block(s, id, actor, reason, now).store)
  {
    var o := Block(s, id, actor, reason, now);
    if o.error.None? {
      SoundWhenOneTouched(s, o.store, id);
    }
  }

  lemma UnblockSound(s: StoreState, id: nat, actor: string, now: nat)
    requires Sound(s)
    ensures Sound(Unblock(s, id, actor, now).store)
  {
    var o := Unblock(s, id, actor, now);
    if o.error.None? {
      SoundWhenOneTouched(s, o.store, id);
    }
  }

  lemma NoteSound(s: StoreState, id: nat, actor: string, message: string, now: nat)
    requires Sound(s)
    ensures Sound(Note(s, id, actor, message, now).store)
  {
    var o := Note(s, id, actor, message, now);
    if o.error.None? {
      SoundWhenOneTouched(s, o.store, id);
    }
  }

  lemma RenewSound(s: StoreState, id: nat, actor: string, ttl: Duration, render: Rendering, now: nat)
    requires Sound(s) && now > 0
    ensures Sound(Renew(s, id, actor, ttl, render, now).store)
  {
    var o := Renew(s, id, actor, ttl, render, now);
    if o.error.None? {
      SoundWhenOneTouched(s, o.store, id);
    }
  }

  lemma HandedOffWrites(s: StoreState, id: nat, actor: string, extra: map<string, string>, now: nat)
    requires id in s.tasks
    ensures var s', t := HandedOff(s, id, actor, extra, now), s.tasks[id];
            && s'.tasks == s.tasks[id := t.(extra := t.extra + extra, owner := "", leaseExpires := 0, status := PENDING,
                                            log := t.log +
                                                   [LogEntry(now, actor, "handed off with structured context")])]
            && s'.nextId == s.nextId && s'.acquisitions == s.acquisitions && s'.nextEventId == s.nextEventId + 2
            && s'.events == s.events + [Event(s.nextEventId, now, TaskUpdated, id, actor, map["source" := "handoff"]),
                                        Event(s.nextEventId + 1, now, TaskReleased, id, actor,
                                              map["handoff" := "true"])]
  {
    var s', t := HandedOff(s, id, actor, extra, now), s.tasks[id];
    var yielded := t.(extra := t.extra + extra, owner := "", leaseExpires := 0, status := PENDING);
    assert s'.tasks == s.tasks[id := yielded][id := s'.tasks[id]];
  }

  lemma HandoffSound(s: StoreState, id: nat, actor: string, extra: map<string, string>, now: nat)
    requires Sound(s)
    ensures Sound(Handoff(s, id, actor, extra, now).store)
  {
    hide HandedOff;
    var o := Handoff(s, id, actor, extra, now);
    if o.error.None? {
      HandedOffWrites(s, id, actor, extra, now);
      SoundWhenOneTouched(s, o.store, id);
    }
  }

  lemma AcquireSound(s: StoreState, r: AcquireRequest, resolver: Resolver, now: nat)
    requires Sound(s) && r.actor != "" && now > 0
    ensures Sound(Acquire(s, r, resolver, now).outcome.store)
  {
    var s' := Acquire(s, r, resolver, now).outcome.store;
    if s' != s {
      SoundWhenOneTouched(s, s', Best(s.tasks, Candidates(s.tasks, resolver, r.capabilities, true)));
    }
  }

  lemma SweepSound(s: StoreState, now: nat)
    requires Sound(s)
    ensures Sound(Sweep(s, now))
  {
    ExpiredListed(s.tasks, now);
    SoundWhenTouched(s, Sweep(s, now));
  }

  lemma CompactSound(s: StoreState, options: CompactOptions, now: nat, rest: SubMilli)
    requires Sound(s)
    ensures Sound(Compact(s, options, now, rest))
  {
    SoundWhenTouched(s, Compact(s, options, now, rest));
  }

  // ----- creating work -----

  lemma {:induction false} AddGuardMeaning(tasks: map<nat, Task>, after: seq<string>)
    ensures AddGuard(tasks, after).None? <==> DepsSound(after, tasks.Keys)
  {
    if after != [] {
      var d, rest := after[0], after[1..];
      AddGuardMeaning(tasks, rest);
      LocalParsersAgree(d);
      assert forall x :: x in after <==> x == d || x in rest;
      assert DepsSound(after, tasks.Keys) <==> DepSound(d, tasks.Keys) && DepsSound(rest, tasks.Keys);
    }
  }

  lemma CreatedDepsSound(tasks: map<nat, Task>, after: seq<string>)
    requires AddGuard(tasks, after).None?
    ensures DepsSound(CreatedDeps(after), tasks.Keys)
  {
    AddGuardMeaning(tasks, after);
    forall d | d in CreatedDeps(after) ensures DepSound(d, tasks.Keys) {
      var i :| 0 <= i < |after| && d == CreatedDep(after[i]);
      assert DepSound(after[i], tasks.Keys);
      CanonicalRoundTrip(after[i]);
    }
  }

  lemma AddSound(s: StoreState, title: string, after: seq<string>, priority: real, capabilities: seq<string>,
                 tags: seq<string>, now: nat)
    requires Sound(s) && ValidPriority(priority)
    ensures Sound(Add(s, title, after, priority, capabilities, tags, now).store)
  {
    var o := Add(s, title, after, priority, capabilities, tags, now);
    if o.error.None? {
      CreatedDepsSound(s.tasks, after);
      SoundWithNewTask(s, o.store, o.store.tasks[s.nextId]);
    }
  }

  lemma ChildUrisSound(first: nat, n: nat, ids: set<nat>)
    requires first > 0 && first + n <= UINT64_LIMIT
    requires forall k :: first <= k < first + n ==> k in ids
    ensures DepsSound(ChildUris(first, n), ids)
    ensures forall a :: a in LocalDeps(ChildUris(first, n)) ==> first <= a < first + n
  {
    forall i | 0 <= i < n
      ensures ParseLocalID(ChildUris(first, n)[i]) == Some(first + i)
    {
      LocalUriParses(first + i);
    }
  }

  lemma DepsSoundConcat(a: seq<string>, b: seq<string>, ids: set<nat>)
    requires DepsSound(a, ids) && DepsSound(b, ids)
    ensures DepsSound(a + b, ids)
  {
  }

  lemma DepsSoundMonotone(depends: seq<string>, ids: set<nat>, more: set<nat>)
    requires DepsSound(depends, ids) && ids <= more
    ensures DepsSound(depends, more)
  {
    assert forall d :: d in depends ==> DepSound(d, ids);
  }

  lemma WithChildrenTasks(s: StoreState, parent: nat, subtasks: seq<Subtask>, now: nat)
    requires Sound(s) && parent in s.tasks && s.nextId + |subtasks| <= UINT64_LIMIT
    ensures var s', n := WithChildren(s, parent, subtasks, now), |subtasks|;
            && (forall k :: k in s'.tasks <==> k in s.tasks || s.nextId <= k < s.nextId + n)
            && (forall k :: k in s.tasks && k != parent ==> s'.tasks[k] == s.tasks[k])
            && (forall k :: s.nextId <= k < s.nextId + n ==>
                  k != parent && s'.tasks[k] == Child(s, parent, subtasks, k, now))
            && s'.tasks[parent] == s.tasks[parent].(depends := s.tasks[parent].depends + ChildUris(s.nextId, n))
  {
  }

  lemma WithChildrenTasksSound(s: StoreState, parent: nat, subtasks: seq<Subtask>, now: nat)
    requires Sound(s) && parent in s.tasks && s.nextId + |subtasks| <= UINT64_LIMIT
    ensures TasksSound(WithChildren(s, parent, subtasks, now).tasks)
  {
    var s', n := WithChildren(s, parent, subtasks, now), |subtasks|;
    WithChildrenTasks(s, parent, subtasks, now);
    ChildUrisSound(s.nextId, n, s'.tasks.Keys);
    forall k | k in s'.tasks
      ensures s'.tasks[k].id == k && LifecycleSound(s'.tasks[k]) && DepsSound(s'.tasks[k].depends, s'.tasks.Keys)
    {
      if k in s.tasks {
        DepsSoundMonotone(s.tasks[k].depends, s.tasks.Keys, s'.tasks.Keys);
      }
      if k == parent {
        DepsSoundConcat(s.tasks[k].depends, ChildUris(s.nextId, n), s'.tasks.Keys);
      }
    }
  }

  /** Fresh children without dependencies, appended to the parent's list, close no cycle. */
  lemma WithChildrenSound(s: StoreState, parent: nat, subtasks: seq<Subtask>, now: nat)
    requires Sound(s) && parent in s.tasks && s.nextId + |subtasks| <= UINT64_LIMIT
    ensures Sound(WithChildren(s, parent, subtasks, now))
  {
    var s', n := WithChildren(s, parent, subtasks, now), |subtasks|;
    WithChildrenTasks(s, parent, subtasks, now);
    WithChildrenTasksSound(s, parent, subtasks, now);
    ChildUrisSound(s.nextId, n, s'.tasks.Keys);
    LocalDepsConcat(s.tasks[parent].depends, ChildUris(s.nextId, n));
    var small, big := DepEdges(s.tasks), DepEdges(s'.tasks);
    forall a: nat, b: nat | (a, b) in big ensures (a, b) in small || !HasIn(big, a) {
      DepEdgesMember(s'.tasks, a, b);
      if s.nextId <= a < s.nextId + n {
        forall m: nat ensures (m, a) !in big {
          DepEdgesMember(s'.tasks, m, a);
        }
      } else {
        DepEdgesMember(s.tasks, a, b);
      }
    }
    PendantEdgesCloseNoCycle(small, big);
  }

  lemma DecomposeSound(s: StoreState, parent: nat, actor: string, subtasks: seq<Subtask>, now: nat)
    requires Sound(s) && s.nextId + |subtasks| <= UINT64_LIMIT
    ensures Sound(Decompose(s, parent, actor, subtasks, now).store)
  {
    var o := Decompose(s, parent, actor, subtasks, now);
    if o.error.None? {
      WithChildrenSound(s, parent, subtasks, now);
      SoundWhenTouched(WithChildren(s, parent, subtasks, now), o.store);
    }
  }

  // ----- updates -----

  lemma CanonicalSetSound(depends: seq<string>, ids: set<nat>)
    requires DepsSound(depends, ids)
    ensures forall c :: c in CanonicalSet(depends) ==> DepSound(c, ids)
  {
    forall d | d in depends ensures DepSound(CanonicalOrSelf(d), ids) {
      CanonicalOrSelfStable(d);
      assert DepSound(d, ids);
    }
  }

  lemma TargetDepsSound(tasks: map<nat, Task>, depends: seq<string>, add: seq<string>, remove: seq<string>,
                        listed: seq<string>)
    requires DepsSound(depends, tasks.Keys) && AllReadable(add)
    requires AdditionsExist(tasks, CanonicalSet(depends) - CanonicalRefs(remove), add)
    requires Elements(listed) == TargetDeps(depends, add, remove)
    ensures DepsSound(listed, tasks.Keys)
  {
    CanonicalSetSound(depends, tasks.Keys);
    forall c | c in listed ensures DepSound(c, tasks.Keys) {
      assert c in Elements(listed);
      if c !in CanonicalSet(depends) - CanonicalRefs(remove) {
        assert c in CanonicalRefs(add);
        var r :| r in add && CanonicalDependency(r) == Some(c);
        CanonicalRoundTrip(r);
        LocalParsersAgree(c);
      }
    }
  }

  lemma NewEdgesSound(s: StoreState, s': StoreState, id: nat, add: seq<string>, remove: seq<string>)
    requires Sound(s) && id in s.tasks && EditAcceptable(s, id, add, remove)
    requires s'.nextId == s.nextId && id in s'.tasks
    requires s'.tasks == s.tasks[id := s.tasks[id].(depends := s'.tasks[id].depends)]
    requires IsListing(s'.tasks[id].depends, TargetDeps(s.tasks[id].depends, add, remove), StringLess)
    ensures Sound(s')
  {
    TargetDepsSound(s.tasks, s.tasks[id].depends, add, remove, s'.tasks[id].depends);
    ProjectedGraph(s.tasks, id, s'.tasks[id].depends);
    SoundWithNewDeps(s, s', id);
  }

  lemma EditDependenciesSound(s: StoreState, id: nat, actor: string, add: seq<string>, remove: seq<string>,
                              order: seq<string>, now: nat)
    requires Sound(s) && id in s.tasks
    ensures var o := EditDependencies(s, id, actor, add, remove, order, now);
            Sound(o.store) && id in o.store.tasks && (o.error.Some? ==> o.store == s)
  {
    EditSucceedsWhen(s, id, actor, add, remove, order, now);
    var o := EditDependencies(s, id, actor, add, remove, order, now);
    if o.error.None? {
      EditLeavesTarget(s, id, actor, add, remove, order, now);
      NewEdgesSound(s, o.store, id, add, remove);
    }
  }

  lemma EditFieldsSound(s: StoreState, id: nat, actor: string, u: TaskUpdate, now: nat)
    requires Sound(s) && id in s.tasks
    ensures Sound(EditFields(s, id, actor, u, now).store)
  {
    SoundWhenOneTouched(s, WithTask(s, id, EditTask(s.tasks[id], u).task), id);
  }

  lemma UpdateSound(s: StoreState, id: nat, actor: string, u: TaskUpdate, order: seq<string>, now: nat)
    requires Sound(s)
    ensures Sound(Update(s, id, actor, u, order, now).store)
  {
    if id in s.tasks && RequireOwner(s.tasks[id], actor).None? {
      if u.addDeps == [] && u.removeDeps == [] {
        EditFieldsSound(s, id, actor, u, now);
      } else {
        EditDependenciesSound(s, id, actor, u.addDeps, u.removeDeps, order, now);
        var edited := EditDependencies(s, id, actor, u.addDeps, u.removeDeps, order, now);
        EditFieldsSound(edited.store, id, actor, u, now);
      }
    }
  }

  // ----- removing work -----

  lemma {:induction false} KeptDepsMember(depends: seq<string>, tasks: map<nat, Task>, c: string)
    ensures c in KeptDeps(depends, tasks) <==> c in CanonicalSet(depends) && !IsCompletedDep(c, tasks)
  {
    if depends != [] {
      var init, last := depends[..|depends| - 1], depends[|depends| - 1];
      assert depends == init + [last];
      KeptDepsMember(init, tasks, c);
      assert CanonicalSet(depends) == CanonicalSet(init) + {CanonicalOrSelf(last)};
    }
  }

  lemma KeptDepsSound(depends: seq<string>, tasks: map<nat, Task>)
    requires DepsSound(depends, tasks.Keys)
    ensures DepsSound(KeptDeps(depends, tasks), tasks.Keys - CompletedIds(tasks))
    ensures LocalDeps(KeptDeps(depends, tasks)) <= LocalDeps(depends)
  {
    CanonicalSetSound(depends, tasks.Keys);
    var kept := KeptDeps(depends, tasks);
    forall c | c in kept
      ensures DepSound(c, tasks.Keys - CompletedIds(tasks))
      ensures ParseLocalID(c).Some? ==> ParseLocalID(c).value in LocalDeps(depends)
    {
      KeptDepsMember(depends, tasks, c);
      var d :| d in depends && c == CanonicalOrSelf(d);
      CanonicalOrSelfStable(d);
      LocalParsersAgree(c);
      assert DepSound(c, tasks.Keys);
    }
  }

  lemma PruneSound(s: StoreState, now: nat)
    requires Sound(s)
    ensures Sound(Prune(s, now))
  {
    var s' := Prune(s, now);
    forall k | k in s'.tasks
      ensures DepsSound(s'.tasks[k].depends, s'.tasks.Keys)
      ensures LocalDeps(s'.tasks[k].depends) <= LocalDeps(s.tasks[k].depends)
    {
      KeptDepsSound(s.tasks[k].depends, s.tasks);
      assert s'.tasks.Keys == s.tasks.Keys - CompletedIds(s.tasks);
    }
    SoundWithFewer(s, s');
  }

  lemma {:induction false} RemoveEachTasks(s: StoreState, ids: seq<nat>, now: nat)
    ensures RemoveEach(s, ids, now).tasks == s.tasks - Elements(ids)
    ensures RemoveEach(s, ids, now).nextId == s.nextId
    ensures RemoveEach(s, ids, now).acquisitions ==
            map q | q in s.acquisitions && (s.acquisitions[q].task.id in s.tasks ==> s.acquisitions[q].task.id !in ids)
              :: s.acquisitions[q]
  {
    if ids != [] {
      var init, id := ids[..|ids| - 1], ids[|ids| - 1];
      RemoveEachTasks(s, init, now);
      assert ids == init + [id];
      ElementsSnoc(init, id);
    }
  }

  lemma RemoveSound(s: StoreState, ids: seq<nat>, now: nat)
    requires Sound(s)
    ensures Sound(Remove(s, ids, now).store)
  {
    var s' := Remove(s, ids, now).store;
    if Remove(s, ids, now).error.None? {
      RemoveEachTasks(s, ids, now);
      forall k | k in s'.tasks ensures DepsSound(s'.tasks[k].depends, s'.tasks.Keys) {
        assert s'.tasks[k] == s.tasks[k] && k !in ids;
        forall d | d in s.tasks[k].depends ensures DepSound(d, s'.tasks.Keys) {
          assert DepSound(d, s.tasks.Keys);
          if ParseLocalID(d).Some? {
            assert ParseLocalID(d).value !in ids;
          }
          LocalParsersAgree(d);
        }
      }
      SoundWithFewer(s, s');
    }
  }
}
