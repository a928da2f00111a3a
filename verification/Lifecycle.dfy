/** How the lifecycle operations work together: what one refuses because of another, and what one undoes. */
module Lifecycle {
  import opened Wrappers
  import opened Decimal
  import opened TaskReference
  import opened StoreModel
  import opened Readiness
  import opened Transitions
  import opened Invariant
  import opened Soundness
  import opened StepEffects

  /** A task that is waiting and belongs to nobody. */
  predicate IsFree(t: Task) {
    t.status == PENDING && t.owner == "" && t.leaseExpires == 0 && t.blockReason == ""
  }

  lemma ClaimKeepsDependencies(s: StoreState, id: nat, actor: string, ttl: Duration, resolver: Resolver, now: nat)
    requires Claim(s, id, actor, ttl, resolver, now).error.None?
    ensures var s1 := Claim(s, id, actor, ttl, resolver, now).store;
            && id in s1.tasks && DependenciesComplete(s1.tasks[id], s1.tasks, resolver)
            && s1.tasks[id].status == IN_PROGRESS && s1.tasks[id].owner == actor
            && s1.tasks[id].leaseExpires == now + ttl.millis
            && s1.tasks[id] == s.tasks[id].(status := IN_PROGRESS, owner := actor, leaseExpires := now + ttl.millis,
                                            log := s.tasks[id].log + [LogEntry(now, actor, "claimed")])
  {
    var s1 := Claim(s, id, actor, ttl, resolver, now).store;
    forall d | d in s1.tasks[id].depends ensures DependencyMet(d, s1.tasks, resolver) {
      assert DependencyMet(d, s.tasks, resolver);
    }
  }

  /** The action is an operation on task `id` in the name of `actor`. */
  predicate WorksOn(a: Action, id: nat, actor: string) {
    match a
    case ClaimTask(i, who, _, _) => i == id && who == actor
    case CompleteTask(i, who, _) => i == id && who == actor
    case ReleaseTask(i, who, _) => i == id && who == actor
    case BlockTask(i, who, _) => i == id && who == actor
    case UnblockTask(i, who) => i == id && who == actor
    case LogTask(i, who, _) => i == id && who == actor
    case DecomposeTask(i, who, _) => i == id && who == actor
    case UpdateTask(i, who, _, _) => i == id && who == actor
    case RenewLease(i, who, _, _) => i == id && who == actor
    case HandoffTask(i, who, _) => i == id && who == actor
    case _ => false
  }

  /** Operations whose own guard is the owner check alone, once the task is in progress. */
  predicate GuardedByOwner(a: Action) {
    a.ReleaseTask? || a.BlockTask? || a.LogTask? || a.DecomposeTask? || a.UpdateTask?
  }

  /** A task in progress under an owner: nothing another actor asks of it is granted, or leaves a trace. */
  lemma OwnedRefusesOthers(s: StoreState, id: nat, other: string, step: Step)
    requires KeyedById(s.tasks) && id in s.tasks && s.tasks[id].status == IN_PROGRESS
    requires s.tasks[id].owner != "" && other != s.tasks[id].owner
    requires WorksOn(step.action, id, other) && !step.action.ClaimTask?
    ensures Perform(s, step).error.Some? && Perform(s, step).store == s
    ensures GuardedByOwner(step.action) ==> Perform(s, step).error == Some(NotOwner)
  {
    hide DependenciesComplete, WithEvent, WithLog, WithTask, EditFields, EditDependencies;
    if GuardedByOwner(step.action) {
      OwnerGuardRefuses(s, id, other, step);
    }
  }

  lemma OwnerGuardRefuses(s: StoreState, id: nat, other: string, step: Step)
    requires KeyedById(s.tasks) && id in s.tasks && s.tasks[id].status == IN_PROGRESS
    requires s.tasks[id].owner != "" && other != s.tasks[id].owner
    requires WorksOn(step.action, id, other) && GuardedByOwner(step.action)
    ensures Perform(s, step) == Outcome(s, Some(NotOwner))
  {
    hide DependenciesComplete, WithEvent, WithLog, WithTask, WithChildren, EditFields, EditDependencies, CanonicalSet;
  }

  lemma OwnedIsNotRemoved(s: StoreState, id: nat, ids: seq<nat>, now: nat)
    requires id in s.tasks && s.tasks[id].status == IN_PROGRESS && s.tasks[id].owner != "" && id in ids
    ensures Remove(s, ids, now).error.Some? && Remove(s, ids, now).store == s
  {
    RemoveGuardMeaning(s.tasks, ids);
  }

  /**
   * A claim shuts everyone else out of the task: another actor can claim it exactly when the lease
   * has run out, everything else another actor asks of it is refused without a trace, and so is
   * any removal, while the owner can claim it again at any time.
   */
  lemma ClaimShutsOthersOut(s: StoreState, id: nat, actor: string, ttl: Duration, resolver: Resolver, now: nat,
                            other: string, span: Duration, step: Step)
    requires KeyedById(s.tasks) && actor != "" && other != actor
    requires Claim(s, id, actor, ttl, resolver, now).error.None?
    ensures var s1, later := Claim(s, id, actor, ttl, resolver, now).store, step.now;
            && KeyedById(s1.tasks)
            && Claim(s1, id, actor, span, resolver, later).error == None
            && Claim(s1, id, other, span, resolver, later).error ==
               (if later < now + ttl.millis then Some(AlreadyClaimed) else None)
            && (WorksOn(step.action, id, other) && !step.action.ClaimTask? ==>
                  && Perform(s1, step).error.Some? && Perform(s1, step).store == s1
                  && (GuardedByOwner(step.action) ==> Perform(s1, step).error == Some(NotOwner)))
            && (step.action.RemoveTasks? && id in step.action.ids ==>
                  Perform(s1, step).error.Some? && Perform(s1, step).store == s1)
  {
    hide DependenciesComplete, WithEvent, WithLog, Remove;
    ClaimKeepsDependencies(s, id, actor, ttl, resolver, now);
    var s1 := Claim(s, id, actor, ttl, resolver, now).store;
    ClaimKeepsKeys(s, id, actor, ttl, resolver, now);
    if WorksOn(step.action, id, other) && !step.action.ClaimTask? {
      OwnedRefusesOthers(s1, id, other, step);
    }
    if step.action.RemoveTasks? && id in step.action.ids {
      OwnedIsNotRemoved(s1, id, step.action.ids, step.now);
    }
  }

  lemma ClaimKeepsKeys(s: StoreState, id: nat, actor: string, ttl: Duration, resolver: Resolver, now: nat)
    requires KeyedById(s.tasks)
    ensures KeyedById(Claim(s, id, actor, ttl, resolver, now).store.tasks)
  {
  }

  /** A renewed lease is live until its new expiry and no longer. */
  lemma RenewMovesExpiry(s: StoreState, id: nat, actor: string, ttl: Duration, render: Rendering, now: nat, later: nat)
    requires Renew(s, id, actor, ttl, render, now).error.None?
    ensures var s1 := Renew(s, id, actor, ttl, render, now).store;
            && id in s1.tasks
            && (RequireLiveLease(s1.tasks[id], actor, later).None? <==> later < now + ttl.millis)
            && (HoldsExpiredLease(s1.tasks[id], later) <==> now + ttl.millis != 0 && now + ttl.millis <= later)
  {
  }

  /** Releasing undoes claiming: only the retry count and the log remember it. */
  lemma ReleaseUndoesClaim(s: StoreState, id: nat, actor: string, ttl: Duration, resolver: Resolver, now: nat,
                           later: nat)
    requires id in s.tasks && IsFree(s.tasks[id]) && Claim(s, id, actor, ttl, resolver, now).error.None?
    ensures var o := Release(Claim(s, id, actor, ttl, resolver, now).store, id, actor, "", later);
            && o.error.None? && id in o.store.tasks
            && o.store.tasks[id] == s.tasks[id].(
                 retryCount := (s.tasks[id].retryCount + 1) % RETRY_LIMIT,
                 log := s.tasks[id].log + [LogEntry(now, actor, "claimed"), LogEntry(later, actor, "released")])
  {
    ClaimKeepsDependencies(s, id, actor, ttl, resolver, now);
    hide Claim, DependenciesComplete;
    var log := s.tasks[id].log;
    assert log + [LogEntry(now, actor, "claimed")] + [LogEntry(later, actor, "released")]
        == log + [LogEntry(now, actor, "claimed"), LogEntry(later, actor, "released")];
  }

  /** A handoff before the lease runs out gives the task back free, with the context merged in. */
  lemma HandoffFreesWithContext(s: StoreState, id: nat, actor: string, ttl: Duration, resolver: Resolver, now: nat,
                                extra: map<string, string>, later: nat)
    requires actor != "" && id in s.tasks && IsFree(s.tasks[id]) && Claim(s, id, actor, ttl, resolver, now).error.None?
    requires WithinCardinality(|s.tasks[id].extra|, |s.tasks[id].extra + extra|, MAX_EXTRA)
    ensures var o := Handoff(Claim(s, id, actor, ttl, resolver, now).store, id, actor, extra, later);
            if later < now + ttl.millis
            then && o.error.None? && id in o.store.tasks && IsFree(o.store.tasks[id])
                 && o.store.tasks[id].extra == s.tasks[id].extra + extra
                 && o.store.tasks[id].depends == s.tasks[id].depends
            else o.error == Some(LeaseNotActive)
  {
    ClaimKeepsDependencies(s, id, actor, ttl, resolver, now);
    hide Claim, DependenciesComplete, HandedOff;
    var s1 := Claim(s, id, actor, ttl, resolver, now).store;
    HandedOffWrites(s1, id, actor, extra, later);
  }

  /**
   * A task blocked by whoever may block it, in progress or not, says why and cannot be claimed by
   * anyone; unblocking it, whoever does so, gives it back free, and if it was free, as it was.
   */
  lemma UnblockUndoesBlock(s: StoreState, id: nat, actor: string, reason: string, now: nat, other: string, later: nat,
                           ttl: Duration, resolver: Resolver)
    requires id in s.tasks && s.tasks[id].status != COMPLETED && (s.tasks[id].owner == "" || s.tasks[id].owner == actor)
    ensures var blocked := Block(s, id, actor, reason, now).store; var o := Unblock(blocked, id, other, later);
            && id in blocked.tasks && blocked.tasks[id].blockReason == reason
            && Claim(blocked, id, other, ttl, resolver, later).error == Some(DependencyUnmet)
            && o.error.None? && id in o.store.tasks
            && o.store.tasks[id] == s.tasks[id].(
                 status := PENDING, owner := "", leaseExpires := 0, blockReason := "",
                 log := s.tasks[id].log + [LogEntry(now, actor, "blocked: " + reason),
                                           LogEntry(later, other, "unblocked")])
            && (IsFree(s.tasks[id]) ==> o.store.tasks[id] == s.tasks[id].(log := o.store.tasks[id].log))
  {
    hide DependenciesComplete;
    var log := s.tasks[id].log;
    assert log + [LogEntry(now, actor, "blocked: " + reason)] + [LogEntry(later, other, "unblocked")]
        == log + [LogEntry(now, actor, "blocked: " + reason), LogEntry(later, other, "unblocked")];
  }

  /**
   * A decomposed task goes back to the queue behind its children: with the dependency list it is
   * given, it is not ready in any store before every child exists and is complete.
   */
  lemma DecomposedWaitsForChildren(s: StoreState, id: nat, actor: string, subtasks: seq<Subtask>, now: nat,
                                   tasks: map<nat, Task>, resolver: Resolver, child: nat)
    requires Sound(s) && Decompose(s, id, actor, subtasks, now).error.None?
    requires s.nextId + |subtasks| <= UINT64_LIMIT && s.nextId <= child < s.nextId + |subtasks|
    requires id in Decompose(s, id, actor, subtasks, now).store.tasks
    requires id in tasks && tasks[id].depends == Decompose(s, id, actor, subtasks, now).store.tasks[id].depends
    ensures IsReady(tasks[id], tasks, resolver) ==> child in tasks && tasks[child].status == COMPLETED
  {
    hide Decompose, Sound;
    DecomposedDepends(s, id, actor, subtasks, now);
    var uris := ChildUris(s.nextId, |subtasks|);
    LocalUriParses(child);
    assert uris[child - s.nextId] in s.tasks[id].depends + uris;
    assert DependenciesComplete(tasks[id], tasks, resolver) ==> DependencyMet(LocalUri(child), tasks, resolver);
  }

  lemma DecomposedDepends(s: StoreState, id: nat, actor: string, subtasks: seq<Subtask>, now: nat)
    requires Sound(s) && Decompose(s, id, actor, subtasks, now).error.None? && s.nextId + |subtasks| <= UINT64_LIMIT
    ensures s.nextId > 0 && id in s.tasks
    ensures var s' := Decompose(s, id, actor, subtasks, now).store;
            id in s'.tasks && s'.tasks[id].depends == s.tasks[id].depends + ChildUris(s.nextId, |subtasks|)
  {
    hide WithChildren;
    WithChildrenTasks(s, id, subtasks, now);
  }

  /** A new task is ready exactly when everything it was created after is complete. */
  lemma CreatedReadyIff(s: StoreState, title: string, after: seq<string>, priority: real, capabilities: seq<string>,
                        tags: seq<string>, now: nat, resolver: Resolver)
    requires Sound(s) && Add(s, title, after, priority, capabilities, tags, now).error.None?
    ensures var s' := Add(s, title, after, priority, capabilities, tags, now).store;
            && s.nextId !in s.tasks && s.nextId in s'.tasks
            && (IsReady(s'.tasks[s.nextId], s'.tasks, resolver) <==>
                  forall d :: d in after ==> DependencyMet(d, s.tasks, resolver))
  {
    var s' := Add(s, title, after, priority, capabilities, tags, now).store;
    AddGuardMeaning(s.tasks, after);
    forall i | 0 <= i < |after|
      ensures DependencyMet(CreatedDeps(after)[i], s'.tasks, resolver) <==> DependencyMet(after[i], s.tasks, resolver)
    {
      CreatedDepMet(s, s'.tasks[s.nextId], after[i], resolver);
    }
    assert s'.tasks[s.nextId].depends == CreatedDeps(after);
    assert forall c :: c in CreatedDeps(after) ==> exists i :: 0 <= i < |after| && c == CreatedDeps(after)[i];
    assert forall i :: 0 <= i < |after| ==> CreatedDeps(after)[i] in CreatedDeps(after);
  }

  lemma CreatedDepMet(s: StoreState, t: Task, dep: string, resolver: Resolver)
    requires Sound(s) && DepSound(dep, s.tasks.Keys)
    ensures DependencyMet(CreatedDep(dep), s.tasks[s.nextId := t], resolver) <==> DependencyMet(dep, s.tasks, resolver)
  {
    LocalParsersAgree(dep);
    ParsedRefInRange(dep);
    if ParseLocalID(dep).Some? {
      LocalUriParses(ParseLocalID(dep).value);
    }
  }
}
