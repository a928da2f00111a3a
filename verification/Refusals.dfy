/**
 * When each operation is refused, and with which error: error by error over all operations, in
 * terms of what is stored about the task and of what was asked.
 */
module Refusals {
  import opened Wrappers
  import opened Decimal
  import opened TaskReference
  import opened Digraph
  import opened StoreModel
  import opened DependencyGraph
  import opened Readiness
  import opened Transitions
  import opened Diagnosis
  import opened Invariant
  import opened Soundness
  import opened StepEffects

  // ----- operations on one task -----

  /** The lifecycle operations on a task that has been filed. */
  predicate IsLifecycle(a: Action) {
    a.ClaimTask? || a.CompleteTask? || a.ReleaseTask? || a.BlockTask? || a.UnblockTask? || a.LogTask? ||
    a.RenewLease? || a.HandoffTask?
  }

  predicate HeldByOther(t: Task, actor: string) {
    t.owner != "" && t.owner != actor
  }

  predicate LeaseIsLive(t: Task, now: nat) {
    t.status == IN_PROGRESS && t.owner != "" && now < t.leaseExpires
  }

  /** The context would hold more than 128 entries, and more than it holds now. */
  predicate Overfills(extra: map<string, string>, more: map<string, string>) {
    |extra + more| > 128 && |extra + more| > |extra|
  }

  ghost predicate WaitsForPrereqs(s: StoreState, t: Task, a: Action)
    requires a.ClaimTask? || a.CompleteTask?
  {
    t.status != COMPLETED && !PrereqsMet(t.depends, s.tasks, a.resolver)
  }

  /** Error by error, what makes an operation fail with it. */
  ghost predicate RefusedFor(e: Error, s: StoreState, t: Task, a: Action, now: nat)
    requires IsLifecycle(a)
  {
    match e
    case InvalidTransition =>
      if a.UnblockTask? then t.status != BLOCKED
      else (a.ClaimTask? || a.CompleteTask? || a.BlockTask?) && t.status == COMPLETED
    case DependencyUnmet =>
      || (a.ClaimTask? && (t.status == BLOCKED || WaitsForPrereqs(s, t, a)))
      || (a.CompleteTask? && WaitsForPrereqs(s, t, a))
    case AlreadyClaimed =>
      && a.ClaimTask? && t.status != COMPLETED && t.status != BLOCKED && !WaitsForPrereqs(s, t, a)
      && HeldByOther(t, a.actor) && now < t.leaseExpires
    case NotOwner =>
      && (a.LogTask? || a.ReleaseTask? || a.BlockTask? || a.CompleteTask?) && HeldByOther(t, a.actor)
      && (a.ReleaseTask? ==> t.status == IN_PROGRESS)
      && (a.BlockTask? || a.CompleteTask? ==> t.status != COMPLETED)
      && (a.CompleteTask? ==> !WaitsForPrereqs(s, t, a))
    case LeaseNotActive =>
      || (a.ReleaseTask? && t.status != IN_PROGRESS)
      || ((a.RenewLease? || a.HandoffTask?) && !LeaseIsLive(t, now))
    case LeaseNotOwner =>
      (a.RenewLease? || a.HandoffTask?) && LeaseIsLive(t, now) && t.owner != a.actor
    case PersistedInput =>
      a.HandoffTask? && LeaseIsLive(t, now) && t.owner == a.actor && Overfills(t.extra, a.extra)
    case _ => false
  }

  ghost predicate MissingTask(e: Error, a: Action) {
    e == if a.RenewLease? || a.HandoffTask? then LeaseTaskNotFound else TaskNotFound
  }

  ghost predicate IsRefusal(e: Error, s: StoreState, a: Action, now: nat)
    requires IsLifecycle(a)
  {
    if a.id in s.tasks then RefusedFor(e, s, s.tasks[a.id], a, now) else MissingTask(e, a)
  }

  /** The outcome is a refusal with this error exactly when the table says so, and then nothing has changed. */
  ghost predicate RefusesAsTabled(o: Outcome, e: Error, s: StoreState, a: Action, now: nat)
    requires IsLifecycle(a)
  {
    (o.error == Some(e) <==> IsRefusal(e, s, a, now)) && (o.error == Some(e) ==> o.store == s)
  }

  lemma ClaimRefused(s: StoreState, a: Action, now: nat, e: Error)
    requires a.ClaimTask?
    ensures RefusesAsTabled(Claim(s, a.id, a.actor, a.ttl, a.resolver, now), e, s, a, now)
  {
    hide DependenciesComplete, PrereqsMet;
    if a.id in s.tasks {
      CompleteIffPrereqsMet(s.tasks[a.id], s.tasks, a.resolver);
    }
  }

  lemma CompleteRefused(s: StoreState, a: Action, now: nat, e: Error)
    requires a.CompleteTask?
    ensures RefusesAsTabled(Complete(s, a.id, a.actor, a.resolver, now), e, s, a, now)
  {
    hide DependenciesComplete, PrereqsMet;
    if a.id in s.tasks {
      CompleteIffPrereqsMet(s.tasks[a.id], s.tasks, a.resolver);
    }
  }

  lemma ReleaseRefused(s: StoreState, a: Action, now: nat, e: Error)
    requires a.ReleaseTask?
    ensures RefusesAsTabled(Release(s, a.id, a.actor, a.failure, now), e, s, a, now)
  {
  }

  lemma BlockRefused(s: StoreState, a: Action, now: nat, e: Error)
    requires a.BlockTask?
    ensures RefusesAsTabled(Block(s, a.id, a.actor, a.reason, now), e, s, a, now)
  {
  }

  lemma UnblockRefused(s: StoreState, a: Action, now: nat, e: Error)
    requires a.UnblockTask?
    ensures RefusesAsTabled(Unblock(s, a.id, a.actor, now), e, s, a, now)
  {
  }

  lemma NoteRefused(s: StoreState, a: Action, now: nat, e: Error)
    requires a.LogTask?
    ensures RefusesAsTabled(Note(s, a.id, a.actor, a.message, now), e, s, a, now)
  {
  }

  lemma RenewRefused(s: StoreState, a: Action, now: nat, e: Error)
    requires a.RenewLease?
    ensures RefusesAsTabled(Renew(s, a.id, a.actor, a.ttl, a.render, now), e, s, a, now)
  {
  }

  lemma HandoffDecides(s: StoreState, id: nat, actor: string, extra: map<string, string>, now: nat)
    ensures var o := Handoff(s, id, actor, extra, now);
            if id !in s.tasks then o == Outcome(s, Some(LeaseTaskNotFound))
            else
              var t := s.tasks[id];
              if !LeaseIsLive(t, now) then o == Outcome(s, Some(LeaseNotActive))
              else if t.owner != actor then o == Outcome(s, Some(LeaseNotOwner))
              else if Overfills(t.extra, extra) then o == Outcome(s, Some(PersistedInput))
              else o.error.None?
  {
    hide HandedOff;
  }

  lemma HandoffColumn(e: Error, s: StoreState, t: Task, a: Action, now: nat)
    requires a.HandoffTask?
    ensures RefusedFor(e, s, t, a, now) <==>
            if !LeaseIsLive(t, now) then e == LeaseNotActive
            else if t.owner != a.actor then e == LeaseNotOwner
            else Overfills(t.extra, a.extra) && e == PersistedInput
  {
    hide LeaseIsLive, HeldByOther, WaitsForPrereqs, Overfills;
  }

  lemma HandoffRefused(s: StoreState, a: Action, now: nat, e: Error)
    requires a.HandoffTask?
    ensures RefusesAsTabled(Handoff(s, a.id, a.actor, a.extra, now), e, s, a, now)
  {
    hide Handoff, LeaseIsLive, RefusedFor, Overfills;
    HandoffDecides(s, a.id, a.actor, a.extra, now);
    if a.id in s.tasks {
      HandoffColumn(e, s, s.tasks[a.id], a, now);
    }
  }

  /** An operation fails with an error exactly when the table says so, and then it changes nothing. */
  lemma LifecycleRefusedIff(s: StoreState, step: Step, e: Error)
    requires KeyedById(s.tasks) && IsLifecycle(step.action)
    ensures Perform(s, step).error == Some(e) <==> IsRefusal(e, s, step.action, step.now)
    ensures Perform(s, step).error == Some(e) ==> Perform(s, step).store == s
  {
    hide IsRefusal, Claim, Complete, Release, Block, Unblock, Note, Renew, Handoff;
    var a, now := step.action, step.now;
    match a
    case ClaimTask(_, _, _, _) => ClaimRefused(s, a, now, e);
    case CompleteTask(_, _, _) => CompleteRefused(s, a, now, e);
    case ReleaseTask(_, _, _) => ReleaseRefused(s, a, now, e);
    case BlockTask(_, _, _) => BlockRefused(s, a, now, e);
    case UnblockTask(_, _) => UnblockRefused(s, a, now, e);
    case LogTask(_, _, _) => NoteRefused(s, a, now, e);
    case RenewLease(_, _, _, _) => RenewRefused(s, a, now, e);
    case HandoffTask(_, _, _) => HandoffRefused(s, a, now, e);
  }

  /** A claim is granted exactly to whoever asks for a task that can be worked on and is not leased to someone else. */
  lemma ClaimGrantedIff(s: StoreState, id: nat, actor: string, ttl: Duration, resolver: Resolver, now: nat)
    ensures Claim(s, id, actor, ttl, resolver, now).error.None? <==>
            && id in s.tasks && s.tasks[id].status != COMPLETED && s.tasks[id].status != BLOCKED
            && LocalPrereqsDone(s.tasks[id].depends, s.tasks)
            && (forall d :: d in s.tasks[id].depends && ParseLocalID(d).None? ==> resolver(d))
            && (s.tasks[id].owner == "" || s.tasks[id].owner == actor || s.tasks[id].leaseExpires <= now)
  {
    hide DependenciesComplete, LocalPrereqsDone;
    if id in s.tasks {
      CompleteIffPrereqsMet(s.tasks[id], s.tasks, resolver);
    }
  }

  /** A completion is granted exactly for an unfinished task that waits for nothing, to its owner if it has one. */
  lemma CompleteGrantedIff(s: StoreState, id: nat, actor: string, resolver: Resolver, now: nat)
    ensures Complete(s, id, actor, resolver, now).error.None? <==>
            && id in s.tasks && s.tasks[id].status != COMPLETED
            && LocalPrereqsDone(s.tasks[id].depends, s.tasks)
            && (forall d :: d in s.tasks[id].depends && ParseLocalID(d).None? ==> resolver(d))
            && (s.tasks[id].owner == "" || s.tasks[id].owner == actor)
  {
    hide DependenciesComplete, LocalPrereqsDone;
    if id in s.tasks {
      CompleteIffPrereqsMet(s.tasks[id], s.tasks, resolver);
    }
  }

  // ----- operations that reach further -----

  /** The first reference that cannot be used: the ones before it can. */
  ghost predicate FirstUnusable(after: seq<string>, ids: set<nat>, i: nat) {
    i < |after| && !DepSound(after[i], ids) && forall j :: 0 <= j < i ==> DepSound(after[j], ids)
  }

  function UnusableError(reference: string): Error {
    if ParseLocalID(reference).Some? then TaskNotFound else PersistedInput
  }

  lemma {:induction false} AddGuardFirst(tasks: map<nat, Task>, after: seq<string>) returns (i: nat)
    requires AddGuard(tasks, after).Some?
    ensures FirstUnusable(after, tasks.Keys, i)
    ensures AddGuard(tasks, after) == Some(UnusableError(after[i]))
  {
    LocalParsersAgree(after[0]);
    if AddGuard(tasks, after) == AddGuard(tasks, after[1..]) && DepSound(after[0], tasks.Keys) {
      i := AddGuardFirst(tasks, after[1..]);
      i := i + 1;
    } else {
      i := 0;
    }
  }

  lemma CreatedCloseNoCycle(s: StoreState, after: seq<string>)
    requires Sound(s) && DepsSound(CreatedDeps(after), s.tasks.Keys)
    ensures !Cyclic(DepEdges(s.tasks) + ProposedEdges(CreatedDeps(after), s.nextId))
  {
    var small, big := DepEdges(s.tasks), DepEdges(s.tasks) + ProposedEdges(CreatedDeps(after), s.nextId);
    DepsSoundLocal(CreatedDeps(after), s.tasks.Keys);
    forall a: nat, b: nat | (a, b) in big ensures (a, b) in small || !HasOut(big, b) {
      if b == s.nextId {
        forall c: nat ensures (b, c) !in big {
          DepEdgesMember(s.tasks, b, c);
          if c in s.tasks {
            DepsSoundLocal(s.tasks[c].depends, s.tasks.Keys);
          }
        }
      }
    }
    PendantEdgesCloseNoCycle(small, big);
  }

  /**
   * Adding is refused exactly for a reference that denotes nothing or a missing task of the store,
   * the first such one deciding the error; its cycle check never fires, because nothing depends on
   * a task that is not there yet.
   */
  lemma AddRefusedIff(s: StoreState, title: string, after: seq<string>, priority: real, capabilities: seq<string>,
                      tags: seq<string>, now: nat)
    requires Sound(s)
    ensures var error := Add(s, title, after, priority, capabilities, tags, now).error;
            && (error.Some? <==> exists d :: d in after && !DepSound(d, s.tasks.Keys))
            && (error.Some? ==>
                  exists i: nat :: FirstUnusable(after, s.tasks.Keys, i) && error == Some(UnusableError(after[i])))
  {
    AddGuardMeaning(s.tasks, after);
    if AddGuard(s.tasks, after).Some? {
      var i := AddGuardFirst(s.tasks, after);
    } else {
      CreatedDepsSound(s.tasks, after);
      CreatedCloseNoCycle(s, after);
    }
  }

  lemma ChildrenCloseNoCycle(s: StoreState, parent: nat, subtasks: seq<Subtask>, now: nat)
    requires Sound(s) && parent in s.tasks && s.nextId + |subtasks| <= UINT64_LIMIT
    ensures var depends := s.tasks[parent].depends + ChildUris(s.nextId, |subtasks|);
            !Cyclic(DepEdges(s.tasks) + ProposedEdges(depends, parent))
  {
    var s', n := WithChildren(s, parent, subtasks, now), |subtasks|;
    var depends := s.tasks[parent].depends + ChildUris(s.nextId, n);
    WithChildrenTasks(s, parent, subtasks, now);
    WithChildrenSound(s, parent, subtasks, now);
    forall e | e in DepEdges(s.tasks) + ProposedEdges(depends, parent) ensures e in DepEdges(s'.tasks) {
      var (a, b) := e;
      DepEdgesMember(s'.tasks, a, b);
      DepEdgesMember(s.tasks, a, b);
      LocalDepsConcat(s.tasks[parent].depends, ChildUris(s.nextId, n));
    }
    CyclicMonotone(DepEdges(s.tasks) + ProposedEdges(depends, parent), DepEdges(s'.tasks));
  }

  /**
   * Decomposing is refused exactly for a finished or foreign task or one with too many dependencies;
   * its cycle check never fires either.
   */
  lemma DecomposeRefusedIff(s: StoreState, id: nat, actor: string, subtasks: seq<Subtask>, now: nat, e: Error)
    requires Sound(s) && s.nextId + |subtasks| <= UINT64_LIMIT
    ensures Decompose(s, id, actor, subtasks, now).error == Some(e) <==>
            if id !in s.tasks then e == TaskNotFound
            else
              var t, current := s.tasks[id], |set d | d in s.tasks[id].depends :: CanonicalOrSelf(d)|;
              match e
              case InvalidTransition => t.status == COMPLETED
              case NotOwner => t.status != COMPLETED && HeldByOther(t, actor)
              case PersistedInput =>
                && t.status != COMPLETED && !HeldByOther(t, actor)
                && |subtasks| > 0 && current + |subtasks| > 128
              case _ => false
  {
    hide Sound, WithChildren, DepEdges, ProposedEdges, WithEvent, WithTask;
    if id in s.tasks {
      ChildrenCloseNoCycle(s, id, subtasks, now);
    }
  }

  /** The first ID that stands in the way of a removal. */
  ghost predicate FirstUnremovable(tasks: map<nat, Task>, ids: seq<nat>, i: nat) {
    && i < |ids| && !Removable(tasks, ids[i]) && forall j :: 0 <= j < i ==> Removable(tasks, ids[j])
  }

  predicate Removable(tasks: map<nat, Task>, id: nat) {
    id in tasks && (tasks[id].status != IN_PROGRESS || tasks[id].owner == "")
  }

  lemma {:induction false} RemoveGuardFirst(tasks: map<nat, Task>, ids: seq<nat>) returns (i: nat)
    requires RemoveGuard(tasks, ids).Some?
    ensures FirstUnremovable(tasks, ids, i)
    ensures RemoveGuard(tasks, ids) == Some(if ids[i] in tasks then NotOwner else TaskNotFound)
  {
    if Removable(tasks, ids[0]) {
      i := RemoveGuardFirst(tasks, ids[1..]);
      i := i + 1;
    } else {
      i := 0;
    }
  }

  /**
   * A removal is granted exactly when every ID names a task nobody is working on and no task that
   * stays depends on one that goes; refused, the first bad ID decides the error, and then the
   * dependents.
   */
  lemma RemoveRefusedIff(s: StoreState, ids: seq<nat>, now: nat)
    requires KeyedById(s.tasks)
    ensures var error := Remove(s, ids, now).error;
            && (error.None? <==>
                  && (forall id :: id in ids ==> Removable(s.tasks, id))
                  && forall k, a :: k in s.tasks && k !in ids && a in LocalDeps(s.tasks[k].depends) ==> a !in ids)
            && (error == Some(DependencyUnmet) <==> error.Some? && forall id :: id in ids ==> Removable(s.tasks, id))
            && (error.Some? && error != Some(DependencyUnmet) ==>
                  exists i: nat :: FirstUnremovable(s.tasks, ids, i) &&
                                   error == Some(if ids[i] in s.tasks then NotOwner else TaskNotFound))
  {
    hide RemoveEach;
    RemoveGuardMeaning(s.tasks, ids);
    SurvivingDependents(s.tasks, ids);
    if RemoveGuard(s.tasks, ids).Some? {
      var i := RemoveGuardFirst(s.tasks, ids);
    }
  }

  lemma SurvivingDependents(tasks: map<nat, Task>, ids: seq<nat>)
    requires KeyedById(tasks)
    ensures HasSurvivingDependent(tasks, ids) <==>
            exists k, a :: k in tasks && k !in ids && a in LocalDeps(tasks[k].depends) && a in ids
  {
    if k, a :| k in tasks && k !in ids && a in LocalDeps(tasks[k].depends) && a in ids {
      var d :| d in tasks[k].depends && ParseLocalID(d) == Some(a);
    }
  }

  /**
   * An acquisition is refused exactly for a request ID used for something else, a worker that is
   * full, or a store without a task that suits, in this order.
   */
  lemma AcquireRefusedIff(s: StoreState, r: AcquireRequest, resolver: Resolver, now: nat, e: Error)
    requires KeyedById(s.tasks)
    ensures Acquire(s, r, resolver, now).outcome.error == Some(e) <==>
            if r.requestId in s.acquisitions then
              var receipt := s.acquisitions[r.requestId];
              e == RequestConflict && (receipt.operation != "acquire.v1" || receipt.fingerprint != r.fingerprint)
            else
              || (e == AgentAtCapacity && HasNoRoom(s.tasks, r.actor, r.maxLoad))
              || (e == NoReadyTasks && !HasNoRoom(s.tasks, r.actor, r.maxLoad) &&
                  forall k :: !CanTake(s.tasks, k, resolver, r.capabilities, true))
    ensures Acquire(s, r, resolver, now).outcome.error == Some(e) ==> Acquire(s, r, resolver, now).outcome.store == s
  {
    hide Best, Candidates, CanTake, Grant, AtCapacity, HasNoRoom;
    NoRoomIff(s.tasks, r.actor, r.maxLoad);
    forall k ensures CanTake(s.tasks, k, resolver, r.capabilities, true) <==>
                     k in Candidates(s.tasks, resolver, r.capabilities, true)
    {
      CanTakeIff(s.tasks, k, resolver, r.capabilities, true);
    }
  }
}
