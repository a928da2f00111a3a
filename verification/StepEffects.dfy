/**
 * One step of a run, and what any step can do to the tasks, the receipts and the log. The run
 * theorems need only these facts, not the operations themselves.
 */
module StepEffects {
  import opened Wrappers
  import opened Decimal
  import opened TaskReference
  import opened Orders
  import opened StoreModel
  import opened DependencyGraph
  import opened Readiness
  import opened Transitions
  import opened DependencyEdits
  import opened Invariant
  import opened Soundness

  datatype Action =
    | AddTask(title: string, after: seq<string>, priority: real, capabilities: seq<string>, tags: seq<string>)
    | ClaimTask(id: nat, actor: string, ttl: Duration, resolver: Resolver)
    | AcquireTask(request: AcquireRequest, resolver: Resolver)
    | CompleteTask(id: nat, actor: string, resolver: Resolver)
    | ReleaseTask(id: nat, actor: string, failure: string)
    | BlockTask(id: nat, actor: string, reason: string)
    | UnblockTask(id: nat, actor: string)
    | LogTask(id: nat, actor: string, message: string)
    | DecomposeTask(id: nat, actor: string, subtasks: seq<Subtask>)
    | UpdateTask(id: nat, actor: string, update: TaskUpdate, removedOrder: seq<string>)
    | RenewLease(id: nat, actor: string, ttl: Duration, render: Rendering)
    | HandoffTask(id: nat, actor: string, extra: map<string, string>)
    | RemoveTasks(ids: seq<nat>)
    | PruneCompleted
    | CompactStore(options: CompactOptions, rest: SubMilli)
    | SweepLeases
    | StampStore  // what every write of the file does first

  datatype Step = Step(action: Action, now: nat)

  /** What the callers check before they open a transaction, and that 64-bit IDs have not run out. */
  ghost predicate Admitted(s: StoreState, step: Step) {
    && step.now > 0
    && match step.action
       case AddTask(_, _, priority, _, _) => ValidPriority(priority) && s.nextId < UINT64_LIMIT
       case ClaimTask(_, actor, _, _) => actor != ""
       case AcquireTask(r, _) => r.actor != ""
       case DecomposeTask(_, _, subtasks) => s.nextId + |subtasks| <= UINT64_LIMIT
       case _ => true
  }

  ghost function Perform(s: StoreState, step: Step): Outcome
    requires KeyedById(s.tasks)
  {
    var now := step.now;
    match step.action
    case AddTask(title, after, priority, capabilities, tags) => Add(s, title, after, priority, capabilities, tags, now)
    case ClaimTask(id, actor, ttl, resolver) => Claim(s, id, actor, ttl, resolver, now)
    case AcquireTask(r, resolver) => Acquire(s, r, resolver, now).outcome
    case CompleteTask(id, actor, resolver) => Complete(s, id, actor, resolver, now)
    case ReleaseTask(id, actor, failure) => Release(s, id, actor, failure, now)
    case BlockTask(id, actor, reason) => Block(s, id, actor, reason, now)
    case UnblockTask(id, actor) => Unblock(s, id, actor, now)
    case LogTask(id, actor, message) => Note(s, id, actor, message, now)
    case DecomposeTask(id, actor, subtasks) => Decompose(s, id, actor, subtasks, now)
    case UpdateTask(id, actor, u, order) => Update(s, id, actor, u, order, now)
    case RenewLease(id, actor, ttl, render) => Renew(s, id, actor, ttl, render, now)
    case HandoffTask(id, actor, extra) => Handoff(s, id, actor, extra, now)
    case RemoveTasks(ids) => Remove(s, ids, now)
    case PruneCompleted => Outcome(Prune(s, now), None)
    case CompactStore(options, rest) => Outcome(Compact(s, options, now, rest), None)
    case SweepLeases => Outcome(Sweep(s, now), None)
    case StampStore => Outcome(Stamped(s, now), None)
  }

  /** The actor a step acts as on task `k`; empty when the step does not name that task. */
  function ActsOn(step: Step, k: nat): string {
    match step.action
    case ClaimTask(id, actor, _, _) => if id == k then actor else ""
    case CompleteTask(id, actor, _) => if id == k then actor else ""
    case ReleaseTask(id, actor, _) => if id == k then actor else ""
    case BlockTask(id, actor, _) => if id == k then actor else ""
    case UnblockTask(id, actor) => if id == k then actor else ""
    case LogTask(id, actor, _) => if id == k then actor else ""
    case DecomposeTask(id, actor, _) => if id == k then actor else ""
    case UpdateTask(id, actor, _, _) => if id == k then actor else ""
    case RenewLease(id, actor, _, _) => if id == k then actor else ""
    case HandoffTask(id, actor, _) => if id == k then actor else ""
    case _ => ""
  }

  /** Whether a step asks for other dependencies on task `k`. */
  predicate EditsDeps(step: Step, k: nat) {
    match step.action
    case DecomposeTask(id, _, _) => id == k
    case UpdateTask(id, _, u, _) => id == k && (u.addDeps != [] || u.removeDeps != [])
    case _ => false
  }

  // ----- one task across a step -----

  /** Completion is final, and a live lease held by someone else is out of reach. */
  ghost predicate TaskEvolves(t: Task, t': Task, actor: string, now: nat) {
    && t'.id == t.id
    && (t.status == COMPLETED ==> t'.status == COMPLETED && t'.completed == t.completed)
    && (t.status == IN_PROGRESS && t.owner != "" && t.owner != actor && t.leaseExpires > now ==>
          t'.status == t.status && t'.owner == t.owner && t'.leaseExpires == t.leaseExpires)
  }

  ghost predicate TasksEvolve(s: StoreState, s': StoreState, step: Step) {
    && s.nextId <= s'.nextId
    && (forall k :: k in s'.tasks && k !in s.tasks ==> s.nextId <= k)
    && (forall k :: k in s.tasks && k in s'.tasks ==> TaskEvolves(s.tasks[k], s'.tasks[k], ActsOn(step, k), step.now))
    && (forall k :: k in s.tasks && k !in s'.tasks ==> s.tasks[k].status != IN_PROGRESS || s.tasks[k].owner == "")
  }

  ghost predicate PrereqsStayDone(s: StoreState, s': StoreState, step: Step) {
    forall k ::
      k in s.tasks && k in s'.tasks && !EditsDeps(step, k) && LocalPrereqsDone(s.tasks[k].depends, s.tasks) ==>
        LocalPrereqsDone(s'.tasks[k].depends, s'.tasks)
  }

  /** A receipt is kept as it is, dropped, or written for an unused request. */
  ghost predicate ReceiptsEvolve(s: StoreState, s': StoreState) {
    forall q :: q in s'.acquisitions && q in s.acquisitions ==> s'.acquisitions[q] == s.acquisitions[q]
  }

  ghost predicate ReceiptsLive(s: StoreState) {
    forall q :: q in s.acquisitions ==> s.acquisitions[q].task.id in s.tasks
  }

  // ----- the log -----

  /** The retained events are the window of consecutive IDs that ends just before the next one. */
  ghost predicate LogWindow(s: StoreState) {
    && |s.events| < s.nextEventId
    && forall i :: 0 <= i < |s.events| ==> s.events[i].id == s.nextEventId - |s.events| + i
  }

  /** Events are only ever added at the end and dropped at the front. */
  ghost predicate LogEvolves(s: StoreState, s': StoreState) {
    && s.nextEventId <= s'.nextEventId
    && exists drop: nat, added: seq<Event> :: IsLogChange(s, s', drop, added)
  }

  ghost predicate IsLogChange(s: StoreState, s': StoreState, drop: nat, added: seq<Event>) {
    && drop <= |s.events| && s'.events == s.events[drop..] + added && s'.nextEventId == s.nextEventId + |added|
    && forall i :: 0 <= i < |added| ==> added[i].id == s.nextEventId + i
  }

  ghost predicate StoreEvolves(s: StoreState, s': StoreState, step: Step) {
    TasksEvolve(s, s', step) && PrereqsStayDone(s, s', step) && ReceiptsEvolve(s, s') && ReceiptsLive(s') &&
    LogEvolves(s, s')
  }

  /** A task is completed only from a store in which it was there with its local prerequisites completed. */
  ghost predicate CompletionsEarned(s: StoreState, s': StoreState) {
    forall k :: k in s'.tasks && s'.tasks[k].status == COMPLETED ==>
      k in s.tasks && (s.tasks[k].status == COMPLETED || LocalPrereqsDone(s.tasks[k].depends, s.tasks))
  }

  ghost predicate StepEffect(s: StoreState, s': StoreState, step: Step) {
    StoreEvolves(s, s', step) && CompletionsEarned(s, s')
  }

  // ----- steps that rewrite one task -----

  /** One task rewritten without touching its dependencies or any receipt. */
  ghost predicate RewritesOne(s: StoreState, s': StoreState, id: nat) {
    && id in s.tasks && id in s'.tasks
    && s'.tasks == s.tasks[id := s'.tasks[id]] && s'.nextId == s.nextId
    && s'.tasks[id].depends == s.tasks[id].depends
  }

  lemma RewritesOneEvolves(s: StoreState, s': StoreState, id: nat, step: Step)
    requires KeyedById(s.tasks) && RewritesOne(s, s', id)
    requires TaskEvolves(s.tasks[id], s'.tasks[id], ActsOn(step, id), step.now)
    ensures TasksEvolve(s, s', step) && PrereqsStayDone(s, s', step)
  {
    forall k | k in s.tasks && LocalPrereqsDone(s.tasks[k].depends, s.tasks)
      ensures LocalPrereqsDone(s'.tasks[k].depends, s'.tasks)
    {
      assert forall a :: a in LocalDeps(s.tasks[k].depends) ==> s.tasks[a].status == COMPLETED;
    }
  }

  lemma UnchangedEffect(s: StoreState, step: Step)
    requires ReceiptsLive(s)
    ensures StoreEvolves(s, s, step)
  {
    assert IsLogChange(s, s, 0, []);
  }

  lemma StampEffect(s: StoreState, step: Step)
    requires ReceiptsLive(s)
    ensures StoreEvolves(s, Stamped(s, step.now), step)
  {
    UnchangedEffect(s, step);
    assert IsLogChange(s, Stamped(s, step.now), 0, []);
  }

  lemma OneEvent(s: StoreState, s': StoreState, e: Event)
    requires e.id == s.nextEventId && s'.nextEventId == s.nextEventId + 1 && s'.events == s.events + [e]
    ensures LogEvolves(s, s')
  {
    assert IsLogChange(s, s', 0, [e]);
  }

  lemma TwoEvents(s: StoreState, s': StoreState, e1: Event, e2: Event)
    requires e1.id == s.nextEventId && e2.id == s.nextEventId + 1
    requires s'.nextEventId == s.nextEventId + 2 && s'.events == s.events + [e1, e2]
    ensures LogEvolves(s, s')
  {
    assert IsLogChange(s, s', 0, [e1, e2]);
  }

  /** A single-task operation by `actor`: refused without a trace, or one task rewritten within bounds. */
  ghost predicate SingleEffect(s: StoreState, o: Outcome, id: nat, actor: string, now: nat) {
    && (o.error.Some? ==> o.store == s)
    && (o.error.None? ==>
          && RewritesOne(s, o.store, id) && TaskEvolves(s.tasks[id], o.store.tasks[id], actor, now)
          && (o.store.tasks[id].status == COMPLETED ==>
                s.tasks[id].status == COMPLETED || LocalPrereqsDone(s.tasks[id].depends, s.tasks))
          && o.store.acquisitions == s.acquisitions && LogEvolves(s, o.store))
  }

  lemma SingleEffectStep(s: StoreState, o: Outcome, id: nat, step: Step)
    requires KeyedById(s.tasks) && ReceiptsLive(s)
    requires SingleEffect(s, o, id, ActsOn(step, id), step.now)
    ensures StepEffect(s, o.store, step)
  {
    if o.error.Some? {
      UnchangedEffect(s, step);
    } else {
      RewritesOneEvolves(s, o.store, id, step);
    }
  }

  lemma ClaimEffect(s: StoreState, id: nat, actor: string, ttl: Duration, resolver: Resolver, now: nat)
    requires Sound(s)
    ensures SingleEffect(s, Claim(s, id, actor, ttl, resolver, now), id, actor, now)
  {
    var o := Claim(s, id, actor, ttl, resolver, now);
    if o.error.None? {
      OneEvent(s, o.store, o.store.events[|s.events|]);
    }
  }

  lemma CompleteEffect(s: StoreState, id: nat, actor: string, resolver: Resolver, now: nat)
    requires Sound(s)
    ensures SingleEffect(s, Complete(s, id, actor, resolver, now), id, actor, now)
  {
    var o := Complete(s, id, actor, resolver, now);
    if o.error.None? {
      CompleteIffPrereqsMet(s.tasks[id], s.tasks, resolver);
      OneEvent(s, o.store, o.store.events[|s.events|]);
    }
  }

  lemma ReleaseEffect(s: StoreState, id: nat, actor: string, failure: string, now: nat)
    requires Sound(s)
    ensures SingleEffect(s, Release(s, id, actor, failure, now), id, actor, now)
  {
    var o := Release(s, id, actor, failure, now);
    if o.error.None? {
      OneEvent(s, o.store, o.store.events[|s.events|]);
    }
  }

  lemma BlockEffect(s: StoreState, id: nat, actor: string, reason: string, now: nat)
    requires Sound(s)
    ensures SingleEffect(s, Block(s, id, actor, reason, now), id, actor, now)
  {
    var o := Block(s, id, actor, reason, now);
    if o.error.None? {
      OneEvent(s, o.store, o.store.events[|s.events|]);
    }
  }

  lemma UnblockEffect(s: StoreState, id: nat, actor: string, now: nat)
    requires Sound(s)
    ensures SingleEffect(s, Unblock(s, id, actor, now), id, actor, now)
  {
    var o := Unblock(s, id, actor, now);
    if o.error.None? {
      OneEvent(s, o.store, o.store.events[|s.events|]);
    }
  }

  lemma NoteEffect(s: StoreState, id: nat, actor: string, message: string, now: nat)
    requires Sound(s)
    ensures SingleEffect(s, Note(s, id, actor, message, now), id, actor, now)
  {
    assert IsLogChange(s, Note(s, id, actor, message, now).store, 0, []);
  }

  lemma RenewEffect(s: StoreState, id: nat, actor: string, ttl: Duration, render: Rendering, now: nat)
    requires Sound(s)
    ensures SingleEffect(s, Renew(s, id, actor, ttl, render, now), id, actor, now)
  {
    var o := Renew(s, id, actor, ttl, render, now);
    if o.error.None? {
      OneEvent(s, o.store, o.store.events[|s.events|]);
    }
  }

  lemma HandoffLog(s: StoreState, id: nat, actor: string, extra: map<string, string>, now: nat)
    ensures LogEvolves(s, Handoff(s, id, actor, extra, now).store)
  {
    hide HandedOff;
    var o := Handoff(s, id, actor, extra, now);
    if o.error.Some? {
      assert IsLogChange(s, s, 0, []);
    } else {
      HandedOffWrites(s, id, actor, extra, now);
      TwoEvents(s, o.store, o.store.events[|s.events|], o.store.events[|s.events| + 1]);
    }
  }

  lemma HandoffEffect(s: StoreState, id: nat, actor: string, extra: map<string, string>, now: nat)
    requires Sound(s)
    ensures SingleEffect(s, Handoff(s, id, actor, extra, now), id, actor, now)
  {
    hide HandedOff;
    HandoffLog(s, id, actor, extra, now);
    if Handoff(s, id, actor, extra, now).error.None? {
      HandedOffWrites(s, id, actor, extra, now);
    }
  }

  lemma EditFieldsEffect(s: StoreState, id: nat, actor: string, u: TaskUpdate, now: nat) returns (added: seq<Event>)
    requires id in s.tasks
    ensures var s' := EditFields(s, id, actor, u, now).store;
            && id in s'.tasks && s'.tasks == s.tasks[id := s'.tasks[id]] && SameLifecycle(s.tasks[id], s'.tasks[id])
            && s'.nextId == s.nextId && s'.acquisitions == s.acquisitions && IsLogChange(s, s', 0, added)
  {
    added := EditFields(s, id, actor, u, now).store.events[|s.events|..];
  }

  // ----- steps that reach further -----

  lemma LogChangeThen(s: StoreState, mid: StoreState, s': StoreState, a: seq<Event>, b: seq<Event>)
    requires IsLogChange(s, mid, 0, a) && IsLogChange(mid, s', 0, b)
    ensures IsLogChange(s, s', 0, a + b)
  {
    assert s.events[0..] == s.events && mid.events[0..] == mid.events;
    assert s'.events == s.events + (a + b);
  }

  lemma AcquireEffect(s: StoreState, r: AcquireRequest, resolver: Resolver, step: Step)
    requires Sound(s) && ReceiptsLive(s)
    ensures StoreEvolves(s, Acquire(s, r, resolver, step.now).outcome.store, step)
  {
    var s' := Acquire(s, r, resolver, step.now).outcome.store;
    if s' == s {
      UnchangedEffect(s, step);
    } else {
      var id := Best(s.tasks, Candidates(s.tasks, resolver, r.capabilities, true));
      assert s' == Grant(s, r, id, step.now);
      GrantEffect(s, r, id, step);
    }
  }

  lemma GrantEffect(s: StoreState, r: AcquireRequest, id: nat, step: Step)
    requires Sound(s) && ReceiptsLive(s) && id in s.tasks && s.tasks[id].status == PENDING
    requires r.requestId !in s.acquisitions
    ensures StoreEvolves(s, Grant(s, r, id, step.now), step)
  {
    hide TasksEvolve, PrereqsStayDone, LogEvolves;
    var s' := Grant(s, r, id, step.now);
    RewritesOneEvolves(s, s', id, step);
    OneEvent(s, s', s'.events[|s.events|]);
  }

  lemma SweepTasks(s: StoreState, now: nat)
    ensures var s' := Sweep(s, now);
            && s'.tasks.Keys == s.tasks.Keys && s'.nextId == s.nextId && s'.acquisitions == s.acquisitions
            && forall k :: k in s.tasks ==>
                 s'.tasks[k] == if HoldsExpiredLease(s.tasks[k], now) then Reclaimed(s.tasks[k]) else s.tasks[k]
  {
    var ids := ExpiredListing(s.tasks, now);
    ExpiredListed(s.tasks, now);
    assert ids[..|ids|] == ids;
    assert forall k :: k in ids <==> k in Elements(ids);
  }

  lemma SweepLog(s: StoreState, now: nat)
    ensures LogEvolves(s, Sweep(s, now))
  {
    assert IsLogChange(s, Sweep(s, now), 0, Sweep(s, now).events[|s.events|..]);
  }

  lemma SweepEffect(s: StoreState, step: Step)
    requires Sound(s) && ReceiptsLive(s)
    ensures StoreEvolves(s, Sweep(s, step.now), step)
  {
    SweepTasks(s, step.now);
    SweepLog(s, step.now);
    StatusKeptEvolves(s, Sweep(s, step.now), step);
  }

  /** Each task evolves in its own bounds, keeping its dependencies; nothing comes or goes. */
  lemma StatusKeptEvolves(s: StoreState, s': StoreState, step: Step)
    requires s'.tasks.Keys == s.tasks.Keys && s'.nextId == s.nextId
    requires forall k :: k in s.tasks ==>
      TaskEvolves(s.tasks[k], s'.tasks[k], ActsOn(step, k), step.now) && s'.tasks[k].depends == s.tasks[k].depends
    ensures TasksEvolve(s, s', step) && PrereqsStayDone(s, s', step)
  {
  }

  lemma CompactEffect(s: StoreState, options: CompactOptions, rest: SubMilli, step: Step)
    requires ReceiptsLive(s)
    ensures StoreEvolves(s, Compact(s, options, step.now, rest), step)
  {
    assert IsLogChange(s, Compact(s, options, step.now, rest), EventsToDrop(s, options), []);
  }

  /** New tasks appear, one old task may be rewritten, and every completed one is left alone. */
  lemma GrowthEvolves(s: StoreState, s': StoreState, step: Step)
    requires s.nextId <= s'.nextId && s.tasks.Keys <= s'.tasks.Keys
    requires forall k :: k in s'.tasks && k !in s.tasks ==> s.nextId <= k
    requires forall k :: k in s.tasks && !EditsDeps(step, k) ==> s'.tasks[k] == s.tasks[k]
    requires forall k :: k in s.tasks ==> TaskEvolves(s.tasks[k], s'.tasks[k], ActsOn(step, k), step.now)
    ensures TasksEvolve(s, s', step) && PrereqsStayDone(s, s', step)
  {
    forall k | k in s.tasks && !EditsDeps(step, k) && LocalPrereqsDone(s.tasks[k].depends, s.tasks)
      ensures LocalPrereqsDone(s'.tasks[k].depends, s'.tasks)
    {
      assert forall a :: a in LocalDeps(s.tasks[k].depends) ==> s.tasks[a].status == COMPLETED;
    }
  }

  lemma AddEffect(s: StoreState, title: string, after: seq<string>, priority: real, capabilities: seq<string>,
                  tags: seq<string>, step: Step)
    requires Sound(s) && ReceiptsLive(s)
    ensures StoreEvolves(s, Add(s, title, after, priority, capabilities, tags, step.now).store, step)
  {
    var o := Add(s, title, after, priority, capabilities, tags, step.now);
    if o.error.Some? {
      UnchangedEffect(s, step);
    } else {
      assert s.nextId !in s.tasks;
      GrowthEvolves(s, o.store, step);
      OneEvent(s, o.store, o.store.events[|s.events|]);
    }
  }

  /** A decomposition files the children, takes the parent back to pending and logs one event. */
  lemma DecomposedStore(s: StoreState, id: nat, actor: string, subtasks: seq<Subtask>, now: nat)
    requires Decompose(s, id, actor, subtasks, now).error.None?
    ensures id in s.tasks && s.tasks[id].status != COMPLETED
    ensures s.tasks[id].owner == "" || s.tasks[id].owner == actor
    ensures var s', s1 := Decompose(s, id, actor, subtasks, now).store, WithChildren(s, id, subtasks, now);
            && s'.tasks == s1.tasks[id := s1.tasks[id].(status := PENDING, owner := "", leaseExpires := 0,
                                                        blockReason := "")]
            && s'.nextId == s.nextId + |subtasks| && s'.acquisitions == s.acquisitions && s'.lastModified == now
            && s'.nextEventId == s.nextEventId + 1
            && s'.events == s.events + [Event(s.nextEventId, now, TaskDecomposed, id, actor,
                                              map["count" := FormatUint(|subtasks|)])]
  {
    hide CanonicalSet, DepEdges, ProposedEdges, ChildUris, WithinCardinality;
  }

  lemma RefusedDecompose(s: StoreState, id: nat, actor: string, subtasks: seq<Subtask>, now: nat)
    requires Decompose(s, id, actor, subtasks, now).error.Some?
    ensures Decompose(s, id, actor, subtasks, now).store == s
  {
    hide CanonicalSet, DepEdges, ProposedEdges, ChildUris, WithinCardinality;
  }

  lemma DecomposeEffect(s: StoreState, id: nat, actor: string, subtasks: seq<Subtask>, step: Step)
    requires Sound(s) && ReceiptsLive(s) && s.nextId + |subtasks| <= UINT64_LIMIT
    requires ActsOn(step, id) == actor && forall k :: EditsDeps(step, k) <==> k == id
    ensures StoreEvolves(s, Decompose(s, id, actor, subtasks, step.now).store, step)
  {
    hide Decompose, WithChildren, ChildUris, TasksEvolve, PrereqsStayDone, LogEvolves;
    var o := Decompose(s, id, actor, subtasks, step.now);
    if o.error.Some? {
      RefusedDecompose(s, id, actor, subtasks, step.now);
      UnchangedEffect(s, step);
    } else {
      DecomposedStore(s, id, actor, subtasks, step.now);
      WithChildrenTasks(s, id, subtasks, step.now);
      GrowthEvolves(s, o.store, step);
      OneEvent(s, o.store, o.store.events[|s.events|]);
    }
  }

  lemma EditEventsInOrder(s: StoreState, id: nat, actor: string, target: set<string>, order: seq<string>, now: nat)
    requires id in s.tasks
    ensures var events := EditEvents(s, id, actor, target, order, now);
            forall i :: 0 <= i < |events| ==> events[i].id == s.nextEventId + i
  {
  }

  lemma EditDependenciesEffect(s: StoreState, id: nat, actor: string, add: seq<string>, remove: seq<string>,
                               order: seq<string>, now: nat) returns (added: seq<Event>)
    requires id in s.tasks && EditDependencies(s, id, actor, add, remove, order, now).error.None?
    ensures IsLogChange(s, EditDependencies(s, id, actor, add, remove, order, now).store, 0, added)
  {
    var target := TargetDeps(s.tasks[id].depends, add, remove);
    EditWritesTarget(s, id, actor, add, remove, order, now);
    EditEventsInOrder(s, id, actor, target, order, now);
    added := EditEvents(s, id, actor, target, order, now);
    WithEdgesLog(s, id, actor, target, order, now);
  }

  lemma WithEdgesLog(s: StoreState, id: nat, actor: string, target: set<string>, order: seq<string>, now: nat)
    requires id in s.tasks
    ensures var s', events := WithEdges(s, id, actor, target, order, now), EditEvents(s, id, actor, target, order, now);
            s'.events == s.events[0..] + events && s'.nextEventId == s.nextEventId + |events|
  {
  }

  /** Nothing but dependencies and descriptive fields differ, and dependencies only where the step edits them. */
  lemma LifecycleKeptEvolves(s: StoreState, s': StoreState, step: Step)
    requires s'.tasks.Keys == s.tasks.Keys && s'.nextId == s.nextId
    requires forall k :: k in s.tasks ==>
      var t, t' := s.tasks[k], s'.tasks[k];
      && t'.id == t.id && t'.status == t.status && t'.owner == t.owner && t'.leaseExpires == t.leaseExpires
      && t'.completed == t.completed && (!EditsDeps(step, k) ==> t'.depends == t.depends)
    ensures TasksEvolve(s, s', step) && PrereqsStayDone(s, s', step)
  {
  }

  /** Field edits after an edit of the dependencies (or after none). */
  lemma FieldsAfterEdges(s: StoreState, mid: StoreState, s': StoreState, id: nat, a: seq<Event>, b: seq<Event>,
                         step: Step)
    requires ReceiptsLive(s) && id in s.tasks && id in mid.tasks && id in s'.tasks
    requires mid.tasks == s.tasks[id := s.tasks[id].(depends := mid.tasks[id].depends)]
    requires mid.nextId == s.nextId && mid.acquisitions == s.acquisitions && IsLogChange(s, mid, 0, a)
    requires mid == s || EditsDeps(step, id)
    requires s'.tasks == mid.tasks[id := s'.tasks[id]] && SameLifecycle(mid.tasks[id], s'.tasks[id])
    requires s'.nextId == mid.nextId && s'.acquisitions == mid.acquisitions && IsLogChange(mid, s', 0, b)
    ensures StepEffect(s, s', step)
  {
    LogChangeThen(s, mid, s', a, b);
    assert s'.tasks == s.tasks[id := s'.tasks[id]];
    LifecycleKeptEvolves(s, s', step);
  }

  lemma UpdateEffect(s: StoreState, id: nat, actor: string, u: TaskUpdate, order: seq<string>, step: Step)
    requires Sound(s) && ReceiptsLive(s)
    requires forall k :: EditsDeps(step, k) <==> k == id && (u.addDeps != [] || u.removeDeps != [])
    ensures StepEffect(s, Update(s, id, actor, u, order, step.now).store, step)
  {
    if id !in s.tasks || RequireOwner(s.tasks[id], actor).Some? {
      UnchangedEffect(s, step);
    } else if u.addDeps == [] && u.removeDeps == [] {
      var b := EditFieldsEffect(s, id, actor, u, step.now);
      FieldsAfterEdges(s, s, EditFields(s, id, actor, u, step.now).store, id, [], b, step);
    } else {
      EditedUpdateEffect(s, id, actor, u, order, step);
    }
  }

  lemma EditedUpdateEffect(s: StoreState, id: nat, actor: string, u: TaskUpdate, order: seq<string>, step: Step)
    requires Sound(s) && ReceiptsLive(s) && id in s.tasks && RequireOwner(s.tasks[id], actor).None?
    requires u.addDeps != [] || u.removeDeps != []
    requires forall k :: EditsDeps(step, k) <==> k == id
    ensures StepEffect(s, Update(s, id, actor, u, order, step.now).store, step)
  {
    var edited := EditDependencies(s, id, actor, u.addDeps, u.removeDeps, order, step.now);
    EditDependenciesSound(s, id, actor, u.addDeps, u.removeDeps, order, step.now);
    if edited.error.Some? {
      UnchangedEffect(s, step);
    } else {
      EditLeavesTarget(s, id, actor, u.addDeps, u.removeDeps, order, step.now);
      var a := EditDependenciesEffect(s, id, actor, u.addDeps, u.removeDeps, order, step.now);
      var b := EditFieldsEffect(edited.store, id, actor, u, step.now);
      FieldsAfterEdges(s, edited.store, EditFields(edited.store, id, actor, u, step.now).store, id, a, b, step);
    }
  }

  // ----- steps that remove tasks -----

  lemma {:induction false} RemoveEachLog(s: StoreState, ids: seq<nat>, now: nat) returns (added: seq<Event>)
    ensures IsLogChange(s, RemoveEach(s, ids, now), 0, added)
    ensures |added| == |ids| && forall i :: 0 <= i < |ids| ==> added[i].kind == TaskRemoved && added[i].taskId == ids[i]
  {
    if ids == [] {
      added := [];
    } else {
      var init, id := ids[..|ids| - 1], ids[|ids| - 1];
      var before := RemoveEachLog(s, init, now);
      var mid := RemoveEach(s, init, now);
      var e := Event(mid.nextEventId, now, TaskRemoved, id, "", map[]);
      LogChangeThen(s, mid, RemoveEach(s, ids, now), before, [e]);
      added := before + [e];
    }
  }

  lemma RemoveEffect(s: StoreState, ids: seq<nat>, step: Step)
    requires Sound(s) && ReceiptsLive(s)
    ensures StoreEvolves(s, Remove(s, ids, step.now).store, step)
  {
    var o := Remove(s, ids, step.now);
    if o.error.Some? {
      UnchangedEffect(s, step);
    } else {
      RemoveEachTasks(s, ids, step.now);
      RemoveGuardMeaning(s.tasks, ids);
      RemovalEvolves(s, o.store, ids, step);
      var added := RemoveEachLog(s, ids, step.now);
    }
  }

  lemma {:induction false} RemoveGuardMeaning(tasks: map<nat, Task>, ids: seq<nat>)
    ensures RemoveGuard(tasks, ids).None? <==>
            forall id :: id in ids ==> id in tasks && (tasks[id].status != IN_PROGRESS || tasks[id].owner == "")
  {
    if ids != [] {
      RemoveGuardMeaning(tasks, ids[1..]);
      assert forall id :: id in ids <==> id == ids[0] || id in ids[1..];
    }
  }

  lemma RemovalEvolves(s: StoreState, s': StoreState, ids: seq<nat>, step: Step)
    requires KeyedById(s.tasks) && s'.tasks == s.tasks - Elements(ids) && s'.nextId == s.nextId
    requires !HasSurvivingDependent(s.tasks, ids) && RemoveGuard(s.tasks, ids).None?
    ensures TasksEvolve(s, s', step) && PrereqsStayDone(s, s', step)
  {
    RemoveGuardMeaning(s.tasks, ids);
    forall k | k in s'.tasks && LocalPrereqsDone(s.tasks[k].depends, s.tasks)
      ensures LocalPrereqsDone(s'.tasks[k].depends, s'.tasks)
    {
      assert s'.tasks[k] == s.tasks[k] && s.tasks[k].id !in ids;
    }
  }

  lemma PruneEffect(s: StoreState, step: Step)
    requires Sound(s) && ReceiptsLive(s)
    ensures StoreEvolves(s, Prune(s, step.now), step)
  {
    var s' := Prune(s, step.now);
    forall k | k in s'.tasks && LocalPrereqsDone(s.tasks[k].depends, s.tasks)
      ensures LocalPrereqsDone(s'.tasks[k].depends, s'.tasks)
    {
      KeptDepsNoneDone(s.tasks[k].depends, s.tasks);
    }
    assert IsLogChange(s, s', 0, []);
  }

  /** If every local prerequisite is complete, pruning leaves no local edge at all. */
  lemma KeptDepsNoneDone(depends: seq<string>, tasks: map<nat, Task>)
    requires LocalPrereqsDone(depends, tasks)
    ensures LocalDeps(KeptDeps(depends, tasks)) == {}
  {
    forall c | c in KeptDeps(depends, tasks) ensures ParseLocalID(c).None? {
      KeptDepsMember(depends, tasks, c);
      var d :| d in depends && c == CanonicalOrSelf(d);
      CanonicalOrSelfStable(d);
      assert ParseLocalID(d).Some? ==> ParseLocalID(d).value in LocalDeps(depends);
    }
  }

  // ----- every step -----

  lemma SingleStepEffect(s: StoreState, step: Step)
    requires Sound(s) && ReceiptsLive(s)
    requires step.action.ClaimTask? || step.action.CompleteTask? || step.action.ReleaseTask? || step.action.BlockTask?
             || step.action.UnblockTask? || step.action.LogTask? || step.action.RenewLease? || step.action.HandoffTask?
    ensures StepEffect(s, Perform(s, step).store, step)
  {
    var o, now := Perform(s, step), step.now;
    match step.action
    case ClaimTask(id, actor, ttl, resolver) =>
      ClaimEffect(s, id, actor, ttl, resolver, now);
      SingleEffectStep(s, o, id, step);
    case CompleteTask(id, actor, resolver) =>
      CompleteEffect(s, id, actor, resolver, now);
      SingleEffectStep(s, o, id, step);
    case ReleaseTask(id, actor, failure) => ReleaseEffect(s, id, actor, failure, now); SingleEffectStep(s, o, id, step);
    case BlockTask(id, actor, reason) => BlockEffect(s, id, actor, reason, now); SingleEffectStep(s, o, id, step);
    case UnblockTask(id, actor) => UnblockEffect(s, id, actor, now); SingleEffectStep(s, o, id, step);
    case LogTask(id, actor, message) => NoteEffect(s, id, actor, message, now); SingleEffectStep(s, o, id, step);
    case RenewLease(id, actor, ttl, render) =>
      RenewEffect(s, id, actor, ttl, render, now);
      SingleEffectStep(s, o, id, step);
    case HandoffTask(id, actor, extra) => HandoffEffect(s, id, actor, extra, now); SingleEffectStep(s, o, id, step);
  }

  lemma EveryStepEvolves(s: StoreState, step: Step)
    requires Sound(s) && ReceiptsLive(s) && Admitted(s, step)
    ensures StoreEvolves(s, Perform(s, step).store, step)
  {
    match step.action
    case AddTask(title, after, priority, capabilities, tags) =>
      AddEffect(s, title, after, priority, capabilities, tags, step);
    case AcquireTask(r, resolver) => AcquireEffect(s, r, resolver, step);
    case DecomposeTask(id, actor, subtasks) => DecomposeEffect(s, id, actor, subtasks, step);
    case UpdateTask(id, actor, u, order) => UpdateEffect(s, id, actor, u, order, step);
    case RemoveTasks(ids) => RemoveEffect(s, ids, step);
    case PruneCompleted => PruneEffect(s, step);
    case CompactStore(options, rest) => CompactEffect(s, options, rest, step);
    case SweepLeases => SweepEffect(s, step);
    case StampStore => StampEffect(s, step);
    case _ => SingleStepEffect(s, step);
  }

  lemma DecomposeEarns(s: StoreState, id: nat, actor: string, subtasks: seq<Subtask>, now: nat)
    requires Sound(s) && s.nextId + |subtasks| <= UINT64_LIMIT
    ensures CompletionsEarned(s, Decompose(s, id, actor, subtasks, now).store)
  {
    hide Decompose, WithChildren, ChildUris, Sound;
    var o := Decompose(s, id, actor, subtasks, now);
    if o.error.Some? {
      RefusedDecompose(s, id, actor, subtasks, now);
    } else {
      DecomposedStore(s, id, actor, subtasks, now);
      WithChildrenTasks(s, id, subtasks, now);
    }
  }

  lemma AddEarns(s: StoreState, title: string, after: seq<string>, priority: real, capabilities: seq<string>,
                 tags: seq<string>, now: nat)
    ensures CompletionsEarned(s, Add(s, title, after, priority, capabilities, tags, now).store)
  {
    hide AddGuard, CreatedDeps, DepEdges, ProposedEdges, LocalPrereqsDone;
  }

  lemma AcquireEarns(s: StoreState, r: AcquireRequest, resolver: Resolver, now: nat)
    requires KeyedById(s.tasks)
    ensures CompletionsEarned(s, Acquire(s, r, resolver, now).outcome.store)
  {
    hide Best, Candidates, AtCapacity, LocalPrereqsDone;
  }

  lemma RemoveEarns(s: StoreState, ids: seq<nat>, now: nat)
    ensures CompletionsEarned(s, Remove(s, ids, now).store)
  {
    hide RemoveEach, RemoveGuard, HasSurvivingDependent, LocalPrereqsDone;
    RemoveEachTasks(s, ids, now);
  }

  lemma PruneEarns(s: StoreState, now: nat)
    ensures CompletionsEarned(s, Prune(s, now))
  {
    hide KeptDeps, LocalPrereqsDone;
  }

  lemma SweepEarns(s: StoreState, now: nat)
    ensures CompletionsEarned(s, Sweep(s, now))
  {
    hide Sweep, LocalPrereqsDone;
    SweepTasks(s, now);
  }

  lemma SameTasksEarn(s: StoreState, s': StoreState)
    requires s'.tasks == s.tasks
    ensures CompletionsEarned(s, s')
  {
  }

  /** What any admitted step does to any sound store. */
  lemma EveryStepEffect(s: StoreState, step: Step)
    requires Sound(s) && ReceiptsLive(s) && Admitted(s, step)
    ensures StepEffect(s, Perform(s, step).store, step)
  {
    hide StoreEvolves, CompletionsEarned;
    hide Add, Claim, Acquire, Complete, Release, Block, Unblock, Note, Decompose, Update, Renew, Handoff;
    hide Remove, Prune, Sweep;
    EveryStepEvolves(s, step);
    var now := step.now;
    match step.action
    case AddTask(title, after, priority, capabilities, tags) =>
      AddEarns(s, title, after, priority, capabilities, tags, now);
    case AcquireTask(r, resolver) => AcquireEarns(s, r, resolver, now);
    case DecomposeTask(id, actor, subtasks) => DecomposeEarns(s, id, actor, subtasks, now);
    case UpdateTask(id, actor, u, order) => UpdateEffect(s, id, actor, u, order, step);
    case RemoveTasks(ids) => RemoveEarns(s, ids, now);
    case PruneCompleted => PruneEarns(s, now);
    case CompactStore(options, rest) => SameTasksEarn(s, Compact(s, options, now, rest));
    case SweepLeases => SweepEarns(s, now);
    case StampStore => SameTasksEarn(s, Stamped(s, now));
    case _ => SingleStepEffect(s, step);
  }

  lemma SingleStepSound(s: StoreState, step: Step)
    requires Sound(s) && Admitted(s, step)
    requires step.action.ClaimTask? || step.action.CompleteTask? || step.action.ReleaseTask? || step.action.BlockTask?
             || step.action.UnblockTask? || step.action.LogTask? || step.action.RenewLease? || step.action.HandoffTask?
    ensures Sound(Perform(s, step).store)
  {
    var now := step.now;
    match step.action
    case ClaimTask(id, actor, ttl, resolver) => ClaimSound(s, id, actor, ttl, resolver, now);
    case CompleteTask(id, actor, resolver) => CompleteSound(s, id, actor, resolver, now);
    case ReleaseTask(id, actor, failure) => ReleaseSound(s, id, actor, failure, now);
    case BlockTask(id, actor, reason) => BlockSound(s, id, actor, reason, now);
    case UnblockTask(id, actor) => UnblockSound(s, id, actor, now);
    case LogTask(id, actor, message) => NoteSound(s, id, actor, message, now);
    case RenewLease(id, actor, ttl, render) => RenewSound(s, id, actor, ttl, render, now);
    case HandoffTask(id, actor, extra) => HandoffSound(s, id, actor, extra, now);
  }

  lemma EveryStepSound(s: StoreState, step: Step)
    requires Sound(s) && Admitted(s, step)
    ensures Sound(Perform(s, step).store)
  {
    var now := step.now;
    match step.action
    case AddTask(title, after, priority, capabilities, tags) =>
      AddSound(s, title, after, priority, capabilities, tags, now);
    case AcquireTask(r, resolver) => AcquireSound(s, r, resolver, now);
    case DecomposeTask(id, actor, subtasks) => DecomposeSound(s, id, actor, subtasks, now);
    case UpdateTask(id, actor, u, order) => UpdateSound(s, id, actor, u, order, now);
    case RemoveTasks(ids) => RemoveSound(s, ids, now);
    case PruneCompleted => PruneSound(s, now);
    case CompactStore(options, rest) => CompactSound(s, options, now, rest);
    case SweepLeases => SweepSound(s, now);
    case StampStore => SoundWhenTouched(s, Stamped(s, now));
    case _ => SingleStepSound(s, step);
  }
}
