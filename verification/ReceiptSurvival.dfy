/** How long an acquisition receipt lives, and replay for as long as its task is there and unfinished. */
module ReceiptSurvival {
  import opened Wrappers
  import opened StoreModel
  import opened Transitions
  import opened Invariant
  import opened Soundness
  import opened StepEffects
  import opened Runs
  import opened Readiness

  /** A compaction that drops receipts as old as `created`. */
  predicate CompactsPast(step: Step, created: nat) {
    step.action.CompactStore? && step.action.options.receiptsBefore > 0 &&
    created < CompactCutoff(step.now, step.action.rest, step.action.options.receiptsBefore)
  }

  /** The step takes receipt `q` with it: its task goes, or the task is finished and the receipt too old. */
  ghost predicate DropsReceipt(s: StoreState, step: Step, q: string)
    requires KeyedById(s.tasks) && q in s.acquisitions
  {
    var id := s.acquisitions[q].task.id;
    var done := id in s.tasks && s.tasks[id].status == COMPLETED;
    match step.action
    case RemoveTasks(ids) =>
      id in ids && RemoveGuard(s.tasks, ids).None? && !HasSurvivingDependent(s.tasks, ids)
    case PruneCompleted => done
    case CompactStore(_, _) => done && CompactsPast(step, s.acquisitions[q].created)
    case _ => false
  }

  /** Updates leave every receipt alone. */
  lemma UpdateKeepsReceipts(s: StoreState, id: nat, actor: string, u: TaskUpdate, order: seq<string>, now: nat)
    ensures Update(s, id, actor, u, order, now).store.acquisitions == s.acquisitions
  {
    hide EditTask, EditedDeps, EditEvents;
  }

  lemma SingleStepKeepsReceipts(s: StoreState, step: Step, q: string)
    requires Sound(s) && ReceiptsLive(s) && q in s.acquisitions
    requires step.action.ClaimTask? || step.action.CompleteTask? || step.action.ReleaseTask? || step.action.BlockTask?
             || step.action.UnblockTask? || step.action.LogTask? || step.action.RenewLease? || step.action.HandoffTask?
    ensures q in Perform(s, step).store.acquisitions
  {
    hide Claim, Complete, Release, Block, Unblock, Note, Renew, Handoff, LogEvolves, Sound;
    var now := step.now;
    match step.action
    case ClaimTask(id, actor, ttl, resolver) => ClaimEffect(s, id, actor, ttl, resolver, now);
    case CompleteTask(id, actor, resolver) => CompleteEffect(s, id, actor, resolver, now);
    case ReleaseTask(id, actor, failure) => ReleaseEffect(s, id, actor, failure, now);
    case BlockTask(id, actor, reason) => BlockEffect(s, id, actor, reason, now);
    case UnblockTask(id, actor) => UnblockEffect(s, id, actor, now);
    case LogTask(id, actor, message) => NoteEffect(s, id, actor, message, now);
    case RenewLease(id, actor, ttl, render) => RenewEffect(s, id, actor, ttl, render, now);
    case HandoffTask(id, actor, extra) => HandoffEffect(s, id, actor, extra, now);
  }

  lemma GrowingStepKeepsReceipts(s: StoreState, step: Step, q: string)
    requires KeyedById(s.tasks) && q in s.acquisitions
    requires step.action.AddTask? || step.action.AcquireTask? || step.action.DecomposeTask? || step.action.StampStore?
    ensures q in Perform(s, step).store.acquisitions
  {
    hide Best, Candidates, AtCapacity, AddGuard, CreatedDeps, CanonicalSet;
  }

  /** A receipt is gone after a step exactly when the step removes its task or compacts it away. */
  lemma ReceiptGoneIff(s: StoreState, step: Step, q: string)
    requires Sound(s) && ReceiptsLive(s) && q in s.acquisitions
    ensures q !in Perform(s, step).store.acquisitions <==> DropsReceipt(s, step, q)
  {
    hide Add, Claim, Acquire, Complete, Release, Block, Unblock, Note, Decompose, Update, Renew, Handoff;
    hide Sweep, KeptDeps;
    match step.action
    case RemoveTasks(ids) => RemoveEachTasks(s, ids, step.now);
    case PruneCompleted =>
    case CompactStore(_, _) =>
    case UpdateTask(id, actor, u, order) => UpdateKeepsReceipts(s, id, actor, u, order, step.now);
    case SweepLeases => SweepTasks(s, step.now);
    case AddTask(_, _, _, _, _) => GrowingStepKeepsReceipts(s, step, q);
    case AcquireTask(_, _) => GrowingStepKeepsReceipts(s, step, q);
    case DecomposeTask(_, _, _) => GrowingStepKeepsReceipts(s, step, q);
    case StampStore => GrowingStepKeepsReceipts(s, step, q);
    case _ => SingleStepKeepsReceipts(s, step, q);
  }

  lemma RemovedTaskIsGone(s: StoreState, step: Step, q: string)
    requires Sound(s) && ReceiptsLive(s) && q in s.acquisitions && DropsReceipt(s, step, q)
    ensures var id, tasks := s.acquisitions[q].task.id, Perform(s, step).store.tasks;
            id in tasks ==> CompactsPast(step, s.acquisitions[q].created) && tasks[id].status == COMPLETED
  {
    if step.action.RemoveTasks? {
      RemoveEachTasks(s, step.action.ids, step.now);
    }
  }

  // ----- over runs -----

  lemma StepKeepsReceipt(s: StoreState, step: Step, q: string)
    requires Good(s) && q in s.acquisitions
    requires var id, tasks := s.acquisitions[q].task.id, Next(s, step).tasks;
             id in tasks && (tasks[id].status != COMPLETED || !CompactsPast(step, s.acquisitions[q].created))
    ensures q in Next(s, step).acquisitions
  {
    hide Perform, Sound, LogWindow, DropsReceipt;
    if Admitted(s, step) && q !in Next(s, step).acquisitions {
      ReceiptGoneIff(s, step, q);
      RemovedTaskIsGone(s, step, q);
    }
  }

  /**
   * A receipt survives every step of a run that leaves its task in place, unless that task is
   * finished and a compaction reaches past the receipt.
   */
  lemma {:induction false} ReceiptSurvivesRun(s: StoreState, steps: seq<Step>, q: string)
    requires Good(s) && q in s.acquisitions
    requires var id, tasks := s.acquisitions[q].task.id, Run(s, steps).tasks;
             id in tasks && (tasks[id].status != COMPLETED ||
                             forall i :: 0 <= i < |steps| ==> !CompactsPast(steps[i], s.acquisitions[q].created))
    ensures forall i :: 0 <= i <= |steps| ==> q in Run(s, steps[..i]).acquisitions
  {
    hide Perform, Next, Good, Moves, CompactsPast;
    var id := s.acquisitions[q].task.id;
    GoodReceipt(s, q);
    if steps == [] {
      assert steps[..0] == [];
    } else {
      var init, last := steps[..|steps| - 1], steps[|steps| - 1];
      PresentThroughout(s, steps, id);
      if Run(s, init).tasks[id].status == COMPLETED {
        MoveKeepsCompleted(Run(s, init), Next(Run(s, init), last), last, id);
      }
      ReceiptSurvivesRun(s, init, q);
      ReceiptNeverChanges(s, init, q);
      StepKeepsReceipt(Run(s, init), last, q);
      forall i | 0 <= i <= |steps| ensures q in Run(s, steps[..i]).acquisitions {
        if i < |steps| {
          assert steps[..i] == init[..i];
        } else {
          assert steps[..i] == steps;
        }
      }
    }
  }

  /** The receipt of a fresh acquisition: the task it names and when it was issued. */
  lemma GrantedReceipt(s: StoreState, r: AcquireRequest, resolver: Resolver, now: nat)
    requires Good(s) && r.actor != "" && now > 0
    requires KeyedById(s.tasks) && Acquire(s, r, resolver, now).outcome.error.None? &&
             !Acquire(s, r, resolver, now).replayed
    ensures var a := Acquire(s, r, resolver, now);
            && a.task.Some? && r.requestId in a.outcome.store.acquisitions
            && a.outcome.store.acquisitions[r.requestId].task == a.task.value
            && a.outcome.store.acquisitions[r.requestId].created == now
  {
    hide Good, Candidates, Best;
  }

  /**
   * Acquisition is idempotent on a live task: as long as the task is there and unfinished, or is
   * there and no compaction reached past the receipt, the same request returns it exactly as it was
   * granted and changes nothing, and the request ID with another fingerprint is refused.
   */
  lemma AcquireReplaysOnLiveTask(s: StoreState, r: AcquireRequest, resolver: Resolver, now: nat, granted: StoreState,
                                 steps: seq<Step>, again: AcquireRequest, laterResolver: Resolver, later: nat)
    requires Good(s) && r.actor != "" && now > 0 && again.requestId == r.requestId && KeyedById(s.tasks)
    requires Acquire(s, r, resolver, now).outcome.error.None? && !Acquire(s, r, resolver, now).replayed
    requires granted == AfterAcquire(s, r, resolver, now) && Acquire(s, r, resolver, now).task.Some?
    requires var id, tasks := Acquire(s, r, resolver, now).task.value.id, Run(granted, steps).tasks;
             id in tasks && (tasks[id].status != COMPLETED ||
                             forall i :: 0 <= i < |steps| ==> !CompactsPast(steps[i], now))
    ensures KeyedById(Run(granted, steps).tasks)
    ensures var after := Run(granted, steps);
            Acquire(after, again, laterResolver, later) ==
            if again.fingerprint == r.fingerprint
            then Acquired(Outcome(after, None), Acquire(s, r, resolver, now).task, true)
            else Acquired(Outcome(after, Some(RequestConflict)), None, false)
  {
    hide Perform, Next, Good, Acquire, AfterAcquire, Run, CompactsPast;
    GrantedReceipt(s, r, resolver, now);
    assert granted == Acquire(s, r, resolver, now).outcome.store;
    ReceiptSurvivesRun(granted, steps, r.requestId);
    GoodIsKeyed(Run(granted, steps));
    AcquireReplays(s, r, resolver, now, granted, steps, again, laterResolver, later);
  }
}
