/** What holds over whole runs: any number of steps, by any actors, in any order. */
module Runs {
  import opened Wrappers
  import opened Digraph
  import opened StoreModel
  import opened DependencyGraph
  import opened Readiness
  import opened Transitions
  import opened Invariant
  import opened StepEffects

  /** The store invariant, every receipt naming a task that exists, and a gap-free event window. */
  ghost predicate Good(s: StoreState) {
    Sound(s) && ReceiptsLive(s) && LogWindow(s)
  }

  lemma LogWindowKept(s: StoreState, s': StoreState)
    requires LogWindow(s) && LogEvolves(s, s')
    ensures LogWindow(s')
  {
    var drop: nat, added :| IsLogChange(s, s', drop, added);
    forall i | 0 <= i < |s'.events| ensures s'.events[i].id == s'.nextEventId - |s'.events| + i {
      if i < |s.events| - drop {
        assert s'.events[i] == s.events[drop + i];
      } else {
        assert s'.events[i] == added[i - (|s.events| - drop)];
      }
    }
  }

  /** What one move of a run can do: nothing, or the effect of an admitted step. */
  ghost predicate Moves(s: StoreState, s': StoreState, step: Step) {
    s' == s || StepEffect(s, s', step)
  }

  lemma GoodIdsBelow(s: StoreState, id: nat)
    requires Good(s) && id in s.tasks
    ensures id < s.nextId
  {
  }

  lemma GoodIsKeyed(s: StoreState)
    requires Good(s)
    ensures KeyedById(s.tasks)
  {
  }

  lemma GoodReceipt(s: StoreState, q: string)
    requires Good(s) && q in s.acquisitions
    ensures s.acquisitions[q].task.id in s.tasks && s.acquisitions[q].task.id < s.nextId
  {
  }

  lemma MoveKeepsLease(s: StoreState, s': StoreState, step: Step, id: nat)
    requires Good(s) && Moves(s, s', step)
    requires id in s.tasks && s.tasks[id].status == IN_PROGRESS
    requires step.now < s.tasks[id].leaseExpires && ActsOn(step, id) != s.tasks[id].owner
    ensures id in s'.tasks && s'.tasks[id].status == IN_PROGRESS
    ensures s'.tasks[id].owner == s.tasks[id].owner && s'.tasks[id].leaseExpires == s.tasks[id].leaseExpires
  {
    assert TaskEvolves(s.tasks[id], s.tasks[id], ActsOn(step, id), step.now);
  }

  lemma MoveKeepsCompleted(s: StoreState, s': StoreState, step: Step, id: nat)
    requires Moves(s, s', step)
    requires id in s.tasks && s.tasks[id].status == COMPLETED && id in s'.tasks
    ensures s'.tasks[id].status == COMPLETED && s'.tasks[id].completed == s.tasks[id].completed
  {
  }

  lemma MoveKeepsPrereqs(s: StoreState, s': StoreState, step: Step, id: nat)
    requires Moves(s, s', step) && !EditsDeps(step, id)
    requires id in s.tasks && id in s'.tasks && LocalPrereqsDone(s.tasks[id].depends, s.tasks)
    ensures LocalPrereqsDone(s'.tasks[id].depends, s'.tasks)
  {
  }

  lemma MoveKeepsReceipt(s: StoreState, s': StoreState, step: Step, q: string)
    requires Moves(s, s', step) && q in s.acquisitions && q in s'.acquisitions
    ensures s'.acquisitions[q] == s.acquisitions[q]
  {
  }

  lemma MoveKeepsAbsent(s: StoreState, s': StoreState, step: Step, id: nat)
    requires Moves(s, s', step)
    ensures s.nextId <= s'.nextId
    ensures id < s.nextId && id !in s.tasks ==> id !in s'.tasks
  {
  }

  /** One step of a run; a request its caller refuses leaves the store alone. */
  ghost function Next(s: StoreState, step: Step): (s': StoreState)
    requires Good(s)
    ensures Good(s') && Moves(s, s', step)
  {
    if Admitted(s, step) then
      EveryStepSound(s, step);
      EveryStepEffect(s, step);
      LogWindowKept(s, Perform(s, step).store);
      Perform(s, step).store
    else s
  }

  /** The store after a run. Every operation keeps the invariant, so every store of a run has it. */
  ghost function Run(s: StoreState, steps: seq<Step>): (r: StoreState)
    requires Good(s)
    ensures Good(r)
  {
    if steps == [] then s else Next(Run(s, steps[..|steps| - 1]), steps[|steps| - 1])
  }

  lemma EmptyStoreIsGood()
    ensures Good(EMPTY_STORE)
  {
    assert DepEdges(EMPTY_STORE.tasks) == {};
    RankedIsAcyclic(DepEdges(EMPTY_STORE.tasks), map[]);
  }

  /** Whatever is done to a new store, in whatever order, it keeps the invariant. */
  lemma RunsFromEmptyAreGood(steps: seq<Step>)
    ensures Good(EMPTY_STORE) && Good(Run(EMPTY_STORE, steps))
  {
    EmptyStoreIsGood();
  }

  // ----- identity -----

  lemma {:induction false} NextIdNeverFalls(s: StoreState, steps: seq<Step>)
    requires Good(s)
    ensures s.nextId <= Run(s, steps).nextId
  {
    hide Perform, Next, Good, Moves;
    if steps != [] {
      var init, last := steps[..|steps| - 1], steps[|steps| - 1];
      NextIdNeverFalls(s, init);
      MoveKeepsAbsent(Run(s, init), Next(Run(s, init), last), last, 0);
    }
  }

  /** An ID that was issued and is gone is never issued again. */
  lemma {:induction false} RemovedStaysRemoved(s: StoreState, steps: seq<Step>, id: nat)
    requires Good(s) && id < s.nextId && id !in s.tasks
    ensures id !in Run(s, steps).tasks
  {
    hide Perform, Next, Good, Moves;
    if steps != [] {
      var init, last := steps[..|steps| - 1], steps[|steps| - 1];
      RemovedStaysRemoved(s, init, id);
      NextIdNeverFalls(s, init);
      MoveKeepsAbsent(Run(s, init), Next(Run(s, init), last), last, id);
    }
  }

  lemma {:induction false} RunSplit(s: StoreState, a: seq<Step>, b: seq<Step>)
    requires Good(s)
    ensures Run(s, a + b) == Run(Run(s, a), b)
  {
    hide Perform, Next, Good, Moves;
    if b == [] {
      assert a + b == a;
    } else {
      var init, last := b[..|b| - 1], b[|b| - 1];
      RunSplit(s, a, init);
      assert (a + b)[..|a + b| - 1] == a + init;
    }
  }

  /** A task still there at the end was there all along. */
  lemma PresentThroughout(s: StoreState, steps: seq<Step>, id: nat)
    requires Good(s) && steps != [] && id in s.tasks && id in Run(s, steps).tasks
    ensures id in Run(s, steps[..|steps| - 1]).tasks
  {
    hide Perform, Next, Good, Moves;
    var init, last := steps[..|steps| - 1], steps[|steps| - 1];
    NextIdNeverFalls(s, init);
    GoodIdsBelow(s, id);
    MoveKeepsAbsent(Run(s, init), Next(Run(s, init), last), last, id);
  }

  // ----- leases -----

  /**
   * A live lease is exclusive: while every step happens before it expires and its owner takes no
   * step on the task, nothing changes the task's owner, status or lease, and nothing removes it.
   */
  lemma {:induction false} LiveLeaseIsExclusive(s: StoreState, steps: seq<Step>, id: nat)
    requires Good(s) && id in s.tasks && s.tasks[id].status == IN_PROGRESS
    requires forall i :: 0 <= i < |steps| ==>
               steps[i].now < s.tasks[id].leaseExpires && ActsOn(steps[i], id) != s.tasks[id].owner
    ensures var r := Run(s, steps);
            && id in r.tasks && r.tasks[id].status == IN_PROGRESS
            && r.tasks[id].owner == s.tasks[id].owner && r.tasks[id].leaseExpires == s.tasks[id].leaseExpires
  {
    hide Perform, Next, Good, Moves;
    if steps != [] {
      var init, last := steps[..|steps| - 1], steps[|steps| - 1];
      LiveLeaseIsExclusive(s, init, id);
      MoveKeepsLease(Run(s, init), Next(Run(s, init), last), last, id);
    }
  }

  // ----- completion -----

  /** Completion is final: a completed task stays completed, at the same time, until it is removed. */
  lemma {:induction false} CompletedIsFinal(s: StoreState, steps: seq<Step>, id: nat)
    requires Good(s) && id in s.tasks && s.tasks[id].status == COMPLETED
    ensures id in Run(s, steps).tasks ==>
              Run(s, steps).tasks[id].status == COMPLETED && Run(s, steps).tasks[id].completed == s.tasks[id].completed
  {
    hide Perform, Next, Good, Moves;
    if steps != [] && id in Run(s, steps).tasks {
      var init, last := steps[..|steps| - 1], steps[|steps| - 1];
      PresentThroughout(s, steps, id);
      CompletedIsFinal(s, init, id);
      MoveKeepsCompleted(Run(s, init), Next(Run(s, init), last), last, id);
    }
  }

  lemma MoveEarnsCompletion(s: StoreState, s': StoreState, step: Step, id: nat)
    requires Moves(s, s', step) && id in s'.tasks && s'.tasks[id].status == COMPLETED
    ensures id in s.tasks && (s.tasks[id].status == COMPLETED || LocalPrereqsDone(s.tasks[id].depends, s.tasks))
  {
  }

  /** Step `i` of the run completed the task, from a store in which all its local prerequisites were completed. */
  ghost predicate EarnedAt(s: StoreState, steps: seq<Step>, id: nat, i: nat)
    requires Good(s) && i < |steps|
  {
    var before, after := Run(s, steps[..i]), Run(s, steps[..i + 1]);
    && id in before.tasks && before.tasks[id].status != COMPLETED
    && LocalPrereqsDone(before.tasks[id].depends, before.tasks)
    && id in after.tasks && after.tasks[id].status == COMPLETED
  }

  /** A task found completed was so from the start, or was completed by a step that found its prerequisites done. */
  lemma {:induction false} CompletionIsEarned(s: StoreState, steps: seq<Step>, id: nat)
    requires Good(s) && id in Run(s, steps).tasks && Run(s, steps).tasks[id].status == COMPLETED
    ensures (id in s.tasks && s.tasks[id].status == COMPLETED) ||
            exists i :: 0 <= i < |steps| && EarnedAt(s, steps, id, i)
  {
    hide Perform, Next, Good, Moves, LocalPrereqsDone;
    if steps != [] {
      var init, last := steps[..|steps| - 1], steps[|steps| - 1];
      assert steps[..|init| + 1] == steps;
      MoveEarnsCompletion(Run(s, init), Next(Run(s, init), last), last, id);
      if Run(s, init).tasks[id].status == COMPLETED {
        CompletionIsEarned(s, init, id);
        if !(id in s.tasks && s.tasks[id].status == COMPLETED) {
          var i :| 0 <= i < |init| && EarnedAt(s, init, id, i);
          assert init[..i] == steps[..i] && init[..i + 1] == steps[..i + 1];
          assert EarnedAt(s, steps, id, i);
        }
      } else {
        assert EarnedAt(s, steps, id, |init|);
      }
    }
  }

  /**
   * Once all local prerequisites of a task are complete they stay so, through removals and prunes
   * of other tasks too, for as long as nobody edits the dependencies of the task itself.
   */
  lemma {:induction false} PrereqsDoneStayDone(s: StoreState, steps: seq<Step>, id: nat)
    requires Good(s) && id in s.tasks && LocalPrereqsDone(s.tasks[id].depends, s.tasks)
    requires forall i :: 0 <= i < |steps| ==> !EditsDeps(steps[i], id)
    ensures id in Run(s, steps).tasks ==> LocalPrereqsDone(Run(s, steps).tasks[id].depends, Run(s, steps).tasks)
  {
    hide Perform, Next, Good, Moves;
    if steps != [] && id in Run(s, steps).tasks {
      var init, last := steps[..|steps| - 1], steps[|steps| - 1];
      PresentThroughout(s, steps, id);
      PrereqsDoneStayDone(s, init, id);
      MoveKeepsPrereqs(Run(s, init), Next(Run(s, init), last), last, id);
    }
  }

  // ----- receipts -----

  /** A receipt that was there after every step is the receipt that was written. */
  lemma {:induction false} ReceiptNeverChanges(s: StoreState, steps: seq<Step>, q: string)
    requires Good(s)
    requires forall i :: 0 <= i <= |steps| ==> q in Run(s, steps[..i]).acquisitions
    ensures q in Run(s, steps).acquisitions && q in s.acquisitions
    ensures Run(s, steps).acquisitions[q] == s.acquisitions[q]
  {
    hide Perform, Next, Good, Moves;
    assert steps[..0] == [] && steps[..|steps|] == steps;
    if steps != [] {
      var init, last := steps[..|steps| - 1], steps[|steps| - 1];
      forall i | 0 <= i <= |init| ensures q in Run(s, init[..i]).acquisitions {
        assert init[..i] == steps[..i];
      }
      ReceiptNeverChanges(s, init, q);
      assert q in Run(s, steps[..|init|]).acquisitions;
      MoveKeepsReceipt(Run(s, init), Next(Run(s, init), last), last, q);
    }
  }

  /** A granted acquisition files a receipt holding the task it returned. */
  lemma GrantFilesReceipt(s: StoreState, r: AcquireRequest, resolver: Resolver, now: nat)
    requires KeyedById(s.tasks)
    requires Acquire(s, r, resolver, now).outcome.error.None? && !Acquire(s, r, resolver, now).replayed
    ensures var a := Acquire(s, r, resolver, now);
            && r.requestId !in s.acquisitions && r.requestId in a.outcome.store.acquisitions
            && var receipt := a.outcome.store.acquisitions[r.requestId];
            receipt.operation == ACQUIRE_OPERATION && receipt.fingerprint == r.fingerprint &&
            a.task == Some(receipt.task)
  {
  }

  /** The store after an acquisition of a good store is good. */
  ghost function AfterAcquire(s: StoreState, r: AcquireRequest, resolver: Resolver, now: nat): (s': StoreState)
    requires Good(s) && r.actor != "" && now > 0
    ensures Good(s') && s' == Acquire(s, r, resolver, now).outcome.store
  {
    Next(s, Step(AcquireTask(r, resolver), now))
  }

  /** What a repeated request finds while its receipt is there. */
  lemma ReceiptDecides(s: StoreState, r: AcquireRequest, resolver: Resolver, now: nat)
    requires KeyedById(s.tasks) && r.requestId in s.acquisitions
    requires s.acquisitions[r.requestId].operation == ACQUIRE_OPERATION
    ensures var receipt := s.acquisitions[r.requestId];
            Acquire(s, r, resolver, now) ==
            if receipt.fingerprint == r.fingerprint then Acquired(Outcome(s, None), Some(receipt.task), true)
            else Acquired(Outcome(s, Some(RequestConflict)), None, false)
  {
  }

  /**
   * Acquisition is idempotent for as long as its receipt exists: after any later steps the same
   * request replays the task exactly as it was granted and changes nothing, and the same request
   * ID with another fingerprint is refused and changes nothing.
   */
  lemma AcquireReplays(s: StoreState, r: AcquireRequest, resolver: Resolver, now: nat, granted: StoreState,
                       steps: seq<Step>, again: AcquireRequest, laterResolver: Resolver, later: nat)
    requires Good(s) && r.actor != "" && now > 0 && again.requestId == r.requestId
    requires Acquire(s, r, resolver, now).outcome.error.None? && !Acquire(s, r, resolver, now).replayed
    requires granted == AfterAcquire(s, r, resolver, now)
    requires forall i :: 0 <= i <= |steps| ==> r.requestId in Run(granted, steps[..i]).acquisitions
    ensures var after := Run(granted, steps);
            Acquire(after, again, laterResolver, later) ==
            if again.fingerprint == r.fingerprint
            then Acquired(Outcome(after, None), Acquire(s, r, resolver, now).task, true)
            else Acquired(Outcome(after, Some(RequestConflict)), None, false)
  {
    hide Perform, Next, Good, Acquire, AfterAcquire, Run;
    GoodIsKeyed(s);
    GrantFilesReceipt(s, r, resolver, now);
    assert granted == Acquire(s, r, resolver, now).outcome.store;
    ReceiptNeverChanges(granted, steps, r.requestId);
    var after := Run(granted, steps);
    GoodIsKeyed(after);
    ReceiptDecides(after, again, laterResolver, later);
  }

  /** The task a receipt names exists, and once it is removed its ID names nothing ever again. */
  lemma ReceiptNamesItsTask(s: StoreState, steps: seq<Step>, q: string, more: seq<Step>)
    requires Good(s) && q in Run(s, steps).acquisitions
    ensures var id := Run(s, steps).acquisitions[q].task.id;
            && id in Run(s, steps).tasks && id < Run(s, steps).nextId
            && (id !in Run(s, steps + more).tasks ==>
                  forall last: seq<Step> :: id !in Run(s, steps + more + last).tasks)
  {
    hide Perform, Next, Good, Moves;
    var id := Run(s, steps).acquisitions[q].task.id;
    GoodReceipt(Run(s, steps), q);
    var mid := Run(s, steps + more);
    if id !in mid.tasks {
      RunSplit(s, steps, more);
      NextIdNeverFalls(Run(s, steps), more);
      forall last: seq<Step> ensures id !in Run(s, steps + more + last).tasks {
        RunSplit(s, steps + more, last);
        RemovedStaysRemoved(mid, last, id);
      }
    }
  }
}
