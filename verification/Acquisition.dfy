/** `acquireFromStore`: replay, diagnose, rank and lease, tied to its transition and its guarantees. */
module Acquisition {
  import opened Wrappers
  import opened StoreModel
  import opened Readiness
  import opened Transitions
  import opened TaskStores
  import opened Allocation
  import opened Diagnosis

  /** The lease, the log entry, the event and the receipt of a granted acquisition. */
  method GrantTask(s: TaskStore, r: AcquireRequest, task: Task, now: nat) returns (leased: Task)
    requires task.id in s.tasks && s.tasks[task.id] == task
    modifies s
    ensures s.State() == Grant(old(s.State()), r, task.id, now)
    ensures task.id in s.tasks && leased == s.tasks[task.id]
  {
    s.tasks := s.tasks[task.id := task.(owner := r.actor, status := IN_PROGRESS, leaseExpires := now + r.ttl.millis)];
    var _ := s.AddLog(task.id, r.actor, "acquired", now);
    s.AddEvent(TaskClaimed, task.id, r.actor,
               map["ttl" := r.ttl.text, "mode" := "acquire", "request_id" := r.requestId], now);
    leased := s.tasks[task.id];
    s.acquisitions := s.acquisitions[r.requestId :=
      AcquisitionReceipt(r.requestId, ACQUIRE_OPERATION, r.fingerprint, r.actor, now, leased)];
  }

  method AcquireFromStore(s: TaskStore, r: AcquireRequest, resolver: Resolver, shorten: Shortening, now: nat)
    returns (task: Option<Task>, replayed: bool, error: Option<Error>, diagnostics: Option<Diagnostics>)
    requires KeyedById(s.tasks)
    modifies s
    ensures Acquired(Outcome(s.State(), error), task, replayed) == Acquire(old(s.State()), r, resolver, now)
    ensures diagnostics.Some? <==> error == Some(AgentAtCapacity) || error == Some(NoReadyTasks)
    ensures diagnostics.Some? ==>
              Diagnoses(diagnostics.value, old(s.tasks), resolver, r.actor, r.capabilities, true, r.maxLoad, shorten)
  {
    if r.requestId in s.acquisitions {
      var receipt := s.acquisitions[r.requestId];
      if receipt.operation != ACQUIRE_OPERATION || receipt.fingerprint != r.fingerprint {
        return None, false, Some(RequestConflict), None;
      }
      return Some(receipt.task), true, None, None;
    }
    var d := DiagnoseAllocation(s.tasks, resolver, r.actor, r.capabilities, true, r.maxLoad, shorten);
    if d.reason == WorkerAtCapacity {
      return None, false, Some(AgentAtCapacity), Some(d);
    }
    ghost var ids := Candidates(s.tasks, resolver, r.capabilities, true);
    var ready := RankedReadyTasks(s.tasks, resolver, r.capabilities, true);
    RankedFirstIsBest(s.tasks, ids, ready);
    if |ready| == 0 {
      return None, false, Some(NoReadyTasks), Some(d);
    }
    BestUnique(s.tasks, ids, ready[0].id, Best(s.tasks, ids));
    var leased := GrantTask(s, r, ready[0], now);
    return Some(leased), false, None, None;
  }

  // ----- what an acquisition guarantees -----

  /**
   * A fresh request succeeds exactly when the diagnosis of the queue says work is ready; refused,
   * it is for capacity exactly when the diagnosis says so.
   */
  lemma FreshAcquireIffReady(s: StoreState, r: AcquireRequest, resolver: Resolver, now: nat, d: Diagnostics,
                             shorten: Shortening)
    requires KeyedById(s.tasks) && r.requestId !in s.acquisitions
    requires Diagnoses(d, s.tasks, resolver, r.actor, r.capabilities, true, r.maxLoad, shorten)
    ensures Acquire(s, r, resolver, now).outcome.error.None? <==> d.reason == WorkReady
    ensures Acquire(s, r, resolver, now).outcome.error == Some(AgentAtCapacity) <==> d.reason == WorkerAtCapacity
  {
    var ids := Candidates(s.tasks, resolver, r.capabilities, true);
    assert d.compatibleReady == 0 <==> ids == {};
  }

  lemma OwnedAfterGrant(s: StoreState, r: AcquireRequest, id: nat, now: nat, actor: string)
    requires id in s.tasks && s.tasks[id].status == PENDING
    ensures OwnedIds(Grant(s, r, id, now).tasks, actor) ==
            OwnedIds(s.tasks, actor) + (if actor != "" && actor == r.actor then {id} else {})
  {
  }

  /**
   * A fresh acquisition leases the one best compatible ready task and touches no other, and never
   * takes the actor above a positive load limit.
   */
  lemma FreshAcquireLeasesBest(s: StoreState, r: AcquireRequest, resolver: Resolver, now: nat)
    requires KeyedById(s.tasks) && r.actor != "" && r.requestId !in s.acquisitions
    requires Acquire(s, r, resolver, now).outcome.error.None?
    ensures var a, ids := Acquire(s, r, resolver, now), Candidates(s.tasks, resolver, r.capabilities, true);
            var s' := a.outcome.store;
            && !a.replayed && a.task.Some? && var id := a.task.value.id;
            && IsBest(s.tasks, ids, id) && (forall other :: IsBest(s.tasks, ids, other) ==> other == id)
            && CanTake(s.tasks, id, resolver, r.capabilities, true)
            && (forall k :: k != id && CanTake(s.tasks, k, resolver, r.capabilities, true) ==>
                  s.tasks[id].priority > s.tasks[k].priority ||
                  (s.tasks[id].priority == s.tasks[k].priority && id < k))
            && id in s'.tasks && s'.tasks[id] == a.task.value
            && s'.tasks == s.tasks[id := s'.tasks[id]]
            && s'.tasks[id].owner == r.actor && s'.tasks[id].status == IN_PROGRESS
            && s'.tasks[id].leaseExpires == now + r.ttl.millis
            && (r.maxLoad > 0 ==> |OwnedIds(s'.tasks, r.actor)| <= r.maxLoad)
  {
    var ids := Candidates(s.tasks, resolver, r.capabilities, true);
    var id := Best(s.tasks, ids);
    forall other | IsBest(s.tasks, ids, other) ensures other == id {
      BestUnique(s.tasks, ids, id, other);
    }
    OwnedAfterGrant(s, r, id, now, r.actor);
    CanTakeIff(s.tasks, id, resolver, r.capabilities, true);
    forall k | k != id && CanTake(s.tasks, k, resolver, r.capabilities, true)
      ensures s.tasks[id].priority > s.tasks[k].priority ||
              (s.tasks[id].priority == s.tasks[k].priority && id < k)
    {
      CanTakeIff(s.tasks, k, resolver, r.capabilities, true);
      assert RanksBefore(s.tasks[id], s.tasks[k]);
    }
  }
}
