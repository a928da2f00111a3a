/**
 * One locked read-modify-write of the store file: sweep the expired leases, run one operation or
 * several in turn, write the result. What a transaction commits when an operation is refused.
 */
module Transactions {
  import opened Wrappers
  import opened Orders
  import opened StoreModel
  import opened StepEffects
  import opened Batches

  lemma SweepKeepsKeys(s: StoreState, now: nat)
    requires KeyedById(s.tasks)
    ensures KeyedById(Sweep(s, now).tasks)
  {
    SweepTasks(s, now);
  }

  /** The file after a transaction, and the error its operation returned. */
  ghost function Transact(file: StoreState, step: Step): Outcome
    requires KeyedById(file.tasks)
  {
    SweepKeepsKeys(file, step.now);
    var o := Perform(Sweep(file, step.now), step);
    if o.error.Some? && ExpiredIds(file.tasks, step.now) == {} then Outcome(file, o.error)
    else Outcome(Stamped(o.store, step.now), o.error)
  }

  /** The file after a transaction that does several things in turn, and the error that ended it. */
  ghost function TransactAll<T>(file: StoreState, items: seq<T>, op: (StoreState, T) -> Outcome, now: nat): Outcome {
    var o := InTurn(Sweep(file, now), items, op);
    if o.error.Some? && ExpiredIds(file.tasks, now) == {} then Outcome(file, o.error)
    else Outcome(Stamped(o.store, now), o.error)
  }

  // ----- the sweep -----

  /** A second sweep at the same time or with an earlier clock finds nothing to do. */
  lemma SweepIdempotent(s: StoreState, now: nat, again: nat)
    requires again <= now
    ensures ExpiredIds(Sweep(s, now).tasks, again) == {}
    ensures Sweep(Sweep(s, now), again) == Sweep(s, now)
  {
    SweepTasks(s, now);
    NothingToSweep(Sweep(s, now), again);
  }

  lemma NothingToSweep(s: StoreState, now: nat)
    requires ExpiredIds(s.tasks, now) == {}
    ensures Sweep(s, now) == s
  {
    ElementsEmpty(ExpiredListing(s.tasks, now));
    SweepPrefixStart(s, [], now);
  }

  lemma SweepAppends(s: StoreState, ids: seq<nat>, n: nat, now: nat)
    requires n <= |ids| && forall i :: 0 <= i < |ids| ==> ids[i] in s.tasks
    ensures var events := SweepPrefix(s, ids, n, now).events;
            && |events| == |s.events| + n && events[..|s.events|] == s.events
            && forall i :: 0 <= i < n ==> events[|s.events| + i] == ExpiryEvent(s, ids, i, now)
  {
  }

  /** The sweep logs one event for each expired lease, naming the owner it was taken from, in ID order. */
  lemma SweepLogsEachOnce(s: StoreState, now: nat)
    ensures var ids, events := ExpiredListing(s.tasks, now), Sweep(s, now).events;
            && IsListing(ids, ExpiredIds(s.tasks, now), IdLess) && (forall i :: 0 <= i < |ids| ==> ids[i] in s.tasks)
            && |events| == |s.events| + |ids| && events[..|s.events|] == s.events
            && forall i :: 0 <= i < |ids| ==> events[|s.events| + i] == ExpiryEvent(s, ids, i, now)
  {
    hide ExpiryEvent, IsListing, ExpiredIds, SweepPrefix;
    ExpiredListed(s.tasks, now);
    var ids := ExpiredListing(s.tasks, now);
    SweepAppends(s, ids, |ids|, now);
  }

  // ----- refused operations -----

  /** The operations that check everything before they write anything. */
  predicate ChecksFirst(a: Action) {
    a.ClaimTask? || a.CompleteTask? || a.ReleaseTask? || a.BlockTask? || a.UnblockTask? || a.LogTask? ||
    a.DecomposeTask? || a.RenewLease? || a.HandoffTask? || a.AcquireTask? || a.AddTask? || a.RemoveTasks?
  }

  lemma RefusalLeavesNoTrace(s: StoreState, step: Step)
    requires KeyedById(s.tasks) && ChecksFirst(step.action) && Perform(s, step).error.Some?
    ensures Perform(s, step).store == s
  {
  }

  /**
   * A transaction around one of these operations commits its whole effect on the swept store, or
   * exactly the sweep, or, when there was nothing to sweep either, nothing at all.
   */
  lemma AllOrExactlyTheSweep(file: StoreState, step: Step)
    requires KeyedById(file.tasks) && ChecksFirst(step.action)
    ensures KeyedById(Sweep(file, step.now).tasks)
    ensures var o := Perform(Sweep(file, step.now), step);
            Transact(file, step).store ==
            if o.error.None? then Stamped(o.store, step.now)
            else if Sweep(file, step.now) != file then Stamped(Sweep(file, step.now), step.now)
            else file
  {
    hide Perform;
    var swept := Sweep(file, step.now);
    SweepKeepsKeys(file, step.now);
    if Perform(swept, step).error.Some? {
      RefusalLeavesNoTrace(swept, step);
      if ExpiredIds(file.tasks, step.now) == {} {
        NothingToSweep(file, step.now);
      } else {
        var k :| k in ExpiredIds(file.tasks, step.now);
        SweepTasks(file, step.now);
        assert swept.tasks[k] != file.tasks[k];
      }
    }
  }
}
