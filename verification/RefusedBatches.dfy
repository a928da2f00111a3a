/** What a transaction commits when one of the operations it does in turn is refused. */
module RefusedBatches {
  import opened Wrappers
  import opened Orders
  import opened StoreModel
  import opened Transitions
  import opened StepEffects
  import opened Batches
  import opened Unblocking
  import opened Transactions

  lemma SweepCountsEvents(s: StoreState, now: nat)
    ensures Sweep(s, now).nextEventId >= s.nextEventId
    ensures ExpiredIds(s.tasks, now) != {} ==> Sweep(s, now).nextEventId > s.nextEventId
  {
    SweepLogsEachOnce(s, now);
    SweepLog(s, now);
    if k :| k in ExpiredIds(s.tasks, now) {
      var ids := ExpiredListing(s.tasks, now);
      assert k in Elements(ids);
    }
  }

  /**
   * A refused batch leaves the file alone when there was nothing to sweep. After a sweep it commits
   * exactly the operations before the refused one, item `n`, which fails on the store they leave.
   * So it commits no more than the sweep precisely when nothing had expired or the refused
   * operation is the first.
   */
  lemma {:induction false} RefusedBatchCommits<T(!new)>(file: StoreState, items: seq<T>, op: (StoreState, T) -> Outcome,
                                                        now: nat)
    returns (n: nat)
    requires LogsOrLeaves(op) && TransactAll(file, items, op, now).error.Some?
    ensures n < |items|
    ensures var o, swept := TransactAll(file, items, op, now), Sweep(file, now);
            var before := InTurn(swept, items[..n], op);
            && before.error.None? && op(before.store, items[n]).error == o.error
            && o.store == (if ExpiredIds(file.tasks, now) == {} then file else Stamped(before.store, now))
            && (o.store == file || o.store == Stamped(swept, now) <==>
                ExpiredIds(file.tasks, now) == {} || op(swept, items[0]).error.Some?)
  {
    hide Sweep, ExpiredIds;
    var swept := Sweep(file, now);
    n := RefusedBatchStops(swept, items, op);
    SweepCountsEvents(file, now);
    var before := InTurn(swept, items[..n], op);
    assert op(before.store, items[n]).store == before.store;
    BatchLogs(swept, items[..n], op);
    assert n == 0 ==> before == Outcome(swept, None);
  }

  lemma InTurnTwo<T>(s: StoreState, x: T, y: T, op: (StoreState, T) -> Outcome)
    ensures InTurn(s, [x, y], op) == if op(s, x).error.Some? then op(s, x) else op(op(s, x).store, y)
  {
    InTurnNext(s, [x, y], 0, op);
    InTurnNext(s, [x, y], 1, op);
    assert [x, y][..0] == [] && [x, y][..1] == [x] && [x, y][..2] == [x, y];
  }

  lemma ReleaseOfOwn(s: StoreState, id: nat, actor: string, failure: string, now: nat)
    requires id in s.tasks && s.tasks[id].status == IN_PROGRESS && s.tasks[id].owner == actor
    ensures var o := Release(s, id, actor, failure, now);
            && o.error.None? && id in o.store.tasks && o.store.tasks[id].status == PENDING
            && o.store.tasks[id].owner == "" && o.store.tasks - {id} == s.tasks - {id}
  {
  }

  /**
   * And it does happen: releasing a live lease of one's own together with one that has expired.
   * The expired one is swept, which is why it cannot be released and why the first release, made
   * before the refusal, is written.
   */
  lemma RefusedReleaseIsCommitted(file: StoreState, live: nat, expired: nat, actor: string, failure: string, now: nat)
    requires live in file.tasks && expired in file.tasks && live != expired
    requires file.tasks[live].status == IN_PROGRESS && file.tasks[live].owner == actor
    requires !HoldsExpiredLease(file.tasks[live], now) && HoldsExpiredLease(file.tasks[expired], now)
    ensures var o := TransactAll(file, [live, expired], Releasing(actor, failure, now), now);
            && o.error == Some(LeaseNotActive)
            && live in o.store.tasks && o.store.tasks[live].status == PENDING && o.store.tasks[live].owner == ""
            && o.store != file && o.store != Stamped(Sweep(file, now), now)
  {
    hide Sweep, InTurn;
    var swept, op := Sweep(file, now), Releasing(actor, failure, now);
    SweepTasks(file, now);
    assert expired in ExpiredIds(file.tasks, now);
    InTurnTwo(swept, live, expired, op);
    ReleaseOfOwn(swept, live, actor, failure, now);
    var released := op(swept, live).store;
    assert expired in released.tasks && released.tasks[expired] == swept.tasks[expired] by {
      hide Release;
      assert expired in released.tasks - {live};
    }
  }

  /** What `todo done` commits when it is refused. */
  lemma RefusedDoneCommits(file: StoreState, ids: seq<nat>, actor: string, resolver: Resolver, now: nat)
    returns (n: nat)
    requires TransactAll(file, ids, Completion(actor, resolver, now), now).error.Some?
    ensures n < |ids|
    ensures var o, swept := TransactAll(file, ids, Completion(actor, resolver, now), now), Sweep(file, now);
            var before := CompleteAll(swept, ids[..n], actor, resolver, now);
            && before.error.None? && Complete(before.store, ids[n], actor, resolver, now).error == o.error
            && CompletesExactly(swept.tasks, before.store.tasks, Elements(ids[..n]))
            && o.store == (if ExpiredIds(file.tasks, now) == {} then file else Stamped(before.store, now))
            && (o.store == file || o.store == Stamped(swept, now) <==>
                ExpiredIds(file.tasks, now) == {} || Complete(swept, ids[0], actor, resolver, now).error.Some?)
  {
    hide Sweep, Complete, InTurn, ExpiredIds;
    CompletionLogsOrLeaves(actor, resolver, now);
    n := RefusedBatchCommits(file, ids, Completion(actor, resolver, now), now);
    CompleteAllTasks(Sweep(file, now), ids[..n], actor, resolver, now);
  }

  /** What `todo release` commits when it is refused. */
  lemma RefusedReleaseCommits(file: StoreState, ids: seq<nat>, actor: string, failure: string, now: nat)
    returns (n: nat)
    requires TransactAll(file, ids, Releasing(actor, failure, now), now).error.Some?
    ensures n < |ids|
    ensures var o, swept := TransactAll(file, ids, Releasing(actor, failure, now), now), Sweep(file, now);
            var before := InTurn(swept, ids[..n], Releasing(actor, failure, now));
            && before.error.None? && Release(before.store, ids[n], actor, failure, now).error == o.error
            && o.store == (if ExpiredIds(file.tasks, now) == {} then file else Stamped(before.store, now))
            && (o.store == file || o.store == Stamped(swept, now) <==>
                ExpiredIds(file.tasks, now) == {} || Release(swept, ids[0], actor, failure, now).error.Some?)
  {
    hide Sweep, Release, InTurn, ExpiredIds;
    ReleasingLogsOrLeaves(actor, failure, now);
    n := RefusedBatchCommits(file, ids, Releasing(actor, failure, now), now);
  }
}
