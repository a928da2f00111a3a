/** Pruning, removal and compaction as loops over the store's maps, tied to their transitions. */
module RemovalOps {
  import opened Wrappers
  import opened Decimal
  import opened TaskReference
  import opened Orders
  import opened StoreModel
  import opened Transitions
  import opened TaskStores

  /** The edges a surviving task keeps when `completed` goes. */
  method KeepDeps(depends: seq<string>, completed: set<nat>, ghost tasks: map<nat, Task>) returns (kept: seq<string>)
    requires completed == CompletedIds(tasks)
    ensures kept == KeptDeps(depends, tasks)
  {
    kept := [];
    for i := 0 to |depends|
      invariant kept == KeptDeps(depends[..i], tasks)
    {
      var prefix := depends[..i + 1];
      assert prefix[..|prefix| - 1] == depends[..i] && prefix[|prefix| - 1] == depends[i];
      var parsed := CanonicalDependency(depends[i]);
      var canonical := if parsed.Some? then parsed.value else depends[i];
      var dependencyId := ParseLocalID(canonical);
      if !(dependencyId.Some? && dependencyId.value in completed) {
        kept := kept + [canonical];
      }
    }
    assert depends[..|depends|] == depends;
  }

  method CollectCompleted(tasks: map<nat, Task>) returns (completed: set<nat>)
    requires KeyedById(tasks)
    ensures completed == CompletedIds(tasks)
  {
    completed := {};
    var remaining := tasks.Keys;
    while remaining != {}
      invariant remaining <= tasks.Keys
      invariant completed == CompletedIds(tasks) - remaining
    {
      var key :| key in remaining;
      remaining := remaining - {key};
      if tasks[key].status == COMPLETED {
        completed := completed + {tasks[key].id};
      }
    }
  }

  /** The removed tasks come back in ascending ID order. */
  method PruneCompletedTasks(s: TaskStore, now: nat) returns (removed: seq<nat>)
    requires KeyedById(s.tasks)
    modifies s
    ensures s.State() == Prune(old(s.State()), now)
    ensures IsListing(removed, CompletedIds(old(s.tasks)), IdLess)
    ensures forall i, j :: 0 <= i < j < |removed| ==> removed[i] < removed[j]
  {
    ghost var before := s.State();
    var completed := CollectCompleted(s.tasks);
    var remaining := s.tasks.Keys;
    while remaining != {}
      invariant remaining <= before.tasks.Keys
      invariant s.State() == before.(tasks := s.tasks) && s.tasks.Keys == before.tasks.Keys
      invariant forall k :: k in before.tasks && (k in remaining || k in completed) ==> s.tasks[k] == before.tasks[k]
      invariant forall k :: k in before.tasks && k !in remaining && k !in completed ==>
                              s.tasks[k] == before.tasks[k].(depends := KeptDeps(before.tasks[k].depends, before.tasks))
    {
      var key :| key in remaining;
      remaining := remaining - {key};
      var task := s.tasks[key];
      if task.id !in completed {
        var kept := KeepDeps(task.depends, completed, before.tasks);
        s.tasks := s.tasks[key := task.(depends := kept)];
      }
    }
    removed := RemoveAll(s, completed, now);
    PruneInSteps(before, s.State(), now);
  }

  lemma PruneInSteps(s: StoreState, s': StoreState, now: nat)
    requires forall k :: k in s'.tasks <==> k in s.tasks && k !in CompletedIds(s.tasks)
    requires forall k :: k in s'.tasks ==> s'.tasks[k] == s.tasks[k].(depends := KeptDeps(s.tasks[k].depends, s.tasks))
    requires s'.acquisitions == map q | q in s.acquisitions &&
             s.acquisitions[q].task.id !in CompletedIds(s.tasks) :: s.acquisitions[q]
    requires s'.lastModified == if CompletedIds(s.tasks) == {} then s.lastModified else now
    requires s'.nextId == s.nextId && s'.nextEventId == s.nextEventId && s'.events == s.events
    ensures s' == Prune(s, now)
  {
    assert s'.tasks == Prune(s, now).tasks;
  }

  /** Removes every listed task, in whatever order, with the receipts that name it. */
  method RemoveAll(s: TaskStore, gone: set<nat>, now: nat) returns (removed: seq<nat>)
    requires gone <= s.tasks.Keys
    modifies s
    ensures s.tasks == old(s.tasks) - gone && s.nextId == old(s.nextId)
    ensures s.nextEventId == old(s.nextEventId) && s.events == old(s.events)
    ensures s.acquisitions ==
            map q | q in old(s.acquisitions) && old(s.acquisitions)[q].task.id !in gone :: old(s.acquisitions)[q]
    ensures s.lastModified == if gone == {} then old(s.lastModified) else now
    ensures IsListing(removed, gone, IdLess)
  {
    var listed: seq<nat> := [];
    var remaining := gone;
    ghost var receipts := s.acquisitions;
    while remaining != {}
      invariant remaining <= gone && Distinct(listed)
      invariant forall k :: k in listed <==> k in gone && k !in remaining
      invariant s.tasks == old(s.tasks) - (gone - remaining) && s.nextId == old(s.nextId)
      invariant s.nextEventId == old(s.nextEventId) && s.events == old(s.events)
      invariant s.acquisitions == map q | q in receipts && receipts[q].task.id !in gone - remaining :: receipts[q]
      invariant s.lastModified == if remaining == gone then old(s.lastModified) else now
    {
      var id :| id in remaining;
      remaining := remaining - {id};
      listed := listed + [id];
      var _ := s.RemoveTask(id, now);
    }
    assert Elements(listed) == gone;
    IdLessTotal(gone);
    SortIsListing(listed, IdLess);
    removed := SortBy(listed, IdLess);
  }

  /** The first pass over the IDs of a removal: each must exist and hold no active lease. */
  method CheckRemovable(tasks: map<nat, Task>, ids: seq<nat>) returns (error: Option<Error>, removing: set<nat>)
    ensures error == RemoveGuard(tasks, ids)
    ensures error.None? ==> removing == Elements(ids)
  {
    removing := {};
    for i := 0 to |ids|
      invariant RemoveGuard(tasks, ids) == RemoveGuard(tasks, ids[i..])
      invariant removing == Elements(ids[..i])
    {
      var rest := ids[i..];
      assert rest[0] == ids[i] && rest[1..] == ids[i + 1..];
      if ids[i] !in tasks {
        return Some(TaskNotFound), removing;
      }
      var task := tasks[ids[i]];
      if task.status == IN_PROGRESS && task.owner != "" {
        return Some(NotOwner), removing;
      }
      assert ids[..i + 1] == ids[..i] + [ids[i]];
      removing := removing + {ids[i]};
    }
    assert ids[..|ids|] == ids;
    return None, removing;
  }

  /** Whether a task that stays depends on one that goes. */
  method FindSurvivingDependent(tasks: map<nat, Task>, ids: seq<nat>, removing: set<nat>) returns (found: bool)
    requires removing == Elements(ids)
    ensures found <==> HasSurvivingDependent(tasks, ids)
  {
    var remaining := tasks.Keys;
    while remaining != {}
      invariant remaining <= tasks.Keys
      invariant forall k :: k in tasks && k !in remaining && tasks[k].id !in ids ==>
                              forall d :: d in tasks[k].depends && ParseLocalID(d).Some? ==>
                                            ParseLocalID(d).value !in ids
    {
      var key :| key in remaining;
      remaining := remaining - {key};
      var task := tasks[key];
      if task.id !in removing {
        for i := 0 to |task.depends|
          invariant forall j :: 0 <= j < i && ParseLocalID(task.depends[j]).Some? ==>
                    ParseLocalID(task.depends[j]).value !in ids
        {
          var dependencyId := ParseLocalID(task.depends[i]);
          if dependencyId.Some? && dependencyId.value in removing {
            assert task.depends[i] in tasks[key].depends;
            return true;
          }
        }
      }
    }
    return false;
  }

  /** The transaction of `todo rm`. */
  method RemoveTasks(s: TaskStore, ids: seq<nat>, now: nat) returns (error: Option<Error>)
    modifies s
    ensures Outcome(s.State(), error) == Remove(old(s.State()), ids, now)
  {
    var removing: set<nat>;
    error, removing := CheckRemovable(s.tasks, ids);
    if error.Some? { return; }
    var dependent := FindSurvivingDependent(s.tasks, ids, removing);
    if dependent {
      return Some(DependencyUnmet);
    }
    ghost var before := s.State();
    for i := 0 to |ids|
      invariant s.State() == RemoveEach(before, ids[..i], now)
    {
      var prefix := ids[..i + 1];
      assert prefix[..|prefix| - 1] == ids[..i] && prefix[|prefix| - 1] == ids[i];
      s.AddEvent(TaskRemoved, ids[i], "", map[], now);
      var _ := s.RemoveTask(ids[i], now);
    }
    assert ids[..|ids|] == ids;
  }

  datatype CompactResult = CompactResult(eventsRemoved: nat, receiptsRemoved: nat)

  lemma InReceiptsToDrop(s: StoreState, options: CompactOptions, now: nat, rest: SubMilli, q: string)
    requires options.receiptsBefore > 0 && q in s.acquisitions
    ensures q in ReceiptsToDrop(s, options, now, rest) <==>
            s.acquisitions[q].created < CompactCutoff(now, rest, options.receiptsBefore) &&
            !(s.acquisitions[q].task.id in s.tasks && s.tasks[s.acquisitions[q].task.id].status != COMPLETED)
  {
  }

  /**
   * A receipt of finished work is dropped exactly when it is a full millisecond older than the
   * window, or the window is longer than the clock has run. In that case the cutoff wraps around,
   * and the receipts inside the window go too.
   */
  lemma FinishedReceiptDroppedIff(s: StoreState, options: CompactOptions, now: nat, rest: SubMilli, q: string)
    requires q in s.acquisitions && 0 < options.receiptsBefore < UINT64_LIMIT && now < UINT64_LIMIT
    requires var r := s.acquisitions[q];
             && r.created <= now
             && (r.task.id in s.tasks ==> s.tasks[r.task.id].status == COMPLETED)
    ensures var clock, created := now * 1_000_000 + rest, s.acquisitions[q].created * 1_000_000;
            q !in Compact(s, options, now, rest).acquisitions <==>
            options.receiptsBefore > clock || created + options.receiptsBefore + 1_000_000 <= clock
  {
    InReceiptsToDrop(s, options, now, rest, q);
    var cutoff := (now * NANOS + rest - options.receiptsBefore) / NANOS;
    assert cutoff < 0 ==> cutoff % UINT64_LIMIT == cutoff + UINT64_LIMIT;
  }

  /** The receipt of a task that is there and unfinished is never dropped, nor any receipt without a window. */
  lemma LiveReceiptKept(s: StoreState, options: CompactOptions, now: nat, rest: SubMilli, q: string)
    requires q in s.acquisitions
    requires var id := s.acquisitions[q].task.id;
             options.receiptsBefore == 0 || (id in s.tasks && s.tasks[id].status != COMPLETED)
    ensures var s' := Compact(s, options, now, rest);
            q in s'.acquisitions && s'.acquisitions[q] == s.acquisitions[q]
  {
    hide CompactCutoff;
  }

  /**
   * Compaction keeps the newest events, as many as asked for if there are that many, and all of
   * them when no number is given; the counts it reports are what the store loses, and it touches
   * nothing else.
   */
  lemma CompactKeepsNewest(s: StoreState, options: CompactOptions, now: nat, rest: SubMilli)
    ensures var s', n := Compact(s, options, now, rest), |s.events|;
            && |s'.events| == (if options.keepEvents.Some? && options.keepEvents.value < n then options.keepEvents.value
                               else n)
            && s'.events == s.events[n - |s'.events|..]
            && EventsToDrop(s, options) == n - |s'.events|
            && s'.acquisitions.Keys <= s.acquisitions.Keys
            && |ReceiptsToDrop(s, options, now, rest)| == |s.acquisitions| - |s'.acquisitions|
            && s' == s.(events := s'.events, acquisitions := s'.acquisitions)
  {
    hide CompactCutoff, ReceiptExpendable;
    var gone, s' := ReceiptsToDrop(s, options, now, rest), Compact(s, options, now, rest);
    assert s'.acquisitions.Keys == s.acquisitions.Keys - gone && gone <= s.acquisitions.Keys;
    assert |s'.acquisitions| == |s'.acquisitions.Keys| && |s.acquisitions| == |s.acquisitions.Keys|;
  }

  lemma DroppingIgnoresEvents(s: StoreState, s': StoreState, options: CompactOptions, now: nat, rest: SubMilli)
    requires s' == s.(events := s'.events)
    ensures ReceiptsToDrop(s', options, now, rest) == ReceiptsToDrop(s, options, now, rest)
  {
    assert forall q, cutoff :: q in s.acquisitions ==>
           (ReceiptExpendable(s', q, cutoff) <==> ReceiptExpendable(s, q, cutoff));
  }

  /** Counts, and when applying drops, the receipts of finished work issued before the cutoff. */
  method DropReceipts(s: TaskStore, options: CompactOptions, apply: bool, now: nat, rest: SubMilli)
    returns (receiptsRemoved: nat)
    requires options.receiptsBefore > 0
    modifies s`acquisitions
    ensures receiptsRemoved == |ReceiptsToDrop(old(s.State()), options, now, rest)|
    ensures s.acquisitions == (if apply then old(s.acquisitions) - ReceiptsToDrop(old(s.State()), options, now, rest)
                               else old(s.acquisitions))
  {
    ghost var before := s.State();
    ghost var expendable := ReceiptsToDrop(before, options, now, rest);
    var cutoff := CompactCutoff(now, rest, options.receiptsBefore);
    var receipts := s.acquisitions;
    var remaining := receipts.Keys;
    ghost var dropped: set<string> := {};
    receiptsRemoved := 0;
    while remaining != {}
      invariant remaining <= receipts.Keys && forall q :: q in dropped <==> q in expendable && q !in remaining
      invariant receiptsRemoved == |dropped|
      invariant s.acquisitions == if apply then receipts - dropped else receipts
    {
      var requestId :| requestId in remaining;
      remaining := remaining - {requestId};
      var receipt := receipts[requestId];
      InReceiptsToDrop(before, options, now, rest, requestId);
      if receipt.created < cutoff && !(receipt.task.id in s.tasks && s.tasks[receipt.task.id].status != COMPLETED) {
        receiptsRemoved := receiptsRemoved + 1;
        dropped := dropped + {requestId};
        if apply {
          s.acquisitions := s.acquisitions - {requestId};
        }
      }
    }
    assert dropped == expendable;
  }

  /** Drops the oldest events beyond the limit and the old receipts of finished work; a dry run only counts. */
  method CompactTaskStore(s: TaskStore, options: CompactOptions, apply: bool, now: nat, rest: SubMilli)
    returns (result: CompactResult)
    modifies s
    ensures s.State() == if apply then Compact(old(s.State()), options, now, rest) else old(s.State())
    ensures var before := old(s.State()); var after := Compact(before, options, now, rest);
            result == CompactResult(|before.events| - |after.events|, |before.acquisitions| - |after.acquisitions|)
  {
    ghost var before := s.State();
    CompactKeepsNewest(before, options, now, rest);
    var eventsRemoved, receiptsRemoved := 0, 0;
    if options.keepEvents.Some? && |s.events| > options.keepEvents.value {
      eventsRemoved := |s.events| - options.keepEvents.value;
      if apply {
        s.events := s.events[eventsRemoved..];
      }
    }
    DroppingIgnoresEvents(before, s.State(), options, now, rest);
    if options.receiptsBefore > 0 {
      receiptsRemoved := DropReceipts(s, options, apply, now, rest);
    }
    return CompactResult(eventsRemoved, receiptsRemoved);
  }
}
