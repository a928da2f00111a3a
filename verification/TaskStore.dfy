/**
 * `TaskStore` as the program holds it: one object whose fields the operations overwrite.
 * `State()` is the value it stands for; every method is tied to a change of that value.
 */
module TaskStores {
  import opened Orders
  import opened StoreModel

  class TaskStore {
    var tasks: map<nat, Task>
    var nextId: nat
    var lastModified: nat
    var nextEventId: nat
    var events: seq<Event>
    var acquisitions: map<string, AcquisitionReceipt>

    function State(): StoreState reads this {
      StoreState(tasks, nextId, lastModified, nextEventId, events, acquisitions)
    }

    constructor ()
      ensures State() == EMPTY_STORE
    {
      tasks, nextId, lastModified, nextEventId := map[], 1, 0, 1;
      events, acquisitions := [], map[];
    }

    method AddTask(title: string, depends: seq<string>, now: nat) returns (id: nat)
      modifies this
      ensures id == old(nextId) && State() == WithNewTask(old(State()), title, depends, now)
    {
      id := nextId;
      tasks := tasks[id := NewTask(id, title, depends, now)];
      nextId := nextId + 1;
      lastModified := now;
    }

    method AddEvent(kind: EventType, taskId: nat, actor: string, data: map<string, string>, now: nat)
      modifies this
      ensures State() == WithEvent(old(State()), kind, taskId, actor, data, now)
    {
      events := events + [Event(nextEventId, now, kind, taskId, actor, data)];
      nextEventId := nextEventId + 1;
      lastModified := now;
    }

    /** The suffix of the log after `id`; the linear scan stops at the first later event. */
    method EventsSince(id: nat) returns (result: seq<Event>)
      ensures id == 0 ==> result == events
      ensures id != 0 ==> result == SuffixAfter(events, id)
    {
      if id == 0 {
        return events;
      }
      for i := 0 to |events|
        invariant SuffixAfter(events, id) == SuffixAfter(events[i..], id)
      {
        if events[i].id > id {
          return events[i..];
        }
        assert events[i..][1..] == events[i + 1..];
      }
      return [];
    }

    method AddLog(id: nat, agent: string, message: string, now: nat) returns (ok: bool)
      modifies this
      ensures (ok <==> id in old(tasks)) && State() == WithLog(old(State()), id, agent, message, now)
    {
      if id !in tasks {
        return false;
      }
      var task := tasks[id];
      tasks := tasks[id := task.(log := task.log + [LogEntry(now, agent, message)])];
      lastModified := now;
      return true;
    }

    method RemoveTask(id: nat, now: nat) returns (ok: bool)
      modifies this
      ensures (ok <==> id in old(tasks)) && State() == WithoutTask(old(State()), id, now)
    {
      if id !in tasks {
        return false;
      }
      tasks := tasks - {id};
      var before := acquisitions;
      var remaining := before.Keys;
      while remaining != {}
        invariant remaining <= before.Keys && tasks == old(tasks) - {id}
        invariant nextId == old(nextId) && nextEventId == old(nextEventId) && events == old(events)
        invariant acquisitions == map q | q in before && (q in remaining || before[q].task.id != id) :: before[q]
      {
        var requestId :| requestId in remaining;
        remaining := remaining - {requestId};
        if before[requestId].task.id == id {
          acquisitions := acquisitions - {requestId};
        }
      }
      lastModified := now;
      return true;
    }

    method HasExpiredLeases(now: nat) returns (found: bool)
      ensures found <==> ExpiredIds(tasks, now) != {}
    {
      var remaining := tasks.Keys;
      while remaining != {}
        invariant remaining <= tasks.Keys
        invariant forall k :: k in tasks && k !in remaining ==> !HoldsExpiredLease(tasks[k], now)
      {
        var id :| id in remaining;
        remaining := remaining - {id};
        if HoldsExpiredLease(tasks[id], now) {
          assert id in ExpiredIds(tasks, now);
          return true;
        }
      }
      return false;
    }

    /** The IDs of the tasks whose lease has expired, sorted. */
    method CollectExpired(now: nat) returns (expired: seq<nat>)
      requires KeyedById(tasks)
      ensures expired == ExpiredListing(tasks, now) && |expired| == |ExpiredIds(tasks, now)|
    {
      expired := [];
      var remaining := tasks.Keys;
      while remaining != {}
        invariant remaining <= tasks.Keys
        invariant Distinct(expired)
        invariant forall k :: k in expired <==> k in tasks && k !in remaining && HoldsExpiredLease(tasks[k], now)
      {
        var key :| key in remaining;
        remaining := remaining - {key};
        if HoldsExpiredLease(tasks[key], now) {
          expired := expired + [tasks[key].id];
        }
      }
      assert Elements(expired) == ExpiredIds(tasks, now);
      IdLessTotal(Elements(expired));
      SortIsListing(expired, IdLess);
      expired := SortBy(expired, IdLess);
      ListingUnique(expired, ExpiredListing(tasks, now), ExpiredIds(tasks, now), IdLess);
      ListingLength(expired, ExpiredIds(tasks, now), IdLess);
    }

    /** One round of the sweep: the task goes back to pending and its former owner is logged. */
    method ReclaimLease(id: nat, now: nat)
      requires id in tasks
      modifies this
      ensures var t := old(tasks)[id];
              State() == WithEvent(WithTask(old(State()), id, Reclaimed(t)), LeaseExpired, t.id, t.owner,
                                   map["owner" := t.owner], now)
    {
      var task := tasks[id];
      var owner := task.owner;
      tasks := tasks[id := task.(status := PENDING, owner := "", leaseExpires := 0)];
      AddEvent(LeaseExpired, task.id, owner, map["owner" := owner], now);
    }

    /** Reclaims every expired lease, logging them in ID order. */
    method CleanExpiredLeases(now: nat) returns (cleaned: nat)
      requires KeyedById(tasks)
      modifies this
      ensures State() == Sweep(old(State()), now)
      ensures cleaned == |ExpiredIds(old(tasks), now)|
    {
      var expired := CollectExpired(now);
      ghost var before := State();
      ExpiredListed(tasks, now);
      SweepPrefixStart(before, expired, now);
      cleaned := 0;
      for i := 0 to |expired|
        invariant cleaned == i
        invariant State() == SweepPrefix(before, expired, i, now)
      {
        SweepPrefixStep(before, expired, i, now);
        ReclaimLease(expired[i], now);
        cleaned := cleaned + 1;
      }
      if cleaned > 0 {
        lastModified := now;
      }
    }
  }
}
