/**
 * Values of the task store: what a task, an event, a receipt and a whole store hold at one
 * instant, and the primitive changes `store/store.go` makes to them.
 */
module StoreModel {
  import opened Wrappers
  import opened Orders

  /** `TaskStatus` is a byte: a stored value need not be one of the four named ones. */
  newtype Status = x: int | 0 <= x < 256

  const PENDING: Status := 0
  const IN_PROGRESS: Status := 1
  const COMPLETED: Status := 2
  const BLOCKED: Status := 3

  datatype EventType =
    | TaskCreated | TaskCompleted | TaskClaimed | TaskReleased | TaskBlocked | TaskUnblocked
    | TaskUpdated | TaskDecomposed | TaskRemoved | DependencyAdded | DependencyRemoved
    | LeaseExpired | LeaseRenewed

  datatype Event = Event(id: nat, timestamp: nat, kind: EventType, taskId: nat, actor: string,
                         data: map<string, string>)

  datatype LogEntry = LogEntry(timestamp: nat, agent: string, message: string)

  datatype Task = Task(
    id: nat, title: string, status: Status, depends: seq<string>, created: nat, completed: nat,
    capabilities: seq<string>, owner: string, leaseExpires: nat, priority: real, lineage: string,
    tags: seq<string>, retryCount: nat, lastError: string, blockReason: string,
    log: seq<LogEntry>, extra: map<string, string>)

  datatype AcquisitionReceipt = AcquisitionReceipt(
    requestId: string, operation: string, fingerprint: string, actor: string, created: nat,
    task: Task)

  datatype StoreState = StoreState(
    tasks: map<nat, Task>, nextId: nat, lastModified: nat, nextEventId: nat,
    events: seq<Event>, acquisitions: map<string, AcquisitionReceipt>)

  /** A span of time together with the text the program renders it as. */
  datatype Duration = Duration(millis: nat, text: string)

  /** Whether a remote reference is complete; a missing resolver is the one that says no. */
  type Resolver = string -> bool

  /** How an instant is rendered as text. */
  type Rendering = nat -> string

  /** The errors a transition can return, one per sentinel (plus the two input-error wrappers). */
  datatype Error =
    | TaskNotFound | AlreadyClaimed | NotOwner | DependencyUnmet | CycleDetected | InvalidTransition
    | LeaseTaskNotFound | LeaseNotActive | LeaseNotOwner
    | NoReadyTasks | AgentAtCapacity | RequestConflict
    | PersistedInput | InvalidArgs

  /** The store a transition leaves behind and the error it returned, if any. */
  datatype Outcome = Outcome(store: StoreState, error: Option<Error>)

  const EMPTY_STORE := StoreState(map[], 1, 0, 1, [], map[])

  // ----- primitive changes -----

  function WithEvent(s: StoreState, kind: EventType, taskId: nat, actor: string,
                     data: map<string, string>, now: nat): StoreState
  {
    s.(events := s.events + [Event(s.nextEventId, now, kind, taskId, actor, data)],
       nextEventId := s.nextEventId + 1, lastModified := now)
  }

  function WithLog(s: StoreState, id: nat, agent: string, message: string, now: nat): StoreState {
    if id !in s.tasks then s
    else
      var t := s.tasks[id];
      s.(tasks := s.tasks[id := t.(log := t.log + [LogEntry(now, agent, message)])], lastModified := now)
  }

  function Stamped(s: StoreState, now: nat): StoreState {
    s.(lastModified := now)
  }

  function WithTask(s: StoreState, id: nat, t: Task): StoreState {
    s.(tasks := s.tasks[id := t])
  }

  function NewTask(id: nat, title: string, depends: seq<string>, now: nat): Task {
    Task(id, title, PENDING, depends, now, 0, [], "", 0, 0.0, "", [], 0, "", "", [], map[])
  }

  function WithNewTask(s: StoreState, title: string, depends: seq<string>, now: nat): StoreState {
    s.(tasks := s.tasks[s.nextId := NewTask(s.nextId, title, depends, now)],
       nextId := s.nextId + 1, lastModified := now)
  }

  function WithoutTask(s: StoreState, id: nat, now: nat): StoreState {
    if id !in s.tasks then s
    else
      s.(tasks := s.tasks - {id},
         acquisitions := map q | q in s.acquisitions && s.acquisitions[q].task.id != id :: s.acquisitions[q],
         lastModified := now)
  }

  function SuffixAfter(events: seq<Event>, id: nat): seq<Event> {
    if events == [] then [] else if events[0].id > id then events else SuffixAfter(events[1..], id)
  }

  ghost predicate KeyedById(tasks: map<nat, Task>) {
    forall k :: k in tasks ==> tasks[k].id == k
  }

  // ----- expired leases -----

  predicate LeaseIsExpired(expiry: nat, now: nat) {
    expiry != 0 && expiry <= now
  }

  predicate HoldsExpiredLease(t: Task, now: nat) {
    t.status == IN_PROGRESS && LeaseIsExpired(t.leaseExpires, now)
  }

  function Reclaimed(t: Task): Task {
    t.(status := PENDING, owner := "", leaseExpires := 0)
  }

  function ExpiredIds(tasks: map<nat, Task>, now: nat): set<nat> {
    set k | k in tasks && HoldsExpiredLease(tasks[k], now)
  }

  function ExpiryEvent(s: StoreState, ids: seq<nat>, i: nat, now: nat): Event
    requires i < |ids| && ids[i] in s.tasks
  {
    var owner := s.tasks[ids[i]].owner;
    Event(s.nextEventId + i, now, LeaseExpired, ids[i], owner, map["owner" := owner])
  }

  /** The store after the first `n` of the expired leases `ids` were reclaimed. */
  ghost function SweepPrefix(s: StoreState, ids: seq<nat>, n: nat, now: nat): StoreState
    requires n <= |ids| && forall i :: 0 <= i < |ids| ==> ids[i] in s.tasks
  {
    s.(tasks := map k | k in s.tasks :: if k in ids[..n] then Reclaimed(s.tasks[k]) else s.tasks[k],
       events := s.events + seq(n, i requires 0 <= i < n => ExpiryEvent(s, ids, i, now)),
       nextEventId := s.nextEventId + n,
       lastModified := if n > 0 then now else s.lastModified)
  }

  ghost function ExpiredListing(tasks: map<nat, Task>, now: nat): (ids: seq<nat>)
    ensures IsListing(ids, ExpiredIds(tasks, now), IdLess)
  {
    IdLessTotal(ExpiredIds(tasks, now));
    Listing(ExpiredIds(tasks, now), IdLess)
  }

  lemma ExpiredListed(tasks: map<nat, Task>, now: nat)
    ensures var ids := ExpiredListing(tasks, now);
            Distinct(ids) && forall i :: 0 <= i < |ids| ==> ids[i] in tasks && HoldsExpiredLease(tasks[ids[i]], now)
  {
    var ids := ExpiredListing(tasks, now);
    IdLessTotal(ExpiredIds(tasks, now));
    ListingLength(ids, ExpiredIds(tasks, now), IdLess);
    assert forall i :: 0 <= i < |ids| ==> ids[i] in Elements(ids);
  }

  /** Every expired lease reclaimed, one event each, in ID order. */
  ghost function Sweep(s: StoreState, now: nat): StoreState {
    var ids := ExpiredListing(s.tasks, now);
    ExpiredListed(s.tasks, now);
    SweepPrefix(s, ids, |ids|, now)
  }

  lemma SweepPrefixStart(s: StoreState, ids: seq<nat>, now: nat)
    requires forall i :: 0 <= i < |ids| ==> ids[i] in s.tasks
    ensures SweepPrefix(s, ids, 0, now) == s
  {
    assert SweepPrefix(s, ids, 0, now).tasks == s.tasks;
  }

  lemma SweepPrefixStep(s: StoreState, ids: seq<nat>, n: nat, now: nat)
    requires n < |ids| && Distinct(ids) && KeyedById(s.tasks)
    requires forall i :: 0 <= i < |ids| ==> ids[i] in s.tasks
    ensures var before, after := SweepPrefix(s, ids, n, now), SweepPrefix(s, ids, n + 1, now);
            var t := before.tasks[ids[n]];
            && t == s.tasks[ids[n]]
            && after == WithEvent(WithTask(before, ids[n], Reclaimed(t)), LeaseExpired, t.id, t.owner,
                                  map["owner" := t.owner], now)
  {
    var before, after := SweepPrefix(s, ids, n, now), SweepPrefix(s, ids, n + 1, now);
    assert ids[..n + 1] == ids[..n] + [ids[n]];
    assert ids[n] !in ids[..n];
    assert after.tasks == before.tasks[ids[n] := Reclaimed(s.tasks[ids[n]])];
    assert after.events == before.events + [ExpiryEvent(s, ids, n, now)];
  }
}
