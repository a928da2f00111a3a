/**
 * What each lifecycle operation does to the value of a store. Every function follows one
 * operation of the program branch by branch: the guards in their order, the fields touched, the
 * log entry and the events. The error, when there is one, comes with the store as it was left.
 */
module Transitions {
  import opened Wrappers
  import opened Decimal
  import opened TaskReference
  import opened Digraph
  import opened Orders
  import opened StoreModel
  import opened DependencyGraph
  import opened Readiness

  const MAX_DEPENDENCIES := 128
  const MAX_EXTRA := 128
  const RETRY_LIMIT := 0x1_0000_0000  // retry counts are 32-bit

  // ----- guards -----

  function RequireOwner(t: Task, actor: string): Option<Error> {
    if t.owner != "" && t.owner != actor then Some(NotOwner) else None
  }

  function RequireDependencies(t: Task, tasks: map<nat, Task>, resolver: Resolver): Option<Error> {
    if DependenciesComplete(t, tasks, resolver) then None else Some(DependencyUnmet)
  }

  function RequireInProgress(t: Task): Option<Error> {
    if t.status != IN_PROGRESS then Some(LeaseNotActive) else None
  }

  function RequireClaimable(t: Task): Option<Error> {
    if t.status == COMPLETED then Some(InvalidTransition)
    else if t.status == BLOCKED then Some(DependencyUnmet)
    else None
  }

  function RequireNotCompleted(t: Task): Option<Error> {
    if t.status == COMPLETED then Some(InvalidTransition) else None
  }

  function RequireLeaseAvailable(t: Task, actor: string, now: nat): Option<Error> {
    if t.owner != "" && t.owner != actor && t.leaseExpires > now then Some(AlreadyClaimed) else None
  }

  /** The lease check shared by renewal and handoff: active, then owned by the caller. */
  function RequireLiveLease(t: Task, actor: string, now: nat): Option<Error> {
    if t.status != IN_PROGRESS || t.owner == "" || t.leaseExpires == 0 || t.leaseExpires <= now
    then Some(LeaseNotActive)
    else if t.owner != actor then Some(LeaseNotOwner)
    else None
  }

  /** A collection already over its limit may shrink or stay, but not grow. */
  predicate WithinCardinality(current: nat, projected: nat, limit: nat) {
    projected <= limit || projected <= current
  }

  /** The first guard that fails. */
  function First(a: Option<Error>, b: Option<Error>): Option<Error> {
    if a.Some? then a else b
  }

  function Rejected(s: StoreState, e: Error): Outcome {
    Outcome(s, Some(e))
  }

  // ----- single-task transitions -----

  function Claim(s: StoreState, id: nat, actor: string, ttl: Duration, resolver: Resolver, now: nat): Outcome {
    if id !in s.tasks then Rejected(s, TaskNotFound)
    else
      var t := s.tasks[id];
      var guard := First(RequireClaimable(t),
                         First(RequireDependencies(t, s.tasks, resolver), RequireLeaseAvailable(t, actor, now)));
      if guard.Some? then Rejected(s, guard.value)
      else
        var leased := t.(owner := actor, status := IN_PROGRESS, leaseExpires := now + ttl.millis);
        Outcome(WithEvent(WithLog(WithTask(s, id, leased), id, actor, "claimed", now),
                          TaskClaimed, id, actor, map["ttl" := ttl.text], now), None)
  }

  function Complete(s: StoreState, id: nat, actor: string, resolver: Resolver, now: nat): Outcome {
    if id !in s.tasks then Rejected(s, TaskNotFound)
    else
      var t := s.tasks[id];
      var guard := First(RequireNotCompleted(t),
                         First(RequireDependencies(t, s.tasks, resolver), RequireOwner(t, actor)));
      if guard.Some? then Rejected(s, guard.value)
      else
        var done := t.(status := COMPLETED, completed := now, owner := "", leaseExpires := 0, blockReason := "");
        Outcome(WithEvent(WithTask(s, id, done), TaskCompleted, id, actor, map[], now), None)
  }

  function Release(s: StoreState, id: nat, actor: string, failure: string, now: nat): Outcome {
    if id !in s.tasks then Rejected(s, TaskNotFound)
    else
      var t := s.tasks[id];
      var guard := First(RequireInProgress(t), RequireOwner(t, actor));
      if guard.Some? then Rejected(s, guard.value)
      else
        var message := if failure != "" then "released with error: " + failure else "released";
        var yielded := t.(retryCount := (t.retryCount + 1) % RETRY_LIMIT,
                          lastError := if failure != "" then failure else t.lastError,
                          owner := "", leaseExpires := 0, status := PENDING);
        Outcome(WithEvent(WithLog(WithTask(s, id, yielded), id, actor, message, now),
                          TaskReleased, id, actor, if failure != "" then map["error" := failure] else map[], now), None)
  }

  function Block(s: StoreState, id: nat, actor: string, reason: string, now: nat): Outcome {
    if id !in s.tasks then Rejected(s, TaskNotFound)
    else
      var t := s.tasks[id];
      var guard := First(RequireNotCompleted(t), RequireOwner(t, actor));
      if guard.Some? then Rejected(s, guard.value)
      else
        var blocked := t.(status := BLOCKED, blockReason := reason, owner := "", leaseExpires := 0);
        Outcome(WithEvent(WithLog(WithTask(s, id, blocked), id, actor, "blocked: " + reason, now),
                          TaskBlocked, id, actor, map["reason" := reason], now), None)
  }

  function Unblock(s: StoreState, id: nat, actor: string, now: nat): Outcome {
    if id !in s.tasks then Rejected(s, TaskNotFound)
    else if s.tasks[id].status != BLOCKED then Rejected(s, InvalidTransition)
    else
      var unblocked := s.tasks[id].(status := PENDING, blockReason := "", owner := "", leaseExpires := 0);
      Outcome(WithEvent(WithLog(WithTask(s, id, unblocked), id, actor, "unblocked", now),
                        TaskUnblocked, id, actor, map[], now), None)
  }

  function Note(s: StoreState, id: nat, actor: string, message: string, now: nat): Outcome {
    if id !in s.tasks then Rejected(s, TaskNotFound)
    else
      var guard := RequireOwner(s.tasks[id], actor);
      if guard.Some? then Rejected(s, guard.value) else Outcome(WithLog(s, id, actor, message, now), None)
  }

  function Renew(s: StoreState, id: nat, actor: string, ttl: Duration, render: Rendering, now: nat): Outcome {
    if id !in s.tasks then Rejected(s, LeaseTaskNotFound)
    else
      var t := s.tasks[id];
      var guard := RequireLiveLease(t, actor, now);
      if guard.Some? then Rejected(s, guard.value)
      else
        Outcome(WithEvent(WithTask(s, id, t.(leaseExpires := now + ttl.millis)),
                          LeaseRenewed, id, actor,
                          map["ttl" := ttl.text, "previous_expires" := render(t.leaseExpires)], now), None)
  }

  /** A task given up with its context merged in: two events around one log entry. */
  function HandedOff(s: StoreState, id: nat, actor: string, extra: map<string, string>, now: nat): StoreState
    requires id in s.tasks
  {
    var t := s.tasks[id];
    var yielded := t.(extra := t.extra + extra, owner := "", leaseExpires := 0, status := PENDING);
    var s1 := WithEvent(WithTask(s, id, yielded), TaskUpdated, id, actor, map["source" := "handoff"], now);
    WithEvent(WithLog(s1, id, actor, "handed off with structured context", now),
              TaskReleased, id, actor, map["handoff" := "true"], now)
  }

  function Handoff(s: StoreState, id: nat, actor: string, extra: map<string, string>, now: nat): Outcome {
    if id !in s.tasks then Rejected(s, LeaseTaskNotFound)
    else
      var t := s.tasks[id];
      var guard := RequireLiveLease(t, actor, now);
      if guard.Some? then Rejected(s, guard.value)
      else if !WithinCardinality(|t.extra|, |t.extra + extra|, MAX_EXTRA) then Rejected(s, PersistedInput)
      else
        Outcome(HandedOff(s, id, actor, extra, now), None)
  }

  // ----- creating work -----

  /** The stored form of a dependency named at creation: local ones canonical, remote ones as given. */
  function CreatedDep(dep: string): string {
    var id := ParseLocalID(dep);
    if id.Some? then LocalUri(id.value) else dep
  }

  /** The first dependency that names a missing local task or cannot be read. */
  function AddGuard(tasks: map<nat, Task>, after: seq<string>): Option<Error> {
    if after == [] then None
    else
      var id := ParseLocalID(after[0]);
      if id.Some? && id.value !in tasks then Some(TaskNotFound)
      else if id.None? && ParseTaskURI(after[0]).None? then Some(PersistedInput)
      else AddGuard(tasks, after[1..])
  }

  function CreatedDeps(after: seq<string>): seq<string> {
    seq(|after|, i requires 0 <= i < |after| => CreatedDep(after[i]))
  }

  /** A task filed under the next ID, with the event that announces it. */
  function Created(s: StoreState, title: string, depends: seq<string>, priority: real, capabilities: seq<string>,
                   tags: seq<string>, now: nat): StoreState
  {
    var t := NewTask(s.nextId, title, depends, now).(priority := priority, capabilities := capabilities, tags := tags);
    WithEvent(s.(tasks := s.tasks[s.nextId := t], nextId := s.nextId + 1, lastModified := now),
              TaskCreated, s.nextId, "", map["title" := title], now)
  }

  ghost function Add(s: StoreState, title: string, after: seq<string>, priority: real, capabilities: seq<string>,
                     tags: seq<string>, now: nat): Outcome
  {
    var guard := AddGuard(s.tasks, after);
    if guard.Some? then Rejected(s, guard.value)
    else if Cyclic(DepEdges(s.tasks) + ProposedEdges(CreatedDeps(after), s.nextId)) then Rejected(s, CycleDetected)
    else Outcome(Created(s, title, CreatedDeps(after), priority, capabilities, tags, now), None)
  }

  datatype Subtask = Subtask(title: string, capabilities: seq<string>)

  function CanonicalSet(depends: seq<string>): set<string> {
    set d | d in depends :: CanonicalOrSelf(d)
  }

  function ChildUris(first: nat, n: nat): seq<string> {
    seq(n, i requires 0 <= i < n => LocalUri(first + i))
  }

  function Child(s: StoreState, parent: nat, subtasks: seq<Subtask>, id: nat, now: nat): Task
    requires s.nextId <= id < s.nextId + |subtasks|
  {
    var sub := subtasks[id - s.nextId];
    NewTask(id, sub.title, [], now).(capabilities := sub.capabilities, lineage := LocalUri(parent))
  }

  /** The children filed under fresh IDs and appended, in order, to the parent's dependencies. */
  function WithChildren(s: StoreState, parent: nat, subtasks: seq<Subtask>, now: nat): StoreState
    requires parent in s.tasks
  {
    var n := |subtasks|;
    var p := s.tasks[parent].(depends := s.tasks[parent].depends + ChildUris(s.nextId, n));
    var children := map id | s.nextId <= id < s.nextId + n :: Child(s, parent, subtasks, id, now);
    s.(tasks := (s.tasks + children)[parent := p], nextId := s.nextId + n,
       lastModified := if n > 0 then now else s.lastModified)
  }

  ghost function Decompose(s: StoreState, parent: nat, actor: string, subtasks: seq<Subtask>, now: nat): Outcome {
    if parent !in s.tasks then Rejected(s, TaskNotFound)
    else
      var t := s.tasks[parent];
      var guard := First(RequireNotCompleted(t), RequireOwner(t, actor));
      var current := CanonicalSet(t.depends);
      if guard.Some? then Rejected(s, guard.value)
      else if !WithinCardinality(|current|, |current| + |subtasks|, MAX_DEPENDENCIES) then Rejected(s, PersistedInput)
      else if Cyclic(DepEdges(s.tasks) + ProposedEdges(t.depends + ChildUris(s.nextId, |subtasks|), parent)) then
        Rejected(s, CycleDetected)
      else
        var s1 := WithChildren(s, parent, subtasks, now);
        var p := s1.tasks[parent].(status := PENDING, owner := "", leaseExpires := 0, blockReason := "");
        Outcome(WithEvent(WithTask(s1, parent, p), TaskDecomposed, parent, actor,
                          map["count" := FormatUint(|subtasks|)], now), None)
  }

  // ----- metadata and dependency edits -----

  /** The edges left after the requested removals, or the first removal that fails. */
  function RemoveEdits(deps: set<string>, seen: set<string>, remove: seq<string>): Result<set<string>, Error>
    decreases remove
  {
    if remove == [] then Success(deps)
    else
      var c := CanonicalDependency(remove[0]);
      if c.None? then Failure(PersistedInput)
      else if c.value in seen then RemoveEdits(deps, seen, remove[1..])
      else if c.value !in deps then Failure(TaskNotFound)
      else RemoveEdits(deps - {c.value}, seen + {c.value}, remove[1..])
  }

  /** The edges after the requested additions, or the first addition that fails. */
  function AddEdits(tasks: map<nat, Task>, deps: set<string>, add: seq<string>): Result<set<string>, Error>
    decreases add
  {
    if add == [] then Success(deps)
    else
      var c := CanonicalDependency(add[0]);
      if c.None? then Failure(PersistedInput)
      else if c.value in deps then AddEdits(tasks, deps, add[1..])
      else
        var id := ParseLocalID(c.value);
        if id.Some? && id.value !in tasks then Failure(TaskNotFound)
        else AddEdits(tasks, deps + {c.value}, add[1..])
  }

  function EditedDeps(tasks: map<nat, Task>, depends: seq<string>, add: seq<string>, remove: seq<string>):
    Result<set<string>, Error>
  {
    var removed := RemoveEdits(CanonicalSet(depends), {}, remove);
    if removed.Failure? then removed else AddEdits(tasks, removed.value, add)
  }

  function EdgeEvents(kind: EventType, deps: seq<string>, taskId: nat, actor: string, first: nat, now: nat):
    seq<Event>
  {
    seq(|deps|, i requires 0 <= i < |deps| => Event(first + i, now, kind, taskId, actor, map["dep" := deps[i]]))
  }

  /** `xs` names every member of `s` once; map iteration gives some such order. */
  ghost predicate Enumerates<T>(xs: seq<T>, s: set<T>) {
    Distinct(xs) && Elements(xs) == s
  }

  /** The additions in sorted order: the new edges that were not there before. */
  function NotIn(xs: seq<string>, s: set<string>): seq<string> {
    if xs == [] then []
    else NotIn(xs[..|xs| - 1], s) + (if xs[|xs| - 1] in s then [] else [xs[|xs| - 1]])
  }

  /** The new edges, in the order their events appear. */
  ghost function AdditionOrder(target: set<string>, current: set<string>): seq<string> {
    NotIn(SortedStrings(target), current)
  }

  /**
   * The edges that went, in the order their events appear: the one in which the program's map
   * iteration meets them. An `order` that does not enumerate them stands for the sorted one.
   */
  ghost function RemovalOrder(order: seq<string>, gone: set<string>): seq<string> {
    if Enumerates(order, gone) then order else SortedStrings(gone)
  }

  /** One event for each edge that came, then one for each that went. */
  ghost function EditEvents(s: StoreState, id: nat, actor: string, target: set<string>, removedOrder: seq<string>,
                            now: nat): seq<Event>
    requires id in s.tasks
  {
    var current := CanonicalSet(s.tasks[id].depends);
    var added := AdditionOrder(target, current);
    EdgeEvents(DependencyAdded, added, id, actor, s.nextEventId, now) +
    EdgeEvents(DependencyRemoved, RemovalOrder(removedOrder, current - target), id, actor, s.nextEventId + |added|, now)
  }

  /** The store with the edges of task `id` replaced by `target` and the changes logged. */
  ghost function WithEdges(s: StoreState, id: nat, actor: string, target: set<string>, removedOrder: seq<string>,
                           now: nat): StoreState
    requires id in s.tasks
  {
    var events := EditEvents(s, id, actor, target, removedOrder, now);
    StoreState(s.tasks[id := s.tasks[id].(depends := SortedStrings(target))], s.nextId,
               if events == [] then s.lastModified else now,
               s.nextEventId + |events|, s.events + events, s.acquisitions)
  }

  ghost function EditDependencies(s: StoreState, id: nat, actor: string, add: seq<string>, remove: seq<string>,
                                  removedOrder: seq<string>, now: nat): Outcome
    requires id in s.tasks
  {
    var t := s.tasks[id];
    var edited := EditedDeps(s.tasks, t.depends, add, remove);
    if edited.Failure? then Rejected(s, edited.error)
    else if !WithinCardinality(|t.depends|, |edited.value|, MAX_DEPENDENCIES) then Rejected(s, PersistedInput)
    else if Cyclic(DepEdges(s.tasks[id := t.(depends := SortedStrings(edited.value))])) then Rejected(s, CycleDetected)
    else Outcome(WithEdges(s, id, actor, edited.value, removedOrder, now), None)
  }

  /** A metadata change; an absent field is left alone, a present one is set, even to an empty value. */
  datatype TaskUpdate = TaskUpdate(
    title: Option<string>, priority: Option<real>, capabilities: Option<seq<string>>,
    extra: map<string, string>, addDeps: seq<string>, removeDeps: seq<string>)

  /** White space as Unicode lists it. */
  predicate IsSpace(c: char) {
    c == ' ' || '\t' <= c <= '\r' || 0x2000 <= c as int <= 0x200A
    || c as int in {0x85, 0xA0, 0x1680, 0x2028, 0x2029, 0x202F, 0x205F, 0x3000}
  }

  function TrimSpace(s: string): string
    decreases |s|
  {
    if s == "" then s
    else if IsSpace(s[0]) then TrimSpace(s[1..])
    else if IsSpace(s[|s| - 1]) then TrimSpace(s[..|s| - 1])
    else s
  }

  predicate ValidPriority(p: real) {
    0.0 <= p <= 1.0
  }

  /** A task after field edits, and the refusal that cut them short, if any. */
  datatype Edited = Edited(task: Task, error: Option<Error>)

  /** Nothing that decides a task's lifecycle or its place in the graph differs. */
  predicate SameLifecycle(t: Task, e: Task) {
    && e.id == t.id && e.depends == t.depends && e.status == t.status
    && e.owner == t.owner && e.leaseExpires == t.leaseExpires && e.completed == t.completed
    && (ValidPriority(t.priority) ==> ValidPriority(e.priority))
  }

  function EditTitle(t: Task, title: Option<string>): (e: Edited)
    ensures SameLifecycle(t, e.task)
  {
    if title.None? then Edited(t, None)
    else if TrimSpace(title.value) == "" then Edited(t, Some(InvalidArgs))
    else Edited(t.(title := TrimSpace(title.value)), None)
  }

  function EditPriority(t: Task, priority: Option<real>): (e: Edited)
    ensures SameLifecycle(t, e.task)
  {
    if priority.None? then Edited(t, None)
    else if !ValidPriority(priority.value) then Edited(t, Some(InvalidArgs))
    else Edited(t.(priority := priority.value), None)
  }

  function EditCapabilities(t: Task, capabilities: Option<seq<string>>): (e: Task)
    ensures SameLifecycle(t, e)
  {
    if capabilities.None? then t else t.(capabilities := capabilities.value)
  }

  function EditExtra(t: Task, extra: map<string, string>): (e: Edited)
    ensures SameLifecycle(t, e.task)
  {
    if !WithinCardinality(|t.extra|, |t.extra + extra|, MAX_EXTRA) then Edited(t, Some(PersistedInput))
    else Edited(t.(extra := t.extra + extra), None)
  }

  /** The field edits in their order; the ones before a refusal stay. */
  function EditTask(t: Task, u: TaskUpdate): (e: Edited)
    ensures SameLifecycle(t, e.task)
  {
    var e1 := EditTitle(t, u.title);
    if e1.error.Some? then e1
    else
      var e2 := EditPriority(e1.task, u.priority);
      if e2.error.Some? then e2
      else EditExtra(EditCapabilities(e2.task, u.capabilities), u.extra)
  }

  function EditFields(s: StoreState, id: nat, actor: string, u: TaskUpdate, now: nat): Outcome
    requires id in s.tasks
  {
    var edited := EditTask(s.tasks[id], u);
    var s1 := WithTask(s, id, edited.task);
    if edited.error.Some? then Rejected(s1, edited.error.value)
    else if u.title.Some? || u.priority.Some? || u.capabilities.Some? || u.extra != map[] then
      Outcome(WithEvent(s1, TaskUpdated, id, actor, map[], now), None)
    else Outcome(s1, None)
  }

  ghost function Update(s: StoreState, id: nat, actor: string, u: TaskUpdate, removedOrder: seq<string>,
                        now: nat): Outcome
  {
    if id !in s.tasks then Rejected(s, TaskNotFound)
    else
      var guard := RequireOwner(s.tasks[id], actor);
      if guard.Some? then Rejected(s, guard.value)
      else
        var edited := if u.addDeps == [] && u.removeDeps == [] then Outcome(s, None)
                      else EditDependencies(s, id, actor, u.addDeps, u.removeDeps, removedOrder, now);
        if edited.error.Some? then edited else EditFields(edited.store, id, actor, u, now)
  }

  // ----- removing work -----

  predicate IsCompletedDep(dep: string, tasks: map<nat, Task>) {
    var id := ParseLocalID(dep);
    id.Some? && id.value in tasks && tasks[id.value].status == COMPLETED
  }

  /** What is left of a dependency list when the completed tasks go: canonical, the dropped edges gone. */
  function KeptDeps(depends: seq<string>, tasks: map<nat, Task>): seq<string> {
    if depends == [] then []
    else
      var kept := KeptDeps(depends[..|depends| - 1], tasks);
      var c := CanonicalOrSelf(depends[|depends| - 1]);
      if IsCompletedDep(c, tasks) then kept else kept + [c]
  }

  function CompletedIds(tasks: map<nat, Task>): set<nat> {
    set k | k in tasks && tasks[k].status == COMPLETED
  }

  function Prune(s: StoreState, now: nat): StoreState {
    var gone := CompletedIds(s.tasks);
    s.(tasks := map k | k in s.tasks && k !in gone :: s.tasks[k].(depends := KeptDeps(s.tasks[k].depends, s.tasks)),
       acquisitions := map q | q in s.acquisitions && s.acquisitions[q].task.id !in gone :: s.acquisitions[q],
       lastModified := if gone == {} then s.lastModified else now)
  }

  /** The first of the IDs that is missing or actively leased. */
  function RemoveGuard(tasks: map<nat, Task>, ids: seq<nat>): Option<Error> {
    if ids == [] then None
    else if ids[0] !in tasks then Some(TaskNotFound)
    else if tasks[ids[0]].status == IN_PROGRESS && tasks[ids[0]].owner != "" then Some(NotOwner)
    else RemoveGuard(tasks, ids[1..])
  }

  /** Some task that stays behind depends on one that is going. */
  predicate HasSurvivingDependent(tasks: map<nat, Task>, ids: seq<nat>) {
    exists k :: k in tasks && tasks[k].id !in ids &&
                exists d :: d in tasks[k].depends && ParseLocalID(d).Some? && ParseLocalID(d).value in ids
  }

  function RemoveEach(s: StoreState, ids: seq<nat>, now: nat): StoreState {
    if ids == [] then s
    else
      var id := ids[|ids| - 1];
      WithoutTask(WithEvent(RemoveEach(s, ids[..|ids| - 1], now), TaskRemoved, id, "", map[], now), id, now)
  }

  function Remove(s: StoreState, ids: seq<nat>, now: nat): Outcome {
    var guard := RemoveGuard(s.tasks, ids);
    if guard.Some? then Rejected(s, guard.value)
    else if HasSurvivingDependent(s.tasks, ids) then Rejected(s, DependencyUnmet)
    else Outcome(RemoveEach(s, ids, now), None)
  }

  // ----- compaction -----

  const NANOS := 1_000_000

  /** The part of a clock reading below a millisecond, in nanoseconds. */
  type SubMilli = n: nat | n < NANOS

  /** The window is in nanoseconds; 0 leaves the receipts alone. */
  datatype CompactOptions = CompactOptions(keepEvents: Option<nat>, receiptsBefore: nat)

  /**
   * The window is taken off the clock reading of `now` milliseconds and `rest` nanoseconds, which
   * is then rounded down to an unsigned 64-bit number of milliseconds: a window longer than the
   * clock has run wraps around.
   */
  function CompactCutoff(now: nat, rest: SubMilli, window: nat): nat {
    var cutoff := (now * NANOS + rest - window) / NANOS;
    if cutoff >= 0 then cutoff else cutoff % UINT64_LIMIT
  }

  predicate ReceiptExpendable(s: StoreState, q: string, cutoff: nat)
    requires q in s.acquisitions
  {
    var r := s.acquisitions[q];
    r.created < cutoff && (r.task.id in s.tasks ==> s.tasks[r.task.id].status == COMPLETED)
  }

  function EventsToDrop(s: StoreState, options: CompactOptions): nat {
    if options.keepEvents.Some? && |s.events| > options.keepEvents.value
    then |s.events| - options.keepEvents.value
    else 0
  }

  function ReceiptsToDrop(s: StoreState, options: CompactOptions, now: nat, rest: SubMilli): set<string> {
    if options.receiptsBefore == 0 then {}
    else set q | q in s.acquisitions && ReceiptExpendable(s, q, CompactCutoff(now, rest, options.receiptsBefore))
  }

  function Compact(s: StoreState, options: CompactOptions, now: nat, rest: SubMilli): StoreState {
    s.(events := s.events[EventsToDrop(s, options)..],
       acquisitions := s.acquisitions - ReceiptsToDrop(s, options, now, rest))
  }

  // ----- allocation -----

  const ACQUIRE_OPERATION := "acquire.v1"

  datatype AcquireRequest = AcquireRequest(
    actor: string, requestId: string, fingerprint: string, ttl: Duration, capabilities: seq<string>, maxLoad: int)

  function OwnedIds(tasks: map<nat, Task>, actor: string): set<nat> {
    set k | k in tasks && tasks[k].status == IN_PROGRESS && actor != "" && tasks[k].owner == actor
  }

  predicate AtCapacity(tasks: map<nat, Task>, actor: string, maxLoad: int) {
    actor != "" && maxLoad > 0 && |OwnedIds(tasks, actor)| >= maxLoad
  }

  /** One task leased to the requester and a receipt that keeps a copy of it as granted. */
  function Grant(s: StoreState, r: AcquireRequest, id: nat, now: nat): StoreState
    requires id in s.tasks
  {
    var leased := s.tasks[id].(owner := r.actor, status := IN_PROGRESS, leaseExpires := now + r.ttl.millis);
    var s1 := WithEvent(WithLog(WithTask(s, id, leased), id, r.actor, "acquired", now), TaskClaimed, id, r.actor,
                        map["ttl" := r.ttl.text, "mode" := "acquire", "request_id" := r.requestId], now);
    s1.(acquisitions := s1.acquisitions[r.requestId :=
          AcquisitionReceipt(r.requestId, ACQUIRE_OPERATION, r.fingerprint, r.actor, now, s1.tasks[id])])
  }

  /** What an acquisition returns besides the store: the task and whether it was replayed. */
  datatype Acquired = Acquired(outcome: Outcome, task: Option<Task>, replayed: bool)

  ghost function Acquire(s: StoreState, r: AcquireRequest, resolver: Resolver, now: nat): Acquired
    requires KeyedById(s.tasks)
  {
    if r.requestId in s.acquisitions then
      var receipt := s.acquisitions[r.requestId];
      if receipt.operation != ACQUIRE_OPERATION || receipt.fingerprint != r.fingerprint then
        Acquired(Rejected(s, RequestConflict), None, false)
      else Acquired(Outcome(s, None), Some(receipt.task), true)
    else
      var ready := Candidates(s.tasks, resolver, r.capabilities, true);
      if AtCapacity(s.tasks, r.actor, r.maxLoad) then Acquired(Rejected(s, AgentAtCapacity), None, false)
      else if ready == {} then Acquired(Rejected(s, NoReadyTasks), None, false)
      else
        var id := Best(s.tasks, ready);
        var granted := Grant(s, r, id, now);
        Acquired(Outcome(granted, None), Some(granted.tasks[id]), false)
  }
}
