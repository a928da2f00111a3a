/**
 * What each granted operation leaves, field by field over all operations: the task it worked on,
 * the tasks it filed, the log, the events and the receipt, and that nothing else changed.
 */
module FieldEffects {
  import opened Wrappers
  import opened Decimal
  import opened TaskReference
  import opened Orders
  import opened StoreModel
  import opened Readiness
  import opened Transitions
  import opened DependencyEdits
  import opened Invariant
  import opened Soundness
  import opened StepEffects
  import opened RefusedUpdates
  import opened Refusals

  // ----- lifecycle operations -----

  function StatusAfter(a: Action, status: Status): Status {
    if a.ClaimTask? then IN_PROGRESS
    else if a.CompleteTask? then COMPLETED
    else if a.BlockTask? then BLOCKED
    else if a.ReleaseTask? || a.UnblockTask? || a.HandoffTask? then PENDING
    else status
  }

  function OwnerAfter(a: Action, owner: string): string
    requires IsLifecycle(a)
  {
    if a.ClaimTask? then a.actor else if a.LogTask? || a.RenewLease? then owner else ""
  }

  function LeaseAfter(a: Action, leaseExpires: nat, now: nat): nat {
    if a.ClaimTask? || a.RenewLease? then now + a.ttl.millis else if a.LogTask? then leaseExpires else 0
  }

  function ReasonAfter(a: Action, blockReason: string): string {
    if a.BlockTask? then a.reason else if a.UnblockTask? || a.CompleteTask? then "" else blockReason
  }

  /** Only a release is charged, and only a release with an error message overwrites the last one. */
  predicate Charges(t: Task, t': Task, a: Action) {
    if a.ReleaseTask?
    then && t'.retryCount == (t.retryCount + 1) % 0x1_0000_0000
         && t'.lastError == if a.failure != "" then a.failure else t.lastError
    else t'.retryCount == t.retryCount && t'.lastError == t.lastError
  }

  /** A handoff adds its context, its values winning over the ones there. */
  predicate Contributes(before: map<string, string>, after: map<string, string>, added: map<string, string>) {
    && after.Keys == before.Keys + added.Keys
    && forall k :: k in after ==> after[k] == if k in added then added[k] else before[k]
  }

  function Entries(a: Action): seq<string> {
    match a
    case ClaimTask(_, _, _, _) => ["claimed"]
    case ReleaseTask(_, _, failure) => [if failure == "" then "released" else "released with error: " + failure]
    case BlockTask(_, _, reason) => ["blocked: " + reason]
    case UnblockTask(_, _) => ["unblocked"]
    case LogTask(_, _, message) => [message]
    case HandoffTask(_, _, _) => ["handed off with structured context"]
    case _ => []
  }

  function Signed(messages: seq<string>, actor: string, now: nat): seq<LogEntry> {
    seq(|messages|, i requires 0 <= i < |messages| => LogEntry(now, actor, messages[i]))
  }

  /** What describes a task and places it in the graph. */
  predicate SameDescription(t: Task, t': Task) {
    && t'.id == t.id && t'.title == t.title && t'.depends == t.depends && t'.created == t.created
    && t'.capabilities == t.capabilities && t'.priority == t.priority && t'.lineage == t.lineage && t'.tags == t.tags
  }

  ghost predicate FieldsAfter(t: Task, t': Task, a: Action, now: nat)
    requires IsLifecycle(a)
  {
    && t'.status == StatusAfter(a, t.status) && t'.owner == OwnerAfter(a, t.owner)
    && t'.leaseExpires == LeaseAfter(a, t.leaseExpires, now)
    && t'.completed == (if a.CompleteTask? then now else t.completed)
    && t'.blockReason == ReasonAfter(a, t.blockReason)
    && Charges(t, t', a)
    && Contributes(t.extra, t'.extra, if a.HandoffTask? then a.extra else map[])
    && t'.log == t.log + Signed(Entries(a), a.actor, now)
    && SameDescription(t, t')
  }

  /** The announcement of an operation: the kinds of its events and what they carry. */
  function Announced(a: Action, t: Task): seq<(EventType, map<string, string>)> {
    match a
    case ClaimTask(_, _, ttl, _) => [(TaskClaimed, map["ttl" := ttl.text])]
    case CompleteTask(_, _, _) => [(TaskCompleted, map[])]
    case ReleaseTask(_, _, failure) => [(TaskReleased, if failure == "" then map[] else map["error" := failure])]
    case BlockTask(_, _, reason) => [(TaskBlocked, map["reason" := reason])]
    case UnblockTask(_, _) => [(TaskUnblocked, map[])]
    case RenewLease(_, _, ttl, render) =>
      [(LeaseRenewed, map["ttl" := ttl.text, "previous_expires" := render(t.leaseExpires)])]
    case HandoffTask(_, _, _) => [(TaskUpdated, map["source" := "handoff"]), (TaskReleased, map["handoff" := "true"])]
    case _ => []
  }

  /** The events a store has more than before: under the next IDs, at this time, about this task, by this actor. */
  ghost predicate Announces(s: StoreState, s': StoreState, id: nat, actor: string,
                            news: seq<(EventType, map<string, string>)>, now: nat)
  {
    && s'.nextEventId == s.nextEventId + |news|
    && s'.events == s.events + seq(|news|, i requires 0 <= i < |news| =>
                                     Event(s.nextEventId + i, now, news[i].0, id, actor, news[i].1))
  }

  /** One task rewritten as the tables say, the operation announced, and nothing else changed. */
  ghost predicate LeavesAsTabled(s: StoreState, s': StoreState, a: Action, now: nat)
    requires IsLifecycle(a)
  {
    && a.id in s.tasks && a.id in s'.tasks && s'.tasks == s.tasks[a.id := s'.tasks[a.id]]
    && FieldsAfter(s.tasks[a.id], s'.tasks[a.id], a, now)
    && Announces(s, s', a.id, a.actor, Announced(a, s.tasks[a.id]), now)
    && s'.nextId == s.nextId && s'.acquisitions == s.acquisitions && s'.lastModified == now
  }

  lemma ClaimLeaves(s: StoreState, a: Action, now: nat)
    requires a.ClaimTask? && Claim(s, a.id, a.actor, a.ttl, a.resolver, now).error.None?
    ensures LeavesAsTabled(s, Claim(s, a.id, a.actor, a.ttl, a.resolver, now).store, a, now)
  {
    hide DependenciesComplete;
  }

  lemma CompleteLeaves(s: StoreState, a: Action, now: nat)
    requires a.CompleteTask? && Complete(s, a.id, a.actor, a.resolver, now).error.None?
    ensures LeavesAsTabled(s, Complete(s, a.id, a.actor, a.resolver, now).store, a, now)
  {
    hide DependenciesComplete;
  }

  lemma ReleaseLeaves(s: StoreState, a: Action, now: nat)
    requires a.ReleaseTask? && Release(s, a.id, a.actor, a.failure, now).error.None?
    ensures LeavesAsTabled(s, Release(s, a.id, a.actor, a.failure, now).store, a, now)
  {
  }

  lemma BlockLeaves(s: StoreState, a: Action, now: nat)
    requires a.BlockTask? && Block(s, a.id, a.actor, a.reason, now).error.None?
    ensures LeavesAsTabled(s, Block(s, a.id, a.actor, a.reason, now).store, a, now)
  {
  }

  lemma UnblockLeaves(s: StoreState, a: Action, now: nat)
    requires a.UnblockTask? && Unblock(s, a.id, a.actor, now).error.None?
    ensures LeavesAsTabled(s, Unblock(s, a.id, a.actor, now).store, a, now)
  {
  }

  lemma NoteLeaves(s: StoreState, a: Action, now: nat)
    requires a.LogTask? && Note(s, a.id, a.actor, a.message, now).error.None?
    ensures LeavesAsTabled(s, Note(s, a.id, a.actor, a.message, now).store, a, now)
  {
  }

  lemma RenewLeaves(s: StoreState, a: Action, now: nat)
    requires a.RenewLease? && Renew(s, a.id, a.actor, a.ttl, a.render, now).error.None?
    ensures LeavesAsTabled(s, Renew(s, a.id, a.actor, a.ttl, a.render, now).store, a, now)
  {
  }

  lemma HandoffLeavesTask(s: StoreState, a: Action, now: nat)
    requires a.HandoffTask? && a.id in s.tasks
    ensures var s' := HandedOff(s, a.id, a.actor, a.extra, now);
            && a.id in s'.tasks && s'.tasks == s.tasks[a.id := s'.tasks[a.id]]
            && FieldsAfter(s.tasks[a.id], s'.tasks[a.id], a, now)
  {
    hide HandedOff;
    HandedOffWrites(s, a.id, a.actor, a.extra, now);
  }

  lemma HandoffAnnounces(s: StoreState, a: Action, now: nat)
    requires a.HandoffTask? && a.id in s.tasks
    ensures var s' := HandedOff(s, a.id, a.actor, a.extra, now);
            && Announces(s, s', a.id, a.actor, Announced(a, s.tasks[a.id]), now) && s'.lastModified == now
            && s'.nextId == s.nextId && s'.acquisitions == s.acquisitions
  {
  }

  lemma HandoffLeaves(s: StoreState, a: Action, now: nat)
    requires a.HandoffTask? && Handoff(s, a.id, a.actor, a.extra, now).error.None?
    ensures LeavesAsTabled(s, Handoff(s, a.id, a.actor, a.extra, now).store, a, now)
  {
    hide FieldsAfter, Announces;
    HandoffLeavesTask(s, a, now);
    HandoffAnnounces(s, a, now);
  }

  /** What a granted lifecycle operation leaves, whichever it is. */
  lemma LifecycleLeaves(s: StoreState, step: Step)
    requires KeyedById(s.tasks) && IsLifecycle(step.action) && Perform(s, step).error.None?
    ensures LeavesAsTabled(s, Perform(s, step).store, step.action, step.now)
  {
    hide LeavesAsTabled, Claim, Complete, Release, Block, Unblock, Note, Renew, Handoff;
    var a, now := step.action, step.now;
    match a
    case ClaimTask(_, _, _, _) => ClaimLeaves(s, a, now);
    case CompleteTask(_, _, _) => CompleteLeaves(s, a, now);
    case ReleaseTask(_, _, _) => ReleaseLeaves(s, a, now);
    case BlockTask(_, _, _) => BlockLeaves(s, a, now);
    case UnblockTask(_, _) => UnblockLeaves(s, a, now);
    case LogTask(_, _, _) => NoteLeaves(s, a, now);
    case RenewLease(_, _, _, _) => RenewLeaves(s, a, now);
    case HandoffTask(_, _, _) => HandoffLeaves(s, a, now);
  }

  // ----- operations that file tasks -----

  /** A task as it is filed: waiting, nobody's, without history. */
  ghost predicate Filed(t: Task, id: nat, title: string, capabilities: seq<string>, lineage: string, now: nat) {
    && t.id == id && t.title == title && t.capabilities == capabilities && t.lineage == lineage && t.created == now
    && t.status == PENDING && t.owner == "" && t.leaseExpires == 0 && t.completed == 0 && t.retryCount == 0
    && t.lastError == "" && t.blockReason == "" && t.log == [] && t.extra == map[]
  }

  /** The references as stored: those to tasks of this store in canonical form, the others as they were given. */
  ghost predicate StoredAs(depends: seq<string>, after: seq<string>) {
    && |depends| == |after|
    && forall i :: 0 <= i < |after| ==>
         depends[i] == if ParseLocalID(after[i]).Some? then LocalUri(ParseLocalID(after[i]).value) else after[i]
  }

  /** Adding files one task under the next ID with exactly what was asked for, and announces it. */
  lemma AddLeaves(s: StoreState, title: string, after: seq<string>, priority: real, capabilities: seq<string>,
                  tags: seq<string>, now: nat)
    requires Add(s, title, after, priority, capabilities, tags, now).error.None?
    ensures var s' := Add(s, title, after, priority, capabilities, tags, now).store;
            && s.nextId in s'.tasks && s'.tasks == s.tasks[s.nextId := s'.tasks[s.nextId]]
            && var t := s'.tasks[s.nextId];
            && Filed(t, s.nextId, title, capabilities, "", now) && StoredAs(t.depends, after)
            && t.priority == priority && t.tags == tags
            && Announces(s, s', s.nextId, "", [(TaskCreated, map["title" := title])], now)
            && s'.nextId == s.nextId + 1 && s'.acquisitions == s.acquisitions && s'.lastModified == now
  {
    hide AddGuard;
  }

  /**
   * A decomposition files the children under consecutive new IDs, each with its title and
   * capabilities and the parent as its lineage, puts them at the end of the parent's
   * dependencies, and takes the parent back to pending without an owner.
   */
  lemma DecomposeLeaves(s: StoreState, id: nat, actor: string, subtasks: seq<Subtask>, now: nat)
    requires Sound(s) && s.nextId + |subtasks| <= UINT64_LIMIT && Decompose(s, id, actor, subtasks, now).error.None?
    ensures id in s.tasks
    ensures var s', n := Decompose(s, id, actor, subtasks, now).store, |subtasks|;
            && (forall k :: k in s'.tasks <==> k in s.tasks || s.nextId <= k < s.nextId + n)
            && (forall k :: k in s.tasks && k != id ==> s'.tasks[k] == s.tasks[k])
            && (forall i :: 0 <= i < n ==>
                  var k, sub := s.nextId + i, subtasks[i];
                  Filed(s'.tasks[k], k, sub.title, sub.capabilities, LocalUri(id), now) && s'.tasks[k].depends == [])
            && s'.nextId == s.nextId + n && s'.acquisitions == s.acquisitions
  {
    hide Decompose, WithChildren, ChildUris;
    DecomposedStore(s, id, actor, subtasks, now);
    WithChildrenTasks(s, id, subtasks, now);
  }

  lemma DecomposedParent(s: StoreState, id: nat, actor: string, subtasks: seq<Subtask>, now: nat)
    requires Sound(s) && s.nextId + |subtasks| <= UINT64_LIMIT && Decompose(s, id, actor, subtasks, now).error.None?
    ensures id in s.tasks
    ensures var s', t, n := Decompose(s, id, actor, subtasks, now).store, s.tasks[id], |subtasks|;
            && id in s'.tasks && var t' := s'.tasks[id];
            && t' == t.(depends := t'.depends, status := PENDING, owner := "", leaseExpires := 0, blockReason := "")
            && t'.depends == t.depends + seq(n, i requires 0 <= i < n => LocalUri(s.nextId + i))
            && Announces(s, s', id, actor, [(TaskDecomposed, map["count" := FormatUint(n)])], now)
            && s'.lastModified == now
  {
    hide Decompose, WithChildren;
    DecomposedStore(s, id, actor, subtasks, now);
    WithChildrenTasks(s, id, subtasks, now);
  }

  // ----- updates -----

  /** White space is only taken off the ends. */
  lemma {:induction false} TrimSpaceMeaning(s: string) returns (i: nat, j: nat)
    ensures i <= j <= |s| && TrimSpace(s) == s[i..j]
    ensures forall k :: 0 <= k < i || j <= k < |s| ==> IsSpace(s[k])
    ensures i < j ==> !IsSpace(s[i]) && !IsSpace(s[j - 1])
    decreases |s|
  {
    if s == "" {
      i, j := 0, 0;
    } else if IsSpace(s[0]) {
      i, j := TrimSpaceMeaning(s[1..]);
      assert s[1..][i..j] == s[i + 1..j + 1];
      assert forall k :: 1 <= k < |s| ==> s[k] == s[1..][k - 1];
      i, j := i + 1, j + 1;
    } else if IsSpace(s[|s| - 1]) {
      i, j := TrimSpaceMeaning(s[..|s| - 1]);
      assert s[..|s| - 1][i..j] == s[i..j];
    } else {
      i, j := 0, |s|;
    }
  }

  predicate AsksForFields(u: TaskUpdate) {
    u.title.Some? || u.priority.Some? || u.capabilities.Some? || u.extra != map[]
  }

  /** The fields an update asks for are set, the others are as they were. */
  ghost predicate UpdatesFields(t: Task, t': Task, u: TaskUpdate) {
    && t'.title == (if u.title.Some? then TrimSpace(u.title.value) else t.title)
    && t'.priority == (if u.priority.Some? then u.priority.value else t.priority)
    && t'.capabilities == (if u.capabilities.Some? then u.capabilities.value else t.capabilities)
    && Contributes(t.extra, t'.extra, u.extra)
    && t' == t.(title := t'.title, priority := t'.priority, capabilities := t'.capabilities, extra := t'.extra,
                depends := t'.depends)
  }

  lemma EditExtraContributes(t: Task, extra: map<string, string>)
    requires EditExtra(t, extra).error.None?
    ensures Contributes(t.extra, EditExtra(t, extra).task.extra, extra)
    ensures EditExtra(t, extra).task == t.(extra := EditExtra(t, extra).task.extra)
  {
    hide WithinCardinality;
  }

  lemma EditTaskLeaves(t: Task, u: TaskUpdate)
    requires EditTask(t, u).error.None?
    ensures UpdatesFields(t, EditTask(t, u).task, u) && EditTask(t, u).task.depends == t.depends
  {
    hide TrimSpace, WithinCardinality, EditExtra, Contributes;
    var edited := EditCapabilities(EditPriority(EditTitle(t, u.title).task, u.priority).task, u.capabilities);
    EditExtraContributes(edited, u.extra);
  }

  lemma EditFieldsLeaves(s: StoreState, id: nat, actor: string, u: TaskUpdate, now: nat)
    requires id in s.tasks && EditFields(s, id, actor, u, now).error.None?
    ensures var s' := EditFields(s, id, actor, u, now).store;
            && id in s'.tasks && s'.tasks == s.tasks[id := s'.tasks[id]]
            && UpdatesFields(s.tasks[id], s'.tasks[id], u) && s'.tasks[id].depends == s.tasks[id].depends
            && Announces(s, s', id, actor, if AsksForFields(u) then [(TaskUpdated, map[])] else [], now)
            && s'.nextId == s.nextId && s'.acquisitions == s.acquisitions
            && s'.lastModified == (if AsksForFields(u) then now else s.lastModified)
  {
    hide EditTask, UpdatesFields;
    EditTaskLeaves(s.tasks[id], u);
  }

  /**
   * A granted update sets exactly the fields it names, on that task alone, and its edges to the
   * edited set (`EditLeavesTarget`); it touches neither owner, status nor lease.
   */
  lemma UpdateLeaves(s: StoreState, id: nat, actor: string, u: TaskUpdate, order: seq<string>, now: nat)
    requires KeyedById(s.tasks) && Update(s, id, actor, u, order, now).error.None?
    ensures id in s.tasks
    ensures var s' := Update(s, id, actor, u, order, now).store;
            && id in s'.tasks && s'.tasks == s.tasks[id := s'.tasks[id]]
            && UpdatesFields(s.tasks[id], s'.tasks[id], u)
            && (if AsksForEdges(u)
                then IsListing(s'.tasks[id].depends,
                               TargetDeps(s.tasks[id].depends, u.addDeps, u.removeDeps), StringLess)
                else s'.tasks[id].depends == s.tasks[id].depends)
            && s'.nextId == s.nextId && s'.acquisitions == s.acquisitions
            && var edited := if AsksForEdges(u)
                             then EditDependencies(s, id, actor, u.addDeps, u.removeDeps, order, now).store else s;
            Announces(edited, s', id, actor, if AsksForFields(u) then [(TaskUpdated, map[])] else [], now)
  {
    hide EditFields, EditDependencies, UpdatesFields, TargetDeps, IsListing, Announces;
    var edited := if AsksForEdges(u) then EditDependencies(s, id, actor, u.addDeps, u.removeDeps, order, now)
                  else Outcome(s, None);
    if AsksForEdges(u) {
      EditLeavesTarget(s, id, actor, u.addDeps, u.removeDeps, order, now);
    }
    EditFieldsLeaves(edited.store, id, actor, u, now);
    var t' := Update(s, id, actor, u, order, now).store.tasks[id];
    EdgesApart(s.tasks[id], edited.store.tasks[id].depends, t', u);
  }

  lemma EdgesApart(t: Task, depends: seq<string>, t': Task, u: TaskUpdate)
    requires UpdatesFields(t.(depends := depends), t', u)
    ensures UpdatesFields(t, t', u)
  {
  }

  // ----- acquisition -----

  /**
   * A fresh acquisition leases one task, says so in the task's log and in the event log, and files
   * the one receipt for the request, holding the task as it is leased; a repeated one changes
   * nothing and returns the task of the receipt.
   */
  lemma AcquireLeaves(s: StoreState, r: AcquireRequest, resolver: Resolver, now: nat)
    requires KeyedById(s.tasks) && Acquire(s, r, resolver, now).outcome.error.None?
    ensures var a := Acquire(s, r, resolver, now); var s' := a.outcome.store;
            && a.task.Some?
            && (a.replayed <==> r.requestId in s.acquisitions)
            && if a.replayed then s' == s && a.task.value == s.acquisitions[r.requestId].task
               else
                 var id := a.task.value.id;
                 && id in s.tasks
                 && a.task.value == s.tasks[id].(
                      owner := r.actor, status := IN_PROGRESS, leaseExpires := now + r.ttl.millis,
                      log := s.tasks[id].log + [LogEntry(now, r.actor, "acquired")])
                 && s'.tasks == s.tasks[id := a.task.value] && s'.nextId == s.nextId && s'.lastModified == now
                 && s'.acquisitions == s.acquisitions[
                      r.requestId := AcquisitionReceipt(r.requestId, "acquire.v1", r.fingerprint, r.actor, now,
                                                        a.task.value)]
                 && Announces(s, s', id, r.actor,
                              [(TaskClaimed, map["ttl" := r.ttl.text, "mode" := "acquire",
                                                 "request_id" := r.requestId])], now)
  {
    hide Best, Candidates, AtCapacity;
  }

  // ----- the sweep and removal -----

  predicate HasRunOut(t: Task, now: nat) {
    t.status == IN_PROGRESS && 0 < t.leaseExpires <= now
  }

  /** The sweep takes exactly the tasks in progress whose lease has run out back to pending, without an owner. */
  lemma SweepLeaves(s: StoreState, now: nat)
    ensures var s' := Sweep(s, now);
            && s'.tasks.Keys == s.tasks.Keys && s'.nextId == s.nextId && s'.acquisitions == s.acquisitions
            && (forall k :: k in s.tasks ==>
                  s'.tasks[k] == if HasRunOut(s.tasks[k], now)
                                 then s.tasks[k].(status := PENDING, owner := "", leaseExpires := 0) else s.tasks[k])
            && s'.lastModified == (if exists k :: k in s.tasks && HasRunOut(s.tasks[k], now) then now
                                   else s.lastModified)
  {
    var ids := ExpiredListing(s.tasks, now);
    SweepTasks(s, now);
    if k :| k in s.tasks && HasRunOut(s.tasks[k], now) {
      assert k in ExpiredIds(s.tasks, now) && k in Elements(ids);
    }
    if ids != [] {
      assert ids[0] in Elements(ids);
    }
  }

  function ReclaimedEvent(id: nat, taskId: nat, owner: string, now: nat): Event {
    Event(id, now, LeaseExpired, taskId, owner, map["owner" := owner])
  }

  /** Its events name those tasks by ascending ID, each with the owner that lost it. */
  lemma SweepAnnounces(s: StoreState, now: nat) returns (ids: seq<nat>)
    ensures forall k :: k in ids <==> k in s.tasks && HasRunOut(s.tasks[k], now)
    ensures forall i, j :: 0 <= i < j < |ids| ==> ids[i] < ids[j]
    ensures var s' := Sweep(s, now);
            && s'.nextEventId == s.nextEventId + |ids| && |s'.events| == |s.events| + |ids|
            && s'.events[..|s.events|] == s.events
            && forall i :: 0 <= i < |ids| ==>
                 ids[i] in s.tasks &&
                 s'.events[|s.events| + i] == ReclaimedEvent(s.nextEventId + i, ids[i], s.tasks[ids[i]].owner, now)
  {
    ids := ExpiredListing(s.tasks, now);
    ExpiredListed(s.tasks, now);
    forall k ensures k in ids <==> k in s.tasks && HasRunOut(s.tasks[k], now) {
      assert k in ids <==> k in Elements(ids);
    }
  }

  lemma {:induction false} RemoveEachAnnounces(s: StoreState, ids: seq<nat>, now: nat)
    ensures var s' := RemoveEach(s, ids, now);
            && s'.nextEventId == s.nextEventId + |ids|
            && s'.events == s.events + seq(|ids|, i requires 0 <= i < |ids| =>
                                             Event(s.nextEventId + i, now, TaskRemoved, ids[i], "", map[]))
            && s'.lastModified == if ids == [] then s.lastModified else now
  {
    if ids != [] {
      var init := ids[..|ids| - 1];
      RemoveEachAnnounces(s, init, now);
      assert seq(|ids|, i requires 0 <= i < |ids| => Event(s.nextEventId + i, now, TaskRemoved, ids[i], "", map[]))
          == seq(|init|, i requires 0 <= i < |init| => Event(s.nextEventId + i, now, TaskRemoved, init[i], "", map[]))
             + [Event(s.nextEventId + |init|, now, TaskRemoved, ids[|init|], "", map[])];
    }
  }

  /** A removal takes exactly the named tasks and the receipts that name them, one event each, in the order given. */
  lemma RemoveLeaves(s: StoreState, ids: seq<nat>, now: nat)
    requires Remove(s, ids, now).error.None?
    ensures var s' := Remove(s, ids, now).store;
            && s'.tasks == s.tasks - (set id | id in ids) && s'.nextId == s.nextId
            && s'.acquisitions ==
               (map q | q in s.acquisitions && s.acquisitions[q].task.id !in ids :: s.acquisitions[q])
            && s'.nextEventId == s.nextEventId + |ids|
            && s'.events == s.events + seq(|ids|, i requires 0 <= i < |ids| =>
                                             Event(s.nextEventId + i, now, TaskRemoved, ids[i], "", map[]))
  {
    hide RemoveEach;
    RemoveGuardMeaning(s.tasks, ids);
    RemoveEachTasks(s, ids, now);
    RemoveEachAnnounces(s, ids, now);
  }
}
