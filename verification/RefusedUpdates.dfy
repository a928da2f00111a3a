/**
 * Updates edit as they go: the edges, then the title, the priority, the capabilities, and last the
 * structured context. When an update that is refused has left its mark, and when that is written.
 */
module RefusedUpdates {
  import opened Wrappers
  import opened TaskReference
  import opened Orders
  import opened StoreModel
  import opened Transitions
  import opened DependencyEdits
  import opened StepEffects
  import opened Transactions

  // ----- what an update asks for -----

  predicate AsksForEdges(u: TaskUpdate) {
    u.addDeps != [] || u.removeDeps != []
  }

  predicate EmptiesTitle(u: TaskUpdate) {
    u.title.Some? && TrimSpace(u.title.value) == ""
  }

  predicate MisplacesPriority(u: TaskUpdate) {
    u.priority.Some? && !(0.0 <= u.priority.value <= 1.0)
  }

  predicate OverfillsExtra(t: Task, u: TaskUpdate) {
    !WithinCardinality(|t.extra|, |t.extra + u.extra|, MAX_EXTRA)
  }

  predicate KeepsTitle(t: Task, u: TaskUpdate) {
    u.title.Some? ==> TrimSpace(u.title.value) == t.title
  }

  predicate KeepsPriority(t: Task, u: TaskUpdate) {
    u.priority.Some? ==> u.priority.value == t.priority
  }

  predicate KeepsCapabilities(t: Task, u: TaskUpdate) {
    u.capabilities.Some? ==> u.capabilities.value == t.capabilities
  }

  /** The edges asked for are, in canonical form and sorted, the ones the task has. */
  ghost predicate KeepsEdges(t: Task, u: TaskUpdate) {
    AsksForEdges(u) ==> IsListing(t.depends, TargetDeps(t.depends, u.addDeps, u.removeDeps), StringLess)
  }

  /** Every field edit made before the first one that is refused sets what is already there. */
  predicate KeepsFieldsUntilRefused(t: Task, u: TaskUpdate) {
    EmptiesTitle(u) ||
    (KeepsTitle(t, u) && (MisplacesPriority(u) || (KeepsPriority(t, u) && KeepsCapabilities(t, u))))
  }

  ghost predicate EdgesRefused(s: StoreState, id: nat, u: TaskUpdate)
    requires id in s.tasks
  {
    AsksForEdges(u) && !EditAcceptable(s, id, u.addDeps, u.removeDeps)
  }

  /** An update is stopped before it writes anything: no such task, another owner, or an edge edit that is refused. */
  ghost predicate StoppedAtOnce(s: StoreState, id: nat, actor: string, u: TaskUpdate) {
    id !in s.tasks || RequireOwner(s.tasks[id], actor).Some? || EdgesRefused(s, id, u)
  }

  /** What a caller can check before an update: should it be refused, it will have changed nothing. */
  ghost predicate RefusalIsTraceless(s: StoreState, id: nat, actor: string, u: TaskUpdate) {
    StoppedAtOnce(s, id, actor, u) || (KeepsEdges(s.tasks[id], u) && KeepsFieldsUntilRefused(s.tasks[id], u))
  }

  // ----- the two halves of an update -----

  /** When the field edits are refused, and whether the ones before the refusal changed the task. */
  lemma FieldsRefusedWhen(t: Task, u: TaskUpdate)
    ensures EditTask(t, u).error.Some? <==> EmptiesTitle(u) || MisplacesPriority(u) || OverfillsExtra(t, u)
    ensures EditTask(t, u).error.Some? ==> (EditTask(t, u).task == t <==> KeepsFieldsUntilRefused(t, u))
  {
    hide TrimSpace, WithinCardinality;
    var t1 := EditTitle(t, u.title).task;
    var t2 := EditPriority(t1, u.priority).task;
    var t3 := EditCapabilities(t2, u.capabilities);
    assert t1.extra == t.extra && t2.extra == t.extra && t3.extra == t.extra;
    assert t3.title == t1.title && t3.priority == t2.priority;
  }

  lemma {:induction false} CanonicalStays(depends: seq<string>, add: seq<string>, remove: seq<string>)
    requires Elements(depends) == TargetDeps(depends, add, remove)
    ensures CanonicalSet(depends) == Elements(depends)
  {
    forall d | d in depends ensures CanonicalOrSelf(d) == d {
      assert d in Elements(depends);
      if d in CanonicalSet(depends) {
        var r :| r in depends && d == CanonicalOrSelf(r);
        CanonicalOrSelfStable(r);
      } else {
        var r :| r in add && CanonicalDependency(r) == Some(d);
        CanonicalRoundTrip(r);
      }
    }
  }

  /** An accepted edge edit leaves the store as it is exactly when the task already has those edges, listed that way. */
  lemma EdgeEditKeepsStore(s: StoreState, id: nat, actor: string, u: TaskUpdate, order: seq<string>, now: nat)
    requires id in s.tasks && AsksForEdges(u)
    requires EditDependencies(s, id, actor, u.addDeps, u.removeDeps, order, now).error.None?
    ensures var s' := EditDependencies(s, id, actor, u.addDeps, u.removeDeps, order, now).store;
            && (s' == s <==> KeepsEdges(s.tasks[id], u))
            && (s'.events == s.events ==> s'.lastModified == s.lastModified)
  {
    hide EditDependencies, TargetDeps;
    var t, target := s.tasks[id], TargetDeps(s.tasks[id].depends, u.addDeps, u.removeDeps);
    EditWritesTarget(s, id, actor, u.addDeps, u.removeDeps, order, now);
    StringOrderTotal(target);
    var events := EditEvents(s, id, actor, target, order, now);
    assert s.events + events == s.events ==> events == [] by {
      assert |s.events + events| == |s.events| + |events|;
    }
    if KeepsEdges(t, u) {
      ListingUnique(t.depends, SortedStrings(target), target, StringLess);
      CanonicalStays(t.depends, u.addDeps, u.removeDeps);
      SameEdgesKeepStore(s, id, actor, target, order, now);
    }
  }

  lemma SameEdgesKeepStore(s: StoreState, id: nat, actor: string, target: set<string>, order: seq<string>, now: nat)
    requires id in s.tasks && s.tasks[id].depends == SortedStrings(target) &&
             CanonicalSet(s.tasks[id].depends) == target
    ensures WithEdges(s, id, actor, target, order, now) == s
  {
    EditEventsLogged(s, id, actor, target, order, now);
    assert EditEvents(s, id, actor, target, order, now) == [];
    assert s.tasks[id := s.tasks[id]] == s.tasks;
  }

  // ----- the whole update -----

  /** The store after the edge edit of an update that gets past it. */
  ghost function AfterEdges(s: StoreState, id: nat, actor: string, u: TaskUpdate, order: seq<string>,
                            now: nat): StoreState
    requires id in s.tasks
  {
    if AsksForEdges(u) then EditDependencies(s, id, actor, u.addDeps, u.removeDeps, order, now).store else s
  }

  lemma UpdateInTwoHalves(s: StoreState, id: nat, actor: string, u: TaskUpdate, order: seq<string>, now: nat)
    requires KeyedById(s.tasks)
    ensures var o := Update(s, id, actor, u, order, now);
            if StoppedAtOnce(s, id, actor, u) then o.error.Some? && o.store == s
            else var mid := AfterEdges(s, id, actor, u, order, now);
                 && id in mid.tasks && mid.tasks == s.tasks[id := s.tasks[id].(depends := mid.tasks[id].depends)]
                 && (mid == s <==> KeepsEdges(s.tasks[id], u))
                 && (mid.events == s.events ==> mid.lastModified == s.lastModified)
                 && o == EditFields(mid, id, actor, u, now)
  {
    hide EditDependencies, EditFields, EditAcceptable;
    if id in s.tasks && RequireOwner(s.tasks[id], actor).None? && AsksForEdges(u) {
      EditSucceedsWhen(s, id, actor, u.addDeps, u.removeDeps, order, now);
      if !EdgesRefused(s, id, u) {
        EditLeavesTarget(s, id, actor, u.addDeps, u.removeDeps, order, now);
        EdgeEditKeepsStore(s, id, actor, u, order, now);
      }
    }
  }

  lemma EditFieldsFollows(s: StoreState, id: nat, actor: string, u: TaskUpdate, now: nat)
    requires id in s.tasks
    ensures EditFields(s, id, actor, u, now).error == EditTask(s.tasks[id], u).error
    ensures EditFields(s, id, actor, u, now).error.Some? ==>
              EditFields(s, id, actor, u, now).store == WithTask(s, id, EditTask(s.tasks[id], u).task)
  {
    hide EditTask;
  }

  /** Other edges, same answer: the field edits do not look at the dependencies. */
  lemma EdgesDoNotMatter(t: Task, depends: seq<string>, u: TaskUpdate)
    ensures OverfillsExtra(t.(depends := depends), u) == OverfillsExtra(t, u)
    ensures KeepsFieldsUntilRefused(t.(depends := depends), u) == KeepsFieldsUntilRefused(t, u)
  {
  }

  /** When an update is refused. */
  lemma UpdateRefusedWhen(s: StoreState, id: nat, actor: string, u: TaskUpdate, order: seq<string>, now: nat)
    requires KeyedById(s.tasks)
    ensures Update(s, id, actor, u, order, now).error.Some? <==>
            StoppedAtOnce(s, id, actor, u) || EmptiesTitle(u) || MisplacesPriority(u) || OverfillsExtra(s.tasks[id], u)
  {
    hide Update, EditTask, EditFields, StoppedAtOnce, AfterEdges;
    hide OverfillsExtra, EmptiesTitle, MisplacesPriority, KeepsEdges;
    UpdateInTwoHalves(s, id, actor, u, order, now);
    if !StoppedAtOnce(s, id, actor, u) {
      StoppedWithoutTask(s, id, actor, u);
      var mid := AfterEdges(s, id, actor, u, order, now);
      EditFieldsFollows(mid, id, actor, u, now);
      FieldsRefusedWhen(mid.tasks[id], u);
      EdgesDoNotMatter(s.tasks[id], mid.tasks[id].depends, u);
      assert mid.tasks[id] == s.tasks[id].(depends := mid.tasks[id].depends);
    }
  }

  lemma StoppedWithoutTask(s: StoreState, id: nat, actor: string, u: TaskUpdate)
    ensures !StoppedAtOnce(s, id, actor, u) ==> id in s.tasks
  {
  }

  /**
   * A refused update has left the store as it was exactly when it was stopped at once, or its edges
   * and every field edit before the refused one set what was already there. Otherwise it has left
   * more than a newer modification time behind.
   */
  lemma RefusedUpdateTracelessIff(s: StoreState, id: nat, actor: string, u: TaskUpdate, order: seq<string>, now: nat)
    requires KeyedById(s.tasks) && Update(s, id, actor, u, order, now).error.Some?
    ensures Update(s, id, actor, u, order, now).store == s <==> RefusalIsTraceless(s, id, actor, u)
    ensures Update(s, id, actor, u, order, now).store == s <==>
            Stamped(Update(s, id, actor, u, order, now).store, now) == Stamped(s, now)
  {
    hide Update, EditTask, EditFields, StoppedAtOnce, AfterEdges, KeepsEdges, KeepsFieldsUntilRefused;
    UpdateInTwoHalves(s, id, actor, u, order, now);
    if !StoppedAtOnce(s, id, actor, u) {
      StoppedWithoutTask(s, id, actor, u);
      var mid, t := AfterEdges(s, id, actor, u, order, now), s.tasks[id];
      EditFieldsFollows(mid, id, actor, u, now);
      FieldsRefusedWhen(mid.tasks[id], u);
      EdgesDoNotMatter(t, mid.tasks[id].depends, u);
      assert mid.tasks[id] == t.(depends := mid.tasks[id].depends);
      SameAfterBoth(s, mid, id, EditTask(mid.tasks[id], u).task, now);
    }
  }

  lemma SameAfterBoth(s: StoreState, mid: StoreState, id: nat, e: Task, now: nat)
    requires id in s.tasks && id in mid.tasks && e.depends == mid.tasks[id].depends
    requires mid.tasks == s.tasks[id := s.tasks[id].(depends := mid.tasks[id].depends)]
    requires mid.events == s.events ==> mid.lastModified == s.lastModified
    ensures WithTask(mid, id, e) == s <==> mid == s && e == mid.tasks[id]
    ensures WithTask(mid, id, e) == s <==> Stamped(WithTask(mid, id, e), now) == Stamped(s, now)
  {
    if Stamped(WithTask(mid, id, e), now) == Stamped(s, now) {
      assert mid.tasks[id := e][id] == s.tasks[id];
      assert mid.tasks == s.tasks;
    }
  }

  // ----- the transaction -----

  lemma RefusedUpdateKeepsStatuses(s: StoreState, id: nat, actor: string, u: TaskUpdate, order: seq<string>, now: nat)
    requires KeyedById(s.tasks) && Update(s, id, actor, u, order, now).error.Some?
    ensures var tasks := Update(s, id, actor, u, order, now).store.tasks;
            forall k :: k in s.tasks ==> k in tasks && tasks[k].status == s.tasks[k].status
  {
    hide Update, EditTask, EditFields, StoppedAtOnce, AfterEdges, KeepsEdges;
    UpdateInTwoHalves(s, id, actor, u, order, now);
    if !StoppedAtOnce(s, id, actor, u) {
      StoppedWithoutTask(s, id, actor, u);
      EditFieldsFollows(AfterEdges(s, id, actor, u, order, now), id, actor, u, now);
    }
  }

  /**
   * The transaction of a refused update leaves the file alone or commits exactly the sweep, precisely
   * when there was nothing to sweep or the refusal is traceless on the swept store.
   */
  lemma RefusedUpdateCommitsIff(file: StoreState, id: nat, actor: string, u: TaskUpdate, order: seq<string>, now: nat)
    requires KeyedById(file.tasks) && Transact(file, Step(UpdateTask(id, actor, u, order), now)).error.Some?
    ensures var after, swept := Transact(file, Step(UpdateTask(id, actor, u, order), now)).store, Sweep(file, now);
            after == file || after == Stamped(swept, now) <==>
            ExpiredIds(file.tasks, now) == {} || RefusalIsTraceless(swept, id, actor, u)
  {
    hide Update, Sweep, RefusalIsTraceless;
    var swept := Sweep(file, now);
    SweepKeepsKeys(file, now);
    RefusedUpdateTracelessIff(swept, id, actor, u, order, now);
    if k :| k in ExpiredIds(file.tasks, now) {
      SweepTasks(file, now);
      RefusedUpdateKeepsStatuses(swept, id, actor, u, order, now);
      assert Update(swept, id, actor, u, order, now).store.tasks[k].status != file.tasks[k].status;
    }
  }

  /**
   * And it does happen, with a request that passes every check made before the transaction: a new
   * title along with context that does not fit any more is refused, and where a lease had to be
   * swept the title is written all the same.
   */
  lemma RefusedUpdateIsCommitted(file: StoreState, id: nat, title: string, extra: map<string, string>, now: nat)
    requires KeyedById(file.tasks) && ExpiredIds(file.tasks, now) != {}
    requires id in file.tasks && !HoldsExpiredLease(file.tasks[id], now) && file.tasks[id].owner == ""
    requires TrimSpace(title) == title != "" && file.tasks[id].title != title
    requires |extra| <= MAX_EXTRA
    requires !WithinCardinality(|file.tasks[id].extra|, |file.tasks[id].extra + extra|, MAX_EXTRA)
    ensures var u := TaskUpdate(Some(title), None, None, extra, [], []);
            var o := Transact(file, Step(UpdateTask(id, "", u, []), now));
            && o.error == Some(PersistedInput) && id in o.store.tasks && o.store.tasks[id].title == title
            && o.store != file && o.store != Stamped(Sweep(file, now), now)
  {
    hide Sweep, TrimSpace;
    SweepKeepsKeys(file, now);
    SweepTasks(file, now);
  }
}
