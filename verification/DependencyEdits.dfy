/**
 * What a dependency edit achieves: which requests succeed, which edges the task ends with, and
 * which events the edit leaves behind.
 */
module DependencyEdits {
  import opened TaskReference
  import opened Digraph
  import opened Orders
  import opened StoreModel
  import opened DependencyGraph
  import opened Transitions

  /** The canonical forms of the references that have one. */
  ghost function CanonicalRefs(refs: seq<string>): set<string> {
    set r | r in refs && CanonicalDependency(r).Some? :: CanonicalDependency(r).value
  }

  ghost predicate AllReadable(refs: seq<string>) {
    forall r :: r in refs ==> CanonicalDependency(r).Some?
  }

  /** The edges asked for: (current - removed) + added, all in canonical form. */
  ghost function TargetDeps(depends: seq<string>, add: seq<string>, remove: seq<string>): set<string> {
    CanonicalSet(depends) - CanonicalRefs(remove) + CanonicalRefs(add)
  }

  /** A new edge is acceptable when it is remote, already present, or names a task that exists. */
  ghost predicate AdditionsExist(tasks: map<nat, Task>, kept: set<string>, add: seq<string>) {
    forall c :: c in CanonicalRefs(add) && c !in kept && ParseLocalID(c).Some? ==> ParseLocalID(c).value in tasks
  }

  lemma CanonicalRefsCons(refs: seq<string>)
    requires refs != []
    ensures CanonicalRefs(refs) == CanonicalRefs(refs[1..]) +
              (if CanonicalDependency(refs[0]).Some? then {CanonicalDependency(refs[0]).value} else {})
    ensures AllReadable(refs) <==> CanonicalDependency(refs[0]).Some? && AllReadable(refs[1..])
  {
    assert refs == [refs[0]] + refs[1..];
  }

  lemma {:induction false} RemoveEditsMeaning(deps: set<string>, seen: set<string>, remove: seq<string>)
    requires deps !! seen
    ensures RemoveEdits(deps, seen, remove).Success? <==> AllReadable(remove) && CanonicalRefs(remove) <= deps + seen
    ensures RemoveEdits(deps, seen, remove).Success? ==>
              RemoveEdits(deps, seen, remove).value == deps - CanonicalRefs(remove)
    decreases remove
  {
    if remove != [] {
      CanonicalRefsCons(remove);
      var c := CanonicalDependency(remove[0]);
      if c.Some? && c.value in seen {
        RemoveEditsMeaning(deps, seen, remove[1..]);
      } else if c.Some? && c.value in deps {
        RemoveEditsMeaning(deps - {c.value}, seen + {c.value}, remove[1..]);
        assert deps - {c.value} + (seen + {c.value}) == deps + seen;
      }
    }
  }

  lemma {:induction false} AddEditsMeaning(tasks: map<nat, Task>, deps: set<string>, add: seq<string>)
    ensures AddEdits(tasks, deps, add).Success? <==> AllReadable(add) && AdditionsExist(tasks, deps, add)
    ensures AddEdits(tasks, deps, add).Success? ==> AddEdits(tasks, deps, add).value == deps + CanonicalRefs(add)
    decreases add
  {
    if add != [] {
      CanonicalRefsCons(add);
      var c := CanonicalDependency(add[0]);
      if c.Some? && c.value in deps {
        AddEditsMeaning(tasks, deps, add[1..]);
      } else if c.Some? {
        AddEditsMeaning(tasks, deps + {c.value}, add[1..]);
      }
    }
  }

  /** When the edges can be edited at all, and that the result is then the target set. */
  lemma EditedDepsMeaning(tasks: map<nat, Task>, depends: seq<string>, add: seq<string>, remove: seq<string>)
    ensures EditedDeps(tasks, depends, add, remove).Success? <==>
              && AllReadable(remove) && CanonicalRefs(remove) <= CanonicalSet(depends)
              && AllReadable(add) && AdditionsExist(tasks, CanonicalSet(depends) - CanonicalRefs(remove), add)
    ensures EditedDeps(tasks, depends, add, remove).Success? ==>
              EditedDeps(tasks, depends, add, remove).value == TargetDeps(depends, add, remove)
  {
    RemoveEditsMeaning(CanonicalSet(depends), {}, remove);
    var removed := RemoveEdits(CanonicalSet(depends), {}, remove);
    if removed.Success? {
      AddEditsMeaning(tasks, removed.value, add);
    }
  }

  // ----- the projected graph -----

  /** The graph with the edges into `id` replaced by those of the target list. */
  ghost function ProjectedEdges(tasks: map<nat, Task>, id: nat, target: set<string>): Edges {
    (set e | e in DepEdges(tasks) && e.1 != id) +
    (set d | d in target && ParseLocalID(d).Some? :: (ParseLocalID(d).value, id))
  }

  lemma ProjectedGraph(tasks: map<nat, Task>, id: nat, depends: seq<string>)
    requires KeyedById(tasks) && id in tasks
    ensures DepEdges(tasks[id := tasks[id].(depends := depends)]) == ProjectedEdges(tasks, id, Elements(depends))
  {
    var after := tasks[id := tasks[id].(depends := depends)];
    forall a: nat, b: nat
      ensures (a, b) in DepEdges(after) <==> (a, b) in ProjectedEdges(tasks, id, Elements(depends))
    {
      if (a, b) in DepEdges(after) {
        assert b in after && a in LocalDeps(after[b].depends);
        if b == id {
          var d :| d in depends && ParseLocalID(d).Some? && ParseLocalID(d).value == a;
          assert d in Elements(depends);
        } else {
          assert after[b] == tasks[b];
        }
      }
      if (a, b) in ProjectedEdges(tasks, id, Elements(depends)) {
        if b == id {
          var d :| d in Elements(depends) && ParseLocalID(d).Some? && ParseLocalID(d).value == a;
          assert after[id].depends == depends && a in LocalDeps(depends);
        } else {
          assert (a, b) in DepEdges(tasks);
          assert after[b] == tasks[b];
        }
      }
    }
  }

  // ----- the events -----

  lemma {:induction false} NotInMember(xs: seq<string>, s: set<string>, y: string)
    ensures y in NotIn(xs, s) <==> y in xs && y !in s
  {
    if xs != [] {
      var init, x := xs[..|xs| - 1], xs[|xs| - 1];
      assert xs == init + [x];
      NotInMember(init, s, y);
    }
  }

  lemma {:induction false} NotInDistinct(xs: seq<string>, s: set<string>)
    requires Distinct(xs)
    ensures Distinct(NotIn(xs, s))
  {
    if xs != [] {
      var init, x := xs[..|xs| - 1], xs[|xs| - 1];
      NotInDistinct(init, s);
      NotInMember(init, s, x);
      assert x !in init;
    }
  }

  lemma AdditionOrderEnumerates(target: set<string>, current: set<string>)
    ensures Enumerates(AdditionOrder(target, current), target - current)
  {
    var sorted := SortedStrings(target);
    StringOrderTotal(target);
    ListingLength(sorted, target, StringLess);
    NotInDistinct(sorted, current);
    forall y ensures y in AdditionOrder(target, current) <==> y in target - current {
      NotInMember(sorted, current, y);
      assert y in sorted <==> y in Elements(sorted);
    }
  }

  lemma RemovalOrderEnumerates(order: seq<string>, gone: set<string>)
    ensures Enumerates(RemovalOrder(order, gone), gone)
  {
    StringOrderTotal(gone);
    ListingLength(SortedStrings(gone), gone, StringLess);
  }

  ghost predicate EditAcceptable(s: StoreState, id: nat, add: seq<string>, remove: seq<string>)
    requires id in s.tasks
  {
    var depends, target := s.tasks[id].depends, TargetDeps(s.tasks[id].depends, add, remove);
    && AllReadable(remove) && CanonicalRefs(remove) <= CanonicalSet(depends)
    && AllReadable(add) && AdditionsExist(s.tasks, CanonicalSet(depends) - CanonicalRefs(remove), add)
    && WithinCardinality(|depends|, |target|, MAX_DEPENDENCIES)
    && !Cyclic(ProjectedEdges(s.tasks, id, target))
  }

  /**
   * An edit succeeds exactly when every reference can be read, every removal names an edge, every
   * new local edge names a task, the list does not grow past its limit, and the projected graph
   * has no cycle; otherwise it leaves the store alone.
   */
  lemma EditSucceedsWhen(s: StoreState, id: nat, actor: string, add: seq<string>, remove: seq<string>,
                         order: seq<string>, now: nat)
    requires KeyedById(s.tasks) && id in s.tasks
    ensures EditDependencies(s, id, actor, add, remove, order, now).error.None? <==> EditAcceptable(s, id, add, remove)
    ensures EditDependencies(s, id, actor, add, remove, order, now).error.Some? ==>
              EditDependencies(s, id, actor, add, remove, order, now).store == s
  {
    var t := s.tasks[id];
    EditedDepsMeaning(s.tasks, t.depends, add, remove);
    ProjectedGraph(s.tasks, id, SortedStrings(TargetDeps(t.depends, add, remove)));
  }

  lemma EditWritesTarget(s: StoreState, id: nat, actor: string, add: seq<string>, remove: seq<string>,
                         order: seq<string>, now: nat)
    requires id in s.tasks && EditDependencies(s, id, actor, add, remove, order, now).error.None?
    ensures EditDependencies(s, id, actor, add, remove, order, now).store ==
            WithEdges(s, id, actor, TargetDeps(s.tasks[id].depends, add, remove), order, now)
  {
    EditedDepsMeaning(s.tasks, s.tasks[id].depends, add, remove);
    var edited := EditedDeps(s.tasks, s.tasks[id].depends, add, remove).value;
    var o := EditDependencies(s, id, actor, add, remove, order, now);
    assert o.store == WithEdges(s, id, actor, edited, order, now);
    assert edited == TargetDeps(s.tasks[id].depends, add, remove);
  }

  /** A successful edit leaves exactly the edges asked for, sorted and without duplicates, and touches no other task. */
  lemma EditLeavesTarget(s: StoreState, id: nat, actor: string, add: seq<string>, remove: seq<string>,
                         order: seq<string>, now: nat)
    requires KeyedById(s.tasks) && id in s.tasks
    requires EditDependencies(s, id, actor, add, remove, order, now).error.None?
    ensures var s' := EditDependencies(s, id, actor, add, remove, order, now).store;
            && id in s'.tasks
            && IsListing(s'.tasks[id].depends, TargetDeps(s.tasks[id].depends, add, remove), StringLess)
            && s'.tasks == s.tasks[id := s.tasks[id].(depends := s'.tasks[id].depends)]
            && s'.nextId == s.nextId && s'.acquisitions == s.acquisitions
  {
    EditedDepsMeaning(s.tasks, s.tasks[id].depends, add, remove);
  }

  /** Exactly the edges of `edges` have an event of this kind among `events`. */
  ghost predicate LogsEdges(events: seq<Event>, kind: EventType, edges: set<string>, id: nat) {
    forall d :: d in edges <==> exists e :: e in events && e.kind == kind && e.taskId == id && e.data == map["dep" := d]
  }

  lemma EdgeEventsLog(kind: EventType, deps: seq<string>, edges: set<string>, id: nat, actor: string, first: nat,
                      now: nat)
    requires Enumerates(deps, edges)
    ensures var events := EdgeEvents(kind, deps, id, actor, first, now);
            && |events| == |edges| && LogsEdges(events, kind, edges, id)
            && forall e :: e in events ==> e.kind == kind
  {
    var events := EdgeEvents(kind, deps, id, actor, first, now);
    DistinctLength(deps);
    forall d
      ensures d in edges <==> exists e :: e in events && e.kind == kind && e.taskId == id && e.data == map["dep" := d]
    {
      if d in edges {
        assert d in Elements(deps);
        var i :| 0 <= i < |deps| && deps[i] == d;
        assert events[i] in events && events[i].data == map["dep" := d];
      }
      if e :| e in events && e.kind == kind && e.taskId == id && e.data == map["dep" := d] {
        var i :| 0 <= i < |events| && events[i] == e;
        assert map["dep" := deps[i]]["dep"] == map["dep" := d]["dep"];
        assert deps[i] in Elements(deps);
      }
    }
  }

  lemma LogsBoth(came: seq<Event>, went: seq<Event>, added: set<string>, gone: set<string>, id: nat)
    requires LogsEdges(came, DependencyAdded, added, id) && LogsEdges(went, DependencyRemoved, gone, id)
    requires forall e :: e in came ==> e.kind == DependencyAdded
    requires forall e :: e in went ==> e.kind == DependencyRemoved
    ensures LogsEdges(came + went, DependencyAdded, added, id) && LogsEdges(came + went, DependencyRemoved, gone, id)
  {
    assert forall e :: e in came + went <==> e in came || e in went;
  }

  lemma EditEventsLogged(s: StoreState, id: nat, actor: string, target: set<string>, order: seq<string>, now: nat)
    requires id in s.tasks
    ensures var current, events := CanonicalSet(s.tasks[id].depends), EditEvents(s, id, actor, target, order, now);
            && LogsEdges(events, DependencyAdded, target - current, id)
            && LogsEdges(events, DependencyRemoved, current - target, id)
            && |events| == |target - current| + |current - target|
  {
    hide AdditionOrder, RemovalOrder, CanonicalSet, Enumerates, EdgeEvents, LogsEdges;
    var current := CanonicalSet(s.tasks[id].depends);
    var added, gone := AdditionOrder(target, current), RemovalOrder(order, current - target);
    AdditionOrderEnumerates(target, current);
    RemovalOrderEnumerates(order, current - target);
    ListsLogged(added, gone, target - current, current - target, id, actor, s.nextEventId, now);
  }

  /**
   * A successful edit only appends to the log, and what it appends names exactly the edges that
   * came as added and exactly those that went as removed; there are as many events as such edges,
   * so each has one.
   */
  lemma EditLogsEachEdgeOnce(s: StoreState, id: nat, actor: string, add: seq<string>, remove: seq<string>,
                             order: seq<string>, now: nat)
    requires id in s.tasks && EditDependencies(s, id, actor, add, remove, order, now).error.None?
    ensures var current, target := CanonicalSet(s.tasks[id].depends), TargetDeps(s.tasks[id].depends, add, remove);
            var events := EditDependencies(s, id, actor, add, remove, order, now).store.events;
            && s.events <= events
            && LogsEdges(events[|s.events|..], DependencyAdded, target - current, id)
            && LogsEdges(events[|s.events|..], DependencyRemoved, current - target, id)
            && |events| == |s.events| + |target - current| + |current - target|
  {
    hide EditEvents, LogsEdges, EditDependencies, TargetDeps, CanonicalSet;
    var target := TargetDeps(s.tasks[id].depends, add, remove);
    EditWritesTarget(s, id, actor, add, remove, order, now);
    EditEventsLogged(s, id, actor, target, order, now);
    var events := EditEvents(s, id, actor, target, order, now);
    assert (s.events + events)[|s.events|..] == events;
  }

  lemma ListsLogged(added: seq<string>, gone: seq<string>, came: set<string>, went: set<string>, id: nat, actor: string,
                    first: nat, now: nat)
    requires Enumerates(added, came) && Enumerates(gone, went)
    ensures var events := EdgeEvents(DependencyAdded, added, id, actor, first, now)
                          + EdgeEvents(DependencyRemoved, gone, id, actor, first + |added|, now);
            && LogsEdges(events, DependencyAdded, came, id) && LogsEdges(events, DependencyRemoved, went, id)
            && |events| == |came| + |went|
  {
    hide EdgeEvents, LogsEdges, Enumerates;
    EdgeEventsLog(DependencyAdded, added, came, id, actor, first, now);
    EdgeEventsLog(DependencyRemoved, gone, went, id, actor, first + |added|, now);
    LogsBoth(EdgeEvents(DependencyAdded, added, id, actor, first, now),
             EdgeEvents(DependencyRemoved, gone, id, actor, first + |added|, now), came, went, id);
  }

  /** The events of an edit carry the next IDs, the time, the task and the actor, added edges before removed ones. */
  lemma EditEventsSigned(s: StoreState, id: nat, actor: string, add: seq<string>, remove: seq<string>,
                         order: seq<string>, now: nat)
    requires id in s.tasks && EditDependencies(s, id, actor, add, remove, order, now).error.None?
    ensures var s', n := EditDependencies(s, id, actor, add, remove, order, now).store, |s.events|;
            && n <= |s'.events| && s'.nextEventId == s.nextEventId + |s'.events| - n
            && (forall i :: n <= i < |s'.events| ==>
                  var e := s'.events[i];
                  e.id == s.nextEventId + i - n && e.timestamp == now && e.taskId == id && e.actor == actor)
            && (forall i, j :: n <= i < j < |s'.events| && s'.events[j].kind == DependencyAdded ==>
                  s'.events[i].kind == DependencyAdded)
            && s'.lastModified == if |s'.events| == n then s.lastModified else now
  {
    hide EditedDeps, DepEdges, AdditionOrder, RemovalOrder, CanonicalSet;
  }

  /** A successful edit never leaves more than max(128, what was there) edges. */
  lemma EditStaysWithinLimit(s: StoreState, id: nat, actor: string, add: seq<string>, remove: seq<string>,
                             order: seq<string>, now: nat)
    requires KeyedById(s.tasks) && id in s.tasks
    requires EditDependencies(s, id, actor, add, remove, order, now).error.None?
    ensures var n := |EditDependencies(s, id, actor, add, remove, order, now).store.tasks[id].depends|;
            n <= MAX_DEPENDENCIES || n <= |s.tasks[id].depends|
  {
    EditSucceedsWhen(s, id, actor, add, remove, order, now);
    EditLeavesTarget(s, id, actor, add, remove, order, now);
    var target := TargetDeps(s.tasks[id].depends, add, remove);
    StringOrderTotal(target);
    ListingLength(EditDependencies(s, id, actor, add, remove, order, now).store.tasks[id].depends, target, StringLess);
  }
}
