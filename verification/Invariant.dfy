/**
 * The store invariant (`storeInvariantProblems` reports its violations) and the lemmas that say
 * which changes to a store keep it.
 */
module Invariant {
  import opened TaskReference
  import opened Digraph
  import opened StoreModel
  import opened DependencyGraph
  import opened Transitions

  /** Owner and lease exactly while in progress; completion time exactly when completed. */
  ghost predicate LifecycleSound(t: Task) {
    && t.status <= BLOCKED
    && ValidPriority(t.priority)
    && (t.status == IN_PROGRESS ==> t.owner != "" && t.leaseExpires != 0)
    && (t.status != IN_PROGRESS ==> t.owner == "" && t.leaseExpires == 0)
    && (t.status == COMPLETED <==> t.completed != 0)
  }

  /** Every reference can be read, and the local ones name tasks of this store. */
  ghost predicate DepSound(dep: string, ids: set<nat>) {
    Denotation(dep).Some? && (Denotation(dep).value.alias == LOCAL ==> Denotation(dep).value.id in ids)
  }

  ghost predicate DepsSound(depends: seq<string>, ids: set<nat>) {
    forall d :: d in depends ==> DepSound(d, ids)
  }

  ghost predicate TasksSound(tasks: map<nat, Task>) {
    forall k :: k in tasks ==> tasks[k].id == k && LifecycleSound(tasks[k]) && DepsSound(tasks[k].depends, tasks.Keys)
  }

  ghost predicate Sound(s: StoreState) {
    && TasksSound(s.tasks)
    && s.nextId > 0 && (forall k :: k in s.tasks ==> s.tasks[k].id < s.nextId)
    && !Cyclic(DepEdges(s.tasks))
  }

  // ----- dependency lists -----

  lemma DepsSoundLocal(depends: seq<string>, ids: set<nat>)
    requires DepsSound(depends, ids)
    ensures LocalDeps(depends) <= ids
  {
    forall d | d in depends && ParseLocalID(d).Some? ensures ParseLocalID(d).value in ids {
      assert DepSound(d, ids);
      assert Denotation(d).value == TaskRef(LOCAL, ParseLocalID(d).value);
    }
  }

  lemma DepEdgesMember(tasks: map<nat, Task>, a: nat, b: nat)
    requires KeyedById(tasks)
    ensures (a, b) in DepEdges(tasks) <==> b in tasks && a in LocalDeps(tasks[b].depends)
  {
  }

  /** Edges depend on the dependency lists alone. */
  lemma SameDepsSameEdges(a: map<nat, Task>, b: map<nat, Task>)
    requires a.Keys == b.Keys
    requires forall k :: k in a ==> a[k].id == b[k].id && LocalDeps(a[k].depends) == LocalDeps(b[k].depends)
    ensures DepEdges(a) == DepEdges(b)
  {
  }

  // ----- what keeps the invariant -----

  /** Rewriting tasks one by one without touching their IDs or dependency lists. */
  lemma SoundWhenTouched(s: StoreState, s': StoreState)
    requires Sound(s)
    requires s'.tasks.Keys == s.tasks.Keys && s'.nextId == s.nextId
    requires forall k :: k in s.tasks ==> s'.tasks[k].id == k && s'.tasks[k].depends == s.tasks[k].depends
    requires forall k :: k in s.tasks ==> LifecycleSound(s'.tasks[k])
    ensures Sound(s')
  {
    SameDepsSameEdges(s.tasks, s'.tasks);
  }

  /** The same for one rewritten task. */
  lemma SoundWhenOneTouched(s: StoreState, s': StoreState, id: nat)
    requires Sound(s) && id in s.tasks && id in s'.tasks
    requires s'.tasks == s.tasks[id := s'.tasks[id]] && s'.nextId == s.nextId
    requires s'.tasks[id].id == id && s'.tasks[id].depends == s.tasks[id].depends
    requires LifecycleSound(s'.tasks[id])
    ensures Sound(s')
  {
    assert s'.tasks.Keys == s.tasks.Keys;
    SoundWhenTouched(s, s');
  }

  /** New tasks under fresh IDs, each depending only on tasks that were there. */
  lemma SoundWithNewTask(s: StoreState, s': StoreState, t: Task)
    requires Sound(s) && t.id == s.nextId
    requires s'.tasks == s.tasks[t.id := t] && s'.nextId == s.nextId + 1
    requires LifecycleSound(t) && DepsSound(t.depends, s.tasks.Keys)
    ensures Sound(s')
  {
    assert t.id !in s.tasks;
    var small, big := DepEdges(s.tasks), DepEdges(s'.tasks);
    forall a: nat, b: nat | (a, b) in big ensures (a, b) in small || !HasOut(big, b) {
      DepEdgesMember(s'.tasks, a, b);
      if b == t.id {
        forall c: nat ensures (b, c) !in big {
          DepEdgesMember(s'.tasks, b, c);
          DepsSoundLocal(s'.tasks[if c in s'.tasks then c else b].depends, s.tasks.Keys);
        }
      } else {
        DepEdgesMember(s.tasks, a, b);
      }
    }
    PendantEdgesCloseNoCycle(small, big);
  }

  /** One task's dependency list replaced, when the graph with the new list has no cycle. */
  lemma SoundWithNewDeps(s: StoreState, s': StoreState, id: nat)
    requires Sound(s) && id in s.tasks
    requires s'.nextId == s.nextId && id in s'.tasks
    requires s'.tasks == s.tasks[id := s.tasks[id].(depends := s'.tasks[id].depends)]
    requires DepsSound(s'.tasks[id].depends, s.tasks.Keys) && !Cyclic(DepEdges(s'.tasks))
    ensures Sound(s')
  {
    assert s'.tasks.Keys == s.tasks.Keys;
  }

  /** Some tasks gone, the rest with fewer local dependencies, none of them on a task that is gone. */
  lemma SoundWithFewer(s: StoreState, s': StoreState)
    requires Sound(s) && s'.tasks.Keys <= s.tasks.Keys && s'.nextId == s.nextId
    requires forall k :: k in s'.tasks ==>
      s'.tasks[k].id == k && LifecycleSound(s'.tasks[k]) && DepsSound(s'.tasks[k].depends, s'.tasks.Keys)
    requires forall k :: k in s'.tasks ==> LocalDeps(s'.tasks[k].depends) <= LocalDeps(s.tasks[k].depends)
    ensures Sound(s')
  {
    CyclicMonotone(DepEdges(s'.tasks), DepEdges(s.tasks));
  }
}
