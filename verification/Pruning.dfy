/** What pruning guarantees to the tasks that stay. */
module Pruning {
  import opened Wrappers
  import opened TaskReference
  import opened Digraph
  import opened StoreModel
  import opened DependencyGraph
  import opened Readiness
  import opened Transitions
  import opened Soundness

  /** The resolver looks at what a reference denotes, not at how it is spelled. */
  ghost predicate AnswersByTask(resolver: Resolver) {
    forall a, b :: Denotation(a).Some? && Denotation(a) == Denotation(b) ==> resolver(a) == resolver(b)
  }

  lemma KeptDepsLocal(depends: seq<string>, tasks: map<nat, Task>)
    ensures LocalDeps(KeptDeps(depends, tasks)) == LocalDeps(depends) - CompletedIds(tasks)
  {
    forall a: nat ensures a in LocalDeps(KeptDeps(depends, tasks)) <==> a in LocalDeps(depends) - CompletedIds(tasks) {
      if c :| c in KeptDeps(depends, tasks) && ParseLocalID(c) == Some(a) {
        KeptDepsMember(depends, tasks, c);
        var d :| d in depends && c == CanonicalOrSelf(d);
        CanonicalOrSelfStable(d);
      }
      if d :| d in depends && ParseLocalID(d) == Some(a) {
        CanonicalOrSelfStable(d);
        KeptDepsMember(depends, tasks, CanonicalOrSelf(d));
      }
    }
  }

  /**
   * Pruning removes exactly the completed tasks; a survivor loses exactly its edges to them and
   * nothing else, so no edge is left dangling that was not before and no cycle appears.
   */
  lemma PruneRemovesExactlyCompleted(s: StoreState, now: nat)
    ensures var s' := Prune(s, now);
            && s'.tasks.Keys == s.tasks.Keys - CompletedIds(s.tasks)
            && (forall k :: k in s'.tasks ==>
                  && s'.tasks[k] == s.tasks[k].(depends := s'.tasks[k].depends)
                  && LocalDeps(s'.tasks[k].depends) == LocalDeps(s.tasks[k].depends) - CompletedIds(s.tasks))
            && (Cyclic(DepEdges(s'.tasks)) ==> Cyclic(DepEdges(s.tasks)))
            && (forall q :: q in s'.acquisitions <==>
                  q in s.acquisitions && s.acquisitions[q].task.id !in CompletedIds(s.tasks))
            && s' == s.(tasks := s'.tasks, acquisitions := s'.acquisitions,
                        lastModified := if CompletedIds(s.tasks) == {} then s.lastModified else now)
  {
    var s' := Prune(s, now);
    forall k | k in s'.tasks
      ensures LocalDeps(s'.tasks[k].depends) == LocalDeps(s.tasks[k].depends) - CompletedIds(s.tasks)
    {
      KeptDepsLocal(s.tasks[k].depends, s.tasks);
    }
    CyclicMonotone(DepEdges(s'.tasks), DepEdges(s.tasks));
  }

  lemma CanonicalAsMet(d: string, tasks: map<nat, Task>, resolver: Resolver)
    requires AnswersByTask(resolver)
    ensures DependencyMet(CanonicalOrSelf(d), tasks, resolver) <==> DependencyMet(d, tasks, resolver)
  {
    CanonicalOrSelfStable(d);
    CanonicalRoundTrip(d);
  }

  /** Whether a surviving task's dependencies are complete is the same before and after a prune. */
  lemma PruneKeepsVerdicts(s: StoreState, now: nat, resolver: Resolver, k: nat)
    requires AnswersByTask(resolver) && k in Prune(s, now).tasks
    ensures DependenciesComplete(Prune(s, now).tasks[k], Prune(s, now).tasks, resolver)
            <==> DependenciesComplete(s.tasks[k], s.tasks, resolver)
  {
    var s', depends := Prune(s, now), s.tasks[k].depends;
    forall d | d in depends
      ensures CanonicalOrSelf(d) !in s'.tasks[k].depends ==> DependencyMet(d, s.tasks, resolver)
      ensures CanonicalOrSelf(d) in s'.tasks[k].depends ==>
                (DependencyMet(CanonicalOrSelf(d), s'.tasks, resolver) <==> DependencyMet(d, s.tasks, resolver))
    {
      CanonicalAsMet(d, s.tasks, resolver);
      KeptDepsMember(depends, s.tasks, CanonicalOrSelf(d));
    }
    forall c | c in s'.tasks[k].depends ensures exists d :: d in depends && c == CanonicalOrSelf(d) {
      KeptDepsMember(depends, s.tasks, c);
    }
  }
}
