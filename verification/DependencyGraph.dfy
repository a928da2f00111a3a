/**
 * The local dependency graph of `dag/dag.go`: an edge runs from a prerequisite to the task that
 * waits for it. `DAG.DetectCycle` is proved to report an error exactly for cyclic graphs.
 */
module DependencyGraph {
  import opened Wrappers
  import opened TaskReference
  import opened StoreModel
  import opened Digraph

  // ----- the graph a task map stands for -----

  ghost function LocalDeps(depends: seq<string>): set<nat> {
    set d | d in depends && ParseLocalID(d).Some? :: ParseLocalID(d).value
  }

  ghost function DepEdges(tasks: map<nat, Task>): Edges {
    set k, d | k in tasks && d in LocalDeps(tasks[k].depends) :: (d, tasks[k].id)
  }

  /** The edges a proposed dependency list adds to one task. */
  ghost function ProposedEdges(depends: seq<string>, taskId: nat): Edges {
    set d | d in LocalDeps(depends) :: (d, taskId)
  }

  ghost function AdjacencyEdges(adj: map<nat, seq<nat>>): Edges {
    set a, b | a in adj && b in adj[a] :: (a, b)
  }

  ghost predicate EndsInCycle(e: Edges, p: seq<nat>) {
    |p| >= 2 && IsWalk(e, p) && exists k :: 0 <= k < |p| - 1 && IsCycle(e, p[k..])
  }

  function Appended(adj: map<nat, seq<nat>>, a: nat, b: nat): map<nat, seq<nat>> {
    adj[a := (if a in adj then adj[a] else []) + [b]]
  }

  lemma AppendedEdges(adj: map<nat, seq<nat>>, a: nat, b: nat)
    ensures AdjacencyEdges(Appended(adj, a, b)) == AdjacencyEdges(adj) + {(a, b)}
  {
    var after := Appended(adj, a, b);
    assert b in after[a];
    forall x: nat, y: nat ensures (x, y) in AdjacencyEdges(after) <==> (x, y) in AdjacencyEdges(adj) + {(a, b)} {
      if x == a && x in adj {
        assert y in after[a] <==> y in adj[a] || y == b;
      }
    }
  }

  // ----- the search stack and the order in which nodes are left -----

  ghost predicate IsStack(e: Edges, onStack: set<nat>, path: seq<nat>) {
    && (forall n :: n in onStack <==> n in path)
    && (forall i, j :: 0 <= i < j < |path| ==> path[i] != path[j])
    && (path != [] ==> IsWalk(e, path))
  }

  ghost predicate LeftInOrder(e: Edges, rank: map<nat, nat>, clock: nat) {
    && (forall a: nat, b: nat :: (a, b) in e && a in rank ==> b in rank && rank[b] < rank[a])
    && (forall a :: a in rank ==> rank[a] < clock)
  }

  lemma StackPush(e: Edges, onStack: set<nat>, path: seq<nat>, node: nat)
    requires IsStack(e, onStack, path) && node !in onStack
    requires path != [] ==> (path[|path| - 1], node) in e
    ensures IsStack(e, onStack + {node}, path + [node])
  {
  }

  lemma StackPop(e: Edges, onStack: set<nat>, path: seq<nat>)
    requires IsStack(e, onStack, path) && path != []
    ensures IsStack(e, onStack - {path[|path| - 1]}, path[..|path| - 1])
  {
  }

  lemma StackClosesCycle(e: Edges, onStack: set<nat>, path: seq<nat>, next: nat)
    requires IsStack(e, onStack, path) && next in onStack
    requires (path[|path| - 1], next) in e
    ensures EndsInCycle(e, path + [next])
  {
    var p := path + [next];
    var k :| 0 <= k < |path| && path[k] == next;
    assert IsCycle(e, p[k..]);
  }

  lemma LeaveNode(adj: map<nat, seq<nat>>, rank: map<nat, nat>, clock: nat, node: nat, successors: seq<nat>)
    requires LeftInOrder(AdjacencyEdges(adj), rank, clock) && node !in rank
    requires successors == if node in adj then adj[node] else []
    requires forall n :: n in successors ==> n in rank
    ensures LeftInOrder(AdjacencyEdges(adj), rank[node := clock], clock + 1)
  {
  }

  /** The recursive search inside `DetectCycle`, with the variables its closure captures. */
  class CycleSearch {
    const adj: map<nat, seq<nat>>
    ghost const nodes: set<nat>
    var visited: set<nat>
    var onStack: set<nat>
    var path: seq<nat>
    ghost var rank: map<nat, nat>  // order in which nodes were left for good
    ghost var clock: nat

    constructor (adj: map<nat, seq<nat>>)
      ensures this.adj == adj && visited == {} && path == [] && Valid()
    {
      this.adj := adj;
      nodes := adj.Keys + set a, b | a in adj && b in adj[a] :: b;
      visited, onStack, path := {}, {}, [];
      rank, clock := map[], 0;
    }

    ghost function Edges(): Edges {
      AdjacencyEdges(adj)
    }

    ghost predicate Valid() reads this {
      && adj.Keys <= nodes && (forall a: nat, b: nat :: (a, b) in Edges() ==> b in nodes)
      && visited <= nodes
      && (forall n :: n in visited <==> n in onStack || n in rank)
      && (forall n :: n in onStack ==> n !in rank)
      && IsStack(Edges(), onStack, path)
      && LeftInOrder(Edges(), rank, clock)
    }

    method Enter(node: nat)
      requires Valid() && node in nodes && node !in visited
      requires path != [] ==> (path[|path| - 1], node) in Edges()
      modifies this
      ensures Valid() && path == old(path) + [node] && visited == old(visited) + {node}
    {
      StackPush(Edges(), onStack, path, node);
      visited := visited + {node};
      onStack := onStack + {node};
      path := path + [node];
    }

    method Leave(node: nat)
      requires Valid() && path != [] && path[|path| - 1] == node
      requires node in adj ==> forall n :: n in adj[node] ==> n in rank
      modifies this
      ensures Valid() && path == old(path[..|path| - 1]) && visited == old(visited) && node in rank
    {
      StackPop(Edges(), onStack, path);
      LeaveNode(adj, rank, clock, node, if node in adj then adj[node] else []);
      onStack := onStack - {node};
      path := path[..|path| - 1];
      rank := rank[node := clock];
      clock := clock + 1;
    }

    method Visit(node: nat) returns (err: Option<seq<nat>>)
      requires Valid() && node in nodes && node !in visited
      requires path != [] ==> (path[|path| - 1], node) in Edges()
      modifies this
      ensures err.None? ==> Valid() && path == old(path) && node in visited && old(visited) <= visited
      ensures err.Some? ==> EndsInCycle(Edges(), err.value)
      decreases nodes - visited
    {
      Enter(node);
      var successors := if node in adj then adj[node] else [];
      for i := 0 to |successors|
        invariant Valid() && path == old(path) + [node] && node in visited && old(visited) <= visited
        invariant forall j :: 0 <= j < i ==> successors[j] in rank
      {
        var next := successors[i];
        assert (node, next) in Edges();
        if next !in visited {
          err := Visit(next);
          if err.Some? { return; }
        } else if next in onStack {
          StackClosesCycle(Edges(), onStack, path, next);
          path := path + [next];
          return Some(path);
        }
      }
      Leave(node);
      assert path == old(path);
      return None;
    }
  }

  class DAG {
    var adjacency: map<nat, seq<nat>>

    constructor ()
      ensures adjacency == map[] && EdgeSet() == {}
    {
      adjacency := map[];
    }

    ghost function EdgeSet(): Edges reads this {
      AdjacencyEdges(adjacency)
    }

    method AddEdge(from: nat, to: nat)
      modifies this
      ensures EdgeSet() == old(EdgeSet()) + {(from, to)}
    {
      AppendedEdges(adjacency, from, to);
      adjacency := Appended(adjacency, from, to);
    }

    method BuildFromTasks(tasks: map<nat, Task>)
      modifies this
      ensures EdgeSet() == DepEdges(tasks)
    {
      adjacency := map[];
      var remaining := tasks.Keys;
      ghost var done: map<nat, Task> := map[];
      while remaining != {}
        invariant remaining <= tasks.Keys
        invariant done == map k | k in tasks && k !in remaining :: tasks[k]
        invariant EdgeSet() == DepEdges(done)
      {
        var key :| key in remaining;
        var task := tasks[key];
        for i := 0 to |task.depends|
          invariant EdgeSet() == DepEdges(done) + ProposedEdges(task.depends[..i], task.id)
        {
          var id := ParseLocalID(task.depends[i]);
          LocalDepsSnoc(task.depends, i);
          if id.Some? {
            AppendedEdges(adjacency, id.value, task.id);
            adjacency := Appended(adjacency, id.value, task.id);
          }
        }
        assert task.depends[..|task.depends|] == task.depends;
        DepEdgesInsert(done, key, task);
        done := done[key := task];
        remaining := remaining - {key};
      }
      assert done == tasks;
    }

    /** An error exactly when the graph with the proposed edges is cyclic, and then a real cycle in the report. */
    method DetectCycle(newDeps: seq<string>, newTaskId: nat) returns (err: Option<seq<nat>>)
      ensures err.Some? <==> Cyclic(EdgeSet() + ProposedEdges(newDeps, newTaskId))
      ensures err.Some? ==> EndsInCycle(EdgeSet() + ProposedEdges(newDeps, newTaskId), err.value)
    {
      var adj := adjacency;
      for i := 0 to |newDeps|
        invariant AdjacencyEdges(adj) == EdgeSet() + ProposedEdges(newDeps[..i], newTaskId)
      {
        var depId := ParseLocalID(newDeps[i]);
        LocalDepsSnoc(newDeps, i);
        if depId.Some? {
          AppendedEdges(adj, depId.value, newTaskId);
          adj := Appended(adj, depId.value, newTaskId);
        }
      }
      assert newDeps[..|newDeps|] == newDeps;

      var search := new CycleSearch(adj);
      var remaining := adj.Keys;
      while remaining != {}
        invariant search.Valid() && search.path == [] && search.adj == adj
        invariant remaining <= adj.Keys
        invariant forall n :: n in adj && n !in remaining ==> n in search.visited
      {
        var node :| node in remaining;
        remaining := remaining - {node};
        if node !in search.visited {
          err := search.Visit(node);
          if err.Some? {
            return;
          }
        }
      }
      assert search.onStack == {};
      RankedIsAcyclic(AdjacencyEdges(adj), search.rank);
      return None;
    }
  }

  // ----- small facts about the edge sets -----

  lemma LocalDepsSnoc(depends: seq<string>, i: nat)
    requires i < |depends|
    ensures LocalDeps(depends[..i + 1]) ==
            LocalDeps(depends[..i]) + (if ParseLocalID(depends[i]).Some? then {ParseLocalID(depends[i]).value} else {})
  {
    assert depends[..i + 1] == depends[..i] + [depends[i]];
  }

  lemma LocalDepsConcat(a: seq<string>, b: seq<string>)
    ensures LocalDeps(a + b) == LocalDeps(a) + LocalDeps(b)
  {
    assert forall d :: d in a + b <==> d in a || d in b;
  }

  lemma DepEdgesInsert(tasks: map<nat, Task>, key: nat, task: Task)
    requires key !in tasks
    ensures DepEdges(tasks[key := task]) == DepEdges(tasks) + ProposedEdges(task.depends, task.id)
  {
    var after := tasks[key := task];
    forall a: nat, b: nat
      ensures (a, b) in DepEdges(after) <==> (a, b) in DepEdges(tasks) + ProposedEdges(task.depends, task.id)
    {
      if (a, b) in DepEdges(tasks) {
        var k :| k in tasks && a in LocalDeps(tasks[k].depends) && b == tasks[k].id;
        assert after[k] == tasks[k];
      }
      if (a, b) in ProposedEdges(task.depends, task.id) {
        assert after[key] == task;
      }
      if (a, b) in DepEdges(after) {
        var k :| k in after && a in LocalDeps(after[k].depends) && b == after[k].id;
      }
    }
  }
}
