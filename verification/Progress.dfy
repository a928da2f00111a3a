/** Progress over an objective: its dependency closure, found by a walk that marks what it has seen. */
module Progress {
  import opened Wrappers
  import opened TaskReference
  import opened Digraph
  import opened StoreModel
  import opened DependencyGraph
  import opened Diagnosis

  /** From a task to each existing task it depends on. */
  ghost function NeedEdges(tasks: map<nat, Task>): Edges {
    set k, d | k in tasks && d in LocalDeps(tasks[k].depends) && d in tasks :: (k, d)
  }

  /** The task and everything it needs, directly or not. */
  ghost function ScopeOf(tasks: map<nat, Task>, root: nat): set<nat> {
    set k | k in tasks && root in tasks && Reaches(NeedEdges(tasks), root, k)
  }

  /** The recursive `visit` of the objective, with the map its closure fills. */
  class ScopeWalk {
    const tasks: map<nat, Task>
    var scope: set<nat>

    constructor (tasks: map<nat, Task>)
      ensures this.tasks == tasks && scope == {}
    {
      this.tasks := tasks;
      scope := {};
    }

    method Visit(id: nat)
      requires scope <= tasks.Keys
      modifies this
      ensures Covered(tasks, id, old(scope), scope, {}) && (id in tasks ==> id in scope)
      ensures id !in tasks ==> scope == old(scope)
      decreases tasks.Keys - scope
    {
      if id in scope {
        return;
      }
      if id !in tasks {
        return;
      }
      ghost var before := scope;
      scope := scope + {id};
      CoveredFirst(tasks, id, before);
      var depends := tasks[id].depends;
      for i := 0 to |depends|
        invariant Covered(tasks, id, before, scope, {id}) && id in scope
        invariant forall d :: d in LocalDeps(depends[..i]) && d in tasks ==> d in scope
      {
        LocalDepsSnoc(depends, i);
        var dependencyId := ParseLocalID(depends[i]);
        if dependencyId.Some? {
          ghost var mid := scope;
          Visit(dependencyId.value);
          CoveredThen(tasks, id, dependencyId.value, before, mid, scope);
        }
      }
      assert depends[..|depends|] == depends;
      CoveredLast(tasks, id, before, scope);
    }
  }

  /** Everything new in scope is reached from `id` and, outside `except`, has all it needs in scope. */
  ghost predicate Covered(tasks: map<nat, Task>, id: nat, before: set<nat>, scope: set<nat>, except: set<nat>) {
    && before <= scope <= tasks.Keys
    && (forall n :: n in scope && n !in before ==> Reaches(NeedEdges(tasks), id, n))
    && (forall n: nat, d: nat :: n in scope && n !in before && n !in except && (n, d) in NeedEdges(tasks) ==>
        d in scope)
  }

  lemma CoveredFirst(tasks: map<nat, Task>, id: nat, before: set<nat>)
    requires before <= tasks.Keys && id in tasks
    ensures Covered(tasks, id, before, before + {id}, {id})
  {
    ReachesSelf(NeedEdges(tasks), id);
  }

  lemma CoveredThen(tasks: map<nat, Task>, id: nat, next: nat, before: set<nat>, mid: set<nat>, scope: set<nat>)
    requires Covered(tasks, id, before, mid, {id}) && Covered(tasks, next, mid, scope, {})
    requires id in tasks && next in LocalDeps(tasks[id].depends) && (next !in tasks ==> scope == mid)
    ensures Covered(tasks, id, before, scope, {id})
  {
    forall n | n in scope && n !in mid ensures Reaches(NeedEdges(tasks), id, n) {
      var e := NeedEdges(tasks);
      assert (id, next) in e;
      var p :| IsWalk(e, p) && p[0] == next && p[|p| - 1] == n;
      assert IsWalk(e, [id] + p) && ([id] + p)[|p|] == n;
    }
  }

  lemma CoveredLast(tasks: map<nat, Task>, id: nat, before: set<nat>, scope: set<nat>)
    requires Covered(tasks, id, before, scope, {id}) && id in tasks
    requires forall d :: d in LocalDeps(tasks[id].depends) && d in tasks ==> d in scope
    ensures Covered(tasks, id, before, scope, {})
  {
    forall d: nat | (id, d) in NeedEdges(tasks) ensures d in scope {
      assert d in LocalDeps(tasks[id].depends) && d in tasks;
    }
  }

  datatype ScopeProgress = ScopeProgress(total: nat, pending: nat, inProgress: nat, blocked: nat, completed: nat,
                                         percent: nat)

  ghost function WithStatus(tasks: map<nat, Task>, scope: set<nat>, status: Status): set<nat> {
    set k | k in scope && k in tasks && tasks[k].status == status
  }

  lemma StatusOneMore(tasks: map<nat, Task>, walked: set<nat>, k: nat, status: Status)
    requires k in tasks && k !in walked
    ensures |WithStatus(tasks, walked + {k}, status)| ==
            |WithStatus(tasks, walked, status)| + (if tasks[k].status == status then 1 else 0)
  {
    if tasks[k].status == status {
      assert WithStatus(tasks, walked + {k}, status) == WithStatus(tasks, walked, status) + {k};
    } else {
      assert WithStatus(tasks, walked + {k}, status) == WithStatus(tasks, walked, status);
    }
  }

  ghost predicate CountsScope(p: ScopeProgress, tasks: map<nat, Task>, scope: set<nat>) {
    && p.total == |scope|
    && p.pending == |WithStatus(tasks, scope, PENDING)| && p.inProgress == |WithStatus(tasks, scope, IN_PROGRESS)|
    && p.blocked == |WithStatus(tasks, scope, BLOCKED)| && p.completed == |WithStatus(tasks, scope, COMPLETED)|
  }

  method CountStatus(progress: ScopeProgress, status: Status) returns (p: ScopeProgress)
    ensures p.total == progress.total + 1 && p.percent == progress.percent
    ensures p.pending == progress.pending + (if status == PENDING then 1 else 0)
    ensures p.inProgress == progress.inProgress + (if status == IN_PROGRESS then 1 else 0)
    ensures p.blocked == progress.blocked + (if status == BLOCKED then 1 else 0)
    ensures p.completed == progress.completed + (if status == COMPLETED then 1 else 0)
  {
    p := progress.(total := progress.total + 1);
    if status == PENDING {
      p := p.(pending := p.pending + 1);
    } else if status == IN_PROGRESS {
      p := p.(inProgress := p.inProgress + 1);
    } else if status == BLOCKED {
      p := p.(blocked := p.blocked + 1);
    } else if status == COMPLETED {
      p := p.(completed := p.completed + 1);
    }
  }

  lemma NoneCounted(tasks: map<nat, Task>, scope: set<nat>)
    ensures CountsScope(ScopeProgress(0, 0, 0, 0, 0, 0), tasks, scope - scope)
  {
    assert forall status :: WithStatus(tasks, scope - scope, status) == {};
  }

  lemma ScopeOneMore(p: ScopeProgress, q: ScopeProgress, tasks: map<nat, Task>, scope: set<nat>, remaining: set<nat>,
                     k: nat)
    requires CountsScope(p, tasks, scope - remaining) && k in tasks && k in remaining && remaining <= scope
    requires q.total == p.total + 1 && q.percent == p.percent
    requires q.pending == p.pending + (if tasks[k].status == PENDING then 1 else 0)
    requires q.inProgress == p.inProgress + (if tasks[k].status == IN_PROGRESS then 1 else 0)
    requires q.blocked == p.blocked + (if tasks[k].status == BLOCKED then 1 else 0)
    requires q.completed == p.completed + (if tasks[k].status == COMPLETED then 1 else 0)
    ensures CountsScope(q, tasks, scope - (remaining - {k}))
  {
    var walked := scope - remaining;
    assert scope - (remaining - {k}) == walked + {k};
    StatusOneMore(tasks, walked, k, PENDING);
    StatusOneMore(tasks, walked, k, IN_PROGRESS);
    StatusOneMore(tasks, walked, k, BLOCKED);
    StatusOneMore(tasks, walked, k, COMPLETED);
  }

  method CountScope(tasks: map<nat, Task>, scope: set<nat>) returns (p: ScopeProgress)
    requires scope <= tasks.Keys
    ensures CountsScope(p, tasks, scope) && p.percent == 0
  {
    p := ScopeProgress(0, 0, 0, 0, 0, 0);
    var remaining := scope;
    NoneCounted(tasks, scope);
    while remaining != {}
      invariant remaining <= scope
      invariant CountsScope(p, tasks, scope - remaining) && p.percent == 0
    {
      var id :| id in remaining;
      ghost var before := p;
      p := CountStatus(p, tasks[id].status);
      ScopeOneMore(before, p, tasks, scope, remaining, id);
      remaining := remaining - {id};
    }
    assert scope - remaining == scope;
  }

  /** Progress of an objective, or of the whole project when there is none. */
  method BootstrapObjectiveProgress(tasks: map<nat, Task>, objective: Option<nat>) returns (p: ScopeProgress)
    ensures CountsScope(p, tasks, if objective.Some? then ScopeOf(tasks, objective.value) else tasks.Keys)
    ensures p.percent == (if p.total > 0 then p.completed * 100 / p.total else 0)
  {
    var scope: set<nat>;
    if objective.Some? {
      var walk := new ScopeWalk(tasks);
      walk.Visit(objective.value);
      scope := walk.scope;
      ScopeFound(tasks, objective.value, scope);
    } else {
      scope := tasks.Keys;
    }
    p := CountScope(tasks, scope);
    if p.total > 0 {
      p := p.(percent := p.completed * 100 / p.total);
    }
  }

  lemma ScopeFound(tasks: map<nat, Task>, root: nat, scope: set<nat>)
    requires Covered(tasks, root, {}, scope, {}) && (root in tasks ==> root in scope)
    ensures scope == ScopeOf(tasks, root)
  {
    forall k | k in ScopeOf(tasks, root) ensures k in scope {
      var p :| IsWalk(NeedEdges(tasks), p) && p[0] == root && p[|p| - 1] == k;
      ClosedHoldsReached(NeedEdges(tasks), scope, p);
    }
    forall k | k in scope ensures root in tasks {
      var p :| IsWalk(NeedEdges(tasks), p) && p[0] == root && p[|p| - 1] == k;
      if |p| > 1 {
        assert (p[0], p[1]) in NeedEdges(tasks);
      }
    }
  }

  /** The four counts add up to the total exactly when every status in scope is a named one; the percentage is one. */
  lemma ProgressAddsUp(p: ScopeProgress, tasks: map<nat, Task>, scope: set<nat>)
    requires scope <= tasks.Keys && CountsScope(p, tasks, scope)
    requires p.percent == (if p.total > 0 then p.completed * 100 / p.total else 0)
    ensures p.pending + p.inProgress + p.blocked + p.completed == p.total <==>
            forall k :: k in scope ==> tasks[k].status <= BLOCKED
    ensures p.percent <= 100
    ensures p.total > 0 ==> (p.percent == 100 <==> forall k :: k in scope ==> tasks[k].status == COMPLETED)
  {
    hide WithStatus;
    NamedStatuses(tasks, scope);
    AllCompleted(tasks, scope);
    if p.total > 0 {
      PercentOf(p.completed, p.total);
    }
  }

  lemma PercentOf(part: nat, whole: nat)
    requires part <= whole && whole > 0
    ensures part * 100 / whole <= 100
    ensures part * 100 / whole == 100 <==> part == whole
  {
  }

  lemma NamedStatuses(tasks: map<nat, Task>, scope: set<nat>)
    requires scope <= tasks.Keys
    ensures var pending, active := WithStatus(tasks, scope, PENDING), WithStatus(tasks, scope, IN_PROGRESS);
            var blocked, done := WithStatus(tasks, scope, BLOCKED), WithStatus(tasks, scope, COMPLETED);
            |pending| + |active| + |blocked| + |done| == |scope| <==>
            forall k :: k in scope ==> tasks[k].status <= BLOCKED
  {
    var named := set k | k in scope && tasks[k].status <= BLOCKED;
    StatusesApart(tasks, scope);
    FourParts(WithStatus(tasks, scope, PENDING), WithStatus(tasks, scope, IN_PROGRESS),
              WithStatus(tasks, scope, BLOCKED),
              WithStatus(tasks, scope, COMPLETED), named);
    PartOf(named, scope);
    assert forall k :: k in scope ==> (k in named <==> tasks[k].status <= BLOCKED);
  }

  lemma AllCompleted(tasks: map<nat, Task>, scope: set<nat>)
    requires scope <= tasks.Keys
    ensures var done := WithStatus(tasks, scope, COMPLETED);
            |done| <= |scope| && (|done| == |scope| <==> forall k :: k in scope ==> tasks[k].status == COMPLETED)
  {
    var done := WithStatus(tasks, scope, COMPLETED);
    PartOf(done, scope);
    assert forall k :: k in scope ==> (k in done <==> tasks[k].status == COMPLETED);
  }

  lemma StatusesApart(tasks: map<nat, Task>, scope: set<nat>)
    ensures var pending, active := WithStatus(tasks, scope, PENDING), WithStatus(tasks, scope, IN_PROGRESS);
            var blocked, done := WithStatus(tasks, scope, BLOCKED), WithStatus(tasks, scope, COMPLETED);
            && pending !! active && pending !! blocked && pending !! done
            && active !! blocked && active !! done && blocked !! done
            && forall k :: k in scope && k in tasks && tasks[k].status <= BLOCKED <==>
                             k in pending || k in active || k in blocked || k in done
  {
  }
}
