/** `storeInvariantProblems`: the executable check of the store invariant, and that it decides it. */
module Doctor {
  import opened Wrappers
  import opened TaskReference
  import opened StoreModel
  import opened DependencyGraph
  import opened Transitions
  import opened Invariant

  datatype Problem =
    | NilEntry(key: nat)
    | WrongKey(key: nat, id: nat)
    | InvalidStatus(id: nat, status: Status)
    | InvalidPriority(id: nat)
    | IncompleteLease(id: nat)
    | StrayOwnership(id: nat)
    | MissingCompletionTime(id: nat)
    | StrayCompletionTime(id: nat)
    | InvalidDependency(id: nat, dep: string)
    | MissingDependency(id: nat, depId: nat)
    | NextIdTooLow(nextId: nat, maxId: nat)
    | LocalCycle(path: seq<nat>)

  ghost predicate DepViolation(t: Task, dep: string, ids: set<nat>, p: Problem) {
    if Denotation(dep).None? then p == InvalidDependency(t.id, dep)
    else Denotation(dep).value.alias == LOCAL && Denotation(dep).value.id !in ids
         && p == MissingDependency(t.id, Denotation(dep).value.id)
  }

  ghost predicate FieldViolation(key: nat, t: Task, p: Problem) {
    || (p == WrongKey(key, t.id) && key != t.id)
    || (p == InvalidStatus(t.id, t.status) && t.status > BLOCKED)
    || (p == InvalidPriority(t.id) && !ValidPriority(t.priority))
    || (p == IncompleteLease(t.id) && t.status == IN_PROGRESS && (t.owner == "" || t.leaseExpires == 0))
    || (p == StrayOwnership(t.id) && t.status != IN_PROGRESS && (t.owner != "" || t.leaseExpires != 0))
    || (p == MissingCompletionTime(t.id) && t.status == COMPLETED && t.completed == 0)
    || (p == StrayCompletionTime(t.id) && t.status != COMPLETED && t.completed != 0)
  }

  ghost predicate TaskViolation(key: nat, t: Task, ids: set<nat>, p: Problem) {
    FieldViolation(key, t, p) || exists d :: d in t.depends && DepViolation(t, d, ids, p)
  }

  ghost predicate IsMaxId(tasks: map<nat, Task>, maxId: nat) {
    && (forall k :: k in tasks ==> tasks[k].id <= maxId)
    && (maxId == 0 || exists k :: k in tasks && tasks[k].id == maxId)
  }

  /** What each kind of problem says is wrong with a store. */
  ghost predicate IsViolation(s: StoreState, p: Problem) {
    match p
    case NextIdTooLow(nextId, maxId) =>
      nextId == s.nextId && IsMaxId(s.tasks, maxId) && (nextId == 0 || nextId <= maxId)
    case LocalCycle(path) => EndsInCycle(DepEdges(s.tasks), path)
    case _ => exists k :: k in s.tasks && TaskViolation(k, s.tasks[k], s.tasks.Keys, p)
  }

  // ----- the walk -----

  method CheckDependency(task: Task, dep: string, ids: set<nat>) returns (problems: seq<Problem>)
    ensures forall p :: p in problems <==> DepViolation(task, dep, ids, p)
  {
    LocalParsersAgree(dep);
    problems := [];
    var ref := ParseTaskURI(dep);
    if ref.None? {
      var localId := ParseLocalID(dep);
      if localId.None? {
        return [InvalidDependency(task.id, dep)];
      }
      ref := Some(TaskRef(LOCAL, localId.value));
    }
    if ref.value.alias == LOCAL && ref.value.id !in ids {
      problems := [MissingDependency(task.id, ref.value.id)];
    }
  }

  method CheckFields(key: nat, task: Task) returns (problems: seq<Problem>)
    ensures forall p :: p in problems <==> FieldViolation(key, task, p)
  {
    problems := [];
    if key != task.id {
      problems := problems + [WrongKey(key, task.id)];
    }
    if task.status > BLOCKED {
      problems := problems + [InvalidStatus(task.id, task.status)];
    }
    if !ValidPriority(task.priority) {
      problems := problems + [InvalidPriority(task.id)];
    }
    if task.status == IN_PROGRESS {
      if task.owner == "" || task.leaseExpires == 0 {
        problems := problems + [IncompleteLease(task.id)];
      }
    } else if task.owner != "" || task.leaseExpires != 0 {
      problems := problems + [StrayOwnership(task.id)];
    }
    if task.status == COMPLETED && task.completed == 0 {
      problems := problems + [MissingCompletionTime(task.id)];
    }
    if task.status != COMPLETED && task.completed != 0 {
      problems := problems + [StrayCompletionTime(task.id)];
    }
  }

  method CheckTask(key: nat, task: Task, ids: set<nat>) returns (problems: seq<Problem>)
    ensures forall p :: p in problems <==> TaskViolation(key, task, ids, p)
  {
    problems := CheckFields(key, task);
    for i := 0 to |task.depends|
      invariant forall p :: p in problems <==>
        FieldViolation(key, task, p) || exists d :: d in task.depends[..i] && DepViolation(task, d, ids, p)
    {
      assert task.depends[..i + 1] == task.depends[..i] + [task.depends[i]];
      var more := CheckDependency(task, task.depends[i], ids);
      problems := problems + more;
    }
    assert task.depends[..|task.depends|] == task.depends;
  }

  /** An entry of the task map is a task, or nil at the keys in `nils`. */
  ghost predicate EntryViolation(tasks: map<nat, Task>, nils: set<nat>, key: nat, p: Problem) {
    if key in tasks then TaskViolation(key, tasks[key], tasks.Keys + nils, p) else key in nils && p == NilEntry(key)
  }

  method CheckTasks(tasks: map<nat, Task>, nils: set<nat>) returns (problems: seq<Problem>, maxId: nat)
    requires tasks.Keys !! nils
    ensures forall p :: p in problems <==> exists k :: EntryViolation(tasks, nils, k, p)
    ensures IsMaxId(tasks, maxId)
  {
    problems, maxId := [], 0;
    var ids := tasks.Keys + nils;
    var remaining := ids;
    while remaining != {}
      invariant remaining <= ids
      invariant forall p :: p in problems <==> exists k :: k !in remaining && EntryViolation(tasks, nils, k, p)
      invariant forall k :: k in tasks && k !in remaining ==> tasks[k].id <= maxId
      invariant maxId == 0 || exists k :: k in tasks && tasks[k].id == maxId
    {
      var key :| key in remaining;
      remaining := remaining - {key};
      if key in nils {
        problems := problems + [NilEntry(key)];
      } else {
        var more := CheckTask(key, tasks[key], ids);
        problems := problems + more;
        if tasks[key].id > maxId {
          maxId := tasks[key].id;
        }
      }
    }
  }

  lemma MaxIdUnique(tasks: map<nat, Task>, a: nat, b: nat)
    requires IsMaxId(tasks, a) && IsMaxId(tasks, b)
    ensures a == b
  {
  }

  /**
   * The report: every violation of the invariant (of a cyclic graph, one real cycle), and nothing
   * else. A nil entry is noticed by the walk, but building the graph then stops the program, so
   * there is a report exactly when there is no such entry.
   */
  method StoreInvariantProblems(s: StoreState, nils: set<nat>) returns (report: Option<seq<Problem>>)
    requires s.tasks.Keys !! nils
    ensures report.Some? <==> nils == {}
    ensures report.Some? ==>
      && (forall p :: p in report.value ==> IsViolation(s, p))
      && (forall p :: IsViolation(s, p) && !p.LocalCycle? ==> p in report.value)
      && (report.value == [] <==> Sound(s))
  {
    hide TaskViolation, EntryViolation, IsMaxId, EndsInCycle, TasksSound, DepEdges;
    var problems, maxId := CheckTasks(s.tasks, nils);
    ghost var taskProblems := problems;
    if s.nextId == 0 || s.nextId <= maxId {
      problems := problems + [NextIdTooLow(s.nextId, maxId)];
    }
    if nils != {} {
      return None;
    }
    EntriesAreTasks(s.tasks, taskProblems);
    var graph := new DAG();
    graph.BuildFromTasks(s.tasks);
    var cycle := graph.DetectCycle([], 0);
    assert graph.EdgeSet() + ProposedEdges([], 0) == DepEdges(s.tasks);
    if cycle.Some? {
      problems := problems + [LocalCycle(cycle.value)];
    }
    SoundWhenNoTaskProblem(s.tasks, taskProblems);
    forall other | IsMaxId(s.tasks, other) ensures other == maxId {
      MaxIdUnique(s.tasks, other, maxId);
    }
    return Some(problems);
  }

  lemma EntriesAreTasks(tasks: map<nat, Task>, problems: seq<Problem>)
    requires forall p :: p in problems <==> exists k :: EntryViolation(tasks, {}, k, p)
    ensures forall p :: p in problems <==> exists k :: k in tasks && TaskViolation(k, tasks[k], tasks.Keys, p)
    ensures forall p :: p in problems ==> !p.NextIdTooLow? && !p.LocalCycle?
  {
    assert tasks.Keys + {} == tasks.Keys;
    forall p ensures p in problems <==> exists k :: k in tasks && TaskViolation(k, tasks[k], tasks.Keys, p) {
      if k :| k in tasks && TaskViolation(k, tasks[k], tasks.Keys, p) {
        assert EntryViolation(tasks, {}, k, p);
      }
    }
  }

  /** A task has no violation exactly when it is sound. */
  lemma TaskSoundIff(key: nat, t: Task, ids: set<nat>)
    ensures (forall p :: !TaskViolation(key, t, ids, p)) <==>
            t.id == key && LifecycleSound(t) && DepsSound(t.depends, ids)
  {
    if t.id == key && LifecycleSound(t) && DepsSound(t.depends, ids) {
      assert forall d :: d in t.depends ==> DepSound(d, ids);
    } else if t.id == key && LifecycleSound(t) {
      var d :| d in t.depends && !DepSound(d, ids);
      var p := if Denotation(d).None? then InvalidDependency(t.id, d)
               else MissingDependency(t.id, Denotation(d).value.id);
      assert DepViolation(t, d, ids, p) && TaskViolation(key, t, ids, p);
    } else {
      var p :=
        if t.id != key then WrongKey(key, t.id)
        else if t.status > BLOCKED then InvalidStatus(t.id, t.status)
        else if !ValidPriority(t.priority) then InvalidPriority(t.id)
        else if t.status == COMPLETED && t.completed == 0 then MissingCompletionTime(t.id)
        else if t.status != COMPLETED && t.completed != 0 then StrayCompletionTime(t.id)
        else if t.status == IN_PROGRESS then IncompleteLease(t.id)
        else StrayOwnership(t.id);
      assert FieldViolation(key, t, p) && TaskViolation(key, t, ids, p);
    }
  }

  lemma SoundWhenNoTaskProblem(tasks: map<nat, Task>, problems: seq<Problem>)
    requires forall p :: p in problems <==> exists k :: k in tasks && TaskViolation(k, tasks[k], tasks.Keys, p)
    ensures problems == [] <==> TasksSound(tasks)
  {
    if problems == [] {
      forall k | k in tasks
        ensures tasks[k].id == k && LifecycleSound(tasks[k]) && DepsSound(tasks[k].depends, tasks.Keys)
      {
        forall p ensures !TaskViolation(k, tasks[k], tasks.Keys, p) {
          assert p !in problems;
        }
        TaskSoundIff(k, tasks[k], tasks.Keys);
      }
    } else {
      assert problems[0] in problems;
      var k :| k in tasks && TaskViolation(k, tasks[k], tasks.Keys, problems[0]);
      TaskSoundIff(k, tasks[k], tasks.Keys);
    }
  }
}
