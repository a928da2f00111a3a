/** Why an allocation found no work: the queue counted by kind, and the one reason reported. */
module Diagnosis {
  import opened Wrappers
  import opened Orders
  import opened TaskReference
  import opened StoreModel
  import opened Readiness
  import opened Transitions
  import opened Allocation

  datatype Reason =
    | WorkReady | WorkerAtCapacity | DependenciesIncomplete | CapabilitiesUnavailable
    | WorkOwnedByOthers | WorkInProgress | NoPendingWork

  /** What the walk over all tasks counts. */
  datatype Counter =
    | Pending | DependencyBlocked | RetriedPending | InProgress | Blocked | Completed | OwnedByActor | OwnedByOthers

  datatype Tally = Tally(pending: nat, dependencyBlocked: nat, retriedPending: nat, inProgress: nat, blocked: nat,
                         completed: nat, ownedByActor: nat, ownedByOthers: nat)
  {
    function At(c: Counter): nat {
      match c
      case Pending => pending
      case DependencyBlocked => dependencyBlocked
      case RetriedPending => retriedPending
      case InProgress => inProgress
      case Blocked => blocked
      case Completed => completed
      case OwnedByActor => ownedByActor
      case OwnedByOthers => ownedByOthers
    }
  }

  const NOTHING := Tally(0, 0, 0, 0, 0, 0, 0, 0)

  const MAX_DIAGNOSTIC_ITEMS := 20

  /** How a long value is shortened for display. */
  type Shortening = string -> string

  /** Values as reported: the first few in sorted order, how many there are, and whether anything is missing. */
  datatype BoundedValues = BoundedValues(listed: seq<string>, total: nat, truncated: bool)

  datatype WorkerLoad = WorkerLoad(currentLoad: nat, maxLoad: int, owned: nat, ownedByOthers: nat)

  datatype Diagnostics = Diagnostics(
    reason: Reason, requestedCapabilities: BoundedValues, ready: nat, compatibleReady: nat, capabilityMismatch: nat,
    queue: Tally, worker: Option<WorkerLoad>, dependencyBlockers: BoundedValues, missingCapabilities: BoundedValues)

  /** Which tasks a counter is about. */
  predicate Counts(c: Counter, t: Task, tasks: map<nat, Task>, resolver: Resolver, actor: string) {
    match c
    case Pending => t.status == PENDING
    case DependencyBlocked => t.status == PENDING && !DependenciesComplete(t, tasks, resolver)
    case RetriedPending => t.status == PENDING && t.retryCount > 0
    case InProgress => t.status == IN_PROGRESS
    case Blocked => t.status == BLOCKED
    case Completed => t.status == COMPLETED
    case OwnedByActor => t.status == IN_PROGRESS && actor != "" && t.owner == actor
    case OwnedByOthers => t.status == IN_PROGRESS && !(actor != "" && t.owner == actor)
  }

  ghost function CountedIds(c: Counter, tasks: map<nat, Task>, resolver: Resolver, actor: string): set<nat> {
    set k | k in tasks && Counts(c, tasks[k], tasks, resolver, actor)
  }

  lemma CountOneMore(c: Counter, tasks: map<nat, Task>, resolver: Resolver, actor: string, remaining: set<nat>, k: nat)
    requires k in tasks && k in remaining
    ensures |CountedIds(c, tasks, resolver, actor) - (remaining - {k})| ==
            |CountedIds(c, tasks, resolver, actor) - remaining|
            + (if Counts(c, tasks[k], tasks, resolver, actor) then 1 else 0)
  {
    var ids := CountedIds(c, tasks, resolver, actor);
    if Counts(c, tasks[k], tasks, resolver, actor) {
      assert ids - (remaining - {k}) == ids - remaining + {k};
    } else {
      assert ids - (remaining - {k}) == ids - remaining;
    }
  }

  /** One task added to the tally. */
  method CountTask(queue: Tally, task: Task, tasks: map<nat, Task>, resolver: Resolver, actor: string)
    returns (q: Tally)
    ensures forall c :: q.At(c) == queue.At(c) + (if Counts(c, task, tasks, resolver, actor) then 1 else 0)
  {
    q := queue;
    if task.status == PENDING {
      q := q.(pending := q.pending + 1);
      if !DependenciesComplete(task, tasks, resolver) {
        q := q.(dependencyBlocked := q.dependencyBlocked + 1);
      }
      if task.retryCount > 0 {
        q := q.(retriedPending := q.retriedPending + 1);
      }
    } else if task.status == IN_PROGRESS {
      q := q.(inProgress := q.inProgress + 1);
      if actor != "" && task.owner == actor {
        q := q.(ownedByActor := q.ownedByActor + 1);
      } else {
        q := q.(ownedByOthers := q.ownedByOthers + 1);
      }
    } else if task.status == BLOCKED {
      q := q.(blocked := q.blocked + 1);
    } else if task.status == COMPLETED {
      q := q.(completed := q.completed + 1);
    }
  }

  method TallyTasks(tasks: map<nat, Task>, resolver: Resolver, actor: string) returns (queue: Tally)
    ensures forall c :: queue.At(c) == |CountedIds(c, tasks, resolver, actor)|
  {
    queue := NOTHING;
    var remaining := tasks.Keys;
    forall c ensures CountedIds(c, tasks, resolver, actor) - remaining == {} {}
    while remaining != {}
      invariant remaining <= tasks.Keys
      invariant forall c :: queue.At(c) == |CountedIds(c, tasks, resolver, actor) - remaining|
    {
      var key :| key in remaining;
      forall c {
        CountOneMore(c, tasks, resolver, actor, remaining, key);
      }
      queue := CountTask(queue, tasks[key], tasks, resolver, actor);
      remaining := remaining - {key};
    }
    forall c ensures CountedIds(c, tasks, resolver, actor) - remaining == CountedIds(c, tasks, resolver, actor) {}
  }

  // ----- what holds the queue up -----

  function BlockersOf(t: Task, tasks: map<nat, Task>, resolver: Resolver): set<string> {
    if t.status == PENDING then set d | d in t.depends && !DependencyMet(d, tasks, resolver) else {}
  }

  /** The unmet dependencies of the pending tasks. */
  ghost function Blockers(tasks: map<nat, Task>, resolver: Resolver, ids: set<nat>): set<string> {
    set k, d | k in ids && k in tasks && d in BlockersOf(tasks[k], tasks, resolver) :: d
  }

  method CollectBlockers(tasks: map<nat, Task>, resolver: Resolver) returns (blockers: set<string>)
    ensures blockers == Blockers(tasks, resolver, tasks.Keys)
  {
    blockers := {};
    var remaining := tasks.Keys;
    ghost var walked: set<nat> := {};
    while remaining != {}
      invariant remaining <= tasks.Keys && walked == tasks.Keys - remaining
      invariant blockers == Blockers(tasks, resolver, walked)
    {
      var key :| key in remaining;
      remaining := remaining - {key};
      var task := tasks[key];
      ghost var before := blockers;
      if task.status == PENDING && !DependenciesComplete(task, tasks, resolver) {
        for i := 0 to |task.depends|
          invariant forall d :: d in blockers <==>
                    d in before || (d in task.depends[..i] && !DependencyMet(d, tasks, resolver))
        {
          assert task.depends[..i + 1] == task.depends[..i] + [task.depends[i]];
          if !DependencyMet(task.depends[i], tasks, resolver) {
            blockers := blockers + {task.depends[i]};
          }
        }
        assert task.depends[..|task.depends|] == task.depends;
      }
      walked := walked + {key};
      assert blockers == before + BlockersOf(task, tasks, resolver);
    }
  }

  /** The capabilities that incompatible ready tasks ask for and the worker lacks. */
  ghost function Missing(tasks: map<nat, Task>, resolver: Resolver, capabilities: seq<string>): set<string> {
    set k, c | k in ReadyIds(tasks, resolver) && c in tasks[k].capabilities && c !in capabilities :: c
  }

  method CollectMissing(ready: seq<Task>, capabilities: seq<string>) returns (missing: set<string>)
    ensures missing == set t, c | t in ready && c in t.capabilities && c !in capabilities :: c
  {
    missing := {};
    for i := 0 to |ready|
      invariant forall c :: c in missing <==> exists t :: t in ready[..i] && c in t.capabilities && c !in capabilities
    {
      assert ready[..i + 1] == ready[..i] + [ready[i]];
      var lacking := ready[i].capabilities;
      ghost var before := missing;
      if !MatchesCapabilities(lacking, capabilities) {
        for j := 0 to |lacking|
          invariant forall c :: c in missing <==> c in before || (c in lacking[..j] && c !in capabilities)
        {
          assert lacking[..j + 1] == lacking[..j] + [lacking[j]];
          if lacking[j] !in capabilities {
            missing := missing + {lacking[j]};
          }
        }
        assert lacking[..|lacking|] == lacking;
      }
    }
    assert ready[..|ready|] == ready;
  }

  // ----- values as reported -----

  /** The values there is room for: the first in sorted order. */
  ghost function Shown(values: set<string>): seq<string> {
    var sorted := SortedStrings(values);
    if |sorted| > MAX_DIAGNOSTIC_ITEMS then sorted[..MAX_DIAGNOSTIC_ITEMS] else sorted
  }

  ghost predicate Shortens(shown: seq<string>, shorten: Shortening) {
    exists i :: 0 <= i < |shown| && shorten(shown[i]) != shown[i]
  }

  /** The shown values, each shortened; truncated when one was left off or came out shorter. */
  ghost predicate Reports(b: BoundedValues, values: set<string>, shorten: Shortening) {
    && b.total == |values| && |b.listed| == |Shown(values)|
    && (forall i :: 0 <= i < |b.listed| ==> b.listed[i] == shorten(Shown(values)[i]))
    && (b.truncated <==> |values| > MAX_DIAGNOSTIC_ITEMS || Shortens(Shown(values), shorten))
  }

  method ShortenAll(shown: seq<string>, shorten: Shortening) returns (listed: seq<string>, shortened: bool)
    ensures |listed| == |shown| && forall i :: 0 <= i < |shown| ==> listed[i] == shorten(shown[i])
    ensures shortened <==> Shortens(shown, shorten)
  {
    listed, shortened := [], false;
    for i := 0 to |shown|
      invariant |listed| == i && forall j :: 0 <= j < i ==> listed[j] == shorten(shown[j])
      invariant shortened <==> exists j :: 0 <= j < i && shorten(shown[j]) != shown[j]
    {
      var compact := shorten(shown[i]);
      if compact != shown[i] {
        shortened := true;
      }
      listed := listed + [compact];
    }
  }

  method BoundValues(values: set<string>, shorten: Shortening) returns (b: BoundedValues)
    ensures Reports(b, values, shorten)
  {
    var sorted := SortedMembers(values);
    StringOrderTotal(values);
    ListingLength(sorted, values, StringLess);
    var total := |sorted|;
    var truncated := total > MAX_DIAGNOSTIC_ITEMS;
    if truncated {
      sorted := sorted[..MAX_DIAGNOSTIC_ITEMS];
    }
    var listed, shortened := ShortenAll(sorted, shorten);
    b := BoundedValues(listed, total, truncated || shortened);
  }

  // ----- the reason -----

  /** The reasons in the order they are tried. */
  function ReasonFor(atCapacity: bool, compatibleReady: nat, ready: nat, queue: Tally, actor: string): Reason {
    if atCapacity then WorkerAtCapacity
    else if compatibleReady > 0 then WorkReady
    else if queue.pending > 0 && ready == 0 then DependenciesIncomplete
    else if queue.pending > 0 then CapabilitiesUnavailable
    else if actor != "" && queue.ownedByOthers > 0 then WorkOwnedByOthers
    else if actor == "" && queue.inProgress > 0 then WorkInProgress
    else NoPendingWork
  }

  /** The three lists of a diagnosis: what was asked for, what holds the queue up, and what the worker lacks. */
  ghost predicate ReportsAll(requested: BoundedValues, blockers: BoundedValues, missing: BoundedValues,
                             tasks: map<nat, Task>, resolver: Resolver, capabilities: seq<string>, filter: bool,
                             shorten: Shortening)
  {
    && Reports(requested, (set c | c in capabilities), shorten)
    && Reports(blockers, Blockers(tasks, resolver, tasks.Keys), shorten)
    && Reports(missing, if filter then Missing(tasks, resolver, capabilities) else {}, shorten)
  }

  method ReportLists(tasks: map<nat, Task>, resolver: Resolver, capabilities: seq<string>, filter: bool,
                     ready: seq<Task>, shorten: Shortening)
    returns (requested: BoundedValues, blockers: BoundedValues, missing: BoundedValues)
    requires Elements(ready) == TasksAt(tasks, ReadyIds(tasks, resolver))
    ensures ReportsAll(requested, blockers, missing, tasks, resolver, capabilities, filter, shorten)
  {
    requested := BoundValues((set c | c in capabilities), shorten);
    var missingCapabilities: set<string> := {};
    if filter {
      missingCapabilities := CollectMissing(ready, capabilities);
      ReadyListMissing(tasks, resolver, capabilities, ready);
    }
    var dependencyBlockers := CollectBlockers(tasks, resolver);
    blockers := BoundValues(dependencyBlockers, shorten);
    missing := BoundValues(missingCapabilities, shorten);
  }

  /** What a diagnosis of this queue for this worker has to say. */
  ghost predicate Diagnoses(d: Diagnostics, tasks: map<nat, Task>, resolver: Resolver, actor: string,
                            capabilities: seq<string>, filter: bool, maxLoad: int, shorten: Shortening)
  {
    && d.ready == |ReadyIds(tasks, resolver)|
    && d.compatibleReady == |Candidates(tasks, resolver, capabilities, filter)|
    && d.capabilityMismatch == d.ready - d.compatibleReady
    && (forall c :: d.queue.At(c) == |CountedIds(c, tasks, resolver, actor)|)
    && d.worker == (if actor == "" then None
                    else Some(WorkerLoad(|OwnedIds(tasks, actor)|, maxLoad, |OwnedIds(tasks, actor)|,
                                         d.queue.ownedByOthers)))
    && ReportsAll(d.requestedCapabilities, d.dependencyBlockers, d.missingCapabilities, tasks, resolver, capabilities,
                  filter, shorten)
    && d.reason == ReasonFor(AtCapacity(tasks, actor, maxLoad), d.compatibleReady, d.ready, d.queue, actor)
  }

  lemma CandidatesWithinReady(tasks: map<nat, Task>, resolver: Resolver, capabilities: seq<string>, filter: bool)
    ensures Candidates(tasks, resolver, capabilities, filter) <= ReadyIds(tasks, resolver) <= tasks.Keys
    ensures |Candidates(tasks, resolver, capabilities, filter)| <= |ReadyIds(tasks, resolver)|
    ensures !filter ==> Candidates(tasks, resolver, capabilities, filter) == ReadyIds(tasks, resolver)
  {
    PartOf(Candidates(tasks, resolver, capabilities, filter), ReadyIds(tasks, resolver));
  }

  method DiagnoseAllocation(tasks: map<nat, Task>, resolver: Resolver, actor: string, capabilities: seq<string>,
                            filter: bool, maxLoad: int, shorten: Shortening) returns (d: Diagnostics)
    requires KeyedById(tasks)
    ensures Diagnoses(d, tasks, resolver, actor, capabilities, filter, maxLoad, shorten)
  {
    hide ReportsAll, ReadyIds, CountedIds, OwnedIds, IsListing, Candidates;
    var ready := RankedReadyTasks(tasks, resolver, capabilities, false);
    CandidatesWithinReady(tasks, resolver, capabilities, false);
    var compatibleReady := ready;
    if filter {
      compatibleReady := RankedReadyTasks(tasks, resolver, capabilities, true);
    }
    CandidatesWithinReady(tasks, resolver, capabilities, filter);
    var requested, blockers, missing := ReportLists(tasks, resolver, capabilities, filter, ready, shorten);
    var queue := TallyTasks(tasks, resolver, actor);
    OwnedCounted(queue, tasks, resolver, actor);
    var worker := None;
    if actor != "" {
      worker := Some(WorkerLoad(queue.ownedByActor, maxLoad, queue.ownedByActor, queue.ownedByOthers));
    }
    var atCapacity := actor != "" && maxLoad > 0 && queue.ownedByActor >= maxLoad;
    var reason := ReasonFor(atCapacity, |compatibleReady|, |ready|, queue, actor);
    d := Diagnostics(reason, requested, |ready|, |compatibleReady|, |ready| - |compatibleReady|, queue, worker,
                     blockers, missing);
  }

  lemma OwnedCounted(queue: Tally, tasks: map<nat, Task>, resolver: Resolver, actor: string)
    requires queue.At(OwnedByActor) == |CountedIds(OwnedByActor, tasks, resolver, actor)|
    ensures queue.ownedByActor == |OwnedIds(tasks, actor)|
  {
    assert CountedIds(OwnedByActor, tasks, resolver, actor) == OwnedIds(tasks, actor);
  }

  lemma ReadyListMissing(tasks: map<nat, Task>, resolver: Resolver, capabilities: seq<string>, ready: seq<Task>)
    requires Elements(ready) == TasksAt(tasks, ReadyIds(tasks, resolver))
    ensures (set t, c | t in ready && c in t.capabilities && c !in capabilities :: c) ==
            Missing(tasks, resolver, capabilities)
  {
    assert forall t :: t in ready <==> t in Elements(ready);
    forall k | k in ReadyIds(tasks, resolver) ensures tasks[k] in ready {
      assert tasks[k] in TasksAt(tasks, ReadyIds(tasks, resolver));
    }
  }

  // ----- what the reason and the lists mean -----

  predicate IsPending(tasks: map<nat, Task>, k: nat) {
    k in tasks && tasks[k].status == PENDING
  }

  predicate IsActive(tasks: map<nat, Task>, k: nat) {
    k in tasks && tasks[k].status == IN_PROGRESS
  }

  ghost predicate CanStart(tasks: map<nat, Task>, k: nat, resolver: Resolver) {
    IsPending(tasks, k) && PrereqsMet(tasks[k].depends, tasks, resolver)
  }

  ghost predicate CanTake(tasks: map<nat, Task>, k: nat, resolver: Resolver, capabilities: seq<string>, filter: bool) {
    CanStart(tasks, k, resolver) && (filter ==> forall c :: c in tasks[k].capabilities ==> c in capabilities)
  }

  ghost predicate HasNoRoom(tasks: map<nat, Task>, actor: string, maxLoad: int) {
    actor != "" && maxLoad > 0 && |set k | k in tasks && IsActive(tasks, k) && tasks[k].owner == actor| >= maxLoad
  }

  /** What must be so for each reason; no two can be so at once, and one always is. */
  ghost predicate Because(reason: Reason, tasks: map<nat, Task>, resolver: Resolver, actor: string,
                          capabilities: seq<string>, filter: bool)
  {
    match reason
    case WorkReady => exists k :: CanTake(tasks, k, resolver, capabilities, filter)
    case DependenciesIncomplete => (exists k :: IsPending(tasks, k)) && forall k :: !CanStart(tasks, k, resolver)
    case CapabilitiesUnavailable =>
      && (exists k :: CanStart(tasks, k, resolver))
      && forall k :: !CanTake(tasks, k, resolver, capabilities, filter)
    case WorkOwnedByOthers =>
      && (forall k :: !IsPending(tasks, k))
      && actor != "" && exists k :: IsActive(tasks, k) && tasks[k].owner != actor
    case WorkInProgress => (forall k :: !IsPending(tasks, k)) && actor == "" && exists k :: IsActive(tasks, k)
    case NoPendingWork =>
      (forall k :: !IsPending(tasks, k)) && forall k :: IsActive(tasks, k) ==> actor != "" && tasks[k].owner == actor
    case WorkerAtCapacity => false
  }

  lemma CanTakeIff(tasks: map<nat, Task>, k: nat, resolver: Resolver, capabilities: seq<string>, filter: bool)
    ensures k in ReadyIds(tasks, resolver) <==> CanStart(tasks, k, resolver)
    ensures k in Candidates(tasks, resolver, capabilities, filter) <==>
            CanTake(tasks, k, resolver, capabilities, filter)
  {
    hide DependenciesComplete, PrereqsMet;
    if k in tasks {
      CompleteIffPrereqsMet(tasks[k], tasks, resolver);
    }
  }

  lemma NoRoomIff(tasks: map<nat, Task>, actor: string, maxLoad: int)
    ensures AtCapacity(tasks, actor, maxLoad) <==> HasNoRoom(tasks, actor, maxLoad)
  {
    assert actor != "" ==>
        OwnedIds(tasks, actor) == set k | k in tasks && IsActive(tasks, k) && tasks[k].owner == actor;
  }

  /** The reason is the worker's capacity exactly when that is exhausted, and otherwise the one that is so. */
  lemma ReasonIff(d: Diagnostics, tasks: map<nat, Task>, resolver: Resolver, actor: string, capabilities: seq<string>,
                  filter: bool, maxLoad: int, shorten: Shortening, reason: Reason)
    requires Diagnoses(d, tasks, resolver, actor, capabilities, filter, maxLoad, shorten)
    ensures d.reason == reason <==>
            if HasNoRoom(tasks, actor, maxLoad) then reason == WorkerAtCapacity
            else Because(reason, tasks, resolver, actor, capabilities, filter)
  {
    hide ReportsAll, ReadyIds, Candidates, CanStart, CanTake, HasNoRoom, AtCapacity, OwnedIds;
    NoRoomIff(tasks, actor, maxLoad);
    forall k
      ensures k in ReadyIds(tasks, resolver) <==> CanStart(tasks, k, resolver)
      ensures k in Candidates(tasks, resolver, capabilities, filter) <==>
              CanTake(tasks, k, resolver, capabilities, filter)
    {
      CanTakeIff(tasks, k, resolver, capabilities, filter);
    }
    SomeCounted(d, tasks, resolver, actor);
    ReadyArePending(tasks, resolver, capabilities, filter);
  }

  lemma SomeCounted(d: Diagnostics, tasks: map<nat, Task>, resolver: Resolver, actor: string)
    requires forall c :: d.queue.At(c) == |CountedIds(c, tasks, resolver, actor)|
    ensures d.queue.pending > 0 <==> exists k :: IsPending(tasks, k)
    ensures d.queue.inProgress > 0 <==> exists k :: IsActive(tasks, k)
    ensures actor != "" ==> (d.queue.ownedByOthers > 0 <==> exists k :: IsActive(tasks, k) && tasks[k].owner != actor)
  {
    assert d.queue.At(Pending) == d.queue.pending && d.queue.At(InProgress) == d.queue.inProgress;
    assert d.queue.At(OwnedByOthers) == d.queue.ownedByOthers;
    SomeMember(CountedIds(Pending, tasks, resolver, actor));
    SomeMember(CountedIds(InProgress, tasks, resolver, actor));
    SomeMember(CountedIds(OwnedByOthers, tasks, resolver, actor));
    forall k
      ensures k in CountedIds(Pending, tasks, resolver, actor) <==> IsPending(tasks, k)
      ensures k in CountedIds(InProgress, tasks, resolver, actor) <==> IsActive(tasks, k)
      ensures actor != "" ==>
        (k in CountedIds(OwnedByOthers, tasks, resolver, actor) <==> IsActive(tasks, k) && tasks[k].owner != actor)
    {
    }
  }

  lemma SomeMember(s: set<nat>)
    ensures |s| > 0 <==> exists k :: k in s
  {
    if |s| > 0 {
      var k :| k in s;
    }
  }

  lemma ReadyArePending(tasks: map<nat, Task>, resolver: Resolver, capabilities: seq<string>, filter: bool)
    ensures forall k :: CanTake(tasks, k, resolver, capabilities, filter) ==> CanStart(tasks, k, resolver)
    ensures forall k :: CanStart(tasks, k, resolver) ==> IsPending(tasks, k)
    ensures |ReadyIds(tasks, resolver)| > 0 <==> exists k :: k in ReadyIds(tasks, resolver)
    ensures |Candidates(tasks, resolver, capabilities, filter)| > 0 <==>
            exists k :: k in Candidates(tasks, resolver, capabilities, filter)
  {
    SomeMember(ReadyIds(tasks, resolver));
    SomeMember(Candidates(tasks, resolver, capabilities, filter));
  }

  /** What is counted as pending after a failed attempt, and as blocked by hand. */
  lemma RetriedAndBlockedCounted(d: Diagnostics, tasks: map<nat, Task>, resolver: Resolver, actor: string,
                                 capabilities: seq<string>, filter: bool, maxLoad: int, shorten: Shortening)
    requires Diagnoses(d, tasks, resolver, actor, capabilities, filter, maxLoad, shorten)
    ensures d.queue.retriedPending == |set k | k in tasks && tasks[k].status == PENDING && tasks[k].retryCount > 0|
    ensures d.queue.blocked == |set k | k in tasks && tasks[k].status == BLOCKED|
  {
    hide ReportsAll;
    assert d.queue.At(RetriedPending) == d.queue.retriedPending && d.queue.At(Blocked) == d.queue.blocked;
    assert CountedIds(RetriedPending, tasks, resolver, actor) ==
           set k | k in tasks && tasks[k].status == PENDING && tasks[k].retryCount > 0;
    assert CountedIds(Blocked, tasks, resolver, actor) == set k | k in tasks && tasks[k].status == BLOCKED;
  }

  ghost function SmallerThan(values: set<string>, v: string): set<string> {
    set w | w in values && StringLess(w, v)
  }

  lemma {:induction false} ListedAtRank(xs: seq<string>, values: set<string>, i: nat)
    requires IsListing(xs, values, StringLess) && i < |xs|
    ensures xs[i] in values && |SmallerThan(values, xs[i])| == i
  {
    StringOrderTotal(values);
    assert forall v :: v in values <==> v in xs;
    assert SmallerThan(values, xs[i]) == Elements(xs[..i]) by {
      forall w ensures w in SmallerThan(values, xs[i]) <==> w in xs[..i] {
        if w in values {
          var j :| 0 <= j < |xs| && xs[j] == w;
          assert j < i ==> xs[..i][j] == w;
        }
        if w in xs[..i] {
          var j :| 0 <= j < i && xs[j] == w;
        }
      }
    }
    ListingLength(xs[..i], Elements(xs[..i]), StringLess);
  }

  /** The text is what display makes of the value that has exactly `rank` smaller ones beside it. */
  ghost predicate ShowsRank(text: string, values: set<string>, rank: nat, shorten: Shortening) {
    exists v :: v in values && |SmallerThan(values, v)| == rank && text == shorten(v)
  }

  /** A report lists, shortened, the values with the fewest smaller ones, up to 20 of them, and counts them all. */
  lemma ReportsSmallest(b: BoundedValues, values: set<string>, shorten: Shortening)
    requires Reports(b, values, shorten)
    ensures b.total == |values| && |b.listed| == (if |values| < 20 then |values| else 20)
    ensures forall i :: 0 <= i < |b.listed| ==> ShowsRank(b.listed[i], values, i, shorten)
    ensures !b.truncated ==> |b.listed| == |values|
  {
    hide SmallerThan, StringLess, ShowsRank;
    var sorted := SortedStrings(values);
    StringOrderTotal(values);
    ListingLength(sorted, values, StringLess);
    forall i | 0 <= i < |b.listed| ensures ShowsRank(b.listed[i], values, i, shorten) {
      assert b.listed[i] == shorten(sorted[i]);
      ListedShowsRank(sorted, values, i, shorten);
    }
  }

  lemma ListedShowsRank(xs: seq<string>, values: set<string>, i: nat, shorten: Shortening)
    requires IsListing(xs, values, StringLess) && i < |xs|
    ensures ShowsRank(shorten(xs[i]), values, i, shorten)
  {
    hide SmallerThan, StringLess;
    ListedAtRank(xs, values, i);
  }

  /** The blockers are the references for which some pending task still waits. */
  lemma BlockersMean(tasks: map<nat, Task>, resolver: Resolver, d: string)
    ensures d in Blockers(tasks, resolver, tasks.Keys) <==>
            && (exists k :: IsPending(tasks, k) && d in tasks[k].depends)
            && (if ParseLocalID(d).Some?
                then var a := ParseLocalID(d).value; a in tasks ==> tasks[a].status != COMPLETED
                else !resolver(d))
  {
    if k :| IsPending(tasks, k) && d in tasks[k].depends && !DependencyMet(d, tasks, resolver) {
      assert d in BlockersOf(tasks[k], tasks, resolver);
    }
  }

  // ----- what the numbers mean -----

  /** Every status is one of the four named ones. */
  ghost predicate StatusesNamed(tasks: map<nat, Task>) {
    forall k :: k in tasks ==> tasks[k].status <= BLOCKED
  }

  /**
   * The counts partition the tasks: pending work is ready or held up by dependencies, ready work
   * is compatible or mismatched, work in progress is the worker's or others'; and the four kinds
   * add up to all tasks exactly when no task has a status outside them.
   */
  lemma CountsPartition(d: Diagnostics, tasks: map<nat, Task>, resolver: Resolver, actor: string,
                        capabilities: seq<string>, filter: bool, maxLoad: int,
                        shorten: Shortening)
    requires Diagnoses(d, tasks, resolver, actor, capabilities, filter, maxLoad, shorten)
    ensures d.queue.pending == d.ready + d.queue.dependencyBlocked
    ensures d.ready == d.compatibleReady + d.capabilityMismatch
    ensures d.queue.inProgress == d.queue.ownedByActor + d.queue.ownedByOthers
    ensures d.queue.pending + d.queue.inProgress + d.queue.blocked + d.queue.completed == |tasks| <==>
            StatusesNamed(tasks)
  {
    hide ReportsAll;
    assert d.queue.At(Pending) == d.queue.pending && d.queue.At(DependencyBlocked) == d.queue.dependencyBlocked;
    assert d.queue.At(InProgress) == d.queue.inProgress && d.queue.At(Blocked) == d.queue.blocked;
    assert d.queue.At(Completed) == d.queue.completed;
    assert d.queue.At(OwnedByActor) == d.queue.ownedByActor && d.queue.At(OwnedByOthers) == d.queue.ownedByOthers;
    PendingSplits(tasks, resolver, actor);
    ActiveSplits(tasks, resolver, actor);
    StatusesSplit(tasks, resolver, actor);
  }

  lemma PendingSplits(tasks: map<nat, Task>, resolver: Resolver, actor: string)
    ensures |CountedIds(Pending, tasks, resolver, actor)| ==
            |ReadyIds(tasks, resolver)| + |CountedIds(DependencyBlocked, tasks, resolver, actor)|
  {
    var ready, held := ReadyIds(tasks, resolver), CountedIds(DependencyBlocked, tasks, resolver, actor);
    assert CountedIds(Pending, tasks, resolver, actor) == ready + held && ready !! held;
  }

  lemma ActiveSplits(tasks: map<nat, Task>, resolver: Resolver, actor: string)
    ensures |CountedIds(InProgress, tasks, resolver, actor)| ==
            |CountedIds(OwnedByActor, tasks, resolver, actor)| + |CountedIds(OwnedByOthers, tasks, resolver, actor)|
  {
    var own := CountedIds(OwnedByActor, tasks, resolver, actor);
    var other := CountedIds(OwnedByOthers, tasks, resolver, actor);
    assert CountedIds(InProgress, tasks, resolver, actor) == own + other && own !! other;
  }

  lemma StatusesSplit(tasks: map<nat, Task>, resolver: Resolver, actor: string)
    ensures |CountedIds(Pending, tasks, resolver, actor)| + |CountedIds(InProgress, tasks, resolver, actor)|
            + |CountedIds(Blocked, tasks, resolver, actor)| + |CountedIds(Completed, tasks, resolver, actor)| == |tasks|
            <==> StatusesNamed(tasks)
  {
    var pending, active := CountedIds(Pending, tasks, resolver, actor), CountedIds(InProgress, tasks, resolver, actor);
    var blocked, done := CountedIds(Blocked, tasks, resolver, actor), CountedIds(Completed, tasks, resolver, actor);
    var named := set k | k in tasks && tasks[k].status <= BLOCKED;
    KindsApart(tasks, resolver, actor);
    FourParts(pending, active, blocked, done, named);
    PartOf(named, tasks.Keys);
    assert named == tasks.Keys <==> StatusesNamed(tasks) by {
      assert forall k :: k in tasks ==> (k in named <==> tasks[k].status <= BLOCKED);
    }
  }

  lemma KindsApart(tasks: map<nat, Task>, resolver: Resolver, actor: string)
    ensures var pending := CountedIds(Pending, tasks, resolver, actor);
            var active := CountedIds(InProgress, tasks, resolver, actor);
            var blocked := CountedIds(Blocked, tasks, resolver, actor);
            var done := CountedIds(Completed, tasks, resolver, actor);
            && pending !! active && pending !! blocked && pending !! done
            && active !! blocked && active !! done && blocked !! done
            && forall k :: k in tasks && tasks[k].status <= BLOCKED <==>
               k in pending || k in active || k in blocked || k in done
  {
  }

  lemma FourParts(a: set<nat>, b: set<nat>, c: set<nat>, d: set<nat>, whole: set<nat>)
    requires a !! b && a !! c && a !! d && b !! c && b !! d && c !! d
    requires forall k :: k in whole <==> k in a || k in b || k in c || k in d
    ensures |whole| == |a| + |b| + |c| + |d|
  {
    assert (a + b) !! c && (a + b + c) !! d;
    assert whole == a + b + c + d;
  }

  lemma PartOf(a: set<nat>, b: set<nat>)
    requires a <= b
    ensures |a| <= |b| && (|a| == |b| <==> a == b)
  {
    assert b == a + (b - a);
  }
}
