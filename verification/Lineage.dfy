/** The descendants of a decomposed task, found by walking the lineage its children record. */
module Lineage {
  import opened Decimal
  import opened TaskReference
  import opened Digraph
  import opened Orders
  import opened StoreModel
  import opened Allocation
  import opened Unblocking
  import opened Transitions
  import opened Invariant
  import opened Soundness

  /** From a task to each task that names it as the one it was split from. */
  ghost function LineageEdges(tasks: map<nat, Task>, root: nat): Edges {
    set c, p | c in tasks && p in tasks.Keys + {root} && tasks[c].lineage == LocalUri(p) :: (p, c)
  }

  /** Everything that descends from the root, itself not counted even when the records go in a circle. */
  ghost function Descendants(tasks: map<nat, Task>, root: nat): set<nat> {
    set k | k in tasks && k != root && Reaches(LineageEdges(tasks, root), root, k)
  }

  // ----- grouping -----

  /** Each task listed under its lineage, once. */
  ghost predicate Groups(children: map<string, seq<Task>>, tasks: map<nat, Task>, ids: set<nat>) {
    && (forall l :: l in children ==> Distinct(children[l]))
    && (forall l, t :: l in children && t in children[l] ==>
        t.id in ids && t.id in tasks && tasks[t.id] == t && t.lineage == l)
    && (forall k :: k in ids && k in tasks ==> tasks[k].lineage in children && tasks[k] in children[tasks[k].lineage])
  }

  method GroupByLineage(tasks: map<nat, Task>) returns (children: map<string, seq<Task>>)
    requires KeyedById(tasks)
    ensures Groups(children, tasks, tasks.Keys)
  {
    children := map[];
    var remaining := tasks.Keys;
    while remaining != {}
      invariant remaining <= tasks.Keys
      invariant Groups(children, tasks, tasks.Keys - remaining)
    {
      var key :| key in remaining;
      var task := tasks[key];
      var siblings := if task.lineage in children then children[task.lineage] else [];
      assert task !in siblings;
      GroupsAdd(children, tasks, tasks.Keys - remaining, key, siblings);
      assert tasks.Keys - (remaining - {key}) == tasks.Keys - remaining + {key};
      remaining := remaining - {key};
      children := children[task.lineage := siblings + [task]];
    }
    assert tasks.Keys - remaining == tasks.Keys;
  }

  lemma GroupsAdd(children: map<string, seq<Task>>, tasks: map<nat, Task>, ids: set<nat>, key: nat, siblings: seq<Task>)
    requires KeyedById(tasks) && Groups(children, tasks, ids) && key in tasks && key !in ids
    requires siblings == if tasks[key].lineage in children then children[tasks[key].lineage] else []
    ensures Groups(children[tasks[key].lineage := siblings + [tasks[key]]], tasks, ids + {key})
  {
    assert tasks[key] !in siblings;
  }

  lemma SortedSiblings(siblings: seq<Task>, tasks: map<nat, Task>)
    requires Distinct(siblings) && forall t :: t in siblings ==> t.id in tasks && tasks[t.id] == t
    ensures IsListing(SortBy(siblings, TaskIdLess), Elements(siblings), TaskIdLess)
    ensures Distinct(SortBy(siblings, TaskIdLess))
    ensures forall t :: t in SortBy(siblings, TaskIdLess) <==> t in siblings
  {
    SortIsListing(siblings, TaskIdLess);
    ListingLength(SortBy(siblings, TaskIdLess), Elements(siblings), TaskIdLess);
    assert forall t :: t in SortBy(siblings, TaskIdLess) <==> t in Elements(SortBy(siblings, TaskIdLess));
  }

  method SortGroups(groups: map<string, seq<Task>>, tasks: map<nat, Task>) returns (children: map<string, seq<Task>>)
    requires Groups(groups, tasks, tasks.Keys)
    ensures Groups(children, tasks, tasks.Keys)
    ensures forall l :: l in children ==> Increasing(children[l], TaskIdLess)
  {
    children := groups;
    var remaining := groups.Keys;
    while remaining != {}
      invariant remaining <= groups.Keys && children.Keys == groups.Keys
      invariant forall l :: l in groups && l in remaining ==> children[l] == groups[l]
      invariant forall l :: l in groups && l !in remaining ==> children[l] == SortBy(groups[l], TaskIdLess)
    {
      var lineage :| lineage in remaining;
      remaining := remaining - {lineage};
      children := children[lineage := SortBy(children[lineage], TaskIdLess)];
    }
    SortedGroups(groups, children, tasks);
  }

  lemma {:induction false} SortedGroups(groups: map<string, seq<Task>>, children: map<string, seq<Task>>,
                                        tasks: map<nat, Task>)
    requires Groups(groups, tasks, tasks.Keys) && children.Keys == groups.Keys
    requires forall l :: l in groups ==> children[l] == SortBy(groups[l], TaskIdLess)
    ensures Groups(children, tasks, tasks.Keys)
    ensures forall l :: l in children ==> Increasing(children[l], TaskIdLess)
  {
    hide SortBy;
    forall l | l in groups
      ensures Distinct(children[l]) && Increasing(children[l], TaskIdLess)
      ensures forall t :: t in children[l] <==> t in groups[l]
    {
      SortedSiblings(groups[l], tasks);
    }
  }

  // ----- the depth-first listing -----

  ghost function ChildIds(tasks: map<nat, Task>, parent: nat): set<nat> {
    set k | k in tasks && tasks[k].lineage == LocalUri(parent)
  }

  lemma TaskIdOrder(tasks: map<nat, Task>, ids: set<nat>)
    requires KeyedById(tasks)
    ensures StrictTotalOn(TasksAt(tasks, ids), TaskIdLess)
  {
  }

  /** The children of a task by ascending ID. */
  ghost function SortedChildren(tasks: map<nat, Task>, parent: nat): (children: seq<Task>)
    requires KeyedById(tasks)
    ensures IsListing(children, TasksAt(tasks, ChildIds(tasks, parent)), TaskIdLess)
    ensures forall t :: t in children ==> t.id in tasks
  {
    TaskIdOrder(tasks, ChildIds(tasks, parent));
    var children := Listing(TasksAt(tasks, ChildIds(tasks, parent)), TaskIdLess);
    assert forall t :: t in children ==> t in Elements(children);
    children
  }

  lemma SortedChildrenAscend(tasks: map<nat, Task>, parent: nat, i: nat, j: nat)
    requires KeyedById(tasks) && i < j < |SortedChildren(tasks, parent)|
    ensures SortedChildren(tasks, parent)[i].id < SortedChildren(tasks, parent)[j].id
  {
    hide SortedChildren;
  }

  datatype Listed = Listed(visited: set<nat>, list: seq<Task>)

  /** Each sibling not met before, followed by everything below it in the same way, then the next sibling. */
  ghost function DepthFirst(tasks: map<nat, Task>, siblings: seq<Task>, visited: set<nat>): (d: Listed)
    requires KeyedById(tasks) && forall t :: t in siblings ==> t.id in tasks
    ensures visited <= d.visited
    decreases |tasks.Keys - visited|, |siblings|
  {
    if siblings == [] then Listed(visited, [])
    else
      var before := DepthFirst(tasks, siblings[..|siblings| - 1], visited);
      var child := siblings[|siblings| - 1];
      if child.id in before.visited then before
      else
        FewerLeft(tasks.Keys, visited, before.visited, child.id);
        var below := DepthFirst(tasks, SortedChildren(tasks, child.id), before.visited + {child.id});
        Listed(below.visited, before.list + [child] + below.list)
  }

  lemma FewerLeft(all: set<nat>, visited: set<nat>, more: set<nat>, id: nat)
    requires visited <= more && id in all && id !in more
    ensures |all - (more + {id})| < |all - visited|
  {
    var left := all - (more + {id});
    assert left < all - visited;
    assert all - visited == left + (all - visited - left);
    assert id in all - visited - left;
  }

  lemma DepthFirstNext(tasks: map<nat, Task>, siblings: seq<Task>, i: nat, visited: set<nat>)
    requires KeyedById(tasks) && i < |siblings| && forall t :: t in siblings ==> t.id in tasks
    ensures var before := DepthFirst(tasks, siblings[..i], visited);
            var after := DepthFirst(tasks, siblings[..i + 1], visited);
            var id := siblings[i].id;
            if id in before.visited then after == before
            else var below := DepthFirst(tasks, SortedChildren(tasks, id), before.visited + {id});
                 after == Listed(below.visited, before.list + [siblings[i]] + below.list)
  {
    var prefix := siblings[..i + 1];
    assert prefix[..|prefix| - 1] == siblings[..i] && prefix[|prefix| - 1] == siblings[i];
  }

  /** The group of a parent is the sorted listing of its children. */
  lemma GroupIsSorted(tasks: map<nat, Task>, children: map<string, seq<Task>>, parent: nat)
    requires KeyedById(tasks) && Groups(children, tasks, tasks.Keys)
    requires forall l :: l in children ==> Increasing(children[l], TaskIdLess)
    ensures var uri := LocalUri(parent);
            (if uri in children then children[uri] else []) == SortedChildren(tasks, parent)
  {
    var uri, ids := LocalUri(parent), ChildIds(tasks, parent);
    var list := if uri in children then children[uri] else [];
    forall t ensures t in list <==> t in TasksAt(tasks, ids) {
      if t in list {
        assert tasks[t.id] == t && t.id in ids;
      }
    }
    assert Elements(list) == TasksAt(tasks, ids);
    TaskIdOrder(tasks, ids);
    ListingUnique(list, SortedChildren(tasks, parent), TasksAt(tasks, ids), TaskIdLess);
  }

  // ----- what the listing holds -----

  ghost function Ids(list: seq<Task>): set<nat> {
    set t | t in list :: t.id
  }

  lemma IdsConcat(a: seq<Task>, b: seq<Task>)
    ensures Ids(a + b) == Ids(a) + Ids(b)
  {
    assert forall t :: t in a + b <==> t in a || t in b;
  }

  /** What was added below `from` is reached from there and has its own children in. */
  ghost predicate Walked(tasks: map<nat, Task>, root: nat, from: nat, before: set<nat>, visited: set<nat>) {
    && before <= visited
    && (forall n :: n in visited && n !in before ==> n in tasks && Reaches(LineageEdges(tasks, root), from, n))
    && (forall n: nat, c: nat :: n in visited && n !in before && (n, c) in LineageEdges(tasks, root) ==> c in visited)
  }

  lemma WalkedThen(tasks: map<nat, Task>, root: nat, from: nat, child: nat, before: set<nat>, mid: set<nat>,
                   visited: set<nat>)
    requires Walked(tasks, root, from, before, mid)
    requires (from, child) in LineageEdges(tasks, root) && child !in mid
    requires Walked(tasks, root, child, mid + {child}, visited)
    requires forall c: nat :: (child, c) in LineageEdges(tasks, root) ==> c in visited
    ensures Walked(tasks, root, from, before, visited)
  {
    var e := LineageEdges(tasks, root);
    forall n | n in visited && n !in mid ensures Reaches(e, from, n) {
      if n == child {
        ReachesSelf(e, from);
        ReachesNext(e, from, from, child);
      } else {
        var p :| IsWalk(e, p) && p[0] == child && p[|p| - 1] == n;
        assert IsWalk(e, [from] + p) && ([from] + p)[|p|] == n;
      }
    }
  }

  /** The task at `i` hangs directly under `from`, or under an earlier task of the list. */
  ghost predicate HasParentBefore(list: seq<Task>, i: nat, from: nat)
    requires i < |list|
  {
    list[i].lineage == LocalUri(from) || exists j :: 0 <= j < i && list[i].lineage == LocalUri(list[j].id)
  }

  /** Each task in the list was split from `from` or from one before it in the list. */
  ghost predicate ParentsFirst(list: seq<Task>, from: nat) {
    forall i :: 0 <= i < |list| ==> HasParentBefore(list, i, from)
  }

  lemma ParentInFirst(a: seq<Task>, c: seq<Task>, from: nat, i: nat)
    requires i < |a| && HasParentBefore(a, i, from)
    ensures HasParentBefore(a + c, i, from)
  {
    hide LocalUri;
    if j :| 0 <= j < i && a[i].lineage == LocalUri(a[j].id) {
      assert (a + c)[j] == a[j];
    }
  }

  lemma ParentInSecond(a: seq<Task>, child: Task, b: seq<Task>, from: nat, k: nat)
    requires k < |b| && HasParentBefore(b, k, child.id)
    ensures HasParentBefore(a + [child] + b, |a| + 1 + k, from)
  {
    hide LocalUri;
    var list := a + [child] + b;
    assert list[|a|] == child && list[|a| + 1 + k] == b[k];
    if j :| 0 <= j < k && b[k].lineage == LocalUri(b[j].id) {
      assert list[|a| + 1 + j] == b[j];
    }
  }

  lemma ChildHasParent(a: seq<Task>, child: Task, b: seq<Task>, from: nat)
    requires child.lineage == LocalUri(from)
    ensures HasParentBefore(a + [child] + b, |a|, from)
  {
    hide LocalUri;
    assert (a + [child] + b)[|a|] == child;
  }

  lemma ParentsFirstThen(a: seq<Task>, child: Task, b: seq<Task>, from: nat)
    requires ParentsFirst(a, from) && child.lineage == LocalUri(from) && ParentsFirst(b, child.id)
    ensures ParentsFirst(a + [child] + b, from)
  {
    hide LocalUri, HasParentBefore;
    var list := a + [child] + b;
    forall i | 0 <= i < |list| ensures HasParentBefore(list, i, from) {
      if i < |a| {
        assert list == a + ([child] + b);
        ParentInFirst(a, [child] + b, from, i);
      } else if i == |a| {
        ChildHasParent(a, child, b, from);
      } else {
        ParentInSecond(a, child, b, from, i - |a| - 1);
      }
    }
  }

  /** The IDs of a listing are the ones that became visited, each from one task. */
  ghost predicate ListsVisited(tasks: map<nat, Task>, list: seq<Task>, before: set<nat>, visited: set<nat>) {
    && (forall t :: t in list ==> t.id in tasks && tasks[t.id] == t)
    && Distinct(list) && Ids(list) == visited - before && before <= visited
  }

  lemma ListsVisitedThen(tasks: map<nat, Task>, a: seq<Task>, child: Task, b: seq<Task>, before: set<nat>,
                         mid: set<nat>, visited: set<nat>)
    requires ListsVisited(tasks, a, before, mid) && ListsVisited(tasks, b, mid + {child.id}, visited)
    requires child.id in tasks && tasks[child.id] == child && child.id !in mid
    ensures ListsVisited(tasks, a + [child] + b, before, visited)
  {
    IdsConcat(a, [child]);
    IdsConcat(a + [child], b);
    assert forall t :: t in a ==> t.id in Ids(a);
    assert forall t :: t in b ==> t.id in Ids(b);
  }

  ghost predicate AreChildren(siblings: seq<Task>, tasks: map<nat, Task>, parent: nat) {
    forall t :: t in siblings ==> t.id in tasks && tasks[t.id] == t && t.lineage == LocalUri(parent)
  }

  lemma SortedChildrenAre(tasks: map<nat, Task>, root: nat, parent: nat)
    requires KeyedById(tasks) && parent in tasks.Keys + {root}
    ensures AreChildren(SortedChildren(tasks, parent), tasks, parent)
    ensures forall c: nat :: (parent, c) in LineageEdges(tasks, root) ==> c in Ids(SortedChildren(tasks, parent))
  {
    var children, ids := SortedChildren(tasks, parent), ChildIds(tasks, parent);
    assert forall t :: t in children <==> t in TasksAt(tasks, ids);
    forall c: nat | (parent, c) in LineageEdges(tasks, root) ensures c in Ids(children) {
      assert LocalUriOf(tasks, c, parent);
      assert tasks[c] in TasksAt(tasks, ids);
    }
  }

  ghost predicate LocalUriOf(tasks: map<nat, Task>, c: nat, parent: nat) {
    c in tasks && tasks[c].lineage == LocalUri(parent) && c in ChildIds(tasks, parent)
  }

  lemma {:induction false} DepthFirstHolds(tasks: map<nat, Task>, root: nat, from: nat, siblings: seq<Task>,
                                           visited: set<nat>)
    requires KeyedById(tasks) && from in tasks.Keys + {root} && AreChildren(siblings, tasks, from)
    ensures var d := DepthFirst(tasks, siblings, visited);
            && Walked(tasks, root, from, visited, d.visited) && Ids(siblings) <= d.visited
            && ListsVisited(tasks, d.list, visited, d.visited) && ParentsFirst(d.list, from)
    decreases |tasks.Keys - visited|, |siblings|
  {
    if siblings != [] {
      var init, child := siblings[..|siblings| - 1], siblings[|siblings| - 1];
      assert siblings == init + [child];
      IdsConcat(init, [child]);
      DepthFirstHolds(tasks, root, from, init, visited);
      var before := DepthFirst(tasks, init, visited);
      if child.id !in before.visited {
        FewerLeft(tasks.Keys, visited, before.visited, child.id);
        var children := SortedChildren(tasks, child.id);
        SortedChildrenAre(tasks, root, child.id);
        DepthFirstHolds(tasks, root, child.id, children, before.visited + {child.id});
        var below := DepthFirst(tasks, children, before.visited + {child.id});
        WalkedThen(tasks, root, from, child.id, visited, before.visited, below.visited);
        ListsVisitedThen(tasks, before.list, child, below.list, visited, before.visited, below.visited);
        ParentsFirstThen(before.list, child, below.list, from);
      }
    }
  }

  /** The depth-first listing below a task holds exactly its descendants, each once, each after its parent. */
  lemma ListingHoldsDescendants(tasks: map<nat, Task>, root: nat)
    requires KeyedById(tasks)
    ensures var list := DepthFirst(tasks, SortedChildren(tasks, root), {root}).list;
            Distinct(list) && Elements(list) == TasksAt(tasks, Descendants(tasks, root)) && ParentsFirst(list, root)
  {
    hide DepthFirst;
    SortedChildrenAre(tasks, root, root);
    DepthFirstHolds(tasks, root, root, SortedChildren(tasks, root), {root});
    var d := DepthFirst(tasks, SortedChildren(tasks, root), {root});
    WalkFindsDescendants(tasks, root, d.visited, d.list);
  }

  lemma WalkFindsDescendants(tasks: map<nat, Task>, root: nat, visited: set<nat>, list: seq<Task>)
    requires KeyedById(tasks) && Walked(tasks, root, root, {root}, visited)
    requires forall c: nat :: (root, c) in LineageEdges(tasks, root) ==> c in visited
    requires ListsVisited(tasks, list, {root}, visited)
    ensures Elements(list) == TasksAt(tasks, Descendants(tasks, root))
  {
    var e := LineageEdges(tasks, root);
    forall k ensures k in visited - {root} <==> k in Descendants(tasks, root) {
      if k in Descendants(tasks, root) {
        var p :| IsWalk(e, p) && p[0] == root && p[|p| - 1] == k;
        ClosedHoldsReached(e, visited, p);
      }
    }
    forall t ensures t in list <==> t in TasksAt(tasks, Descendants(tasks, root)) {
      if t in list {
        assert t.id in Ids(list);
      }
      if k :| k in Descendants(tasks, root) && k in tasks && tasks[k] == t {
        assert k in Ids(list);
      }
    }
  }

  lemma ListedBelow(tasks: map<nat, Task>, root: nat, child: nat, visited: set<nat>)
    requires KeyedById(tasks) && child in tasks
    ensures var below := DepthFirst(tasks, SortedChildren(tasks, child), visited).list;
            forall t :: t in below ==> Reaches(LineageEdges(tasks, root), child, t.id)
  {
    hide DepthFirst, LineageEdges, ParentsFirst;
    SortedChildrenAre(tasks, root, child);
    DepthFirstHolds(tasks, root, child, SortedChildren(tasks, child), visited);
    var below := DepthFirst(tasks, SortedChildren(tasks, child), visited).list;
    forall t | t in below ensures Reaches(LineageEdges(tasks, root), child, t.id) {
      assert t.id in Ids(below);
    }
  }

  lemma {:induction false} ListingGrows(tasks: map<nat, Task>, siblings: seq<Task>, visited: set<nat>, i: nat)
    requires KeyedById(tasks) && i <= |siblings| && forall t :: t in siblings ==> t.id in tasks
    ensures DepthFirst(tasks, siblings[..i], visited).list <= DepthFirst(tasks, siblings, visited).list
    decreases |siblings|
  {
    hide DepthFirst;
    if i < |siblings| {
      var init := siblings[..|siblings| - 1];
      assert init[..i] == siblings[..i] && siblings[..|init| + 1] == siblings;
      ListingGrows(tasks, init, visited, i);
      DepthFirstNext(tasks, siblings, |init|, visited);
    } else {
      assert siblings[..i] == siblings;
    }
  }

  /**
   * The listing is in preorder: what is listed for the siblings before one comes first, then, if it
   * was not met before, that sibling, and after it only tasks that descend from it.
   */
  lemma ListedInPreorder(tasks: map<nat, Task>, root: nat, from: nat, siblings: seq<Task>, visited: set<nat>, i: nat)
    requires KeyedById(tasks) && from in tasks.Keys + {root} && AreChildren(siblings, tasks, from) && i < |siblings|
    ensures var before := DepthFirst(tasks, siblings[..i], visited);
            var upto, child := DepthFirst(tasks, siblings[..i + 1], visited).list, siblings[i];
            && before.list <= upto <= DepthFirst(tasks, siblings, visited).list
            && (child.id in before.visited ==> upto == before.list)
            && (child.id !in before.visited ==>
                  && |before.list| < |upto| && upto[|before.list|] == child
                  && forall j :: |before.list| < j < |upto| ==>
                       Reaches(LineageEdges(tasks, root), child.id, upto[j].id))
  {
    hide LineageEdges, DepthFirst;
    ListingGrows(tasks, siblings, visited, i + 1);
    DepthFirstNext(tasks, siblings, i, visited);
    var before := DepthFirst(tasks, siblings[..i], visited);
    if siblings[i].id !in before.visited {
      ListedBelow(tasks, root, siblings[i].id, before.visited + {siblings[i].id});
    }
  }

  // ----- the walk -----

  class LineageWalk {
    const tasks: map<nat, Task>
    const children: map<string, seq<Task>>
    var visited: set<nat>
    var result: seq<Task>

    constructor (tasks: map<nat, Task>, rootId: nat, children: map<string, seq<Task>>)
      requires KeyedById(tasks) && Groups(children, tasks, tasks.Keys)
      requires forall l :: l in children ==> Increasing(children[l], TaskIdLess)
      ensures this.tasks == tasks && Valid() && visited == {rootId} && result == []
    {
      this.tasks, this.children := tasks, children;
      visited, result := {rootId}, [];
    }

    ghost predicate Valid() reads this {
      && KeyedById(tasks) && Groups(children, tasks, tasks.Keys)
      && forall l :: l in children ==> Increasing(children[l], TaskIdLess)
    }

    /** Appends everything below the parent that was not met before, depth first. */
    method Walk(parentId: nat)
      requires Valid()
      modifies this
      ensures Valid()
      ensures HasListed(tasks, SortedChildren(tasks, parentId), old(visited), old(result), visited, result)
      decreases tasks.Keys - visited, 1
    {
      var uri := LocalUri(parentId);
      var list := if uri in children then children[uri] else [];
      GroupIsSorted(tasks, children, parentId);
      ListedNone(tasks, list, visited, result);
      for i := 0 to |list|
        invariant Valid() && old(visited) <= visited
        invariant HasListed(tasks, list[..i], old(visited), old(result), visited, result)
      {
        ghost var mid, listed := visited, result;
        Descend(list[i]);
        ListedNext(tasks, list, i, old(visited), old(result), mid, listed, visited, result);
      }
      ListedAll(list);
    }

    /** One child of the walk: listed with everything below it unless it was met before. */
    method Descend(child: Task)
      requires Valid() && child.id in tasks
      modifies this
      ensures Valid() && HasListedOne(tasks, child, old(visited), old(result), visited, result)
      decreases tasks.Keys - visited, 0
    {
      if child.id !in visited {
        visited := visited + {child.id};
        result := result + [child];
        Walk(child.id);
      }
    }
  }

  /** A walk over these siblings takes the first visited set and list to the second. */
  ghost predicate HasListed(tasks: map<nat, Task>, siblings: seq<Task>, v: set<nat>, r: seq<Task>, v': set<nat>,
                            r': seq<Task>)
    requires KeyedById(tasks) && forall t :: t in siblings ==> t.id in tasks
  {
    v' == DepthFirst(tasks, siblings, v).visited && r' == r + DepthFirst(tasks, siblings, v).list
  }

  ghost predicate HasListedOne(tasks: map<nat, Task>, child: Task, v: set<nat>, r: seq<Task>, v': set<nat>,
                               r': seq<Task>)
    requires KeyedById(tasks)
  {
    if child.id in v then v' == v && r' == r
    else HasListed(tasks, SortedChildren(tasks, child.id), v + {child.id}, r + [child], v', r')
  }

  lemma ListedNone(tasks: map<nat, Task>, siblings: seq<Task>, v: set<nat>, r: seq<Task>)
    requires KeyedById(tasks)
    ensures HasListed(tasks, siblings[..0], v, r, v, r)
  {
  }

  lemma ListedNext(tasks: map<nat, Task>, siblings: seq<Task>, i: nat, v: set<nat>, r: seq<Task>, mid: set<nat>,
                   listed: seq<Task>, v': set<nat>, r': seq<Task>)
    requires KeyedById(tasks) && i < |siblings| && forall t :: t in siblings ==> t.id in tasks
    requires HasListed(tasks, siblings[..i], v, r, mid, listed) && HasListedOne(tasks, siblings[i], mid, listed, v', r')
    ensures HasListed(tasks, siblings[..i + 1], v, r, v', r') && mid <= v'
  {
    hide DepthFirst, SortedChildren;
    var child := siblings[i];
    DepthFirstNext(tasks, siblings, i, v);
    if child.id !in mid {
      var before := DepthFirst(tasks, siblings[..i], v).list;
      var below := DepthFirst(tasks, SortedChildren(tasks, child.id), mid + {child.id}).list;
      assert r + before + [child] + below == r + (before + [child] + below);
    }
  }

  lemma ListedAll(siblings: seq<Task>)
    ensures siblings[..|siblings|] == siblings
  {
  }

  /** The descendants depth first, siblings by ascending ID. */
  method LineageDescendants(rootId: nat, tasks: map<nat, Task>) returns (result: seq<Task>)
    requires KeyedById(tasks)
    ensures result == DepthFirst(tasks, SortedChildren(tasks, rootId), {rootId}).list
    ensures Distinct(result) && Elements(result) == TasksAt(tasks, Descendants(tasks, rootId))
  {
    var groups := GroupByLineage(tasks);
    var children := SortGroups(groups, tasks);
    var walk := new LineageWalk(tasks, rootId, children);
    walk.Walk(rootId);
    result := walk.result;
    ListingHoldsDescendants(tasks, rootId);
    assert [] + result == result;
  }

  /** Every child a decomposition files descends from the task that was decomposed. */
  lemma ChildrenDescend(s: StoreState, id: nat, actor: string, subtasks: seq<Subtask>, now: nat, child: nat)
    requires Sound(s) && Decompose(s, id, actor, subtasks, now).error.None? && s.nextId + |subtasks| <= UINT64_LIMIT
    requires s.nextId <= child < s.nextId + |subtasks|
    ensures child in Descendants(Decompose(s, id, actor, subtasks, now).store.tasks, id)
  {
    hide WithChildren;
    WithChildrenTasks(s, id, subtasks, now);
    var tasks := Decompose(s, id, actor, subtasks, now).store.tasks;
    assert (id, child) in LineageEdges(tasks, id);
    ReachesSelf(LineageEdges(tasks, id), id);
    ReachesNext(LineageEdges(tasks, id), id, id, child);
  }

  // ----- progress over a list of descendants -----

  datatype LineageProgress = LineageProgress(
    total: nat, pending: nat, inProgress: nat, completed: nat, blocked: nat, percent: real)

  /** How many of the listed tasks have this status. */
  function CountIn(list: seq<Task>, status: Status): nat {
    if list == [] then 0 else CountIn(list[..|list| - 1], status) + (if list[|list| - 1].status == status then 1 else 0)
  }

  method CalculateLineageProgress(tasks: seq<Task>) returns (p: LineageProgress)
    ensures p.total == |tasks|
    ensures p.pending == CountIn(tasks, PENDING) && p.inProgress == CountIn(tasks, IN_PROGRESS)
    ensures p.completed == CountIn(tasks, COMPLETED) && p.blocked == CountIn(tasks, BLOCKED)
    ensures p.percent == (if |tasks| > 0 then p.completed as real / p.total as real * 100.0 else 0.0)
    ensures 0.0 <= p.percent <= 100.0
  {
    p := LineageProgress(|tasks|, 0, 0, 0, 0, 0.0);
    for i := 0 to |tasks|
      invariant p.total == |tasks| && p.percent == 0.0
      invariant p.pending == CountIn(tasks[..i], PENDING) && p.inProgress == CountIn(tasks[..i], IN_PROGRESS)
      invariant p.completed == CountIn(tasks[..i], COMPLETED) && p.blocked == CountIn(tasks[..i], BLOCKED)
    {
      var prefix := tasks[..i + 1];
      assert prefix[..|prefix| - 1] == tasks[..i] && prefix[|prefix| - 1] == tasks[i];
      var status := tasks[i].status;
      if status == PENDING {
        p := p.(pending := p.pending + 1);
      } else if status == IN_PROGRESS {
        p := p.(inProgress := p.inProgress + 1);
      } else if status == COMPLETED {
        p := p.(completed := p.completed + 1);
      } else if status == BLOCKED {
        p := p.(blocked := p.blocked + 1);
      }
    }
    assert tasks[..|tasks|] == tasks;
    if p.total > 0 {
      LineagePercentInRange(tasks);
      p := p.(percent := p.completed as real / p.total as real * 100.0);
    }
  }

  /** The four counts never exceed the list, and fill it exactly when every status is a named one. */
  lemma {:induction false} CountsFillList(list: seq<Task>)
    ensures var sum := CountIn(list, PENDING) + CountIn(list, IN_PROGRESS)
                       + CountIn(list, COMPLETED) + CountIn(list, BLOCKED);
            sum <= |list| && (sum == |list| <==> forall t :: t in list ==> t.status <= BLOCKED)
  {
    if list != [] {
      var init, last := list[..|list| - 1], list[|list| - 1];
      assert list == init + [last];
      CountsFillList(init);
    }
  }

  lemma LineagePercentInRange(list: seq<Task>)
    requires list != []
    ensures 0.0 <= CountIn(list, COMPLETED) as real / |list| as real * 100.0 <= 100.0
  {
    CountsFillList(list);
    RatioInRange(CountIn(list, COMPLETED) as real, |list| as real);
  }

  lemma RatioInRange(part: real, whole: real)
    requires 0.0 <= part <= whole && whole > 0.0
    ensures 0.0 <= part / whole <= 1.0
  {
    var q := part / whole;
    assert q * whole == part;
    assert q > 1.0 ==> q * whole > 1.0 * whole;
  }
}