/** Finite directed graphs as sets of (from, to) pairs: walks, cycles, and what excludes them. */
module Digraph {
  type Edges = set<(nat, nat)>

  ghost predicate IsWalk(e: Edges, p: seq<nat>) {
    |p| >= 1 && forall i :: 0 <= i < |p| - 1 ==> (p[i], p[i + 1]) in e
  }

  ghost predicate IsCycle(e: Edges, p: seq<nat>) {
    |p| >= 2 && IsWalk(e, p) && p[0] == p[|p| - 1]
  }

  ghost predicate Cyclic(e: Edges) {
    exists p :: IsCycle(e, p)
  }

  ghost predicate Reaches(e: Edges, a: nat, b: nat) {
    exists p :: IsWalk(e, p) && p[0] == a && p[|p| - 1] == b
  }

  lemma CyclicMonotone(small: Edges, big: Edges)
    requires small <= big
    ensures Cyclic(small) ==> Cyclic(big)
  {
    if p :| IsCycle(small, p) {
      assert IsCycle(big, p);
    }
  }

  // ----- reachability -----

  lemma ReachesSelf(e: Edges, a: nat)
    ensures Reaches(e, a, a)
  {
    assert IsWalk(e, [a]);
  }

  lemma ReachesNext(e: Edges, a: nat, b: nat, c: nat)
    requires Reaches(e, a, b) && (b, c) in e
    ensures Reaches(e, a, c)
  {
    var p :| IsWalk(e, p) && p[0] == a && p[|p| - 1] == b;
    assert IsWalk(e, p + [c]) && (p + [c])[0] == a;
  }

  /** A set that holds a node and is closed under the edges holds everything the node reaches. */
  lemma {:induction false} ClosedHoldsReached(e: Edges, s: set<nat>, p: seq<nat>)
    requires IsWalk(e, p) && p[0] in s
    requires forall a: nat, b: nat :: (a, b) in e && a in s ==> b in s
    ensures p[|p| - 1] in s
  {
    if |p| > 1 {
      assert (p[0], p[1]) in e;
      var tail := p[1..];
      assert forall i :: 0 <= i < |tail| - 1 ==> (tail[i], tail[i + 1]) == (p[i + 1], p[i + 2]);
      ClosedHoldsReached(e, s, tail);
    }
  }

  // ----- a rank that falls along every edge excludes cycles -----

  ghost predicate RankFalls(e: Edges, rank: map<nat, nat>) {
    forall a: nat, b: nat :: (a, b) in e ==> a in rank && b in rank && rank[b] < rank[a]
  }

  lemma {:induction false} RankFallsAlongWalk(e: Edges, rank: map<nat, nat>, p: seq<nat>)
    requires RankFalls(e, rank) && IsWalk(e, p) && |p| >= 2
    ensures p[0] in rank && p[|p| - 1] in rank && rank[p[|p| - 1]] < rank[p[0]]
  {
    assert (p[0], p[1]) in e;
    if |p| > 2 {
      var tail := p[1..];
      assert forall i :: 0 <= i < |tail| - 1 ==> (tail[i], tail[i + 1]) == (p[i + 1], p[i + 2]);
      RankFallsAlongWalk(e, rank, tail);
    }
  }

  lemma RankedIsAcyclic(e: Edges, rank: map<nat, nat>)
    requires RankFalls(e, rank)
    ensures !Cyclic(e)
  {
    if p :| IsCycle(e, p) {
      RankFallsAlongWalk(e, rank, p);
    }
  }

  // ----- edges that cannot lie on a cycle -----

  ghost predicate HasIn(e: Edges, n: nat) {
    exists m :: (m, n) in e
  }

  ghost predicate HasOut(e: Edges, n: nat) {
    exists m :: (n, m) in e
  }

  /**
   * If every edge of `big` missing from `small` starts at a node nothing leads to, or ends at a
   * node nothing leaves, then the extra edges close no cycle.
   */
  lemma PendantEdgesCloseNoCycle(small: Edges, big: Edges)
    requires forall a: nat, b: nat :: (a, b) in big ==> (a, b) in small || !HasIn(big, a) || !HasOut(big, b)
    ensures Cyclic(big) ==> Cyclic(small)
  {
    if p :| IsCycle(big, p) {
      var n := |p|;
      forall i | 0 <= i < n - 1 ensures (p[i], p[i + 1]) in small {
        var before := if i == 0 then p[n - 2] else p[i - 1];
        assert (before, p[i]) in big;
        var after := if i + 2 < n then p[i + 2] else p[1];
        assert (p[i + 1], after) in big;
      }
      assert IsCycle(small, p);
    }
  }

  // ----- every nonempty set of an acyclic graph has a first node -----

  ghost predicate IsSourceIn(e: Edges, s: set<nat>, n: nat) {
    n in s && forall m :: m in s ==> (m, n) !in e
  }

  lemma {:induction false} DistinctWalkFits(s: set<nat>, p: seq<nat>)
    requires forall i :: 0 <= i < |p| ==> p[i] in s
    requires forall i, j :: 0 <= i < j < |p| ==> p[i] != p[j]
    ensures |p| <= |s|
  {
    if p != [] {
      DistinctWalkFits(s - {p[0]}, p[1..]);
    }
  }

  lemma {:induction false} WalkBackToSource(e: Edges, s: set<nat>, p: seq<nat>) returns (n: nat)
    requires !Cyclic(e)
    requires IsWalk(e, p)
    requires forall i :: 0 <= i < |p| ==> p[i] in s
    requires forall i, j :: 0 <= i < j < |p| ==> p[i] != p[j]
    ensures IsSourceIn(e, s, n)
    decreases |s| - |p|
  {
    DistinctWalkFits(s, p);
    n := p[0];
    if m :| m in s && (m, n) in e {
      var longer := [m] + p;
      if k :| 0 <= k < |p| && p[k] == m {
        assert IsCycle(e, longer[..k + 2]);
      }
      DistinctWalkFits(s, longer);
      n := WalkBackToSource(e, s, longer);
    }
  }

  lemma AcyclicHasSource(e: Edges, s: set<nat>) returns (n: nat)
    requires !Cyclic(e) && s != {}
    ensures IsSourceIn(e, s, n)
  {
    var start :| start in s;
    n := WalkBackToSource(e, s, [start]);
  }
}
