/**
 * Several operations in one transaction, one after the other until the first is refused: the loops
 * of `todo done` and `todo release`.
 */
module Batches {
  import opened Wrappers
  import opened StoreModel
  import opened Transitions
  import opened TaskStores
  import opened CoordinationOps

  /** The operation on each item in turn; the first refusal ends it, as that operation left the store. */
  function InTurn<T>(s: StoreState, items: seq<T>, op: (StoreState, T) -> Outcome): Outcome {
    if items == [] then Outcome(s, None)
    else
      var before := InTurn(s, items[..|items| - 1], op);
      if before.error.Some? then before else op(before.store, items[|items| - 1])
  }

  function Completion(actor: string, resolver: Resolver, now: nat): (StoreState, nat) -> Outcome {
    (s, id: nat) => Complete(s, id, actor, resolver, now)
  }

  function Releasing(actor: string, failure: string, now: nat): (StoreState, nat) -> Outcome {
    (s, id: nat) => Release(s, id, actor, failure, now)
  }

  /** Once an operation is refused, the rest of the items do not matter. */
  lemma {:induction false} FirstRefusalEnds<T>(s: StoreState, items: seq<T>, i: nat, op: (StoreState, T) -> Outcome)
    requires i < |items| && InTurn(s, items[..i + 1], op).error.Some?
    ensures InTurn(s, items, op) == InTurn(s, items[..i + 1], op)
    decreases |items|
  {
    if i + 1 < |items| {
      var init := items[..|items| - 1];
      assert init[..i + 1] == items[..i + 1];
      FirstRefusalEnds(s, init, i, op);
    } else {
      assert items[..i + 1] == items;
    }
  }

  lemma InTurnNext<T>(s: StoreState, items: seq<T>, i: nat, op: (StoreState, T) -> Outcome)
    requires i < |items|
    ensures var before := InTurn(s, items[..i], op);
            InTurn(s, items[..i + 1], op) == if before.error.Some? then before else op(before.store, items[i])
  {
    var prefix := items[..i + 1];
    assert prefix[..|prefix| - 1] == items[..i] && prefix[|prefix| - 1] == items[i];
  }

  /** The transaction of `todo done`. */
  method CompleteTasks(s: TaskStore, ids: seq<nat>, actor: string, resolver: Resolver, now: nat)
    returns (error: Option<Error>)
    modifies s
    ensures Outcome(s.State(), error) == InTurn(old(s.State()), ids, Completion(actor, resolver, now))
  {
    ghost var before, op := s.State(), Completion(actor, resolver, now);
    for i := 0 to |ids|
      invariant Outcome(s.State(), None) == InTurn(before, ids[..i], op)
    {
      InTurnNext(before, ids, i, op);
      error := CompleteTask(s, ids[i], actor, resolver, now);
      if error.Some? {
        FirstRefusalEnds(before, ids, i, op);
        return;
      }
    }
    assert ids[..|ids|] == ids;
    error := None;
  }

  /** The transaction of `todo release`. */
  method ReleaseTasks(s: TaskStore, ids: seq<nat>, actor: string, failure: string, now: nat)
    returns (error: Option<Error>)
    modifies s
    ensures Outcome(s.State(), error) == InTurn(old(s.State()), ids, Releasing(actor, failure, now))
  {
    ghost var before, op := s.State(), Releasing(actor, failure, now);
    for i := 0 to |ids|
      invariant Outcome(s.State(), None) == InTurn(before, ids[..i], op)
    {
      InTurnNext(before, ids, i, op);
      error := ReleaseTask(s, ids[i], actor, failure, now);
      if error.Some? {
        FirstRefusalEnds(before, ids, i, op);
        return;
      }
    }
    assert ids[..|ids|] == ids;
    error := None;
  }

  // ----- where a batch stops -----

  /** The operation changes nothing when refused, and logs an event when not. */
  ghost predicate LogsOrLeaves<T(!new)>(op: (StoreState, T) -> Outcome) {
    forall s, x {:trigger op(s, x)} ::
      && (op(s, x).error.Some? ==> op(s, x).store == s)
      && (op(s, x).error.None? ==> op(s, x).store.nextEventId > s.nextEventId)
  }

  lemma CompletionLogsOrLeaves(actor: string, resolver: Resolver, now: nat)
    ensures LogsOrLeaves(Completion(actor, resolver, now))
  {
    var op := Completion(actor, resolver, now);
    forall s, id {:trigger op(s, id)}
      ensures op(s, id) == Complete(s, id, actor, resolver, now)
      ensures op(s, id).error.Some? ==> op(s, id).store == s
      ensures op(s, id).error.None? ==> op(s, id).store.nextEventId > s.nextEventId
    {
    }
  }

  lemma ReleasingLogsOrLeaves(actor: string, failure: string, now: nat)
    ensures LogsOrLeaves(Releasing(actor, failure, now))
  {
    var op := Releasing(actor, failure, now);
    forall s, id {:trigger op(s, id)}
      ensures op(s, id) == Release(s, id, actor, failure, now)
      ensures op(s, id).error.Some? ==> op(s, id).store == s
      ensures op(s, id).error.None? ==> op(s, id).store.nextEventId > s.nextEventId
    {
    }
  }

  /** A refused batch ends at one item, with the operations before it carried out. */
  lemma {:induction false} RefusedBatchStops<T(!new)>(s: StoreState, items: seq<T>, op: (StoreState, T) -> Outcome)
    returns (n: nat)
    requires InTurn(s, items, op).error.Some?
    ensures n < |items| && InTurn(s, items[..n], op).error.None?
    ensures op(InTurn(s, items[..n], op).store, items[n]) == InTurn(s, items, op)
  {
    var init, last := items[..|items| - 1], items[|items| - 1];
    if InTurn(s, init, op).error.Some? {
      n := RefusedBatchStops(s, init, op);
      assert init[..n] == items[..n];
    } else {
      n := |init|;
    }
  }

  /** A batch that went through has logged at least one event per item. */
  lemma {:induction false} BatchLogs<T(!new)>(s: StoreState, items: seq<T>, op: (StoreState, T) -> Outcome)
    requires LogsOrLeaves(op) && InTurn(s, items, op).error.None?
    ensures InTurn(s, items, op).store.nextEventId >= s.nextEventId + |items|
    ensures items != [] ==> op(s, items[0]).error.None?
  {
    if items != [] {
      var init, last := items[..|items| - 1], items[|items| - 1];
      BatchLogs(s, init, op);
      var before := InTurn(s, init, op);
      assert op(before.store, last).store.nextEventId > before.store.nextEventId;
      assert init == [] ==> before == Outcome(s, None);
    }
  }
}
