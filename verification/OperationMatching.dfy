/**
 * Matching a recorded run of operations against an expected order, as the conformance assertions
 * do: greedy from the left, the last operation held back until a clock checkpoint when there is one.
 */
module OperationMatching {
  import opened Wrappers

  /** A recorded operation and when it was observed, if its timestamp can be read. */
  datatype Operation = Operation(name: string, observed: Option<int>)

  /** The operation was observed at or after the checkpoint, if there is one. */
  predicate PastCheckpoint(operation: Operation, checkpoint: Option<int>) {
    checkpoint.Some? ==> operation.observed.Some? && operation.observed.value >= checkpoint.value
  }

  /** Operation `index` can stand for entry `i` of what is expected; only the last has to pass the checkpoint. */
  predicate Fits(operations: seq<Operation>, expected: seq<string>, checkpoint: Option<int>, i: nat, index: nat) {
    && index < |operations| && i < |expected| && operations[index].name == expected[i]
    && (i == |expected| - 1 ==> PastCheckpoint(operations[index], checkpoint))
  }

  /** Positions of the expected operations, in order. */
  ghost predicate IsEmbedding(operations: seq<Operation>, expected: seq<string>, checkpoint: Option<int>,
                              at: seq<nat>)
  {
    && |at| == |expected|
    && (forall i :: 0 <= i < |at| ==> at[i] < |operations| && operations[at[i]].name == expected[i])
    && (forall i, j :: 0 <= i < j < |at| ==> at[i] < at[j])
    && (at != [] && checkpoint.Some? ==>
          var last := operations[at[|at| - 1]].observed;
          last.Some? && checkpoint.value <= last.value)
  }

  ghost predicate IsLeastEmbedding(operations: seq<Operation>, expected: seq<string>, checkpoint: Option<int>,
                                   at: seq<nat>)
  {
    && IsEmbedding(operations, expected, checkpoint, at)
    && forall other :: IsEmbedding(operations, expected, checkpoint, other) ==>
                         forall i :: 0 <= i < |at| ==> at[i] <= other[i]
  }

  /** The match so far: it fits, it is never to the right of any embedding, and none continues before `from`. */
  ghost predicate IsGreedyPrefix(operations: seq<Operation>, expected: seq<string>, checkpoint: Option<int>,
                                 at: seq<nat>, from: nat)
  {
    && |at| <= |expected|
    && (forall i :: 0 <= i < |at| ==> at[i] < from && Fits(operations, expected, checkpoint, i, at[i]))
    && (forall i, j :: 0 <= i < j < |at| ==> at[i] < at[j])
    && forall other :: IsEmbedding(operations, expected, checkpoint, other) ==>
         (forall i :: 0 <= i < |at| ==> at[i] <= other[i]) && (|at| < |expected| ==> from <= other[|at|])
  }

  lemma GreedyTakes(operations: seq<Operation>, expected: seq<string>, checkpoint: Option<int>, at: seq<nat>, from: nat)
    requires IsGreedyPrefix(operations, expected, checkpoint, at, from) &&
             Fits(operations, expected, checkpoint, |at|, from)
    ensures IsGreedyPrefix(operations, expected, checkpoint, at + [from], from + 1)
  {
    forall other | IsEmbedding(operations, expected, checkpoint, other) && |at| + 1 < |expected|
      ensures from + 1 <= other[|at| + 1]
    {
      assert other[|at|] < other[|at| + 1];
    }
  }

  lemma GreedySkips(operations: seq<Operation>, expected: seq<string>, checkpoint: Option<int>, at: seq<nat>, from: nat)
    requires IsGreedyPrefix(operations, expected, checkpoint, at, from) &&
             !Fits(operations, expected, checkpoint, |at|, from)
    ensures IsGreedyPrefix(operations, expected, checkpoint, at, from + 1)
  {
    forall other | IsEmbedding(operations, expected, checkpoint, other) && |at| < |expected|
      ensures from + 1 <= other[|at|]
    {
      assert Fits(operations, expected, checkpoint, |at|, other[|at|]);
    }
  }

  lemma GreedyDecides(operations: seq<Operation>, expected: seq<string>, checkpoint: Option<int>, at: seq<nat>)
    requires IsGreedyPrefix(operations, expected, checkpoint, at, |operations|)
    ensures |at| == |expected| ==> IsLeastEmbedding(operations, expected, checkpoint, at)
    ensures |at| < |expected| ==> forall other :: !IsEmbedding(operations, expected, checkpoint, other)
  {
  }

  /** Succeeds exactly when the expected operations occur in this order, and then finds their earliest positions. */
  method OrderedOperationIndexes(operations: seq<Operation>, expected: seq<string>)
    returns (indexes: seq<nat>, matched: bool)
    ensures expected == [] ==> !matched
    ensures expected != [] ==> (matched <==> exists at :: IsEmbedding(operations, expected, None, at))
    ensures matched ==> IsLeastEmbedding(operations, expected, None, indexes)
  {
    indexes := [];
    if |expected| == 0 {
      return [], false;
    }
    var index := 0;
    for operationIndex := 0 to |operations|
      invariant index == |indexes| && IsGreedyPrefix(operations, expected, None, indexes, operationIndex)
    {
      if index < |expected| && operations[operationIndex].name == expected[index] {
        GreedyTakes(operations, expected, None, indexes, operationIndex);
        indexes := indexes + [operationIndex];
        index := index + 1;
      } else {
        GreedySkips(operations, expected, None, indexes, operationIndex);
      }
    }
    GreedyDecides(operations, expected, None, indexes);
    matched := index == |expected|;
  }

  /** The same with the last operation at or after the checkpoint. */
  method OrderedAlternativeIndexes(operations: seq<Operation>, expected: seq<string>, checkpoint: Option<int>)
    returns (indexes: seq<nat>, matched: bool)
    ensures expected == [] ==> !matched
    ensures expected != [] ==> (matched <==> exists at :: IsEmbedding(operations, expected, checkpoint, at))
    ensures matched ==> IsLeastEmbedding(operations, expected, checkpoint, indexes)
  {
    indexes := [];
    if |expected| == 0 {
      return [], false;
    }
    var next := 0;
    for index := 0 to |operations|
      invariant next == |indexes| && IsGreedyPrefix(operations, expected, checkpoint, indexes, index)
    {
      var operation := operations[index];
      if next >= |expected| || operation.name != expected[next] {
        GreedySkips(operations, expected, checkpoint, indexes, index);
        continue;
      }
      if checkpoint.Some? && next == |expected| - 1 {
        if operation.observed.None? || operation.observed.value < checkpoint.value {
          GreedySkips(operations, expected, checkpoint, indexes, index);
          continue;
        }
      }
      GreedyTakes(operations, expected, checkpoint, indexes, index);
      indexes := indexes + [index];
      next := next + 1;
    }
    GreedyDecides(operations, expected, checkpoint, indexes);
    matched := next == |expected|;
  }
}
