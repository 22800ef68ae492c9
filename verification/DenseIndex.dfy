/** A dense slice with a node-to-position index, kept inverse to each other while elements come and go. */
module DenseIndex {
  import opened Ids

  /** The index and the slice are inverse to each other, and hold these elements. */
  ghost predicate Inverse<T>(indices: map<NodeID, nat>, slice: seq<T>, idOf: T -> NodeID, held: map<NodeID, T>) {
    && (forall n | n in indices :: indices[n] < |slice| && idOf(slice[indices[n]]) == n)
    && (forall i | 0 <= i < |slice| :: idOf(slice[i]) in indices && indices[idOf(slice[i])] == i)
    && (forall n :: n in held <==> n in indices)
    && (forall n | n in held :: held[n] == slice[indices[n]])
  }

  lemma AppendKeepsInverse<T>(indices: map<NodeID, nat>, slice: seq<T>, idOf: T -> NodeID, held: map<NodeID, T>, e: T)
    requires Inverse(indices, slice, idOf, held) && idOf(e) !in indices
    ensures Inverse(indices[idOf(e) := |slice|], slice + [e], idOf, held[idOf(e) := e])
  {
  }

  lemma ReplaceKeepsInverse<T>(indices: map<NodeID, nat>, slice: seq<T>, idOf: T -> NodeID, held: map<NodeID, T>,
                               n: NodeID, e: T)
    requires Inverse(indices, slice, idOf, held) && n in indices && idOf(e) == n
    ensures Inverse(indices, slice[indices[n] := e], idOf, held[n := e])
  {
    var slice' := slice[indices[n] := e];
    forall i | 0 <= i < |slice'|
      ensures idOf(slice'[i]) == idOf(slice[i])
    {
    }
    forall m | m in held && m != n
      ensures held[m] == slice'[indices[m]]
    {
      assert indices[m] != indices[n];
    }
  }

  /** Filling the gap with the last element and re-indexing it keeps the inverse. */
  lemma SwapRemoveKeepsInverse<T>(indices: map<NodeID, nat>, slice: seq<T>, idOf: T -> NodeID, held: map<NodeID, T>, n: NodeID)
    requires Inverse(indices, slice, idOf, held) && n in indices
    ensures var last := |slice| - 1;
            Inverse(indices[idOf(slice[last]) := indices[n]] - {n}, slice[indices[n] := slice[last]][..last], idOf, held - {n})
  {
    var last := |slice| - 1;
    var indices', slice' := indices[idOf(slice[last]) := indices[n]] - {n}, slice[indices[n] := slice[last]][..last];
    forall i | 0 <= i < |slice'|
      ensures idOf(slice'[i]) in indices' && indices'[idOf(slice'[i])] == i
    {
      var from := if i == indices[n] then last else i;
      assert slice'[i] == slice[from] && indices[idOf(slice[from])] == from;
    }
    forall m | m in indices'
      ensures indices'[m] < |slice'| && idOf(slice'[indices'[m]]) == m
    {
      assert m != n && m in indices;
    }
  }

  /** Removing the last element needs no filling. */
  lemma RemoveLastKeepsInverse<T>(indices: map<NodeID, nat>, slice: seq<T>, idOf: T -> NodeID, held: map<NodeID, T>, n: NodeID)
    requires Inverse(indices, slice, idOf, held) && n in indices && indices[n] == |slice| - 1
    ensures Inverse(indices - {n}, slice[..|slice| - 1], idOf, held - {n})
  {
    forall i | 0 <= i < |slice| - 1
      ensures idOf(slice[i]) != n
    {
      assert indices[idOf(slice[i])] == i;
    }
  }
}
