/** Identifiers and small wrappers shared by the models. */
module Ids {
  /** A 20-byte node identifier, kept abstract as a number: only equality matters. */
  type NodeID = int

  /** A 32-byte subnet identifier, kept abstract in the same way. */
  type SubnetID = int

  /** `constants.PrimaryNetworkID` is the all-zero identifier. */
  const PRIMARY_NETWORK_ID: SubnetID := 0

  datatype Option<+T> = None | Some(value: T)

  /** Some element of a set that has one. */
  lemma Member<T>(s: set<T>) returns (x: T)
    requires s != {}
    ensures x in s
  {
    x :| x in s;
  }

  lemma AddSize<K, V>(m: map<K, V>, k: K, v: V)
    requires k !in m
    ensures |m[k := v]| == |m| + 1
  {
    assert m[k := v].Keys == m.Keys + {k};
  }

  lemma RemoveSize<K, V>(m: map<K, V>, k: K)
    requires k in m
    ensures |m - {k}| == |m| - 1
  {
    assert (m - {k}).Keys == m.Keys - {k};
  }
}
