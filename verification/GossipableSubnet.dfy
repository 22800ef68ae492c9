/** The gossip list of one subnet: a dense slice of IPs with a node-to-position index. */
module GossipableSubnets {
  import opened Ids
  import opened DenseIndex
  import opened TrackerState
  import opened Sampler

  /** A metric that counts up and down; all subnets of a tracker share one. */
  class Gauge {
    var value: int

    constructor ()
      ensures value == 0
    {
      value := 0;
    }

    method Inc()
      modifies this
      ensures value == old(value) + 1
    {
      value := value + 1;
    }

    method Dec()
      modifies this
      ensures value == old(value) - 1
    {
      value := value - 1;
    }
  }

  class GossipableSubnet {
    const numGossipableIPs: Gauge
    /** The subnet whose list this is. */
    ghost const owner: SubnetID
    var manuallyGossipable: set<NodeID>
    var gossipableIDs: set<NodeID>
    var gossipableIndices: map<NodeID, nat>
    var gossipableIPs: seq<ClaimedIP>

    /** The IP listed for each node. */
    ghost var listed: map<NodeID, ClaimedIP>

    ghost predicate Valid()
      reads this
    {
      Inverse(gossipableIndices, gossipableIPs, NodeOf, listed)
    }

    ghost function Info(): SubnetInfo
      reads this
    {
      SubnetInfo(manuallyGossipable, gossipableIDs, listed)
    }

    constructor (gauge: Gauge, ghost owner: SubnetID)
      ensures Valid() && Info() == SubnetInfo({}, {}, map[]) && gossipableIPs == []
      ensures numGossipableIPs == gauge && this.owner == owner
    {
      numGossipableIPs, this.owner := gauge, owner;
      manuallyGossipable, gossipableIDs, listed := {}, {}, map[];
      gossipableIndices, gossipableIPs := map[], [];
    }

    method SetMembers(manuallyGossipable: set<NodeID>, gossipableIDs: set<NodeID>)
      requires Valid()
      modifies this`manuallyGossipable, this`gossipableIDs
      ensures Valid() && Info() == SubnetInfo(manuallyGossipable, gossipableIDs, listed)
    {
      this.manuallyGossipable, this.gossipableIDs := manuallyGossipable, gossipableIDs;
    }

    method SetGossipableIP(ip: ClaimedIP)
      requires Valid()
      modifies this, numGossipableIPs
      ensures Valid() && Info() == old(Info()).List(ip)
      ensures numGossipableIPs.value - old(numGossipableIPs.value) == |gossipableIPs| - old(|gossipableIPs|)
    {
      listed := listed[ip.nodeID := ip];
      if ip.nodeID in gossipableIndices {
        ReplaceKeepsInverse(gossipableIndices, gossipableIPs, NodeOf, old(listed), ip.nodeID, ip);
        gossipableIPs := gossipableIPs[gossipableIndices[ip.nodeID] := ip];
        return;
      }
      AppendKeepsInverse(gossipableIndices, gossipableIPs, NodeOf, old(listed), ip);
      numGossipableIPs.Inc();
      gossipableIndices := gossipableIndices[ip.nodeID := |gossipableIPs|];
      gossipableIPs := gossipableIPs + [ip];
    }

    method RemoveGossipableIP(n: NodeID)
      requires Valid()
      modifies this, numGossipableIPs
      ensures Valid() && Info() == old(Info()).Unlist(n)
      ensures numGossipableIPs.value - old(numGossipableIPs.value) == |gossipableIPs| - old(|gossipableIPs|)
    {
      if n !in gossipableIndices {
        listed := listed - {n};
        return;
      }
      var indices, ips := gossipableIndices, gossipableIPs;
      var indexToRemove := indices[n];
      var newNumGossipable := |ips| - 1;
      if newNumGossipable == indexToRemove {
        RemoveLastKeepsInverse(indices, ips, NodeOf, listed, n);
      } else {
        SwapRemoveKeepsInverse(indices, ips, NodeOf, listed, n);
        var replacementIP := ips[newNumGossipable];
        indices := indices[replacementIP.nodeID := indexToRemove];
        ips := ips[indexToRemove := replacementIP];
      }
      numGossipableIPs.Dec();
      gossipableIndices, gossipableIPs, listed := indices - {n}, ips[..newNumGossipable], listed - {n};
    }

    /** May this node's listed IP be sent to the peer that asked? */
    ghost predicate Eligible(n: NodeID, exceptNodeID: NodeID, exceptIPs: ClaimedIP -> bool)
      requires Valid()
      reads this
    {
      n in listed && n != exceptNodeID && !exceptIPs(listed[n])
    }

    /** Extends the collected IPs by eligible ones in random order, until there are `maxNumIPs`
        or no eligible node is missing. */
    method GetGossipableIPs(exceptNodeID: NodeID, exceptIPs: ClaimedIP -> bool, random: nat -> nat,
                            maxNumIPs: nat, ips: seq<ClaimedIP>, nodeIDs: set<NodeID>)
      returns (ips': seq<ClaimedIP>, nodeIDs': set<NodeID>)
      requires Valid() && Collected(ips, nodeIDs)
      ensures Collected(ips', nodeIDs') && ips <= ips' && |ips'| <= Max(|ips|, maxNumIPs)
      ensures forall i | |ips| <= i < |ips'| ::
                Eligible(ips'[i].nodeID, exceptNodeID, exceptIPs) && listed[ips'[i].nodeID] == ips'[i]
      ensures |ips'| < maxNumIPs ==> forall n | Eligible(n, exceptNodeID, exceptIPs) :: n in nodeIDs'
    {
      ips', nodeIDs' := ips, nodeIDs;
      var uniform := new Uniform(|gossipableIPs|);
      while |ips'| < maxNumIPs
        invariant uniform.Valid() && uniform.length == |gossipableIPs| && fresh(uniform)
        invariant Collected(ips', nodeIDs') && ips <= ips' && |ips'| <= Max(|ips|, maxNumIPs)
        invariant forall i | |ips| <= i < |ips'| ::
                    Eligible(ips'[i].nodeID, exceptNodeID, exceptIPs) && listed[ips'[i].nodeID] == ips'[i]
        invariant forall k | k in uniform.seen ::
                    k < |gossipableIPs| &&
                    (Eligible(gossipableIPs[k].nodeID, exceptNodeID, exceptIPs) ==> gossipableIPs[k].nodeID in nodeIDs')
        decreases uniform.length - uniform.drawsCount
      {
        var index, hasNext := uniform.Next(random(uniform.drawsCount));
        if !hasNext {
          return;
        }
        var ip := gossipableIPs[index];
        if ip.nodeID == exceptNodeID || ip.nodeID in nodeIDs' || exceptIPs(ip) {
          continue;
        }
        CollectOne(ips', nodeIDs', ip);
        ips', nodeIDs' := ips' + [ip], nodeIDs' + {ip.nodeID};
      }
    }
  }

  function NodeOf(ip: ClaimedIP): NodeID {
    ip.nodeID
  }

  lemma NothingListed(indices: map<NodeID, nat>, ips: seq<ClaimedIP>, listed: map<NodeID, ClaimedIP>)
    requires Inverse(indices, ips, NodeOf, listed)
    ensures ips == [] || exists n :: n in listed
  {
    if ips != [] {
      assert NodeOf(ips[0]) in listed;
    }
  }

  function Max(a: int, b: int): int {
    if a < b then b else a
  }

  /** IPs of distinct nodes, and exactly the set of those nodes. */
  ghost predicate Collected(ips: seq<ClaimedIP>, nodeIDs: set<NodeID>) {
    && (forall i | 0 <= i < |ips| :: ips[i].nodeID in nodeIDs)
    && (forall i, j | 0 <= i < j < |ips| :: ips[i].nodeID != ips[j].nodeID)
    && (forall n | n in nodeIDs :: exists i :: 0 <= i < |ips| && ips[i].nodeID == n)
  }

  lemma CollectedGrows(ips: seq<ClaimedIP>, nodeIDs: set<NodeID>, ips': seq<ClaimedIP>, nodeIDs': set<NodeID>)
    requires Collected(ips, nodeIDs) && Collected(ips', nodeIDs') && ips <= ips'
    ensures nodeIDs <= nodeIDs'
  {
    forall n | n in nodeIDs
      ensures n in nodeIDs'
    {
      var i :| 0 <= i < |ips| && ips[i].nodeID == n;
      assert ips'[i].nodeID == n;
    }
  }

  lemma CollectOne(ips: seq<ClaimedIP>, nodeIDs: set<NodeID>, ip: ClaimedIP)
    requires Collected(ips, nodeIDs) && ip.nodeID !in nodeIDs
    ensures Collected(ips + [ip], nodeIDs + {ip.nodeID})
  {
    forall n | n in nodeIDs + {ip.nodeID} ensures exists i :: 0 <= i < |ips + [ip]| && (ips + [ip])[i].nodeID == n {
      if n in nodeIDs {
        var i :| 0 <= i < |ips| && ips[i].nodeID == n;
        assert (ips + [ip])[i].nodeID == n;
      } else {
        assert (ips + [ip])[|ips|].nodeID == n;
      }
    }
  }
}
