/** The part of the tracker that holds the gossip lists: one object per subnet, and the two gauges that count them. */
module SubnetTables {
  import opened Ids
  import opened TrackerState
  import opened TrackerInvariants
  import opened GossipableSubnets
  import opened SubnetViews

  /** The subnet lists this IP for its node, and it may be sent to the peer that asked. */
  ghost predicate EligibleAt(info: SubnetMap, id: SubnetID, exceptNodeID: NodeID, exceptIPs: ClaimedIP -> bool, ip: ClaimedIP) {
    && id in info && ip.nodeID in info[id].listed && info[id].listed[ip.nodeID] == ip
    && ip.nodeID != exceptNodeID && !exceptIPs(ip)
  }

  /** Some allowed subnet among these does so. */
  ghost predicate Eligible(info: SubnetMap, ids: set<SubnetID>, allowed: SubnetID -> bool, exceptNodeID: NodeID,
                           exceptIPs: ClaimedIP -> bool, ip: ClaimedIP)
  {
    exists id | id in ids && allowed(id) :: EligibleAt(info, id, exceptNodeID, exceptIPs, ip)
  }

  /** No eligible node of these subnets was missed. */
  ghost predicate NoneMissed(info: SubnetMap, ids: set<SubnetID>, allowed: SubnetID -> bool, exceptNodeID: NodeID,
                         exceptIPs: ClaimedIP -> bool, nodeIDs: set<NodeID>)
  {
    forall ip | Eligible(info, ids, allowed, exceptNodeID, exceptIPs, ip) :: ip.nodeID in nodeIDs
  }

  lemma OneListMore(info: SubnetMap, ids: set<SubnetID>, allowed: SubnetID -> bool, exceptNodeID: NodeID,
                    exceptIPs: ClaimedIP -> bool, nodeIDs: set<NodeID>, nodeIDs': set<NodeID>, id: SubnetID)
    requires NoneMissed(info, ids, allowed, exceptNodeID, exceptIPs, nodeIDs) && nodeIDs <= nodeIDs'
    requires allowed(id) ==> forall ip | EligibleAt(info, id, exceptNodeID, exceptIPs, ip) :: ip.nodeID in nodeIDs'
    ensures NoneMissed(info, ids + {id}, allowed, exceptNodeID, exceptIPs, nodeIDs')
  {
    forall ip | Eligible(info, ids + {id}, allowed, exceptNodeID, exceptIPs, ip)
      ensures ip.nodeID in nodeIDs'
    {
      var i :| i in ids + {id} && allowed(i) && EligibleAt(info, i, exceptNodeID, exceptIPs, ip);
      assert i != id ==> Eligible(info, ids, allowed, exceptNodeID, exceptIPs, ip);
    }
  }

  class SubnetTable {
    const numGossipableIPs: Gauge
    var numTrackedSubnets: int
    var subnet: Table

    /** The subnets as values, each subnet once per IP it lists, and all objects made so far. */
    ghost var info: SubnetMap
    ghost var entries: multiset<SubnetID>
    ghost var repr: set<GossipableSubnet>

    /** The objects represent `info`, and the gauges equal the numbers of subnets and of listed IPs. */
    ghost predicate Valid()
      reads this, numGossipableIPs, repr
    {
      Represents(subnet, info, entries, numGossipableIPs, repr) && numTrackedSubnets == |subnet|
    }

    constructor ()
      ensures Valid() && info == map[] && repr == {} && fresh(numGossipableIPs)
    {
      numGossipableIPs := new Gauge();
      numTrackedSubnets, subnet := 0, map[];
      info, entries, repr := map[], multiset{}, {};
    }

    // ---------- One subnet ----------

    method ListIP(id: SubnetID, ip: ClaimedIP)
      requires Valid() && id in subnet
      modifies this`info, this`entries, numGossipableIPs, repr
      ensures Valid() && info == old(info)[id := old(info)[id].List(ip)]
    {
      var g := subnet[id];
      Others(subnet, info, entries, numGossipableIPs, repr, id);
      g.SetGossipableIP(ip);
      OneChanged(subnet, info, entries, numGossipableIPs, repr, id);
      info, entries := info[id := g.Info()], entries[id := |g.gossipableIPs|];
    }

    method UnlistIP(id: SubnetID, n: NodeID)
      requires Valid() && id in subnet
      modifies this`info, this`entries, numGossipableIPs, repr
      ensures Valid() && info == old(info)[id := old(info)[id].Unlist(n)]
    {
      var g := subnet[id];
      Others(subnet, info, entries, numGossipableIPs, repr, id);
      g.RemoveGossipableIP(n);
      OneChanged(subnet, info, entries, numGossipableIPs, repr, id);
      info, entries := info[id := g.Info()], entries[id := |g.gossipableIPs|];
    }

    method SetMembers(id: SubnetID, manuallyGossipable: set<NodeID>, gossipableIDs: set<NodeID>)
      requires Valid() && id in subnet
      modifies this`info, this`entries, repr
      ensures Valid()
      ensures info == old(info)[id := old(info)[id].(manuallyGossipable := manuallyGossipable, gossipableIDs := gossipableIDs)]
    {
      var g := subnet[id];
      Others(subnet, info, entries, numGossipableIPs, repr, id);
      g.SetMembers(manuallyGossipable, gossipableIDs);
      OneChanged(subnet, info, entries, numGossipableIPs, repr, id);
      info, entries := info[id := g.Info()], entries[id := |g.gossipableIPs|];
    }

    method AddSubnet(id: SubnetID)
      requires Valid() && id !in subnet
      modifies this`info, this`subnet, this`numTrackedSubnets, this`repr
      ensures Valid() && id in subnet && info == old(info)[id := SubnetInfo({}, {}, map[])]
      ensures fresh(repr - old(repr))
    {
      var g := new GossipableSubnet(numGossipableIPs, id);
      AddSize(subnet, id, g);
      OneAdded(subnet, info, entries, numGossipableIPs, repr, id, g);
      numTrackedSubnets := numTrackedSubnets + 1;
      subnet, info, repr := subnet[id := g], info[id := g.Info()], repr + {g};
    }

    method DropSubnet(id: SubnetID)
      requires Valid() && id in subnet && forall n :: n !in info[id].listed
      modifies this`info, this`subnet, this`numTrackedSubnets
      ensures Valid() && info == old(info) - {id}
    {
      RemoveSize(subnet, id);
      OneDropped(subnet, info, entries, numGossipableIPs, repr, id);
      numTrackedSubnets := numTrackedSubnets - 1;
      subnet, info := subnet - {id}, info - {id};
    }

    /** Adds a node to the members of a known subnet and lists its IP, if there is one to list. */
    method JoinSubnet(n: NodeID, id: SubnetID, manually: bool, ip: Option<ClaimedIP>)
      requires Valid() && id in subnet && (ip.Some? ==> ip.value.nodeID == n)
      modifies this`info, this`entries, numGossipableIPs, repr
      ensures Valid() && info == old(info)[id := JoinedInfo(old(info)[id], n, manually, ip)]
    {
      var g := subnet[id];
      assert Mirrors(g, id, info[id], entries[id], numGossipableIPs);
      var manual := if manually then g.manuallyGossipable + {n} else g.manuallyGossipable;
      if n in g.gossipableIDs {
        SetMembers(id, manual, g.gossipableIDs);
        return;
      }
      SetMembers(id, manual, g.gossipableIDs + {n});
      if ip.Some? {
        ListIP(id, ip.value);
      }
    }

    /** Adds a node to the members of a subnet, known or not. */
    method AddMember(n: NodeID, id: SubnetID, manually: bool, ip: Option<ClaimedIP>)
      requires Valid() && (ip.Some? ==> ip.value.nodeID == n)
      modifies this, numGossipableIPs, repr
      ensures Valid() && info == old(info)[id := JoinedInfo(InfoOf(old(info), id), n, manually, ip)]
      ensures fresh(repr - old(repr))
    {
      SameKeys();
      if id !in subnet {
        AddSubnet(id);
      }
      JoinSubnet(n, id, manually, ip);
    }

    /** Takes a node off a subnet, and drops the subnet when it has no members left. */
    method LeaveSubnet(id: SubnetID, n: NodeID)
      requires Valid() && id in subnet && OnlyMembers(info[id])
      modifies this`info, this`entries, this`subnet, this`numTrackedSubnets, numGossipableIPs, repr
      ensures Valid() && info == InfoWithout(old(info), id, n)
    {
      RemoveMember(id, n);
      assert Mirrors(subnet[id], id, info[id], entries[id], numGossipableIPs);
      if subnet[id].gossipableIDs == {} {
        DropSubnet(id);
      }
    }

    /** Takes a validator off a subnet, unless the subnet is unknown or the node was put there manually. */
    method RemoveValidator(id: SubnetID, n: NodeID) returns (removed: bool)
      requires Valid() && ListsOnlyMembers(info)
      modifies this`info, this`entries, this`subnet, this`numTrackedSubnets, numGossipableIPs, repr
      ensures Valid() && removed == (id in old(info) && n !in old(info)[id].manuallyGossipable)
      ensures info == if removed then InfoWithout(old(info), id, n) else old(info)
    {
      SameKeys();
      if id !in subnet {
        return false;
      }
      assert Mirrors(subnet[id], id, info[id], entries[id], numGossipableIPs) && OnlyMembers(info[id]);
      if n in subnet[id].manuallyGossipable {
        return false;
      }
      LeaveSubnet(id, n);
      return true;
    }

    method RemoveMember(id: SubnetID, n: NodeID)
      requires Valid() && id in subnet
      modifies this`info, this`entries, numGossipableIPs, repr
      ensures Valid() && info == old(info)[id := old(info)[id].(gossipableIDs := old(info)[id].gossipableIDs - {n}).Unlist(n)]
    {
      var g := subnet[id];
      assert Mirrors(g, id, info[id], entries[id], numGossipableIPs);
      SetMembers(id, g.manuallyGossipable, g.gossipableIDs - {n});
      UnlistIP(id, n);
    }

    // ---------- Several subnets ----------

    method ListIfGossipable(id: SubnetID, ip: ClaimedIP)
      requires Valid()
      modifies this`info, this`entries, numGossipableIPs, repr
      ensures Valid() && info == ListedAt(old(info), ip, id)
    {
      if id in subnet {
        assert Mirrors(subnet[id], id, info[id], entries[id], numGossipableIPs);
        if ip.nodeID in subnet[id].gossipableIDs {
          ListIP(id, ip);
        }
      }
    }

    method SetGossipableIP(ip: ClaimedIP, ids: set<SubnetID>)
      requires Valid()
      modifies this`info, this`entries, numGossipableIPs, repr
      ensures Valid() && info == Relisted(old(info), ip, ids)
    {
      var todo := ids;
      while todo != {}
        invariant Valid() && Relisted(info, ip, todo) == Relisted(old(info), ip, ids)
        decreases todo
      {
        ghost var some := Member(todo);
        var id :| id in todo;
        RelistOne(info, ip, todo, id);
        ListIfGossipable(id, ip);
        todo := todo - {id};
      }
      RelistNone(info, ip);
    }

    method UnlistIfKnown(id: SubnetID, n: NodeID)
      requires Valid()
      modifies this`info, this`entries, numGossipableIPs, repr
      ensures Valid() && info == UnlistedAt(old(info), n, id)
    {
      if id in subnet {
        UnlistIP(id, n);
      }
    }

    method RemoveFromLists(n: NodeID, ids: set<SubnetID>)
      requires Valid()
      modifies this`info, this`entries, numGossipableIPs, repr
      ensures Valid() && info == Unlisted(old(info), n, ids)
    {
      var todo := ids;
      while todo != {}
        invariant Valid() && Unlisted(info, n, todo) == Unlisted(old(info), n, ids)
        decreases todo
      {
        ghost var some := Member(todo);
        var id :| id in todo;
        UnlistOne(info, n, todo, id);
        UnlistIfKnown(id, n);
        todo := todo - {id};
      }
      UnlistNone(info, n);
    }

    // ---------- Queries ----------

    method GetGossipableIPs(iter: set<SubnetID>, allowed: SubnetID -> bool, exceptNodeID: NodeID,
                            exceptIPs: ClaimedIP -> bool, random: (SubnetID, nat) -> nat, maxNumIPs: nat)
      returns (ips: seq<ClaimedIP>)
      requires Valid()
      ensures |ips| <= maxNumIPs
      ensures forall i, j | 0 <= i < j < |ips| :: ips[i].nodeID != ips[j].nodeID
      ensures forall i | 0 <= i < |ips| :: Eligible(info, iter, allowed, exceptNodeID, exceptIPs, ips[i])
      ensures |ips| < maxNumIPs ==>
                forall ip | Eligible(info, iter, allowed, exceptNodeID, exceptIPs, ip) ::
                  exists i :: 0 <= i < |ips| && ips[i].nodeID == ip.nodeID
    {
      ips := [];
      var nodeIDs: set<NodeID> := {};
      var todo := iter;
      while todo != {}
        invariant todo <= iter && Collected(ips, nodeIDs) && |ips| <= maxNumIPs
        invariant forall i | 0 <= i < |ips| :: Eligible(info, iter, allowed, exceptNodeID, exceptIPs, ips[i])
        invariant |ips| < maxNumIPs ==> NoneMissed(info, iter - todo, allowed, exceptNodeID, exceptIPs, nodeIDs)
        decreases todo
      {
        ghost var some := Member(todo);
        var id :| id in todo;
        ghost var before := nodeIDs;
        if allowed(id) && id in subnet {
          var more;
          more, nodeIDs := OneList(id, exceptNodeID, exceptIPs, k => random(id, k), maxNumIPs, ips, nodeIDs);
          forall i | 0 <= i < |more|
            ensures Eligible(info, iter, allowed, exceptNodeID, exceptIPs, more[i])
          {
            assert i < |ips| ==> more[i] == ips[i];
          }
          ips := more;
        }
        if |ips| >= maxNumIPs {
          return;
        }
        SameKeys();
        OneListMore(info, iter - todo, allowed, exceptNodeID, exceptIPs, before, nodeIDs, id);
        assert iter - (todo - {id}) == iter - todo + {id};
        todo := todo - {id};
      }
      assert iter - {} == iter;
    }

    method OneList(id: SubnetID, exceptNodeID: NodeID, exceptIPs: ClaimedIP -> bool, random: nat -> nat,
                   maxNumIPs: nat, ips: seq<ClaimedIP>, nodeIDs: set<NodeID>)
      returns (ips': seq<ClaimedIP>, nodeIDs': set<NodeID>)
      requires Valid() && id in subnet && Collected(ips, nodeIDs)
      ensures Collected(ips', nodeIDs') && ips <= ips' && |ips'| <= Max(|ips|, maxNumIPs) && nodeIDs <= nodeIDs'
      ensures forall i | |ips| <= i < |ips'| :: EligibleAt(info, id, exceptNodeID, exceptIPs, ips'[i])
      ensures |ips'| < maxNumIPs ==> forall ip | EligibleAt(info, id, exceptNodeID, exceptIPs, ip) :: ip.nodeID in nodeIDs'
    {
      assert Mirrors(subnet[id], id, info[id], entries[id], numGossipableIPs);
      ips', nodeIDs' := subnet[id].GetGossipableIPs(exceptNodeID, exceptIPs, random, maxNumIPs, ips, nodeIDs);
      CollectedGrows(ips, nodeIDs, ips', nodeIDs');
    }

    lemma SameKeys()
      requires Valid()
      ensures forall id :: id in info <==> id in subnet
    {
    }

    /** The gauge of the listed IPs is the sum of the lengths of the lists. */
    lemma Counted()
      requires Valid()
      ensures numTrackedSubnets == |subnet| && numGossipableIPs.value == |entries|
      ensures forall id | id in subnet :: entries[id] == |subnet[id].gossipableIPs|
      ensures forall id | id !in subnet :: entries[id] == 0
    {
      forall id | id in subnet
        ensures entries[id] == |subnet[id].gossipableIPs|
      {
        assert Mirrors(subnet[id], id, info[id], entries[id], numGossipableIPs);
      }
    }
  }
}
