/**
 The peer IP tracker as it is written: maps updated in place, gossip lists in objects of their
 own, and gauges counted up and down.  `View()` is the value of TrackerState that the object
 represents; every method moves it by the step function of the same name.
 */
module IPTrackers {
  import opened Ids
  import opened TrackerState
  import opened TrackerInvariants
  import opened GossipableSubnets
  import opened SubnetTables

  class IPTracker {
    /** The subnets the local node tracks, without the primary network. */
    const localSubnets: set<SubnetID>
    /** The fields `subnet`, `numGossipableIPs` and `numTrackedSubnets`. */
    const lists: SubnetTable
    var tracked: map<NodeID, TrackedNode>
    var connected: map<NodeID, ConnectedNode>
    var bloom: Bloom
    var numTrackedPeers: int

    /** The tracker as a value. */
    ghost function View(): State
      reads this`tracked, this`connected, this`bloom, lists`info
    {
      State(localSubnets, tracked, connected, lists.info, bloom)
    }

    ghost predicate PeersCounted()
      reads this`tracked, this`numTrackedPeers
    {
      numTrackedPeers == |tracked|
    }

    /** The lists represent their part of the value, the three gauges equal the sizes they count, and there
        is an IP wherever one will be needed. */
    ghost predicate Valid()
      reads this, lists, lists.numGossipableIPs, lists.repr
    {
      PeersCounted() && lists.Valid() && Sound(View())
    }

    constructor (localSubnets: set<SubnetID>, maxCount: nat)
      ensures Valid() && View() == NewTracker(localSubnets, maxCount)
      ensures fresh(lists) && fresh(lists.numGossipableIPs) && lists.repr == {}
    {
      this.localSubnets := localSubnets;
      lists := new SubnetTable();
      tracked, connected, bloom, numTrackedPeers := map[], map[], Bloom({}, 0, multiset{}, maxCount), 0;
    }

    // ---------- Bloom filter and tracking ----------

    /** Fails, and keeps the filter, exactly when no new filter can be made. */
    method ResetBloom(reset: ResetOutcome) returns (ok: bool)
      requires Valid()
      modifies this`bloom
      ensures Valid() && View() == old(View()).ResetBloom(reset) && ok == reset.ResetSucceeds?
    {
      bloom, ok := ResetFilter(bloom, tracked, reset);
    }

    method UpdateMostRecentTrackedIP(n: NodeID, ip: ClaimedIP, reset: ResetOutcome)
      requires PeersCounted() && n in tracked
      modifies this`tracked, this`bloom
      ensures PeersCounted() && tracked == old(tracked)[n := old(tracked)[n].(ip := Some(ip))]
      ensures bloom == old(bloom).Record(tracked, ip, reset)
    {
      tracked := tracked[n := tracked[n].(ip := Some(ip))];
      bloom := RecordIP(bloom, tracked, ip, reset);
    }

    method AddTrackableID(n: NodeID, id: Option<SubnetID>, reset: ResetOutcome)
      requires PeersCounted()
      modifies this`tracked, this`bloom, this`numTrackedPeers
      ensures PeersCounted() && View() == old(View()).AddTrackableID(n, id, reset)
    {
      if n in tracked {
        var node := Mark(tracked[n], id);
        tracked := tracked[n := node];
        return;
      }
      var node := Mark(TrackedNode(false, {}, {}, None), id);
      AddSize(tracked, n, node);
      numTrackedPeers := numTrackedPeers + 1;
      tracked := tracked[n := node];
      if n in connected {
        UpdateMostRecentTrackedIP(n, connected[n].ip, reset);
        assert tracked == old(tracked)[n := node.(ip := Some(connected[n].ip))];
      }
    }

    /** What addTrackableID does to the node's own record. */
    method Mark(node: TrackedNode, id: Option<SubnetID>) returns (marked: TrackedNode)
      ensures id.None? ==> marked == node.(manuallyTracked := true)
      ensures id.Some? ==>
                marked == node.(validatedSubnets := node.validatedSubnets + {id.value},
                                trackedSubnets := if View().IsLocal(id.value) then node.trackedSubnets + {id.value} else node.trackedSubnets)
    {
      match id
      case None =>
        marked := node.(manuallyTracked := true);
      case Some(s) =>
        marked := node.(validatedSubnets := node.validatedSubnets + {s});
        if s == PRIMARY_NETWORK_ID || s in localSubnets {
          marked := marked.(trackedSubnets := marked.trackedSubnets + {s});
        }
    }

    /** A tracked, connected node's record carries an IP of its own, so that there is one to list. */
    ghost predicate KnowsIP(n: NodeID)
      reads this`tracked, this`connected
    {
      && (n in tracked && n in connected ==> tracked[n].ip.Some? && tracked[n].ip.value.nodeID == n)
      && (n in connected ==> connected[n].ip.nodeID == n)
    }

    method AddGossipableID(n: NodeID, id: SubnetID, manually: bool)
      requires lists.Valid() && KnowsIP(n)
      modifies lists, lists.numGossipableIPs, lists.repr
      ensures lists.Valid() && lists.info == old(View()).AddGossipableID(n, id, manually).subnet
      ensures fresh(lists.repr - old(lists.repr))
    {
      var ip: Option<ClaimedIP> := None;
      if n in connected && id in connected[n].trackedSubnets && n in tracked {
        ip := tracked[n].ip;
      }
      lists.AddMember(n, id, manually, ip);
    }

    method TrackAndGossip(id: SubnetID, n: NodeID, manually: bool, reset: ResetOutcome)
      requires PeersCounted() && lists.Valid() && KnowsIP(n)
      modifies this`tracked, this`bloom, this`numTrackedPeers, lists, lists.numGossipableIPs, lists.repr
      ensures PeersCounted() && lists.Valid()
      ensures View() == old(View()).AddTrackableID(n, Some(id), reset).AddGossipableID(n, id, manually)
      ensures fresh(lists.repr - old(lists.repr))
    {
      AddTrackableID(n, Some(id), reset);
      AddGossipableID(n, id, manually);
    }

    // ---------- Locked entry points ----------

    method ManuallyTrack(n: NodeID, reset: ResetOutcome)
      requires Valid()
      modifies this`tracked, this`bloom, this`numTrackedPeers
      ensures Valid() && View() == old(View()).ManuallyTrack(n, reset)
    {
      MarkingKnowsIPs(View(), n, None, reset);
      AddTrackableID(n, None, reset);
    }

    method OnValidatorAdded(id: SubnetID, n: NodeID, reset: ResetOutcome)
      requires Valid()
      modifies this`tracked, this`bloom, this`numTrackedPeers, lists, lists.numGossipableIPs, lists.repr
      ensures Valid() && View() == old(View()).OnValidatorAdded(id, n, reset)
      ensures fresh(lists.repr - old(lists.repr))
    {
      JoiningIsSound(View(), n, id, false, reset);
      TrackAndGossip(id, n, false, reset);
    }

    method ManuallyGossip(id: SubnetID, n: NodeID, reset: ResetOutcome)
      requires Valid()
      modifies this`tracked, this`bloom, this`numTrackedPeers, lists, lists.numGossipableIPs, lists.repr
      ensures Valid() && View() == old(View()).ManuallyGossip(id, n, reset)
      ensures fresh(lists.repr - old(lists.repr))
    {
      if id == PRIMARY_NETWORK_ID || id in localSubnets {
        ManuallyTrack(n, reset);
      }
      JoiningIsSound(View(), n, id, true, reset);
      TrackAndGossip(id, n, true, reset);
    }

    /** addIP */
    method LearnIP(ip: ClaimedIP, reset: ResetOutcome) returns (comparison: TimestampComparison)
      requires PeersCounted()
      modifies this`tracked, this`bloom
      ensures PeersCounted() && comparison == old(View()).CompareTimestamp(ip)
      ensures tracked == old(View()).TrackedAfter(ip) && bloom == old(View()).BloomAfter(ip, reset)
    {
      var n := ip.nodeID;
      if n !in tracked {
        return Untracked;
      }
      if tracked[n].ip.None? {
        UpdateMostRecentTrackedIP(n, ip, reset);
        return New;
      }
      if tracked[n].ip.value.timestamp > ip.timestamp {
        return Older;
      }
      if tracked[n].ip.value.timestamp == ip.timestamp {
        return Same;
      }
      UpdateMostRecentTrackedIP(n, ip, reset);
      return Newer;
    }

    method AddIP(ip: ClaimedIP, reset: ResetOutcome) returns (wanted: bool)
      requires Valid()
      modifies this`tracked, this`bloom, lists, lists.numGossipableIPs, lists.repr
      ensures Valid() && View() == old(View()).AddIP(ip, reset) && wanted == old(View()).AddIPReturns(ip)
      ensures lists.repr == old(lists.repr)
    {
      AddIPIsSound(View(), ip, reset);
      var comparison := LearnIP(ip, reset);
      if comparison.Untracked? || comparison.Older? || comparison.Same? {
        return false;
      }
      if ip.nodeID in connected {
        lists.SetGossipableIP(ip, connected[ip.nodeID].trackedSubnets);
      }
      return tracked[ip.nodeID].WantsConnection();
    }

    method Connected(ip: ClaimedIP, subnets: set<SubnetID>, reset: ResetOutcome)
      requires Valid()
      modifies this`connected, this`tracked, this`bloom, lists, lists.numGossipableIPs, lists.repr
      ensures Valid() && View() == old(View()).Connected(ip, subnets, reset)
      ensures lists.repr == old(lists.repr)
    {
      ConnectedIsSound(View(), ip, subnets, reset);
      LearningIgnoresConnections(View(), connected[ip.nodeID := ConnectedNode(subnets, ip)], ip, reset);
      connected := connected[ip.nodeID := ConnectedNode(subnets, ip)];
      var comparison := LearnIP(ip, reset);
      if !comparison.Untracked? {
        lists.SetGossipableIP(tracked[ip.nodeID].ip.value, subnets);
      }
    }

    method Disconnected(n: NodeID)
      requires Valid()
      modifies this`connected, lists, lists.numGossipableIPs, lists.repr
      ensures Valid() && View() == old(View()).Disconnected(n)
      ensures lists.repr == old(lists.repr)
    {
      DisconnectedIsSound(View(), n);
      if n in connected {
        var subnets := connected[n].trackedSubnets;
        connected := connected - {n};
        lists.RemoveFromLists(n, subnets);
      }
    }

    method OnValidatorRemoved(id: SubnetID, n: NodeID)
      requires Valid()
      modifies this`tracked, this`numTrackedPeers, lists, lists.numGossipableIPs, lists.repr
      ensures Valid() && View() == old(View()).OnValidatorRemoved(id, n)
      ensures lists.repr == old(lists.repr)
    {
      RemovalIsSound(View(), id, n);
      RemoveValidator(id, n);
    }

    method RemoveValidator(id: SubnetID, n: NodeID)
      requires PeersCounted() && lists.Valid() && ListsOnlyMembers(lists.info)
      modifies this`tracked, this`numTrackedPeers, lists, lists.numGossipableIPs, lists.repr
      ensures PeersCounted() && lists.Valid() && View() == old(View()).OnValidatorRemoved(id, n)
      ensures lists.repr == old(lists.repr)
    {
      var removed := lists.RemoveValidator(id, n);
      if removed {
        LeaveTracked(id, n);
      }
    }

    method LeaveTracked(id: SubnetID, n: NodeID)
      requires PeersCounted()
      modifies this`tracked, this`numTrackedPeers
      ensures PeersCounted() && tracked == TrackedWithout(old(tracked), id, n)
    {
      if n !in tracked {
        return;
      }
      var node := tracked[n].(validatedSubnets := tracked[n].validatedSubnets - {id},
                              trackedSubnets := tracked[n].trackedSubnets - {id});
      if node.CanDelete() {
        RemoveSize(tracked, n);
        numTrackedPeers := numTrackedPeers - 1;
        tracked := tracked - {n};
      } else {
        tracked := tracked[n := node];
      }
    }

    // ---------- Queries ----------

    /** The IPs to gossip from some subnets, visited in any order, to a peer that knows `exceptIPs`. */
    method GetGossipableIPs(iter: set<SubnetID>, allowed: SubnetID -> bool, exceptNodeID: NodeID,
                            exceptIPs: ClaimedIP -> bool, random: (SubnetID, nat) -> nat, maxNumIPs: nat)
      returns (ips: seq<ClaimedIP>)
      requires Valid()
      ensures |ips| <= maxNumIPs
      ensures forall i, j | 0 <= i < j < |ips| :: ips[i].nodeID != ips[j].nodeID
      ensures forall i | 0 <= i < |ips| :: Eligible(lists.info, iter, allowed, exceptNodeID, exceptIPs, ips[i])
      ensures |ips| < maxNumIPs ==>
                forall ip | Eligible(lists.info, iter, allowed, exceptNodeID, exceptIPs, ip) ::
                  exists i :: 0 <= i < |ips| && ips[i].nodeID == ip.nodeID
    {
      ips := lists.GetGossipableIPs(iter, allowed, exceptNodeID, exceptIPs, random, maxNumIPs);
    }

    method WantsConnection(n: NodeID) returns (wanted: bool)
      ensures wanted == View().WantsConnection(n)
    {
      return n in tracked && tracked[n].WantsConnection();
    }

    method ShouldVerifyIP(ip: ClaimedIP, trackAllSubnets: bool) returns (should: bool)
      ensures should == View().ShouldVerifyIP(ip, trackAllSubnets)
    {
      if ip.nodeID !in tracked {
        return false;
      }
      var node := tracked[ip.nodeID];
      if !trackAllSubnets && !node.WantsConnection() {
        return false;
      }
      return node.ip.None? || node.ip.value.timestamp < ip.timestamp;
    }

    /** The latest IP of a node, and whether a connection to it is wanted. */
    method GetIP(n: NodeID) returns (ip: Option<ClaimedIP>, wanted: bool)
      ensures ip == if n in tracked then tracked[n].ip else None
      ensures wanted <==> ip.Some? && View().WantsConnection(n)
    {
      if n !in tracked || tracked[n].ip.None? {
        return None, false;
      }
      return tracked[n].ip, tracked[n].WantsConnection();
    }
  }

  /** resetBloom: a fresh filter, filled in any order with the IPs of the tracked nodes. */
  method ResetFilter(bloom: Bloom, tracked: map<NodeID, TrackedNode>, reset: ResetOutcome) returns (b: Bloom, ok: bool)
    ensures b == bloom.Reset(tracked, reset) && ok == reset.ResetSucceeds?
  {
    if reset.ResetFails? {
      return bloom, false;
    }
    ok := true;
    b := Bloom({}, 0, multiset{}, reset.maxCount);
    var todo := tracked.Keys;
    ghost var done: set<NodeID> := {};
    while todo != {}
      invariant todo <= tracked.Keys
      invariant NodesWithIP(tracked) <= done + todo && done !! todo
      invariant Filled(b, tracked, done) && b.maxCount == reset.maxCount
      decreases todo
    {
      ghost var some := Member(todo);
      var n :| n in todo;
      todo := todo - {n};
      if tracked[n].ip.Some? {
        FilledOneMore(b, tracked, done, n);
        b := b.(filter := b.filter + {tracked[n].ip.value.gossipID}, count := b.count + 1, additions := b.additions[n := 1]);
        done := done + {n};
      }
    }
    assert done == NodesWithIP(tracked);
  }

  /** The filter holds exactly one entry for each of these nodes. */
  ghost predicate Filled(b: Bloom, tracked: map<NodeID, TrackedNode>, nodes: set<NodeID>) {
    && nodes <= NodesWithIP(tracked)
    && b.filter == (set n | n in nodes :: tracked[n].ip.value.gossipID)
    && b.count == |nodes| && b.additions == multiset(nodes)
  }

  lemma FilledOneMore(b: Bloom, tracked: map<NodeID, TrackedNode>, nodes: set<NodeID>, n: NodeID)
    requires Filled(b, tracked, nodes) && n !in nodes && n in NodesWithIP(tracked)
    ensures Filled(b.(filter := b.filter + {tracked[n].ip.value.gossipID}, count := b.count + 1, additions := b.additions[n := 1]),
                   tracked, nodes + {n})
  {
  }

  /** The filter half of updateMostRecentTrackedIP. */
  method RecordIP(bloom: Bloom, tracked: map<NodeID, TrackedNode>, ip: ClaimedIP, reset: ResetOutcome) returns (b: Bloom)
    ensures b == bloom.Record(tracked, ip, reset)
  {
    var oldCount := bloom.additions[ip.nodeID];
    if oldCount >= MAX_IP_ENTRIES_PER_NODE {
      return bloom;
    }
    if bloom.count >= bloom.maxCount {
      var ok;
      b, ok := ResetFilter(bloom, tracked, reset);
      return;
    }
    b := bloom.(additions := bloom.additions[ip.nodeID := oldCount + 1],
                filter := bloom.filter + {ip.gossipID},
                count := bloom.count + 1);
  }
}
