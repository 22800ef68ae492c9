/**
 What every sequence of tracker calls keeps.  The joint invariant makes the gossip lists an
 exact function of the tracked, connected and membership maps.
 */
module TrackerInvariants {
  import opened Ids
  import opened TrackerState

  type TrackedMap = map<NodeID, TrackedNode>
  type ConnectedMap = map<NodeID, ConnectedNode>

  // ---------- The joint invariant ----------

  /** Every member of a subnet is tracked as one of its validators. */
  ghost predicate MembersTracked(id: SubnetID, info: SubnetInfo, tracked: TrackedMap) {
    forall n | n in info.gossipableIDs :: n in tracked && id in tracked[n].validatedSubnets
  }

  /** Every subnet that a node validates has it as a member. */
  ghost predicate ValidatesAsMember(n: NodeID, node: TrackedNode, subnet: SubnetMap) {
    forall id | id in node.validatedSubnets :: id in subnet && n in subnet[id].gossipableIDs
  }

  /** The node-side and the subnet-side record of who validates what are the same relation. */
  ghost predicate MembershipAgrees(tracked: TrackedMap, subnet: SubnetMap) {
    && (forall id | id in subnet :: MembersTracked(id, subnet[id], tracked))
    && (forall n | n in tracked :: ValidatesAsMember(n, tracked[n], subnet))
  }

  /** A node's trackedSubnets are those of its validatedSubnets that the local node tracks too. */
  ghost predicate LocalPartExact(local: set<SubnetID>, tracked: TrackedMap) {
    forall n | n in tracked ::
      tracked[n].trackedSubnets == tracked[n].validatedSubnets * (local + {PRIMARY_NETWORK_ID})
  }

  /** Nothing that could be deleted is kept, and manual gossip entries are gossipable. */
  ghost predicate NoGarbage(tracked: TrackedMap, subnet: SubnetMap) {
    && (forall n | n in tracked :: !tracked[n].CanDelete())
    && (forall id | id in subnet :: subnet[id].gossipableIDs != {})
    && (forall id | id in subnet :: subnet[id].manuallyGossipable <= subnet[id].gossipableIDs)
  }

  /** A tracked, connected node has an IP of its own, at least as new as the one it connected with. */
  ghost predicate IPsKnown(tracked: TrackedMap, connected: ConnectedMap) {
    && (forall n | n in connected :: connected[n].ip.nodeID == n)
    && (forall n | n in tracked && tracked[n].ip.Some? :: tracked[n].ip.value.nodeID == n)
    && (forall n | n in tracked && n in connected ::
          tracked[n].ip.Some? && tracked[n].ip.value.timestamp >= connected[n].ip.timestamp)
  }

  /** A gossip list holds exactly the members connected on the subnet ... */
  ghost predicate ListsExactly(id: SubnetID, info: SubnetInfo, connected: ConnectedMap) {
    forall n :: n in info.listed <==> n in info.gossipableIDs && n in connected && id in connected[n].trackedSubnets
  }

  /** ... each with its latest known IP. */
  ghost predicate ListsLatest(info: SubnetInfo, tracked: TrackedMap) {
    forall n | n in info.listed :: n in tracked && tracked[n].ip == Some(info.listed[n])
  }

  ghost predicate ListsMembers(connected: ConnectedMap, subnet: SubnetMap) {
    forall id | id in subnet :: ListsExactly(id, subnet[id], connected)
  }

  ghost predicate ListsLatestIPs(subnet: SubnetMap, tracked: TrackedMap) {
    forall id | id in subnet :: ListsLatest(subnet[id], tracked)
  }

  ghost predicate Coherent(s: State) {
    && MembershipAgrees(s.tracked, s.subnet)
    && LocalPartExact(s.localSubnets, s.tracked)
    && NoGarbage(s.tracked, s.subnet)
    && IPsKnown(s.tracked, s.connected)
    && ListsMembers(s.connected, s.subnet)
    && ListsLatestIPs(s.subnet, s.tracked)
  }

  // ---------- What the calls rely on ----------

  ghost predicate ListsOnlyMembers(subnet: SubnetMap) {
    forall id | id in subnet :: OnlyMembers(subnet[id])
  }

  ghost predicate OnlyMembers(info: SubnetInfo) {
    forall n | n in info.listed :: n in info.gossipableIDs
  }

  /** The part of coherence without which a call could dereference a missing IP or miscount the listed ones. */
  ghost predicate Sound(s: State) {
    IPsKnown(s.tracked, s.connected) && ListsOnlyMembers(s.subnet)
  }

  lemma LearningKnowsIPs(s: State, ip: ClaimedIP, connected: ConnectedMap)
    requires IPsKnown(s.tracked, s.connected)
    requires connected == s.connected || exists subnets :: connected == s.connected[ip.nodeID := ConnectedNode(subnets, ip)]
    ensures IPsKnown(s.TrackedAfter(ip), connected)
  {
  }

  lemma MarkingKnowsIPs(s: State, n: NodeID, id: Option<SubnetID>, reset: ResetOutcome)
    requires IPsKnown(s.tracked, s.connected)
    ensures IPsKnown(s.AddTrackableID(n, id, reset).tracked, s.connected)
  {
  }

  lemma JoiningListsOnlyMembers(s: State, n: NodeID, id: SubnetID, manually: bool)
    requires Sound(s)
    ensures ListsOnlyMembers(s.AddGossipableID(n, id, manually).subnet)
  {
    var info := s.JoinedSubnet(n, id, manually);
    assert id in s.subnet ==> OnlyMembers(s.subnet[id]);
    assert OnlyMembers(info);
  }

  lemma JoiningIsSound(s: State, n: NodeID, id: SubnetID, manually: bool, reset: ResetOutcome)
    requires Sound(s)
    ensures Sound(s.AddTrackableID(n, Some(id), reset).AddGossipableID(n, id, manually))
  {
    MarkingKnowsIPs(s, n, Some(id), reset);
    JoiningListsOnlyMembers(s.AddTrackableID(n, Some(id), reset), n, id, manually);
  }

  lemma RelistingListsOnlyMembers(subnet: SubnetMap, ip: ClaimedIP, ids: set<SubnetID>)
    requires ListsOnlyMembers(subnet)
    ensures ListsOnlyMembers(Relisted(subnet, ip, ids)) && ListsOnlyMembers(Unlisted(subnet, ip.nodeID, ids))
  {
    forall id | id in subnet
      ensures OnlyMembers(Relisted(subnet, ip, ids)[id]) && OnlyMembers(Unlisted(subnet, ip.nodeID, ids)[id])
    {
      assert OnlyMembers(subnet[id]);
    }
  }

  lemma AddIPIsSound(s: State, ip: ClaimedIP, reset: ResetOutcome)
    requires Sound(s)
    ensures Sound(s.AddIP(ip, reset))
  {
    LearningKnowsIPs(s, ip, s.connected);
    if ip.nodeID in s.connected {
      RelistingListsOnlyMembers(s.subnet, ip, s.connected[ip.nodeID].trackedSubnets);
    }
  }

  lemma ConnectedIsSound(s: State, ip: ClaimedIP, subnets: set<SubnetID>, reset: ResetOutcome)
    requires Sound(s)
    ensures Sound(s.Connected(ip, subnets, reset))
  {
    LearningKnowsIPs(s, ip, s.connected[ip.nodeID := ConnectedNode(subnets, ip)]);
    if ip.nodeID in s.tracked {
      RelistingListsOnlyMembers(s.subnet, s.TrackedAfter(ip)[ip.nodeID].ip.value, subnets);
    }
  }

  lemma DisconnectedIsSound(s: State, n: NodeID)
    requires Sound(s)
    ensures Sound(s.Disconnected(n))
  {
    if n in s.connected {
      RelistingListsOnlyMembers(s.subnet, s.connected[n].ip, s.connected[n].trackedSubnets);
    }
  }

  lemma RemovalIsSound(s: State, id: SubnetID, n: NodeID)
    requires Sound(s)
    ensures Sound(s.OnValidatorRemoved(id, n))
  {
    var t := s.OnValidatorRemoved(id, n);
    forall i | i in t.subnet
      ensures OnlyMembers(t.subnet[i])
    {
      assert OnlyMembers(s.subnet[i]);
    }
  }

  lemma ManuallyGossipIsSound(s: State, id: SubnetID, n: NodeID, reset: ResetOutcome)
    requires Sound(s)
    ensures Sound(s.ManuallyGossip(id, n, reset))
  {
    MarkingKnowsIPs(s, n, None, reset);
    JoiningIsSound(if s.IsLocal(id) then s.AddTrackableID(n, None, reset) else s, n, id, true, reset);
  }

  /** Every call, in any order and legal or not, keeps the tracker sound. */
  lemma StepSound(s: State, e: Event)
    requires Sound(s)
    ensures Sound(Step(s, e))
  {
    match e
    case ManuallyTrack(n, reset) => MarkingKnowsIPs(s, n, None, reset);
    case ManuallyGossip(id, n, reset) => ManuallyGossipIsSound(s, id, n, reset);
    case AddIP(ip, reset) => AddIPIsSound(s, ip, reset);
    case Connected(ip, subnets, reset) => ConnectedIsSound(s, ip, subnets, reset);
    case Disconnected(n) => DisconnectedIsSound(s, n);
    case OnValidatorAdded(id, n, reset) => JoiningIsSound(s, n, id, false, reset);
    case OnValidatorRemoved(id, n) => RemovalIsSound(s, id, n);
    case ResetBloom(reset) =>
  }

  // ---------- Learning an IP ----------

  /** Membership depends only on who validates what, not on IPs or lists. */
  lemma MembershipFrame(s: State, t: State)
    requires MembershipAgrees(s.tracked, s.subnet) && LocalPartExact(s.localSubnets, s.tracked) && NoGarbage(s.tracked, s.subnet)
    requires t.localSubnets == s.localSubnets && t.tracked.Keys == s.tracked.Keys && t.subnet.Keys == s.subnet.Keys
    requires forall n | n in s.tracked :: t.tracked[n] == s.tracked[n].(ip := t.tracked[n].ip)
    requires forall id | id in s.subnet :: t.subnet[id] == s.subnet[id].(listed := t.subnet[id].listed)
    ensures MembershipAgrees(t.tracked, t.subnet) && LocalPartExact(t.localSubnets, t.tracked) && NoGarbage(t.tracked, t.subnet)
  {
  }

  /** Listing a node's newest IP on every subnet it is connected on restores the lists. */
  lemma RelistExact(s: State, t: State, ip: ClaimedIP)
    requires var n := ip.nodeID;
             && n in t.connected && n in t.tracked && t.tracked[n].ip == Some(ip)
             && t.subnet == Relisted(s.subnet, ip, t.connected[n].trackedSubnets)
             && t.tracked == s.tracked[n := t.tracked[n]] && t.connected == s.connected[n := t.connected[n]]
             && (n in s.connected ==> s.connected[n] == t.connected[n])
    requires ListsMembers(s.connected, s.subnet) && ListsLatestIPs(s.subnet, s.tracked)
    ensures ListsMembers(t.connected, t.subnet) && ListsLatestIPs(t.subnet, t.tracked)
  {
    forall id | id in t.subnet
      ensures ListsExactly(id, t.subnet[id], t.connected) && ListsLatest(t.subnet[id], t.tracked)
    {
      assert ListsExactly(id, s.subnet[id], s.connected) && ListsLatest(s.subnet[id], s.tracked);
    }
  }

  /** Learning an IP does not look at who is connected. */
  lemma LearningIgnoresConnections(s: State, connected: ConnectedMap, ip: ClaimedIP, reset: ResetOutcome)
    ensures var t := s.(connected := connected);
            && t.CompareTimestamp(ip) == s.CompareTimestamp(ip)
            && t.TrackedAfter(ip) == s.TrackedAfter(ip)
            && t.BloomAfter(ip, reset) == s.BloomAfter(ip, reset)
  {
  }

  /** Relisting goes subnet by subnet, in any order. */
  lemma RelistOne(subnet: SubnetMap, ip: ClaimedIP, todo: set<SubnetID>, id: SubnetID)
    requires id in todo
    ensures Relisted(ListedAt(subnet, ip, id), ip, todo - {id}) == Relisted(subnet, ip, todo)
  {
  }

  lemma RelistNone(subnet: SubnetMap, ip: ClaimedIP)
    ensures Relisted(subnet, ip, {}) == subnet
  {
  }

  lemma UnlistOne(subnet: SubnetMap, n: NodeID, todo: set<SubnetID>, id: SubnetID)
    requires id in todo
    ensures Unlisted(UnlistedAt(subnet, n, id), n, todo - {id}) == Unlisted(subnet, n, todo)
  {
  }

  lemma UnlistNone(subnet: SubnetMap, n: NodeID)
    ensures Unlisted(subnet, n, {}) == subnet
  {
  }

  lemma AddIPCoherent(s: State, ip: ClaimedIP, reset: ResetOutcome)
    requires Coherent(s)
    ensures Coherent(s.AddIP(ip, reset))
  {
    if s.IsNews(ip) {
      MembershipFrame(s, s.AddIP(ip, reset));
      if ip.nodeID in s.connected {
        RelistExact(s, s.AddIP(ip, reset), ip);
      }
    }
  }

  lemma ConnectedCoherent(s: State, ip: ClaimedIP, subnets: set<SubnetID>, reset: ResetOutcome)
    requires Coherent(s)
    requires ip.nodeID !in s.connected
    ensures Coherent(s.Connected(ip, subnets, reset))
  {
    var n, t := ip.nodeID, s.Connected(ip, subnets, reset);
    if n in s.tracked {
      MembershipFrame(s, t);
      RelistExact(s, t, t.tracked[n].ip.value);
    } else {
      forall id | id in s.subnet
        ensures n !in s.subnet[id].gossipableIDs && ListsExactly(id, s.subnet[id], t.connected)
      {
        assert MembersTracked(id, s.subnet[id], s.tracked) && ListsExactly(id, s.subnet[id], s.connected);
      }
    }
  }

  lemma DisconnectedCoherent(s: State, n: NodeID)
    requires Coherent(s)
    ensures Coherent(s.Disconnected(n))
  {
    var t := s.Disconnected(n);
    MembershipFrame(s, t);
    forall id | id in t.subnet
      ensures ListsExactly(id, t.subnet[id], t.connected) && ListsLatest(t.subnet[id], t.tracked)
    {
      assert ListsExactly(id, s.subnet[id], s.connected) && ListsLatest(s.subnet[id], s.tracked);
    }
  }

  // ---------- Joining and leaving a subnet ----------

  lemma ManuallyTrackCoherent(s: State, n: NodeID, reset: ResetOutcome)
    requires Coherent(s)
    ensures Coherent(s.ManuallyTrack(n, reset))
  {
    var t := s.ManuallyTrack(n, reset);
    assert n in t.tracked && t.tracked == s.tracked[n := t.tracked[n]];
  }

  function ValidatedBefore(s: State, n: NodeID): set<SubnetID> {
    if n in s.tracked then s.tracked[n].validatedSubnets else {}
  }

  function InfoBefore(s: State, id: SubnetID): SubnetInfo {
    if id in s.subnet then s.subnet[id] else SubnetInfo({}, {}, map[])
  }

  /** `t` is `s` after node `n` joined subnet `id` on both sides. */
  ghost predicate Joined(s: State, t: State, id: SubnetID, n: NodeID) {
    && t.localSubnets == s.localSubnets && t.connected == s.connected
    && n in t.tracked && t.tracked == s.tracked[n := t.tracked[n]]
    && id in t.subnet && t.subnet == s.subnet[id := t.subnet[id]]
    && t.tracked[n].validatedSubnets == ValidatedBefore(s, n) + {id}
    && t.tracked[n].trackedSubnets == t.tracked[n].validatedSubnets * (s.localSubnets + {PRIMARY_NETWORK_ID})
    && t.subnet[id].gossipableIDs == InfoBefore(s, id).gossipableIDs + {n}
    && t.subnet[id].manuallyGossipable <= t.subnet[id].gossipableIDs
    && (if n in s.tracked then t.tracked[n].ip == s.tracked[n].ip
        else t.tracked[n].ip == if n in s.connected then Some(s.connected[n].ip) else None)
    && t.subnet[id].listed ==
       (if n in s.connected && id in s.connected[n].trackedSubnets && t.tracked[n].ip.Some?
        then InfoBefore(s, id).listed[n := t.tracked[n].ip.value] else InfoBefore(s, id).listed)
  }

  lemma JoinedMembership(s: State, t: State, id: SubnetID, n: NodeID)
    requires MembershipAgrees(s.tracked, s.subnet) && Joined(s, t, id, n)
    ensures MembershipAgrees(t.tracked, t.subnet)
  {
    forall i | i in t.subnet
      ensures MembersTracked(i, t.subnet[i], t.tracked)
    {
      assert i != id ==> MembersTracked(i, s.subnet[i], s.tracked);
      assert i == id && id in s.subnet ==> MembersTracked(id, s.subnet[id], s.tracked);
    }
    forall m | m in t.tracked
      ensures ValidatesAsMember(m, t.tracked[m], t.subnet)
    {
      assert m in s.tracked ==> ValidatesAsMember(m, s.tracked[m], s.subnet);
    }
  }

  lemma JoinedTidy(s: State, t: State, id: SubnetID, n: NodeID)
    requires LocalPartExact(s.localSubnets, s.tracked) && NoGarbage(s.tracked, s.subnet) && Joined(s, t, id, n)
    ensures LocalPartExact(t.localSubnets, t.tracked) && NoGarbage(t.tracked, t.subnet)
  {
    assert id in t.tracked[n].validatedSubnets && n in t.subnet[id].gossipableIDs;
  }

  lemma JoinedIPs(s: State, t: State, id: SubnetID, n: NodeID)
    requires IPsKnown(s.tracked, s.connected) && Joined(s, t, id, n)
    ensures IPsKnown(t.tracked, t.connected)
  {
  }

  lemma JoinedLists(s: State, t: State, id: SubnetID, n: NodeID)
    requires ListsMembers(s.connected, s.subnet) && Joined(s, t, id, n) && IPsKnown(t.tracked, t.connected)
    ensures ListsMembers(t.connected, t.subnet)
  {
    forall i | i in t.subnet
      ensures ListsExactly(i, t.subnet[i], t.connected)
    {
      if i != id {
        assert ListsExactly(i, s.subnet[i], s.connected);
      } else if id in s.subnet {
        assert ListsExactly(id, s.subnet[id], s.connected);
      }
    }
  }

  lemma JoinedLatest(s: State, t: State, id: SubnetID, n: NodeID)
    requires ListsMembers(s.connected, s.subnet) && ListsLatestIPs(s.subnet, s.tracked) && Joined(s, t, id, n)
    ensures ListsLatestIPs(t.subnet, t.tracked)
  {
    forall i | i in t.subnet
      ensures ListsLatest(t.subnet[i], t.tracked)
    {
      if i != id {
        assert ListsLatest(s.subnet[i], s.tracked);
      } else if id in s.subnet {
        assert ListsLatest(s.subnet[id], s.tracked);
      }
    }
  }

  lemma JoinedCoherent(s: State, t: State, id: SubnetID, n: NodeID)
    requires Coherent(s) && Joined(s, t, id, n)
    ensures Coherent(t)
  {
    JoinedMembership(s, t, id, n);
    JoinedTidy(s, t, id, n);
    JoinedIPs(s, t, id, n);
    JoinedLists(s, t, id, n);
    JoinedLatest(s, t, id, n);
  }

  lemma MarkedEffect(s: State, id: SubnetID, n: NodeID)
    requires LocalPartExact(s.localSubnets, s.tracked)
    ensures var node := s.MarkedNode(n, Some(id));
            && node.validatedSubnets == ValidatedBefore(s, n) + {id}
            && node.trackedSubnets == node.validatedSubnets * (s.localSubnets + {PRIMARY_NETWORK_ID})
            && (if n in s.tracked then node.ip == s.tracked[n].ip
                else node.ip == if n in s.connected then Some(s.connected[n].ip) else None)
  {
  }

  lemma JoinEffect(s: State, id: SubnetID, n: NodeID, manually: bool, reset: ResetOutcome)
    requires Coherent(s)
    ensures Joined(s, s.AddTrackableID(n, Some(id), reset).AddGossipableID(n, id, manually), id, n)
  {
    MarkedEffect(s, id, n);
    var t := s.AddTrackableID(n, Some(id), reset);
    JoinedSubnetEffect(s, t, id, n, manually);
  }

  lemma JoinedSubnetEffect(s: State, t: State, id: SubnetID, n: NodeID, manually: bool)
    requires Coherent(s) && t.subnet == s.subnet && t.connected == s.connected && n in t.tracked
    requires if n in s.tracked then t.tracked[n].ip == s.tracked[n].ip
             else t.tracked[n].ip == if n in s.connected then Some(s.connected[n].ip) else None
    ensures var info := t.JoinedSubnet(n, id, manually);
            && info.gossipableIDs == InfoBefore(s, id).gossipableIDs + {n}
            && info.manuallyGossipable <= info.gossipableIDs
            && info.listed ==
               (if n in s.connected && id in s.connected[n].trackedSubnets && t.tracked[n].ip.Some?
                then InfoBefore(s, id).listed[n := t.tracked[n].ip.value] else InfoBefore(s, id).listed)
  {
  }

  lemma OnValidatorAddedCoherent(s: State, id: SubnetID, n: NodeID, reset: ResetOutcome)
    requires Coherent(s)
    ensures Coherent(s.OnValidatorAdded(id, n, reset))
  {
    JoinEffect(s, id, n, false, reset);
    JoinedCoherent(s, s.OnValidatorAdded(id, n, reset), id, n);
  }

  lemma ManuallyGossipCoherent(s: State, id: SubnetID, n: NodeID, reset: ResetOutcome)
    requires Coherent(s)
    ensures Coherent(s.ManuallyGossip(id, n, reset))
  {
    ManuallyTrackCoherent(s, n, reset);
    var t := if s.IsLocal(id) then s.ManuallyTrack(n, reset) else s;
    JoinEffect(t, id, n, true, reset);
    JoinedCoherent(t, s.ManuallyGossip(id, n, reset), id, n);
  }

  lemma RemovalKeepsMembers(s: State, id: SubnetID, n: NodeID)
    requires MembershipAgrees(s.tracked, s.subnet)
    ensures var t := s.OnValidatorRemoved(id, n); forall i | i in t.subnet :: MembersTracked(i, t.subnet[i], t.tracked)
  {
    var t := s.OnValidatorRemoved(id, n);
    forall i, m | i in t.subnet && m in t.subnet[i].gossipableIDs
      ensures m in t.tracked && i in t.tracked[m].validatedSubnets
    {
      assert MembersTracked(i, s.subnet[i], s.tracked);
      assert i != id ==> i in s.tracked[m].validatedSubnets - {id};
    }
  }

  lemma RemovalKeepsValidated(s: State, id: SubnetID, n: NodeID)
    requires MembershipAgrees(s.tracked, s.subnet)
    ensures var t := s.OnValidatorRemoved(id, n); forall m | m in t.tracked :: ValidatesAsMember(m, t.tracked[m], t.subnet)
  {
    var t := s.OnValidatorRemoved(id, n);
    forall m, i | m in t.tracked && i in t.tracked[m].validatedSubnets
      ensures i in t.subnet && m in t.subnet[i].gossipableIDs
    {
      assert ValidatesAsMember(m, s.tracked[m], s.subnet);
      assert i == id && m != n && t != s ==> m in s.subnet[id].gossipableIDs - {n};
    }
  }

  lemma RemovalTidy(s: State, id: SubnetID, n: NodeID)
    requires LocalPartExact(s.localSubnets, s.tracked) && NoGarbage(s.tracked, s.subnet)
    ensures var t := s.OnValidatorRemoved(id, n); LocalPartExact(t.localSubnets, t.tracked) && NoGarbage(t.tracked, t.subnet)
  {
  }

  lemma RemovalKeepsLists(s: State, id: SubnetID, n: NodeID)
    requires ListsMembers(s.connected, s.subnet)
    ensures ListsMembers(s.connected, s.OnValidatorRemoved(id, n).subnet)
  {
    var t := s.OnValidatorRemoved(id, n);
    forall i | i in t.subnet
      ensures ListsExactly(i, t.subnet[i], s.connected)
    {
      assert ListsExactly(i, s.subnet[i], s.connected);
    }
  }

  /** A node that leaves the tracked map was a member of the one subnet only, and is not listed there any more. */
  lemma RemovalKeepsLatest(s: State, id: SubnetID, n: NodeID)
    requires MembershipAgrees(s.tracked, s.subnet) && ListsMembers(s.connected, s.subnet) && ListsLatestIPs(s.subnet, s.tracked)
    ensures var t := s.OnValidatorRemoved(id, n); ListsLatestIPs(t.subnet, t.tracked)
  {
    var t := s.OnValidatorRemoved(id, n);
    forall i, m | i in t.subnet && m in t.subnet[i].listed
      ensures m in t.tracked && t.tracked[m].ip == Some(t.subnet[i].listed[m])
    {
      assert ListsLatest(s.subnet[i], s.tracked) && ListsExactly(i, s.subnet[i], s.connected);
      assert MembersTracked(i, s.subnet[i], s.tracked);
      assert i != id ==> i in s.tracked[m].validatedSubnets - {id};
    }
  }

  lemma OnValidatorRemovedCoherent(s: State, id: SubnetID, n: NodeID)
    requires Coherent(s)
    ensures Coherent(s.OnValidatorRemoved(id, n))
  {
    RemovalKeepsMembers(s, id, n);
    RemovalKeepsValidated(s, id, n);
    RemovalTidy(s, id, n);
    RemovalKeepsLists(s, id, n);
    RemovalKeepsLatest(s, id, n);
  }

  lemma StepCoherent(s: State, e: Event)
    requires Coherent(s) && Legal(s, e)
    ensures Coherent(Step(s, e))
  {
    match e
    case ManuallyTrack(n, reset) => ManuallyTrackCoherent(s, n, reset);
    case ManuallyGossip(id, n, reset) => ManuallyGossipCoherent(s, id, n, reset);
    case AddIP(ip, reset) => AddIPCoherent(s, ip, reset);
    case Connected(ip, subnets, reset) => ConnectedCoherent(s, ip, subnets, reset);
    case Disconnected(n) => DisconnectedCoherent(s, n);
    case OnValidatorAdded(id, n, reset) => OnValidatorAddedCoherent(s, id, n, reset);
    case OnValidatorRemoved(id, n) => OnValidatorRemovedCoherent(s, id, n);
    case ResetBloom(reset) =>
  }

  lemma PrefixRun(s: State, es: seq<Event>, k: nat)
    requires k <= |es| && LegalRun(s, es)
    ensures LegalRun(s, es[..k])
  {
    forall i | 0 <= i < k ensures Legal(Run(s, es[..k][..i]), es[..k][i]) {
      assert es[..k][..i] == es[..i];
    }
  }

  /** After every legal sequence of calls the tracker is coherent. */
  lemma {:induction false} RunCoherent(s: State, es: seq<Event>)
    requires Coherent(s) && LegalRun(s, es)
    ensures Coherent(Run(s, es))
  {
    if es != [] {
      var k := |es| - 1;
      PrefixRun(s, es, k);
      RunCoherent(s, es[..k]);
      assert es[..k] == es[..k][..k];
      StepCoherent(Run(s, es[..k]), es[k]);
    }
  }

  /** What coherence says of the gossip lists, read off the other maps alone: a list holds exactly the
      members connected on the subnet, each with its latest IP, which is thus the same on all subnets
      and no older than the IP the node connected with. */
  ghost predicate GossipExact(s: State) {
    forall id, n | id in s.subnet ::
      if n in s.subnet[id].gossipableIDs && n in s.connected && id in s.connected[n].trackedSubnets then
        && n in s.subnet[id].listed
        && n in s.tracked && s.tracked[n].ip == Some(s.subnet[id].listed[n])
        && s.subnet[id].listed[n].nodeID == n
        && s.subnet[id].listed[n].timestamp >= s.connected[n].ip.timestamp
      else
        n !in s.subnet[id].listed
  }

  lemma CoherentGossipExact(s: State)
    requires Coherent(s)
    ensures GossipExact(s)
  {
    forall id | id in s.subnet
      ensures ListsExactly(id, s.subnet[id], s.connected) && ListsLatest(s.subnet[id], s.tracked)
    {
    }
  }

  /** After every legal sequence of calls on a new tracker the gossip lists are exact. */
  lemma GossipListsAreExact(local: set<SubnetID>, maxCount: nat, es: seq<Event>)
    requires LegalRun(NewTracker(local, maxCount), es)
    ensures GossipExact(Run(NewTracker(local, maxCount), es))
  {
    NewTrackerCoherent(local, maxCount);
    RunCoherent(NewTracker(local, maxCount), es);
    CoherentGossipExact(Run(NewTracker(local, maxCount), es));
  }

  lemma NewTrackerCoherent(local: set<SubnetID>, maxCount: nat)
    ensures Coherent(NewTracker(local, maxCount)) && BloomOk(NewTracker(local, maxCount))
  {
  }

  /** A connection is wanted exactly for manually tracked nodes and gossipable nodes of local subnets. */
  lemma WantsConnectionExactly(s: State, n: NodeID)
    requires Coherent(s)
    ensures s.WantsConnection(n) <==>
            || (n in s.tracked && s.tracked[n].manuallyTracked)
            || (exists id :: s.IsLocal(id) && s.IsGossipable(id, n))
  {
    if n in s.tracked && s.tracked[n].trackedSubnets != {} {
      var id := Member(s.tracked[n].trackedSubnets);
      assert id in s.tracked[n].validatedSubnets;
      assert s.IsLocal(id) && s.IsGossipable(id, n);
    }
    forall id | s.IsLocal(id) && s.IsGossipable(id, n) ensures s.WantsConnection(n) {
      assert id in s.tracked[n].trackedSubnets;
    }
  }

  /** Skipping signature checks by ShouldVerifyIP loses no IP that AddIP would report. */
  lemma ShouldVerifyIPAgrees(s: State, ip: ClaimedIP)
    ensures s.ShouldVerifyIP(ip, false) <==> s.AddIPReturns(ip)
    ensures s.ShouldVerifyIP(ip, true) <==> s.IsNews(ip)
  {
  }

  /** While a node stays tracked its IP is never forgotten and never replaced by an older one. */
  lemma StepKeepsIP(s: State, e: Event, n: NodeID)
    requires n in s.tracked && s.tracked[n].ip.Some? && n in Step(s, e).tracked
    ensures Step(s, e).tracked[n].ip.Some?
    ensures Step(s, e).tracked[n].ip.value.timestamp >= s.tracked[n].ip.value.timestamp
  {
    match e
    case ManuallyTrack(_, _) =>
    case ManuallyGossip(id, m, reset) =>
      var t := if s.IsLocal(id) then s.ManuallyTrack(m, reset) else s;
      assert t.tracked[n].ip == s.tracked[n].ip;
    case AddIP(_, _) =>
    case Connected(_, _, _) =>
    case Disconnected(_) =>
    case OnValidatorAdded(_, _, _) =>
    case OnValidatorRemoved(_, _) =>
    case ResetBloom(_) =>
  }

  lemma {:induction false} TimestampsNeverDecrease(s: State, es: seq<Event>, n: NodeID)
    requires forall i | 0 <= i <= |es| :: n in Run(s, es[..i]).tracked
    requires n in s.tracked && s.tracked[n].ip.Some?
    ensures n in Run(s, es).tracked && Run(s, es).tracked[n].ip.Some?
    ensures Run(s, es).tracked[n].ip.value.timestamp >= s.tracked[n].ip.value.timestamp
  {
    if es != [] {
      var k := |es| - 1;
      forall i | 0 <= i <= k ensures n in Run(s, es[..k][..i]).tracked {
        assert es[..k][..i] == es[..i];
      }
      TimestampsNeverDecrease(s, es[..k], n);
      assert es[..|es|] == es;
      StepKeepsIP(Run(s, es[..k]), es[k], n);
    }
  }

  // ---------- The bloom filter ----------

  /** The quotas add up to the number of insertions since the last reset. */
  ghost predicate BloomWithinQuota(b: Bloom) {
    && |b.additions| == b.count
    && forall n :: b.additions[n] <= MAX_IP_ENTRIES_PER_NODE
  }

  /** A tracked node that has not used up its quota has its latest IP in the filter. */
  ghost predicate BloomCovers(tracked: TrackedMap, b: Bloom) {
    forall n | n in tracked && tracked[n].ip.Some? && b.additions[n] < MAX_IP_ENTRIES_PER_NODE ::
      tracked[n].ip.value.gossipID in b.filter
  }

  /** A successful reset leaves exactly the latest IPs of the tracked nodes in the filter, one addition each. */
  lemma ResetRestoresBloom(tracked: TrackedMap, b: Bloom, maxCount: nat)
    ensures var b' := b.Reset(tracked, ResetSucceeds(maxCount));
            && BloomWithinQuota(b') && BloomCovers(tracked, b') && b'.maxCount == maxCount
            && (forall g :: g in b'.filter <==> exists n :: n in tracked && tracked[n].ip.Some? && tracked[n].ip.value.gossipID == g)
            && (forall n :: b'.additions[n] == if n in tracked && tracked[n].ip.Some? then 1 else 0)
  {
    var nodes := NodesWithIP(tracked);
    assert forall n :: n in nodes <==> n in tracked && tracked[n].ip.Some?;
  }

  lemma RecordWithinQuota(tracked: TrackedMap, b: Bloom, ip: ClaimedIP, reset: ResetOutcome)
    requires BloomWithinQuota(b)
    ensures BloomWithinQuota(b.Record(tracked, ip, reset))
  {
    if reset.ResetSucceeds? {
      ResetRestoresBloom(tracked, b, reset.maxCount);
    }
  }

  /** Learning an IP keeps the coverage exactly when the IP fits, the reset works or nothing is lost. */
  lemma RecordCovers(tracked: TrackedMap, node: TrackedNode, b: Bloom, ip: ClaimedIP, reset: ResetOutcome)
    requires node.ip == Some(ip) && BloomCovers(tracked - {ip.nodeID}, b)
    ensures var tracked' := tracked[ip.nodeID := node];
            BloomCovers(tracked', b.Record(tracked', ip, reset)) <==>
            || b.additions[ip.nodeID] >= MAX_IP_ENTRIES_PER_NODE
            || b.count < b.maxCount
            || reset.ResetSucceeds?
            || ip.gossipID in b.filter
  {
    var n, tracked' := ip.nodeID, tracked[ip.nodeID := node];
    var b' := b.Record(tracked', ip, reset);
    assert tracked'[n] == node;
    forall m | m in tracked' && m != n && tracked'[m].ip.Some? && b.additions[m] < MAX_IP_ENTRIES_PER_NODE
      ensures tracked'[m].ip.value.gossipID in b.filter
    {
      assert m in tracked - {n};
    }
  }

  /** Which IPs are known is all that coverage depends on. */
  lemma CoversFrame(tracked: TrackedMap, tracked': TrackedMap, b: Bloom)
    requires BloomCovers(tracked, b)
    requires forall n | n in tracked' && tracked'[n].ip.Some? :: n in tracked && tracked[n].ip == tracked'[n].ip
    ensures BloomCovers(tracked', b)
  {
  }

  ghost predicate BloomOk(s: State) {
    BloomWithinQuota(s.bloom) && BloomCovers(s.tracked, s.bloom)
  }

  lemma AddTrackableBloomOk(s: State, n: NodeID, id: Option<SubnetID>, reset: ResetOutcome)
    requires IPsKnown(s.tracked, s.connected) && BloomOk(s) && reset.ResetSucceeds?
    ensures BloomOk(s.AddTrackableID(n, id, reset))
  {
    var t := s.AddTrackableID(n, id, reset);
    if n !in s.tracked && n in s.connected {
      RecordWithinQuota(t.tracked, s.bloom, s.connected[n].ip, reset);
      RecordCovers(s.tracked, t.tracked[n], s.bloom, s.connected[n].ip, reset);
    } else {
      CoversFrame(s.tracked, t.tracked, s.bloom);
    }
  }

  lemma ManuallyGossipBloomOk(s: State, id: SubnetID, n: NodeID, reset: ResetOutcome)
    requires Coherent(s) && BloomOk(s) && reset.ResetSucceeds?
    ensures BloomOk(s.ManuallyGossip(id, n, reset))
  {
    AddTrackableBloomOk(s, n, None, reset);
    ManuallyTrackCoherent(s, n, reset);
    AddTrackableBloomOk(if s.IsLocal(id) then s.ManuallyTrack(n, reset) else s, n, Some(id), reset);
  }

  lemma LearnBloomOk(s: State, ip: ClaimedIP, reset: ResetOutcome)
    requires BloomOk(s) && reset.ResetSucceeds?
    ensures BloomWithinQuota(s.BloomAfter(ip, reset)) && BloomCovers(s.TrackedAfter(ip), s.BloomAfter(ip, reset))
  {
    if s.IsNews(ip) {
      RecordWithinQuota(s.TrackedAfter(ip), s.bloom, ip, reset);
      RecordCovers(s.tracked, s.TrackedAfter(ip)[ip.nodeID], s.bloom, ip, reset);
    }
  }

  ghost predicate ResetsSucceed(e: Event) {
    match e
    case Disconnected(_) => true
    case OnValidatorRemoved(_, _) => true
    case _ => e.reset.ResetSucceeds?
  }

  lemma StepBloomOk(s: State, e: Event)
    requires Coherent(s) && BloomOk(s) && ResetsSucceed(e)
    ensures BloomOk(Step(s, e))
  {
    match e
    case ManuallyTrack(n, reset) => AddTrackableBloomOk(s, n, None, reset);
    case ManuallyGossip(id, n, reset) =>
      ManuallyGossipBloomOk(s, id, n, reset);
    case AddIP(ip, reset) => LearnBloomOk(s, ip, reset);
    case Connected(ip, subnets, reset) => LearnBloomOk(s, ip, reset);
    case Disconnected(n) =>
    case OnValidatorAdded(id, n, reset) => AddTrackableBloomOk(s, n, Some(id), reset);
    case OnValidatorRemoved(id, n) => CoversFrame(s.tracked, s.OnValidatorRemoved(id, n).tracked, s.bloom);
    case ResetBloom(reset) => ResetRestoresBloom(s.tracked, s.bloom, reset.maxCount);
  }

  /** As long as resets succeed, every run keeps the quotas exact and the filter up to date. */
  lemma {:induction false} RunBloomOk(s: State, es: seq<Event>)
    requires Coherent(s) && BloomOk(s) && LegalRun(s, es)
    requires forall i | 0 <= i < |es| :: ResetsSucceed(es[i])
    ensures BloomOk(Run(s, es))
  {
    if es != [] {
      var k := |es| - 1;
      PrefixRun(s, es, k);
      RunBloomOk(s, es[..k]);
      RunCoherent(s, es[..k]);
      StepBloomOk(Run(s, es[..k]), es[k]);
    }
  }

  /** The quotas stay exact even when resets fail. */
  lemma StepWithinQuota(s: State, e: Event)
    requires BloomWithinQuota(s.bloom)
    ensures BloomWithinQuota(Step(s, e).bloom)
  {
    match e
    case ManuallyTrack(n, reset) => AddTrackableWithinQuota(s, n, None, reset);
    case ManuallyGossip(id, n, reset) =>
      AddTrackableWithinQuota(s, n, None, reset);
      AddTrackableWithinQuota(if s.IsLocal(id) then s.ManuallyTrack(n, reset) else s, n, Some(id), reset);
    case AddIP(ip, reset) => RecordWithinQuota(s.TrackedAfter(ip), s.bloom, ip, reset);
    case Connected(ip, subnets, reset) => RecordWithinQuota(s.TrackedAfter(ip), s.bloom, ip, reset);
    case Disconnected(n) =>
    case OnValidatorAdded(id, n, reset) => AddTrackableWithinQuota(s, n, Some(id), reset);
    case OnValidatorRemoved(id, n) =>
    case ResetBloom(reset) =>
      if reset.ResetSucceeds? {
        ResetRestoresBloom(s.tracked, s.bloom, reset.maxCount);
      }
  }

  lemma AddTrackableWithinQuota(s: State, n: NodeID, id: Option<SubnetID>, reset: ResetOutcome)
    requires BloomWithinQuota(s.bloom)
    ensures BloomWithinQuota(s.AddTrackableID(n, id, reset).bloom)
  {
    if n !in s.tracked && n in s.connected {
      RecordWithinQuota(s.AddTrackableID(n, id, reset).tracked, s.bloom, s.connected[n].ip, reset);
    }
  }

  lemma {:induction false} RunWithinQuota(s: State, es: seq<Event>)
    requires BloomWithinQuota(s.bloom)
    ensures BloomWithinQuota(Run(s, es).bloom)
  {
    if es != [] {
      RunWithinQuota(s, es[..|es| - 1]);
      StepWithinQuota(Run(s, es[..|es| - 1]), es[|es| - 1]);
    }
  }
}
