/**
 The state of the peer IP tracker as a value, with one function per locked entry point of
 `ipTracker`.  The class in IPTracker.dfy refines these functions; TrackerInvariants.dfy
 proves what every sequence of them keeps.
 */
module TrackerState {
  import opened Ids

  /** Each node may put this many IPs into the bloom filter between two resets. */
  const MAX_IP_ENTRIES_PER_NODE := 2

  /** A hash of the node and the timestamp; what the bloom filter holds. */
  type GossipID = int

  datatype ClaimedIP = ClaimedIP(nodeID: NodeID, addr: int, timestamp: int, gossipID: GossipID)

  datatype TrackedNode = TrackedNode(
    manuallyTracked: bool,
    validatedSubnets: set<SubnetID>,
    trackedSubnets: set<SubnetID>,
    ip: Option<ClaimedIP>)
  {
    predicate WantsConnection() {
      manuallyTracked || trackedSubnets != {}
    }

    predicate CanDelete() {
      !manuallyTracked && validatedSubnets == {}
    }
  }

  datatype ConnectedNode = ConnectedNode(trackedSubnets: set<SubnetID>, ip: ClaimedIP)

  /** A `gossipableSubnet`: who may be gossiped, and the IP listed for each node that is. */
  datatype SubnetInfo = SubnetInfo(
    manuallyGossipable: set<NodeID>,
    gossipableIDs: set<NodeID>,
    listed: map<NodeID, ClaimedIP>)
  {
    function List(ip: ClaimedIP): SubnetInfo {
      this.(listed := listed[ip.nodeID := ip])
    }

    function Unlist(n: NodeID): SubnetInfo {
      this.(listed := listed - {n})
    }
  }

  type SubnetMap = map<SubnetID, SubnetInfo>

  /** The bloom filter (its exact contents and insertion count) and the per-node quota. */
  datatype Bloom = Bloom(filter: set<GossipID>, count: nat, additions: multiset<NodeID>, maxCount: nat) {
    /** resetBloom: on success a fresh filter holding one entry per tracked node with an IP. */
    function Reset(tracked: map<NodeID, TrackedNode>, reset: ResetOutcome): Bloom {
      match reset
      case ResetFails => this
      case ResetSucceeds(maxCount) =>
        var nodes := NodesWithIP(tracked);
        Bloom(set n | n in nodes :: tracked[n].ip.value.gossipID, |nodes|, multiset(nodes), maxCount)
    }

    /** The filter half of updateMostRecentTrackedIP: within the quota, insert the IP or reset a full filter. */
    function Record(tracked: map<NodeID, TrackedNode>, ip: ClaimedIP, reset: ResetOutcome): Bloom {
      if additions[ip.nodeID] >= MAX_IP_ENTRIES_PER_NODE then
        this
      else if count >= maxCount then
        Reset(tracked, reset)
      else
        Bloom(filter + {ip.gossipID}, count + 1, additions[ip.nodeID := additions[ip.nodeID] + 1], maxCount)
    }
  }

  function NodesWithIP(tracked: map<NodeID, TrackedNode>): set<NodeID> {
    set n | n in tracked && tracked[n].ip.Some?
  }

  /** How an attempt to reset the bloom filter ends; success fixes the new maximum count. */
  datatype ResetOutcome = ResetSucceeds(maxCount: nat) | ResetFails

  datatype TimestampComparison = Untracked | Older | Same | Newer | New

  datatype State = State(
    localSubnets: set<SubnetID>,
    tracked: map<NodeID, TrackedNode>,
    connected: map<NodeID, ConnectedNode>,
    subnet: SubnetMap,
    bloom: Bloom)
  {
    predicate IsLocal(s: SubnetID) {
      s == PRIMARY_NETWORK_ID || s in localSubnets
    }

    predicate IsGossipable(s: SubnetID, n: NodeID) {
      s in subnet && n in subnet[s].gossipableIDs
    }

    // ---------- Tracking ----------

    /** The node's record after addTrackableID; no subnet means it is tracked manually.
        A node tracked anew brings along the IP it is connected with. */
    function MarkedNode(n: NodeID, s: Option<SubnetID>): TrackedNode {
      var node :=
        if n in tracked then tracked[n]
        else TrackedNode(false, {}, {}, if n in connected then Some(connected[n].ip) else None);
      match s
      case None => node.(manuallyTracked := true)
      case Some(id) => node.(validatedSubnets := node.validatedSubnets + {id},
                             trackedSubnets := if IsLocal(id) then node.trackedSubnets + {id} else node.trackedSubnets)
    }

    /** addTrackableID */
    function AddTrackableID(n: NodeID, s: Option<SubnetID>, reset: ResetOutcome): State {
      var tracked' := tracked[n := MarkedNode(n, s)];
      this.(tracked := tracked',
            bloom := if n !in tracked && n in connected then bloom.Record(tracked', connected[n].ip, reset) else bloom)
    }

    // ---------- Learning an IP ----------

    /** The comparison that addIP returns. */
    function CompareTimestamp(ip: ClaimedIP): TimestampComparison {
      if ip.nodeID !in tracked then Untracked
      else if tracked[ip.nodeID].ip.None? then New
      else if tracked[ip.nodeID].ip.value.timestamp > ip.timestamp then Older
      else if tracked[ip.nodeID].ip.value.timestamp == ip.timestamp then Same
      else Newer
    }

    predicate IsNews(ip: ClaimedIP) {
      CompareTimestamp(ip).New? || CompareTimestamp(ip).Newer?
    }

    /** addIP: remember the IP if it is the node's first or newer than the one known. */
    function TrackedAfter(ip: ClaimedIP): map<NodeID, TrackedNode> {
      if IsNews(ip) then tracked[ip.nodeID := tracked[ip.nodeID].(ip := Some(ip))] else tracked
    }

    function BloomAfter(ip: ClaimedIP, reset: ResetOutcome): Bloom {
      if IsNews(ip) then bloom.Record(TrackedAfter(ip), ip, reset) else bloom
    }

    // ---------- Gossip lists ----------

    /** The IP to list when the node joins a subnet: its latest, if it is connected on the subnet. */
    function IPToList(n: NodeID, s: SubnetID): Option<ClaimedIP> {
      if n in connected && s in connected[n].trackedSubnets && n in tracked then tracked[n].ip else None
    }

    /** The subnet after addGossipableID; a node connected on the subnet is listed at once. */
    function JoinedSubnet(n: NodeID, s: SubnetID, manually: bool): SubnetInfo {
      JoinedInfo(InfoOf(subnet, s), n, manually, IPToList(n, s))
    }

    /** addGossipableID */
    function AddGossipableID(n: NodeID, s: SubnetID, manually: bool): State {
      this.(subnet := subnet[s := JoinedSubnet(n, s, manually)])
    }

    // ---------- Locked entry points ----------

    function ResetBloom(reset: ResetOutcome): State {
      this.(bloom := bloom.Reset(tracked, reset))
    }

    function ManuallyTrack(n: NodeID, reset: ResetOutcome): State {
      AddTrackableID(n, None, reset)
    }

    function ManuallyGossip(s: SubnetID, n: NodeID, reset: ResetOutcome): State {
      var t := if IsLocal(s) then AddTrackableID(n, None, reset) else this;
      t.AddTrackableID(n, Some(s), reset).AddGossipableID(n, s, true)
    }

    function OnValidatorAdded(s: SubnetID, n: NodeID, reset: ResetOutcome): State {
      AddTrackableID(n, Some(s), reset).AddGossipableID(n, s, false)
    }

    function AddIP(ip: ClaimedIP, reset: ResetOutcome): State {
      var n := ip.nodeID;
      this.(tracked := TrackedAfter(ip),
            bloom := BloomAfter(ip, reset),
            subnet := if IsNews(ip) && n in connected then Relisted(subnet, ip, connected[n].trackedSubnets) else subnet)
    }

    function Connected(ip: ClaimedIP, subnets: set<SubnetID>, reset: ResetOutcome): State {
      var n := ip.nodeID;
      this.(tracked := TrackedAfter(ip),
            bloom := BloomAfter(ip, reset),
            connected := connected[n := ConnectedNode(subnets, ip)],
            subnet := if n in tracked then Relisted(subnet, TrackedAfter(ip)[n].ip.value, subnets) else subnet)
    }

    function Disconnected(n: NodeID): State {
      if n !in connected then
        this
      else
        this.(connected := connected - {n},
              subnet := Unlisted(subnet, n, connected[n].trackedSubnets))
    }

    function OnValidatorRemoved(s: SubnetID, n: NodeID): State {
      if s !in subnet || n in subnet[s].manuallyGossipable then
        this
      else
        this.(subnet := InfoWithout(subnet, s, n), tracked := TrackedWithout(tracked, s, n))
    }

    // ---------- Queries ----------

    predicate WantsConnection(n: NodeID) {
      n in tracked && tracked[n].WantsConnection()
    }

    predicate ShouldVerifyIP(ip: ClaimedIP, trackAllSubnets: bool) {
      && ip.nodeID in tracked
      && (trackAllSubnets || tracked[ip.nodeID].WantsConnection())
      && (tracked[ip.nodeID].ip.None? || tracked[ip.nodeID].ip.value.timestamp < ip.timestamp)
    }

    /** What AddIP returns. */
    predicate AddIPReturns(ip: ClaimedIP) {
      IsNews(ip) && tracked[ip.nodeID].WantsConnection()
    }
  }

  /** A subnet that is not known yet has no members. */
  function InfoOf(subnet: SubnetMap, s: SubnetID): SubnetInfo {
    if s in subnet then subnet[s] else SubnetInfo({}, {}, map[])
  }

  /** A subnet with one more member; a new one is listed if there is an IP to list. */
  function JoinedInfo(info: SubnetInfo, n: NodeID, manually: bool, ip: Option<ClaimedIP>): SubnetInfo {
    var marked := if manually then info.(manuallyGossipable := info.manuallyGossipable + {n}) else info;
    if n in info.gossipableIDs then
      marked
    else
      var joined := marked.(gossipableIDs := marked.gossipableIDs + {n});
      if ip.Some? then joined.List(ip.value) else joined
  }

  /** The subnets without one member of one of them, which is dropped when it was the last. */
  function InfoWithout(subnet: SubnetMap, s: SubnetID, n: NodeID): SubnetMap
    requires s in subnet
  {
    var info := subnet[s].(gossipableIDs := subnet[s].gossipableIDs - {n}).Unlist(n);
    if info.gossipableIDs == {} then subnet - {s} else subnet[s := info]
  }

  /** The tracked nodes without one of the subnets that one of them validates. */
  function TrackedWithout(tracked: map<NodeID, TrackedNode>, s: SubnetID, n: NodeID): map<NodeID, TrackedNode> {
    if n !in tracked then
      tracked
    else
      var node := tracked[n].(validatedSubnets := tracked[n].validatedSubnets - {s},
                              trackedSubnets := tracked[n].trackedSubnets - {s});
      if node.CanDelete() then tracked - {n} else tracked[n := node]
  }

  /** setGossipableIP over a set of subnets: list the IP wherever its node is gossipable. */
  function Relisted(subnet: SubnetMap, ip: ClaimedIP, ids: set<SubnetID>): (r: SubnetMap)
    ensures r.Keys == subnet.Keys
  {
    map id | id in subnet ::
      if id in ids && ip.nodeID in subnet[id].gossipableIDs then subnet[id].List(ip) else subnet[id]
  }

  /** One round of that loop. */
  function ListedAt(subnet: SubnetMap, ip: ClaimedIP, id: SubnetID): SubnetMap {
    if id in subnet && ip.nodeID in subnet[id].gossipableIDs then subnet[id := subnet[id].List(ip)] else subnet
  }

  /** The loop of Disconnected: drop the node from these subnets' lists. */
  function Unlisted(subnet: SubnetMap, n: NodeID, ids: set<SubnetID>): (r: SubnetMap)
    ensures r.Keys == subnet.Keys
  {
    map id | id in subnet :: if id in ids then subnet[id].Unlist(n) else subnet[id]
  }

  /** One round of that loop. */
  function UnlistedAt(subnet: SubnetMap, n: NodeID, id: SubnetID): SubnetMap {
    if id in subnet then subnet[id := subnet[id].Unlist(n)] else subnet
  }

  function NewTracker(localSubnets: set<SubnetID>, maxCount: nat): State {
    State(localSubnets, map[], map[], map[], Bloom({}, 0, multiset{}, maxCount))
  }

  datatype Event =
    | ManuallyTrack(n: NodeID, reset: ResetOutcome)
    | ManuallyGossip(s: SubnetID, n: NodeID, reset: ResetOutcome)
    | AddIP(ip: ClaimedIP, reset: ResetOutcome)
    | Connected(ip: ClaimedIP, subnets: set<SubnetID>, reset: ResetOutcome)
    | Disconnected(n: NodeID)
    | OnValidatorAdded(s: SubnetID, n: NodeID, reset: ResetOutcome)
    | OnValidatorRemoved(s: SubnetID, n: NodeID)
    | ResetBloom(reset: ResetOutcome)

  function Step(s: State, e: Event): State {
    match e
    case ManuallyTrack(n, reset) => s.ManuallyTrack(n, reset)
    case ManuallyGossip(id, n, reset) => s.ManuallyGossip(id, n, reset)
    case AddIP(ip, reset) => s.AddIP(ip, reset)
    case Connected(ip, subnets, reset) => s.Connected(ip, subnets, reset)
    case Disconnected(n) => s.Disconnected(n)
    case OnValidatorAdded(id, n, reset) => s.OnValidatorAdded(id, n, reset)
    case OnValidatorRemoved(id, n) => s.OnValidatorRemoved(id, n)
    case ResetBloom(reset) => s.ResetBloom(reset)
  }

  /** The one duty of the caller: no Connected for a node that is already connected. */
  predicate Legal(s: State, e: Event) {
    e.Connected? ==> e.ip.nodeID !in s.connected
  }

  function Run(s: State, es: seq<Event>): State {
    if es == [] then s else Step(Run(s, es[..|es| - 1]), es[|es| - 1])
  }

  predicate LegalRun(s: State, es: seq<Event>) {
    forall i | 0 <= i < |es| :: Legal(Run(s, es[..i]), es[i])
  }
}
