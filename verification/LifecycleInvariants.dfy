/** What every interleaving of the connection lifecycle keeps. */
module LifecycleInvariants {
  import opened Ids
  import opened TrackerState
  import opened NetworkState
  import opened Lifecycle
  import opened TrackerInvariants

  type PeerMap = map<NodeID, Peer>

  // ---------- Peers ----------

  predicate InConnecting(phase: Phase) {
    phase.Handshaking? || (phase.Leaving? && phase.connecting)
  }

  predicate InConnected(phase: Phase) {
    match phase
    case Handshaking => false
    case Closed => false
    case Leaving(_, connected) => connected
    case _ => true
  }

  /** A live peer is in the set that its phase says. */
  ghost predicate PeerOk(i: nat, p: Peer, phase: Phase, connecting: PeerMap, connected: PeerMap) {
    && p.instance == i && p.ip.nodeID == p.nodeID
    && (InConnecting(phase) ==> p.nodeID in connecting && connecting[p.nodeID] == p)
    && (InConnected(phase) ==> p.nodeID in connected && connected[p.nodeID] == p)
    && (phase.Leaving? ==> phase.connecting != phase.connected)
  }

  ghost predicate Live(p: Peer, n: NodeID, peers: seq<Peer>) {
    p.nodeID == n && p.instance < |peers| && peers[p.instance] == p
  }

  ghost predicate LiveConnecting(n: NodeID, p: Peer, peers: seq<Peer>, phases: seq<Phase>) {
    Live(p, n, peers) && p.instance < |phases| && InConnecting(phases[p.instance])
  }

  ghost predicate LiveConnected(n: NodeID, p: Peer, peers: seq<Peer>, phases: seq<Phase>) {
    Live(p, n, peers) && p.instance < |phases| && InConnected(phases[p.instance])
  }

  /** The peer sets hold exactly the live peers, in the set that their phase says, one per node. */
  ghost predicate PeersOk(connecting: PeerMap, connected: PeerMap, peers: seq<Peer>, phases: seq<Phase>) {
    && |peers| == |phases|
    && (forall i | 0 <= i < |peers| :: PeerOk(i, peers[i], phases[i], connecting, connected))
    && (forall n | n in connecting :: LiveConnecting(n, connecting[n], peers, phases))
    && (forall n | n in connected :: LiveConnected(n, connected[n], peers, phases))
    && (forall n | n in connecting :: n !in connected)
  }

  /** Each live peer is the only one of its node. */
  lemma OnlyPeer(connecting: PeerMap, connected: PeerMap, peers: seq<Peer>, phases: seq<Phase>, i: nat)
    requires PeersOk(connecting, connected, peers, phases) && i < |phases|
    ensures PeerOk(i, peers[i], phases[i], connecting, connected)
    ensures forall n | n in connecting && n != peers[i].nodeID :: connecting[n].instance != i
    ensures forall n | n in connected && n != peers[i].nodeID :: connected[n].instance != i
    ensures forall j | 0 <= j < |peers| && j != i && (InConnecting(phases[i]) || InConnected(phases[i])) &&
              (InConnecting(phases[j]) || InConnected(phases[j])) :: peers[j].nodeID != peers[i].nodeID
  {
    forall n | n in connecting
      ensures LiveConnecting(n, connecting[n], peers, phases)
    {
    }
    forall n | n in connected
      ensures LiveConnected(n, connected[n], peers, phases)
    {
    }
    forall j | 0 <= j < |peers|
      ensures PeerOk(j, peers[j], phases[j], connecting, connected)
    {
    }
  }

  /** One peer changes its phase, and the sets change for its node only. */
  lemma ChangePeer(connecting: PeerMap, connected: PeerMap, connecting': PeerMap, connected': PeerMap,
                   peers: seq<Peer>, phases: seq<Phase>, i: nat, phase: Phase)
    requires PeersOk(connecting, connected, peers, phases) && i < |phases| && (InConnecting(phases[i]) || InConnected(phases[i]))
    requires forall n | n != peers[i].nodeID :: n in connecting' <==> n in connecting
    requires forall n | n != peers[i].nodeID :: n in connected' <==> n in connected
    requires forall n | n != peers[i].nodeID && n in connecting :: connecting'[n] == connecting[n]
    requires forall n | n != peers[i].nodeID && n in connected :: connected'[n] == connected[n]
    requires peers[i].nodeID in connecting' <==> InConnecting(phase)
    requires peers[i].nodeID in connected' <==> InConnected(phase)
    requires PeerOk(i, peers[i], phase, connecting', connected')
    ensures PeersOk(connecting', connected', peers, phases[i := phase])
  {
    var phases' := phases[i := phase];
    OnlyPeer(connecting, connected, peers, phases, i);
    forall j | 0 <= j < |peers|
      ensures PeerOk(j, peers[j], phases'[j], connecting', connected')
    {
      assert PeerOk(j, peers[j], phases[j], connecting, connected);
    }
    forall n | n in connecting'
      ensures LiveConnecting(n, connecting'[n], peers, phases') && n !in connected'
    {
      if n != peers[i].nodeID {
        assert LiveConnecting(n, connecting[n], peers, phases);
      }
    }
    forall n | n in connected'
      ensures LiveConnected(n, connected'[n], peers, phases')
    {
      if n != peers[i].nodeID {
        assert LiveConnected(n, connected[n], peers, phases);
      }
    }
  }

  /** A phase change that stays in the same peer set keeps the peers in order. */
  lemma AdvanceKeepsPeers(s: System, i: nat, phase: Phase)
    requires PeersOk(s.net.connecting, s.net.connected, s.peers, s.phases) && i < |s.phases|
    requires InConnecting(s.phases[i]) || InConnected(s.phases[i])
    requires InConnecting(phase) == InConnecting(s.phases[i]) && InConnected(phase) == InConnected(s.phases[i])
    requires phase.Leaving? ==> phase.connecting != phase.connected
    ensures PeersOk(s.net.connecting, s.net.connected, s.peers, s.phases[i := phase])
  {
    assert PeerOk(i, s.peers[i], s.phases[i], s.net.connecting, s.net.connected);
    InOneSet(s, i);
    ChangePeer(s.net.connecting, s.net.connected, s.net.connecting, s.net.connected, s.peers, s.phases, i, phase);
  }

  /** The sets know a live peer's node exactly as its phase says. */
  lemma InOneSet(s: System, i: nat)
    requires PeersOk(s.net.connecting, s.net.connected, s.peers, s.phases) && i < |s.phases|
    requires InConnecting(s.phases[i]) || InConnected(s.phases[i])
    ensures s.peers[i].nodeID in s.net.connecting <==> InConnecting(s.phases[i])
    ensures s.peers[i].nodeID in s.net.connected <==> InConnected(s.phases[i])
  {
    var n := s.peers[i].nodeID;
    assert PeerOk(i, s.peers[i], s.phases[i], s.net.connecting, s.net.connected);
    if n in s.net.connecting {
      assert LiveConnecting(n, s.net.connecting[n], s.peers, s.phases);
    }
    if n in s.net.connected {
      assert LiveConnected(n, s.net.connected[n], s.peers, s.phases);
    }
  }

  /** A peer that leaves both sets is gone. */
  lemma CloseKeepsPeers(s: System, i: nat, n: NodeID)
    requires PeersOk(s.net.connecting, s.net.connected, s.peers, s.phases) && i < |s.phases| && n == s.peers[i].nodeID
    ensures InConnecting(s.phases[i]) ==> PeersOk(s.net.connecting - {n}, s.net.connected, s.peers, s.phases[i := Closed])
    ensures InConnected(s.phases[i]) ==> PeersOk(s.net.connecting, s.net.connected - {n}, s.peers, s.phases[i := Closed])
  {
    assert PeerOk(i, s.peers[i], s.phases[i], s.net.connecting, s.net.connected);
    if InConnecting(s.phases[i]) {
      InOneSet(s, i);
      ChangePeer(s.net.connecting, s.net.connected, s.net.connecting - {n}, s.net.connected, s.peers, s.phases, i, Closed);
    } else if InConnected(s.phases[i]) {
      InOneSet(s, i);
      ChangePeer(s.net.connecting, s.net.connected, s.net.connecting, s.net.connected - {n}, s.peers, s.phases, i, Closed);
    }
  }

  lemma ConnectKeepsPeers(s: System, i: nat, n: NodeID)
    requires PeersOk(s.net.connecting, s.net.connected, s.peers, s.phases) && i < |s.phases| && n == s.peers[i].nodeID
    requires s.phases[i].Handshaking?
    ensures n in s.net.connecting && s.net.connecting[n] == s.peers[i]
    ensures PeersOk(s.net.connecting - {n}, s.net.connected[n := s.net.connecting[n]], s.peers, s.phases[i := ToldNobody])
  {
    assert PeerOk(i, s.peers[i], s.phases[i], s.net.connecting, s.net.connected);
    InOneSet(s, i);
    ChangePeer(s.net.connecting, s.net.connected, s.net.connecting - {n}, s.net.connected[n := s.peers[i]], s.peers, s.phases, i, ToldNobody);
  }

  lemma UpgradeKeepsPeers(s: System, p: Peer)
    requires PeersOk(s.net.connecting, s.net.connected, s.peers, s.phases)
    requires p.instance == |s.peers| && p.ip.nodeID == p.nodeID && s.net.Accepts(p.nodeID)
    ensures PeersOk(s.net.connecting[p.nodeID := p], s.net.connected, s.peers + [p], s.phases + [Handshaking])
  {
    var connecting, peers, phases := s.net.connecting[p.nodeID := p], s.peers + [p], s.phases + [Handshaking];
    forall i | 0 <= i < |peers|
      ensures PeerOk(i, peers[i], phases[i], connecting, s.net.connected)
    {
      assert i < |s.peers| ==> PeerOk(i, s.peers[i], s.phases[i], s.net.connecting, s.net.connected);
    }
    forall n | n in connecting
      ensures LiveConnecting(n, connecting[n], peers, phases)
    {
      assert n != p.nodeID ==> LiveConnecting(n, s.net.connecting[n], s.peers, s.phases);
    }
    forall n | n in s.net.connected
      ensures LiveConnected(n, s.net.connected[n], peers, phases)
    {
      assert LiveConnected(n, s.net.connected[n], s.peers, s.phases);
    }
  }

  // ---------- Tracked IPs and dial loops ----------

  /** The entries of trackedIPs are exactly the trackedIPs that were not stopped, none of them for a
      connected node.  So a dial loop whose trackedIP is not the node's entry has been told to stop. */
  ghost predicate TracksOk(net: Net) {
    && net.Valid()
    && (forall n | n in net.trackedIPs ::
          var t := net.created[net.trackedIPs[n]]; t.nodeID == n && !t.stopped && n !in net.connected)
    && (forall t | 0 <= t < |net.created| && !net.created[t].stopped ::
          net.created[t].nodeID in net.trackedIPs && net.trackedIPs[net.created[t].nodeID] == t)
  }

  lemma StartTrackingKeepsTracks(net: Net, n: NodeID, addr: int, delay: int)
    requires TracksOk(net) && n !in net.trackedIPs && n !in net.connected
    ensures TracksOk(net.StartTracking(n, addr, delay))
  {
  }

  lemma StopTrackingKeepsTracks(net: Net, n: NodeID)
    requires TracksOk(net)
    ensures TracksOk(net.StopTracking(n)) && n !in net.StopTracking(n).trackedIPs
  {
  }

  lemma TrackNewIPKeepsTracks(net: Net, n: NodeID, addr: int)
    requires TracksOk(net) && n in net.trackedIPs
    ensures TracksOk(net.TrackNewIP(n, addr))
  {
  }

  /** Changing the peer sets is harmless as long as no tracked node becomes connected. */
  lemma PeerSetsKeepTracks(net: Net, connecting: PeerMap, connected: PeerMap)
    requires TracksOk(net) && forall n | n in net.trackedIPs :: n !in connected
    ensures TracksOk(net.(connecting := connecting, connected := connected))
  {
  }

  lemma ConnectedKeepsTracks(net: Net, n: NodeID)
    requires TracksOk(net)
    ensures TracksOk(net.Connected(n))
  {
    if n in net.connecting {
      StopTrackingKeepsTracks(net, n);
      PeerSetsKeepTracks(net.StopTracking(n), net.connecting - {n}, net.connected[n := net.connecting[n]]);
    }
  }

  lemma DisconnectedFromConnectingKeepsTracks(net: Net, n: NodeID, wanted: bool)
    requires TracksOk(net)
    ensures TracksOk(net.DisconnectedFromConnecting(n, wanted))
  {
    var left := net.(connecting := net.connecting - {n});
    if n in net.trackedIPs {
      if wanted {
        TrackNewIPKeepsTracks(left, n, net.created[net.trackedIPs[n]].addr);
      } else {
        StopTrackingKeepsTracks(left, n);
      }
    }
  }

  lemma DisconnectedFromConnectedKeepsTracks(net: Net, n: NodeID, ip: Option<int>)
    requires TracksOk(net) && n in net.connected
    ensures TracksOk(net.DisconnectedFromConnected(n, ip))
  {
    var left := net.(connected := net.connected - {n});
    if ip.Some? {
      StartTrackingKeepsTracks(left, n, ip.value, 0);
    }
  }

  /** The delay and the end of a dial loop do not matter. */
  lemma DialKeepsTracks(net: Net, t: nat, delay: int, dialing: bool)
    requires TracksOk(net) && t < |net.created|
    ensures TracksOk(net.(created := net.created[t := net.created[t].(delay := delay, dialing := dialing)]))
  {
  }

  lemma DialCheckKeepsTracks(net: Net, t: nat, wanted: bool, delay: int)
    requires TracksOk(net) && t < |net.created|
    ensures TracksOk(net.DialCheck(t, wanted, delay))
  {
    if wanted {
      DialKeepsTracks(net, t, net.created[t].delay, false);
      DialKeepsTracks(net, t, delay, net.created[t].dialing);
    } else {
      StopTrackingKeepsTracks(net, net.created[t].nodeID);
      var left := net.StopTracking(net.created[t].nodeID);
      DialKeepsTracks(left, t, left.created[t].delay, false);
    }
  }

  lemma StartCloseKeepsTracks(net: Net)
    requires TracksOk(net)
    ensures TracksOk(net.StartClose())
    ensures forall t | 0 <= t < |net.created| :: net.StartClose().created[t].stopped
  {
  }

  // ---------- The tracker's view ----------

  predicate KnownToTracker(phase: Phase) {
    match phase
    case ToldTracker => true
    case ToldRouter(_) => true
    case Leaving(_, connected) => connected
    case _ => false
  }

  /** The tracker counts a connected peer as connected exactly if the peer has told it so. */
  ghost predicate KnownOk(n: NodeID, p: Peer, phases: seq<Phase>, known: map<NodeID, ConnectedNode>) {
    p.instance < |phases| && (n in known <==> KnownToTracker(phases[p.instance]))
  }

  ghost predicate TrackerOk(connected: PeerMap, phases: seq<Phase>, known: map<NodeID, ConnectedNode>) {
    && (forall n | n in known :: n in connected)
    && (forall n | n in connected :: KnownOk(n, connected[n], phases, known))
  }

  // ---------- The log ----------

  /** Has the tracker last been told that this node is connected? */
  function TrackerOpen(log: seq<Notice>, n: NodeID): bool {
    if log == [] then false else
    match log[|log| - 1]
    case TrackerConnected(m) => m == n || TrackerOpen(log[..|log| - 1], n)
    case TrackerDisconnected(m) => m != n && TrackerOpen(log[..|log| - 1], n)
    case _ => TrackerOpen(log[..|log| - 1], n)
  }

  /** The subnets on which the router takes this node to be connected. */
  function RouterOpen(log: seq<Notice>, n: NodeID): set<SubnetID> {
    if log == [] then {} else
    match log[|log| - 1]
    case RouterConnected(m, id) => RouterOpen(log[..|log| - 1], n) + (if m == n then {id} else {})
    case RouterDisconnected(m) => if m == n then {} else RouterOpen(log[..|log| - 1], n)
    case _ => RouterOpen(log[..|log| - 1], n)
  }

  /** Connected only when disconnected and the other way round; the router hears of the primary
      network first and of no subnet twice. */
  ghost predicate InTurn(log: seq<Notice>, notice: Notice) {
    match notice
    case TrackerConnected(n) => !TrackerOpen(log, n)
    case TrackerDisconnected(n) => TrackerOpen(log, n)
    case RouterConnected(n, id) => id !in RouterOpen(log, n) && (id == PRIMARY_NETWORK_ID <==> RouterOpen(log, n) == {})
    case RouterDisconnected(n) => RouterOpen(log, n) != {}
  }

  ghost predicate Alternates(log: seq<Notice>) {
    forall k | 0 <= k < |log| :: InTurn(log[..k], log[k])
  }

  lemma AppendAlternates(log: seq<Notice>, notice: Notice)
    requires Alternates(log) && InTurn(log, notice)
    ensures Alternates(log + [notice])
  {
    var l := log + [notice];
    forall k | 0 <= k < |l| ensures InTurn(l[..k], l[k]) {
      assert k < |log| ==> l[..k] == log[..k];
      assert k == |log| ==> l[..k] == log;
    }
  }

  function OpenFor(shared: set<SubnetID>, phase: Phase): set<SubnetID> {
    match phase
    case ToldRouter(remaining) => {PRIMARY_NETWORK_ID} + (shared - remaining)
    case Leaving(_, connected) => if connected then {PRIMARY_NETWORK_ID} + shared else {}
    case LeftTracker => {PRIMARY_NETWORK_ID} + shared
    case _ => {}
  }

  /** What the tracker has been told is what it counts as connected. */
  ghost predicate TrackerLogOk(log: seq<Notice>, known: map<NodeID, ConnectedNode>) {
    forall n :: TrackerOpen(log, n) <==> n in known
  }

  /** What the router has been told of a node fits the phase of the node's peer. */
  ghost predicate ToldOk(mySubnets: set<SubnetID>, n: NodeID, p: Peer, phases: seq<Phase>, log: seq<Notice>) {
    p.instance < |phases| && RouterOpen(log, n) == OpenFor(mySubnets * p.trackedSubnets, phases[p.instance])
  }

  ghost predicate RemainingOk(mySubnets: set<SubnetID>, p: Peer, phase: Phase) {
    phase.ToldRouter? ==> phase.remaining <= mySubnets * p.trackedSubnets
  }

  ghost predicate RouterLogOk(mySubnets: set<SubnetID>, connected: PeerMap, peers: seq<Peer>, phases: seq<Phase>, log: seq<Notice>) {
    && |peers| == |phases|
    && (forall n | n in connected :: ToldOk(mySubnets, n, connected[n], phases, log))
    && (forall n | n !in connected :: RouterOpen(log, n) == {})
    && (forall i | 0 <= i < |phases| :: RemainingOk(mySubnets, peers[i], phases[i]))
    && PRIMARY_NETWORK_ID !in mySubnets
  }

  /** Telling the router about one connected peer. */
  lemma AdvanceKeepsRouterLog(s: System, i: nat, phase: Phase, log: seq<Notice>)
    requires PeersOk(s.net.connecting, s.net.connected, s.peers, s.phases)
    requires RouterLogOk(s.mySubnets, s.net.connected, s.peers, s.phases, s.log)
    requires i < |s.phases| && InConnected(s.phases[i])
    requires forall n | n != s.peers[i].nodeID :: RouterOpen(log, n) == RouterOpen(s.log, n)
    requires RouterOpen(log, s.peers[i].nodeID) == OpenFor(s.Shared(s.peers[i]), phase)
    requires RemainingOk(s.mySubnets, s.peers[i], phase)
    ensures RouterLogOk(s.mySubnets, s.net.connected, s.peers, s.phases[i := phase], log)
  {
    var phases := s.phases[i := phase];
    OnlyPeer(s.net.connecting, s.net.connected, s.peers, s.phases, i);
    forall n | n in s.net.connected
      ensures ToldOk(s.mySubnets, n, s.net.connected[n], phases, log)
    {
      assert ToldOk(s.mySubnets, n, s.net.connected[n], s.phases, s.log);
    }
    forall j | 0 <= j < |phases|
      ensures RemainingOk(s.mySubnets, s.peers[j], phases[j])
    {
      assert RemainingOk(s.mySubnets, s.peers[j], s.phases[j]);
    }
  }

  /** Telling the tracker about one connected peer. */
  lemma AdvanceKeepsTracker(s: System, i: nat, phase: Phase, known: map<NodeID, ConnectedNode>)
    requires PeersOk(s.net.connecting, s.net.connected, s.peers, s.phases)
    requires TrackerOk(s.net.connected, s.phases, s.tracker.connected)
    requires i < |s.phases| && InConnected(s.phases[i])
    requires forall n | n != s.peers[i].nodeID :: n in known <==> n in s.tracker.connected
    requires s.peers[i].nodeID in known <==> KnownToTracker(phase)
    ensures TrackerOk(s.net.connected, s.phases[i := phase], known)
  {
    var phases := s.phases[i := phase];
    OnlyPeer(s.net.connecting, s.net.connected, s.peers, s.phases, i);
    forall n | n in s.net.connected
      ensures KnownOk(n, s.net.connected[n], phases, known)
    {
      assert KnownOk(n, s.net.connected[n], s.phases, s.tracker.connected);
    }
  }

  /** A phase change of a peer that is not connected, or that neither tracker nor router notice. */
  lemma SilentAdvance(s: System, connected: PeerMap, i: nat, phase: Phase)
    requires PeersOk(s.net.connecting, s.net.connected, s.peers, s.phases) && i < |s.phases| && !phase.ToldRouter?
    requires InConnecting(s.phases[i]) || InConnected(s.phases[i])
    requires TrackerOk(s.net.connected, s.phases, s.tracker.connected)
    requires RouterLogOk(s.mySubnets, s.net.connected, s.peers, s.phases, s.log)
    requires forall n | n != s.peers[i].nodeID :: n in connected <==> n in s.net.connected
    requires forall n | n != s.peers[i].nodeID && n in connected :: connected[n] == s.net.connected[n]
    requires s.peers[i].nodeID in connected ==> connected[s.peers[i].nodeID] == s.peers[i]
    requires s.peers[i].nodeID in s.tracker.connected <==> s.peers[i].nodeID in connected && KnownToTracker(phase)
    requires RouterOpen(s.log, s.peers[i].nodeID) ==
             if s.peers[i].nodeID in connected then OpenFor(s.Shared(s.peers[i]), phase) else {}
    ensures TrackerOk(connected, s.phases[i := phase], s.tracker.connected)
    ensures RouterLogOk(s.mySubnets, connected, s.peers, s.phases[i := phase], s.log)
  {
    var phases := s.phases[i := phase];
    OnlyPeer(s.net.connecting, s.net.connected, s.peers, s.phases, i);
    forall n | n in connected
      ensures KnownOk(n, connected[n], phases, s.tracker.connected) && ToldOk(s.mySubnets, n, connected[n], phases, s.log)
    {
      if n != s.peers[i].nodeID {
        assert KnownOk(n, s.net.connected[n], s.phases, s.tracker.connected);
        assert ToldOk(s.mySubnets, n, s.net.connected[n], s.phases, s.log);
      }
    }
    forall j | 0 <= j < |phases|
      ensures RemainingOk(s.mySubnets, s.peers[j], phases[j])
    {
      assert RemainingOk(s.mySubnets, s.peers[j], s.phases[j]);
    }
  }

  lemma NoteOpens(log: seq<Notice>, notice: Notice)
    ensures forall n :: TrackerOpen(log + [notice], n) ==
                        if notice == TrackerConnected(n) then true
                        else if notice == TrackerDisconnected(n) then false else TrackerOpen(log, n)
    ensures forall n :: RouterOpen(log + [notice], n) ==
                        if notice == RouterDisconnected(n) then {}
                        else if notice.RouterConnected? && notice.nodeID == n then RouterOpen(log, n) + {notice.subnetID}
                        else RouterOpen(log, n)
  {
    assert (log + [notice])[..|log|] == log;
  }

  // ---------- One step ----------

  ghost predicate Inv(s: System) {
    && PeersOk(s.net.connecting, s.net.connected, s.peers, s.phases)
    && TracksOk(s.net)
    && TrackerOk(s.net.connected, s.phases, s.tracker.connected)
    && TrackerLogOk(s.log, s.tracker.connected)
    && RouterLogOk(s.mySubnets, s.net.connected, s.peers, s.phases, s.log)
    && Alternates(s.log)
  }

  lemma OthersKeepConnected(s: State, e: Event)
    requires !e.Connected? && !e.Disconnected?
    ensures TrackerState.Step(s, e).connected == s.connected
  {
  }

  /** Tracker events that change no connection, and tracked IPs, leave the rest alone. */
  lemma QuietStep(s: System, net: Net, tracker: State)
    requires Inv(s) && TracksOk(net)
    requires net.connecting == s.net.connecting && net.connected == s.net.connected && tracker.connected == s.tracker.connected
    ensures Inv(s.(net := net, tracker := tracker))
  {
  }

  lemma TrackKeepsTracks(net: Net, n: NodeID, addr: int)
    requires TracksOk(net)
    ensures TracksOk(net.Track(n, addr)) && TracksOk(net.ManuallyTrack(n, addr))
  {
    if n in net.trackedIPs {
      TrackNewIPKeepsTracks(net, n, addr);
    } else if n !in net.connected {
      StartTrackingKeepsTracks(net, n, addr, 0);
    }
  }

  /** What the invariant says about one peer. */
  lemma PeerFacts(s: System, i: nat)
    requires Inv(s) && i < |s.phases|
    ensures |s.peers| == |s.phases| && PeerOk(i, s.peers[i], s.phases[i], s.net.connecting, s.net.connected)
    ensures InConnected(s.phases[i]) ==>
              && (s.peers[i].nodeID in s.tracker.connected <==> KnownToTracker(s.phases[i]))
              && RouterOpen(s.log, s.peers[i].nodeID) == OpenFor(s.Shared(s.peers[i]), s.phases[i])
              && s.peers[i].nodeID !in s.net.connecting
    ensures InConnecting(s.phases[i]) ==>
              && s.peers[i].nodeID !in s.net.connected && s.peers[i].nodeID !in s.tracker.connected
              && RouterOpen(s.log, s.peers[i].nodeID) == {}
    ensures RemainingOk(s.mySubnets, s.peers[i], s.phases[i]) && PRIMARY_NETWORK_ID !in s.mySubnets
  {
    var n := s.peers[i].nodeID;
    assert PeerOk(i, s.peers[i], s.phases[i], s.net.connecting, s.net.connected);
    if InConnected(s.phases[i]) {
      assert KnownOk(n, s.net.connected[n], s.phases, s.tracker.connected);
      assert ToldOk(s.mySubnets, n, s.net.connected[n], s.phases, s.log);
    }
    assert RemainingOk(s.mySubnets, s.peers[i], s.phases[i]);
  }

  lemma UpgradeKeepsViews(s: System, p: Peer)
    requires PeersOk(s.net.connecting, s.net.connected, s.peers, s.phases)
    requires TrackerOk(s.net.connected, s.phases, s.tracker.connected)
    requires RouterLogOk(s.mySubnets, s.net.connected, s.peers, s.phases, s.log)
    ensures TrackerOk(s.net.connected, s.phases + [Handshaking], s.tracker.connected)
    ensures RouterLogOk(s.mySubnets, s.net.connected, s.peers + [p], s.phases + [Handshaking], s.log)
  {
    var phases := s.phases + [Handshaking];
    forall n | n in s.net.connected
      ensures KnownOk(n, s.net.connected[n], phases, s.tracker.connected)
      ensures ToldOk(s.mySubnets, n, s.net.connected[n], phases, s.log)
    {
      assert KnownOk(n, s.net.connected[n], s.phases, s.tracker.connected);
      assert ToldOk(s.mySubnets, n, s.net.connected[n], s.phases, s.log);
    }
    forall j | 0 <= j < |phases|
      ensures RemainingOk(s.mySubnets, (s.peers + [p])[j], phases[j])
    {
      assert j < |s.phases| ==> RemainingOk(s.mySubnets, s.peers[j], s.phases[j]);
    }
  }

  lemma UpgradeKeepsInv(s: System, n: NodeID, ip: ClaimedIP, trackedSubnets: set<SubnetID>)
    requires Inv(s) && ip.nodeID == n
    ensures Inv(s.Upgrade(n, ip, trackedSubnets))
  {
    var p := Peer(n, |s.peers|, ip, trackedSubnets);
    if s.net.Accepts(n) {
      UpgradeKeepsPeers(s, p);
      UpgradeKeepsViews(s, p);
      PeerSetsKeepTracks(s.net, s.net.connecting[n := p], s.net.connected);
    }
  }

  lemma ConnectedKeepsInv(s: System, i: nat)
    requires Inv(s) && i < |s.phases| && s.phases[i].Handshaking?
    ensures Inv(s.Connected(i))
  {
    var n := s.peers[i].nodeID;
    PeerFacts(s, i);
    ConnectKeepsPeers(s, i, n);
    ConnectedKeepsTracks(s.net, n);
    SilentAdvance(s, s.net.connected[n := s.net.connecting[n]], i, ToldNobody);
  }

  lemma TellTrackerKeepsInv(s: System, i: nat, reset: ResetOutcome)
    requires Inv(s) && i < |s.phases| && s.phases[i].ToldNobody?
    ensures Inv(s.TellTracker(i, reset))
  {
    var p := s.peers[i];
    PeerFacts(s, i);
    assert s.tracker.Connected(p.ip, p.trackedSubnets, reset).connected ==
           s.tracker.connected[p.nodeID := ConnectedNode(p.trackedSubnets, p.ip)];
    TrackerToldKeepsInv(s, i, s.tracker.Connected(p.ip, p.trackedSubnets, reset), ToldTracker, TrackerConnected(p.nodeID));
  }

  /** A peer has told the tracker that it came or goes. */
  lemma TrackerToldKeepsInv(s: System, i: nat, tracker: State, phase: Phase, notice: Notice)
    requires Inv(s) && i < |s.phases| && InConnected(s.phases[i]) && !InConnecting(s.phases[i])
    requires InConnected(phase) && !InConnecting(phase) && !phase.Leaving? && !phase.ToldRouter?
    requires notice == (if KnownToTracker(phase) then TrackerConnected(s.peers[i].nodeID) else TrackerDisconnected(s.peers[i].nodeID))
    requires KnownToTracker(phase) != KnownToTracker(s.phases[i])
    requires OpenFor(s.Shared(s.peers[i]), phase) == OpenFor(s.Shared(s.peers[i]), s.phases[i])
    requires forall n | n != s.peers[i].nodeID :: n in tracker.connected <==> n in s.tracker.connected
    requires s.peers[i].nodeID in tracker.connected <==> KnownToTracker(phase)
    ensures Inv(s.(tracker := tracker, log := s.log + [notice], phases := s.phases[i := phase]))
  {
    PeerFacts(s, i);
    AdvanceKeepsPeers(s, i, phase);
    AppendAlternates(s.log, notice);
    NoteOpens(s.log, notice);
    AdvanceKeepsTracker(s, i, phase, tracker.connected);
    AdvanceKeepsRouterLog(s, i, phase, s.log + [notice]);
  }

  /** A peer has told the router that it came or goes. */
  lemma RouterToldKeepsInv(s: System, i: nat, phase: Phase, notice: Notice)
    requires Inv(s) && i < |s.phases| && InConnected(s.phases[i]) && !InConnecting(s.phases[i])
    requires InConnected(phase) && !InConnecting(phase) && !phase.Leaving?
    requires notice.nodeID == s.peers[i].nodeID && (notice.RouterConnected? || notice.RouterDisconnected?)
    requires InTurn(s.log, notice) && RemainingOk(s.mySubnets, s.peers[i], phase)
    requires KnownToTracker(phase) == KnownToTracker(s.phases[i])
    requires OpenFor(s.Shared(s.peers[i]), phase) ==
             if notice.RouterConnected? then OpenFor(s.Shared(s.peers[i]), s.phases[i]) + {notice.subnetID} else {}
    ensures Inv(s.(log := s.log + [notice], phases := s.phases[i := phase]))
  {
    PeerFacts(s, i);
    AdvanceKeepsPeers(s, i, phase);
    AppendAlternates(s.log, notice);
    NoteOpens(s.log, notice);
    AdvanceKeepsTracker(s, i, phase, s.tracker.connected);
    AdvanceKeepsRouterLog(s, i, phase, s.log + [notice]);
  }

  lemma TellRouterKeepsInv(s: System, i: nat)
    requires Inv(s) && i < |s.phases| && s.phases[i].ToldTracker?
    ensures Inv(s.TellRouter(i))
  {
    var p := s.peers[i];
    PeerFacts(s, i);
    RouterToldKeepsInv(s, i, ToldRouter(s.Shared(p)), RouterConnected(p.nodeID, PRIMARY_NETWORK_ID));
  }

  lemma TellRouterSubnetKeepsInv(s: System, i: nat, id: SubnetID)
    requires Inv(s) && i < |s.phases| && s.phases[i].ToldRouter? && id in s.phases[i].remaining
    ensures Inv(s.TellRouterSubnet(i, id))
  {
    var n, remaining := s.peers[i].nodeID, s.phases[i].remaining;
    PeerFacts(s, i);
    var shared := s.Shared(s.peers[i]);
    assert {PRIMARY_NETWORK_ID} + (shared - remaining) + {id} == {PRIMARY_NETWORK_ID} + (shared - (remaining - {id}));
    RouterToldKeepsInv(s, i, ToldRouter(remaining - {id}), RouterConnected(n, id));
  }

  lemma DisconnectedKeepsInv(s: System, i: nat)
    requires Inv(s) && i < |s.phases| && (s.phases[i].Handshaking? || s.phases[i] == ToldRouter({}))
    ensures Inv(s.Disconnected(i))
  {
    var n := s.peers[i].nodeID;
    PeerFacts(s, i);
    AdvanceKeepsPeers(s, i, Leaving(n in s.net.connecting, n in s.net.connected));
    var shared := s.Shared(s.peers[i]);
    assert shared - {} == shared;
    SilentAdvance(s, s.net.connected, i, Leaving(n in s.net.connecting, n in s.net.connected));
  }

  lemma LeaveConnectingKeepsInv(s: System, i: nat)
    requires Inv(s) && i < |s.phases| && s.phases[i].Leaving? && s.phases[i].connecting
    ensures Inv(s.LeaveConnecting(i))
  {
    var n := s.peers[i].nodeID;
    PeerFacts(s, i);
    CloseKeepsPeers(s, i, n);
    DisconnectedFromConnectingKeepsTracks(s.net, n, s.tracker.WantsConnection(n));
    SilentAdvance(s, s.net.connected, i, Closed);
  }

  lemma LeaveTrackerKeepsInv(s: System, i: nat)
    requires Inv(s) && i < |s.phases| && s.phases[i] == Leaving(false, true)
    ensures Inv(s.LeaveTracker(i))
  {
    var n := s.peers[i].nodeID;
    PeerFacts(s, i);
    TrackerToldKeepsInv(s, i, s.tracker.Disconnected(n), LeftTracker, TrackerDisconnected(n));
  }

  lemma LeaveRouterKeepsInv(s: System, i: nat)
    requires Inv(s) && i < |s.phases| && s.phases[i].LeftTracker?
    ensures Inv(s.LeaveRouter(i))
  {
    PeerFacts(s, i);
    RouterToldKeepsInv(s, i, LeftRouter, RouterDisconnected(s.peers[i].nodeID));
  }

  lemma LeaveConnectedKeepsInv(s: System, i: nat)
    requires Inv(s) && i < |s.phases| && s.phases[i].LeftRouter?
    ensures Inv(s.LeaveConnected(i))
  {
    var n := s.peers[i].nodeID;
    PeerFacts(s, i);
    CloseKeepsPeers(s, i, n);
    DisconnectedFromConnectedKeepsTracks(s.net, n, WantedIP(s.tracker, n));
    SilentAdvance(s, s.net.connected - {n}, i, Closed);
  }

  lemma TrackerStepKeepsInv(s: System, e: Event)
    requires Inv(s) && !e.Connected? && !e.Disconnected?
    ensures Inv(s.(tracker := TrackerState.Step(s.tracker, e)))
  {
    OthersKeepConnected(s.tracker, e);
    QuietStep(s, s.net, TrackerState.Step(s.tracker, e));
  }

  lemma ManuallyTrackKeepsInv(s: System, n: NodeID, addr: int)
    requires Inv(s)
    ensures Inv(s.(net := s.net.ManuallyTrack(n, addr)))
  {
    TrackKeepsTracks(s.net, n, addr);
    QuietStep(s, s.net.ManuallyTrack(n, addr), s.tracker);
  }

  lemma TrackKeepsInv(s: System, ip: ClaimedIP, net: Net, tracker: State)
    requires Inv(s) && (net == s.net || net == s.net.Track(ip.nodeID, ip.addr)) && tracker.connected == s.tracker.connected
    ensures Inv(s.(net := net, tracker := tracker))
  {
    TrackKeepsTracks(s.net, ip.nodeID, ip.addr);
    QuietStep(s, net, tracker);
  }

  lemma DialCheckKeepsSets(net: Net, t: nat, wanted: bool, delay: int)
    requires net.Valid() && t < |net.created|
    ensures net.DialCheck(t, wanted, delay).connecting == net.connecting && net.DialCheck(t, wanted, delay).connected == net.connected
  {
  }

  lemma DialCheckKeepsInv(s: System, t: nat, wanted: bool, delay: int)
    requires Inv(s) && t < |s.net.created|
    ensures Inv(s.(net := s.net.DialCheck(t, wanted, delay)))
  {
    DialCheckKeepsTracks(s.net, t, wanted, delay);
    DialCheckKeepsSets(s.net, t, wanted, delay);
    QuietStep(s, s.net.DialCheck(t, wanted, delay), s.tracker);
  }

  lemma DialExitKeepsInv(s: System, t: nat)
    requires Inv(s) && t < |s.net.created|
    ensures Inv(s.(net := s.net.Exit(t)))
  {
    DialKeepsTracks(s.net, t, s.net.created[t].delay, false);
    QuietStep(s, s.net.Exit(t), s.tracker);
  }

  lemma StartCloseKeepsInv(s: System)
    requires Inv(s)
    ensures Inv(s.(net := s.net.StartClose()))
    ensures s.net.StartClose().closing && s.net.StartClose().trackedIPs == map[]
    ensures forall t | 0 <= t < |s.net.created| :: s.net.StartClose().created[t].stopped
  {
    StartCloseKeepsTracks(s.net);
    QuietStep(s, s.net.StartClose(), s.tracker);
  }

  /** Every step of every peer, dial loop and caller keeps the invariant. */
  lemma StepKeepsInv(s: System, step: Step)
    requires Inv(s) && Enabled(s, step)
    ensures Inv(Next(s, step))
  {
    match step
    case UpgradeStep(n, ip, trackedSubnets) => UpgradeKeepsInv(s, n, ip, trackedSubnets);
    case ConnectedStep(i) => ConnectedKeepsInv(s, i);
    case TellTrackerStep(i, reset) => TellTrackerKeepsInv(s, i, reset);
    case TellRouterStep(i) => TellRouterKeepsInv(s, i);
    case TellRouterSubnetStep(i, id) => TellRouterSubnetKeepsInv(s, i, id);
    case DisconnectedStep(i) => DisconnectedKeepsInv(s, i);
    case LeaveConnectingStep(i) => LeaveConnectingKeepsInv(s, i);
    case LeaveTrackerStep(i) => LeaveTrackerKeepsInv(s, i);
    case LeaveRouterStep(i) => LeaveRouterKeepsInv(s, i);
    case LeaveConnectedStep(i) => LeaveConnectedKeepsInv(s, i);
    case DialCheckStep(t, delay) =>
      DialCheckKeepsInv(s, t, s.tracker.WantsConnection(s.net.created[t].nodeID), delay);
    case DialExitStep(t) => DialExitKeepsInv(s, t);
    case StartCloseStep => StartCloseKeepsInv(s);
    case TrackerStep(e) => TrackerStepKeepsInv(s, e);
    case ManuallyTrackStep(n, addr) => ManuallyTrackKeepsInv(s, n, addr);
    case TrackStep(ip, reset) => TrackKeepsInv(s, ip, Next(s, step).net, s.tracker.AddIP(ip, reset));
  }

  /** The tracker is only told of connections it does not know, so it stays coherent. */
  lemma StepKeepsCoherent(s: System, step: Step)
    requires Inv(s) && Coherent(s.tracker) && Enabled(s, step)
    ensures Coherent(Next(s, step).tracker)
  {
    match step
    case TrackerStep(e) => StepCoherent(s.tracker, e);
    case TrackStep(ip, reset) => AddIPCoherent(s.tracker, ip, reset);
    case TellTrackerStep(i, reset) =>
      ConnectedCoherent(s.tracker, s.peers[i].ip, s.peers[i].trackedSubnets, reset);
    case LeaveTrackerStep(i) => DisconnectedCoherent(s.tracker, s.peers[i].nodeID);
    case _ =>
  }

  // ---------- Every run ----------

  /** NewNetwork: nobody is connected; the tracker may have tracked nodes already. */
  ghost predicate Initial(s: System) {
    && s.net == EMPTY_NET && s.peers == [] && s.phases == [] && s.log == []
    && Coherent(s.tracker) && s.tracker.connected == map[]
    && PRIMARY_NETWORK_ID !in s.mySubnets
  }

  ghost predicate IsRun(states: seq<System>, steps: seq<Step>) {
    && |states| == |steps| + 1 && Initial(states[0])
    && forall k | 0 <= k < |steps| ::
         states[k].Valid() && Enabled(states[k], steps[k]) && states[k + 1] == Next(states[k], steps[k])
  }

  lemma {:induction false} RunKeepsInv(states: seq<System>, steps: seq<Step>, k: nat)
    requires IsRun(states, steps) && k < |states|
    ensures Inv(states[k]) && Coherent(states[k].tracker)
  {
    if k > 0 {
      RunKeepsInv(states, steps, k - 1);
      StepKeepsInv(states[k - 1], steps[k - 1]);
      StepKeepsCoherent(states[k - 1], steps[k - 1]);
    }
  }

  /** A node is never both connecting and connected.  A trackedIP is stopped exactly when it is not its node's
      current entry, so no dial loop is orphaned.  A connected node has no entry, so every dial loop for it has
      been told to stop. */
  ghost predicate NetSafe(net: Net) {
    && (forall n | n in net.connecting :: n !in net.connected)
    && (forall n | n in net.trackedIPs :: n !in net.connected)
    && (forall t | 0 <= t < |net.created| ::
          net.created[t].stopped <==>
          !(net.created[t].nodeID in net.trackedIPs && net.trackedIPs[net.created[t].nodeID] == t))
    && (forall t | 0 <= t < |net.created| && net.created[t].nodeID in net.connected :: net.created[t].stopped)
  }

  /** In every interleaving, at every moment: the network is safe, router and tracker see strictly
      alternating Connected and Disconnected, and the tracker counts only connected peers as connected. */
  lemma EveryRunIsSafe(states: seq<System>, steps: seq<Step>, k: nat)
    requires IsRun(states, steps) && k < |states|
    ensures NetSafe(states[k].net)
    ensures Alternates(states[k].log)
    ensures forall n | n in states[k].tracker.connected :: n in states[k].net.connected
    ensures GossipExact(states[k].tracker)
  {
    RunKeepsInv(states, steps, k);
    CoherentGossipExact(states[k].tracker);
    InvIsSafe(states[k]);
  }

  lemma InvIsSafe(s: System)
    requires Inv(s)
    ensures NetSafe(s.net)
    ensures forall n | n in s.tracker.connected :: n in s.net.connected
  {
  }

  /** The peer behind a callback is the one that the set it looks in holds for the node. */
  ghost predicate FindsItsPeer(s: System, step: Step)
    requires s.Valid() && Enabled(s, step)
  {
    match step
    case ConnectedStep(i) => Holds(s.net.connecting, s.peers[i])
    case DisconnectedStep(i) =>
      if s.peers[i].nodeID in s.net.connecting
      then Holds(s.net.connecting, s.peers[i]) && s.peers[i].nodeID !in s.net.connected
      else Holds(s.net.connected, s.peers[i])
    case LeaveConnectingStep(i) => Holds(s.net.connecting, s.peers[i])
    case LeaveConnectedStep(i) => Holds(s.net.connected, s.peers[i])
    case TellTrackerStep(i, _) => s.peers[i].ip.nodeID !in s.tracker.connected
    case LeaveTrackerStep(i) => s.peers[i].nodeID in s.tracker.connected
    case _ => true
  }

  ghost predicate Holds(held: PeerMap, p: Peer) {
    p.nodeID in held && held[p.nodeID] == p
  }

  lemma CallerIsKnown(s: System, step: Step)
    requires Inv(s) && s.Valid() && Enabled(s, step)
    ensures FindsItsPeer(s, step)
  {
    match step
    case ConnectedStep(i) => PeerFacts(s, i);
    case DisconnectedStep(i) => PeerFacts(s, i);
    case LeaveConnectingStep(i) => PeerFacts(s, i);
    case LeaveConnectedStep(i) => PeerFacts(s, i);
    case TellTrackerStep(i, _) => PeerFacts(s, i);
    case LeaveTrackerStep(i) => PeerFacts(s, i);
    case _ =>
  }

  /** In every run, Connected and Disconnected find their peer, Disconnected in exactly one of the sets, and the
      tracker is told of nodes it does not know and then of nodes it does. */
  lemma CallbacksFindTheirPeer(states: seq<System>, steps: seq<Step>, k: nat)
    requires IsRun(states, steps) && k < |steps|
    ensures states[k].Valid() && Enabled(states[k], steps[k]) && FindsItsPeer(states[k], steps[k])
  {
    RunKeepsInv(states, steps, k);
    CallerIsKnown(states[k], steps[k]);
  }
}
