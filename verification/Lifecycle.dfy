/**
 The connection lifecycle as a state machine: the lock-held sections of `network`, the unlocked
 calls to the IP tracker and the router between them, and the dial loops, in every interleaving.
 A peer calls Connected at most once and then Disconnected once; nothing else is assumed of it.
 */
module Lifecycle {
  import opened Ids
  import opened TrackerState
  import opened NetworkState

  /** Where a peer is in its calls to the network. */
  datatype Phase =
    | Handshaking                           // started, Connected not called
    | ToldNobody                            // Connected has released the lock
    | ToldTracker                           // ... and returned from ipTracker.Connected
    | ToldRouter(remaining: set<SubnetID>)  // ... and from router.Connected, but for these subnets
    | Leaving(connecting: bool, connected: bool)  // Disconnected has looked the node up
    | LeftTracker                           // ... and returned from ipTracker.Disconnected
    | LeftRouter                            // ... and from router.Disconnected
    | Closed

  /** The calls that the IP tracker and the router receive. */
  datatype Notice =
    | TrackerConnected(nodeID: NodeID)
    | TrackerDisconnected(nodeID: NodeID)
    | RouterConnected(nodeID: NodeID, subnetID: SubnetID)
    | RouterDisconnected(nodeID: NodeID)

  datatype System = System(
    mySubnets: set<SubnetID>,
    net: Net,
    tracker: State,
    peers: seq<Peer>,
    phases: seq<Phase>,
    log: seq<Notice>)
  {
    predicate Valid() {
      && net.Valid()
      && |phases| == |peers|
    }

    /** The subnets of a peer that the router is told about besides the primary network. */
    function Shared(p: Peer): set<SubnetID> {
      mySubnets * p.trackedSubnets
    }

    function Advance(i: nat, phase: Phase): System
      requires i < |phases|
    {
      this.(phases := phases[i := phase])
    }

    function Note(notice: Notice): System {
      this.(log := log + [notice])
    }

    // ---------- The calls of peer i, piece by piece ----------

    function Upgrade(n: NodeID, ip: ClaimedIP, trackedSubnets: set<SubnetID>): System {
      var p := Peer(n, |peers|, ip, trackedSubnets);
      if net.Accepts(n) then
        this.(net := net.Upgrade(p), peers := peers + [p], phases := phases + [Handshaking])
      else
        this
    }

    function Connected(i: nat): System
      requires Valid() && i < |peers|
    {
      var n := peers[i].nodeID;
      if n in net.connecting then this.(net := net.Connected(n)).Advance(i, ToldNobody) else this
    }

    function TellTracker(i: nat, reset: ResetOutcome): System
      requires Valid() && i < |peers|
    {
      var p := peers[i];
      this.(tracker := tracker.Connected(p.ip, p.trackedSubnets, reset)).Note(TrackerConnected(p.nodeID)).Advance(i, ToldTracker)
    }

    function TellRouter(i: nat): System
      requires Valid() && i < |peers|
    {
      Note(RouterConnected(peers[i].nodeID, PRIMARY_NETWORK_ID)).Advance(i, ToldRouter(Shared(peers[i])))
    }

    function TellRouterSubnet(i: nat, id: SubnetID): System
      requires Valid() && i < |peers| && phases[i].ToldRouter?
    {
      Note(RouterConnected(peers[i].nodeID, id)).Advance(i, ToldRouter(phases[i].remaining - {id}))
    }

    function Disconnected(i: nat): System
      requires Valid() && i < |peers|
    {
      Advance(i, Leaving(peers[i].nodeID in net.connecting, peers[i].nodeID in net.connected))
    }

    function LeaveConnecting(i: nat): System
      requires Valid() && i < |peers| && phases[i].Leaving?
    {
      var n := peers[i].nodeID;
      this.(net := net.DisconnectedFromConnecting(n, tracker.WantsConnection(n)))
          .Advance(i, if phases[i].connected then Leaving(false, true) else Closed)
    }

    function LeaveTracker(i: nat): System
      requires Valid() && i < |peers|
    {
      var n := peers[i].nodeID;
      this.(tracker := tracker.Disconnected(n)).Note(TrackerDisconnected(n)).Advance(i, LeftTracker)
    }

    function LeaveRouter(i: nat): System
      requires Valid() && i < |peers|
    {
      Note(RouterDisconnected(peers[i].nodeID)).Advance(i, LeftRouter)
    }

    function LeaveConnected(i: nat): System
      requires Valid() && i < |peers|
    {
      var n := peers[i].nodeID;
      this.(net := net.DisconnectedFromConnected(n, WantedIP(tracker, n))).Advance(i, Closed)
    }
  }

  datatype Step =
    | TrackerStep(e: Event)                        // validators, manual tracking, filter resets
    | ManuallyTrackStep(n: NodeID, addr: int)
    | TrackStep(ip: ClaimedIP, reset: ResetOutcome)
    | UpgradeStep(n: NodeID, ip: ClaimedIP, trackedSubnets: set<SubnetID>)
    | ConnectedStep(i: nat)
    | TellTrackerStep(i: nat, reset: ResetOutcome)
    | TellRouterStep(i: nat)
    | TellRouterSubnetStep(i: nat, id: SubnetID)
    | DisconnectedStep(i: nat)
    | LeaveConnectingStep(i: nat)
    | LeaveTrackerStep(i: nat)
    | LeaveRouterStep(i: nat)
    | LeaveConnectedStep(i: nat)
    | DialCheckStep(t: nat, delay: int)
    | DialExitStep(t: nat)
    | StartCloseStep

  /** Program order of each peer and dial loop; no step asks for more than that. */
  predicate Enabled(s: System, step: Step) {
    match step
    case TrackerStep(e) => !e.Connected? && !e.Disconnected?
    case ManuallyTrackStep(_, _) => true
    case TrackStep(_, _) => true
    case UpgradeStep(n, ip, _) => ip.nodeID == n
    case ConnectedStep(i) => i < |s.phases| && s.phases[i].Handshaking?
    case TellTrackerStep(i, _) => i < |s.phases| && s.phases[i].ToldNobody?
    case TellRouterStep(i) => i < |s.phases| && s.phases[i].ToldTracker?
    case TellRouterSubnetStep(i, id) => i < |s.phases| && s.phases[i].ToldRouter? && id in s.phases[i].remaining
    case DisconnectedStep(i) =>
      i < |s.phases| && (s.phases[i].Handshaking? || s.phases[i] == ToldRouter({}))
    case LeaveConnectingStep(i) => i < |s.phases| && s.phases[i].Leaving? && s.phases[i].connecting
    case LeaveTrackerStep(i) => i < |s.phases| && s.phases[i] == Leaving(false, true)
    case LeaveRouterStep(i) => i < |s.phases| && s.phases[i].LeftTracker?
    case LeaveConnectedStep(i) => i < |s.phases| && s.phases[i].LeftRouter?
    case DialCheckStep(t, _) => t < |s.net.created| && s.net.created[t].dialing
    case DialExitStep(t) => t < |s.net.created| && s.net.created[t].dialing
    case StartCloseStep => !s.net.closing
  }

  /** GetIP, for a node that a connection is wanted to. */
  function WantedIP(tracker: State, n: NodeID): Option<int> {
    if tracker.WantsConnection(n) && tracker.tracked[n].ip.Some? then Some(tracker.tracked[n].ip.value.addr) else None
  }

  function Next(s: System, step: Step): System
    requires s.Valid() && Enabled(s, step)
  {
    match step
    case TrackerStep(e) => s.(tracker := TrackerState.Step(s.tracker, e))
    case ManuallyTrackStep(n, addr) => s.(net := s.net.ManuallyTrack(n, addr))
    case TrackStep(ip, reset) =>
      s.(tracker := s.tracker.AddIP(ip, reset),
         net := if s.tracker.AddIPReturns(ip) then s.net.Track(ip.nodeID, ip.addr) else s.net)
    case UpgradeStep(n, ip, trackedSubnets) => s.Upgrade(n, ip, trackedSubnets)
    case ConnectedStep(i) => s.Connected(i)
    case TellTrackerStep(i, reset) => s.TellTracker(i, reset)
    case TellRouterStep(i) => s.TellRouter(i)
    case TellRouterSubnetStep(i, id) => s.TellRouterSubnet(i, id)
    case DisconnectedStep(i) => s.Disconnected(i)
    case LeaveConnectingStep(i) => s.LeaveConnecting(i)
    case LeaveTrackerStep(i) => s.LeaveTracker(i)
    case LeaveRouterStep(i) => s.LeaveRouter(i)
    case LeaveConnectedStep(i) => s.LeaveConnected(i)
    case DialCheckStep(t, delay) =>
      s.(net := s.net.DialCheck(t, s.tracker.WantsConnection(s.net.created[t].nodeID), delay))
    case DialExitStep(t) => s.(net := s.net.Exit(t))
    case StartCloseStep => s.(net := s.net.StartClose())
  }
}
