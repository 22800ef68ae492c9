/**
 The fields that `network` protects with its peers lock, as a value, with one function per
 lock-held section.  Network.dfy refines these functions; Lifecycle.dfy runs them
 interleaved with the unlocked calls between them.
 */
module NetworkState {
  import opened Ids
  import opened TrackerState

  /** One started peer: `instance` tells apart connections to the same node. */
  datatype Peer = Peer(nodeID: NodeID, instance: nat, ip: ClaimedIP, trackedSubnets: set<SubnetID>)

  /** One trackedIP and the dial loop started for it. */
  datatype TrackedIPInfo = TrackedIPInfo(nodeID: NodeID, addr: int, delay: int, stopped: bool, dialing: bool)

  datatype Net = Net(
    connecting: map<NodeID, Peer>,
    connected: map<NodeID, Peer>,
    trackedIPs: map<NodeID, nat>,
    created: seq<TrackedIPInfo>,
    closing: bool)
  {
    /** Every entry of the map refers to a trackedIP that was created for its node. */
    predicate Valid() {
      forall n | n in trackedIPs :: trackedIPs[n] < |created| && created[trackedIPs[n]].nodeID == n
    }

    /** Create a trackedIP, make it the node's entry and dial it. */
    function StartTracking(n: NodeID, addr: int, delay: int): Net {
      this.(created := created + [TrackedIPInfo(n, addr, delay, false, true)],
            trackedIPs := trackedIPs[n := |created|])
    }

    /** stopTracking on the node's entry. */
    function Stop(n: NodeID): Net
      requires Valid() && n in trackedIPs
    {
      this.(created := created[trackedIPs[n] := created[trackedIPs[n]].(stopped := true)])
    }

    /** Stop the node's entry, if any, and delete it. */
    function StopTracking(n: NodeID): Net
      requires Valid()
    {
      if n in trackedIPs then Stop(n).(trackedIPs := trackedIPs - {n}) else this
    }

    /** trackNewIP: stop the node's entry and start a new one with the same delay. */
    function TrackNewIP(n: NodeID, addr: int): Net
      requires Valid() && n in trackedIPs
    {
      Stop(n).StartTracking(n, addr, created[trackedIPs[n]].delay)
    }

    // ---------- Lock-held sections ----------

    /** Connected */
    function Connected(n: NodeID): Net
      requires Valid()
    {
      if n !in connecting then
        this
      else
        StopTracking(n).(connecting := connecting - {n}, connected := connected[n := connecting[n]])
    }

    /** ManuallyTrack */
    function ManuallyTrack(n: NodeID, addr: int): Net {
      if n in connected || n in trackedIPs then this else StartTracking(n, addr, 0)
    }

    /** track, once AddIP has reported the IP as wanted and new */
    function Track(n: NodeID, addr: int): Net
      requires Valid()
    {
      if n in connected then this
      else if n in trackedIPs then TrackNewIP(n, addr)
      else StartTracking(n, addr, 0)
    }

    /** disconnectedFromConnecting */
    function DisconnectedFromConnecting(n: NodeID, wanted: bool): Net
      requires Valid()
    {
      var left := this.(connecting := connecting - {n});
      if n !in trackedIPs then left
      else if wanted then left.TrackNewIP(n, created[trackedIPs[n]].addr)
      else left.StopTracking(n)
    }

    /** disconnectedFromConnected; `ip` is the node's latest IP if a connection is wanted */
    function DisconnectedFromConnected(n: NodeID, ip: Option<int>): Net {
      var left := this.(connected := connected - {n});
      if ip.Some? then left.StartTracking(n, ip.value, 0) else left
    }

    /** The lock-held check of one round of a dial loop. */
    function DialCheck(t: nat, wanted: bool, delay: int): Net
      requires Valid() && t < |created|
    {
      var n := created[t].nodeID;
      if !wanted then
        StopTracking(n).Exit(t)
      else if n in connecting || n in connected then
        Exit(t)
      else
        this.(created := created[t := created[t].(delay := delay)])
    }

    /** A dial loop returns. */
    function Exit(t: nat): Net
      requires t < |created|
    {
      this.(created := created[t := created[t].(dialing := false)])
    }

    /** The end of upgrade: start a peer unless the network closes or the node is known. */
    predicate Accepts(n: NodeID) {
      !closing && n !in connecting && n !in connected
    }

    function Upgrade(p: Peer): Net {
      if Accepts(p.nodeID) then this.(connecting := connecting[p.nodeID := p]) else this
    }

    /** StartClose: stop all tracked IPs. */
    function StartClose(): Net
      requires Valid()
    {
      this.(closing := true,
            trackedIPs := map[],
            created := StoppedAt(created, trackedIPs))
    }
  }

  /** The trackedIPs that the map refers to are stopped, the others kept. */
  function StoppedAt(created: seq<TrackedIPInfo>, entries: map<NodeID, nat>): (r: seq<TrackedIPInfo>)
    ensures |r| == |created|
  {
    seq(|created|, t requires 0 <= t < |created| =>
      if created[t].nodeID in entries && entries[created[t].nodeID] == t then created[t].(stopped := true) else created[t])
  }

  const EMPTY_NET := Net(map[], map[], map[], [], false)
}
