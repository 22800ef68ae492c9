/** What each lock-held section of `network` changes, trackedIP by trackedIP, and that it changes nothing else. */
module NetworkEffects {
  import opened Ids
  import opened NetworkState

  type PeerMap = map<NodeID, Peer>

  /** The node has a new trackedIP with this address and delay, and a dial loop for it. */
  ghost predicate Starts(net: Net, after: Net, n: NodeID, addr: int, delay: int) {
    && |after.created| == |net.created| + 1
    && n in after.trackedIPs && after.trackedIPs[n] == |net.created|
    && after.created[|net.created|] == TrackedIPInfo(n, addr, delay, false, true)
  }

  ghost predicate StartsNone(net: Net, after: Net) {
    |after.created| == |net.created|
  }

  /** Of the trackedIPs that were there, the node's entry is told to stop and no other changes. */
  ghost predicate StopsEntry(net: Net, after: Net, n: NodeID) {
    && |net.created| <= |after.created|
    && forall t | 0 <= t < |net.created| ::
         after.created[t] ==
         if n in net.trackedIPs && net.trackedIPs[n] == t then net.created[t].(stopped := true) else net.created[t]
  }

  ghost predicate StopsNone(net: Net, after: Net) {
    && |net.created| <= |after.created|
    && forall t | 0 <= t < |net.created| :: after.created[t] == net.created[t]
  }

  /** Other nodes keep their entries. */
  ghost predicate OtherEntriesKept(net: Net, after: Net, n: NodeID) {
    && (forall m | m != n :: m in after.trackedIPs <==> m in net.trackedIPs)
    && (forall m | m != n && m in net.trackedIPs :: after.trackedIPs[m] == net.trackedIPs[m])
  }

  ghost predicate SetsKept(net: Net, after: Net) {
    after.connecting == net.connecting && after.connected == net.connected && after.closing == net.closing
  }

  ghost predicate Moved(from: PeerMap, to: PeerMap, n: NodeID) {
    && (forall m | m != n :: m in to <==> m in from)
    && (forall m | m != n && m in from :: to[m] == from[m])
  }

  /** The delay that a new trackedIP of the node takes over. */
  ghost function DelayOf(net: Net, n: NodeID): int
    requires net.Valid()
  {
    if n in net.trackedIPs then net.created[net.trackedIPs[n]].delay else 0
  }

  /** A newer IP of a node that is not connected is dialed instead of the old one, at once and with its delay. */
  lemma TrackEffect(net: Net, n: NodeID, addr: int)
    requires net.Valid()
    ensures var after := net.Track(n, addr);
            if n in net.connected then after == net
            else
              && Starts(net, after, n, addr, DelayOf(net, n)) && StopsEntry(net, after, n)
              && OtherEntriesKept(net, after, n) && SetsKept(net, after)
  {
  }

  /** Manual tracking dials exactly the nodes that are neither connected nor tracked. */
  lemma ManuallyTrackEffect(net: Net, n: NodeID, addr: int)
    requires net.Valid()
    ensures var after := net.ManuallyTrack(n, addr);
            if n in net.connected || n in net.trackedIPs then after == net
            else
              && Starts(net, after, n, addr, 0) && StopsNone(net, after)
              && OtherEntriesKept(net, after, n) && SetsKept(net, after)
  {
  }

  /** A connecting peer becomes the connected one, and its node is no longer dialed. */
  lemma ConnectedEffect(net: Net, n: NodeID)
    requires net.Valid()
    ensures var after := net.Connected(n);
            if n !in net.connecting then after == net
            else
              && n !in after.connecting && Moved(net.connecting, after.connecting, n)
              && n in after.connected && after.connected[n] == net.connecting[n] && Moved(net.connected, after.connected, n)
              && n !in after.trackedIPs && StartsNone(net, after) && StopsEntry(net, after, n)
              && OtherEntriesKept(net, after, n) && after.closing == net.closing
  {
  }

  /** A peer that leaves during the handshake is dialed again at the same address if it is tracked and still wanted. */
  lemma DisconnectedFromConnectingEffect(net: Net, n: NodeID, wanted: bool)
    requires net.Valid()
    ensures var after := net.DisconnectedFromConnecting(n, wanted);
            && n !in after.connecting && Moved(net.connecting, after.connecting, n) && after.connected == net.connected
            && StopsEntry(net, after, n) && OtherEntriesKept(net, after, n) && after.closing == net.closing
            && if n in net.trackedIPs && wanted
               then Starts(net, after, n, net.created[net.trackedIPs[n]].addr, DelayOf(net, n))
               else StartsNone(net, after) && n !in after.trackedIPs
  {
  }

  /** A peer that leaves after it was connected is dialed at the IP given, if there is one. */
  lemma DisconnectedFromConnectedEffect(net: Net, n: NodeID, ip: Option<int>)
    requires net.Valid()
    ensures var after := net.DisconnectedFromConnected(n, ip);
            && n !in after.connected && Moved(net.connected, after.connected, n) && after.connecting == net.connecting
            && StopsNone(net, after) && OtherEntriesKept(net, after, n) && after.closing == net.closing
            && if ip.Some? then Starts(net, after, n, ip.value, 0)
               else StartsNone(net, after) && after.trackedIPs == net.trackedIPs
  {
  }

  /** A dial loop goes on exactly while its node is wanted and neither connecting nor connected; an unwanted node
      loses its entry, which is told to stop. */
  lemma DialCheckEffect(net: Net, t: nat, wanted: bool, delay: int)
    requires net.Valid() && t < |net.created|
    ensures var after, n := net.DialCheck(t, wanted, delay), net.created[t].nodeID;
            var goesOn := wanted && n !in net.connecting && n !in net.connected;
            && SetsKept(net, after) && StartsNone(net, after) && OtherEntriesKept(net, after, n)
            && (n in after.trackedIPs <==> wanted && n in net.trackedIPs)
            && (forall u | 0 <= u < |net.created| ::
                  var old', new' := net.created[u], after.created[u];
                  && new'.nodeID == old'.nodeID && new'.addr == old'.addr
                  && (new'.dialing <==> old'.dialing && (u == t ==> goesOn))
                  && new'.delay == (if u == t && goesOn then delay else old'.delay)
                  && (new'.stopped <==> old'.stopped || (!wanted && n in net.trackedIPs && net.trackedIPs[n] == u)))
  {
    var n := net.created[t].nodeID;
    if !wanted {
      assert net.DialCheck(t, wanted, delay) == net.StopTracking(n).Exit(t);
    }
  }

  /** A peer starts exactly when the network is open and knows no peer of its node. */
  lemma UpgradeEffect(net: Net, p: Peer)
    ensures var after := net.Upgrade(p);
            if net.closing || p.nodeID in net.connecting || p.nodeID in net.connected then after == net && !net.Accepts(p.nodeID)
            else
              && net.Accepts(p.nodeID)
              && p.nodeID in after.connecting && after.connecting[p.nodeID] == p && Moved(net.connecting, after.connecting, p.nodeID)
              && after.connected == net.connected && after.trackedIPs == net.trackedIPs && after.created == net.created
              && !after.closing
  {
  }

  /** Closing refuses new peers from then on, and stops exactly the current trackedIPs. */
  lemma StartCloseEffect(net: Net)
    requires net.Valid()
    ensures var after := net.StartClose();
            && after.closing && (forall n :: n !in after.trackedIPs) && StartsNone(net, after)
            && after.connecting == net.connecting && after.connected == net.connected
            && (forall n :: !after.Accepts(n))
            && forall t | 0 <= t < |net.created| ::
                 var n := net.created[t].nodeID;
                 after.created[t] ==
                 if n in net.trackedIPs && net.trackedIPs[n] == t then net.created[t].(stopped := true) else net.created[t]
  {
  }

  /** The end of a dial loop changes nothing but that. */
  lemma ExitEffect(net: Net, t: nat)
    requires t < |net.created|
    ensures var after := net.Exit(t);
            && SetsKept(net, after) && after.trackedIPs == net.trackedIPs && StartsNone(net, after)
            && !after.created[t].dialing
            && after.created[t].(dialing := net.created[t].dialing) == net.created[t]
            && forall u | 0 <= u < |net.created| && u != t :: after.created[u] == net.created[u]
  {
  }
}
