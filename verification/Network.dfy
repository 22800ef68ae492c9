/**
 The lock-held sections of `network` as they are written: peer sets and tracked IPs are objects
 updated in place.  Each method moves the value of NetworkState by the function of the same name.
 */
module Networks {
  import opened Ids
  import opened NetworkState
  import opened PeerSets

  class TrackedIP {
    const nodeID: NodeID
    const addr: int
    /** How many trackedIPs were created before. */
    ghost const instance: nat
    var delay: int
    /** Is the channel onStopTracking closed? */
    var stopped: bool
    /** Does the dial loop of this trackedIP still run? */
    var dialing: bool

    ghost function Info(): TrackedIPInfo
      reads this
    {
      TrackedIPInfo(nodeID, addr, delay, stopped, dialing)
    }

    constructor (nodeID: NodeID, addr: int, delay: int, ghost instance: nat)
      ensures Info() == TrackedIPInfo(nodeID, addr, delay, false, true) && this.instance == instance
    {
      this.nodeID, this.addr, this.delay, this.instance := nodeID, addr, delay, instance;
      stopped, dialing := false, true;
    }
  }

  /** `infos` are the values of these objects, which know their position. */
  ghost predicate Mirrors(created: seq<TrackedIP>, infos: seq<TrackedIPInfo>)
    reads created
  {
    |infos| == |created| && forall t | 0 <= t < |created| :: created[t].instance == t && infos[t] == created[t].Info()
  }

  /** The map holds the objects at the positions that `entries` says. */
  ghost predicate EntriesOk(trackedIPs: map<NodeID, TrackedIP>, entries: map<NodeID, nat>, created: seq<TrackedIP>) {
    && (forall n :: n in entries <==> n in trackedIPs)
    && (forall n | n in entries :: EntryOk(n, trackedIPs[n], entries[n], created))
  }

  ghost predicate EntryOk(n: NodeID, ip: TrackedIP, t: nat, created: seq<TrackedIP>) {
    t < |created| && ip == created[t] && ip.nodeID == n
  }

  lemma EntryRemoved(trackedIPs: map<NodeID, TrackedIP>, entries: map<NodeID, nat>, created: seq<TrackedIP>, n: NodeID)
    requires EntriesOk(trackedIPs, entries, created)
    ensures EntriesOk(trackedIPs - {n}, entries - {n}, created)
  {
  }

  lemma EntryAdded(trackedIPs: map<NodeID, TrackedIP>, entries: map<NodeID, nat>, created: seq<TrackedIP>, ip: TrackedIP)
    requires EntriesOk(trackedIPs, entries, created)
    ensures EntriesOk(trackedIPs[ip.nodeID := ip], entries[ip.nodeID := |created|], created + [ip])
  {
    forall n | n in entries
      ensures EntryOk(n, trackedIPs[n], entries[n], created + [ip])
    {
      assert EntryOk(n, trackedIPs[n], entries[n], created);
    }
  }

  class Network {
    const connectingPeers: PeerSet
    const connectedPeers: PeerSet
    var trackedIPs: map<NodeID, TrackedIP>
    var closing: bool

    /** All trackedIPs ever created, and the positions of the current entries among them. */
    ghost var created: seq<TrackedIP>
    ghost var infos: seq<TrackedIPInfo>
    ghost var entries: map<NodeID, nat>

    ghost function View(): Net
      reads this`closing, this`infos, this`entries, connectingPeers`peers, connectedPeers`peers
    {
      Net(connectingPeers.peers, connectedPeers.peers, entries, infos, closing)
    }

    ghost predicate TracksValid()
      reads this`trackedIPs, this`created, this`infos, this`entries, created
    {
      Mirrors(created, infos) && EntriesOk(trackedIPs, entries, created)
    }

    ghost predicate Valid()
      reads this, created, connectingPeers, connectedPeers
    {
      && connectingPeers != connectedPeers && connectingPeers.Valid() && connectedPeers.Valid()
      && TracksValid()
    }

    constructor ()
      ensures Valid() && View() == EMPTY_NET
    {
      connectingPeers := new PeerSet();
      connectedPeers := new PeerSet();
      trackedIPs, closing := map[], false;
      created, infos, entries := [], [], map[];
    }

    // ---------- Tracked IPs ----------

    /** newTrackedIP, the new map entry and dial. */
    method StartTracking(n: NodeID, addr: int, delay: int)
      requires TracksValid()
      modifies this`trackedIPs, this`created, this`infos, this`entries
      ensures TracksValid() && View() == old(View()).StartTracking(n, addr, delay)
      ensures |created| == |old(created)| + 1 && created[..|old(created)|] == old(created) && fresh(created[|old(created)|])
    {
      var tracked := new TrackedIP(n, addr, delay, |created|);
      EntryAdded(trackedIPs, entries, created, tracked);
      trackedIPs := trackedIPs[n := tracked];
      entries := entries[n := |created|];
      created, infos := created + [tracked], infos + [tracked.Info()];
    }

    /** stopTracking on the current entry of a node. */
    method StopEntry(n: NodeID)
      requires TracksValid() && n in trackedIPs
      modifies this`infos, created
      ensures TracksValid() && View().Valid() && View() == old(View()).Stop(n)
    {
      ViewIsValid();
      assert EntryOk(n, trackedIPs[n], entries[n], created);
      trackedIPs[n].stopped := true;
      infos := infos[entries[n] := infos[entries[n]].(stopped := true)];
    }

    lemma ViewIsValid()
      requires TracksValid()
      ensures View().Valid()
    {
      forall n | n in entries
        ensures entries[n] < |infos| && infos[entries[n]].nodeID == n
      {
        assert EntryOk(n, trackedIPs[n], entries[n], created);
      }
    }

    method StopTracking(n: NodeID)
      requires TracksValid()
      modifies this`trackedIPs, this`infos, this`entries, created
      ensures TracksValid() && View() == old(View()).StopTracking(n) && entries == old(entries) - {n}
    {
      ViewIsValid();
      if n in trackedIPs {
        StopEntry(n);
        EntryRemoved(trackedIPs, entries, created, n);
        trackedIPs, entries := trackedIPs - {n}, entries - {n};
      }
    }

    method TrackNewIP(n: NodeID, addr: int)
      requires TracksValid() && n in trackedIPs
      modifies this`trackedIPs, this`created, this`infos, this`entries, created
      ensures TracksValid() && View() == old(View()).TrackNewIP(n, addr)
    {
      var delay := trackedIPs[n].delay;
      StopEntry(n);
      StartTracking(n, addr, delay);
    }

    // ---------- Lock-held sections ----------

    method Connected(n: NodeID)
      requires Valid()
      modifies this`trackedIPs, this`infos, this`entries, created, connectingPeers, connectedPeers
      ensures Valid() && View() == old(View()).Connected(n)
    {
      var peer := connectingPeers.GetByID(n);
      if peer.None? {
        return;
      }
      StopTracking(n);
      connectingPeers.Remove(n);
      connectedPeers.Add(peer.value);
    }

    method ManuallyTrack(n: NodeID, addr: int)
      requires Valid()
      modifies this`trackedIPs, this`created, this`infos, this`entries
      ensures Valid() && View() == old(View()).ManuallyTrack(n, addr)
    {
      var connected := connectedPeers.GetByID(n);
      if connected.Some? {
        return;
      }
      if n !in trackedIPs {
        StartTracking(n, addr, 0);
      }
    }

    method Track(n: NodeID, addr: int)
      requires Valid()
      modifies this`trackedIPs, this`created, this`infos, this`entries, created
      ensures Valid() && View() == old(View()).Track(n, addr)
    {
      var connected := connectedPeers.GetByID(n);
      if connected.Some? {
        return;
      }
      if n in trackedIPs {
        TrackNewIP(n, addr);
      } else {
        StartTracking(n, addr, 0);
      }
    }

    method DisconnectedFromConnecting(n: NodeID, wanted: bool)
      requires Valid()
      modifies this`trackedIPs, this`created, this`infos, this`entries, created, connectingPeers
      ensures Valid() && View() == old(View()).DisconnectedFromConnecting(n, wanted)
    {
      connectingPeers.Remove(n);
      if n in trackedIPs {
        if wanted {
          TrackNewIP(n, trackedIPs[n].addr);
        } else {
          StopTracking(n);
        }
      }
    }

    method DisconnectedFromConnected(n: NodeID, ip: Option<int>)
      requires Valid()
      modifies this`trackedIPs, this`created, this`infos, this`entries, connectedPeers
      ensures Valid() && View() == old(View()).DisconnectedFromConnected(n, ip)
    {
      connectedPeers.Remove(n);
      if ip.Some? {
        StartTracking(n, ip.value, 0);
      }
    }

    /** One round of the dial loop of the `t`th trackedIP, up to the release of the lock. */
    method DialCheck(ip: TrackedIP, ghost t: nat, wanted: bool, delay: int)
      requires Valid() && t < |created| && created[t] == ip
      modifies this`trackedIPs, this`infos, this`entries, created
      ensures Valid() && View() == old(View()).DialCheck(t, wanted, delay)
    {
      if !wanted {
        StopTracking(ip.nodeID);
        ip.dialing := false;
      } else {
        var connecting := connectingPeers.GetByID(ip.nodeID);
        var connected := connectedPeers.GetByID(ip.nodeID);
        if connecting.Some? || connected.Some? {
          ip.dialing := false;
        } else {
          ip.delay := delay;
        }
      }
      infos := infos[t := ip.Info()];
    }

    method Upgrade(p: Peer) returns (started: bool)
      requires Valid()
      modifies connectingPeers
      ensures Valid() && View() == old(View()).Upgrade(p) && started == old(View()).Accepts(p.nodeID)
    {
      if closing {
        return false;
      }
      var connecting := connectingPeers.GetByID(p.nodeID);
      if connecting.Some? {
        return false;
      }
      var connected := connectedPeers.GetByID(p.nodeID);
      if connected.Some? {
        return false;
      }
      connectingPeers.Add(p);
      return true;
    }

    method StopAll()
      requires TracksValid()
      modifies this`trackedIPs, this`infos, this`entries, created
      ensures TracksValid() && entries == map[] && infos == StoppedAt(old(infos), old(entries))
    {
      var todo := trackedIPs.Keys;
      while todo != {}
        invariant TracksValid() && forall n | n in entries :: n in todo
        invariant StoppedAt(infos, entries) == StoppedAt(old(infos), old(entries))
        decreases todo
      {
        ghost var some := Member(todo);
        var n :| n in todo;
        StopOne(View(), n);
        StopTracking(n);
        todo := todo - {n};
      }
      StopNone(infos, entries);
      entries := map[];
    }

    method StartClose()
      requires Valid()
      modifies this`closing, this`trackedIPs, this`infos, this`entries, created
      ensures Valid() && View() == old(View()).StartClose()
    {
      closing := true;
      StopAll();
    }
  }

  lemma StopNone(created: seq<TrackedIPInfo>, entries: map<NodeID, nat>)
    requires forall n :: n !in entries
    ensures StoppedAt(created, entries) == created
  {
  }

  /** Stopping the entries goes one by one, in any order. */
  lemma StopOne(net: Net, n: NodeID)
    requires net.Valid()
    ensures var left := net.StopTracking(n);
            StoppedAt(left.created, left.trackedIPs) == StoppedAt(net.created, net.trackedIPs)
  {
  }
}
