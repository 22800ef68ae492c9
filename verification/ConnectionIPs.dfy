/**
 The documented fourth condition for gossiping, that the node connected with the IP that is gossiped.
 The code does not test it.  Here is a run in which it fails, and exactly which calls make it fail.
 */
module ConnectionIPs {
  import opened Ids
  import opened TrackerState
  import opened TrackerInvariants

  ghost predicate ListsConnectionIP(info: SubnetInfo, connected: ConnectedMap) {
    forall n | n in info.listed :: n in connected && info.listed[n] == connected[n].ip
  }

  /** Every listed IP is the one its node connected with. */
  ghost predicate ListsConnectionIPs(s: State) {
    forall id | id in s.subnet :: ListsConnectionIP(s.subnet[id], s.connected)
  }

  // ---------- The calls that list another IP ----------

  ghost predicate MemberOfSome(s: State, n: NodeID, ids: set<SubnetID>) {
    exists id :: id in ids && s.IsGossipable(id, n)
  }

  /** The node joins a subnet it is connected on after a newer IP of it was learnt. */
  ghost predicate JoinsWithNewerIP(s: State, id: SubnetID, n: NodeID) {
    && !s.IsGossipable(id, n)
    && n in s.connected && id in s.connected[n].trackedSubnets
    && n in s.tracked && s.tracked[n].ip != Some(s.connected[n].ip)
  }

  /** Does the call list an IP that its node did not connect with? */
  ghost predicate Departs(s: State, e: Event) {
    match e
    case AddIP(ip, _) =>
      s.IsNews(ip) && ip.nodeID in s.connected && MemberOfSome(s, ip.nodeID, s.connected[ip.nodeID].trackedSubnets)
    case Connected(ip, subnets, _) =>
      ip.nodeID in s.tracked && !s.IsNews(ip) && s.tracked[ip.nodeID].ip != Some(ip) && MemberOfSome(s, ip.nodeID, subnets)
    case OnValidatorAdded(id, n, _) => JoinsWithNewerIP(s, id, n)
    case ManuallyGossip(id, n, _) => JoinsWithNewerIP(s, id, n)
    case _ => false
  }

  /** Relisting one node lists its connection IP everywhere exactly when that is the IP, or it is listed nowhere. */
  lemma RelistDeparts(s: State, t: State, ip: ClaimedIP)
    requires var n := ip.nodeID;
             && n in t.connected && t.subnet == Relisted(s.subnet, ip, t.connected[n].trackedSubnets)
             && t.connected == s.connected[n := t.connected[n]] && (n in s.connected ==> s.connected[n] == t.connected[n])
    requires ListsMembers(s.connected, s.subnet) && ListsConnectionIPs(s)
    ensures ListsConnectionIPs(t) <==>
            ip == t.connected[ip.nodeID].ip || !MemberOfSome(s, ip.nodeID, t.connected[ip.nodeID].trackedSubnets)
  {
    var n := ip.nodeID;
    if ListsConnectionIPs(t) && ip != t.connected[n].ip {
      forall id | id in t.connected[n].trackedSubnets
        ensures !s.IsGossipable(id, n)
      {
        assert id in s.subnet ==> ListsConnectionIP(t.subnet[id], t.connected);
      }
    }
    if ip == t.connected[n].ip || !MemberOfSome(s, n, t.connected[n].trackedSubnets) {
      forall id | id in t.subnet
        ensures ListsConnectionIP(t.subnet[id], t.connected)
      {
        assert ListsConnectionIP(s.subnet[id], s.connected) && ListsExactly(id, s.subnet[id], s.connected);
        assert id in t.connected[n].trackedSubnets && n in s.subnet[id].gossipableIDs ==> s.IsGossipable(id, n);
      }
    }
  }

  lemma AddIPDeparts(s: State, ip: ClaimedIP, reset: ResetOutcome)
    requires Coherent(s) && ListsConnectionIPs(s)
    ensures ListsConnectionIPs(s.AddIP(ip, reset)) <==> !Departs(s, Event.AddIP(ip, reset))
  {
    if s.IsNews(ip) && ip.nodeID in s.connected {
      RelistDeparts(s, s.AddIP(ip, reset), ip);
    }
  }

  lemma ConnectedDeparts(s: State, ip: ClaimedIP, subnets: set<SubnetID>, reset: ResetOutcome)
    requires Coherent(s) && ListsConnectionIPs(s) && ip.nodeID !in s.connected
    ensures ListsConnectionIPs(s.Connected(ip, subnets, reset)) <==> !Departs(s, Event.Connected(ip, subnets, reset))
  {
    var n, t := ip.nodeID, s.Connected(ip, subnets, reset);
    if n in s.tracked {
      RelistDeparts(s, t, t.tracked[n].ip.value);
    } else {
      forall id | id in t.subnet
        ensures ListsConnectionIP(t.subnet[id], t.connected)
      {
        assert ListsConnectionIP(s.subnet[id], s.connected);
      }
    }
  }

  /** Joining a subnet lists the tracked IP, which must be the connection IP. */
  lemma JoinedDeparts(s: State, t: State, id: SubnetID, n: NodeID)
    requires Coherent(s) && ListsConnectionIPs(s) && Joined(s, t, id, n)
    ensures ListsConnectionIPs(t) <==> !JoinsWithNewerIP(s, id, n)
  {
    if id in s.subnet {
      assert ListsConnectionIP(s.subnet[id], s.connected) && ListsExactly(id, s.subnet[id], s.connected);
      assert ListsLatest(s.subnet[id], s.tracked);
    }
    if JoinsWithNewerIP(s, id, n) {
      assert !ListsConnectionIP(t.subnet[id], t.connected);
    } else {
      forall i | i in t.subnet
        ensures ListsConnectionIP(t.subnet[i], t.connected)
      {
        assert i != id ==> ListsConnectionIP(s.subnet[i], s.connected);
      }
    }
  }

  lemma AddedDeparts(s: State, id: SubnetID, n: NodeID, reset: ResetOutcome)
    requires Coherent(s) && ListsConnectionIPs(s)
    ensures ListsConnectionIPs(s.OnValidatorAdded(id, n, reset)) <==> !JoinsWithNewerIP(s, id, n)
  {
    JoinEffect(s, id, n, false, reset);
    JoinedDeparts(s, s.OnValidatorAdded(id, n, reset), id, n);
  }

  lemma ManuallyGossipDeparts(s: State, id: SubnetID, n: NodeID, reset: ResetOutcome)
    requires Coherent(s) && ListsConnectionIPs(s)
    ensures ListsConnectionIPs(s.ManuallyGossip(id, n, reset)) <==> !JoinsWithNewerIP(s, id, n)
  {
    ManuallyTrackCoherent(s, n, reset);
    var t := if s.IsLocal(id) then s.ManuallyTrack(n, reset) else s;
    assert ListsConnectionIPs(t) && (JoinsWithNewerIP(t, id, n) <==> JoinsWithNewerIP(s, id, n));
    JoinEffect(t, id, n, true, reset);
    JoinedDeparts(t, s.ManuallyGossip(id, n, reset), id, n);
  }

  lemma DisconnectedStays(s: State, n: NodeID)
    requires ListsMembers(s.connected, s.subnet) && ListsConnectionIPs(s)
    ensures ListsConnectionIPs(s.Disconnected(n))
  {
    var t := s.Disconnected(n);
    forall id | id in t.subnet
      ensures ListsConnectionIP(t.subnet[id], t.connected)
    {
      assert ListsConnectionIP(s.subnet[id], s.connected) && ListsExactly(id, s.subnet[id], s.connected);
    }
  }

  lemma RemovalStays(s: State, id: SubnetID, n: NodeID)
    requires ListsConnectionIPs(s)
    ensures ListsConnectionIPs(s.OnValidatorRemoved(id, n))
  {
    var t := s.OnValidatorRemoved(id, n);
    forall i | i in t.subnet
      ensures ListsConnectionIP(t.subnet[i], t.connected)
    {
      assert ListsConnectionIP(s.subnet[i], s.connected);
    }
  }

  /** While the documented condition holds, a legal call keeps it if and only if it does not depart from it. */
  lemma StepDeparts(s: State, e: Event)
    requires Coherent(s) && ListsConnectionIPs(s) && Legal(s, e)
    ensures ListsConnectionIPs(Step(s, e)) <==> !Departs(s, e)
  {
    match e
    case AddIP(ip, reset) => AddIPDeparts(s, ip, reset);
    case Connected(ip, subnets, reset) => ConnectedDeparts(s, ip, subnets, reset);
    case OnValidatorAdded(id, n, reset) => AddedDeparts(s, id, n, reset);
    case ManuallyGossip(id, n, reset) => ManuallyGossipDeparts(s, id, n, reset);
    case Disconnected(n) => DisconnectedStays(s, n);
    case OnValidatorRemoved(id, n) => RemovalStays(s, id, n);
    case ManuallyTrack(_, _) =>
    case ResetBloom(_) =>
  }

  // ---------- Every run ----------

  /** The documented condition holds after every prefix of the run. */
  ghost predicate AlwaysListsConnectionIPs(s: State, es: seq<Event>) {
    ListsConnectionIPs(Run(s, es)) && (es != [] ==> AlwaysListsConnectionIPs(s, es[..|es| - 1]))
  }

  /** No call of the run departs from the condition in the state it finds. */
  ghost predicate NeverDeparts(s: State, es: seq<Event>) {
    es != [] ==> !Departs(Run(s, es[..|es| - 1]), es[|es| - 1]) && NeverDeparts(s, es[..|es| - 1])
  }

  /** The documented condition holds throughout a run if and only if no call of the run departs from it. */
  lemma {:induction false} RunDeparts(s: State, es: seq<Event>)
    requires Coherent(s) && ListsConnectionIPs(s) && LegalRun(s, es)
    ensures AlwaysListsConnectionIPs(s, es) <==> NeverDeparts(s, es)
  {
    if es != [] {
      var n := |es| - 1;
      PrefixRun(s, es, n);
      RunDeparts(s, es[..n]);
      RunCoherent(s, es[..n]);
      if AlwaysListsConnectionIPs(s, es[..n]) {
        assert ListsConnectionIPs(Run(s, es[..n]));
        StepDeparts(Run(s, es[..n]), es[n]);
      }
    }
  }

  const FIRST_IP := ClaimedIP(1, 10, 100, 1000)
  const SECOND_IP := ClaimedIP(1, 20, 200, 2000)

  lemma ConnectsWithFirstIP(reset: ResetOutcome)
    ensures var s := NewTracker({}, 128).OnValidatorAdded(PRIMARY_NETWORK_ID, 1, reset)
                                        .Connected(FIRST_IP, {PRIMARY_NETWORK_ID}, reset);
            && PRIMARY_NETWORK_ID in s.subnet && 1 in s.subnet[PRIMARY_NETWORK_ID].gossipableIDs
            && s.subnet[PRIMARY_NETWORK_ID].listed == map[1 := FIRST_IP]
            && s.connected == map[1 := ConnectedNode({PRIMARY_NETWORK_ID}, FIRST_IP)]
            && 1 in s.tracked && s.tracked[1].ip == Some(FIRST_IP)
  {
  }

  /** The condition fails: a validator connects with one IP, a newer one is learnt, and that one is gossiped. */
  lemma NewerIPIsGossiped(reset: ResetOutcome)
    ensures var s := NewTracker({}, 128).OnValidatorAdded(PRIMARY_NETWORK_ID, 1, reset)
                                        .Connected(FIRST_IP, {PRIMARY_NETWORK_ID}, reset).AddIP(SECOND_IP, reset);
            && PRIMARY_NETWORK_ID in s.subnet && s.subnet[PRIMARY_NETWORK_ID].listed == map[1 := SECOND_IP]
            && 1 in s.connected && s.connected[1].ip == FIRST_IP
            && !ListsConnectionIPs(s)
  {
    ConnectsWithFirstIP(reset);
    var before := NewTracker({}, 128).OnValidatorAdded(PRIMARY_NETWORK_ID, 1, reset)
                                     .Connected(FIRST_IP, {PRIMARY_NETWORK_ID}, reset);
    LearnsSecondIP(before, reset);
  }

  lemma LearnsSecondIP(before: State, reset: ResetOutcome)
    requires PRIMARY_NETWORK_ID in before.subnet && 1 in before.subnet[PRIMARY_NETWORK_ID].gossipableIDs
    requires before.subnet[PRIMARY_NETWORK_ID].listed == map[1 := FIRST_IP]
    requires before.connected == map[1 := ConnectedNode({PRIMARY_NETWORK_ID}, FIRST_IP)]
    requires 1 in before.tracked && before.tracked[1].ip == Some(FIRST_IP)
    ensures var s := before.AddIP(SECOND_IP, reset);
            && PRIMARY_NETWORK_ID in s.subnet && s.subnet[PRIMARY_NETWORK_ID].listed == map[1 := SECOND_IP]
            && s.connected == before.connected && !ListsConnectionIPs(s)
  {
    var s := before.AddIP(SECOND_IP, reset);
    assert !ListsConnectionIP(s.subnet[PRIMARY_NETWORK_ID], s.connected);
  }
}
