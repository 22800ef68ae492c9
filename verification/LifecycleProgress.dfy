/** What the lifecycle brings about: wanted nodes are dialed at their latest IP, no peer is ever stuck, and the gossip lists
    follow what the peers said. */
module LifecycleProgress {
  import opened Ids
  import opened TrackerState
  import opened TrackerInvariants
  import opened TrackerEffects
  import opened NetworkState
  import opened NetworkEffects
  import opened Lifecycle
  import opened LifecycleInvariants

  /** The node's current entry dials this address, with a loop that has just started. */
  ghost predicate Dials(net: Net, n: NodeID, addr: int) {
    && n in net.trackedIPs && net.trackedIPs[n] < |net.created|
    && net.created[net.trackedIPs[n]].addr == addr && net.created[net.trackedIPs[n]].nodeID == n
    && net.created[net.trackedIPs[n]].dialing && !net.created[net.trackedIPs[n]].stopped
  }

  ghost predicate IsWanted(s: System, n: NodeID) {
    n in s.tracker.tracked && (s.tracker.tracked[n].manuallyTracked || s.tracker.tracked[n].trackedSubnets != {})
  }

  /** News about a wanted node that is not connected is dialed; other news leaves the network alone. */
  lemma NewsIsDialed(s: System, ip: ClaimedIP, reset: ResetOutcome)
    requires s.Valid()
    ensures var t, n := Next(s, TrackStep(ip, reset)), ip.nodeID;
            var isNews := n in s.tracker.tracked && LatestOf(LatestIP(s.tracker, n), ip) != LatestIP(s.tracker, n);
            if isNews && IsWanted(s, n) && n !in s.net.connected then Dials(t.net, n, ip.addr) else t.net == s.net
    ensures LatestIP(Next(s, TrackStep(ip, reset)).tracker, ip.nodeID) ==
            if ip.nodeID in s.tracker.tracked then LatestOf(LatestIP(s.tracker, ip.nodeID), ip) else None
  {
    TrackEffect(s.net, ip.nodeID, ip.addr);
    LearnNodes(s.tracker, ip, ip.nodeID);
  }

  /** A connected peer that left is dialed again, at the latest IP of its node, exactly if the node is wanted and an
      IP of it is known. */
  lemma LeavingRedials(s: System, i: nat)
    requires Inv(s) && s.Valid() && Enabled(s, LeaveConnectedStep(i))
    ensures var t, n := Next(s, LeaveConnectedStep(i)), s.peers[i].nodeID;
            && n !in t.net.connected
            && if IsWanted(s, n) && LatestIP(s.tracker, n).Some? then Dials(t.net, n, LatestIP(s.tracker, n).value.addr)
               else n !in t.net.trackedIPs
  {
    var n := s.peers[i].nodeID;
    PeerFacts(s, i);
    DisconnectedFromConnectedEffect(s.net, n, WantedIP(s.tracker, n));
  }

  /** A peer that left during the handshake is dialed again exactly if it was being dialed and is still wanted. */
  lemma LeavingHandshakeRedials(s: System, i: nat)
    requires Inv(s) && s.Valid() && Enabled(s, LeaveConnectingStep(i))
    ensures var t, n := Next(s, LeaveConnectingStep(i)), s.peers[i].nodeID;
            && n !in t.net.connecting
            && if IsWanted(s, n) && n in s.net.trackedIPs then Dials(t.net, n, s.net.created[s.net.trackedIPs[n]].addr)
               else n !in t.net.trackedIPs
  {
    var n := s.peers[i].nodeID;
    DisconnectedFromConnectingEffect(s.net, n, s.tracker.WantsConnection(n));
  }

  /** A dial loop goes on exactly while its node is wanted and neither connecting nor connected. */
  lemma DialLoopGoesOn(s: System, t: nat, delay: int)
    requires s.Valid() && Enabled(s, DialCheckStep(t, delay))
    ensures var after, n := Next(s, DialCheckStep(t, delay)), s.net.created[t].nodeID;
            && |after.net.created| == |s.net.created|
            && (after.net.created[t].dialing <==> IsWanted(s, n) && n !in s.net.connecting && n !in s.net.connected)
            && (n in after.net.trackedIPs <==> n in s.net.trackedIPs && IsWanted(s, n))
  {
    DialCheckEffect(s.net, t, s.tracker.WantsConnection(s.net.created[t].nodeID), delay);
  }

  /** Tracking a node manually dials it, unless it is connected or being dialed already. */
  lemma ManualTrackingDials(s: System, n: NodeID, addr: int)
    requires s.Valid()
    ensures var t := Next(s, ManuallyTrackStep(n, addr));
            if n in s.net.connected || n in s.net.trackedIPs then t == s else Dials(t.net, n, addr)
  {
    ManuallyTrackEffect(s.net, n, addr);
  }

  // ---------- No peer is stuck ----------

  ghost predicate ActsFor(step: Step, i: nat) {
    match step
    case ConnectedStep(j) => j == i
    case TellTrackerStep(j, _) => j == i
    case TellRouterStep(j) => j == i
    case TellRouterSubnetStep(j, _) => j == i
    case DisconnectedStep(j) => j == i
    case LeaveConnectingStep(j) => j == i
    case LeaveTrackerStep(j) => j == i
    case LeaveRouterStep(j) => j == i
    case LeaveConnectedStep(j) => j == i
    case _ => false
  }

  /** How far a peer is from its end. */
  ghost function Stage(phase: Phase): nat {
    match phase
    case Handshaking => 8
    case ToldNobody => 7
    case ToldTracker => 6
    case ToldRouter(_) => 5
    case Leaving(connecting, _) => if connecting then 4 else 3
    case LeftTracker => 2
    case LeftRouter => 1
    case Closed => 0
  }

  ghost function Remaining(phase: Phase): set<SubnetID> {
    match phase
    case ToldRouter(remaining) => remaining
    case _ => {}
  }

  ghost predicate Closer(phase: Phase, phase': Phase) {
    Stage(phase') < Stage(phase) || (Stage(phase') == Stage(phase) && Remaining(phase') < Remaining(phase))
  }

  /** A live peer can always take its next step, whatever the others did, and it comes closer to its end. */
  lemma PeerNeverStuck(s: System, i: nat) returns (step: Step)
    requires Inv(s) && s.Valid() && i < |s.phases| && s.phases[i] != Closed
    ensures Enabled(s, step) && ActsFor(step, i)
    ensures |Next(s, step).phases| == |s.phases| && Closer(s.phases[i], Next(s, step).phases[i])
  {
    PeerFacts(s, i);
    match s.phases[i]
    case Handshaking => step := ConnectedStep(i);
    case ToldNobody => step := TellTrackerStep(i, ResetFails);
    case ToldTracker => step := TellRouterStep(i);
    case ToldRouter(remaining) =>
      if remaining == {} {
        step := DisconnectedStep(i);
      } else {
        var id := Member(remaining);
        assert remaining - {id} < remaining;
        step := TellRouterSubnetStep(i, id);
      }
    case Leaving(connecting, _) => step := if connecting then LeaveConnectingStep(i) else LeaveTrackerStep(i);
    case LeftTracker => step := LeaveRouterStep(i);
    case LeftRouter => step := LeaveConnectedStep(i);
  }

  /** During the handshake a peer may also end at once. */
  lemma HandshakeMayFail(s: System, i: nat)
    requires Inv(s) && s.Valid() && i < |s.phases| && s.phases[i] == Handshaking
    ensures Enabled(s, DisconnectedStep(i)) && Next(s, DisconnectedStep(i)).phases[i] == Leaving(true, false)
  {
    PeerFacts(s, i);
  }

  /** Some steps of one peer lead from the first state to the last. */
  ghost predicate IsPath(states: seq<System>, steps: seq<Step>, i: nat) {
    && |states| == |steps| + 1
    && forall k | 0 <= k < |steps| ::
         states[k].Valid() && Enabled(states[k], steps[k]) && ActsFor(steps[k], i) && states[k + 1] == Next(states[k], steps[k])
  }

  /** From every state that a run leads to, each peer can run to its end by its own steps alone. */
  lemma {:induction false} PeerCanFinish(s: System, i: nat) returns (states: seq<System>, steps: seq<Step>)
    requires Inv(s) && i < |s.phases|
    ensures IsPath(states, steps, i) && states[0] == s
    ensures i < |states[|steps|].phases| && states[|steps|].phases[i] == Closed
    decreases Stage(s.phases[i]), Remaining(s.phases[i])
  {
    if s.phases[i] == Closed {
      return [s], [];
    }
    var step := PeerNeverStuck(s, i);
    StepKeepsInv(s, step);
    var rest, more := PeerCanFinish(Next(s, step), i);
    states, steps := [s] + rest, [step] + more;
    PathGrows(s, step, rest, more, i);
  }

  lemma PathGrows(s: System, step: Step, states: seq<System>, steps: seq<Step>, i: nat)
    requires s.Valid() && Enabled(s, step) && ActsFor(step, i) && IsPath(states, steps, i) && states[0] == Next(s, step)
    ensures IsPath([s] + states, [step] + steps, i)
  {
    var more, all := [step] + steps, [s] + states;
    forall k | 0 <= k < |more|
      ensures all[k].Valid() && Enabled(all[k], more[k]) && ActsFor(more[k], i) && all[k + 1] == Next(all[k], more[k])
    {
      if k > 0 {
        assert all[k] == states[k - 1] && more[k] == steps[k - 1] && all[k + 1] == states[k];
      }
    }
  }

  // ---------- What the tracker learns of the peers ----------

  /** A peer starts with what it said in the handshake, exactly if the network is open and the node unknown. */
  lemma UpgradeStarts(s: System, n: NodeID, ip: ClaimedIP, trackedSubnets: set<SubnetID>)
    requires s.Valid() && Enabled(s, UpgradeStep(n, ip, trackedSubnets))
    ensures var t := Next(s, UpgradeStep(n, ip, trackedSubnets));
            if s.net.closing || n in s.net.connecting || n in s.net.connected then t == s
            else
              && |t.peers| == |s.peers| + 1 == |t.phases| && t.peers[..|s.peers|] == s.peers && t.phases[..|s.peers|] == s.phases
              && t.phases[|s.peers|] == Handshaking && n in t.net.connecting && t.net.connecting[n] == t.peers[|s.peers|]
              && var p := t.peers[|s.peers|]; p.nodeID == n && p.ip == ip && p.trackedSubnets == trackedSubnets
  {
  }

  /** The tracker knows a connected node as its peer presented itself. */
  ghost predicate KnownAsPresented(s: System) {
    forall n | n in s.tracker.connected ::
      && n in s.net.connected
      && s.tracker.connected[n].trackedSubnets == s.net.connected[n].trackedSubnets
      && s.tracker.connected[n].ip == s.net.connected[n].ip
  }

  /** Only four kinds of steps change whom the network or the tracker counts as connected. */
  lemma OtherStepsKeepConnected(s: System, step: Step)
    requires s.Valid() && Enabled(s, step)
    requires !step.ConnectedStep? && !step.TellTrackerStep? && !step.LeaveTrackerStep? && !step.LeaveConnectedStep?
    ensures Next(s, step).net.connected == s.net.connected && Next(s, step).tracker.connected == s.tracker.connected
  {
    match step
    case TrackerStep(e) => OthersKeepConnected(s.tracker, e);
    case _ =>
  }

  lemma ConnectedKeepsKnown(s: System, i: nat)
    requires Inv(s) && s.Valid() && KnownAsPresented(s) && Enabled(s, ConnectedStep(i))
    ensures KnownAsPresented(s.Connected(i))
  {
    PeerFacts(s, i);
    ConnectedEffect(s.net, s.peers[i].nodeID);
  }

  lemma TellTrackerKeepsKnown(s: System, i: nat, reset: ResetOutcome)
    requires Inv(s) && s.Valid() && KnownAsPresented(s) && Enabled(s, TellTrackerStep(i, reset))
    ensures KnownAsPresented(s.TellTracker(i, reset))
  {
    PeerFacts(s, i);
  }

  lemma LeaveConnectedKeepsKnown(s: System, i: nat)
    requires Inv(s) && s.Valid() && KnownAsPresented(s) && Enabled(s, LeaveConnectedStep(i))
    ensures KnownAsPresented(s.LeaveConnected(i))
  {
    PeerFacts(s, i);
    DisconnectedFromConnectedEffect(s.net, s.peers[i].nodeID, WantedIP(s.tracker, s.peers[i].nodeID));
  }

  lemma StepKeepsKnown(s: System, step: Step)
    requires Inv(s) && s.Valid() && KnownAsPresented(s) && Enabled(s, step)
    ensures KnownAsPresented(Next(s, step))
  {
    match step
    case ConnectedStep(i) => ConnectedKeepsKnown(s, i);
    case TellTrackerStep(i, reset) => TellTrackerKeepsKnown(s, i, reset);
    case LeaveConnectedStep(i) => LeaveConnectedKeepsKnown(s, i);
    case LeaveTrackerStep(_) =>
    case _ => OtherStepsKeepConnected(s, step);
  }

  lemma {:induction false} RunKeepsKnown(states: seq<System>, steps: seq<Step>, k: nat)
    requires IsRun(states, steps) && k < |states|
    ensures KnownAsPresented(states[k])
  {
    if k > 0 {
      RunKeepsKnown(states, steps, k - 1);
      RunKeepsInv(states, steps, k - 1);
      StepKeepsKnown(states[k - 1], steps[k - 1]);
    }
  }

  /** In every interleaving, at every moment: a node is listed on a subnet exactly if it is gossipable there and its
      connected peer, which has told the tracker so, said that it tracks the subnet. */
  lemma ListsFollowPeers(states: seq<System>, steps: seq<Step>, k: nat, id: SubnetID, n: NodeID)
    requires IsRun(states, steps) && k < |states|
    ensures var s := states[k];
            (id in s.tracker.subnet && n in s.tracker.subnet[id].listed) <==>
            && s.tracker.IsGossipable(id, n)
            && n in s.net.connected && id in s.net.connected[n].trackedSubnets
            && s.net.connected[n].instance < |s.phases| && KnownToTracker(s.phases[s.net.connected[n].instance])
  {
    var s := states[k];
    RunKeepsInv(states, steps, k);
    RunKeepsKnown(states, steps, k);
    CoherentGossipExact(s.tracker);
    if n in s.net.connected {
      assert KnownOk(n, s.net.connected[n], s.phases, s.tracker.connected);
    }
  }
}
