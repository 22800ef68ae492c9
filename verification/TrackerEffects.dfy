/**
 What each call to the tracker changes, told by a few observations instead of by the maps: who is gossipable
 where, who was put there or is tracked manually, each node's latest IP, and who is connected.  In a coherent
 tracker these observations determine everything else, and over a run they are functions of the history.
 */
module TrackerEffects {
  import opened Ids
  import opened TrackerState
  import opened TrackerInvariants

  // ---------- Observations ----------

  ghost predicate ManuallyTracked(s: State, m: NodeID) {
    m in s.tracked && s.tracked[m].manuallyTracked
  }

  ghost predicate ManuallyOn(s: State, i: SubnetID, m: NodeID) {
    i in s.subnet && m in s.subnet[i].manuallyGossipable
  }

  ghost function LatestIP(s: State, m: NodeID): Option<ClaimedIP> {
    if m in s.tracked then s.tracked[m].ip else None
  }

  ghost predicate GossipableSomewhere(s: State, m: NodeID) {
    exists i :: s.IsGossipable(i, m)
  }

  ghost predicate SameNode(s: State, t: State, m: NodeID) {
    (ManuallyTracked(s, m) <==> ManuallyTracked(t, m)) && LatestIP(s, m) == LatestIP(t, m)
  }

  ghost predicate SamePlace(s: State, t: State, i: SubnetID, m: NodeID) {
    (s.IsGossipable(i, m) <==> t.IsGossipable(i, m)) && (ManuallyOn(s, i, m) <==> ManuallyOn(t, i, m))
  }

  ghost predicate SamePlaces(s: State, t: State) {
    forall i, m :: SamePlace(s, t, i, m)
  }

  ghost predicate SameNodes(s: State, t: State) {
    forall m :: SameNode(s, t, m)
  }

  /** A coherent tracker tracks exactly the nodes that are tracked manually or gossipable somewhere. */
  lemma TrackedExactly(s: State, m: NodeID)
    requires Coherent(s)
    ensures m in s.tracked <==> ManuallyTracked(s, m) || GossipableSomewhere(s, m)
  {
    if m in s.tracked && !s.tracked[m].manuallyTracked {
      assert ValidatesAsMember(m, s.tracked[m], s.subnet) && s.tracked[m].validatedSubnets != {};
      var i := Member(s.tracked[m].validatedSubnets);
      assert s.IsGossipable(i, m);
    }
    if GossipableSomewhere(s, m) {
      var i :| s.IsGossipable(i, m);
      assert MembersTracked(i, s.subnet[i], s.tracked);
    }
  }

  /** It knows exactly the subnets on which somebody is gossipable. */
  lemma KnownExactly(s: State, i: SubnetID)
    requires Coherent(s)
    ensures i in s.subnet <==> exists m :: s.IsGossipable(i, m)
  {
    if i in s.subnet {
      var m := Member(s.subnet[i].gossipableIDs);
      assert s.IsGossipable(i, m);
    }
  }

  // ---------- The observations determine the tracker ----------

  lemma NodeDetermined(s: State, t: State, m: NodeID)
    requires Coherent(s) && Coherent(t) && s.localSubnets == t.localSubnets
    requires SamePlaces(s, t)
    requires SameNode(s, t, m)
    ensures m in s.tracked <==> m in t.tracked
    ensures m in s.tracked ==> s.tracked[m] == t.tracked[m]
  {
    TrackedExactly(s, m);
    TrackedExactly(t, m);
    if GossipableSomewhere(s, m) {
      var i :| s.IsGossipable(i, m);
      assert SamePlace(s, t, i, m);
    }
    if GossipableSomewhere(t, m) {
      var i :| t.IsGossipable(i, m);
      assert SamePlace(s, t, i, m);
    }
    if m in s.tracked {
      forall i
        ensures i in s.tracked[m].validatedSubnets <==> i in t.tracked[m].validatedSubnets
      {
        ValidatedExactly(s, i, m);
        ValidatedExactly(t, i, m);
        assert SamePlace(s, t, i, m);
      }
      assert s.tracked[m].validatedSubnets == t.tracked[m].validatedSubnets;
    }
  }

  lemma ValidatedExactly(s: State, i: SubnetID, m: NodeID)
    requires Coherent(s) && m in s.tracked
    ensures i in s.tracked[m].validatedSubnets <==> s.IsGossipable(i, m)
  {
    assert ValidatesAsMember(m, s.tracked[m], s.subnet);
    assert i in s.subnet ==> MembersTracked(i, s.subnet[i], s.tracked);
  }

  lemma MembersDetermined(s: State, t: State, i: SubnetID)
    requires Coherent(s) && Coherent(t)
    requires SamePlaces(s, t)
    ensures i in s.subnet <==> i in t.subnet
    ensures i in s.subnet ==> s.subnet[i].gossipableIDs == t.subnet[i].gossipableIDs
    ensures i in s.subnet ==> s.subnet[i].manuallyGossipable == t.subnet[i].manuallyGossipable
  {
    KnownExactly(s, i);
    KnownExactly(t, i);
    if i in s.subnet {
      var m :| s.IsGossipable(i, m);
      assert SamePlace(s, t, i, m);
    }
    if i in t.subnet {
      var m :| t.IsGossipable(i, m);
      assert SamePlace(s, t, i, m);
    }
    if i in s.subnet {
      var a, b := s.subnet[i], t.subnet[i];
      forall n
        ensures n in a.gossipableIDs <==> n in b.gossipableIDs
        ensures n in a.manuallyGossipable <==> n in b.manuallyGossipable
      {
        assert SamePlace(s, t, i, n);
      }
    }
  }

  lemma ListDetermined(s: State, t: State, i: SubnetID)
    requires Coherent(s) && Coherent(t) && s.connected == t.connected && s.tracked == t.tracked
    requires i in s.subnet && i in t.subnet && s.subnet[i].gossipableIDs == t.subnet[i].gossipableIDs
    ensures s.subnet[i].listed == t.subnet[i].listed
  {
    assert ListsExactly(i, s.subnet[i], s.connected) && ListsExactly(i, t.subnet[i], t.connected);
    assert ListsLatest(s.subnet[i], s.tracked) && ListsLatest(t.subnet[i], t.tracked);
    var a, b := s.subnet[i].listed, t.subnet[i].listed;
    assert forall n :: n in a <==> n in b;
    assert forall n | n in a :: a[n] == b[n];
  }

  /** Two coherent trackers with the same observations are the same. */
  lemma CoherentDetermined(s: State, t: State)
    requires Coherent(s) && Coherent(t)
    requires s.localSubnets == t.localSubnets && s.connected == t.connected && s.bloom == t.bloom
    requires SamePlaces(s, t)
    requires SameNodes(s, t)
    ensures s == t
  {
    forall m
      ensures m in s.tracked <==> m in t.tracked
      ensures m in s.tracked ==> s.tracked[m] == t.tracked[m]
    {
      assert SameNode(s, t, m);
      NodeDetermined(s, t, m);
    }
    assert s.tracked == t.tracked;
    forall i
      ensures i in s.subnet <==> i in t.subnet
      ensures i in s.subnet ==> s.subnet[i] == t.subnet[i]
    {
      MembersDetermined(s, t, i);
      if i in s.subnet {
        ListDetermined(s, t, i);
      }
    }
    assert s.subnet == t.subnet;
  }

  // ---------- The effect of a call ----------

  ghost predicate GossipableAfter(s: State, e: Event, i: SubnetID, m: NodeID) {
    match e
    case OnValidatorAdded(id, n, _) => s.IsGossipable(i, m) || (i == id && m == n)
    case ManuallyGossip(id, n, _) => s.IsGossipable(i, m) || (i == id && m == n)
    case OnValidatorRemoved(id, n) => s.IsGossipable(i, m) && (i == id && m == n ==> ManuallyOn(s, i, m))
    case _ => s.IsGossipable(i, m)
  }

  ghost predicate ManuallyOnAfter(s: State, e: Event, i: SubnetID, m: NodeID) {
    ManuallyOn(s, i, m) || (e.ManuallyGossip? && e.s == i && e.n == m)
  }

  ghost predicate ManuallyTrackedAfter(s: State, e: Event, m: NodeID) {
    || ManuallyTracked(s, m)
    || (e.ManuallyTrack? && e.n == m)
    || (e.ManuallyGossip? && e.n == m && (e.s == PRIMARY_NETWORK_ID || e.s in s.localSubnets))
  }

  ghost function LatestOf(known: Option<ClaimedIP>, ip: ClaimedIP): Option<ClaimedIP> {
    if known.None? || known.value.timestamp < ip.timestamp then Some(ip) else known
  }

  /** A node that becomes tracked brings the IP it is connected with. */
  ghost function IPOnceTracked(s: State, m: NodeID): Option<ClaimedIP> {
    if m !in s.tracked && m in s.connected then Some(s.connected[m].ip) else LatestIP(s, m)
  }

  ghost function LatestIPAfter(s: State, e: Event, m: NodeID): Option<ClaimedIP> {
    match e
    case AddIP(ip, _) => if m == ip.nodeID && m in s.tracked then LatestOf(LatestIP(s, m), ip) else LatestIP(s, m)
    case Connected(ip, _, _) => if m == ip.nodeID && m in s.tracked then LatestOf(LatestIP(s, m), ip) else LatestIP(s, m)
    case ManuallyTrack(n, _) => if m == n then IPOnceTracked(s, m) else LatestIP(s, m)
    case ManuallyGossip(_, n, _) => if m == n then IPOnceTracked(s, m) else LatestIP(s, m)
    case OnValidatorAdded(_, n, _) => if m == n then IPOnceTracked(s, m) else LatestIP(s, m)
    case OnValidatorRemoved(_, _) =>
      if ManuallyTracked(s, m) || exists i :: GossipableAfter(s, e, i, m) then LatestIP(s, m) else None
    case _ => LatestIP(s, m)
  }

  ghost function ConnectedAfter(s: State, e: Event): ConnectedMap {
    match e
    case Connected(ip, subnets, _) => s.connected[ip.nodeID := ConnectedNode(subnets, ip)]
    case Disconnected(n) => s.connected - {n}
    case _ => s.connected
  }

  /** What is observed of a node after the call. */
  ghost predicate NodeAfter(s: State, e: Event, t: State, m: NodeID) {
    (ManuallyTracked(t, m) <==> ManuallyTrackedAfter(s, e, m)) && LatestIP(t, m) == LatestIPAfter(s, e, m)
  }

  /** What is observed of a node on a subnet after the call. */
  ghost predicate PlaceAfter(s: State, e: Event, t: State, i: SubnetID, m: NodeID) {
    (t.IsGossipable(i, m) <==> GossipableAfter(s, e, i, m)) && (ManuallyOn(t, i, m) <==> ManuallyOnAfter(s, e, i, m))
  }

  lemma RemovalPlaces(s: State, id: SubnetID, n: NodeID, i: SubnetID, m: NodeID)
    requires Coherent(s)
    ensures PlaceAfter(s, Event.OnValidatorRemoved(id, n), s.OnValidatorRemoved(id, n), i, m)
  {
    if id in s.subnet && n !in s.subnet[id].manuallyGossipable && i == id {
      assert s.subnet[id].manuallyGossipable <= s.subnet[id].gossipableIDs;
      var rest := s.subnet[id].gossipableIDs - {n};
      assert m in s.subnet[id].manuallyGossipable ==> m in rest;
    }
  }

  lemma RemovalNodes(s: State, id: SubnetID, n: NodeID, m: NodeID)
    requires Coherent(s)
    ensures NodeAfter(s, Event.OnValidatorRemoved(id, n), s.OnValidatorRemoved(id, n), m)
  {
    var e, t := Event.OnValidatorRemoved(id, n), s.OnValidatorRemoved(id, n);
    OnValidatorRemovedCoherent(s, id, n);
    TrackedExactly(t, m);
    assert GossipableSomewhere(t, m) <==> exists i :: GossipableAfter(s, e, i, m) by {
      forall i
        ensures t.IsGossipable(i, m) <==> GossipableAfter(s, e, i, m)
      {
        RemovalPlaces(s, id, n, i, m);
      }
    }
  }

  lemma JoinPlaces(s: State, id: SubnetID, n: NodeID, manually: bool, reset: ResetOutcome, i: SubnetID, m: NodeID)
    requires Coherent(s)
    ensures var t := s.AddTrackableID(n, Some(id), reset).AddGossipableID(n, id, manually);
            && (t.IsGossipable(i, m) <==> s.IsGossipable(i, m) || (i == id && m == n))
            && (ManuallyOn(t, i, m) <==> ManuallyOn(s, i, m) || (manually && i == id && m == n))
  {
  }

  lemma StepPlaces(s: State, e: Event, i: SubnetID, m: NodeID)
    requires Coherent(s)
    ensures PlaceAfter(s, e, Step(s, e), i, m)
  {
    match e
    case OnValidatorAdded(id, n, reset) => JoinPlaces(s, id, n, false, reset, i, m);
    case ManuallyGossip(id, n, reset) =>
      ManuallyTrackCoherent(s, n, reset);
      JoinPlaces(if s.IsLocal(id) then s.ManuallyTrack(n, reset) else s, id, n, true, reset, i, m);
    case OnValidatorRemoved(id, n) => RemovalPlaces(s, id, n, i, m);
    case AddIP(_, _) =>
    case Connected(_, _, _) =>
    case Disconnected(_) =>
    case ManuallyTrack(_, _) =>
    case ResetBloom(_) =>
  }

  lemma JoinNodes(s: State, id: SubnetID, n: NodeID, manually: bool, reset: ResetOutcome, m: NodeID)
    ensures var t := s.AddTrackableID(n, Some(id), reset).AddGossipableID(n, id, manually);
            && (ManuallyTracked(t, m) <==> ManuallyTracked(s, m))
            && LatestIP(t, m) == if m == n then IPOnceTracked(s, m) else LatestIP(s, m)
  {
  }

  lemma ManuallyGossipNodes(s: State, id: SubnetID, n: NodeID, reset: ResetOutcome, m: NodeID)
    ensures NodeAfter(s, Event.ManuallyGossip(id, n, reset), s.ManuallyGossip(id, n, reset), m)
  {
    JoinNodes(if s.IsLocal(id) then s.ManuallyTrack(n, reset) else s, id, n, true, reset, m);
  }

  lemma LearnNodes(s: State, ip: ClaimedIP, m: NodeID)
    ensures var tracked := s.TrackedAfter(ip);
            && (m in tracked <==> m in s.tracked)
            && (m in tracked ==>
                  && tracked[m].manuallyTracked == s.tracked[m].manuallyTracked
                  && tracked[m].ip == if m == ip.nodeID then LatestOf(s.tracked[m].ip, ip) else s.tracked[m].ip)
  {
  }

  lemma StepNodes(s: State, e: Event, m: NodeID)
    requires Coherent(s)
    ensures NodeAfter(s, e, Step(s, e), m)
  {
    match e
    case OnValidatorRemoved(id, n) => RemovalNodes(s, id, n, m);
    case ManuallyGossip(id, n, reset) => ManuallyGossipNodes(s, id, n, reset, m);
    case OnValidatorAdded(id, n, reset) => JoinNodes(s, id, n, false, reset, m);
    case AddIP(ip, _) => LearnNodes(s, ip, m);
    case Connected(ip, _, _) => LearnNodes(s, ip, m);
    case Disconnected(_) =>
    case ManuallyTrack(_, _) =>
    case ResetBloom(_) =>
  }

  lemma StepConnections(s: State, e: Event)
    ensures Step(s, e).connected == ConnectedAfter(s, e) && Step(s, e).localSubnets == s.localSubnets
  {
    match e
    case Disconnected(n) =>
      if n !in s.connected {
        assert s.connected - {n} == s.connected;
      }
    case _ =>
  }

  ghost predicate PlacesAfter(s: State, e: Event, t: State) {
    forall i, m :: PlaceAfter(s, e, t, i, m)
  }

  ghost predicate NodesAfter(s: State, e: Event, t: State) {
    forall m :: NodeAfter(s, e, t, m)
  }

  /** The observations after a call. */
  ghost predicate Effect(s: State, e: Event, t: State) {
    && t.localSubnets == s.localSubnets && t.connected == ConnectedAfter(s, e)
    && PlacesAfter(s, e, t) && NodesAfter(s, e, t)
  }

  lemma StepEffect(s: State, e: Event)
    requires Coherent(s)
    ensures Effect(s, e, Step(s, e))
  {
    StepConnections(s, e);
    forall i, m
      ensures PlaceAfter(s, e, Step(s, e), i, m)
    {
      StepPlaces(s, e, i, m);
    }
    forall m
      ensures NodeAfter(s, e, Step(s, e), m)
    {
      StepNodes(s, e, m);
    }
  }

  lemma EffectDetermines(s: State, e: Event, t: State, u: State)
    requires Coherent(t) && Coherent(u) && Effect(s, e, t) && Effect(s, e, u) && t.bloom == u.bloom
    ensures t == u
  {
    forall i, m
      ensures SamePlace(t, u, i, m)
    {
      assert PlaceAfter(s, e, t, i, m) && PlaceAfter(s, e, u, i, m);
    }
    forall m
      ensures SameNode(t, u, m)
    {
      assert NodeAfter(s, e, t, m) && NodeAfter(s, e, u, m);
    }
    assert SamePlaces(t, u) && SameNodes(t, u);
    CoherentDetermined(t, u);
  }

  /** The effect of every call, and that there is no other: a coherent tracker with the same filter is the one that
      the call leaves if and only if it shows this effect. */
  lemma StepDetermined(s: State, e: Event, t: State)
    requires Coherent(s) && Legal(s, e) && Coherent(t) && t.bloom == Step(s, e).bloom
    ensures t == Step(s, e) <==> Effect(s, e, t)
  {
    StepCoherent(s, e);
    StepEffect(s, e);
    if Effect(s, e, t) {
      EffectDetermines(s, e, t, Step(s, e));
    }
  }

  /** A removal takes exactly one node off exactly one subnet, unless it was put there manually, and stops
      tracking it exactly when nothing else keeps it. */
  lemma RemovalEffect(s: State, id: SubnetID, n: NodeID)
    requires Coherent(s)
    ensures var t := s.OnValidatorRemoved(id, n);
            && (t.IsGossipable(id, n) <==> s.IsGossipable(id, n) && n in s.subnet[id].manuallyGossipable)
            && (forall i, m | i != id || m != n :: SamePlace(s, t, i, m))
            && (forall m | m != n :: SameNode(s, t, m) && (m in t.tracked <==> m in s.tracked))
            && (n in t.tracked <==> n in s.tracked && (ManuallyTracked(s, n) || GossipableSomewhere(t, n)))
            && (n in t.tracked ==> SameNode(s, t, n))
            && t.connected == s.connected
  {
    var e, t := Event.OnValidatorRemoved(id, n), s.OnValidatorRemoved(id, n);
    StepEffect(s, e);
    OnValidatorRemovedCoherent(s, id, n);
    assert PlaceAfter(s, e, t, id, n) && NodeAfter(s, e, t, n);
    forall i, m | i != id || m != n
      ensures SamePlace(s, t, i, m)
    {
      assert PlaceAfter(s, e, t, i, m);
    }
    forall m
      ensures (m in t.tracked <==> ManuallyTracked(t, m) || GossipableSomewhere(t, m)) && NodeAfter(s, e, t, m)
      ensures m != n ==> SameNode(s, t, m) && (m in t.tracked <==> m in s.tracked)
    {
      TrackedExactly(t, m);
      RemovedStillTracked(s, id, n, m);
    }
  }

  lemma RemovedStillTracked(s: State, id: SubnetID, n: NodeID, m: NodeID)
    requires Coherent(s)
    ensures var t := s.OnValidatorRemoved(id, n);
            && (m != n ==> SameNode(s, t, m) && (m in t.tracked <==> m in s.tracked))
            && (m in t.tracked ==> m in s.tracked && SameNode(s, t, m))
  {
  }

  /** But for resets, the filter changes only when some node's latest IP does. */
  lemma FilterChangesWithNews(s: State, e: Event)
    requires !e.ResetBloom? && forall m :: LatestIPAfter(s, e, m) == LatestIP(s, m)
    ensures Step(s, e).bloom == s.bloom
  {
    match e
    case AddIP(ip, _) => assert LatestIPAfter(s, e, ip.nodeID) == LatestIP(s, ip.nodeID);
    case Connected(ip, _, _) => assert LatestIPAfter(s, e, ip.nodeID) == LatestIP(s, ip.nodeID);
    case ManuallyTrack(n, _) => assert LatestIPAfter(s, e, n) == LatestIP(s, n);
    case ManuallyGossip(_, n, _) => assert LatestIPAfter(s, e, n) == LatestIP(s, n);
    case OnValidatorAdded(_, n, _) => assert LatestIPAfter(s, e, n) == LatestIP(s, n);
    case _ =>
  }

  /** What was asked for manually is never taken back: neither removals nor anything else undo it. */
  lemma {:induction false} ManualSurvives(s: State, es: seq<Event>, i: SubnetID, m: NodeID)
    requires Coherent(s) && LegalRun(s, es)
    ensures ManuallyOn(s, i, m) ==> ManuallyOn(Run(s, es), i, m) && Run(s, es).IsGossipable(i, m)
    ensures ManuallyTracked(s, m) ==> ManuallyTracked(Run(s, es), m) && Run(s, es).WantsConnection(m)
  {
    RunCoherent(s, es);
    var t := Run(s, es);
    assert i in t.subnet ==> t.subnet[i].manuallyGossipable <= t.subnet[i].gossipableIDs;
    if es != [] {
      var k := |es| - 1;
      PrefixRun(s, es, k);
      ManualSurvives(s, es[..k], i, m);
      RunCoherent(s, es[..k]);
      StepPlaces(Run(s, es[..k]), es[k], i, m);
      StepNodes(Run(s, es[..k]), es[k], m);
    }
  }

  // ---------- The history decides ----------

  /** Was the last that the tracker heard of this validator that it was added? */
  ghost predicate ValidatorBy(es: seq<Event>, i: SubnetID, m: NodeID) {
    if es == [] then false else
    match es[|es| - 1]
    case OnValidatorAdded(id, n, _) => (id == i && n == m) || ValidatorBy(es[..|es| - 1], i, m)
    case OnValidatorRemoved(id, n) => !(id == i && n == m) && ValidatorBy(es[..|es| - 1], i, m)
    case _ => ValidatorBy(es[..|es| - 1], i, m)
  }

  /** Was the node ever put on the subnet manually? */
  ghost predicate GossipedBy(es: seq<Event>, i: SubnetID, m: NodeID) {
    exists k :: 0 <= k < |es| && es[k].ManuallyGossip? && es[k].s == i && es[k].n == m
  }

  /** Was the node ever tracked manually, directly or by gossiping it on a local subnet? */
  ghost predicate TrackedBy(local: set<SubnetID>, es: seq<Event>, m: NodeID) {
    exists k :: 0 <= k < |es| && TracksManually(local, es[k], m)
  }

  ghost predicate TracksManually(local: set<SubnetID>, e: Event, m: NodeID) {
    || (e.ManuallyTrack? && e.n == m)
    || (e.ManuallyGossip? && e.n == m && (e.s == PRIMARY_NETWORK_ID || e.s in local))
  }

  /** How the node is connected, if the last that the tracker heard is that it is. */
  ghost function ConnectedBy(es: seq<Event>, m: NodeID): Option<ConnectedNode> {
    if es == [] then None else
    match es[|es| - 1]
    case Connected(ip, subnets, _) => if ip.nodeID == m then Some(ConnectedNode(subnets, ip)) else ConnectedBy(es[..|es| - 1], m)
    case Disconnected(n) => if n == m then None else ConnectedBy(es[..|es| - 1], m)
    case _ => ConnectedBy(es[..|es| - 1], m)
  }

  lemma OneMoreManual(local: set<SubnetID>, es: seq<Event>, i: SubnetID, m: NodeID)
    requires es != []
    ensures var before, e := es[..|es| - 1], es[|es| - 1];
            && (GossipedBy(es, i, m) <==> GossipedBy(before, i, m) || (e.ManuallyGossip? && e.s == i && e.n == m))
            && (TrackedBy(local, es, m) <==> TrackedBy(local, before, m) || TracksManually(local, e, m))
  {
    var k := |es| - 1;
    assert forall j | 0 <= j < k :: es[..k][j] == es[j];
    if GossipedBy(es[..k], i, m) {
      var j :| 0 <= j < k && es[..k][j].ManuallyGossip? && es[..k][j].s == i && es[..k][j].n == m;
      assert es[j].ManuallyGossip?;
    }
    if GossipedBy(es, i, m) {
      var j :| 0 <= j < |es| && es[j].ManuallyGossip? && es[j].s == i && es[j].n == m;
      assert j < k ==> es[..k][j].ManuallyGossip?;
    }
    if TrackedBy(local, es[..k], m) {
      var j :| 0 <= j < k && TracksManually(local, es[..k][j], m);
      assert TracksManually(local, es[j], m);
    }
    if TrackedBy(local, es, m) {
      var j :| 0 <= j < |es| && TracksManually(local, es[j], m);
      assert j < k ==> TracksManually(local, es[..k][j], m);
    }
  }

  /** After a run, what is observed of a node is what the history says: it is gossipable on a subnet exactly if it is
      a validator there by the last news or was ever put there manually, and it is tracked manually exactly if that
      was ever asked for. */
  ghost predicate TellsHistory(local: set<SubnetID>, es: seq<Event>, t: State, i: SubnetID, m: NodeID) {
    && (t.IsGossipable(i, m) <==> ValidatorBy(es, i, m) || GossipedBy(es, i, m))
    && (ManuallyOn(t, i, m) <==> GossipedBy(es, i, m))
    && (ManuallyTracked(t, m) <==> TrackedBy(local, es, m))
    && (m in t.connected <==> ConnectedBy(es, m).Some?)
    && (m in t.connected ==> t.connected[m] == ConnectedBy(es, m).value)
    && t.localSubnets == local
  }

  lemma {:induction false} RunTellsHistory(local: set<SubnetID>, maxCount: nat, es: seq<Event>, i: SubnetID, m: NodeID)
    requires LegalRun(NewTracker(local, maxCount), es)
    ensures TellsHistory(local, es, Run(NewTracker(local, maxCount), es), i, m)
  {
    var start := NewTracker(local, maxCount);
    if es != [] {
      var k := |es| - 1;
      PrefixRun(start, es, k);
      RunTellsHistory(local, maxCount, es[..k], i, m);
      NewTrackerCoherent(local, maxCount);
      RunCoherent(start, es[..k]);
      OneMoreManual(local, es, i, m);
      StepTellsHistory(local, es, Run(start, es[..k]), i, m);
    }
  }

  lemma StepTellsHistory(local: set<SubnetID>, es: seq<Event>, s: State, i: SubnetID, m: NodeID)
    requires es != [] && Coherent(s) && TellsHistory(local, es[..|es| - 1], s, i, m)
    ensures TellsHistory(local, es, Step(s, es[|es| - 1]), i, m)
  {
    var e := es[|es| - 1];
    OneMoreManual(local, es, i, m);
    StepPlaces(s, e, i, m);
    StepNodes(s, e, m);
    StepConnections(s, e);
  }

  /** After every run a node is listed on a subnet exactly if, by the history, it is a validator there or was put
      there manually, and is connected with the subnet among those it tracks. */
  lemma ListsTellHistory(local: set<SubnetID>, maxCount: nat, es: seq<Event>, i: SubnetID, m: NodeID)
    requires LegalRun(NewTracker(local, maxCount), es)
    ensures var t := Run(NewTracker(local, maxCount), es);
            (i in t.subnet && m in t.subnet[i].listed) <==>
            && (ValidatorBy(es, i, m) || GossipedBy(es, i, m))
            && ConnectedBy(es, m).Some? && i in ConnectedBy(es, m).value.trackedSubnets
  {
    var start := NewTracker(local, maxCount);
    var t := Run(start, es);
    NewTrackerCoherent(local, maxCount);
    RunCoherent(start, es);
    RunTellsHistory(local, maxCount, es, i, m);
    if i in t.subnet {
      assert ListsExactly(i, t.subnet[i], t.connected);
    }
  }

  /** A connection is wanted exactly if, by the history, the node was tracked manually or is gossipable on a subnet
      that the local node tracks. */
  lemma WantsTellHistory(local: set<SubnetID>, maxCount: nat, es: seq<Event>, m: NodeID)
    requires LegalRun(NewTracker(local, maxCount), es)
    ensures Run(NewTracker(local, maxCount), es).WantsConnection(m) <==>
            || TrackedBy(local, es, m)
            || exists i :: (i == PRIMARY_NETWORK_ID || i in local) && (ValidatorBy(es, i, m) || GossipedBy(es, i, m))
  {
    var start := NewTracker(local, maxCount);
    var t := Run(start, es);
    NewTrackerCoherent(local, maxCount);
    RunCoherent(start, es);
    WantsConnectionExactly(t, m);
    RunTellsHistory(local, maxCount, es, PRIMARY_NETWORK_ID, m);
    forall i
      ensures t.IsGossipable(i, m) <==> ValidatorBy(es, i, m) || GossipedBy(es, i, m)
      ensures t.IsLocal(i) <==> i == PRIMARY_NETWORK_ID || i in local
    {
      RunTellsHistory(local, maxCount, es, i, m);
    }
  }
}
