/** The tracker object over sequences of calls. */
module TrackerRuns {
  import opened Ids
  import opened TrackerState
  import opened TrackerInvariants
  import opened IPTrackers

  /** Any call; it needs nothing that the calls before it do not leave behind. */
  method Do(tracker: IPTracker, e: Event)
    requires tracker.Valid()
    modifies tracker, tracker.lists, tracker.lists.numGossipableIPs, tracker.lists.repr
    ensures tracker.Valid() && tracker.View() == Step(old(tracker.View()), e)
    ensures fresh(tracker.lists.repr - old(tracker.lists.repr))
  {
    match e
    case ManuallyTrack(n, reset) => tracker.ManuallyTrack(n, reset);
    case ManuallyGossip(id, n, reset) => tracker.ManuallyGossip(id, n, reset);
    case AddIP(ip, reset) => var wanted := tracker.AddIP(ip, reset);
    case Connected(ip, subnets, reset) => tracker.Connected(ip, subnets, reset);
    case Disconnected(n) => tracker.Disconnected(n);
    case OnValidatorAdded(id, n, reset) => tracker.OnValidatorAdded(id, n, reset);
    case OnValidatorRemoved(id, n) => tracker.OnValidatorRemoved(id, n);
    case ResetBloom(reset) => var ok := tracker.ResetBloom(reset);
  }

  /** A legal call keeps the tracker coherent. */
  method DoLegally(tracker: IPTracker, e: Event)
    requires tracker.Valid() && Coherent(tracker.View()) && Legal(tracker.View(), e)
    modifies tracker, tracker.lists, tracker.lists.numGossipableIPs, tracker.lists.repr
    ensures tracker.Valid() && tracker.View() == Step(old(tracker.View()), e) && Coherent(tracker.View())
    ensures fresh(tracker.lists.repr - old(tracker.lists.repr))
  {
    StepCoherent(tracker.View(), e);
    Do(tracker, e);
  }

  /** A new tracker and any sequence of calls, legal or not: it represents the run. */
  method RunCalls(local: set<SubnetID>, maxCount: nat, es: seq<Event>) returns (tracker: IPTracker)
    ensures tracker.Valid() && tracker.View() == Run(NewTracker(local, maxCount), es)
  {
    tracker := new IPTracker(local, maxCount);
    ghost var start := NewTracker(local, maxCount);
    for k := 0 to |es|
      invariant fresh(tracker) && fresh(tracker.lists) && fresh(tracker.lists.numGossipableIPs) && fresh(tracker.lists.repr)
      invariant tracker.Valid() && tracker.View() == Run(start, es[..k])
    {
      assert es[..k + 1][..k] == es[..k];
      Do(tracker, es[k]);
    }
    assert es[..|es|] == es;
  }

  /** After any legal sequence of calls the tracker is coherent and each gauge equals the size it counts. */
  method RunTracker(local: set<SubnetID>, maxCount: nat, es: seq<Event>) returns (tracker: IPTracker)
    requires LegalRun(NewTracker(local, maxCount), es)
    ensures tracker.Valid() && tracker.View() == Run(NewTracker(local, maxCount), es) && Coherent(tracker.View())
    ensures tracker.numTrackedPeers == |tracker.tracked|
    ensures tracker.lists.numTrackedSubnets == |tracker.lists.subnet|
    ensures tracker.lists.numGossipableIPs.value == |tracker.lists.entries|
    ensures forall id | id in tracker.lists.subnet :: tracker.lists.entries[id] == |tracker.lists.subnet[id].gossipableIPs|
    ensures forall id | id !in tracker.lists.subnet :: tracker.lists.entries[id] == 0
  {
    tracker := RunCalls(local, maxCount, es);
    NewTrackerCoherent(local, maxCount);
    RunCoherent(NewTracker(local, maxCount), es);
    tracker.lists.Counted();
  }
}
