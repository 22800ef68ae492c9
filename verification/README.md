# Verified models of the Flare node

A Dafny model of six parts of the node, with proofs of what each part promises over every input, every sequence of
calls, and every interleaving. Each part that updates state in place is a class whose methods carry the source's
branches and loops. The methods are tied to step functions on values, and the laws are proved about those functions
over whole runs.

| part | files |
|---|---|
| Peer IP tracker | `TrackerState`, `TrackerInvariants`, `TrackerEffects`, `ConnectionIPs`, `DenseIndex`, `GossipableSubnet`, `SubnetView`, `SubnetTable`, `IPTracker`, `TrackerRun` |
| Connection lifecycle and message targets | `NetworkState`, `Network`, `NetworkEffects`, `PeerSet`, `Sampler`, `Lifecycle`, `LifecycleInvariants`, `LifecycleProgress` |
| Genesis stake splitting and supply | `Pieces`, `Genesis`, `GenesisSupply` |
| Acceptance index and indexer | `UInt64`, `AcceptanceIndex`, `Indexer` |
| Bit ranges of identifiers | `Bits` |
| Prefix clearing and caches | `Database`, `Entries`, `EvictableLRU`, `SizedLRU` |

`dafny verify dfyconfig.toml` checks everything.

## Main results

- **Gossip lists are exact.** After every sequence of tracker calls, a subnet lists a node exactly when the node is
  gossipable on it and connected with it. The IP listed is the node's latest one. It rests on one joint invariant,
  `Coherent`, over the tracked, connected and per-subnet maps. Its one demand on callers, that `Connected` comes only
  for nodes not connected yet, is discharged by the lifecycle proof. The tracker object follows every run: its methods
  ask for nothing that the calls before do not leave behind, never miss an IP, and keep the three gauges exact.
- **The tracker tells its history.** What each call changes is stated on observations, such as who is gossipable where
  and which IP is the latest, and no other coherent tracker has the same observations. After every run, who is
  gossipable, listed and wanted is told by the calls themselves: who was added and not removed since, who was put there
  manually, who connected and did not disconnect since.
- **The lifecycle is safe in every interleaving.** No node is in both peer sets. A trackedIP is stopped exactly when
  it is not its node's entry, so no dial loop is orphaned. A connected node has no entry, so every dial loop for it has
  been told to stop. Router and tracker see strictly alternating notices. Wanted nodes are dialed at the right address,
  and from every reachable state each peer can run to its end by its own steps.
- **Stake is split without loss.** The pieces handed out cut the unlocks of the configuration, in order, into even
  shares, one per validator. What `FromConfig` hands out is the initial supply, exactly when someone stakes the staked funds.
- **The index is an append-only log** across every history of acceptances, crashes and restarts. The indexer's flags
  keep a complete index apart from an incomplete one over every history of node runs, and a run that insists on complete
  indices never spoils one that exists.
- **Masks compare bits**, and the first difference reported is the first.
- **Clearing a prefix clears that prefix** for every write size and reports an error exactly when something failed.
- **Caches keep what fits.** Over every run, what was put or deduplicated is found again as long as what came since
  leaves room, and entries stand in the order of their last use. For the sized cache the accounting law is false in
  general. The exact condition is proved, for one put and for whole runs, with a concrete run that breaks it.

## Where the code differs from what it says

- The comment at `avalanchego/network/ip_tracker.go:128-132` names a fourth condition for gossiping, that the node
  connected with the IP that is its latest. The code gossips the latest known IP whether or not the node connected with
  it. `ConnectionIPs.NewerIPIsGossiped` is a run in which the condition fails. `ConnectionIPs.StepDeparts` says exactly
  which calls break it: news about a connected node that is gossipable on a shared subnet, a connection with an IP that
  is not the latest, and joining a subnet after a newer IP was learnt. `ConnectionIPs.RunDeparts` lifts this to runs.
- `sizedLRU.put` takes the size of a replaced entry off the total and may then evict that entry and take it off again.
  `SizedLRUs.PutExact` says exactly when. The result is a cache that holds more than its bound.
- `splitAllocations` returns one group when nothing is staked, so `FromConfig` indexes past the end when there are
  several stakers. `GenesisSupply.FromConfig` states this outcome as an if-and-only-if, and
  `GenesisSupply.ValidConfigFails` gives a configuration that passes validateConfig.
- `GetContainerRange` promises the containers from the start index on. It computes the end of the range modulo 2^64. If
  the sum wraps around, it allocates a slice of the requested length and fills in nothing, so that it returns that many
  zero containers without an error. `AcceptanceIndex.RangeIsSlice` says that a valid request is answered by its slice if
  and only if the end fits, and `AcceptanceIndex.RangeReturnsZeros` is an instance. An int has 64 bits.

## Model

| member | source | states |
|---|---|---|
| `TrackerInvariants.GossipListsAreExact` | avalanchego/network/ip_tracker.go:242-522 | After every legal run of a new tracker, each list holds exactly the gossipable nodes connected on its subnet, with their latest IP, no older than the one they connected with |
| `TrackerInvariants.RunCoherent` | avalanchego/network/ip_tracker.go:242-522 | Every legal run keeps the joint invariant: both sides record the same memberships, trackedSubnets is the local part, nothing deletable remains, IPs are known, lists are exact |
| `TrackerInvariants.StepCoherent` | avalanchego/network/ip_tracker.go:242-522 | Every single call keeps the joint invariant |
| `TrackerInvariants.AddIPCoherent` | avalanchego/network/ip_tracker.go:311-324 | Learning an IP and relisting it keeps the joint invariant |
| `TrackerInvariants.ConnectedCoherent` | avalanchego/network/ip_tracker.go:344-357 | Connecting a node that was not connected keeps the joint invariant |
| `TrackerInvariants.DisconnectedCoherent` | avalanchego/network/ip_tracker.go:393-408 | Disconnecting keeps the joint invariant |
| `TrackerInvariants.OnValidatorAddedCoherent` | avalanchego/network/ip_tracker.go:410-416 | Tracking and gossiping a validator keeps the joint invariant |
| `TrackerInvariants.ManuallyGossipCoherent` | avalanchego/network/ip_tracker.go:254-264 | Manual gossip, local or not, keeps the joint invariant |
| `TrackerInvariants.OnValidatorRemovedCoherent` | avalanchego/network/ip_tracker.go:481-522 | Removing a validator, with the deletions that follow, keeps the joint invariant |
| `TrackerInvariants.JoinEffect` | avalanchego/network/ip_tracker.go:419-477 | addTrackableID then addGossipableID make the node a member on both sides and list it exactly when it is connected on the subnet |
| `TrackerInvariants.NewTrackerCoherent` | avalanchego/network/ip_tracker.go:43-82 | A new tracker satisfies the joint invariant and the filter invariant |
| `TrackerInvariants.WantsConnectionExactly` | avalanchego/network/ip_tracker.go:270-276 | A connection is wanted exactly for manually tracked nodes and nodes gossipable on the primary or a local subnet |
| `TrackerInvariants.ShouldVerifyIPAgrees` | avalanchego/network/ip_tracker.go:282-300 | An IP is verified exactly when AddIP would report it, or, tracking all subnets, would learn it |
| `TrackerInvariants.StepKeepsIP` | avalanchego/network/ip_tracker.go:359-382 | No call makes a tracked node forget its IP or take an older one |
| `TrackerInvariants.TimestampsNeverDecrease` | avalanchego/network/ip_tracker.go:359-382 | Over any run during which a node stays tracked, its IP timestamp never decreases |
| `TrackerInvariants.ResetRestoresBloom` | avalanchego/network/ip_tracker.go:576-608 | A successful reset leaves exactly one entry and one addition per tracked node with an IP and the new maximum, whatever was before |
| `TrackerEffects.StepDetermined` | avalanchego/network/ip_tracker.go:242-522 | A coherent tracker with the right filter is the one a call leaves if and only if it shows the effect of the call: who is gossipable where and why, who is tracked manually, whose latest IP is which, who is connected how |
| `TrackerEffects.StepEffect` | avalanchego/network/ip_tracker.go:242-522 | Every call has its effect at every node and place and none elsewhere |
| `TrackerEffects.CoherentDetermined` | avalanchego/network/ip_tracker.go:85-134 | Two coherent trackers with the same observations are equal, so the three maps hold nothing else |
| `TrackerEffects.RemovalEffect` | avalanchego/network/ip_tracker.go:481-522 | A removal takes exactly one node off exactly one subnet, unless it was put there manually, and stops tracking it exactly when nothing else keeps it |
| `TrackerEffects.ManualSurvives` | avalanchego/network/ip_tracker.go:242-522 | Over every run, a node put on a subnet or tracked manually stays so, stays gossipable there and stays wanted, whatever is removed |
| `TrackerEffects.RunTellsHistory` | avalanchego/network/ip_tracker.go:242-522 | After every run a node is gossipable on a subnet exactly if it was added as a validator and not removed since or was put there manually; manual tracking and connections are told by the calls likewise |
| `TrackerEffects.ListsTellHistory` | avalanchego/network/ip_tracker.go:242-522 | After every run a node is listed on a subnet exactly if, by the calls made, it belongs there and is connected with that subnet |
| `TrackerEffects.WantsTellHistory` | avalanchego/network/ip_tracker.go:270-276 | After every run a connection is wanted exactly for nodes that, by the calls made, are tracked manually or belong to the primary or a local subnet |
| `TrackerEffects.FilterChangesWithNews` | avalanchego/network/ip_tracker.go:524-552 | But for resets, a call that changes no latest IP leaves the filter alone |
| `TrackerInvariants.RecordCovers` | avalanchego/network/ip_tracker.go:524-552 | Learning an IP keeps coverage if and only if the quota is used up, the filter has room, the reset works, or the filter holds the IP already |
| `TrackerInvariants.RunBloomOk` | avalanchego/network/ip_tracker.go:524-608 | While resets succeed, every run keeps the additions equal to the insertions, at most two per node, and every node below the quota has its latest IP in the filter |
| `TrackerInvariants.RunWithinQuota` | avalanchego/network/ip_tracker.go:524-608 | The quota half holds over every run, resets failing or not |
| `DenseIndex.SwapRemoveKeepsInverse` | avalanchego/network/ip_tracker.go:148-167 | Filling the gap with the last element keeps index map and slice inverse, for gossip lists and peer sets |
| `DenseIndex.AppendKeepsInverse` | avalanchego/network/ip_tracker.go:137-146 | Appending a new element keeps index map and slice inverse |
| `GossipableSubnets.GossipableSubnet.SetGossipableIP` | avalanchego/network/ip_tracker.go:137-146 | Lists the IP of its node, keeps index and slice inverse, and moves the gauge by the change in length |
| `GossipableSubnets.GossipableSubnet.RemoveGossipableIP` | avalanchego/network/ip_tracker.go:148-167 | Unlists exactly that node, keeps index and slice inverse, and moves the gauge by the change in length |
| `GossipableSubnets.GossipableSubnet.GetGossipableIPs` | avalanchego/network/ip_tracker.go:172-200 | Adds only eligible listed IPs of new nodes up to the maximum; below the maximum no eligible node is missing, for every random source |
| `IPTrackers.IPTracker.GetGossipableIPs` | avalanchego/network/ip_tracker.go:610-650 | At most the maximum, distinct nodes, none excluded or filtered, all listed in an allowed subnet; below the maximum every eligible node is present, for every order and random source |
| `IPTrackers.IPTracker.constructor` | avalanchego/network/ip_tracker.go:43-82 | A new tracker represents the empty value with all gauges at zero |
| `IPTrackers.IPTracker.ManuallyTrack` | avalanchego/network/ip_tracker.go:242-247 | Moves the tracker by the step function, keeps the three gauges equal to the sizes they count, and needs no more than any call leaves behind |
| `IPTrackers.IPTracker.ManuallyGossip` | avalanchego/network/ip_tracker.go:254-264 | As above, for manual gossip |
| `IPTrackers.IPTracker.AddIP` | avalanchego/network/ip_tracker.go:311-324 | As above; returns true exactly for news about a wanted node |
| `IPTrackers.IPTracker.LearnIP` | avalanchego/network/ip_tracker.go:359-382 | Classifies the IP by timestamp and learns it exactly when it is the first or newer |
| `IPTrackers.IPTracker.Connected` | avalanchego/network/ip_tracker.go:344-357 | As ManuallyTrack, for a connection |
| `IPTrackers.IPTracker.Disconnected` | avalanchego/network/ip_tracker.go:393-408 | As ManuallyTrack, for a disconnection |
| `IPTrackers.IPTracker.OnValidatorAdded` | avalanchego/network/ip_tracker.go:410-416 | As ManuallyTrack, for a validator added |
| `IPTrackers.IPTracker.OnValidatorRemoved` | avalanchego/network/ip_tracker.go:481-522 | As ManuallyTrack, for a validator removed; what the step does is `TrackerEffects.RemovalEffect` |
| `IPTrackers.IPTracker.AddTrackableID` | avalanchego/network/ip_tracker.go:419-448 | Marks the node, new or known, and brings along the IP of its connection |
| `IPTrackers.IPTracker.AddGossipableID` | avalanchego/network/ip_tracker.go:450-477 | Makes the node a member of a subnet, new or known, and lists it if it is tracked and connected there; the IP it then dereferences is there in every state that calls lead to |
| `SubnetTables.SubnetTable.SetGossipableIP` | avalanchego/network/ip_tracker.go:384-390 | Lists the IP on exactly the given subnets where its node is gossipable, in any order |
| `SubnetTables.SubnetTable.RemoveValidator` | avalanchego/network/ip_tracker.go:485-507 | Takes the node off the subnet, its list and its gauge, and drops the subnet with its last member, unless the node was put there manually |
| `SubnetTables.SubnetTable.GetGossipableIPs` | avalanchego/network/ip_tracker.go:610-650 | The same as the tracker's GetGossipableIPs, for the lists alone |
| `SubnetTables.SubnetTable.Counted` | avalanchego/network/ip_tracker.go:206-233 | The gauges are the number of subnets and the sum of the lengths of the lists |
| `TrackerRuns.Do` | avalanchego/network/ip_tracker.go:242-562 | Every call, legal or not, finds what it needs and moves the tracker by its step function |
| `TrackerRuns.DoLegally` | avalanchego/network/ip_tracker.go:242-562 | A legal call on a coherent tracker object moves it by its step function and leaves it coherent |
| `TrackerRuns.RunTracker` | avalanchego/network/ip_tracker.go:43-562 | After every legal sequence of calls on a new tracker the object represents the run, is coherent, and each of the three gauges equals the size it counts |
| `TrackerInvariants.StepSound` | avalanchego/network/ip_tracker.go:242-522 | Every call, legal or not, leaves an IP wherever a later call will need one, and lists only members |
| `ConnectionIPs.StepDeparts` | avalanchego/network/ip_tracker.go:128-132 | While every listed IP is the one its node connected with, a legal call keeps that if and only if it is none of the three kinds that list another |
| `ConnectionIPs.RunDeparts` | avalanchego/network/ip_tracker.go:128-132 | Every listed IP is the connection IP throughout a run if and only if no call of the run departs from that |
| `ConnectionIPs.NewerIPIsGossiped` | avalanchego/network/ip_tracker.go:128-132 | A concrete run after which an IP is listed that its node did not connect with |
| `IPTrackers.IPTracker.UpdateMostRecentTrackedIP` | avalanchego/network/ip_tracker.go:524-552 | Sets the node's IP and records it in the filter under the quota |
| `IPTrackers.IPTracker.ResetBloom` | avalanchego/network/ip_tracker.go:557-562 | Replaces the filter, or keeps it and reports an error exactly when the reset fails |
| `IPTrackers.ResetFilter` | avalanchego/network/ip_tracker.go:576-608 | On success the filter holds one entry per tracked node with an IP, whatever the order of insertion |
| `IPTrackers.IPTracker.GetIP` | avalanchego/network/ip_tracker.go:331-340 | The latest IP and whether a connection is wanted |
| `LifecycleInvariants.EveryRunIsSafe` | avalanchego/network/network.go:435-515 | At every moment of every interleaving: peer sets disjoint, no connected node tracked and its dial loops stopped, a trackedIP stopped exactly when it is not its node's entry, notices alternating, tracker's connected nodes among the connected peers, gossip lists exact |
| `LifecycleInvariants.CallbacksFindTheirPeer` | avalanchego/network/network.go:435-515 | In every run each callback finds its very peer in the set it looks in, Disconnected in exactly one set, and the tracker is told of nodes it does not know and then of nodes it does |
| `LifecycleInvariants.StepKeepsInv` | avalanchego/network/network.go:435-1150 | Every step of every peer, dial loop and caller keeps the lifecycle invariant |
| `LifecycleInvariants.ConnectedKeepsInv` | avalanchego/network/network.go:435-453 | Moving a peer to the connected set and stopping its tracking keeps the invariant |
| `LifecycleInvariants.TellTrackerKeepsInv` | avalanchego/network/network.go:455-463 | The unlocked call to the tracker keeps the invariant, whatever happened since the lock was released |
| `LifecycleInvariants.LeaveConnectingKeepsInv` | avalanchego/network/network.go:820-840 | Dropping a connecting peer, dialing anew or not, keeps the invariant |
| `LifecycleInvariants.LeaveConnectedKeepsInv` | avalanchego/network/network.go:842-859 | Dropping a connected peer after its notices keeps the invariant |
| `LifecycleInvariants.UpgradeKeepsInv` | avalanchego/network/network.go:1048-1107 | Starting an accepted peer keeps the invariant |
| `LifecycleInvariants.TrackKeepsInv` | avalanchego/network/network.go:678-729 | Tracking a new or newer IP keeps the invariant |
| `LifecycleInvariants.DialCheckKeepsInv` | avalanchego/network/network.go:889-935 | Each round of each dial loop, current or stopped, keeps the invariant |
| `LifecycleInvariants.StartCloseKeepsInv` | avalanchego/network/network.go:1119-1150 | Closing stops every trackedIP ever created, leaves no entry, and keeps the invariant |
| `LifecycleInvariants.StepKeepsCoherent` | avalanchego/network/network.go:435-515 | The lifecycle meets the tracker's demands, so the tracker stays coherent |
| `LifecycleInvariants.TrackNewIPKeepsTracks` | avalanchego/network/tracked_ip.go:34-41 | Replacing an entry stops the old trackedIP, so that entries stay exactly the ones not stopped |
| `NetworkEffects.TrackEffect` | avalanchego/network/network.go:678-729 | The entry of a node that is not connected becomes a fresh one with the new address, dialing, not stopped, with the old entry's delay or none; the old one is stopped and no other changes |
| `NetworkEffects.ManuallyTrackEffect` | avalanchego/network/network.go:656-676 | A fresh entry starts exactly for a node neither connected nor tracked |
| `NetworkEffects.ConnectedEffect` | avalanchego/network/network.go:435-453 | Exactly the connecting peer moves, and exactly its entry is stopped and dropped |
| `NetworkEffects.DisconnectedFromConnectingEffect` | avalanchego/network/network.go:820-840 | The peer goes; a tracked node is dialed anew at its address if wanted, and dropped if not |
| `NetworkEffects.DisconnectedFromConnectedEffect` | avalanchego/network/network.go:842-859 | The peer goes, and its node is dialed at the given IP exactly if there is one |
| `NetworkEffects.DialCheckEffect` | avalanchego/network/network.go:889-935 | The loop ends exactly if its node is unwanted, connecting or connected, and the entry goes exactly if it is unwanted |
| `NetworkEffects.ExitEffect` | avalanchego/network/network.go:889-935 | A loop that returns changes nothing but that it no longer dials |
| `NetworkEffects.UpgradeEffect` | avalanchego/network/network.go:1048-1107 | The peer becomes the connecting peer of its node exactly if the network is open and the node unknown; nothing else changes |
| `NetworkEffects.StartCloseEffect` | avalanchego/network/network.go:1119-1150 | Every entry is stopped and dropped, and the peers stay |
| `LifecycleProgress.NewsIsDialed` | avalanchego/network/network.go:678-729 | News about a wanted node that is not connected is dialed at its address; other news leaves the network alone |
| `LifecycleProgress.LeavingRedials` | avalanchego/network/network.go:842-859 | A connected peer that leaves is dialed again, at the latest IP of its node, exactly if the node is wanted and an IP known |
| `LifecycleProgress.LeavingHandshakeRedials` | avalanchego/network/network.go:820-840 | A peer that leaves during the handshake is dialed again exactly if it was being dialed and is wanted |
| `LifecycleProgress.DialLoopGoesOn` | avalanchego/network/network.go:889-935 | A dial loop goes on exactly while its node is wanted and neither connecting nor connected |
| `LifecycleProgress.ManualTrackingDials` | avalanchego/network/network.go:656-676 | Tracking a node manually dials it unless it is connected or being dialed |
| `LifecycleProgress.PeerNeverStuck` | avalanchego/network/network.go:435-515 | A live peer can always take its next step, whatever the others did, and comes closer to its end |
| `LifecycleProgress.HandshakeMayFail` | avalanchego/network/network.go:503-515 | During the handshake a peer may also leave at once, as a connecting peer |
| `LifecycleProgress.PeerCanFinish` | avalanchego/network/network.go:435-515 | From every state that a run leads to, each peer can run to its end by its own steps alone |
| `LifecycleProgress.UpgradeStarts` | avalanchego/network/network.go:1048-1107 | A peer starts with what it said in the handshake exactly if the network is open and the node unknown; otherwise nothing happens |
| `LifecycleProgress.ListsFollowPeers` | avalanchego/network/network.go:435-515 | At every moment of every interleaving, a node is listed on a subnet exactly if it is gossipable there and its connected peer has told the tracker and said that it tracks the subnet |
| `Networks.Network.Connected` | avalanchego/network/network.go:435-453 | The lock-held section moves the network by its step function and keeps the objects in order |
| `Networks.Network.ManuallyTrack` | avalanchego/network/network.go:656-676 | As above, for manual tracking |
| `Networks.Network.Track` | avalanchego/network/network.go:678-729 | As above, for a new IP; what the step does is `NetworkEffects.TrackEffect` |
| `Networks.Network.DisconnectedFromConnecting` | avalanchego/network/network.go:820-840 | As above, for a connecting peer that leaves |
| `Networks.Network.DisconnectedFromConnected` | avalanchego/network/network.go:842-859 | As above, for a connected peer that leaves |
| `Networks.Network.DialCheck` | avalanchego/network/network.go:889-935 | As above, for one round of a dial loop |
| `Networks.Network.Upgrade` | avalanchego/network/network.go:1048-1107 | As above; a peer starts exactly when the network is open and the node unknown |
| `Networks.Network.StartClose` | avalanchego/network/network.go:1119-1150 | As above, stopping all trackedIPs in any order |
| `Networks.Network.TrackNewIP` | avalanchego/network/tracked_ip.go:34-41 | Stops the current trackedIP and starts a fresh one with the same delay |
| `PeerSets.SampleIsExhaustive` | avalanchego/network/peer/set.go:117-139 | Sampling stops when the slots are used up or every peer was visited, so an open slot means that every eligible peer of its kind was chosen |
| `PeerSets.PeerSet.Add` | avalanchego/network/peer/set.go:69-78 | Adds or replaces the peer of a node, keeping index and slice inverse |
| `PeerSets.PeerSet.Remove` | avalanchego/network/peer/set.go:95-111 | Removes exactly that node, keeping index and slice inverse |
| `PeerSets.PeerSet.GetPeers` | avalanchego/network/network.go:739-765 | Exactly the named nodes that are connected and allowed, each once |
| `PeerSets.PeerSet.SamplePeers` | avalanchego/network/network.go:770-818 | Distinct connected peers, unnamed, tracking the subnet and allowed, of each kind no more than its slots and those for anyone; a peer is passed over only if all these slots are taken, for every random source |
| `PeerSets.PeerSet.SendTargets` | avalanchego/network/network.go:317-353 | Exactly the named peers that are connected and allowed, each once, and a sample as SamplePeers promises; the two never overlap |
| `Sampler.Uniform.Next` | avalanchego/utils/sampler/uniform_replacer.go:58-70 | A value not handed out before; it fails exactly when all were |
| `Sampler.EveryValueCanBeDrawn` | avalanchego/utils/sampler/uniform_replacer.go:58-70 | Each value not handed out is drawn by exactly one of the random numbers in range, so that a uniform source samples uniformly |
| `Genesis.SplitAllocations` | avalanchego/genesis/genesis.go:477-542 | If the total fits, the groups cut the unlocks in order, all but the last weigh the even share and the last the rest, and all groups exist if and only if something is staked or one was asked for |
| `Genesis.SplitIsComplete` | avalanchego/genesis/genesis.go:482-541 | The state after the loops is a complete split |
| `Genesis.CutUnlock` | avalanchego/genesis/genesis.go:501-534 | The inner loop terminates and hands out the whole unlock, filling groups exactly |
| `Genesis.GroupCount` | avalanchego/genesis/genesis.go:489-541 | Groups can only be missing when nothing is staked |
| `Pieces.CutsKeepShares` | avalanchego/genesis/genesis.go:477-542 | Cutting keeps what every owner gets at every locktime, and the total |
| `GenesisSupply.InitialSupply` | avalanchego/genesis/config.go:146-167 | The sum of all amounts, an error exactly when it does not fit, and 1 on three networks |
| `GenesisSupply.XChainHolders` | avalanchego/genesis/genesis.go:282-310 | One holder for each positive initial amount, as a multiset, by amount and then by address |
| `GenesisSupply.PChainOutputs` | avalanchego/genesis/genesis.go:356-382 | Exactly one output per positive unlock of unstaked funds, in order; exactly the staked allocations are set aside |
| `GenesisSupply.StakeGroups` | avalanchego/genesis/genesis.go:384-436 | Each validator stakes its group; indexing fails exactly when groups are missing |
| `GenesisSupply.HandsOutSupply` | avalanchego/genesis/genesis.go:272-475 | Holders, outputs and stakes add up to the supply, but for staked funds that nobody stakes |
| `GenesisSupply.FromConfig` | avalanchego/genesis/genesis.go:272-475 | Both failures as if-and-only-if, what each part holds, an even share for every validator but the last and the rest for it, and conservation: what is handed out is the initial supply exactly when there is a staker or nothing is staked |
| `GenesisSupply.ValidConfigFails` | avalanchego/genesis/genesis.go:118-181 | A concrete configuration that passes the checks and makes FromConfig index past the end |
| `UInt64.PackedBytes` | avalanchego/database/helpers.go:57-68 | Byte k of eight is the number divided by 256 to the power of 7 - k, modulo 256: the most significant byte comes first |
| `UInt64.PackRoundTrip` | avalanchego/database/helpers.go:57-68 | Parsing a packed number gives the number back |
| `UInt64.ParseRoundTrip` | avalanchego/database/helpers.go:57-68 | Packing a parsed number gives the bytes back |
| `AcceptanceIndex.NewIndex` | avalanchego/indexer/index.go:62-96 | Fails exactly when the stored next index is not eight bytes; on a database that an earlier run left it takes up the log |
| `AcceptanceIndex.Index.Accept` | avalanchego/indexer/index.go:111-161 | Appends a new container once, keeps a known one, and after a crash at any write the database represents the log before or after, never between |
| `AcceptanceIndex.Index.GetContainerByIndex` | avalanchego/indexer/index.go:175-182 | The log entry at the index, or an error past the end |
| `AcceptanceIndex.Index.GetContainerRange` | avalanchego/indexer/index.go:205-237 | The slice of the log capped at its end, every error case, and the zero containers returned when the end of the range wraps around |
| `AcceptanceIndex.RangeLength` | avalanchego/indexer/index.go:221-225 | The length computed in 64-bit ints is that of the slice, or the requested number when the end has wrapped around |
| `AcceptanceIndex.RangeIsSlice` | avalanchego/indexer/index.go:201-237 | A valid request within the log is answered by its slice if and only if the end of the range fits into 64 bits |
| `AcceptanceIndex.RangeReturnsZeros` | avalanchego/indexer/index.go:201-237 | A log that a history reaches, and a range of three from its last container that returns three zero containers |
| `AcceptanceIndex.Index.GetIndex` | avalanchego/indexer/index.go:240-245 | The position of the container in the log, not found exactly when it is absent |
| `AcceptanceIndex.Index.GetContainerByID` | avalanchego/indexer/index.go:247-257 | The container in the log with that ID, not found exactly when it is absent |
| `AcceptanceIndex.Index.GetLastAccepted` | avalanchego/indexer/index.go:261-270 | The last log entry, or an error when the log is empty |
| `AcceptanceIndex.AppendedRepresents` | avalanchego/indexer/index.go:134-160 | The three writes of an acceptance make the database represent the longer log |
| `AcceptanceIndex.HistoryGrowsLog` | avalanchego/indexer/index.go:111-161 | Over every history the log only grows, has no duplicates, holds what got through and nothing else |
| `AcceptanceIndex.RunHistory` | avalanchego/indexer/index.go:62-161 | After every history of acceptances, crashes and restarts the database represents the log of the history |
| `Indexers.IndexIsComplete` | avalanchego/indexer/indexer.go:132-244 | If a run that insists on complete indices indexes a chain, every earlier surviving run that registered the chain indexed it |
| `Indexers.ExistingIndexIsSpared` | avalanchego/indexer/indexer.go:188-201 | If some run indexed a chain, a later run that disallows incomplete indices closes when it registers the chain without indexing, and never marks it incomplete |
| `Indexers.RegisterEnabledEffect` | avalanchego/indexer/indexer.go:220-307 | With indexing on, exactly which flags are set and which indices exist after a registration, for each fault and VM, and when the indexer closes |
| `Indexers.RegisterDisabledEffect` | avalanchego/indexer/indexer.go:188-218 | With indexing off, exactly when the indexer closes and otherwise that the chain is marked incomplete and nothing else changes |
| `Indexers.SurvivingRunIndices` | avalanchego/indexer/indexer.go:132-307 | A surviving run with indexing has block indices for exactly the primary network chains registered, and vertex and transaction indices for exactly the DAGs among them |
| `Indexers.PreviouslyIndexedHasCause` | avalanchego/indexer/indexer.go:389-427 | A chain is marked previously indexed only if some earlier run registered it with indexing on |
| `Indexers.RunsAreCounted` | avalanchego/indexer/indexer.go:69-91 | Every run but the first, and only these, knows that there was one before |
| `Indexers.IncompleteHasCause` | avalanchego/indexer/indexer.go:389-427 | A chain is marked incomplete only if some earlier run registered it without indexing |
| `Indexers.SurvivingRunHandles` | avalanchego/indexer/indexer.go:132-307 | A run that survives indexes every chain it registers, or marks it incomplete |
| `Indexers.StrictRunRefuses` | avalanchego/indexer/indexer.go:220-230 | A run that insists on complete indices never indexes an incomplete chain |
| `Indexers.RunKeepsFlags` | avalanchego/indexer/indexer.go:389-427 | A run never clears a flag, and only a run without indexing marks chains incomplete |
| `Indexers.Indexer.constructor` | avalanchego/indexer/indexer.go:69-91 | A new indexer reads whether it has run before and records that it has |
| `Indexers.Indexer.RegisterChain` | avalanchego/indexer/indexer.go:132-307 | Every branch, fault and shutdown moves flags and indices by the step function; what the step does are the two `Register` effects |
| `Bits.EqualSubsetIsBitwise` | avalanchego/ids/bits.go:21-62 | For every start and stop, what is returned or indexed out of range in terms of `Bit`; from 0 on, equality is agreement at every index of the range, empty ranges are equal and ranges past the end are not |
| `Bits.FirstDifferenceSubset` | avalanchego/ids/bits.go:67-128 | Indexes out of range exactly from a start of -8 down; otherwise a difference is found exactly when EqualSubset says not equal within the identifier, and it is the least one |
| `Bits.AgreeInByte` | avalanchego/ids/id.go:140-158 | Agreement of `Bit` over part of a byte is agreement of the bits of that byte |
| `Bits.MaskedEquality` | avalanchego/ids/bits.go:38-61 | Masked bytes are equal exactly when the selected bits agree |
| `Bits.MaskedDifference` | avalanchego/ids/bits.go:94-95 | The trailing zeros of the difference lead to the first selected bit that differs |
| `Databases.ClearPrefix` | avalanchego/database/helpers.go:203-241 | Terminates for every write size, succeeds exactly when nothing failed, then leaves exactly the keys without the prefix; on failure only prefixed keys may be gone |
| `Databases.WriteKeepsClearing` | avalanchego/database/helpers.go:218-234 | Writing a batch of deletions shrinks the prefixed keys and touches no other |
| `Databases.LastOpWins` | avalanchego/database/batch.go:83-94 | After a replay a key has the effect of the last operation on it |
| `Databases.UntouchedKeyKeepsValue` | avalanchego/database/batch.go:83-94 | A key no operation names keeps its value |
| `Databases.TotalSizeIsPayload` | avalanchego/database/batch.go:55-75 | The size of a batch is the number of bytes of all its keys and values |
| `Databases.BatchOps.Put` | avalanchego/database/batch.go:55-62 | Appends the operation and keeps the size equal to the sum |
| `Databases.BatchOps.Delete` | avalanchego/database/batch.go:64-71 | Appends the deletion and keeps the size equal to the sum |
| `Databases.BatchOps.Reset` | avalanchego/database/batch.go:77-81 | Empties the batch |
| `Databases.BatchOps.Replay` | avalanchego/database/batch.go:83-94 | Applies the operations in order up to the first that fails |
| `EvictableLRUs.SameObjectUnlessEvicted` | avalanchego/cache/unique_cache.go:58-85 | Two calls for one key return one object over every run in between, unless it was evicted after the first |
| `EvictableLRUs.SameObjectWithRoom` | avalanchego/cache/unique_cache.go:48-85 | Two calls for one key return one object if fewer than Size other keys are asked for in between and nothing is flushed nor Size lowered too far |
| `EvictableLRUs.HitEffect` | avalanchego/cache/unique_cache.go:58-85 | Within Size, asking for a held key returns the held object, evicts nothing and makes it the newest |
| `EvictableLRUs.MissEffect` | avalanchego/cache/unique_cache.go:58-85 | Within Size, asking for another key returns the new object; nothing is evicted if there is room, and exactly the oldest if not |
| `EvictableLRUs.FlushEffect` | avalanchego/cache/unique_cache.go:87-94 | A flush evicts all values, in order, and leaves none |
| `EvictableLRUs.TooLongLosesOldest` | avalanchego/cache/unique_cache.go:48-56 | When Size was lowered, exactly the oldest values in excess are evicted, in order |
| `EvictableLRUs.RunByLastAsked` | avalanchego/cache/unique_cache.go:58-85 | Over every run the values stand in the order in which their keys were last asked for |
| `EvictableLRUs.RunFacts` | avalanchego/cache/unique_cache.go:36-94 | Over every run keys stay distinct and what was held or admitted is what is held or was evicted, as multisets |
| `EvictableLRUs.StepFacts` | avalanchego/cache/unique_cache.go:36-94 | One call keeps keys distinct and the accounts even; after deduplicate the length is within Size and the newest value has the key |
| `EvictableLRUs.EvictableLRU.Deduplicate` | avalanchego/cache/unique_cache.go:58-85 | Keeps map and list in agreement while reusing elements in place, and moves the cache by the step function; what the step does are `HitEffect` and `MissEffect` |
| `EvictableLRUs.EvictableLRU.Resize` | avalanchego/cache/unique_cache.go:48-56 | Evicts exactly the oldest values in excess, in order |
| `EvictableLRUs.EvictableLRU.Flush` | avalanchego/cache/unique_cache.go:87-94 | Evicts everything and restores Size |
| `SizedLRUs.PutThenHit` | avalanchego/cache/lru_sized_cache.go:76-118 | Over every run, a key that was put hits with the value put, unless it was put again, evicted or flushed, as long as what was put or asked for since leaves room for it |
| `SizedLRUs.FoundExactly` | avalanchego/cache/lru_sized_cache.go:98-106 | A key hits with a value if and only if that entry is held, and misses if and only if no entry has the key |
| `SizedLRUs.PutEffect` | avalanchego/cache/lru_sized_cache.go:76-96 | A put within the bound is found and newest, and brings back no other entry; one above the bound empties the cache |
| `SizedLRUs.PutKeepsExactly` | avalanchego/cache/lru_sized_cache.go:76-96 | Another entry remains if and only if what is recorded of the entries from it on leaves room for the new one |
| `SizedLRUs.GetEffect` | avalanchego/cache/lru_sized_cache.go:98-106 | Asking changes no entry and no size; a held entry becomes the newest |
| `SizedLRUs.EvictEffect` | avalanchego/cache/lru_sized_cache.go:108-113 | Afterwards the key misses, every other entry remains, and the size is less by that of the entry |
| `SizedLRUs.PutExact` | avalanchego/cache/lru_sized_cache.go:76-96 | From an exact state a put stays exact if and only if it does not replace a non-empty entry whose newer neighbours leave no room for the new one |
| `SizedLRUs.PutSlack` | avalanchego/cache/lru_sized_cache.go:76-96 | A put changes weight minus recorded size by exactly the replaced size when the loop evicts it too, and by nothing otherwise |
| `SizedLRUs.RunExact` | avalanchego/cache/lru_sized_cache.go:76-118 | The recorded size is the weight all along a run if and only if no put of the run miscounts |
| `SizedLRUs.RunWithoutGrowth` | avalanchego/cache/lru_sized_cache.go:76-118 | If no put replaces an entry by a larger one, the recorded size is the weight and within the bound |
| `SizedLRUs.RunBounded` | avalanchego/cache/lru_sized_cache.go:76-118 | Over every run keys are distinct, the recorded size is within the bound, and never above the weight |
| `SizedLRUs.RunRecorded` | avalanchego/cache/lru_sized_cache.go:76-118 | Over every run a hit returns the value last put for the key, and entries stand in the order of last use |
| `SizedLRUs.GrowthMiscounts` | avalanchego/cache/lru_sized_cache.go:76-96 | A concrete run of three puts after which 6 is recorded and 11 is held, with a bound of 10 |
| `SizedLRUs.NegativeSizesSpin` | avalanchego/cache/lru_sized_cache.go:87-92 | With a negative size the eviction loop can reach an empty list and never end |
| `SizedLRUs.SizedLRU.Put` | avalanchego/cache/lru_sized_cache.go:76-96 | Moves the cache by the step function; the eviction loop never meets an empty list |
| `SizedLRUs.SizedLRU.DropOldest` | avalanchego/cache/lru_sized_cache.go:87-92 | Drops the fewest oldest entries that make room, from any state whose recorded size is at most the weight |
| `SizedLRUs.SizedLRU.Get` | avalanchego/cache/lru_sized_cache.go:98-106 | Returns the value of the entry with the key, and nothing exactly if there is none; moves the cache by the step function |
| `SizedLRUs.SizedLRU.Evict` | avalanchego/cache/lru_sized_cache.go:108-113 | Removes the entry and its size, or changes nothing |

## Left out

- TLS upgrade, sockets, listeners, NAT and the gossip and ping loops: dialing and upgrading are steps that may happen at any time.
- Signatures, certificates, hashing and address formats: identifiers, addresses and IPs are abstract values.
- Bloom hashing, false positives and the sizing of the filter: the filter is the set of entries with an insertion count, and the maximum count after a reset is arbitrary.
- Metrics other than the three gauges of the tracker, and logging. The gauges that only the tracker changes are counters of it, and its subnets and their two gauges are grouped in an object.
- The random part of the dial delay: each round of a dial loop sets an arbitrary delay.
- Linked lists, the linked hash map and the prefix and version databases are modelled by sequences and maps with their contracts.
- Pointers to `trackedNode` are modelled as values in the tracked map; every update in the source goes through the map entry of the node.
- Unbounded list lengths and gauges: they are not limited to 64 bits, except where the source's arithmetic can wrap around (genesis amounts, container indices).
- Lifecycle.Next: the goroutine of each peer is reduced to its calls to the network, which are assumed to be Connected at most once and then Disconnected once, as `avalanchego/network/network.go:433-434` and `:498-502` demand, and `MySubnets` is assumed not to hold the primary network, as `avalanchego/network/peer/config.go:37` says.
- AcceptanceIndex.Index.Accept: says nothing about the log once 2^64 - 1 containers are indexed, where the next index wraps around; database errors, which are fatal, are crashes. Encoding a container and decoding it is taken to give the container back.
- AcceptanceIndex.RunHistory: is limited to histories whose log stays below 2^64 entries, for the same reason.
- Genesis.SplitAllocations: says nothing about the groups when the staked total exceeds 64 bits; `FromConfig` rules this out except on networks with a fixed supply.
- GenesisSupply.FromConfig: the amounts only; start times, delegation fees, chains and the encoding of the genesis are not modelled.
- Indexers.Indexer.RegisterChain: registering acceptors and HTTP handlers is reduced to success or failure of each index.
- Bits.EqualSubsetIsBitwise: ints are unbounded; the decrement of the smallest int is not modelled.
- Databases.ClearPrefix: iterators list the keys that were there when they were made, in any order, and a batch is written as a whole or not at all.
- SizedLRUs.SizedLRU.Put: entry sizes are not negative, because with a negative size the eviction loop may not end, as `NegativeSizesSpin` shows.
- Aliasing, plain LRU caches, byte pools, acceptor groups, RPC services and configuration parsing: they would add only easy members.
