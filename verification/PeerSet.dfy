/** A set of peers with random access: a dense slice with a node-to-position index. */
module PeerSets {
  import opened Ids
  import opened DenseIndex
  import opened NetworkState
  import opened Sampler

  function NodeOf(p: Peer): NodeID {
    p.nodeID
  }

  class PeerSet {
    var peersMap: map<NodeID, nat>
    var peersSlice: seq<Peer>
    ghost var peers: map<NodeID, Peer>

    ghost predicate Valid()
      reads this
    {
      Inverse(peersMap, peersSlice, NodeOf, peers)
    }

    constructor ()
      ensures Valid() && peers == map[]
    {
      peersMap, peersSlice, peers := map[], [], map[];
    }

    method Add(p: Peer)
      requires Valid()
      modifies this
      ensures Valid() && peers == old(peers)[p.nodeID := p]
    {
      if p.nodeID !in peersMap {
        AppendKeepsInverse(peersMap, peersSlice, NodeOf, peers, p);
        peersMap := peersMap[p.nodeID := |peersSlice|];
        peersSlice := peersSlice + [p];
      } else {
        ReplaceKeepsInverse(peersMap, peersSlice, NodeOf, peers, p.nodeID, p);
        peersSlice := peersSlice[peersMap[p.nodeID] := p];
      }
      peers := peers[p.nodeID := p];
    }

    method GetByID(n: NodeID) returns (p: Option<Peer>)
      requires Valid()
      ensures p == if n in peers then Some(peers[n]) else None
    {
      if n !in peersMap {
        return None;
      }
      return Some(peersSlice[peersMap[n]]);
    }

    method Remove(n: NodeID)
      requires Valid()
      modifies this
      ensures Valid() && peers == old(peers) - {n}
    {
      if n in peersMap {
        SwapRemoveKeepsInverse(peersMap, peersSlice, NodeOf, peers, n);
        var index, lastIndex := peersMap[n], |peersSlice| - 1;
        var lastPeer := peersSlice[lastIndex];
        peersMap, peersSlice := peersMap[lastPeer.nodeID := index] - {n}, peersSlice[index := lastPeer][..lastIndex];
      }
      peers := peers - {n};
    }

    /** getPeers: the named nodes that are connected and allowed, visited in any order. */
    method GetPeers(config: SendConfig) returns (named: seq<Peer>)
      requires Valid()
      ensures forall p :: p in named <==>
                p.nodeID in config.nodeIDs && p.nodeID in peers && peers[p.nodeID] == p &&
                config.isAllowed(p.nodeID, config.isValidator(p.nodeID))
      ensures forall i, j | 0 <= i < j < |named| :: named[i].nodeID != named[j].nodeID
    {
      named := [];
      var todo := config.nodeIDs;
      while todo != {}
        invariant todo <= config.nodeIDs
        invariant forall p :: p in named <==>
                    p.nodeID in config.nodeIDs - todo && p.nodeID in peers && peers[p.nodeID] == p &&
                    config.isAllowed(p.nodeID, config.isValidator(p.nodeID))
        invariant forall i, j | 0 <= i < j < |named| :: named[i].nodeID != named[j].nodeID
        decreases todo
      {
        ghost var some := Member(todo);
        var n :| n in todo;
        todo := todo - {n};
        var p := GetByID(n);
        if p.None? || !config.isAllowed(n, config.isValidator(n)) {
          continue;
        }
        assert forall q | q in named :: q.nodeID != n;
        named := named + [p.value];
      }
    }

    /** Send: all the named peers that are connected and allowed, and a sample of others. */
    method SendTargets(config: SendConfig, numValidators: nat, random: nat -> nat)
      returns (named: seq<Peer>, sample: seq<Peer>)
      requires Valid()
      ensures forall p :: p in named <==>
                p.nodeID in config.nodeIDs && p.nodeID in peers && peers[p.nodeID] == p &&
                config.isAllowed(p.nodeID, config.isValidator(p.nodeID))
      ensures forall i, j | 0 <= i < j < |named| :: named[i].nodeID != named[j].nodeID
      ensures IsSampleOf(config, numValidators, peers, sample)
      ensures forall i, j | 0 <= i < |named| && 0 <= j < |sample| :: named[i].nodeID != sample[j].nodeID
    {
      named := GetPeers(config);
      var left;
      sample, left := SamplePeers(config, numValidators, random);
      assert forall i | 0 <= i < |named| :: named[i] in named;
    }

    /** Samples connected peers for a message; `random` drives the sampler.  Also returns the slots
        that were left, as the counters of the source end up. */
    method SamplePeers(config: SendConfig, numValidators: nat, random: nat -> nat) returns (sample: seq<Peer>, left: Slots)
      requires Valid()
      ensures IsSampleOf(config, numValidators, peers, sample)
      ensures WithinSlots(config, config.Requested(numValidators), left, sample)
      ensures forall n | n in peers && config.Eligible(peers[n]) && left.Open(config.isValidator(n)) :: peers[n] in sample
    {
      SliceIsDistinct(peersMap, peersSlice, peers);
      var slots := config.Requested(numValidators);
      ghost var seen;
      sample, left, seen := SampleSlice(config, slots, peersSlice, random);
      SampleIsOfPeers(config, slots, left, sample, peersSlice, seen, peersMap, peers);
      SampleIsExhaustive(config, slots, left, sample, peersSlice, seen, peersMap, peers);
      SampleFills(config, numValidators, left, sample, peers);
    }
  }

  /** Sample, with the precondition that samplePeers passes to it. */
  method SampleSlice(config: SendConfig, slots: Slots, slice: seq<Peer>, random: nat -> nat)
    returns (sample: seq<Peer>, left: Slots, ghost seen: set<nat>)
    requires slots.validators >= 0 && slots.nonValidators >= 0 && slots.peers >= 0 && DistinctNodes(slice)
    ensures Sampled(config, slots, left, sample, slice, seen)
    ensures |sample| >= slots.Sum() || forall k: nat | k < |slice| :: k in seen
  {
    sample, left := [], slots;
    var sampler := new Uniform(|slice|);
    while |sample| < slots.Sum()
      invariant sampler.Valid() && fresh(sampler) && sampler.length == |slice|
      invariant Sampled(config, slots, left, sample, slice, sampler.seen)
      decreases sampler.length - sampler.drawsCount
    {
      ghost var before := sampler.seen;
      var index, hasNext := sampler.Next(random(sampler.drawsCount));
      if !hasNext {
        break;
      }
      var p := slice[index];
      if !config.Eligible(p) {
        SampleSkips(config, slots, left, sample, slice, before, index);
        continue;
      }
      var admitted, left' := left.Admit(config.isValidator(p.nodeID));
      SampleOneMore(config, slots, left, left', sample, slice, before, index);
      left := left';
      if admitted {
        sample := sample + [p];
      }
    }
    seen := sampler.seen;
  }

  ghost predicate DistinctNodes(slice: seq<Peer>) {
    forall i, j | 0 <= i < j < |slice| :: slice[i].nodeID != slice[j].nodeID
  }

  lemma SliceIsDistinct(indices: map<NodeID, nat>, slice: seq<Peer>, peers: map<NodeID, Peer>)
    requires Inverse(indices, slice, NodeOf, peers)
    ensures DistinctNodes(slice)
  {
    forall i, j | 0 <= i < j < |slice|
      ensures slice[i].nodeID != slice[j].nodeID
    {
      assert indices[NodeOf(slice[i])] == i && indices[NodeOf(slice[j])] == j;
    }
  }

  /** The sampling slots: for anyone, for validators, for others.  The last two may run below zero. */
  datatype Slots = Slots(validators: int, nonValidators: int, peers: int) {
    function Sum(): int {
      validators + nonValidators + peers
    }

    /** Is there a slot left that this kind of peer can take? */
    predicate Open(isValidator: bool) {
      peers > 0 || (if isValidator then validators > 0 else nonValidators > 0)
    }

    /** A slot for anyone is taken first, then one of the peer's kind. */
    function Admitting(isValidator: bool): Slots {
      if peers > 0 then this.(peers := peers - 1)
      else if isValidator then this.(validators := validators - 1)
      else this.(nonValidators := nonValidators - 1)
    }

    /** The counters that the sampling predicate updates when it meets an eligible peer. */
    method Admit(isValidator: bool) returns (admitted: bool, left: Slots)
      ensures admitted <==> Open(isValidator)
      ensures left == Admitting(isValidator)
    {
      left := this;
      if peers > 0 {
        left := left.(peers := peers - 1);
        return true, left;
      }
      if isValidator {
        left := left.(validators := validators - 1);
        return left.validators >= 0, left;
      }
      left := left.(nonValidators := nonValidators - 1);
      return left.nonValidators >= 0, left;
    }
  }

  /** A request to send: whom to name, how many to sample, and who may take part. */
  datatype SendConfig = SendConfig(
    nodeIDs: set<NodeID>,
    validators: nat,
    nonValidators: nat,
    peers: nat,
    subnetID: SubnetID,
    isValidator: NodeID -> bool,
    isAllowed: (NodeID, bool) -> bool)
  {
    predicate Eligible(p: Peer) {
      && subnetID in p.trackedSubnets
      && p.nodeID !in nodeIDs
      && isAllowed(p.nodeID, isValidator(p.nodeID))
    }

    function Requested(numValidators: nat): Slots {
      Slots(if validators < numValidators then validators else numValidators, nonValidators, peers)
    }
  }

  function CountKind(config: SendConfig, sample: seq<Peer>, validators: bool): nat {
    if sample == [] then 0 else
    CountKind(config, sample[..|sample| - 1], validators) +
    (if config.isValidator(sample[|sample| - 1].nodeID) == validators then 1 else 0)
  }

  function Used(requested: int, left: int): int {
    requested - (if left < 0 then 0 else left)
  }

  /** Every sampled peer took a slot of its kind or one for anyone. */
  ghost predicate WithinSlots(config: SendConfig, requested: Slots, left: Slots, sample: seq<Peer>) {
    && 0 <= left.peers <= requested.peers
    && left.validators <= requested.validators && left.nonValidators <= requested.nonValidators
    && |sample| == Used(requested.peers, left.peers) + Used(requested.validators, left.validators)
                   + Used(requested.nonValidators, left.nonValidators)
    && CountKind(config, sample, true) >= Used(requested.validators, left.validators)
    && CountKind(config, sample, false) >= Used(requested.nonValidators, left.nonValidators)
    && CountKind(config, sample, true) + CountKind(config, sample, false) == |sample|
  }

  lemma AdmitKeepsSlots(config: SendConfig, requested: Slots, left: Slots, left': Slots, sample: seq<Peer>, p: Peer)
    requires WithinSlots(config, requested, left, sample)
    requires left' == left.Admitting(config.isValidator(p.nodeID))
    ensures WithinSlots(config, requested, left', if left.Open(config.isValidator(p.nodeID)) then sample + [p] else sample)
    ensures forall v :: left'.Open(v) ==> left.Open(v)
  {
    assert (sample + [p])[..|sample|] == sample;
  }

  /** The state of sampling after these positions of the slice were visited. */
  ghost predicate Sampled(config: SendConfig, requested: Slots, left: Slots, sample: seq<Peer>, slice: seq<Peer>, seen: set<nat>) {
    && WithinSlots(config, requested, left, sample)
    && (forall p | p in sample :: config.Eligible(p) && exists k :: k in seen && k < |slice| && slice[k] == p)
    && (forall i, j | 0 <= i < j < |sample| :: sample[i].nodeID != sample[j].nodeID)
    && (forall k | k in seen && k < |slice| && config.Eligible(slice[k]) && left.Open(config.isValidator(slice[k].nodeID)) ::
          slice[k] in sample)
  }

  lemma SampleSkips(config: SendConfig, requested: Slots, left: Slots, sample: seq<Peer>, slice: seq<Peer>, seen: set<nat>, k: nat)
    requires Sampled(config, requested, left, sample, slice, seen) && k < |slice| && !config.Eligible(slice[k])
    ensures Sampled(config, requested, left, sample, slice, seen + {k})
  {
    forall p | p in sample
      ensures exists i :: i in seen + {k} && i < |slice| && slice[i] == p
    {
      var i :| i in seen && i < |slice| && slice[i] == p;
      assert i in seen + {k};
    }
  }

  lemma SampleOneMore(config: SendConfig, requested: Slots, left: Slots, left': Slots, sample: seq<Peer>,
                      slice: seq<Peer>, seen: set<nat>, k: nat)
    requires Sampled(config, requested, left, sample, slice, seen)
    requires k < |slice| && k !in seen && config.Eligible(slice[k])
    requires DistinctNodes(slice)
    requires left' == left.Admitting(config.isValidator(slice[k].nodeID))
    ensures Sampled(config, requested, left',
                    if left.Open(config.isValidator(slice[k].nodeID)) then sample + [slice[k]] else sample, slice, seen + {k})
  {
    AdmitKeepsSlots(config, requested, left, left', sample, slice[k]);
    forall p | p in sample ensures p.nodeID != slice[k].nodeID && exists i :: i in seen + {k} && i < |slice| && slice[i] == p {
      var i :| i in seen && i < |slice| && slice[i] == p;
      assert i in seen + {k};
    }
    assert k in seen + {k};
  }

  lemma SampleIsOfPeers(config: SendConfig, requested: Slots, left: Slots, sample: seq<Peer>, slice: seq<Peer>, seen: set<nat>,
                        indices: map<NodeID, nat>, peers: map<NodeID, Peer>)
    requires Sampled(config, requested, left, sample, slice, seen) && Inverse(indices, slice, NodeOf, peers)
    ensures forall i | 0 <= i < |sample| ::
              sample[i].nodeID in peers && peers[sample[i].nodeID] == sample[i] && config.Eligible(sample[i])
  {
    forall i | 0 <= i < |sample|
      ensures sample[i].nodeID in peers && peers[sample[i].nodeID] == sample[i]
    {
      assert sample[i] in sample;
      var k :| k in seen && k < |slice| && slice[k] == sample[i];
      assert NodeOf(slice[k]) in indices;
    }
  }

  /** Sampling stops when the slots are used up or every peer was visited. */
  lemma SampleIsExhaustive(config: SendConfig, requested: Slots, left: Slots, sample: seq<Peer>, slice: seq<Peer>, seen: set<nat>,
                           indices: map<NodeID, nat>, peers: map<NodeID, Peer>)
    requires Sampled(config, requested, left, sample, slice, seen) && Inverse(indices, slice, NodeOf, peers)
    requires |sample| >= requested.Sum() || forall k: nat | k < |slice| :: k in seen
    ensures forall n | n in peers && config.Eligible(peers[n]) && left.Open(config.isValidator(n)) :: peers[n] in sample
  {
    forall n | n in peers && config.Eligible(peers[n]) && left.Open(config.isValidator(n))
      ensures peers[n] in sample
    {
      assert slice[indices[n]] == peers[n];
    }
  }

  // ---------- What a sample is, without the counters ----------

  /** How many slots there are for a kind of peer: no more for validators than the subnet has. */
  ghost function SlotsFor(config: SendConfig, numValidators: nat, isValidator: bool): nat {
    if !isValidator then config.nonValidators
    else if config.validators < numValidators then config.validators
    else numValidators
  }

  /** Not named, tracking the subnet and allowed. */
  ghost predicate MayTakePart(config: SendConfig, p: Peer) {
    p.nodeID !in config.nodeIDs && config.subnetID in p.trackedSubnets && config.isAllowed(p.nodeID, config.isValidator(p.nodeID))
  }

  /** Distinct connected peers that may take part, of each kind no more than its slots and those for anyone; and a peer
      is passed over only when the slots for anyone and for its kind are all taken. */
  ghost predicate IsSampleOf(config: SendConfig, numValidators: nat, peers: map<NodeID, Peer>, sample: seq<Peer>) {
    && (forall i, j | 0 <= i < j < |sample| :: sample[i].nodeID != sample[j].nodeID)
    && (forall i | 0 <= i < |sample| ::
          sample[i].nodeID in peers && peers[sample[i].nodeID] == sample[i] && MayTakePart(config, sample[i]))
    && (forall v :: CountKind(config, sample, v) <= config.peers + SlotsFor(config, numValidators, v))
    && |sample| <= config.peers + SlotsFor(config, numValidators, true) + SlotsFor(config, numValidators, false)
    && (forall n | n in peers && MayTakePart(config, peers[n]) && peers[n] !in sample ::
          var v := config.isValidator(n);
          && CountKind(config, sample, v) >= SlotsFor(config, numValidators, v)
          && |sample| >= config.peers + SlotsFor(config, numValidators, v))
  }

  lemma SampleFills(config: SendConfig, numValidators: nat, left: Slots, sample: seq<Peer>, peers: map<NodeID, Peer>)
    requires WithinSlots(config, config.Requested(numValidators), left, sample)
    requires forall i, j | 0 <= i < j < |sample| :: sample[i].nodeID != sample[j].nodeID
    requires forall i | 0 <= i < |sample| ::
               sample[i].nodeID in peers && peers[sample[i].nodeID] == sample[i] && config.Eligible(sample[i])
    requires forall n | n in peers && config.Eligible(peers[n]) && left.Open(config.isValidator(n)) :: peers[n] in sample
    requires forall n | n in peers :: peers[n].nodeID == n
    ensures IsSampleOf(config, numValidators, peers, sample)
  {
    forall n | n in peers && MayTakePart(config, peers[n]) && peers[n] !in sample
      ensures !left.Open(config.isValidator(n))
    {
      assert config.Eligible(peers[n]);
    }
  }
}
