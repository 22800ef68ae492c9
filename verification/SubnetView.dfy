/** The gossip lists of all subnets as objects, and the value that they represent. */
module SubnetViews {
  import opened Ids
  import opened TrackerState
  import opened GossipableSubnets

  type Table = map<SubnetID, GossipableSubnet>

  /** The object of the subnet `id` represents `info` and lists `count` IPs. */
  ghost predicate Mirrors(g: GossipableSubnet, id: SubnetID, info: SubnetInfo, count: nat, gauge: Gauge)
    reads g
  {
    g.Valid() && g.owner == id && g.numGossipableIPs == gauge && g.Info() == info && count == |g.gossipableIPs|
  }

  /** `info` and `entries` know no other subnets. */
  ghost predicate SameSubnets(subnet: Table, info: SubnetMap, entries: multiset<SubnetID>) {
    && (forall id :: id in info <==> id in subnet)
    && (forall id | id !in subnet :: entries[id] == 0)
  }

  /** The objects represent `info`. */
  ghost predicate AllMirror(subnet: Table, info: SubnetMap, entries: multiset<SubnetID>, gauge: Gauge, repr: set<GossipableSubnet>)
    requires forall id | id in subnet :: subnet[id] in repr && id in info
    reads repr
  {
    forall id {:trigger Mirrors(subnet[id], id, info[id], entries[id], gauge)} | id in subnet ::
      Mirrors(subnet[id], id, info[id], entries[id], gauge)
  }

  /** The objects represent `info`; `entries` holds each subnet once per IP it lists, and the gauge counts them. */
  ghost predicate Represents(subnet: Table, info: SubnetMap, entries: multiset<SubnetID>, gauge: Gauge,
                             repr: set<GossipableSubnet>)
    reads repr, gauge
  {
    && (forall id | id in subnet :: subnet[id] in repr)
    && SameSubnets(subnet, info, entries)
    && AllMirror(subnet, info, entries, gauge, repr)
    && gauge.value == |entries|
  }

  /** One object changed, and the gauge with it. */
  lemma OneChanged(subnet: Table, info: SubnetMap, entries: multiset<SubnetID>, gauge: Gauge, repr: set<GossipableSubnet>,
                   id: SubnetID)
    requires id in subnet && SameSubnets(subnet, info, entries) && forall i | i in subnet :: subnet[i] in repr
    requires forall i | i in subnet - {id} :: subnet[i] in repr - {subnet[id]}
    requires AllMirror(subnet - {id}, info, entries, gauge, repr - {subnet[id]})
    requires subnet[id].Valid() && subnet[id].owner == id && subnet[id].numGossipableIPs == gauge
    requires gauge.value + entries[id] == |entries| + |subnet[id].gossipableIPs|
    ensures Represents(subnet, info[id := subnet[id].Info()], entries[id := |subnet[id].gossipableIPs|], gauge, repr)
  {
    var others, info', entries' := subnet - {id}, info[id := subnet[id].Info()], entries[id := |subnet[id].gossipableIPs|];
    forall i | i in subnet
      ensures Mirrors(subnet[i], i, info'[i], entries'[i], gauge)
    {
      if i != id {
        assert Mirrors(others[i], i, info[i], entries[i], gauge);
      }
    }
  }

  /** The other objects are not that of `id`, so that they do not notice its changes. */
  lemma Others(subnet: Table, info: SubnetMap, entries: multiset<SubnetID>, gauge: Gauge, repr: set<GossipableSubnet>, id: SubnetID)
    requires Represents(subnet, info, entries, gauge, repr) && id in subnet
    ensures Mirrors(subnet[id], id, info[id], entries[id], gauge)
    ensures forall i | i in subnet - {id} :: subnet[i] in repr - {subnet[id]}
    ensures AllMirror(subnet - {id}, info, entries, gauge, repr - {subnet[id]})
  {
    var others := subnet - {id};
    assert Mirrors(subnet[id], id, info[id], entries[id], gauge);
    forall i | i in others
      ensures others[i] != subnet[id] && Mirrors(others[i], i, info[i], entries[i], gauge)
    {
      assert Mirrors(subnet[i], i, info[i], entries[i], gauge);
    }
  }

  lemma OneAdded(subnet: Table, info: SubnetMap, entries: multiset<SubnetID>, gauge: Gauge, repr: set<GossipableSubnet>,
                 id: SubnetID, g: GossipableSubnet)
    requires Represents(subnet, info, entries, gauge, repr) && id !in subnet
    requires g.Valid() && g.owner == id && g.numGossipableIPs == gauge && g.gossipableIPs == []
    ensures Represents(subnet[id := g], info[id := g.Info()], entries, gauge, repr + {g})
  {
    var subnet', info' := subnet[id := g], info[id := g.Info()];
    forall i | i in subnet'
      ensures Mirrors(subnet'[i], i, info'[i], entries[i], gauge)
    {
      if i != id {
        assert Mirrors(subnet[i], i, info[i], entries[i], gauge);
      }
    }
  }

  lemma OneDropped(subnet: Table, info: SubnetMap, entries: multiset<SubnetID>, gauge: Gauge, repr: set<GossipableSubnet>,
                   id: SubnetID)
    requires Represents(subnet, info, entries, gauge, repr) && id in subnet && forall n :: n !in info[id].listed
    ensures Represents(subnet - {id}, info - {id}, entries, gauge, repr)
  {
    assert Mirrors(subnet[id], id, info[id], entries[id], gauge);
    NothingListed(subnet[id].gossipableIndices, subnet[id].gossipableIPs, subnet[id].listed);
    var subnet', info' := subnet - {id}, info - {id};
    forall i | i in subnet'
      ensures Mirrors(subnet'[i], i, info'[i], entries[i], gauge)
    {
      assert Mirrors(subnet[i], i, info[i], entries[i], gauge);
    }
  }
}
