/** The amounts that flow from a genesis configuration into the X-chain and the P-chain. */
module GenesisSupply {
  import opened Ids
  import opened Pieces
  import opened UInt64
  import opened Genesis

  const SONGBIRD_ID := 5
  const COSTON_ID := 7
  const LOCAL_ID := 12345

  datatype Config = Config(networkID: nat, allocations: seq<Allocation>, initialStakedFunds: set<int>, numStakers: nat) {
    predicate HasFixedSupply() {
      networkID == SONGBIRD_ID || networkID == COSTON_ID || networkID == LOCAL_ID
    }
  }

  datatype Holder = Holder(amount: uint64, address: int)

  /** X-chain holders, P-chain outputs, and the outputs staked by each validator. */
  datatype Args = Args(holders: seq<Holder>, utxos: seq<Piece>, staked: seq<seq<Piece>>, initialSupply: uint64)

  datatype Outcome = Built(args: Args) | SupplyOverflows | IndexOutOfRange

  // ---------- Reference amounts ----------

  function InitialTotal(allocations: seq<Allocation>): nat {
    if allocations == [] then 0 else
    InitialTotal(allocations[..|allocations| - 1]) + allocations[|allocations| - 1].initialAmount
  }

  function Supply(allocations: seq<Allocation>): nat {
    InitialTotal(allocations) + Total(Flatten(allocations))
  }

  /** The allocations whose unlocks are staked. */
  function Staked(allocations: seq<Allocation>, funds: set<int>): seq<Allocation> {
    if allocations == [] then [] else
    var rest := Staked(allocations[..|allocations| - 1], funds);
    if allocations[|allocations| - 1].avaxAddr in funds then rest + [allocations[|allocations| - 1]] else rest
  }

  /** The allocations whose unlocks are not. */
  function Unstaked(allocations: seq<Allocation>, funds: set<int>): seq<Allocation> {
    if allocations == [] then [] else
    var rest := Unstaked(allocations[..|allocations| - 1], funds);
    if allocations[|allocations| - 1].avaxAddr in funds then rest else rest + [allocations[|allocations| - 1]]
  }

  function StakedTotal(config: Config): nat {
    Total(Flatten(Staked(config.allocations, config.initialStakedFunds)))
  }

  function HolderTotal(holders: seq<Holder>): nat {
    if holders == [] then 0 else HolderTotal(holders[..|holders| - 1]) + holders[|holders| - 1].amount
  }

  function HolderOf(a: Allocation): Holder {
    Holder(a.initialAmount, a.avaxAddr)
  }

  /** One holder for every positive initial amount. */
  function Holders(allocations: seq<Allocation>): seq<Holder> {
    if allocations == [] then [] else
    var rest, a := Holders(allocations[..|allocations| - 1]), allocations[|allocations| - 1];
    if a.initialAmount > 0 then rest + [HolderOf(a)] else rest
  }

  /** The pieces that are not empty. */
  function Positive(ps: seq<Piece>): seq<Piece> {
    if ps == [] then [] else
    var rest, p := Positive(ps[..|ps| - 1]), ps[|ps| - 1];
    if p.amount > 0 then rest + [p] else rest
  }

  /** The staked outputs of all validators, in order. */
  function Concat(staked: seq<seq<Piece>>): seq<Piece> {
    if staked == [] then [] else Concat(staked[..|staked| - 1]) + staked[|staked| - 1]
  }

  // ---------- InitialSupply ----------

  lemma SupplyPrefix(allocations: seq<Allocation>, i: nat)
    requires i < |allocations|
    ensures InitialTotal(allocations[..i + 1]) == InitialTotal(allocations[..i]) + allocations[i].initialAmount
    ensures Flatten(allocations[..i + 1]) == Flatten(allocations[..i]) + Unlocks(allocations[i])
    ensures InitialTotal(allocations[..i + 1]) <= InitialTotal(allocations)
    ensures Total(Flatten(allocations[..i + 1])) <= Total(Flatten(allocations))
  {
    assert allocations[..i + 1][..i] == allocations[..i];
    FlattenPrefix(allocations, i);
    InitialTotalMonotone(allocations, i + 1);
  }

  lemma {:induction false} InitialTotalMonotone(allocations: seq<Allocation>, i: nat)
    requires i <= |allocations|
    ensures InitialTotal(allocations[..i]) <= InitialTotal(allocations)
    decreases |allocations| - i
  {
    if i < |allocations| {
      InitialTotalMonotone(allocations, i + 1);
      assert allocations[..i + 1][..i] == allocations[..i];
    } else {
      assert allocations[..i] == allocations;
    }
  }

  function CheckedAdd(a: uint64, b: uint64): Option<uint64> {
    if a > TWO_64 - 1 - b then None else Some(a + b)
  }

  method AddAllocation(supply: uint64, a: Allocation, ghost us: seq<Piece>) returns (r: Option<uint64>)
    requires Total(us) <= supply
    ensures var sum := supply + a.initialAmount + Total(us + Unlocks(a)) - Total(us);
            r == if sum < TWO_64 then Some(sum) else None
  {
    TotalConcat(us, Unlocks(a));
    r := CheckedAdd(supply, a.initialAmount);
    if r.None? {
      return;
    }
    assert us + UnlocksUpTo(a, 0) == us;
    for j := 0 to |a.unlockSchedule|
      invariant r.Some? && r.value == supply + a.initialAmount + Total(us + UnlocksUpTo(a, j)) - Total(us)
    {
      UnlockFits(us, a, j);
      TotalAppend(us + UnlocksUpTo(a, j), PieceOf(a, a.unlockSchedule[j]));
      r := CheckedAdd(r.value, a.unlockSchedule[j].amount);
      if r.None? {
        return;
      }
    }
  }

  /** The sum of all amounts, or an error exactly when it does not fit; 1 on three networks. */
  method InitialSupply(config: Config) returns (r: Option<uint64>)
    ensures config.HasFixedSupply() ==> r == Some(1)
    ensures !config.HasFixedSupply() ==>
              r == if Supply(config.allocations) < TWO_64 then Some(Supply(config.allocations)) else None
  {
    if config.HasFixedSupply() {
      return Some(1);
    }
    var allocations := config.allocations;
    r := Some(0);
    for i := 0 to |allocations|
      invariant r.Some? && r.value == Supply(allocations[..i])
    {
      SupplyPrefix(allocations, i);
      r := AddAllocation(r.value, allocations[i], Flatten(allocations[..i]));
      if r.None? {
        return;
      }
    }
    assert allocations[..|allocations|] == allocations;
  }

  // ---------- The X-chain ----------

  /** Allocation.Compare: by amount, then by address. */
  predicate Before(a: Allocation, b: Allocation) {
    a.initialAmount < b.initialAmount || (a.initialAmount == b.initialAmount && a.avaxAddr <= b.avaxAddr)
  }

  /** Any sorting method will do; this one inserts. */
  function Insert(sorted: seq<Allocation>, a: Allocation): seq<Allocation> {
    if sorted == [] || Before(sorted[|sorted| - 1], a) then sorted + [a]
    else Insert(sorted[..|sorted| - 1], a) + [sorted[|sorted| - 1]]
  }

  ghost predicate Sorted(s: seq<Allocation>) {
    forall i, j | 0 <= i < j < |s| :: Before(s[i], s[j])
  }

  lemma InitialTotalAppend(s: seq<Allocation>, a: Allocation)
    ensures InitialTotal(s + [a]) == InitialTotal(s) + a.initialAmount
    ensures Holders(s + [a]) == Holders(s) + (if a.initialAmount > 0 then [HolderOf(a)] else [])
  {
    assert (s + [a])[..|s|] == s;
  }

  lemma {:induction false} InsertTotal(sorted: seq<Allocation>, a: Allocation)
    ensures InitialTotal(Insert(sorted, a)) == InitialTotal(sorted) + a.initialAmount
  {
    if sorted == [] || Before(sorted[|sorted| - 1], a) {
      InitialTotalAppend(sorted, a);
    } else {
      var k := |sorted| - 1;
      InsertTotal(sorted[..k], a);
      InitialTotalAppend(Insert(sorted[..k], a), sorted[k]);
    }
  }

  lemma {:induction false} InsertHolder(sorted: seq<Allocation>, a: Allocation)
    requires a.initialAmount > 0
    ensures multiset(Holders(Insert(sorted, a))) == multiset(Holders(sorted)) + multiset{HolderOf(a)}
  {
    if sorted == [] || Before(sorted[|sorted| - 1], a) {
      InitialTotalAppend(sorted, a);
    } else {
      var k := |sorted| - 1;
      InsertHolder(sorted[..k], a);
      InitialTotalAppend(Insert(sorted[..k], a), sorted[k]);
    }
  }

  lemma {:induction false} InsertMembers(sorted: seq<Allocation>, a: Allocation)
    ensures forall x | x in Insert(sorted, a) :: x == a || x in sorted
  {
    if !(sorted == [] || Before(sorted[|sorted| - 1], a)) {
      InsertMembers(sorted[..|sorted| - 1], a);
    }
  }

  lemma {:induction false} InsertSorts(sorted: seq<Allocation>, a: Allocation)
    requires Sorted(sorted)
    ensures Sorted(Insert(sorted, a))
  {
    if !(sorted == [] || Before(sorted[|sorted| - 1], a)) {
      var k := |sorted| - 1;
      InsertSorts(sorted[..k], a);
      InsertMembers(sorted[..k], a);
      var rest := Insert(sorted[..k], a);
      forall i | 0 <= i < |rest| ensures Before(rest[i], sorted[k]) {
        assert rest[i] in rest;
      }
    }
  }

  ghost predicate AllPositive(s: seq<Allocation>) {
    forall x | x in s :: x.initialAmount > 0
  }

  method SortPositive(allocations: seq<Allocation>) returns (sorted: seq<Allocation>)
    ensures Sorted(sorted) && AllPositive(sorted)
    ensures InitialTotal(sorted) == InitialTotal(allocations)
    ensures multiset(Holders(sorted)) == multiset(Holders(allocations))
  {
    sorted := [];
    for i := 0 to |allocations|
      invariant Sorted(sorted) && AllPositive(sorted)
      invariant InitialTotal(sorted) == InitialTotal(allocations[..i])
      invariant multiset(Holders(sorted)) == multiset(Holders(allocations[..i]))
    {
      assert allocations[..i + 1] == allocations[..i] + [allocations[i]];
      InitialTotalAppend(allocations[..i], allocations[i]);
      if allocations[i].initialAmount > 0 {
        InsertSorts(sorted, allocations[i]);
        InsertMembers(sorted, allocations[i]);
        InsertTotal(sorted, allocations[i]);
        InsertHolder(sorted, allocations[i]);
        sorted := Insert(sorted, allocations[i]);
      }
    }
    assert allocations[..|allocations|] == allocations;
  }

  ghost predicate InOrder(holders: seq<Holder>) {
    forall i, j | 0 <= i < j < |holders| ::
      holders[i].amount < holders[j].amount || (holders[i].amount == holders[j].amount && holders[i].address <= holders[j].address)
  }

  /** The X-chain part: one holder for every positive initial amount, by amount and then by address. */
  method XChainHolders(allocations: seq<Allocation>) returns (holders: seq<Holder>)
    ensures multiset(holders) == multiset(Holders(allocations)) && InOrder(holders)
    ensures HolderTotal(holders) == InitialTotal(allocations)
  {
    var sorted := SortPositive(allocations);
    holders := ToHolders(sorted);
    HoldersTotal(sorted);
    HoldersInOrder(sorted);
  }

  method ToHolders(sorted: seq<Allocation>) returns (holders: seq<Holder>)
    requires AllPositive(sorted)
    ensures holders == Holders(sorted)
  {
    holders := [];
    for i := 0 to |sorted|
      invariant holders == Holders(sorted[..i])
    {
      assert sorted[i] in sorted;
      assert sorted[..i + 1] == sorted[..i] + [sorted[i]];
      InitialTotalAppend(sorted[..i], sorted[i]);
      holders := holders + [HolderOf(sorted[i])];
    }
    assert sorted[..|sorted|] == sorted;
  }

  lemma {:induction false} HoldersPointwise(sorted: seq<Allocation>)
    requires AllPositive(sorted)
    ensures |Holders(sorted)| == |sorted| && forall k | 0 <= k < |sorted| :: Holders(sorted)[k] == HolderOf(sorted[k])
  {
    if sorted != [] {
      assert sorted[|sorted| - 1] in sorted;
      HoldersPointwise(sorted[..|sorted| - 1]);
    }
  }

  lemma HoldersInOrder(sorted: seq<Allocation>)
    requires AllPositive(sorted) && Sorted(sorted)
    ensures InOrder(Holders(sorted))
  {
    HoldersPointwise(sorted);
    forall i, j | 0 <= i < j < |sorted|
      ensures Before(sorted[i], sorted[j])
    {
    }
  }

  lemma {:induction false} HoldersTotal(allocations: seq<Allocation>)
    ensures HolderTotal(Holders(allocations)) == InitialTotal(allocations)
  {
    if allocations != [] {
      var rest, a := allocations[..|allocations| - 1], allocations[|allocations| - 1];
      HoldersTotal(rest);
      HolderTotalAppend(Holders(rest), HolderOf(a));
    }
  }

  lemma HolderTotalAppend(holders: seq<Holder>, h: Holder)
    ensures HolderTotal(holders + [h]) == HolderTotal(holders) + h.amount
  {
    assert (holders + [h])[..|holders|] == holders;
  }

  // ---------- The P-chain ----------

  lemma PositiveAppend(ps: seq<Piece>, p: Piece)
    ensures Positive(ps + [p]) == Positive(ps) + (if p.amount > 0 then [p] else [])
  {
    assert (ps + [p])[..|ps|] == ps;
  }

  lemma {:induction false} PositiveTotal(ps: seq<Piece>)
    ensures Total(Positive(ps)) == Total(ps)
  {
    if ps != [] {
      PositiveTotal(ps[..|ps| - 1]);
      TotalAppend(Positive(ps[..|ps| - 1]), ps[|ps| - 1]);
    }
  }

  /** Outputs of one allocation that is not staked; empty unlocks are left out. */
  method AddOutputs(utxos0: seq<Piece>, a: Allocation, ghost us: seq<Piece>) returns (utxos: seq<Piece>)
    requires utxos0 == Positive(us)
    ensures utxos == Positive(us + Unlocks(a))
  {
    utxos := utxos0;
    assert us + UnlocksUpTo(a, 0) == us;
    for j := 0 to |a.unlockSchedule|
      invariant utxos == Positive(us + UnlocksUpTo(a, j))
    {
      var p := PieceOf(a, a.unlockSchedule[j]);
      OneMorePositive(us, a, j);
      if p.amount > 0 {
        utxos := utxos + [p];
      }
    }
  }

  lemma OneMorePositive(us: seq<Piece>, a: Allocation, j: nat)
    requires j < |a.unlockSchedule|
    ensures var p := PieceOf(a, a.unlockSchedule[j]);
            Positive(us + UnlocksUpTo(a, j + 1)) == Positive(us + UnlocksUpTo(a, j)) + (if p.amount > 0 then [p] else [])
  {
    var before, p := us + UnlocksUpTo(a, j), PieceOf(a, a.unlockSchedule[j]);
    assert us + UnlocksUpTo(a, j + 1) == before + [p];
    PositiveAppend(before, p);
  }

  lemma StakedOrNot(allocations: seq<Allocation>, i: nat, funds: set<int>)
    requires i < |allocations|
    ensures var a, before, after := allocations[i], allocations[..i], allocations[..i + 1];
            if a.avaxAddr in funds then
              Staked(after, funds) == Staked(before, funds) + [a] && Unstaked(after, funds) == Unstaked(before, funds)
            else
              Staked(after, funds) == Staked(before, funds) && Unstaked(after, funds) == Unstaked(before, funds) + [a]
  {
    assert allocations[..i + 1][..i] == allocations[..i];
  }

  /** Each positive unlock of funds that are not staked becomes one output, in order; the other allocations are set aside. */
  method PChainOutputs(allocations: seq<Allocation>, funds: set<int>) returns (utxos: seq<Piece>, skipped: seq<Allocation>)
    ensures skipped == Staked(allocations, funds)
    ensures utxos == Positive(Flatten(Unstaked(allocations, funds)))
  {
    utxos, skipped := [], [];
    for i := 0 to |allocations|
      invariant skipped == Staked(allocations[..i], funds)
      invariant utxos == Positive(Flatten(Unstaked(allocations[..i], funds)))
    {
      StakedOrNot(allocations, i, funds);
      if allocations[i].avaxAddr in funds {
        skipped := skipped + [allocations[i]];
      } else {
        FlattenAppend(Unstaked(allocations[..i], funds), allocations[i]);
        utxos := AddOutputs(utxos, allocations[i], Flatten(Unstaked(allocations[..i], funds)));
      }
    }
    assert allocations[..|allocations|] == allocations;
  }

  lemma {:induction false} StakedAndUnstaked(allocations: seq<Allocation>, funds: set<int>)
    ensures Total(Flatten(Unstaked(allocations, funds))) + Total(Flatten(Staked(allocations, funds))) == Total(Flatten(allocations))
  {
    if allocations != [] {
      var k := |allocations| - 1;
      var a, before := allocations[k], allocations[..k];
      StakedAndUnstaked(before, funds);
      TotalConcat(Flatten(before), Unlocks(a));
      if a.avaxAddr in funds {
        FlattenAppend(Staked(before, funds), a);
        TotalConcat(Flatten(Staked(before, funds)), Unlocks(a));
      } else {
        FlattenAppend(Unstaked(before, funds), a);
        TotalConcat(Flatten(Unstaked(before, funds)), Unlocks(a));
      }
    }
  }

  method NodeOutputs(group: seq<Allocation>) returns (utxos: seq<Piece>)
    ensures utxos == Flatten(group)
  {
    utxos := [];
    for i := 0 to |group|
      invariant utxos == Flatten(group[..i])
    {
      assert group[..i + 1] == group[..i] + [group[i]];
      FlattenAppend(group[..i], group[i]);
      ghost var before := utxos;
      for j := 0 to |group[i].unlockSchedule|
        invariant utxos == before + UnlocksUpTo(group[i], j)
      {
        utxos := utxos + [PieceOf(group[i], group[i].unlockSchedule[j])];
      }
    }
    assert group[..|group|] == group;
  }

  /** The i-th validator stakes the i-th group; without enough groups indexing fails. */
  method StakeGroups(groups: seq<seq<Allocation>>, numStakers: nat) returns (r: Option<seq<seq<Piece>>>)
    ensures r.None? <==> |groups| < numStakers
    ensures r.Some? ==> |r.value| == numStakers && forall i | 0 <= i < numStakers :: r.value[i] == Flatten(groups[i])
  {
    var staked: seq<seq<Piece>> := [];
    for i := 0 to numStakers
      invariant i <= |groups| && |staked| == i && forall k | 0 <= k < i :: staked[k] == Flatten(groups[k])
    {
      if i >= |groups| {
        return None;
      }
      var utxos := NodeOutputs(groups[i]);
      staked := staked + [utxos];
    }
    return Some(staked);
  }

  lemma {:induction false} StakedConcat(groups: seq<seq<Allocation>>, staked: seq<seq<Piece>>)
    requires |staked| == |groups| && forall i | 0 <= i < |groups| :: staked[i] == Flatten(groups[i])
    ensures Concat(staked) == FlattenGroups(groups)
  {
    if groups != [] {
      StakedConcat(groups[..|groups| - 1], staked[..|groups| - 1]);
    }
  }

  /** All that the genesis hands out. */
  function BuiltTotal(args: Args): nat {
    HolderTotal(args.holders) + Total(args.utxos) + Total(Concat(args.staked))
  }

  /** All validators but the last stake an even share of the total, and the last the rest. */
  ghost predicate EvenStakes(staked: seq<seq<Piece>>, total: nat) {
    var n := |staked|;
    n > 0 ==>
      && (forall i | 0 <= i < n - 1 :: Total(staked[i]) == total / n)
      && Total(staked[n - 1]) == total - (n - 1) * (total / n)
  }

  /** The initial amounts are on the X-chain, the positive unlocks are outputs, and the stakes hold the staked
      unlocks, cut and in order, in even shares. */
  ghost predicate HandsOut(config: Config, args: Args) {
    && multiset(args.holders) == multiset(Holders(config.allocations)) && InOrder(args.holders)
    && HolderTotal(args.holders) == InitialTotal(config.allocations)
    && args.utxos == Positive(Flatten(Unstaked(config.allocations, config.initialStakedFunds)))
    && |args.staked| == config.numStakers
    && (config.numStakers > 0 ==> Cuts(Concat(args.staked), Flatten(Staked(config.allocations, config.initialStakedFunds))))
    && EvenStakes(args.staked, StakedTotal(config))
  }

  /** Genesis hands out the whole supply, except that staked funds vanish if there are no stakers. */
  lemma HandsOutSupply(config: Config, args: Args)
    requires HandsOut(config, args)
    ensures BuiltTotal(args) + (if config.numStakers == 0 then StakedTotal(config) else 0) == Supply(config.allocations)
  {
    var funds := config.initialStakedFunds;
    StakedAndUnstaked(config.allocations, funds);
    PositiveTotal(Flatten(Unstaked(config.allocations, funds)));
    if config.numStakers > 0 {
      CutsKeepShares(Concat(args.staked), Flatten(Staked(config.allocations, funds)), Piece(0, 0, 0, 0));
    }
  }

  /** Validators stake what their groups weigh. */
  lemma StakesAreEven(allocations: seq<Allocation>, numStakers: nat, groups: seq<seq<Allocation>>, staked: seq<seq<Piece>>)
    requires numStakers > 0 && |groups| == |staked| == numStakers && IsSplit(allocations, numStakers, groups)
    requires forall i | 0 <= i < numStakers :: staked[i] == Flatten(groups[i])
    ensures EvenStakes(staked, Total(Flatten(allocations)))
  {
    assert staked[numStakers - 1] == Flatten(groups[numStakers - 1]);
  }

  lemma StakedFits(config: Config)
    ensures StakedTotal(config) <= Supply(config.allocations)
  {
    StakedAndUnstaked(config.allocations, config.initialStakedFunds);
  }

  ghost predicate SupplyTooLarge(config: Config) {
    !config.HasFixedSupply() && Supply(config.allocations) >= TWO_64
  }

  /** There are several stakers, but nothing is staked, so that splitting makes one group only. */
  ghost predicate LacksGroups(config: Config) {
    config.numStakers > 1 && StakedTotal(config) == 0
  }

  /** The amount flow of FromConfig.  It fails exactly when the supply does not fit or nothing is staked
      for several stakers.  On networks without a fixed supply, what it hands out is the initial supply
      exactly when someone stakes the staked funds.  (On the others the staked amounts may wrap around.) */
  method FromConfig(config: Config) returns (r: Outcome)
    ensures r.SupplyOverflows? <==> SupplyTooLarge(config)
    ensures StakedTotal(config) < TWO_64 && !r.SupplyOverflows? ==>
              (r.IndexOutOfRange? <==> LacksGroups(config))
    ensures StakedTotal(config) < TWO_64 && r.Built? ==> HandsOut(config, r.args)
    ensures r.Built? ==> r.args.initialSupply == if config.HasFixedSupply() then 1 else Supply(config.allocations)
    ensures r.Built? && !config.HasFixedSupply() ==>
              (BuiltTotal(r.args) == r.args.initialSupply <==> config.numStakers > 0 || StakedTotal(config) == 0)
  {
    StakedFits(config);
    var holders := XChainHolders(config.allocations);
    var initialSupply := InitialSupply(config);
    if initialSupply.None? {
      return SupplyOverflows;
    }
    var utxos, skipped := PChainOutputs(config.allocations, config.initialStakedFunds);
    var groups := SplitAllocations(skipped, config.numStakers);
    var staked := StakeGroups(groups, config.numStakers);
    if staked.None? {
      return IndexOutOfRange;
    }
    var args := Args(holders, utxos, staked.value, initialSupply.value);
    if StakedTotal(config) < TWO_64 {
      if config.numStakers > 0 {
        StakedConcat(groups, staked.value);
        StakesAreEven(skipped, config.numStakers, groups, staked.value);
      }
      HandsOutSupply(config, args);
    }
    return Built(args);
  }

  const EMPTY_STAKE := Allocation(1, 7, 100, [LockedAmount(0, 0)])

  lemma EmptyStake()
    ensures InitialTotal([EMPTY_STAKE]) == 100 && Total(Flatten([EMPTY_STAKE])) == 0 && Staked([EMPTY_STAKE], {7}) == [EMPTY_STAKE]
  {
    var a, p := EMPTY_STAKE, PieceOf(EMPTY_STAKE, LockedAmount(0, 0));
    assert [a][..0] == [] && [p][..0] == [];
    assert UnlocksUpTo(a, 1) == UnlocksUpTo(a, 0) + [p] == [p];
    assert Flatten([a]) == Flatten([]) + Unlocks(a) == [p];
    assert Total([p]) == Total([]) + 0;
  }

  const EMPTY_STAKE_CONFIG := Config(1, [EMPTY_STAKE], {7}, 2)

  /** What validateConfig checks of the amounts, stakers and staked funds. */
  ghost predicate Validated(config: Config) {
    && (config.HasFixedSupply() || 0 < Supply(config.allocations) < TWO_64)
    && config.numStakers > 0 && config.initialStakedFunds != {}
    && forall x | x in config.initialStakedFunds :: exists i :: 0 <= i < |config.allocations| && config.allocations[i].avaxAddr == x
  }

  /** Two stakers, and one staked address whose only unlock is empty: the configuration is valid, and FromConfig
      fails on it. */
  lemma ValidConfigFails()
    ensures Validated(EMPTY_STAKE_CONFIG) && !SupplyTooLarge(EMPTY_STAKE_CONFIG) && LacksGroups(EMPTY_STAKE_CONFIG)
  {
    EmptyStake();
    assert EMPTY_STAKE_CONFIG.allocations[0].avaxAddr == 7 && 7 in EMPTY_STAKE_CONFIG.initialStakedFunds;
  }
}
