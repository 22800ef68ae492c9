/** Splitting the initially staked funds over the genesis validators, and the supply that results. */
module Genesis {
  import opened Pieces
  import opened UInt64

  /** The variables of splitAllocations: finished groups, the group being filled, the allocation being
      copied into it, and the amount in the group. */
  datatype Splitting = Splitting(groups: seq<seq<Allocation>>, node: seq<Allocation>, current: Allocation, amount: uint64) {
    function Pending(): seq<Piece> {
      Flatten(node) + Unlocks(current)
    }
  }

  function Started(a: Allocation): Allocation {
    Allocation(a.ethAddr, a.avaxAddr, 0, [])
  }

  function WithUnlock(a: Allocation, amount: uint64, locktime: uint64): Allocation {
    a.(unlockSchedule := a.unlockSchedule + [LockedAmount(amount, locktime)])
  }

  ghost predicate NothingOnXChain(allocations: seq<Allocation>) {
    forall i | 0 <= i < |allocations| :: allocations[i].initialAmount == 0
  }

  ghost predicate GroupFull(group: seq<Allocation>, weight: nat) {
    Total(Flatten(group)) == weight && NothingOnXChain(group)
  }

  ghost predicate AllFull(groups: seq<seq<Allocation>>, weight: nat) {
    forall g | 0 <= g < |groups| :: GroupFull(groups[g], weight)
  }

  lemma OneMoreFull(groups: seq<seq<Allocation>>, group: seq<Allocation>, weight: nat)
    requires AllFull(groups, weight) && GroupFull(group, weight)
    ensures AllFull(groups + [group], weight)
  {
  }

  /** Where splitting stands: the pieces handed out cut the unlocks consumed, finished groups are full,
      and the open group does not exceed its weight unless it is the last. */
  ghost predicate Progress(s: Splitting, weight: uint64, numSplits: nat, consumed: seq<Piece>) {
    && Cuts(FlattenGroups(s.groups) + s.Pending(), consumed)
    && Total(s.Pending()) == s.amount
    && AllFull(s.groups, weight)
    && NothingOnXChain(s.node) && s.current.initialAmount == 0
    && |s.groups| < numSplits
    && (|s.groups| < numSplits - 1 ==> s.amount <= weight)
  }

  // ---------- Appending ----------

  lemma UnlocksPrefix(a: Allocation, b: Allocation, k: nat)
    requires k <= |a.unlockSchedule| <= |b.unlockSchedule| && b.unlockSchedule[..k] == a.unlockSchedule[..k]
    requires a.ethAddr == b.ethAddr && a.avaxAddr == b.avaxAddr
    ensures UnlocksUpTo(a, k) == UnlocksUpTo(b, k)
  {
    if k > 0 {
      assert b.unlockSchedule[..k][k - 1] == a.unlockSchedule[..k][k - 1];
      assert b.unlockSchedule[..k - 1] == b.unlockSchedule[..k][..k - 1] == a.unlockSchedule[..k - 1];
      UnlocksPrefix(a, b, k - 1);
    }
  }

  lemma WithUnlockAppends(a: Allocation, amount: uint64, locktime: uint64)
    ensures Unlocks(WithUnlock(a, amount, locktime)) == Unlocks(a) + [Piece(a.ethAddr, a.avaxAddr, amount, locktime)]
  {
    UnlocksPrefix(a, WithUnlock(a, amount, locktime), |a.unlockSchedule|);
  }

  lemma FlattenAppend(allocations: seq<Allocation>, a: Allocation)
    ensures Flatten(allocations + [a]) == Flatten(allocations) + Unlocks(a)
  {
    assert (allocations + [a])[..|allocations|] == allocations;
  }

  lemma FlattenGroupsAppend(groups: seq<seq<Allocation>>, g: seq<Allocation>)
    ensures FlattenGroups(groups + [g]) == FlattenGroups(groups) + Flatten(g)
  {
    assert (groups + [g])[..|groups|] == groups;
  }

  // ---------- The loops ----------

  /** Hand out `amount` of the unlock `u` to the open group. */
  function HandOut(s: Splitting, amount: uint64, locktime: uint64): Splitting {
    s.(current := WithUnlock(s.current, amount, locktime), amount := Add64(s.amount, amount))
  }

  /** The group is full: start the next one. */
  function NextGroup(s: Splitting, owner: Allocation): Splitting {
    Splitting(s.groups + [s.node + [s.current]], [], Started(owner), 0)
  }

  lemma HandOutPieces(s: Splitting, amount: uint64, locktime: uint64)
    ensures var p := Piece(s.current.ethAddr, s.current.avaxAddr, amount, locktime);
            var t := HandOut(s, amount, locktime);
            && FlattenGroups(t.groups) + t.Pending() == FlattenGroups(s.groups) + s.Pending() + [p]
            && Total(t.Pending()) == Total(s.Pending()) + amount
  {
    var p := Piece(s.current.ethAddr, s.current.avaxAddr, amount, locktime);
    WithUnlockAppends(s.current, amount, locktime);
    assert HandOut(s, amount, locktime).Pending() == s.Pending() + [p];
    TotalAppend(s.Pending(), p);
  }

  lemma HandOutProgress(s: Splitting, weight: uint64, numSplits: nat, us: seq<Piece>, u: Piece, amount: uint64)
    requires Progress(s, weight, numSplits, us + [u])
    requires u.ethAddr == s.current.ethAddr && u.avaxAddr == s.current.avaxAddr
    requires |s.groups| < numSplits - 1 ==> s.amount + amount <= weight
    requires s.amount + amount < TWO_64
    ensures Progress(HandOut(s, amount, u.locktime), weight, numSplits, us + [u.(amount := u.amount + amount)])
  {
    HandOutPieces(s, amount, u.locktime);
    CutsOneMore(FlattenGroups(s.groups) + s.Pending(), us, u,
                Piece(s.current.ethAddr, s.current.avaxAddr, amount, u.locktime));
  }

  lemma NextGroupPieces(s: Splitting, owner: Allocation)
    ensures var t := NextGroup(s, owner);
            && FlattenGroups(t.groups) + t.Pending() == FlattenGroups(s.groups) + s.Pending()
            && Total(t.Pending()) == 0 && Flatten(s.node + [s.current]) == s.Pending()
  {
    var t := NextGroup(s, owner);
    FlattenAppend(s.node, s.current);
    FlattenGroupsAppend(s.groups, s.node + [s.current]);
    assert t.Pending() == [];
    assert FlattenGroups(t.groups) + [] == FlattenGroups(t.groups);
  }

  lemma NextGroupProgress(s: Splitting, weight: uint64, numSplits: nat, us: seq<Piece>, owner: Allocation)
    requires Progress(s, weight, numSplits, us) && s.amount == weight && |s.groups| < numSplits - 1
    ensures Progress(NextGroup(s, owner), weight, numSplits, us)
  {
    NextGroupPieces(s, owner);
    assert GroupFull(s.node + [s.current], weight);
    OneMoreFull(s.groups, s.node + [s.current], weight);
  }

  lemma AmountBound(s: Splitting, weight: uint64, numSplits: nat, consumed: seq<Piece>)
    requires Progress(s, weight, numSplits, consumed)
    ensures s.amount <= Total(consumed)
  {
    CutsKeepShares(FlattenGroups(s.groups) + s.Pending(), consumed, Piece(0, 0, 0, 0));
    TotalConcat(FlattenGroups(s.groups), s.Pending());
  }

  /** An unlock is being cut, with `rest` of it left; `us` are the unlocks before it. */
  ghost predicate Cutting(s: Splitting, owner: Allocation, unlock: LockedAmount, rest: uint64, weight: uint64, numSplits: nat, us: seq<Piece>) {
    && s.current.ethAddr == owner.ethAddr && s.current.avaxAddr == owner.avaxAddr
    && rest <= unlock.amount && s.amount + rest < TWO_64
    && Progress(s, weight, numSplits, us + [PieceOf(owner, unlock).(amount := unlock.amount - rest)])
  }

  lemma CutStart(s: Splitting, owner: Allocation, unlock: LockedAmount, weight: uint64, numSplits: nat, us: seq<Piece>)
    requires s.current.ethAddr == owner.ethAddr && s.current.avaxAddr == owner.avaxAddr
    requires Total(us) + unlock.amount < TWO_64 && Progress(s, weight, numSplits, us)
    ensures Cutting(s, owner, unlock, unlock.amount, weight, numSplits, us)
  {
    CutsEmptyUnlock(FlattenGroups(s.groups) + s.Pending(), us, PieceOf(owner, unlock).(amount := 0));
    AmountBound(s, weight, numSplits, us);
  }

  lemma FillGroup(s: Splitting, owner: Allocation, weight: uint64, numSplits: nat, us: seq<Piece>, u: Piece)
    requires Progress(s, weight, numSplits, us + [u]) && |s.groups| < numSplits - 1
    requires u.ethAddr == s.current.ethAddr && u.avaxAddr == s.current.avaxAddr
    ensures Progress(NextGroup(HandOut(s, weight - s.amount, u.locktime), owner), weight, numSplits,
                     us + [u.(amount := u.amount + weight - s.amount)])
  {
    var t, more := HandOut(s, weight - s.amount, u.locktime), us + [u.(amount := u.amount + weight - s.amount)];
    HandOutProgress(s, weight, numSplits, us, u, weight - s.amount);
    assert t.amount == weight && t.groups == s.groups && Progress(t, weight, numSplits, more);
    NextGroupProgress(t, weight, numSplits, more, owner);
  }

  lemma CutRound(s: Splitting, owner: Allocation, unlock: LockedAmount, rest: uint64, weight: uint64, numSplits: nat, us: seq<Piece>)
    requires Cutting(s, owner, unlock, rest, weight, numSplits, us)
    requires Add64(s.amount, rest) > weight && |s.groups| < numSplits - 1
    ensures var amountToAdd := Sub64(weight, s.amount);
            Cutting(NextGroup(HandOut(s, amountToAdd, unlock.locktime), owner), owner, unlock, Sub64(rest, amountToAdd),
                    weight, numSplits, us)
  {
    assert s.amount <= weight;
    var amountToAdd := weight - s.amount;
    var u := PieceOf(owner, unlock).(amount := unlock.amount - rest);
    assert Sub64(weight, s.amount) == amountToAdd <= rest && Sub64(rest, amountToAdd) == rest - amountToAdd;
    FillGroup(s, owner, weight, numSplits, us, u);
    assert u.(amount := u.amount + amountToAdd) ==
           PieceOf(owner, unlock).(amount := unlock.amount - (rest - amountToAdd));
  }

  /** The last part of an unlock goes to the open group. */
  lemma CutEnd(s: Splitting, owner: Allocation, unlock: LockedAmount, rest: uint64, weight: uint64, numSplits: nat, us: seq<Piece>)
    requires Cutting(s, owner, unlock, rest, weight, numSplits, us)
    requires Add64(s.amount, rest) <= weight || |s.groups| >= numSplits - 1
    ensures Progress(if rest == 0 then s else HandOut(s, rest, unlock.locktime), weight, numSplits, us + [PieceOf(owner, unlock)])
  {
    var u := PieceOf(owner, unlock).(amount := unlock.amount - rest);
    assert u.(amount := u.amount + rest) == PieceOf(owner, unlock);
    if rest > 0 {
      assert |s.groups| < numSplits - 1 ==> s.amount + rest <= weight;
      HandOutProgress(s, weight, numSplits, us, u, rest);
    }
  }

  /** The innermost loop: cut one unlock at the borders of the groups.  What it promises is promised
      when the amounts `fit` into a uint64; otherwise they wrap around. */
  method CutUnlock(s0: Splitting, owner: Allocation, unlock: LockedAmount, weight: uint64, numSplits: nat,
                   ghost us: seq<Piece>, ghost fit: bool)
    returns (s: Splitting)
    requires s0.current.ethAddr == owner.ethAddr && s0.current.avaxAddr == owner.avaxAddr
    requires fit ==> Total(us) + unlock.amount < TWO_64 && Progress(s0, weight, numSplits, us)
    ensures s.current.ethAddr == owner.ethAddr && s.current.avaxAddr == owner.avaxAddr
    ensures fit ==> Progress(s, weight, numSplits, us + [PieceOf(owner, unlock)])
    ensures |s.groups| > |s0.groups| && fit ==> Total(us) + unlock.amount > 0
  {
    s := s0;
    var rest := unlock.amount;
    if fit {
      CutStart(s, owner, unlock, weight, numSplits, us);
      AmountBound(s, weight, numSplits, us);
    }
    while Add64(s.amount, rest) > weight && |s.groups| < numSplits - 1
      invariant s.current.ethAddr == owner.ethAddr && s.current.avaxAddr == owner.avaxAddr
      invariant fit ==> Cutting(s, owner, unlock, rest, weight, numSplits, us)
      invariant (s == s0 && rest == unlock.amount) || (fit ==> Total(us) + unlock.amount > 0)
      decreases numSplits - |s.groups|
    {
      if fit {
        CutRound(s, owner, unlock, rest, weight, numSplits, us);
      }
      var amountToAdd := Sub64(weight, s.amount);
      s := NextGroup(HandOut(s, amountToAdd, unlock.locktime), owner);
      rest := Sub64(rest, amountToAdd);
    }
    if fit {
      CutEnd(s, owner, unlock, rest, weight, numSplits, us);
    }
    if rest != 0 {
      s := HandOut(s, rest, unlock.locktime);
    }
  }

  // ---------- Whole allocations ----------

  /** One round of the middle loop. */
  method CutOneUnlock(s0: Splitting, a: Allocation, j: nat, weight: uint64, numSplits: nat, ghost us: seq<Piece>, ghost fit: bool)
    returns (s: Splitting)
    requires j < |a.unlockSchedule| && s0.current.ethAddr == a.ethAddr && s0.current.avaxAddr == a.avaxAddr
    requires fit ==> Total(us + Unlocks(a)) < TWO_64 && Progress(s0, weight, numSplits, us + UnlocksUpTo(a, j))
    ensures s.current.ethAddr == a.ethAddr && s.current.avaxAddr == a.avaxAddr
    ensures fit ==> Progress(s, weight, numSplits, us + UnlocksUpTo(a, j + 1))
    ensures fit && |s.groups| > |s0.groups| ==> Total(us + Unlocks(a)) > 0
  {
    ghost var before := us + UnlocksUpTo(a, j);
    UnlockFits(us, a, j);
    s := CutUnlock(s0, a, a.unlockSchedule[j], weight, numSplits, before, fit);
  }

  /** The middle loop: cut the unlocks of one allocation; `us` are the unlocks of those before it. */
  method CutAllocation(s0: Splitting, a: Allocation, weight: uint64, numSplits: nat, ghost us: seq<Piece>, ghost fit: bool)
    returns (s: Splitting)
    requires s0.current == Started(a)
    requires fit ==> Total(us + Unlocks(a)) < TWO_64 && Progress(s0, weight, numSplits, us)
    ensures s.current.unlockSchedule == []
    ensures fit ==> Progress(s, weight, numSplits, us + Unlocks(a))
    ensures fit && |s.groups| > |s0.groups| ==> Total(us + Unlocks(a)) > 0
  {
    s := s0;
    assert us + UnlocksUpTo(a, 0) == us;
    for j := 0 to |a.unlockSchedule|
      invariant s.current.ethAddr == a.ethAddr && s.current.avaxAddr == a.avaxAddr
      invariant fit ==> Progress(s, weight, numSplits, us + UnlocksUpTo(a, j))
      invariant fit && |s.groups| > |s0.groups| ==> Total(us + Unlocks(a)) > 0
    {
      s := CutOneUnlock(s, a, j, weight, numSplits, us, fit);
    }
    if fit {
      ghost var all := us + Unlocks(a);
      KeepAllocation(s, a, weight, numSplits, all);
    }
    s := s.(node := if |s.current.unlockSchedule| > 0 then s.node + [s.current] else s.node, current := Started(a));
  }

  lemma {:induction false} UnlocksMonotone(a: Allocation, j: nat, k: nat)
    requires j <= k <= |a.unlockSchedule|
    ensures Total(UnlocksUpTo(a, j)) <= Total(UnlocksUpTo(a, k))
    decreases k
  {
    if j < k {
      UnlocksMonotone(a, j, k - 1);
      TotalAppend(UnlocksUpTo(a, k - 1), PieceOf(a, a.unlockSchedule[k - 1]));
    }
  }

  /** No prefix of the unlocks adds up to more than all of them. */
  lemma UnlockFits(us: seq<Piece>, a: Allocation, j: nat)
    requires j < |a.unlockSchedule|
    ensures Total(us + UnlocksUpTo(a, j)) + a.unlockSchedule[j].amount <= Total(us + Unlocks(a))
    ensures us + UnlocksUpTo(a, j) + [PieceOf(a, a.unlockSchedule[j])] == us + UnlocksUpTo(a, j + 1)
  {
    TotalConcat(us, UnlocksUpTo(a, j));
    TotalConcat(us, Unlocks(a));
    TotalAppend(UnlocksUpTo(a, j), PieceOf(a, a.unlockSchedule[j]));
    UnlocksMonotone(a, j + 1, |a.unlockSchedule|);
  }

  /** A copied allocation without unlocks may be dropped. */
  lemma KeepAllocation(s: Splitting, a: Allocation, weight: uint64, numSplits: nat, us: seq<Piece>)
    requires Progress(s, weight, numSplits, us)
    ensures Progress(s.(node := if |s.current.unlockSchedule| > 0 then s.node + [s.current] else s.node, current := Started(a)),
                     weight, numSplits, us)
  {
    if |s.current.unlockSchedule| > 0 {
      FlattenAppend(s.node, s.current);
      assert s.(node := s.node + [s.current], current := Started(a)).Pending() == s.Pending();
    } else {
      assert s.(current := Started(a)).Pending() == s.Pending();
    }
  }

  method AddUnlocks(total0: uint64, a: Allocation, ghost us: seq<Piece>, ghost fit: bool) returns (total: uint64)
    requires fit ==> Total(us + Unlocks(a)) < TWO_64 && total0 == Total(us)
    ensures fit ==> total == Total(us + Unlocks(a))
  {
    total := total0;
    assert us + UnlocksUpTo(a, 0) == us;
    for j := 0 to |a.unlockSchedule|
      invariant fit ==> total == Total(us + UnlocksUpTo(a, j))
    {
      UnlockFits(us, a, j);
      TotalAppend(us + UnlocksUpTo(a, j), PieceOf(a, a.unlockSchedule[j]));
      total := Add64(total, a.unlockSchedule[j].amount);
    }
  }

  /** The amount in all unlocks, as the source adds it up. */
  method TotalAmount(allocations: seq<Allocation>) returns (total: uint64)
    ensures Total(Flatten(allocations)) < TWO_64 ==> total == Total(Flatten(allocations))
  {
    total := 0;
    ghost var fit := Total(Flatten(allocations)) < TWO_64;
    for i := 0 to |allocations|
      invariant fit ==> total == Total(Flatten(allocations[..i]))
    {
      FlattenPrefix(allocations, i);
      total := AddUnlocks(total, allocations[i], Flatten(allocations[..i]), fit);
    }
    assert allocations[..|allocations|] == allocations;
  }

  lemma FlattenPrefix(allocations: seq<Allocation>, i: nat)
    requires i < |allocations|
    ensures Flatten(allocations[..i + 1]) == Flatten(allocations[..i]) + Unlocks(allocations[i])
    ensures Total(Flatten(allocations[..i + 1])) <= Total(Flatten(allocations))
  {
    FlattenOneMore(allocations, i);
    FlattenBelowAll(allocations, i + 1);
  }

  lemma FlattenOneMore(allocations: seq<Allocation>, i: nat)
    requires i < |allocations|
    ensures Flatten(allocations[..i + 1]) == Flatten(allocations[..i]) + Unlocks(allocations[i])
  {
    var before := allocations[..i];
    assert allocations[..i + 1] == before + [allocations[i]];
    FlattenAppend(before, allocations[i]);
  }

  lemma FlattenBelowAll(allocations: seq<Allocation>, i: nat)
    requires i <= |allocations|
    ensures Total(Flatten(allocations[..i])) <= Total(Flatten(allocations))
  {
    assert allocations[..|allocations|] == allocations;
    FlattenTotalMonotone(allocations, i, |allocations|);
  }

  lemma {:induction false} FlattenTotalMonotone(allocations: seq<Allocation>, i: nat, k: nat)
    requires i <= k <= |allocations|
    ensures Total(Flatten(allocations[..i])) <= Total(Flatten(allocations[..k]))
    decreases k
  {
    if i < k {
      FlattenTotalMonotone(allocations, i, k - 1);
      FlattenOneMore(allocations, k - 1);
      TotalConcat(Flatten(allocations[..k - 1]), Unlocks(allocations[k - 1]));
    }
  }

  // ---------- The result ----------

  /** The groups hold these unlocks, cut and in order, and nothing that is on the X-chain already. */
  ghost predicate HoldInOrder(groups: seq<seq<Allocation>>, us: seq<Piece>) {
    Cuts(FlattenGroups(groups), us) && forall g | 0 <= g < |groups| :: NothingOnXChain(groups[g])
  }

  /** All groups but the last hold `weight` each and the last holds the rest; all groups exist exactly
      when something is staked or one group was asked for. */
  ghost predicate EvenWeights(groups: seq<seq<Allocation>>, numSplits: nat, total: nat, weight: nat) {
    && 1 <= |groups| <= numSplits
    && (forall g | 0 <= g < |groups| - 1 :: Total(Flatten(groups[g])) == weight)
    && Total(Flatten(groups[|groups| - 1])) == total - (|groups| - 1) * weight
    && (|groups| == numSplits <==> total > 0 || numSplits == 1)
  }

  ghost predicate IsSplit(allocations: seq<Allocation>, numSplits: nat, groups: seq<seq<Allocation>>)
    requires numSplits > 0
  {
    var us := Flatten(allocations);
    HoldInOrder(groups, us) && EvenWeights(groups, numSplits, Total(us), Total(us) / numSplits)
  }

  lemma OneMoreTimes(k: nat, w: nat)
    ensures (k + 1) * w == k * w + w
  {
  }

  lemma {:induction false} FullGroupsTotal(groups: seq<seq<Allocation>>, weight: nat)
    requires forall g | 0 <= g < |groups| :: Total(Flatten(groups[g])) == weight
    ensures Total(FlattenGroups(groups)) == |groups| * weight
  {
    if groups != [] {
      var k := |groups| - 1;
      var full, last := FlattenGroups(groups[..k]), Flatten(groups[k]);
      assert Total(full) == k * weight by {
        FullGroupsTotal(groups[..k], weight);
      }
      assert Total(full + last) == Total(full) + Total(last) by {
        TotalConcat(full, last);
      }
      assert FlattenGroups(groups) == full + last;
      OneMoreTimes(k, weight);
    }
  }

  /** If groups are missing although something is staked, they could not have held it. */
  lemma GroupCount(total: nat, numSplits: nat, full: nat, amount: nat)
    requires numSplits > 0 && full < numSplits && total == full * (total / numSplits) + amount
    requires full < numSplits - 1 ==> amount <= total / numSplits
    ensures full < numSplits - 1 ==> total == 0
  {
    if full < numSplits - 1 {
      var w := total / numSplits;
      assert total == numSplits * w + total % numSplits;
      assert full * w + w == (full + 1) * w;
      assert (numSplits - (full + 1)) * w >= w by { MulMonotone(numSplits - (full + 1), w); }
      assert numSplits * w == (full + 1) * w + (numSplits - (full + 1)) * w;
    }
  }

  lemma MulMonotone(k: nat, w: nat)
    requires k >= 1
    ensures k * w >= w
  {
  }

  /** The full groups and the open one hold all that was consumed. */
  lemma ProgressTotal(s: Splitting, weight: uint64, numSplits: nat, consumed: seq<Piece>)
    requires Progress(s, weight, numSplits, consumed)
    ensures Total(consumed) == |s.groups| * weight + s.amount
  {
    assert Total(FlattenGroups(s.groups)) == |s.groups| * weight by {
      FullGroupsTotal(s.groups, weight);
    }
    assert Total(FlattenGroups(s.groups) + s.Pending()) == Total(consumed) by {
      CutsKeepShares(FlattenGroups(s.groups) + s.Pending(), consumed, Piece(0, 0, 0, 0));
    }
    TotalConcat(FlattenGroups(s.groups), s.Pending());
  }

  lemma ProgressHolds(s: Splitting, weight: uint64, numSplits: nat, us: seq<Piece>)
    requires s.current.unlockSchedule == [] && Progress(s, weight, numSplits, us)
    ensures HoldInOrder(s.groups + [s.node], us)
  {
    assert s.Pending() == Flatten(s.node);
    FlattenGroupsAppend(s.groups, s.node);
  }

  lemma ProgressIsEven(s: Splitting, weight: uint64, numSplits: nat, us: seq<Piece>)
    requires s.current.unlockSchedule == [] && Progress(s, weight, numSplits, us)
    requires |s.groups| < numSplits - 1 ==> Total(us) == 0
    requires |s.groups| > 0 ==> Total(us) > 0
    ensures EvenWeights(s.groups + [s.node], numSplits, Total(us), weight)
  {
    assert s.Pending() == Flatten(s.node);
    ProgressTotal(s, weight, numSplits, us);
  }

  lemma ProgressCount(s: Splitting, weight: uint64, numSplits: nat, us: seq<Piece>)
    requires Progress(s, weight, numSplits, us) && weight == Total(us) / numSplits
    ensures |s.groups| < numSplits - 1 ==> Total(us) == 0
  {
    ProgressTotal(s, weight, numSplits, us);
    GroupCount(Total(us), numSplits, |s.groups|, s.amount);
  }

  lemma SplitIsComplete(allocations: seq<Allocation>, weight: uint64, numSplits: nat, s: Splitting)
    requires numSplits > 0 && s.current.unlockSchedule == []
    requires Progress(s, weight, numSplits, Flatten(allocations)) && weight == Total(Flatten(allocations)) / numSplits
    requires |s.groups| > 0 ==> Total(Flatten(allocations)) > 0
    ensures IsSplit(allocations, numSplits, s.groups + [s.node])
  {
    var us := Flatten(allocations);
    ProgressCount(s, weight, numSplits, us);
    ProgressHolds(s, weight, numSplits, us);
    ProgressIsEven(s, weight, numSplits, us);
  }

  lemma NothingSplitYet(weight: uint64, numSplits: nat)
    requires numSplits > 0
    ensures Progress(Splitting([], [], Allocation(0, 0, 0, []), 0), weight, numSplits, [])
  {
  }

  lemma StartAllocation(s: Splitting, weight: uint64, numSplits: nat, us: seq<Piece>, a: Allocation)
    requires s.current.unlockSchedule == [] && Progress(s, weight, numSplits, us)
    ensures Progress(s.(current := Started(a)), weight, numSplits, us)
  {
    assert s.(current := Started(a)).Pending() == s.Pending();
  }

  /** The outer loop: cut all allocations. */
  method CutAllocations(allocations: seq<Allocation>, weight: uint64, numSplits: nat, ghost fit: bool) returns (s: Splitting)
    requires numSplits > 0 && (fit ==> Total(Flatten(allocations)) < TWO_64)
    ensures s.current.unlockSchedule == []
    ensures fit ==> Progress(s, weight, numSplits, Flatten(allocations))
    ensures fit && |s.groups| > 0 ==> Total(Flatten(allocations)) > 0
  {
    s := Splitting([], [], Allocation(0, 0, 0, []), 0);
    NothingSplitYet(weight, numSplits);
    for i := 0 to |allocations|
      invariant s.current.unlockSchedule == []
      invariant fit ==> Progress(s, weight, numSplits, Flatten(allocations[..i]))
      invariant fit && |s.groups| > 0 ==> Total(Flatten(allocations)) > 0
    {
      FlattenPrefix(allocations, i);
      if fit {
        StartAllocation(s, weight, numSplits, Flatten(allocations[..i]), allocations[i]);
      }
      s := s.(current := Started(allocations[i]));
      s := CutAllocation(s, allocations[i], weight, numSplits, Flatten(allocations[..i]), fit);
    }
    assert allocations[..|allocations|] == allocations;
  }

  /** splitAllocations */
  method SplitAllocations(allocations: seq<Allocation>, numSplits: nat) returns (groups: seq<seq<Allocation>>)
    ensures numSplits == 0 ==> groups == []
    ensures numSplits > 0 && Total(Flatten(allocations)) < TWO_64 ==> IsSplit(allocations, numSplits, groups)
  {
    if numSplits == 0 {
      return [];
    }
    var totalAmount := TotalAmount(allocations);
    ghost var fit := Total(Flatten(allocations)) < TWO_64;
    var nodeWeight: uint64 := totalAmount / numSplits;
    var s := CutAllocations(allocations, nodeWeight, numSplits, fit);
    if fit {
      SplitIsComplete(allocations, nodeWeight, numSplits, s);
    }
    return s.groups + [s.node];
  }
}
