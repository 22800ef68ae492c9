/** Token unlocks as pieces in order, and what it means to cut a list of pieces into smaller ones. */
module Pieces {
  import opened UInt64

  datatype LockedAmount = LockedAmount(amount: uint64, locktime: uint64)

  datatype Allocation = Allocation(ethAddr: int, avaxAddr: int, initialAmount: uint64, unlockSchedule: seq<LockedAmount>)

  /** A locked amount together with its owner. */
  datatype Piece = Piece(ethAddr: int, avaxAddr: int, amount: nat, locktime: uint64) {
    predicate SameKind(other: Piece) {
      ethAddr == other.ethAddr && avaxAddr == other.avaxAddr && locktime == other.locktime
    }
  }

  function PieceOf(a: Allocation, u: LockedAmount): Piece {
    Piece(a.ethAddr, a.avaxAddr, u.amount, u.locktime)
  }

  /** The first `k` unlocks of an allocation. */
  function UnlocksUpTo(a: Allocation, k: nat): (ps: seq<Piece>)
    requires k <= |a.unlockSchedule|
  {
    if k == 0 then [] else UnlocksUpTo(a, k - 1) + [PieceOf(a, a.unlockSchedule[k - 1])]
  }

  function Unlocks(a: Allocation): seq<Piece> {
    UnlocksUpTo(a, |a.unlockSchedule|)
  }

  /** All unlocks of a list of allocations, in order. */
  function Flatten(allocations: seq<Allocation>): seq<Piece> {
    if allocations == [] then [] else
    Flatten(allocations[..|allocations| - 1]) + Unlocks(allocations[|allocations| - 1])
  }

  /** All unlocks of a list of groups of allocations, in order. */
  function FlattenGroups(groups: seq<seq<Allocation>>): seq<Piece> {
    if groups == [] then [] else FlattenGroups(groups[..|groups| - 1]) + Flatten(groups[|groups| - 1])
  }

  function Total(ps: seq<Piece>): nat {
    if ps == [] then 0 else Total(ps[..|ps| - 1]) + ps[|ps| - 1].amount
  }

  /** What one owner gets at one locktime. */
  function Share(ps: seq<Piece>, kind: Piece): nat {
    if ps == [] then 0 else
    Share(ps[..|ps| - 1], kind) + (if ps[|ps| - 1].SameKind(kind) then ps[|ps| - 1].amount else 0)
  }

  /** Leaving out empty pieces, `ps` arises from `us` by cutting each piece of `us` into consecutive
      pieces of the same owner and locktime. */
  ghost predicate Cuts(ps: seq<Piece>, us: seq<Piece>)
    decreases |ps|, |us|
  {
    if ps == [] then
      Total(us) == 0
    else
      var p, ps' := ps[|ps| - 1], ps[..|ps| - 1];
      if p.amount == 0 then
        Cuts(ps', us)
      else if us == [] then
        false
      else
        var u, us' := us[|us| - 1], us[..|us| - 1];
        if u.amount == 0 then
          Cuts(ps, us')
        else
          p.SameKind(u) && p.amount <= u.amount && Cuts(ps', us' + [u.(amount := u.amount - p.amount)])
  }

  lemma TotalAppend(ps: seq<Piece>, p: Piece)
    ensures Total(ps + [p]) == Total(ps) + p.amount
  {
    assert (ps + [p])[..|ps|] == ps;
  }

  lemma {:induction false} TotalConcat(ps: seq<Piece>, qs: seq<Piece>)
    ensures Total(ps + qs) == Total(ps) + Total(qs)
  {
    if qs == [] {
      assert ps + qs == ps;
    } else {
      assert (ps + qs)[..|ps + qs| - 1] == ps + qs[..|qs| - 1];
      TotalConcat(ps, qs[..|qs| - 1]);
    }
  }

  /** Cutting keeps what every owner gets at every locktime, and so the total. */
  lemma {:induction false} CutsKeepShares(ps: seq<Piece>, us: seq<Piece>, kind: Piece)
    requires Cuts(ps, us)
    ensures Share(ps, kind) == Share(us, kind)
    ensures Total(ps) == Total(us)
    decreases |ps|, |us|
  {
    if ps == [] {
      NothingShared(us, kind);
    } else {
      var p, ps' := ps[|ps| - 1], ps[..|ps| - 1];
      if p.amount == 0 {
        CutsKeepShares(ps', us, kind);
      } else {
        var u, us' := us[|us| - 1], us[..|us| - 1];
        if u.amount == 0 {
          CutsKeepShares(ps, us', kind);
        } else {
          var rest := us' + [u.(amount := u.amount - p.amount)];
          CutsKeepShares(ps', rest, kind);
          assert rest[..|rest| - 1] == us';
        }
      }
    }
  }

  lemma {:induction false} NothingShared(us: seq<Piece>, kind: Piece)
    requires Total(us) == 0
    ensures Share(us, kind) == 0
  {
    if us != [] {
      NothingShared(us[..|us| - 1], kind);
    }
  }

  /** An empty piece makes no difference on either side. */
  lemma {:induction false} CutsEmptyUnlock(ps: seq<Piece>, us: seq<Piece>, u: Piece)
    requires Cuts(ps, us) && u.amount == 0
    ensures Cuts(ps, us + [u])
    decreases |ps|
  {
    assert (us + [u])[..|us|] == us;
    if ps != [] && ps[|ps| - 1].amount == 0 {
      CutsEmptyUnlock(ps[..|ps| - 1], us, u);
    }
  }

  /** One more piece is cut off the unlock at the end. */
  lemma CutsOneMore(ps: seq<Piece>, us: seq<Piece>, u: Piece, p: Piece)
    requires Cuts(ps, us + [u]) && p.SameKind(u)
    ensures Cuts(ps + [p], us + [u.(amount := u.amount + p.amount)])
  {
    var us1 := us + [u.(amount := u.amount + p.amount)];
    assert us1[..|us1| - 1] == us;
    assert (ps + [p])[..|ps|] == ps;
    if p.amount > 0 {
      assert us1[|us1| - 1].(amount := u.amount) == u;
    } else {
      assert us1 == us + [u];
    }
  }
}
