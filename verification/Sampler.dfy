/**
 Sampling without replacement by a sparse Fisher-Yates shuffle.  The random source is a
 parameter: any number is accepted and reduced to the range the shuffle asks for, so every
 outcome of `Uint64Inclusive` is covered.
 */
module Sampler {
  ghost predicate Distinct<T(!new)>(s: seq<T>) {
    forall i, j | 0 <= i < j < |s| :: s[i] != s[j]
  }

  /** Drawing position `d` puts the head in its place and drops the head. */
  ghost function AfterDraw(waiting: seq<nat>, d: nat): seq<nat>
    requires d < |waiting|
  {
    waiting[d := waiting[0]][1..]
  }

  lemma AfterDrawLosesOne(waiting: seq<nat>, d: nat)
    requires d < |waiting| && Distinct(waiting)
    ensures Distinct(AfterDraw(waiting, d))
    ensures forall v :: v in AfterDraw(waiting, d) <==> v in waiting && v != waiting[d]
  {
    var after := AfterDraw(waiting, d);
    forall v | v in waiting && v != waiting[d] ensures v in after {
      var k :| 0 <= k < |waiting| && waiting[k] == v;
      assert if k == 0 then after[d - 1] == v else after[k - 1] == v;
    }
  }

  /** What a slot of the shuffle holds; untouched slots hold their own number. */
  function Slot(drawn: map<nat, nat>, i: nat): nat {
    if i in drawn then drawn[i] else i
  }

  /** The slots from `drawsCount` on hold the waiting values. */
  ghost predicate Holds(drawn: map<nat, nat>, drawsCount: nat, waiting: seq<nat>) {
    forall k | 0 <= k < |waiting| :: waiting[k] == Slot(drawn, drawsCount + k)
  }

  /** Each value below `length` was either seen or waits, exactly once. */
  ghost predicate Partition(length: nat, seen: set<nat>, waiting: seq<nat>) {
    && Distinct(waiting)
    && (forall v | v in waiting :: v < length && v !in seen)
    && (forall v: nat | v < length :: v in seen || v in waiting)
    && (forall v | v in seen :: v < length)
  }

  lemma DrawHolds(drawn: map<nat, nat>, drawsCount: nat, waiting: seq<nat>, d: nat)
    requires Holds(drawn, drawsCount, waiting) && d < |waiting|
    ensures Holds(drawn[drawsCount + d := Slot(drawn, drawsCount)], drawsCount + 1, AfterDraw(waiting, d))
  {
    var drawn', after := drawn[drawsCount + d := Slot(drawn, drawsCount)], AfterDraw(waiting, d);
    forall k | 0 <= k < |after|
      ensures after[k] == Slot(drawn', drawsCount + 1 + k)
    {
      assert after[k] == if k + 1 == d then waiting[0] else waiting[k + 1];
      assert waiting[k + 1] == Slot(drawn, drawsCount + (k + 1)) && waiting[0] == Slot(drawn, drawsCount + 0);
    }
  }

  lemma DrawPartitions(length: nat, seen: set<nat>, waiting: seq<nat>, d: nat)
    requires Partition(length, seen, waiting) && d < |waiting|
    ensures Partition(length, seen + {waiting[d]}, AfterDraw(waiting, d))
  {
    AfterDrawLosesOne(waiting, d);
  }

  class Uniform {
    const length: nat
    var drawn: map<nat, nat>
    var drawsCount: nat

    /** The values handed out so far, and the others in the order of their slots. */
    ghost var seen: set<nat>
    ghost var waiting: seq<nat>

    ghost predicate Valid()
      reads this
    {
      drawsCount + |waiting| == length && Holds(drawn, drawsCount, waiting) && Partition(length, seen, waiting)
    }

    constructor (length: nat)
      ensures Valid() && this.length == length && seen == {} && drawsCount == 0
    {
      this.length := length;
      drawn := map[];
      drawsCount := 0;
      seen := {};
      waiting := seq(length, i => i);
      new;
      forall v: nat | v < length ensures v in waiting {
        assert waiting[v] == v;
      }
    }

    /** The value that a random number draws. */
    ghost function Draws(random: nat): nat
      requires Valid() && drawsCount < length
      reads this
    {
      waiting[random % |waiting|]
    }

    /** The next value, distinct from all earlier ones; it fails only when every value was handed out. */
    method Next(random: nat) returns (value: nat, hasNext: bool)
      requires Valid()
      modifies this
      ensures Valid()
      ensures hasNext <==> old(drawsCount) < length
      ensures hasNext ==> value < length && value !in old(seen) && seen == old(seen) + {value}
      ensures hasNext ==> value == old(Draws(random)) && drawsCount == old(drawsCount) + 1
      ensures !hasNext ==> seen == old(seen) && forall v: nat | v < length :: v in seen
    {
      if drawsCount >= length {
        return 0, false;
      }
      var draw := random % (length - drawsCount) + drawsCount;
      ghost var d := draw - drawsCount;
      DrawHolds(drawn, drawsCount, waiting, d);
      DrawPartitions(length, seen, waiting, d);
      value := Slot(drawn, draw);
      assert value == waiting[d] && waiting[d] in waiting;
      drawn := drawn[draw := Slot(drawn, drawsCount)];
      waiting, seen := AfterDraw(waiting, d), seen + {value};
      drawsCount := drawsCount + 1;
      hasNext := true;
    }
  }

  /** Of the numbers below the count of values not handed out yet, exactly one draws each of these values. */
  lemma EveryValueCanBeDrawn(sampler: Uniform, value: nat) returns (random: nat)
    requires sampler.Valid() && value < sampler.length && value !in sampler.seen
    ensures sampler.drawsCount < sampler.length && random < sampler.length - sampler.drawsCount
    ensures sampler.Draws(random) == value
    ensures forall r: nat | r < sampler.length - sampler.drawsCount && r != random :: sampler.Draws(r) != value
  {
    random := PositionOf(sampler.length, sampler.seen, sampler.waiting, value);
    assert forall r: nat | r < |sampler.waiting| :: r % |sampler.waiting| == r;
  }

  lemma PositionOf(length: nat, seen: set<nat>, waiting: seq<nat>, value: nat) returns (k: nat)
    requires Partition(length, seen, waiting) && value < length && value !in seen
    ensures k < |waiting| && waiting[k] == value
    ensures forall r: nat | r < |waiting| && r != k :: waiting[r] != value
  {
    k :| k < |waiting| && waiting[k] == value;
  }
}
