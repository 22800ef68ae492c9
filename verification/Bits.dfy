/**
 Comparing bit ranges of 256-bit identifiers by masks, against comparing them bit by bit.
 The source masks bytes widened to `int`; since the bytes have eight bits, so do the masks here.
 */
module Bits {
  const NUM_BITS := 256
  const BITS_PER_BYTE := 8
  const ID_LEN := 32

  type ID = bytes: seq<bv8> | |bytes| == ID_LEN witness seq(ID_LEN, _ => 0)

  // ---------- One byte ----------

  function BitOf(b: bv8, j: nat): bv8
    requires j < BITS_PER_BYTE
  {
    (b >> j) & 1
  }

  /** 1...10...0 with `k` zeros. */
  function StartMask(k: nat): bv8
    requires k <= BITS_PER_BYTE
  {
    0xFF << k
  }

  /** 0...01...1 with `k + 1` ones. */
  function StopMask(k: nat): bv8
    requires k < BITS_PER_BYTE
  {
    (1 << (k + 1)) - 1
  }

  function TrailingZeros8(b: bv8): nat {
    if b & 1 != 0 then 0 else if b & 2 != 0 then 1 else if b & 4 != 0 then 2 else if b & 8 != 0 then 3
    else if b & 16 != 0 then 4 else if b & 32 != 0 then 5 else if b & 64 != 0 then 6 else if b & 128 != 0 then 7 else 8
  }

  lemma AndBits(x: bv8, y: bv8, j: nat)
    requires j < BITS_PER_BYTE
    ensures BitOf(x & y, j) == if BitOf(x, j) == 1 then BitOf(y, j) else 0
  {
    if j == 0 {} else if j == 1 {} else if j == 2 {} else if j == 3 {} else if j == 4 {} else if j == 5 {} else if j == 6 {} else {}
  }

  lemma XorBits(x: bv8, y: bv8, j: nat)
    requires j < BITS_PER_BYTE
    ensures BitOf(x ^ y, j) == 0 <==> BitOf(x, j) == BitOf(y, j)
  {
    var a, b := x >> j, y >> j;
    assert (x ^ y) >> j == a ^ b by {
      if j == 0 {} else if j == 1 {} else if j == 2 {} else if j == 3 {} else if j == 4 {} else if j == 5 {} else if j == 6 {} else {}
    }
    LowBitOfXor(a, b);
  }

  lemma LowBitOfXor(a: bv8, b: bv8)
    ensures (a ^ b) & 1 == 0 <==> a & 1 == b & 1
  {
  }

  lemma SameBits(x: bv8, y: bv8)
    requires forall j: nat | j < BITS_PER_BYTE :: BitOf(x, j) == BitOf(y, j)
    ensures x == y
  {
    assert BitOf(x, 0) == BitOf(y, 0) && BitOf(x, 1) == BitOf(y, 1) && BitOf(x, 2) == BitOf(y, 2) && BitOf(x, 3) == BitOf(y, 3);
    assert BitOf(x, 4) == BitOf(y, 4) && BitOf(x, 5) == BitOf(y, 5) && BitOf(x, 6) == BitOf(y, 6) && BitOf(x, 7) == BitOf(y, 7);
  }

  lemma StartMaskBits(k: nat, j: nat)
    requires k <= BITS_PER_BYTE && j < BITS_PER_BYTE
    ensures BitOf(StartMask(k), j) == if k <= j then 1 else 0
  {
    if k == 0 {} else if k == 1 {} else if k == 2 {} else if k == 3 {} else if k == 4 {} else if k == 5 {} else if k == 6 {} else if k == 7 {} else {}
  }

  lemma StopMaskBits(k: nat, j: nat)
    requires k < BITS_PER_BYTE && j < BITS_PER_BYTE
    ensures BitOf(StopMask(k), j) == if j <= k then 1 else 0
  {
    if k == 0 {} else if k == 1 {} else if k == 2 {} else if k == 3 {} else if k == 4 {} else if k == 5 {} else if k == 6 {} else {}
  }

  lemma TrailingZerosIsLeastBit(b: bv8)
    requires b != 0
    ensures TrailingZeros8(b) < BITS_PER_BYTE && BitOf(b, TrailingZeros8(b)) != 0
    ensures forall j: nat | j < TrailingZeros8(b) :: BitOf(b, j) == 0
  {
    assert BitOf(b, 0) != 0 <==> b & 1 != 0;
    assert BitOf(b, 1) != 0 <==> b & 2 != 0;
    assert BitOf(b, 2) != 0 <==> b & 4 != 0;
    assert BitOf(b, 3) != 0 <==> b & 8 != 0;
    assert BitOf(b, 4) != 0 <==> b & 16 != 0;
    assert BitOf(b, 5) != 0 <==> b & 32 != 0;
    assert BitOf(b, 6) != 0 <==> b & 64 != 0;
    assert BitOf(b, 7) != 0 <==> b & 128 != 0;
  }

  /** The mask selects exactly the bits from `lo` to `hi`. */
  ghost predicate Selects(mask: bv8, lo: nat, hi: nat) {
    forall j: nat | j < BITS_PER_BYTE :: BitOf(mask, j) == if lo <= j <= hi then 1 else 0
  }

  ghost predicate AgreeOn(x: bv8, y: bv8, lo: nat, hi: nat)
    requires hi < BITS_PER_BYTE
  {
    forall j | lo <= j <= hi :: BitOf(x, j) == BitOf(y, j)
  }

  lemma StartMaskSelects(lo: nat)
    requires lo <= BITS_PER_BYTE
    ensures Selects(StartMask(lo), lo, 7)
  {
    forall j: nat | j < BITS_PER_BYTE
      ensures BitOf(StartMask(lo), j) == if lo <= j <= 7 then 1 else 0
    {
      StartMaskBits(lo, j);
    }
  }

  lemma StopMaskSelects(hi: nat)
    requires hi < BITS_PER_BYTE
    ensures Selects(StopMask(hi), 0, hi)
  {
    forall j: nat | j < BITS_PER_BYTE
      ensures BitOf(StopMask(hi), j) == if 0 <= j <= hi then 1 else 0
    {
      StopMaskBits(hi, j);
    }
  }

  /** Two masks together select the bits that both do. */
  lemma BothSelect(start: bv8, stop: bv8, both: bv8, lo: nat, hi: nat)
    requires Selects(start, lo, 7) && Selects(stop, 0, hi) && hi < BITS_PER_BYTE && both == start & stop
    ensures Selects(both, lo, hi)
  {
    forall j: nat | j < BITS_PER_BYTE
      ensures BitOf(both, j) == if lo <= j <= hi then 1 else 0
    {
      AndBits(start, stop, j);
    }
  }

  lemma MaskedBits(mask: bv8, x: bv8, masked: bv8, lo: nat, hi: nat)
    requires Selects(mask, lo, hi) && masked == mask & x
    ensures forall j: nat | j < BITS_PER_BYTE :: BitOf(masked, j) == if lo <= j <= hi then BitOf(x, j) else 0
  {
    forall j: nat | j < BITS_PER_BYTE
      ensures BitOf(masked, j) == if lo <= j <= hi then BitOf(x, j) else 0
    {
      AndBits(mask, x, j);
    }
  }

  /** Bytes differ exactly when the trailing zeros of their difference lead to the first bit in which they do. */
  lemma FirstDifferingBit(x: bv8, y: bv8)
    requires x != y
    ensures var t := TrailingZeros8(x ^ y);
            t < BITS_PER_BYTE && BitOf(x, t) != BitOf(y, t) && forall j: nat | j < t :: BitOf(x, j) == BitOf(y, j)
  {
    var t := TrailingZeros8(x ^ y);
    NonZeroXor(x, y);
    TrailingZerosIsLeastBit(x ^ y);
    XorBits(x, y, t);
    forall j: nat | j < t
      ensures BitOf(x, j) == BitOf(y, j)
    {
      XorBits(x, y, j);
    }
  }

  lemma NonZeroXor(x: bv8, y: bv8)
    ensures x ^ y == 0 <==> x == y
  {
  }

  /** Bit `t` is the first from `lo` on in which the bytes differ. */
  ghost predicate FirstDiffers(x: bv8, y: bv8, lo: nat, t: nat) {
    && lo <= t < BITS_PER_BYTE && BitOf(x, t) != BitOf(y, t)
    && forall j | lo <= j < t :: BitOf(x, j) == BitOf(y, j)
  }

  /** Masked bytes are equal exactly when the selected bits agree. */
  lemma MaskedEquality(mask: bv8, x: bv8, y: bv8, a: bv8, b: bv8, lo: nat, hi: nat)
    requires hi < BITS_PER_BYTE && Selects(mask, lo, hi) && a == mask & x && b == mask & y
    ensures a == b <==> AgreeOn(x, y, lo, hi)
  {
    MaskedBits(mask, x, a, lo, hi);
    MaskedBits(mask, y, b, lo, hi);
    if AgreeOn(x, y, lo, hi) {
      SameBits(a, b);
    }
    if a == b {
      forall j | lo <= j <= hi
        ensures BitOf(x, j) == BitOf(y, j)
      {
        assert BitOf(a, j) == BitOf(b, j);
      }
    }
  }

  /** Otherwise the trailing zeros of their difference lead to the first selected bit that differs. */
  lemma MaskedDifference(mask: bv8, x: bv8, y: bv8, a: bv8, b: bv8, t: nat, lo: nat, hi: nat)
    requires hi < BITS_PER_BYTE && Selects(mask, lo, hi) && a == mask & x && b == mask & y
    requires a != b && t == TrailingZeros8(a ^ b)
    ensures t <= hi && FirstDiffers(x, y, lo, t)
  {
    MaskedBits(mask, x, a, lo, hi);
    MaskedBits(mask, y, b, lo, hi);
    FirstDifferingBit(a, b);
    forall j | lo <= j < t
      ensures BitOf(x, j) == BitOf(y, j)
    {
      assert BitOf(a, j) == BitOf(b, j);
    }
  }

  /** The masks for a range that starts at bit `lo` of its first byte and stops at bit `hi` of its last. */
  method Masks(lo: nat, hi: nat) returns (start: bv8, stop: bv8, both: bv8)
    requires lo <= BITS_PER_BYTE && hi < BITS_PER_BYTE
    ensures Selects(start, lo, 7) && Selects(stop, 0, hi) && Selects(both, lo, hi)
  {
    start, stop := StartMask(lo), StopMask(hi);
    both := start & stop;
    StartMaskSelects(lo);
    StopMaskSelects(hi);
    BothSelect(start, stop, both, lo, hi);
  }

  /** The first selected bit in which two bytes differ. */
  method FirstMaskedBit(mask: bv8, x: bv8, y: bv8, ghost lo: nat, ghost hi: nat) returns (bit: nat, found: bool)
    requires hi < BITS_PER_BYTE && Selects(mask, lo, hi)
    ensures found <==> !AgreeOn(x, y, lo, hi)
    ensures found ==> bit <= hi && FirstDiffers(x, y, lo, bit)
  {
    var b1, b2 := mask & x, mask & y;
    MaskedEquality(mask, x, y, b1, b2, lo, hi);
    if b1 == b2 {
      return 0, false;
    }
    bit := TrailingZeros8(b1 ^ b2);
    MaskedDifference(mask, x, y, b1, b2, bit, lo, hi);
    found := true;
  }

  /** The first bit in which two bytes differ. */
  method FirstBit(x: bv8, y: bv8) returns (bit: nat, found: bool)
    ensures found <==> !AgreeOn(x, y, 0, 7)
    ensures found ==> FirstDiffers(x, y, 0, bit)
  {
    if x == y {
      return 0, false;
    }
    FirstDifferingBit(x, y);
    return TrailingZeros8(x ^ y), true;
  }

  // ---------- Identifiers ----------

  function Bit(id: ID, i: nat): bv8
    requires i < NUM_BITS
  {
    BitOf(id[i / BITS_PER_BYTE], i % BITS_PER_BYTE)
  }

  ghost predicate Agree(id1: ID, id2: ID, start: nat, stop: nat)
    requires stop <= NUM_BITS
  {
    forall i | start <= i < stop :: Bit(id1, i) == Bit(id2, i)
  }

  lemma BitInByte(id: ID, k: nat, j: nat)
    requires k < ID_LEN && j < BITS_PER_BYTE
    ensures k * BITS_PER_BYTE + j < NUM_BITS && Bit(id, k * BITS_PER_BYTE + j) == BitOf(id[k], j)
  {
    var i := k * BITS_PER_BYTE + j;
    assert i / BITS_PER_BYTE == k && i % BITS_PER_BYTE == j;
  }

  lemma AgreeInByte(id1: ID, id2: ID, k: nat, lo: nat, hi: nat)
    requires k < ID_LEN && hi < BITS_PER_BYTE
    ensures AgreeOn(id1[k], id2[k], lo, hi) <==> Agree(id1, id2, k * BITS_PER_BYTE + lo, k * BITS_PER_BYTE + hi + 1)
  {
    var from, to := k * BITS_PER_BYTE + lo, k * BITS_PER_BYTE + hi + 1;
    if AgreeOn(id1[k], id2[k], lo, hi) {
      forall i | from <= i < to
        ensures Bit(id1, i) == Bit(id2, i)
      {
        var j := i - k * BITS_PER_BYTE;
        BitInByte(id1, k, j);
        BitInByte(id2, k, j);
        assert BitOf(id1[k], j) == BitOf(id2[k], j);
      }
    }
    if Agree(id1, id2, from, to) {
      forall j | lo <= j <= hi
        ensures BitOf(id1[k], j) == BitOf(id2[k], j)
      {
        BitInByte(id1, k, j);
        BitInByte(id2, k, j);
        assert Bit(id1, k * BITS_PER_BYTE + j) == Bit(id2, k * BITS_PER_BYTE + j);
      }
    }
  }

  lemma AgreeInBytes(id1: ID, id2: ID, from: nat, to: nat)
    requires from <= to <= ID_LEN
    ensures id1[from..to] == id2[from..to] <==> Agree(id1, id2, from * BITS_PER_BYTE, to * BITS_PER_BYTE)
  {
    if id1[from..to] == id2[from..to] {
      forall i | from * BITS_PER_BYTE <= i < to * BITS_PER_BYTE
        ensures Bit(id1, i) == Bit(id2, i)
      {
        var k := i / BITS_PER_BYTE;
        assert id1[from..to][k - from] == id2[from..to][k - from];
      }
    }
    if Agree(id1, id2, from * BITS_PER_BYTE, to * BITS_PER_BYTE) {
      forall k | from <= k < to
        ensures id1[k] == id2[k]
      {
        AgreeInByte(id1, id2, k, 0, 7);
        SameBits(id1[k], id2[k]);
      }
    }
  }

  lemma AgreeInThreeParts(id1: ID, id2: ID, start: nat, a: nat, b: nat, stop: nat)
    requires start <= a <= b <= stop <= NUM_BITS
    ensures Agree(id1, id2, start, stop) <==> Agree(id1, id2, start, a) && Agree(id1, id2, a, b) && Agree(id1, id2, b, stop)
  {
  }

  // ---------- The source's functions ----------

  /** What a function returns, or that it indexes an identifier out of range. */
  datatype Outcome<T> = Returned(value: T) | OutOfRange

  /** The quotient of an int by 8, which the source truncates towards zero. */
  function ByteIndex(i: int): int {
    if i >= 0 then i / BITS_PER_BYTE else -(-i / BITS_PER_BYTE)
  }

  /** By how much the start mask is shifted.  A negative remainder is a huge unsigned number, and everything is
      shifted out. */
  function StartShift(start: int): nat {
    if start >= 0 then start % BITS_PER_BYTE else if start % BITS_PER_BYTE == 0 then 0 else BITS_PER_BYTE
  }

  function EqualSubset(start: int, stop: int, id1: ID, id2: ID): Outcome<bool> {
    var last := stop - 1;
    if start > last || last < 0 then Returned(true)
    else if last >= NUM_BITS then Returned(false)
    else
      var startIndex, stopIndex := ByteIndex(start), last / BITS_PER_BYTE;
      if startIndex + 1 < stopIndex && startIndex + 1 < 0 then OutOfRange
      else if startIndex + 1 < stopIndex && id1[startIndex + 1..stopIndex] != id2[startIndex + 1..stopIndex] then Returned(false)
      else if startIndex < 0 then OutOfRange
      else
        var startMask, stopMask := StartMask(StartShift(start)), StopMask(last % BITS_PER_BYTE);
        Returned(EqualEnds(startIndex, stopIndex, startMask, stopMask, startMask & stopMask, id1, id2))
  }

  predicate EqualEnds(startIndex: nat, stopIndex: nat, startMask: bv8, stopMask: bv8, mask: bv8, id1: ID, id2: ID)
    requires startIndex <= stopIndex < ID_LEN
  {
    if startIndex == stopIndex then
      SameUnder(mask, id1[startIndex], id2[startIndex])
    else
      SameUnder(startMask, id1[startIndex], id2[startIndex]) && SameUnder(stopMask, id1[stopIndex], id2[stopIndex])
  }

  predicate SameUnder(mask: bv8, x: bv8, y: bv8) {
    mask & x == mask & y
  }

  lemma MaskedByteAgrees(mask: bv8, id1: ID, id2: ID, k: nat, lo: nat, hi: nat)
    requires k < ID_LEN && hi < BITS_PER_BYTE && Selects(mask, lo, hi)
    ensures SameUnder(mask, id1[k], id2[k]) <==> Agree(id1, id2, k * BITS_PER_BYTE + lo, k * BITS_PER_BYTE + hi + 1)
  {
    MaskedEquality(mask, id1[k], id2[k], mask & id1[k], mask & id2[k], lo, hi);
    AgreeInByte(id1, id2, k, lo, hi);
  }

  /** The ends agree: together with the bytes between, the whole range does. */
  lemma EqualEndsAgree(p: nat, q: nat, startMask: bv8, stopMask: bv8, mask: bv8, id1: ID, id2: ID, lo: nat, hi: nat)
    requires p <= q < ID_LEN && lo <= BITS_PER_BYTE && hi < BITS_PER_BYTE
    requires Selects(startMask, lo, 7) && Selects(stopMask, 0, hi) && Selects(mask, lo, hi)
    ensures EqualEnds(p, q, startMask, stopMask, mask, id1, id2) && (p + 1 < q ==> id1[p + 1..q] == id2[p + 1..q]) <==>
            Agree(id1, id2, p * BITS_PER_BYTE + lo, q * BITS_PER_BYTE + hi + 1)
  {
    if p == q {
      MaskedByteAgrees(mask, id1, id2, p, lo, hi);
    } else {
      MaskedByteAgrees(startMask, id1, id2, p, lo, 7);
      AgreeInBytes(id1, id2, p + 1, q);
      MaskedByteAgrees(stopMask, id1, id2, q, 0, hi);
      EqualPartsAgree(p, q, SameUnder(startMask, id1[p], id2[p]), SameUnder(stopMask, id1[q], id2[q]), id1, id2, lo, hi);
    }
  }

  lemma EqualPartsAgree(p: nat, q: nat, first: bool, last: bool, id1: ID, id2: ID, lo: nat, hi: nat)
    requires p < q < ID_LEN && lo <= BITS_PER_BYTE && hi < BITS_PER_BYTE
    requires first <==> Agree(id1, id2, p * BITS_PER_BYTE + lo, (p + 1) * BITS_PER_BYTE)
    requires last <==> Agree(id1, id2, q * BITS_PER_BYTE, q * BITS_PER_BYTE + hi + 1)
    requires id1[p + 1..q] == id2[p + 1..q] <==> Agree(id1, id2, (p + 1) * BITS_PER_BYTE, q * BITS_PER_BYTE)
    ensures first && last && (p + 1 < q ==> id1[p + 1..q] == id2[p + 1..q]) <==>
            Agree(id1, id2, p * BITS_PER_BYTE + lo, q * BITS_PER_BYTE + hi + 1)
  {
    AgreeInThreeParts(id1, id2, p * BITS_PER_BYTE + lo, (p + 1) * BITS_PER_BYTE, q * BITS_PER_BYTE, q * BITS_PER_BYTE + hi + 1);
  }

  /** From where on the bits count: a negative start within a byte of zero skips the first byte. */
  function From(start: int): nat {
    if start >= 0 then start else BITS_PER_BYTE
  }

  /** What EqualSubset means in bits.  For a start of at least 0 this is agreement of all bits from `start` to `stop`. */
  ghost function EqualMeaning(start: int, stop: int, id1: ID, id2: ID): Outcome<bool> {
    if stop <= start || stop <= 0 then Returned(true)
    else if stop > NUM_BITS then Returned(false)
    else if start > -BITS_PER_BYTE then Returned(Agree(id1, id2, From(start), stop))
    else if start > -2 * BITS_PER_BYTE && !Agree(id1, id2, 0, (stop - 1) / BITS_PER_BYTE * BITS_PER_BYTE) then Returned(false)
    else OutOfRange
  }

  /** Comparing by masks is comparing every bit. */
  lemma EqualSubsetIsBitwise(start: int, stop: int, id1: ID, id2: ID)
    ensures EqualSubset(start, stop, id1, id2) == EqualMeaning(start, stop, id1, id2)
    ensures start >= 0 ==>
              EqualSubset(start, stop, id1, id2) ==
              Returned(stop <= start || (stop <= NUM_BITS && Agree(id1, id2, start, stop)))
  {
    if start < stop && 0 < stop <= NUM_BITS {
      var q, hi := (stop - 1) / BITS_PER_BYTE, (stop - 1) % BITS_PER_BYTE;
      if start > -BITS_PER_BYTE {
        EqualFromFirstByte(start, stop, id1, id2);
      } else if start > -2 * BITS_PER_BYTE {
        assert ByteIndex(start) == -1;
        AgreeInBytes(id1, id2, 0, q);
      } else {
        assert ByteIndex(start) < -1;
      }
    }
  }

  lemma EqualFromFirstByte(start: int, stop: int, id1: ID, id2: ID)
    requires -BITS_PER_BYTE < start < stop && 0 < stop <= NUM_BITS
    ensures EqualSubset(start, stop, id1, id2) == Returned(Agree(id1, id2, From(start), stop))
  {
    var p, q, lo, hi := ByteIndex(start), (stop - 1) / BITS_PER_BYTE, StartShift(start), (stop - 1) % BITS_PER_BYTE;
    assert 0 <= p <= q && p * BITS_PER_BYTE + lo == From(start) && q * BITS_PER_BYTE + hi + 1 == stop;
    EqualUnderMasks(p, q, id1, id2, lo, hi);
    EqualFromByte(start, stop, p, q, lo, hi, id1, id2);
  }

  /** What EqualSubset computes once the indices are known to be in range. */
  lemma EqualFromByte(start: int, stop: int, p: nat, q: nat, lo: nat, hi: nat, id1: ID, id2: ID)
    requires -BITS_PER_BYTE < start < stop && 0 < stop <= NUM_BITS && p <= q < ID_LEN
    requires p == ByteIndex(start) && q == (stop - 1) / BITS_PER_BYTE && lo == StartShift(start) && hi == (stop - 1) % BITS_PER_BYTE
    ensures EqualSubset(start, stop, id1, id2) ==
            Returned(EqualEnds(p, q, StartMask(lo), StopMask(hi), StartMask(lo) & StopMask(hi), id1, id2) &&
                     (p + 1 < q ==> id1[p + 1..q] == id2[p + 1..q]))
  {
  }

  lemma EqualUnderMasks(p: nat, q: nat, id1: ID, id2: ID, lo: nat, hi: nat)
    requires p <= q < ID_LEN && lo <= BITS_PER_BYTE && hi < BITS_PER_BYTE
    ensures EqualEnds(p, q, StartMask(lo), StopMask(hi), StartMask(lo) & StopMask(hi), id1, id2) &&
            (p + 1 < q ==> id1[p + 1..q] == id2[p + 1..q]) <==>
            Agree(id1, id2, p * BITS_PER_BYTE + lo, q * BITS_PER_BYTE + hi + 1)
  {
    var startMask, stopMask := StartMask(lo), StopMask(hi);
    StartMaskSelects(lo);
    StopMaskSelects(hi);
    BothSelect(startMask, stopMask, startMask & stopMask, lo, hi);
    EqualEndsAgree(p, q, startMask, stopMask, startMask & stopMask, id1, id2, lo, hi);
  }

  /** Bit `index` is the first from `from` on in which the identifiers differ. */
  ghost predicate FirstDifference(id1: ID, id2: ID, from: nat, index: nat) {
    from <= index < NUM_BITS && Bit(id1, index) != Bit(id2, index) && Agree(id1, id2, from, index)
  }

  lemma DifferenceInByte(id1: ID, id2: ID, k: nat, lo: nat, bit: nat)
    requires k < ID_LEN && FirstDiffers(id1[k], id2[k], lo, bit)
    ensures FirstDifference(id1, id2, k * BITS_PER_BYTE + lo, k * BITS_PER_BYTE + bit)
  {
    BitInByte(id1, k, bit);
    BitInByte(id2, k, bit);
    if bit > lo {
      AgreeInByte(id1, id2, k, lo, bit - 1);
    }
  }

  lemma LaterDifference(id1: ID, id2: ID, from: nat, middle: nat, index: nat)
    requires from <= middle <= NUM_BITS && Agree(id1, id2, from, middle) && FirstDifference(id1, id2, middle, index)
    ensures FirstDifference(id1, id2, from, index)
  {
  }

  /** The check of one masked byte. */
  method FirstInByte(mask: bv8, id1: ID, id2: ID, k: nat, ghost lo: nat, ghost hi: nat) returns (index: nat, found: bool)
    requires k < ID_LEN && hi < BITS_PER_BYTE && Selects(mask, lo, hi)
    ensures found <==> !Agree(id1, id2, k * BITS_PER_BYTE + lo, k * BITS_PER_BYTE + hi + 1)
    ensures found ==> index <= k * BITS_PER_BYTE + hi && FirstDifference(id1, id2, k * BITS_PER_BYTE + lo, index)
    ensures !found ==> index == 0
  {
    var bit;
    bit, found := FirstMaskedBit(mask, id1[k], id2[k], lo, hi);
    AgreeInByte(id1, id2, k, lo, hi);
    if !found {
      return 0, false;
    }
    DifferenceInByte(id1, id2, k, lo, bit);
    return bit + k * BITS_PER_BYTE, true;
  }

  /** The loop over the bytes between the first and the last. */
  method FirstInBytes(id1: ID, id2: ID, first: nat, last: nat) returns (index: nat, found: bool)
    requires first <= last <= ID_LEN
    ensures found <==> !Agree(id1, id2, first * BITS_PER_BYTE, last * BITS_PER_BYTE)
    ensures found ==> index < last * BITS_PER_BYTE && FirstDifference(id1, id2, first * BITS_PER_BYTE, index)
    ensures !found ==> index == 0
  {
    var i := first;
    while i < last
      invariant first <= i <= last && Agree(id1, id2, first * BITS_PER_BYTE, i * BITS_PER_BYTE)
    {
      var bit;
      bit, found := FirstBit(id1[i], id2[i]);
      AgreeInByte(id1, id2, i, 0, 7);
      if found {
        DifferenceInByte(id1, id2, i, 0, bit);
        LaterDifference(id1, id2, first * BITS_PER_BYTE, i * BITS_PER_BYTE, i * BITS_PER_BYTE + bit);
        return bit + i * BITS_PER_BYTE, true;
      }
      i := i + 1;
    }
    return 0, false;
  }

  /** A difference is found exactly when the range lies within the identifier and EqualSubset says that it is not equal,
      and the bit returned is the first to differ.  From a start of -8 down the identifiers are indexed out of range. */
  method FirstDifferenceSubset(start: int, stop: int, id1: ID, id2: ID) returns (r: Outcome<(nat, bool)>)
    ensures r == OutOfRange <==> start <= -BITS_PER_BYTE && 0 < stop <= NUM_BITS
    ensures r.Returned? ==> (r.value.1 <==> stop <= NUM_BITS && EqualSubset(start, stop, id1, id2) == Returned(false))
    ensures r.Returned? && r.value.1 ==> r.value.0 < stop && FirstDifference(id1, id2, From(start), r.value.0)
    ensures r.Returned? && !r.value.1 ==> r.value.0 == 0
  {
    EqualSubsetIsBitwise(start, stop, id1, id2);
    var last := stop - 1;
    if start > last || last < 0 || last >= NUM_BITS {
      return Returned((0, false));
    }
    if ByteIndex(start) < 0 {
      return OutOfRange;
    }
    var index, found := FirstDifferenceWithin(start, last, id1, id2);
    return Returned((index, found));
  }

  method FirstDifferenceWithin(start: int, last: nat, id1: ID, id2: ID) returns (index: nat, found: bool)
    requires -BITS_PER_BYTE < start <= last < NUM_BITS
    ensures found <==> !Agree(id1, id2, From(start), last + 1)
    ensures found ==> index <= last && FirstDifference(id1, id2, From(start), index)
    ensures !found ==> index == 0
  {
    var startIndex, stopIndex := ByteIndex(start), last / BITS_PER_BYTE;
    var startBit, stopBit := StartShift(start), last % BITS_PER_BYTE;
    assert startIndex * BITS_PER_BYTE + startBit == From(start) && stopIndex * BITS_PER_BYTE + stopBit == last;
    var startMask, stopMask, mask := Masks(startBit, stopBit);
    if startIndex == stopIndex {
      index, found := FirstInByte(mask, id1, id2, startIndex, startBit, stopBit);
      return;
    }
    ghost var a, b := (startIndex + 1) * BITS_PER_BYTE, stopIndex * BITS_PER_BYTE;
    AgreeInThreeParts(id1, id2, From(start), a, b, last + 1);
    index, found := FirstInByte(startMask, id1, id2, startIndex, startBit, 7);
    if found {
      return;
    }
    index, found := FirstInBytes(id1, id2, startIndex + 1, stopIndex);
    if found {
      LaterDifference(id1, id2, From(start), a, index);
      return;
    }
    index, found := FirstInByte(stopMask, id1, id2, stopIndex, 0, stopBit);
    if found {
      LaterDifference(id1, id2, From(start), b, index);
    }
  }
}
