/** Unsigned 64-bit integers and their big-endian packing, as PackUInt64 and ParseUInt64 do it. */
module UInt64 {
  import opened Ids

  const TWO_64: int := 0x1_0000_0000_0000_0000

  type uint64 = x: int | 0 <= x < TWO_64

  type byte = x: int | 0 <= x < 256

  function Add64(a: uint64, b: uint64): uint64 {
    if a + b < TWO_64 then a + b else a + b - TWO_64
  }

  function Sub64(a: uint64, b: uint64): uint64 {
    if b <= a then a - b else a - b + TWO_64
  }

  function BigEndian(v: nat, size: nat): (bytes: seq<byte>)
    ensures |bytes| == size
  {
    if size == 0 then [] else BigEndian(v / 256, size - 1) + [v % 256]
  }

  function ValueOf(bytes: seq<byte>): nat {
    if bytes == [] then 0 else ValueOf(bytes[..|bytes| - 1]) * 256 + bytes[|bytes| - 1]
  }

  /** 256 to the power of `size`. */
  function Limit(size: nat): (limit: nat)
    ensures limit > 0
  {
    if size == 0 then 1 else Limit(size - 1) * 256
  }

  function PackUInt64(v: uint64): seq<byte> {
    BigEndian(v, 8)
  }

  function ParseUInt64(bytes: seq<byte>): Option<uint64> {
    if |bytes| != 8 then None else
    ValueFits(bytes);
    Some(ValueOf(bytes))
  }

  lemma {:induction false} ValueBelowLimit(bytes: seq<byte>)
    ensures ValueOf(bytes) < Limit(|bytes|)
  {
    if bytes != [] {
      ValueBelowLimit(bytes[..|bytes| - 1]);
    }
  }

  lemma LimitOf8()
    ensures Limit(8) == TWO_64
  {
    assert Limit(2) == 0x1_0000;
    assert Limit(4) == 0x1_0000_0000;
    assert Limit(6) == 0x1_0000_0000_0000;
  }

  lemma ValueFits(bytes: seq<byte>)
    requires |bytes| == 8
    ensures ValueOf(bytes) < TWO_64
  {
    ValueBelowLimit(bytes);
    LimitOf8();
  }

  lemma {:induction false} ValueOfBigEndian(v: nat, size: nat)
    requires v < Limit(size)
    ensures ValueOf(BigEndian(v, size)) == v
  {
    if size > 0 {
      ValueOfBigEndian(v / 256, size - 1);
      var bytes := BigEndian(v, size);
      assert bytes[..size - 1] == BigEndian(v / 256, size - 1);
    }
  }

  lemma {:induction false} BigEndianOfValue(bytes: seq<byte>)
    ensures BigEndian(ValueOf(bytes), |bytes|) == bytes
  {
    if bytes != [] {
      var k := |bytes| - 1;
      BigEndianOfValue(bytes[..k]);
      assert ValueOf(bytes) / 256 == ValueOf(bytes[..k]) && ValueOf(bytes) % 256 == bytes[k];
      assert bytes == bytes[..k] + [bytes[k]];
    }
  }

  lemma LargeMultiple(e: int, m: int)
    requires e != 0 && m > 0
    ensures e * m >= m || e * m <= -m
  {
    if e >= 1 {
      assert e * m == (e - 1) * m + m;
    } else {
      assert e * m == -((-1 - e) * m) - m;
    }
  }

  lemma QuotientIs(v: nat, m: nat, q: nat, r: nat)
    requires v == q * m + r && r < m
    ensures v / m == q
  {
    assert v == v / m * m + v % m;
    assert (v / m - q) * m == v / m * m - q * m;
    if v / m != q {
      LargeMultiple(v / m - q, m);
    }
  }

  lemma DivideTwice(v: nat, d: nat)
    requires d > 0
    ensures v / 256 / d == v / (d * 256)
  {
    var w := v / 256;
    assert w == w / d * d + w % d;
    assert w / d * d * 256 == w / d * (d * 256);
    QuotientIs(v, d * 256, w / d, w % d * 256 + v % 256);
  }

  lemma {:induction false} BigEndianAt(v: nat, size: nat, k: nat)
    requires k < size
    ensures BigEndian(v, size)[k] == v / Limit(size - 1 - k) % 256
  {
    if k < size - 1 {
      BigEndianAt(v / 256, size - 1, k);
      DivideTwice(v, Limit(size - 2 - k));
    }
  }

  /** The most significant byte comes first. */
  lemma PackedBytes(v: uint64, k: nat)
    requires k < 8
    ensures |PackUInt64(v)| == 8 && PackUInt64(v)[k] == v / Limit(7 - k) % 256
  {
    BigEndianAt(v, 8, k);
  }

  /** Parsing undoes packing, and packing undoes parsing. */
  lemma PackRoundTrip(v: uint64)
    ensures ParseUInt64(PackUInt64(v)) == Some(v)
  {
    LimitOf8();
    ValueOfBigEndian(v, 8);
  }

  lemma ParseRoundTrip(bytes: seq<byte>)
    ensures ParseUInt64(bytes).Some? <==> |bytes| == 8
    ensures ParseUInt64(bytes).Some? ==> PackUInt64(ParseUInt64(bytes).value) == bytes
  {
    if |bytes| == 8 {
      BigEndianOfValue(bytes);
    }
  }

  lemma PackInjective(v: uint64, w: uint64)
    requires PackUInt64(v) == PackUInt64(w)
    ensures v == w
  {
    PackRoundTrip(v);
    PackRoundTrip(w);
  }
}
