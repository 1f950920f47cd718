/** Bits of 16-bit bands and 8-byte hashes, and the Hamming balls that the band index enumerates. */
module Hamming {

  type Hash = bytes: seq<bv8> | |bytes| == 8 witness [0, 0, 0, 0, 0, 0, 0, 0]

  function Mask(i: nat): bv16
    requires i < 16
  {
    match i
    case 0 => 0x0001
    case 1 => 0x0002
    case 2 => 0x0004
    case 3 => 0x0008
    case 4 => 0x0010
    case 5 => 0x0020
    case 6 => 0x0040
    case 7 => 0x0080
    case 8 => 0x0100
    case 9 => 0x0200
    case 10 => 0x0400
    case 11 => 0x0800
    case 12 => 0x1000
    case 13 => 0x2000
    case 14 => 0x4000
    case 15 => 0x8000
  }

  predicate Bit(x: bv16, i: nat)
    requires i < 16
  {
    x & Mask(i) != 0
  }

  predicate ByteBit(x: bv8, i: nat)
    requires i < 8
  {
    Bit(x as bv16, i)
  }

  function Xor(x: bv16, y: bv16): bv16 {
    x ^ y
  }

  function Bits(x: bv16): set<nat> {
    set i: nat | i < 16 && Bit(x, i)
  }

  function ByteBits(x: bv8): set<nat> {
    set i: nat | i < 8 && ByteBit(x, i)
  }

  /** count_ones of a band and of a byte. */
  function Ones(x: bv16): nat {
    |Bits(x)|
  }

  function ByteOnes(x: bv8): nat {
    |ByteBits(x)|
  }

  function Band(hash: Hash, slot: nat): bv16
    requires slot < 4
  {
    Join(hash[2 * slot], hash[2 * slot + 1])
  }

  /** u16::from_le_bytes */
  function Join(low: bv8, high: bv8): bv16 {
    ((high as bv16) << 8) | (low as bv16)
  }

  function DistanceFrom(left: Hash, right: Hash, from: nat): nat
    requires from <= 8
    decreases 8 - from
  {
    if from == 8 then 0 else ByteOnes(left[from] ^ right[from]) + DistanceFrom(left, right, from + 1)
  }

  /** The sum of differing bits over all bytes. */
  function Distance(left: Hash, right: Hash): nat {
    DistanceFrom(left, right, 0)
  }

  function BandDistance(left: Hash, right: Hash, slot: nat): nat
    requires slot < 4
  {
    Ones(Xor(Band(left, slot), Band(right, slot)))
  }

  // ---------------------------------------------------------------- bits determine the value

  lemma XorMasked(x: bv16, y: bv16, mask: bv16)
    ensures (x ^ y) & mask == (x & mask) ^ (y & mask)
  {
  }

  lemma OneBit(x: bv16, mask: bv16)
    requires mask & (mask - 1) == 0
    ensures x & mask == 0 || x & mask == mask
  {
  }

  lemma MaskIsOneBit(i: nat)
    requires i < 16
    ensures Mask(i) != 0 && Mask(i) & (Mask(i) - 1) == 0
  {
  }

  lemma XorOneBit(u: bv16, v: bv16, mask: bv16)
    requires mask != 0 && (u == 0 || u == mask) && (v == 0 || v == mask)
    ensures u ^ v != 0 <==> (u != 0) != (v != 0)
  {
  }

  lemma XorAt(x: bv16, y: bv16, mask: bv16)
    requires mask != 0 && mask & (mask - 1) == 0
    ensures (x ^ y) & mask != 0 <==> (x & mask != 0) != (y & mask != 0)
  {
    XorMasked(x, y, mask);
    OneBit(x, mask);
    OneBit(y, mask);
    XorOneBit(x & mask, y & mask, mask);
  }

  lemma XorBit(x: bv16, y: bv16, i: nat)
    requires i < 16
    ensures Bit(Xor(x, y), i) <==> Bit(x, i) != Bit(y, i)
  {
    hide Mask;
    MaskIsOneBit(i);
    XorAt(x, y, Mask(i));
  }

  lemma MaskBit(a: nat, i: nat)
    requires a < 16 && i < 16
    ensures Bit(Mask(a), i) <==> a == i
  {
  }

  lemma ZeroByMasks(z: bv16)
    requires z & 0x0001 == 0 && z & 0x0002 == 0 && z & 0x0004 == 0 && z & 0x0008 == 0
    requires z & 0x0010 == 0 && z & 0x0020 == 0 && z & 0x0040 == 0 && z & 0x0080 == 0
    requires z & 0x0100 == 0 && z & 0x0200 == 0 && z & 0x0400 == 0 && z & 0x0800 == 0
    requires z & 0x1000 == 0 && z & 0x2000 == 0 && z & 0x4000 == 0 && z & 0x8000 == 0
    ensures z == 0
  {
  }

  lemma NoBits(z: bv16)
    requires Bits(z) == {}
    ensures z == 0
  {
    assert forall i: nat | i < 16 :: !Bit(z, i) by {
      forall i: nat | i < 16
        ensures !Bit(z, i)
      {
        assert i !in Bits(z);
      }
    }
    assert !Bit(z, 0) && !Bit(z, 1) && !Bit(z, 2) && !Bit(z, 3) && !Bit(z, 4) && !Bit(z, 5) && !Bit(z, 6) && !Bit(z, 7);
    assert !Bit(z, 8) && !Bit(z, 9) && !Bit(z, 10) && !Bit(z, 11) && !Bit(z, 12) && !Bit(z, 13) && !Bit(z, 14) && !Bit(z, 15);
    ZeroByMasks(z);
  }

  lemma XorBits(x: bv16, y: bv16)
    ensures Bits(Xor(x, y)) == (Bits(x) - Bits(y)) + (Bits(y) - Bits(x))
  {
    forall i: nat | i < 16
      ensures Bit(Xor(x, y), i) <==> Bit(x, i) != Bit(y, i)
    {
      XorBit(x, y, i);
    }
    hide Bit, Xor;
  }

  lemma XorZero(x: bv16, y: bv16)
    requires Xor(x, y) == 0
    ensures x == y
  {
  }

  lemma SameBits(x: bv16, y: bv16)
    requires Bits(x) == Bits(y)
    ensures x == y
  {
    XorBits(x, y);
    hide Bits;
    NoBits(Xor(x, y));
    XorZero(x, y);
  }

  lemma MaskBits(a: nat)
    requires a < 16
    ensures Bits(Mask(a)) == {a}
  {
    forall i: nat | i < 16
      ensures Bit(Mask(a), i) <==> a == i
    {
      MaskBit(a, i);
    }
    hide Bit;
  }

  lemma JoinBits(low: bv8, high: bv8, i: nat)
    requires i < 8
    ensures Bit(Join(low, high), i) <==> ByteBit(low, i)
    ensures Bit(Join(low, high), i + 8) <==> ByteBit(high, i)
  {
  }

  // ---------------------------------------------------------------- distances add up

  predicate IsRaised(bits: set<nat>, i: nat) {
    i >= 8 && i - 8 in bits
  }

  function Raised(bits: set<nat>): set<nat> {
    set i: nat | i < 16 && IsRaised(bits, i)
  }

  lemma {:induction false} RaisedSize(low: set<nat>, high: set<nat>)
    requires (forall i | i in low :: i < 8) && (forall i | i in high :: i < 8)
    ensures |low + Raised(high)| == |low| + |high|
    decreases |high|
  {
    if high == {} {
      assert low + Raised(high) == low;
    } else {
      var top :| top in high;
      RaisedSize(low, high - {top});
      RaisedOne(high, top);
      hide Raised;
      assert low + Raised(high) == (low + Raised(high - {top})) + {top + 8};
    }
  }

  lemma RaisedOne(bits: set<nat>, top: nat)
    requires top in bits && forall i | i in bits :: i < 8
    ensures Raised(bits) == Raised(bits - {top}) + {top + 8}
    ensures top + 8 !in Raised(bits - {top})
  {
    assert IsRaised(bits, top + 8);
  }

  lemma JoinOnes(low: bv8, high: bv8)
    ensures Ones(Join(low, high)) == ByteOnes(low) + ByteOnes(high)
  {
    forall i: nat | i < 8
      ensures Bit(Join(low, high), i) <==> ByteBit(low, i)
      ensures Bit(Join(low, high), i + 8) <==> ByteBit(high, i)
    {
      JoinBits(low, high, i);
    }
    hide Bit, ByteBit, Join;
    forall i: nat | i < 16
      ensures i in Bits(Join(low, high)) <==> i in ByteBits(low) + Raised(ByteBits(high))
    {
      if i >= 8 {
        assert Bit(Join(low, high), (i - 8) + 8) <==> ByteBit(high, i - 8);
      }
    }
    assert Bits(Join(low, high)) == ByteBits(low) + Raised(ByteBits(high));
    RaisedSize(ByteBits(low), ByteBits(high));
  }

  lemma JoinXor(l1: bv8, h1: bv8, l2: bv8, h2: bv8)
    ensures Xor(Join(l1, h1), Join(l2, h2)) == Join(l1 ^ l2, h1 ^ h2)
  {
  }

  lemma JoinedDistance(l1: bv8, h1: bv8, l2: bv8, h2: bv8)
    ensures Ones(Xor(Join(l1, h1), Join(l2, h2))) == ByteOnes(l1 ^ l2) + ByteOnes(h1 ^ h2)
  {
    hide Join, Ones, ByteOnes, Xor;
    JoinXor(l1, h1, l2, h2);
    JoinOnes(l1 ^ l2, h1 ^ h2);
  }

  lemma BandDistanceIs(left: Hash, right: Hash, slot: nat)
    requires slot < 4
    ensures BandDistance(left, right, slot)
         == ByteOnes(left[2 * slot] ^ right[2 * slot]) + ByteOnes(left[2 * slot + 1] ^ right[2 * slot + 1])
  {
    hide Join, Ones, ByteOnes, Xor;
    JoinedDistance(left[2 * slot], left[2 * slot + 1], right[2 * slot], right[2 * slot + 1]);
  }

  function BandsFrom(left: Hash, right: Hash, slot: nat): nat
    requires slot <= 4
    decreases 4 - slot
  {
    if slot == 4 then 0 else BandDistance(left, right, slot) + BandsFrom(left, right, slot + 1)
  }

  /** The distance is the sum of the four band distances. */
  lemma {:induction false} DistanceByBands(left: Hash, right: Hash, slot: nat)
    requires slot <= 4
    ensures DistanceFrom(left, right, 2 * slot) == BandsFrom(left, right, slot)
    decreases 4 - slot
  {
    hide BandDistance, ByteOnes;
    if slot < 4 {
      BandDistanceIs(left, right, slot);
      DistanceByBands(left, right, slot + 1);
      assert DistanceFrom(left, right, 2 * slot)
          == ByteOnes(left[2 * slot] ^ right[2 * slot]) + DistanceFrom(left, right, 2 * slot + 1);
    }
  }

  lemma {:induction false} FarBandsAddUp(left: Hash, right: Hash, slot: nat, radius: nat)
    requires slot <= 4 && forall i: nat | slot <= i < 4 :: BandDistance(left, right, i) > radius
    ensures BandsFrom(left, right, slot) >= (4 - slot) * (radius + 1)
    decreases 4 - slot
  {
    if slot < 4 {
      FarBandsAddUp(left, right, slot + 1, radius);
      hide BandDistance;
      assert (4 - slot) * (radius + 1) == (radius + 1) + (3 - slot) * (radius + 1);
    }
  }

  /** Pigeonhole: hashes within a tolerance agree within a quarter of it on some band. */
  lemma SomeBandIsClose(left: Hash, right: Hash, tolerance: nat)
    requires Distance(left, right) <= tolerance
    ensures exists slot: nat | slot < 4 :: BandDistance(left, right, slot) <= tolerance / 4
  {
    hide BandDistance, DistanceFrom, BandsFrom;
    DistanceByBands(left, right, 0);
    if forall slot: nat | slot < 4 :: BandDistance(left, right, slot) > tolerance / 4 {
      FarBandsAddUp(left, right, 0, tolerance / 4);
    }
  }

  // ---------------------------------------------------------------- enumerating a ball

  ghost predicate NoRepeats<T>(s: seq<T>) {
    forall i, j | 0 <= i < j < |s| :: s[i] != s[j]
  }

  lemma JoinNoRepeats<T>(s: seq<T>, t: seq<T>)
    requires NoRepeats(s) && NoRepeats(t) && forall x | x in s :: x !in t
    ensures NoRepeats(s + t)
  {
    forall i, j | 0 <= i < j < |s + t|
      ensures (s + t)[i] != (s + t)[j]
    {
      if i < |s| <= j {
        assert s[i] in s && t[j - |s|] in t;
      }
    }
  }

  function Pairs(value: bv16, first: nat, second: nat): seq<bv16>
    requires first < 16 && second <= 16
    decreases 16 - second
  {
    if second == 16 then [] else [Xor(Xor(value, Mask(first)), Mask(second))] + Pairs(value, first, second + 1)
  }

  function Rings(value: bv16, radius: nat, first: nat): seq<bv16>
    requires first <= 16
    decreases 16 - first
  {
    if radius == 0 || first == 16 then []
    else
      [Xor(value, Mask(first))] + (if radius >= 2 then Pairs(value, first, first + 1) else []) + Rings(value, radius, first + 1)
  }

  function Neighbors(value: bv16, radius: nat): seq<bv16> {
    [value] + Rings(value, radius, 0)
  }

  /** The positions in which two bands differ. */
  function Differ(value: bv16, other: bv16): set<nat> {
    Bits(Xor(value, other))
  }

  lemma XorXor(x: bv16, y: bv16)
    ensures Xor(x, Xor(x, y)) == y
  {
  }

  lemma XorThree(x: bv16, y: bv16, z: bv16)
    ensures Xor(x, Xor(Xor(x, y), z)) == Xor(y, z)
    ensures Xor(x, Xor(y, z)) == Xor(Xor(x, y), z)
  {
  }

  lemma XorSelf(x: bv16)
    ensures Xor(x, x) == 0
  {
  }

  lemma DifferOne(value: bv16, a: nat, other: bv16)
    requires a < 16
    ensures Differ(value, other) == {a} <==> other == Xor(value, Mask(a))
  {
    hide Bits, Mask, Xor;
    XorXor(value, Mask(a));
    MaskBits(a);
    if Differ(value, other) == {a} {
      SameBits(Xor(value, other), Mask(a));
      XorXor(value, other);
    }
  }

  lemma DifferTwo(value: bv16, a: nat, b: nat, other: bv16)
    requires a < b < 16
    ensures Differ(value, other) == {a, b} <==> other == Xor(Xor(value, Mask(a)), Mask(b))
  {
    hide Bits, Mask, Xor;
    XorThree(value, Mask(a), Mask(b));
    MaskBits(a);
    MaskBits(b);
    XorBits(Mask(a), Mask(b));
    if Differ(value, other) == {a, b} {
      SameBits(Xor(value, other), Xor(Mask(a), Mask(b)));
      XorXor(value, other);
    }
  }

  lemma DifferNone(value: bv16, other: bv16)
    ensures Differ(value, other) == {} <==> other == value
  {
    hide Bits, Xor;
    XorSelf(value);
    ZeroHasNoBits();
    if Differ(value, other) == {} {
      NoBits(Xor(value, other));
      XorZero(value, other);
    }
  }

  lemma ZeroHasNoBits()
    ensures Bits(0) == {}
  {
    forall i: nat | i < 16
      ensures !Bit(0, i)
    {
      MaskedZero(Mask(i));
    }
    hide Bit;
  }

  lemma MaskedZero(mask: bv16)
    ensures 0 & mask == 0
  {
  }

  // ---------------------------------------------------------------- the enumeration is exact

  lemma {:induction false} PairsExact(value: bv16, first: nat, second: nat, other: bv16)
    requires first < second <= 16
    ensures other in Pairs(value, first, second) <==> exists b: nat :: second <= b < 16 && Differ(value, other) == {first, b}
    decreases 16 - second
  {
    hide Differ, Mask, Xor;
    if second < 16 {
      PairsExact(value, first, second + 1, other);
      DifferTwo(value, first, second, other);
    }
  }

  lemma {:induction false} PairsDistinct(value: bv16, first: nat, second: nat)
    requires first < second <= 16
    ensures NoRepeats(Pairs(value, first, second))
    decreases 16 - second
  {
    hide Differ, Mask, Xor;
    if second < 16 {
      var here := Xor(Xor(value, Mask(first)), Mask(second));
      PairsDistinct(value, first, second + 1);
      PairsExact(value, first, second + 1, here);
      DifferTwo(value, first, second, here);
      JoinNoRepeats([here], Pairs(value, first, second + 1));
    }
  }

  /** Non-empty, at most two positions, none before `first`. */
  ghost predicate Within(differ: set<nat>, radius: nat, first: nat) {
    differ != {} && |differ| <= radius && |differ| <= 2 && forall i | i in differ :: first <= i < 16
  }

  lemma WithinSplit(differ: set<nat>, radius: nat, first: nat)
    requires first < 16 && 1 <= radius
    ensures Within(differ, radius, first) <==>
            || differ == {first}
            || (radius >= 2 && exists b: nat :: first + 1 <= b < 16 && differ == {first, b})
            || Within(differ, radius, first + 1)
  {
    if Within(differ, radius, first) && first in differ && differ != {first} {
      var rest := differ - {first};
      assert |rest| == |differ| - 1 == 1;
      var b :| b in rest;
      assert rest - {b} == {} by {
        assert |rest - {b}| == 0;
      }
      assert differ == {first, b};
    }
  }

  lemma {:induction false} RingsExact(value: bv16, radius: nat, first: nat, other: bv16)
    requires first <= 16
    ensures other in Rings(value, radius, first) <==> Within(Differ(value, other), radius, first)
    decreases 16 - first
  {
    hide Differ, Mask, Xor, Pairs;
    if radius == 0 || first == 16 {
      assert Differ(value, other) == {} || exists i :: i in Differ(value, other);
    } else {
      RingsExact(value, radius, first + 1, other);
      PairsExact(value, first, first + 1, other);
      DifferOne(value, first, other);
      WithinSplit(Differ(value, other), radius, first);
    }
  }

  lemma {:induction false} RingsDistinct(value: bv16, radius: nat, first: nat)
    requires first <= 16
    ensures NoRepeats(Rings(value, radius, first))
    decreases 16 - first
  {
    hide Differ, Mask, Xor, Pairs;
    if radius != 0 && first < 16 {
      var here := Xor(value, Mask(first));
      var pairs := if radius >= 2 then Pairs(value, first, first + 1) else [];
      var rest := Rings(value, radius, first + 1);
      RingsDistinct(value, radius, first + 1);
      PairsDistinct(value, first, first + 1);
      DifferOne(value, first, here);
      PairsExact(value, first, first + 1, here);
      JoinNoRepeats([here], pairs);
      forall other | other in [here] + pairs
        ensures other !in rest
      {
        RingsExact(value, radius, first + 1, other);
        PairsExact(value, first, first + 1, other);
        assert first in Differ(value, other);
      }
      JoinNoRepeats([here] + pairs, rest);
    }
  }

  lemma WithinIsSize(value: bv16, other: bv16, radius: nat)
    requires radius <= 2
    ensures Differ(value, other) == {} || Within(Differ(value, other), radius, 0) <==> Ones(Xor(value, other)) <= radius
  {
    hide Bit, Xor;
  }

  /** For radius up to two, the neighbours are the whole ball, each value once. */
  lemma NeighborsAreTheBall(value: bv16, radius: nat, other: bv16)
    requires radius <= 2
    ensures other in Neighbors(value, radius) <==> Ones(Xor(value, other)) <= radius
    ensures NoRepeats(Neighbors(value, radius))
  {
    RingsExact(value, radius, 0, other);
    RingsExact(value, radius, 0, value);
    DifferNone(value, other);
    DifferNone(value, value);
    WithinIsSize(value, other, radius);
    RingsDistinct(value, radius, 0);
    assert value !in Rings(value, radius, 0);
    hide Ones, Mask, Xor, Rings, Differ, Within;
    JoinNoRepeats([value], Rings(value, radius, 0));
  }
}
