/** Registers of six bits packed across bytes: hll/src/Hll6Array.cpp. */
module Hll6Arrays {
  import opened Words
  import opened AuxHashMaps
  import opened Hll4Arrays
  import opened HllRegisters

  /** Bit p of a byte array. */
  predicate BitAt(bytes: seq<nat>, p: nat)
    requires p / 8 < |bytes|
  {
    Bit(bytes[p / 8], p % 8)
  }

  ghost predicate Bytes(bytes: seq<nat>)
  {
    forall i :: 0 <= i < |bytes| ==> bytes[i] < 256
  }

  /** The two bytes from byteIdx on as one number. */
  function TwoBytes(bytes: seq<nat>, byteIdx: nat): nat
    requires byteIdx + 1 < |bytes|
  {
    Or(Scale(bytes[byteIdx + 1], 8), bytes[byteIdx])
  }

  lemma TwoByteBits(bytes: seq<nat>, byteIdx: nat, c: nat)
    requires byteIdx + 1 < |bytes| && Bytes(bytes) && c < 16
    ensures Bit(TwoBytes(bytes, byteIdx), c) == BitAt(bytes, 8 * byteIdx + c)
  {
    hide Bit, Scale, Or;
    BitOr(Scale(bytes[byteIdx + 1], 8), bytes[byteIdx], c);
    BitScale(bytes[byteIdx + 1], 8, c);
    if c >= 8 {
      assert Pow2(8) == 256;
      BitHigh(bytes[byteIdx], 8, c);
      assert (8 * byteIdx + c) / 8 == byteIdx + 1 && (8 * byteIdx + c) % 8 == c - 8;
    } else {
      assert (8 * byteIdx + c) / 8 == byteIdx && (8 * byteIdx + c) % 8 == c;
    }
  }

  /** getSlot on a byte array. */
  function Get6(bytes: seq<nat>, slotNo: nat): nat
    requires slotNo * 6 / 8 + 1 < |bytes|
  {
    Low(Shr(TwoBytes(bytes, slotNo * 6 / 8), slotNo * 6 % 8), 6)
  }

  /** A slot is made of six consecutive bits of the array. */
  lemma SlotBits(bytes: seq<nat>, slotNo: nat, b: nat)
    requires slotNo * 6 / 8 + 1 < |bytes| && Bytes(bytes)
    ensures Bit(Get6(bytes, slotNo), b) == (b < 6 && BitAt(bytes, slotNo * 6 + b))
  {
    hide Bit, Low, Shr, TwoBytes;
    var byteIdx, shift := slotNo * 6 / 8, slotNo * 6 % 8;
    BitLow(Shr(TwoBytes(bytes, byteIdx), shift), 6, b);
    BitShr(TwoBytes(bytes, byteIdx), shift, b);
    if b < 6 {
      TwoByteBits(bytes, byteIdx, shift + b);
      assert 8 * byteIdx + (shift + b) == slotNo * 6 + b;
    }
  }

  /** The two bytes with six of their bits replaced. */
  function Insert6(twoBytes: nat, shift: nat, value: nat): nat
  {
    Or(And(twoBytes, Xor(Shl(63, shift), ALL64BITS)), Scale(Low(value, 6), shift))
  }

  lemma InsertBits(twoBytes: nat, shift: nat, value: nat, c: nat)
    requires shift < 8 && c < 16
    ensures Bit(Insert6(twoBytes, shift, value), c) == if shift <= c < shift + 6 then Bit(value, c - shift) else Bit(twoBytes, c)
  {
    hide Bit, Or, And, Xor, Shl, Scale, Low;
    var mask := Xor(Shl(63, shift), ALL64BITS);
    BitOr(And(twoBytes, mask), Scale(Low(value, 6), shift), c);
    BitAnd(twoBytes, mask, c);
    BitXor(Shl(63, shift), ALL64BITS, c);
    BitAll64(c);
    BitShl(63, shift, c);
    BitScale(Low(value, 6), shift, c);
    if c >= shift {
      SixMask(c - shift);
      BitLow(value, 6, c - shift);
    }
  }

  lemma SixMask(c: nat)
    ensures Bit(63, c) == (c < 6)
  {
    assert Pow2(6) == 64;
    BitMask(6, c);
  }

  /** The array after putSlot. */
  function Put6(bytes: seq<nat>, slotNo: nat, value: nat): (r: seq<nat>)
    requires slotNo * 6 / 8 + 1 < |bytes|
    ensures |r| == |bytes|
  {
    var byteIdx := slotNo * 6 / 8;
    var insert := Insert6(TwoBytes(bytes, byteIdx), slotNo * 6 % 8, value);
    bytes[byteIdx := Low(insert, 8)][byteIdx + 1 := Low(Shr(insert, 8), 8)]
  }

  /** putSlot replaces the six bits of its slot and no others. */
  lemma PutBits6(bytes: seq<nat>, slotNo: nat, value: nat, p: nat)
    requires slotNo * 6 / 8 + 1 < |bytes| && Bytes(bytes) && p / 8 < |bytes|
    ensures BitAt(Put6(bytes, slotNo, value), p) == if slotNo * 6 <= p < slotNo * 6 + 6 then Bit(value, p - slotNo * 6) else BitAt(bytes, p)
  {
    hide Bit, Low, Shr, Insert6, TwoBytes;
    var byteIdx, shift := slotNo * 6 / 8, slotNo * 6 % 8;
    var insert := Insert6(TwoBytes(bytes, byteIdx), shift, value);
    if p / 8 == byteIdx {
      BitLow(insert, 8, p % 8);
      InsertBits(TwoBytes(bytes, byteIdx), shift, value, p % 8);
      TwoByteBits(bytes, byteIdx, p % 8);
    } else if p / 8 == byteIdx + 1 {
      BitLow(Shr(insert, 8), 8, p % 8);
      BitShr(insert, 8, p % 8);
      InsertBits(TwoBytes(bytes, byteIdx), shift, value, p % 8 + 8);
      TwoByteBits(bytes, byteIdx, p % 8 + 8);
    }
  }

  lemma PutKeepsBytes(bytes: seq<nat>, slotNo: nat, value: nat)
    requires slotNo * 6 / 8 + 1 < |bytes| && Bytes(bytes)
    ensures Bytes(Put6(bytes, slotNo, value))
  {
    hide Low, Shr, Insert6, TwoBytes;
    var insert := Insert6(TwoBytes(bytes, slotNo * 6 / 8), slotNo * 6 % 8, value);
    assert Pow2(8) == 256;
    LowBound(insert, 8);
    LowBound(Shr(insert, 8), 8);
  }

  /** A slot reads back what was put there; all others read what they did before. */
  lemma PutGet6(bytes: seq<nat>, slotNo: nat, value: nat, t: nat)
    requires slotNo * 6 / 8 + 1 < |bytes| && t * 6 / 8 + 1 < |bytes| && Bytes(bytes) && value < 64
    ensures Get6(Put6(bytes, slotNo, value), t) == if t == slotNo then value else Get6(bytes, t)
  {
    hide Bit, Low, Shr, Get6, Put6;
    var r := Put6(bytes, slotNo, value);
    var expected := if t == slotNo then value else Get6(bytes, t);
    PutKeepsBytes(bytes, slotNo, value);
    Six(bytes, t);
    Six(r, t);
    forall b | 0 <= b < 6
      ensures Bit(Get6(r, t), b) == Bit(expected, b)
    {
      SlotBits(r, t, b);
      SlotBits(bytes, t, b);
      SlotRange(t, b, |bytes|);
      PutBits6(bytes, slotNo, value, t * 6 + b);
      if t != slotNo {
        OtherSlot(slotNo, t, b);
      }
    }
    assert Pow2(6) == 64;
    Extensional(Get6(r, t), expected, 6);
  }

  lemma Six(bytes: seq<nat>, t: nat)
    requires t * 6 / 8 + 1 < |bytes|
    ensures Get6(bytes, t) < 64
  {
    assert Pow2(6) == 64;
    LowBound(Shr(TwoBytes(bytes, t * 6 / 8), t * 6 % 8), 6);
  }

  lemma SlotRange(t: nat, b: nat, n: nat)
    requires t * 6 / 8 + 1 < n && b < 6
    ensures (t * 6 + b) / 8 < n
  {
  }

  lemma OtherSlot(s: nat, t: nat, b: nat)
    requires s != t && b < 6
    ensures !(s * 6 <= t * 6 + b < s * 6 + 6)
  {
  }

  class Hll6Array {
    const lgConfigK: nat
    var numAtCurMin: nat  // the number of zeros
    var hllByteArr: array<nat>
    ghost var regs: seq<nat>

    ghost predicate Valid()
      reads this, hllByteArr
    {
      4 <= lgConfigK <= 21 && |regs| == Pow2(lgConfigK) && 4 * (hllByteArr.Length - 1) == 3 * |regs| && Bytes(hllByteArr[..]) &&
      (forall i :: 0 <= i < |regs| ==> i * 6 / 8 + 1 < hllByteArr.Length && regs[i] == Get6(hllByteArr[..], i)) &&
      numAtCurMin == CountOf(regs, 0)
    }

    constructor (lgConfigK: nat)
      requires 4 <= lgConfigK <= 21
      ensures Valid() && this.lgConfigK == lgConfigK && regs == seq(Pow2(lgConfigK), _ => 0) && fresh(hllByteArr)
    {
      this.lgConfigK := lgConfigK;
      numAtCurMin := Pow2(lgConfigK);
      hllByteArr := new nat[3 * Pow2(lgConfigK) / 4 + 1](_ => 0);
      regs := seq(Pow2(lgConfigK), _ => 0);
      new;
      CountAll(regs, 0);
      ThreeQuarters(lgConfigK);
      ZeroSlots(hllByteArr[..], |regs|);
    }

    /** putSlot */
    method PutSlot(slotNo: nat, value: nat)
      requires slotNo * 6 / 8 + 1 < hllByteArr.Length
      modifies hllByteArr
      ensures hllByteArr[..] == old(Put6(hllByteArr[..], slotNo, value))
    {
      hide Insert6, TwoBytes, Low, Shr;
      ghost var bytes := hllByteArr[..];
      var byteIdx := slotNo * 6 / 8;
      var insert := Insert6(TwoBytes(hllByteArr[..], byteIdx), slotNo * 6 % 8, value);
      hllByteArr[byteIdx] := Low(insert, 8);
      hllByteArr[byteIdx + 1] := Low(Shr(insert, 8), 8);
    }

    /** couponUpdate: false stands for the exception for a value of zero; the check on the number of zeros cannot fail. */
    method CouponUpdate(coupon: nat) returns (ok: bool)
      requires Valid() && ValueOf(coupon) <= MAX_VALUE
      modifies this`numAtCurMin, this`regs, hllByteArr
      ensures Valid() && ok == (ValueOf(coupon) > 0)
      ensures regs == if ok then Raised(old(regs), SlotOf(coupon, lgConfigK), ValueOf(coupon)) else old(regs)
    {
      hide Get6, Put6, CountOf, Pow2, SlotOf, Bytes;
      var slotNo := SlotOf(coupon, lgConfigK);
      var newVal := ValueOf(coupon);
      if newVal <= 0 {
        return false;
      }
      var curVal := Get6(hllByteArr[..], slotNo);
      if newVal > curVal {
        ghost var bytes := hllByteArr[..];
        CountOfUpdate(regs, slotNo, newVal, 0);
        SlotsAfterPut(bytes, regs, slotNo, newVal);
        PutSlot(slotNo, newVal);
        if curVal == 0 {
          numAtCurMin := numAtCurMin - 1;
        }
        regs := regs[slotNo := newVal];
      }
      return true;
    }
  }

  lemma ThreeQuarters(lgK: nat)
    requires lgK >= 4
    ensures 4 * (3 * Pow2(lgK) / 4) == 3 * Pow2(lgK)
  {
    assert Pow2(lgK) == 2 * Pow2(lgK - 1) == 4 * Pow2(lgK - 2);
    WholeQuarters(Pow2(lgK), Pow2(lgK - 2));
  }

  lemma WholeQuarters(p: nat, q: nat)
    requires p == 4 * q
    ensures 4 * (3 * p / 4) == 3 * p
  {
    DivUnique(3 * p, 4, 3 * q, 0);
  }

  lemma ZeroSlots(bytes: seq<nat>, n: nat)
    requires 4 * (|bytes| - 1) == 3 * n && forall i :: 0 <= i < |bytes| ==> bytes[i] == 0
    ensures forall i :: 0 <= i < n ==> i * 6 / 8 + 1 < |bytes| && Get6(bytes, i) == 0
  {
    hide Get6;
    forall i | 0 <= i < n
      ensures i * 6 / 8 + 1 < |bytes| && Get6(bytes, i) == 0
    {
      ZeroSlot(bytes, i);
    }
  }

  lemma ZeroSlot(bytes: seq<nat>, i: nat)
    requires i * 6 / 8 + 1 < |bytes| && forall i :: 0 <= i < |bytes| ==> bytes[i] == 0
    ensures Get6(bytes, i) == 0
  {
    hide Bit, Get6;
    Six(bytes, i);
    forall b | 0 <= b < 6
      ensures Bit(Get6(bytes, i), b) == Bit(0, b)
    {
      SlotBits(bytes, i, b);
      SlotRange(i, b, |bytes|);
      BitZero((i * 6 + b) % 8);
      BitZero(b);
    }
    assert Pow2(6) == 64;
    Extensional(Get6(bytes, i), 0, 6);
  }

  lemma SlotsAfterPut(bytes: seq<nat>, regs: seq<nat>, slotNo: nat, value: nat)
    requires Bytes(bytes) && slotNo < |regs| && value < 64
    requires forall i :: 0 <= i < |regs| ==> i * 6 / 8 + 1 < |bytes| && regs[i] == Get6(bytes, i)
    ensures Bytes(Put6(bytes, slotNo, value)) && forall i :: 0 <= i < |regs| ==> regs[slotNo := value][i] == Get6(Put6(bytes, slotNo, value), i)
  {
    hide Get6, Put6, Bytes;
    PutKeepsBytes(bytes, slotNo, value);
    forall i | 0 <= i < |regs|
      ensures regs[slotNo := value][i] == Get6(Put6(bytes, slotNo, value), i)
    {
      PutGet6(bytes, slotNo, value, i);
    }
  }
}
