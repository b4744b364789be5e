/** The HLL_4 register array: hll/src/Hll4Array.cpp. */
module Hll4Arrays {
  import opened Words
  import opened LinearProbing
  import opened AuxHashMaps

  const AUX_TOKEN: nat := 15

  const MAX_VALUE: nat := 63

  // ---- nibbles ----

  /** getSlot on a byte array: the low nibble for an even slot, the high one for an odd slot. */
  function Nibble(bytes: seq<nat>, slotNo: nat): nat
    requires slotNo < 2 * |bytes|
  {
    var theByte := bytes[slotNo / 2];
    (if slotNo % 2 == 1 then theByte / 16 else theByte) % 16
  }

  /** The byte after a nibble of it has been replaced. */
  function WithNibble(oldValue: nat, slotNo: nat, newValue: nat): nat
  {
    if slotNo % 2 == 0 then oldValue / 16 % 16 * 16 + newValue % 16 else oldValue % 16 + newValue % 16 * 16
  }

  ghost function Nibbles(bytes: seq<nat>): (nibs: seq<nat>)
    ensures |nibs| == 2 * |bytes|
  {
    seq(2 * |bytes|, i requires 0 <= i < 2 * |bytes| => Nibble(bytes, i))
  }

  /** Replacing one nibble leaves all others as they are. */
  lemma PutNibble(bytes: seq<nat>, slotNo: nat, v: nat)
    requires slotNo < 2 * |bytes| && v < 16
    ensures Nibbles(bytes[slotNo / 2 := WithNibble(bytes[slotNo / 2], slotNo, v)]) == Nibbles(bytes)[slotNo := v]
  {
    var bytes2 := bytes[slotNo / 2 := WithNibble(bytes[slotNo / 2], slotNo, v)];
    forall i | 0 <= i < 2 * |bytes|
      ensures Nibble(bytes2, i) == if i == slotNo then v else Nibble(bytes, i)
    {
      if i / 2 == slotNo / 2 {
        OtherNibble(bytes[slotNo / 2], slotNo, i, v);
      }
    }
  }

  lemma OtherNibble(old_: nat, slotNo: nat, i: nat, v: nat)
    requires i / 2 == slotNo / 2 && v < 16
    ensures (if i % 2 == 1 then WithNibble(old_, slotNo, v) / 16 else WithNibble(old_, slotNo, v)) % 16
            == if i == slotNo then v else (if i % 2 == 1 then old_ / 16 else old_) % 16
  {
    NibblePair(old_ / 16 % 16, v);
    NibblePair(v, old_ % 16);
  }

  lemma NibblePair(high: nat, low: nat)
    requires low < 16
    ensures (high * 16 + low) / 16 == high && (high * 16 + low) % 16 == low
  {
  }

  // ---- counting ----

  function CountOf(s: seq<nat>, v: nat): (c: nat)
    ensures c <= |s|
  {
    if s == [] then 0 else CountOf(s[..|s| - 1], v) + if s[|s| - 1] == v then 1 else 0
  }

  lemma CountSnoc(s: seq<nat>, i: nat, v: nat)
    requires i < |s|
    ensures CountOf(s[..i + 1], v) == CountOf(s[..i], v) + if s[i] == v then 1 else 0
  {
    assert s[..i + 1][..i] == s[..i];
  }

  lemma {:induction false} CountOfUpdate(s: seq<nat>, i: nat, x: nat, v: nat)
    requires i < |s|
    ensures CountOf(s[i := x], v) == CountOf(s, v) - (if s[i] == v then 1 else 0) + (if x == v then 1 else 0)
    ensures s[i] == v ==> CountOf(s, v) > 0
  {
    var n := |s| - 1;
    if i == n {
      assert s[i := x][..n] == s[..n];
    } else {
      CountOfUpdate(s[..n], i, x, v);
      assert s[i := x][..n] == s[..n][i := x];
    }
  }

  lemma {:induction false} CountZero(s: seq<nat>, v: nat)
    requires CountOf(s, v) == 0
    ensures forall i :: 0 <= i < |s| ==> s[i] != v
  {
    if s != [] {
      CountZero(s[..|s| - 1], v);
      assert forall i :: 0 <= i < |s| - 1 ==> s[i] == s[..|s| - 1][i];
    }
  }

  lemma {:induction false} CountAll(s: seq<nat>, v: nat)
    requires forall i :: 0 <= i < |s| ==> s[i] == v
    ensures CountOf(s, v) == |s|
  {
    if s != [] {
      CountAll(s[..|s| - 1], v);
    }
  }

  // ---- registers ----

  /** What the 4-bit array stores for a register. */
  function Stored(reg: nat, curMin: nat): (s: nat)
    requires reg >= curMin
    ensures s <= AUX_TOKEN
  {
    if reg - curMin >= AUX_TOKEN then AUX_TOKEN else reg - curMin
  }

  /** The nibbles hold the registers relative to the current minimum. */
  ghost predicate Represents(nibs: seq<nat>, regs: seq<nat>, curMin: nat)
  {
    |nibs| == |regs| && forall i :: 0 <= i < |regs| ==> curMin <= regs[i] <= MAX_VALUE && nibs[i] == Stored(regs[i], curMin)
  }

  /** The registers that do not fit. */
  ghost function Exceptions(regs: seq<nat>, curMin: nat): map<nat, nat>
  {
    map i: nat | i < |regs| && regs[i] >= curMin + AUX_TOKEN :: regs[i]
  }

  ghost predicate AuxHolds(aux: AuxHashMap?, lgK: nat, m: map<nat, nat>)
    reads aux, if aux == null then {} else {aux.auxIntArr}
  {
    if aux == null then m == map[] else aux.Valid() && aux.lgConfigK == lgK && aux.contents == m
  }

  lemma ExceptionsUpdate(regs: seq<nat>, curMin: nat, slotNo: nat, v: nat)
    requires slotNo < |regs| && v >= regs[slotNo]
    ensures Exceptions(regs[slotNo := v], curMin) ==
            if v >= curMin + AUX_TOKEN then Exceptions(regs, curMin)[slotNo := v] else Exceptions(regs, curMin)
    ensures slotNo in Exceptions(regs, curMin) <==> regs[slotNo] >= curMin + AUX_TOKEN
    ensures slotNo in Exceptions(regs, curMin) ==> Exceptions(regs, curMin)[slotNo] == regs[slotNo]
  {
  }

  lemma RepresentsUpdate(nibs: seq<nat>, regs: seq<nat>, curMin: nat, slotNo: nat, v: nat)
    requires Represents(nibs, regs, curMin) && slotNo < |regs| && curMin <= v <= MAX_VALUE
    ensures Represents(nibs[slotNo := Stored(v, curMin)], regs[slotNo := v], curMin)
  {
  }

  /** LG_AUX_ARR_INTS: the size of a new exception map. */
  const LG_AUX_ARR_INTS: seq<nat> := [0, 2, 2, 2, 2, 2, 2, 3, 3, 3, 4, 4, 5, 5, 6, 7, 8, 9, 10, 11, 12, 13, 14, 15, 16, 17, 18]

  class Hll4Array {
    const lgConfigK: nat
    var curMin: nat
    var numAtCurMin: nat
    var hllByteArr: array<nat>
    var auxHashMap: AuxHashMap?
    ghost var regs: seq<nat>  // the registers: the largest value seen in every slot

    ghost function AuxArr(): set<object?>
      reads this, auxHashMap
    {
      if auxHashMap == null then {} else {auxHashMap, auxHashMap.auxIntArr}
    }

    /** Bytes, current minimum and exceptions hold the registers. */
    ghost predicate Core()
      reads this, hllByteArr, auxHashMap, AuxArr()
    {
      4 <= lgConfigK <= 21 && |regs| == Pow2(lgConfigK) == 2 * hllByteArr.Length &&
      Represents(Nibbles(hllByteArr[..]), regs, curMin) && AuxHolds(auxHashMap, lgConfigK, Exceptions(regs, curMin)) &&
      (auxHashMap != null ==> auxHashMap.auxIntArr != hllByteArr) &&
      numAtCurMin == CountOf(regs, curMin)
    }

    ghost predicate Valid()
      reads this, hllByteArr, auxHashMap, AuxArr()
    {
      Core() && numAtCurMin > 0
    }

    constructor (lgConfigK: nat)
      requires 4 <= lgConfigK <= 21
      ensures Valid() && this.lgConfigK == lgConfigK && regs == seq(Pow2(lgConfigK), _ => 0)
      ensures fresh(hllByteArr) && fresh(AuxArr())
    {
      this.lgConfigK := lgConfigK;
      curMin := 0;
      numAtCurMin := Pow2(lgConfigK);
      hllByteArr := new nat[Pow2(lgConfigK - 1)](_ => 0);
      auxHashMap := null;
      regs := seq(Pow2(lgConfigK), _ => 0);
      new;
      CountAll(regs, 0);
    }

    /** getSlot */
    function GetSlot(slotNo: nat): nat
      requires slotNo < 2 * hllByteArr.Length
      reads this, hllByteArr
    {
      Nibble(hllByteArr[..], slotNo)
    }

    /** putSlot */
    method PutSlot(slotNo: nat, newValue: nat)
      requires slotNo < 2 * hllByteArr.Length && newValue < 16
      modifies hllByteArr
      ensures Nibbles(hllByteArr[..]) == old(Nibbles(hllByteArr[..]))[slotNo := newValue]
    {
      ghost var bytes := hllByteArr[..];
      PutNibble(bytes, slotNo, newValue);
      hllByteArr[slotNo / 2] := WithNibble(hllByteArr[slotNo / 2], slotNo, newValue);
      assert hllByteArr[..] == bytes[slotNo / 2 := WithNibble(bytes[slotNo / 2], slotNo, newValue)];
    }

    /** Hll4Iterator::value: the register of a slot. An exception map exists whenever it is needed. */
    method Value(slotNo: nat) returns (value: nat)
      requires Core() && slotNo < |regs|
      ensures value == regs[slotNo]
    {
      ExceptionsUpdate(regs, curMin, slotNo, regs[slotNo]);
      hide Nibble, Exceptions, CountOf, Pow2;
      var nib := GetSlot(slotNo);
      assert nib == Nibbles(hllByteArr[..])[slotNo];
      if nib == AUX_TOKEN {
        var ok;
        ok, value := auxHashMap.MustFindValueFor(slotNo);
        assert ok;
      } else {
        value := nib + curMin;
      }
    }

    /** couponUpdate: false stands for the exception for a value of zero. */
    method CouponUpdate(coupon: nat) returns (ok: bool)
      requires Valid() && ValueOf(coupon) <= MAX_VALUE
      modifies this`curMin, this`numAtCurMin, this`auxHashMap, this`regs, hllByteArr, AuxArr()
      ensures Valid() && ok == (ValueOf(coupon) > 0)
      ensures ok ==> regs == Raised(old(regs), Home(coupon % TWO_TO_THE_26, lgConfigK), ValueOf(coupon))
      ensures !ok ==> regs == old(regs)
      ensures fresh(AuxArr() - old(AuxArr()))
    {
      hide Nibble, Exceptions, CountOf, Represents, AuxHolds, Low;
      var newValue := ValueOf(coupon);
      if newValue <= 0 {
        return false;
      }
      var slotNo := Home(Low26(coupon), lgConfigK);
      if newValue <= curMin {
        QuickReject(Nibbles(hllByteArr[..]), regs, curMin, slotNo, newValue);
        return true; // quick rejection, but only works for large N
      }
      InternalHll4Update(slotNo, newValue);
      return true;
    }

    /** internalHll4Update past its argument checks; none of the other exceptions can occur. */
    method InternalHll4Update(slotNo: nat, newVal: nat)
      requires Valid() && slotNo < |regs| && curMin < newVal <= MAX_VALUE
      modifies this`curMin, this`numAtCurMin, this`auxHashMap, this`regs, hllByteArr, AuxArr()
      ensures Valid() && regs == Raised(old(regs), slotNo, newVal)
      ensures fresh(AuxArr() - old(AuxArr()))
    {
      hide Nibble, Exceptions, CountOf, AuxHolds;
      var rawStoredOldValue := GetSlot(slotNo);
      assert rawStoredOldValue == Nibbles(hllByteArr[..])[slotNo];
      var lbOnOldValue := rawStoredOldValue + curMin; // provably a lower bound
      if newVal > lbOnOldValue {
        var actualOldValue := Value(slotNo);
        if newVal > actualOldValue {
          RaiseSlot(slotNo, newVal, actualOldValue, rawStoredOldValue);
        }
      }
    }

    /** The register grows: store it, and move the current minimum if no register is at it any more. */
    method RaiseSlot(slotNo: nat, newVal: nat, actualOldValue: nat, rawStoredOldValue: nat)
      requires Valid() && slotNo < |regs| && actualOldValue == regs[slotNo] < newVal <= MAX_VALUE
      requires rawStoredOldValue == Stored(regs[slotNo], curMin)
      modifies this`curMin, this`numAtCurMin, this`auxHashMap, this`regs, hllByteArr, AuxArr()
      ensures Valid() && regs == old(regs)[slotNo := newVal]
      ensures fresh(AuxArr() - old(AuxArr()))
    {
      hide Nibble, Exceptions, CountOf, AuxHolds, Represents, Nibbles;
      CountOfUpdate(regs, slotNo, newVal, curMin);
      AtLeastMin(Nibbles(hllByteArr[..]), regs, curMin, slotNo);
      StoreRaised(slotNo, newVal, rawStoredOldValue);
      if actualOldValue == curMin {
        numAtCurMin := numAtCurMin - 1;
        while numAtCurMin == 0
          invariant Core() && regs == old(regs)[slotNo := newVal] && fresh(AuxArr() - old(AuxArr())) && curMin <= MAX_VALUE
          invariant hllByteArr == old(hllByteArr)
          decreases MAX_VALUE - curMin
        {
          AllAboveMin(Nibbles(hllByteArr[..]), regs, curMin);
          ShiftToBiggerCurMin(); // increases curMin by 1, builds a new aux table
        }
      }
    }

    /** The four cases of storing a larger value; the case of an old exception and a new value that is none is impossible. */
    method StoreRaised(slotNo: nat, newVal: nat, rawStoredOldValue: nat)
      requires Core() && slotNo < |regs| && regs[slotNo] < newVal <= MAX_VALUE && curMin <= regs[slotNo]
      requires rawStoredOldValue == Stored(regs[slotNo], curMin)
      modifies this`auxHashMap, this`regs, hllByteArr, AuxArr()
      ensures Stores(old(regs)[slotNo := newVal])
      ensures regs == old(regs)[slotNo := newVal] && fresh(AuxArr() - old(AuxArr()))
    {
      hide Nibble, Exceptions, CountOf, Represents, Nibbles, Pow2, AuxHolds;
      ExceptionsUpdate(regs, curMin, slotNo, newVal);
      RepresentsUpdate(Nibbles(hllByteArr[..]), regs, curMin, slotNo, newVal);
      ghost var m := Exceptions(regs, curMin);
      if rawStoredOldValue == AUX_TOKEN {
        assert newVal - curMin >= AUX_TOKEN;
        SameNibble(Nibbles(hllByteArr[..]), regs, curMin, slotNo, newVal);
        ReplaceException(slotNo, newVal, m);
      } else if newVal - curMin >= AUX_TOKEN {
        PutSlot(slotNo, AUX_TOKEN);
        AddException(slotNo, newVal, m);
      } else {
        PutSlot(slotNo, newVal - curMin);
      }
      SetRegs(regs[slotNo := newVal]);
    }

    /** The arrays hold these registers. */
    ghost predicate Stores(r: seq<nat>)
      reads this, hllByteArr, auxHashMap, AuxArr()
    {
      4 <= lgConfigK <= 21 && |r| == Pow2(lgConfigK) == 2 * hllByteArr.Length &&
      Represents(Nibbles(hllByteArr[..]), r, curMin) && AuxHolds(auxHashMap, lgConfigK, Exceptions(r, curMin)) &&
      (auxHashMap != null ==> auxHashMap.auxIntArr != hllByteArr)
    }

    ghost method SetRegs(r: seq<nat>)
      requires Stores(r)
      modifies this`regs
      ensures Stores(r) && regs == r
    {
      hide Represents, AuxHolds, Exceptions, Nibbles, Pow2;
      regs := r;
    }

    method ReplaceException(slotNo: nat, value: nat, ghost m: map<nat, nat>)
      requires AuxHolds(auxHashMap, lgConfigK, m) && slotNo in m && slotNo < Pow2(lgConfigK) && value > 0
      requires auxHashMap != null ==> auxHashMap.auxIntArr != hllByteArr
      modifies AuxArr()
      ensures AuxHolds(auxHashMap, lgConfigK, m[slotNo := value]) && AuxArr() == old(AuxArr())
      ensures auxHashMap != null ==> auxHashMap.auxIntArr != hllByteArr
    {
      hide Pow2;
      var ok := auxHashMap.MustReplace(slotNo, value);
      assert ok;
    }

    /** Put a slot into the exception map, which is created when it does not exist yet. */
    method AddException(slotNo: nat, value: nat, ghost m: map<nat, nat>)
      requires AuxHolds(auxHashMap, lgConfigK, m) && slotNo !in m && slotNo < Pow2(lgConfigK) && value > 0 && 4 <= lgConfigK <= 21
      requires auxHashMap != null ==> auxHashMap.auxIntArr != hllByteArr
      modifies this`auxHashMap, AuxArr()
      ensures AuxHolds(auxHashMap, lgConfigK, m[slotNo := value]) && fresh(AuxArr() - old(AuxArr()))
      ensures auxHashMap != null ==> auxHashMap.auxIntArr != hllByteArr
    {
      hide Pow2, AuxHolds;
      auxHashMap := WithEntry(auxHashMap, lgConfigK, slotNo, value, m);
    }

    // ---- moving the current minimum ----

    /** The first loop of shiftToBiggerCurMin. */
    method DecrementSlots() returns (numAtNewCurMin: nat, numAuxTokens: nat)
      requires Core() && forall i :: 0 <= i < |regs| ==> regs[i] > curMin
      modifies hllByteArr
      ensures Decremented(Nibbles(hllByteArr[..]), old(Nibbles(hllByteArr[..])), |regs|)
      ensures numAtNewCurMin == CountOf(regs, curMin + 1) && numAuxTokens == CountOf(old(Nibbles(hllByteArr[..])), AUX_TOKEN)
    {
      hide Nibble, Exceptions, CountOf, AuxHolds, Nibbles, Pow2;
      numAtNewCurMin, numAuxTokens := 0, 0;
      ghost var nibs0 := Nibbles(hllByteArr[..]);
      var configK := 2 * hllByteArr.Length;
      CountNone(regs, nibs0, curMin + 1);
      for i := 0 to configK
        invariant Decremented(Nibbles(hllByteArr[..]), nibs0, i)
        invariant numAtNewCurMin == CountOf(regs[..i], curMin + 1) && numAuxTokens == CountOf(nibs0[..i], AUX_TOKEN)
      {
        CountSnoc(regs, i, curMin + 1);
        CountSnoc(nibs0, i, AUX_TOKEN);
        var oldStoredValue := GetSlot(i);
        SlotIs(i);
        assert oldStoredValue == nibs0[i] == Stored(regs[i], curMin) && oldStoredValue != 0;
        if oldStoredValue < AUX_TOKEN {
          PutSlot(i, oldStoredValue - 1);
          if oldStoredValue - 1 == 0 {
            numAtNewCurMin := numAtNewCurMin + 1;
          }
        } else {
          numAuxTokens := numAuxTokens + 1;
        }
      }
      assert regs[..|regs|] == regs && nibs0[..|nibs0|] == nibs0;
    }

    lemma SlotIs(slotNo: nat)
      requires slotNo < 2 * hllByteArr.Length
      ensures GetSlot(slotNo) == Nibbles(hllByteArr[..])[slotNo]
    {
    }

    /** shiftToBiggerCurMin: none of its exceptions can occur. */
    method ShiftToBiggerCurMin()
      requires Core() && curMin < MAX_VALUE && forall i :: 0 <= i < |regs| ==> regs[i] > curMin
      modifies this`curMin, this`numAtCurMin, this`auxHashMap, this`regs, hllByteArr
      ensures Core() && curMin == old(curMin) + 1 && regs == old(regs)
      ensures fresh(AuxArr() - old(AuxArr()))
    {
      hide Nibble, Exceptions, CountOf, Nibbles, Pow2, Decremented, Represents, Rebuilding, AuxHolds, StillExceptional;
      AuxFacts(auxHashMap, lgConfigK, Exceptions(regs, curMin));
      ghost var nibs0 := Nibbles(hllByteArr[..]);
      var numAtNewCurMin, numAuxTokens := DecrementSlots();
      TokenCount(nibs0, regs, curMin);
      ghost var m := Exceptions(regs, curMin);
      RebuildStart(Nibbles(hllByteArr[..]), nibs0, regs, curMin);
      var newAuxMap: AuxHashMap? := null;
      if auxHashMap != null {
        newAuxMap := RebuildAux(auxHashMap, numAuxTokens, nibs0, m);
      } else {
        NoneExceptional(curMin);
        assert m == map[] && numAuxTokens == 0;
      }
      RebuildDone(Nibbles(hllByteArr[..]), nibs0, regs, curMin, m);
      Install(newAuxMap, curMin + 1, numAtNewCurMin, regs);
    }

    /** Set the current minimum, its count and the exceptions. */
    method Install(newAuxMap: AuxHashMap?, newCurMin: nat, numAtNewCurMin: nat, ghost r: seq<nat>)
      requires 4 <= lgConfigK <= 21 && |r| == Pow2(lgConfigK) == 2 * hllByteArr.Length
      requires Represents(Nibbles(hllByteArr[..]), r, newCurMin) && AuxHolds(newAuxMap, lgConfigK, Exceptions(r, newCurMin))
      requires newAuxMap != null ==> newAuxMap.auxIntArr != hllByteArr
      requires numAtNewCurMin == CountOf(r, newCurMin)
      modifies this`curMin, this`numAtCurMin, this`auxHashMap, this`regs
      ensures Core() && curMin == newCurMin && auxHashMap == newAuxMap && regs == r && numAtCurMin == numAtNewCurMin
    {
      hide Represents, AuxHolds, Exceptions, Nibbles, Pow2, CountOf;
      auxHashMap := newAuxMap;
      curMin := newCurMin;
      numAtCurMin := numAtNewCurMin;
      regs := r;
    }

    /** The loop of shiftToBiggerCurMin over the old exception map, which builds the new one. */
    method RebuildAux(oldAux: AuxHashMap, tokens: nat, ghost nibs0: seq<nat>, ghost m: map<nat, nat>) returns (newAux: AuxHashMap?)
      requires oldAux.Valid() && oldAux.lgConfigK == lgConfigK <= 21 && lgConfigK >= 4 && oldAux.contents == m && m == Exceptions(regs, curMin) && oldAux.auxIntArr != hllByteArr
      requires Rebuilding(Nibbles(hllByteArr[..]), nibs0, regs, curMin, map[]) && |regs| == 2 * hllByteArr.Length == Pow2(lgConfigK) && tokens == |m|
      modifies hllByteArr
      ensures Rebuilding(Nibbles(hllByteArr[..]), nibs0, regs, curMin, m)
      ensures AuxHolds(newAux, lgConfigK, StillExceptional(m, curMin))
      ensures newAux != null ==> fresh(newAux) && fresh(newAux.auxIntArr)
    {
      hide Nibble, Exceptions, Nibbles, Pow2, Decremented, Rebuilding, Copied, StillExceptional, Table, Active;
      var numAuxTokens: int := tokens;
      newAux := null;
      var oldArr := oldAux.auxIntArr;
      ghost var arr, lg := oldArr[..], oldAux.lgAuxArrInts;
      ghost var part: map<nat, nat> := map[];
      CopiedNone(arr, lg, lgConfigK, m);
      NoneExceptional(curMin);
      for j := 0 to oldArr.Length
        invariant oldArr[..] == arr && Copied(arr, lg, lgConfigK, m, part, j)
        invariant Rebuilding(Nibbles(hllByteArr[..]), nibs0, regs, curMin, part)
        invariant AuxHolds(newAux, lgConfigK, StillExceptional(part, curMin))
        invariant newAux != null ==> fresh(newAux) && fresh(newAux.auxIntArr) && newAux.auxIntArr != hllByteArr
        invariant numAuxTokens + |part| == |m| + |StillExceptional(part, curMin)|
      {
        CopiedNext(arr, lg, lgConfigK, m, part, j);
        if oldArr[j] != 0 {
          EntryOfTable(arr, lg, lgConfigK, m, part, j);
          newAux, numAuxTokens := RebuildOne(oldArr[j], newAux, numAuxTokens, nibs0, m, part);
          part := part[Low26(arr[j]) := ValueOf(arr[j])];
        }
      }
      CopiedAll(arr, lg, lgConfigK, m, part);
      // the new map has as many entries as there are tokens left
      assert newAux != null ==> newAux.auxCount == numAuxTokens;
    }

    /** One entry of the old exception map. */
    method RebuildOne(pair: nat, aux: AuxHashMap?, tokens: int, ghost nibs0: seq<nat>, ghost m: map<nat, nat>, ghost part: map<nat, nat>)
      returns (newAux: AuxHashMap?, numAuxTokens: int)
      requires 4 <= lgConfigK <= 21 && |regs| == 2 * hllByteArr.Length == Pow2(lgConfigK) && m == Exceptions(regs, curMin)
      requires Low26(pair) in m && m[Low26(pair)] == ValueOf(pair) && Low26(pair) !in part && Low(pair, lgConfigK) == Low26(pair)
      requires Rebuilding(Nibbles(hllByteArr[..]), nibs0, regs, curMin, part)
      requires AuxHolds(aux, lgConfigK, StillExceptional(part, curMin)) && (aux != null ==> aux.auxIntArr != hllByteArr)
      requires tokens + |part| == |m| + |StillExceptional(part, curMin)|
      modifies hllByteArr, aux, if aux == null then {} else {aux.auxIntArr}
      ensures Rebuilding(Nibbles(hllByteArr[..]), nibs0, regs, curMin, part[Low26(pair) := ValueOf(pair)])
      ensures AuxHolds(newAux, lgConfigK, StillExceptional(part[Low26(pair) := ValueOf(pair)], curMin))
      ensures newAux != null ==> (newAux == aux || fresh(newAux)) && ((aux != null && newAux.auxIntArr == old(aux.auxIntArr)) || fresh(newAux.auxIntArr))
      ensures numAuxTokens + |part[Low26(pair) := ValueOf(pair)]| == |m| + |StillExceptional(part[Low26(pair) := ValueOf(pair)], curMin)|
    {
      hide Nibble, Exceptions, Nibbles, Pow2, Rebuilding, StillExceptional, Low, Low26, ValueOf, AuxHolds;
      ghost var s := Low26(pair);
      RebuildEntry(Nibbles(hllByteArr[..]), nibs0, regs, curMin, part, m, s);
      StillNext(part, curMin, s, ValueOf(pair));
      var slotNum := Low(pair, lgConfigK);
      var newShiftedVal := ValueOf(pair) - (curMin + 1);
      newAux, numAuxTokens := aux, tokens;
      SlotIs(slotNum);
      assert newShiftedVal >= 14 && GetSlot(slotNum) == AUX_TOKEN;
      if newShiftedVal < AUX_TOKEN { // the former exception value isn't one anymore
        PutSlot(slotNum, newShiftedVal);
        numAuxTokens := numAuxTokens - 1;
      } else { // the former exception remains an exception
        newAux := WithEntry(newAux, lgConfigK, slotNum, ValueOf(pair), StillExceptional(part, curMin));
      }
    }
  }

  /** mustAdd on a map that is created when it does not exist yet. */
  method WithEntry(aux: AuxHashMap?, lgK: nat, slotNo: nat, value: nat, ghost m: map<nat, nat>) returns (aux': AuxHashMap?)
    requires AuxHolds(aux, lgK, m) && slotNo !in m && slotNo < Pow2(lgK) && value > 0 && 4 <= lgK <= 21
    modifies aux, if aux == null then {} else {aux.auxIntArr}
    ensures AuxHolds(aux', lgK, m[slotNo := value]) && aux' != null
    ensures if aux == null then fresh(aux') else aux' == aux
    ensures (aux != null && aux'.auxIntArr == old(aux.auxIntArr)) || fresh(aux'.auxIntArr)
  {
    hide Pow2;
    aux' := aux;
    if aux == null {
      aux' := new AuxHashMap(LG_AUX_ARR_INTS[lgK], lgK);
    }
    var ok := aux'.MustAdd(slotNo, value);
    assert ok;
  }

  lemma AuxFacts(aux: AuxHashMap?, lgK: nat, m: map<nat, nat>)
    requires AuxHolds(aux, lgK, m)
    ensures aux == null ==> m == map[]
    ensures aux != null ==> aux.Valid() && aux.lgConfigK == lgK && aux.contents == m
    ensures AuxHolds(null, lgK, map[])
  {
  }

  ghost function Raised(regs: seq<nat>, slotNo: nat, v: nat): (r: seq<nat>)
    requires slotNo < |regs|
    ensures |r| == |regs|
  {
    if v > regs[slotNo] then regs[slotNo := v] else regs
  }

  lemma QuickReject(nibs: seq<nat>, regs: seq<nat>, curMin: nat, slotNo: nat, v: nat)
    requires Represents(nibs, regs, curMin) && slotNo < |regs| && v <= curMin
    ensures Raised(regs, slotNo, v) == regs
  {
  }

  lemma AtLeastMin(nibs: seq<nat>, regs: seq<nat>, curMin: nat, slotNo: nat)
    requires Represents(nibs, regs, curMin) && slotNo < |regs|
    ensures curMin <= regs[slotNo] <= MAX_VALUE
  {
  }

  lemma AllAboveMin(nibs: seq<nat>, regs: seq<nat>, curMin: nat)
    requires Represents(nibs, regs, curMin) && CountOf(regs, curMin) == 0 && |regs| > 0
    ensures (forall i :: 0 <= i < |regs| ==> regs[i] > curMin) && curMin < MAX_VALUE
  {
    CountZero(regs, curMin);
    assert curMin <= regs[0] <= MAX_VALUE && regs[0] != curMin;
  }

  /** The first n stored values have been decremented, except for the tokens. */
  ghost predicate Decremented(nibs: seq<nat>, nibs0: seq<nat>, n: nat)
  {
    |nibs| == |nibs0| && n <= |nibs| &&
    forall j :: 0 <= j < |nibs| ==> nibs[j] == if j < n && nibs0[j] < AUX_TOKEN then nibs0[j] - 1 else nibs0[j] as int
  }

  lemma CountNone(regs: seq<nat>, nibs: seq<nat>, v: nat)
    ensures CountOf(regs[..0], v) == 0 && CountOf(nibs[..0], AUX_TOKEN) == 0
  {
  }

  lemma SameNibble(nibs: seq<nat>, regs: seq<nat>, curMin: nat, slotNo: nat, v: nat)
    requires Represents(nibs, regs, curMin) && slotNo < |regs| && regs[slotNo] >= curMin + AUX_TOKEN && v >= curMin + AUX_TOKEN
    ensures nibs[slotNo := Stored(v, curMin)] == nibs
  {
  }

  ghost function ExceptionsBefore(regs: seq<nat>, curMin: nat, n: nat): set<nat>
  {
    set i: nat | i < n && i < |regs| && regs[i] >= curMin + AUX_TOKEN
  }

  lemma {:induction false} TokensBefore(nibs: seq<nat>, regs: seq<nat>, curMin: nat, n: nat)
    requires Represents(nibs, regs, curMin) && n <= |regs|
    ensures |ExceptionsBefore(regs, curMin, n)| == CountOf(nibs[..n], AUX_TOKEN)
  {
    hide CountOf, ExceptionsBefore;
    if n == 0 {
      CountNone(regs, nibs, 0);
      NoneBefore(regs, curMin);
    } else {
      TokensBefore(nibs, regs, curMin, n - 1);
      CountSnoc(nibs, n - 1, AUX_TOKEN);
      OneBefore(regs, curMin, n - 1);
    }
  }

  lemma NoneBefore(regs: seq<nat>, curMin: nat)
    ensures ExceptionsBefore(regs, curMin, 0) == {}
  {
  }

  lemma OneBefore(regs: seq<nat>, curMin: nat, n: nat)
    requires n < |regs|
    ensures |ExceptionsBefore(regs, curMin, n + 1)| == |ExceptionsBefore(regs, curMin, n)| + if regs[n] >= curMin + AUX_TOKEN then 1 else 0
  {
    assert ExceptionsBefore(regs, curMin, n + 1) ==
      ExceptionsBefore(regs, curMin, n) + if regs[n] >= curMin + AUX_TOKEN then {n} else {};
  }

  /** There are as many tokens in the array as exceptions. */
  lemma TokenCount(nibs: seq<nat>, regs: seq<nat>, curMin: nat)
    requires Represents(nibs, regs, curMin)
    ensures CountOf(nibs, AUX_TOKEN) == |Exceptions(regs, curMin)|
  {
    TokensBefore(nibs, regs, curMin, |regs|);
    assert nibs[..|regs|] == nibs;
    assert Exceptions(regs, curMin).Keys == ExceptionsBefore(regs, curMin, |regs|);
    assert |Exceptions(regs, curMin)| == |Exceptions(regs, curMin).Keys|;
  }

  // ---- rebuilding the exceptions for a larger minimum ----

  /** The nibbles after the entries in `part` have been looked at again. */
  ghost predicate Rebuilding(nibs: seq<nat>, nibs0: seq<nat>, regs: seq<nat>, curMin: nat, part: map<nat, nat>)
  {
    |nibs| == |nibs0| && Represents(nibs0, regs, curMin) && (forall i :: 0 <= i < |regs| ==> regs[i] > curMin) &&
    forall j :: 0 <= j < |nibs| ==>
      nibs[j] == if nibs0[j] < AUX_TOKEN then nibs0[j] - 1
                 else if j in part && part[j] == curMin + AUX_TOKEN then AUX_TOKEN - 1 else AUX_TOKEN
  }

  /** The entries that remain exceptions when the minimum grows by one. */
  ghost function StillExceptional(part: map<nat, nat>, curMin: nat): map<nat, nat>
  {
    map s | s in part && part[s] > curMin + AUX_TOKEN :: part[s]
  }

  lemma NoneExceptional(curMin: nat)
    ensures StillExceptional(map[], curMin) == map[]
  {
  }

  lemma StillNext(part: map<nat, nat>, curMin: nat, s: nat, v: nat)
    requires s !in part
    ensures StillExceptional(part[s := v], curMin) == if v > curMin + AUX_TOKEN then StillExceptional(part, curMin)[s := v] else StillExceptional(part, curMin)
    ensures s !in StillExceptional(part, curMin)
  {
  }

  lemma RebuildStart(nibs: seq<nat>, nibs0: seq<nat>, regs: seq<nat>, curMin: nat)
    requires Decremented(nibs, nibs0, |regs|) && Represents(nibs0, regs, curMin) && forall i :: 0 <= i < |regs| ==> regs[i] > curMin
    ensures Rebuilding(nibs, nibs0, regs, curMin, map[])
  {
  }

  lemma RebuildEntry(nibs: seq<nat>, nibs0: seq<nat>, regs: seq<nat>, curMin: nat, part: map<nat, nat>, m: map<nat, nat>, s: nat)
    requires Rebuilding(nibs, nibs0, regs, curMin, part) && m == Exceptions(regs, curMin) && s in m && s !in part
    ensures s < |regs| == |nibs| && nibs[s] == AUX_TOKEN && m[s] >= curMin + AUX_TOKEN
    ensures m[s] == curMin + AUX_TOKEN ==> Rebuilding(nibs[s := AUX_TOKEN - 1], nibs0, regs, curMin, part[s := m[s]])
    ensures m[s] > curMin + AUX_TOKEN ==> Rebuilding(nibs, nibs0, regs, curMin, part[s := m[s]])
  {
  }

  lemma RebuildDone(nibs: seq<nat>, nibs0: seq<nat>, regs: seq<nat>, curMin: nat, m: map<nat, nat>)
    requires Rebuilding(nibs, nibs0, regs, curMin, m) && m == Exceptions(regs, curMin)
    ensures Represents(nibs, regs, curMin + 1) && StillExceptional(m, curMin) == Exceptions(regs, curMin + 1)
  {
  }

  lemma EntryOfTable(arr: seq<nat>, lg: nat, lgK: nat, m: map<nat, nat>, part: map<nat, nat>, j: nat)
    requires Copied(arr, lg, lgK, m, part, j) && j < |arr| && arr[j] != 0 && lgK <= 26
    ensures Low26(arr[j]) in m && m[Low26(arr[j])] == ValueOf(arr[j]) && Low(arr[j], lgK) == Low26(arr[j])
  {
    EntryFound(arr, lg, lgK, m, j);
    SlotOfFetched(arr[j], lgK);
  }
}
