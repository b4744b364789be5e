/** The HLL union gadget, and conversions of its result: hll/src/HllUnion.cpp, hll/src/CouponList.cpp, hll/src/CouponHashSet.cpp, hll/src/Conversions.cpp. */
module HllUnions {
  import opened Sets
  import opened Words
  import opened LinearProbing
  import opened AuxHashMaps
  import opened Hll4Arrays
  import opened HllRegisters
  import opened Hll6Arrays
  import opened CouponSets

  // ---- HLL_8 arrays ----

  class Hll8Array {
    const lgConfigK: nat
    var numAtCurMin: nat  // the number of zeros
    var hllByteArr: array<nat>

    ghost predicate Valid()
      reads this, hllByteArr
    {
      4 <= lgConfigK <= 21 && hllByteArr.Length == Pow2(lgConfigK) && numAtCurMin == CountOf(hllByteArr[..], 0)
    }

    constructor (lgConfigK: nat)
      requires 4 <= lgConfigK <= 21
      ensures Valid() && this.lgConfigK == lgConfigK && hllByteArr[..] == seq(Pow2(lgConfigK), _ => 0) && fresh(hllByteArr)
    {
      this.lgConfigK := lgConfigK;
      numAtCurMin := Pow2(lgConfigK);
      hllByteArr := new nat[Pow2(lgConfigK)](_ => 0);
      new;
      CountAll(hllByteArr[..], 0);
      assert hllByteArr[..] == seq(Pow2(lgConfigK), _ => 0);
    }

    constructor Copy(lgConfigK: nat, regs: seq<nat>)
      requires 4 <= lgConfigK <= 21 && |regs| == Pow2(lgConfigK)
      ensures Valid() && this.lgConfigK == lgConfigK && hllByteArr[..] == regs && fresh(hllByteArr)
    {
      this.lgConfigK := lgConfigK;
      numAtCurMin := CountOf(regs, 0);
      hllByteArr := new nat[|regs|](i requires 0 <= i < |regs| => regs[i]);
      new;
      assert hllByteArr[..] == regs;
    }

    /** couponUpdate: false stands for the exception for a value of zero; the check on the number of zeros cannot fail. */
    method CouponUpdate(coupon: nat) returns (ok: bool)
      requires Valid() && ValueOf(coupon) <= MAX_VALUE
      modifies this`numAtCurMin, hllByteArr
      ensures Valid() && ok == (ValueOf(coupon) > 0)
      ensures hllByteArr[..] == if ok then Raised(old(hllByteArr[..]), SlotOf(coupon, lgConfigK), ValueOf(coupon)) else old(hllByteArr[..])
    {
      hide CountOf, Pow2, SlotOf;
      var slotNo := SlotOf(coupon, lgConfigK);
      var newVal := ValueOf(coupon);
      if newVal <= 0 {
        return false;
      }
      var curVal := hllByteArr[slotNo];
      if newVal > curVal {
        ghost var regs := hllByteArr[..];
        CountOfUpdate(regs, slotNo, newVal, 0);
        hllByteArr[slotNo] := newVal;
        assert hllByteArr[..] == regs[slotNo := newVal];
        if curVal == 0 {
          numAtCurMin := numAtCurMin - 1;
        }
      }
      return true;
    }
  }

  /** Feed one coupon to an array that holds the maxima of C. */
  method FeedCoupon(dst: Hll8Array, coupon: nat, ghost C: set<nat>)
    requires dst.Valid() && RegistersOf(dst.hllByteArr[..], dst.lgConfigK, C) && HllCoupon(coupon)
    modifies dst`numAtCurMin, dst.hllByteArr
    ensures dst.Valid() && RegistersOf(dst.hllByteArr[..], dst.lgConfigK, C + {coupon})
  {
    hide RegistersOf, CountOf, Pow2, SlotOf;
    RaiseRegister(dst.hllByteArr[..], dst.lgConfigK, C, coupon);
    var ok := dst.CouponUpdate(coupon);
  }

  /** Feed the non-zero registers of a sketch of at least as many rows. */
  method FeedRegisters(dst: Hll8Array, regs: seq<nat>, srcLgK: nat, ghost C: set<nat>, ghost D: set<nat>)
    requires dst.Valid() && RegistersOf(dst.hllByteArr[..], dst.lgConfigK, C)
    requires dst.lgConfigK <= srcLgK <= 21 && RegistersOf(regs, srcLgK, D)
    modifies dst`numAtCurMin, dst.hllByteArr
    ensures dst.Valid() && RegistersOf(dst.hllByteArr[..], dst.lgConfigK, C + D)
  {
    hide RegistersOf, CountOf, Pow2, SlotOf, PairOf, Pairs, HllCoupon, ValueOf;
    SlotsFit(regs, srcLgK, D);
    NoPairs(regs, C);
    for i := 0 to |regs|
      invariant dst.Valid() && RegistersOf(dst.hllByteArr[..], dst.lgConfigK, C + Pairs(regs, i))
    {
      NextPairs(regs, i, C);
      if regs[i] > 0 {
        PairIsCoupon(regs, srcLgK, D, i);
        FeedCoupon(dst, PairOf(i, regs[i]), C + Pairs(regs, i));
      }
    }
    FoldRegisters(dst.hllByteArr[..], dst.lgConfigK, C, regs, srcLgK, D);
  }

  lemma SlotsFit(regs: seq<nat>, lgK: nat, D: set<nat>)
    requires RegistersOf(regs, lgK, D) && lgK <= 26
    ensures |regs| == Pow2(lgK) <= TWO_TO_THE_26
  {
    Pow2Monotone(lgK, 26);
    Pow26();
  }

  lemma NextPairs(regs: seq<nat>, i: nat, C: set<nat>)
    requires i < |regs| <= TWO_TO_THE_26
    ensures C + Pairs(regs, i + 1) == if regs[i] > 0 then C + Pairs(regs, i) + {PairOf(i, regs[i])} else C + Pairs(regs, i)
  {
    hide PairOf, Pairs;
    PairsNext(regs, i);
  }

  lemma NoPairs(regs: seq<nat>, C: set<nat>)
    requires |regs| <= TWO_TO_THE_26
    ensures C + Pairs(regs, 0) == C
  {
  }

  /** copyOrDownsampleHll */
  method CopyOrDownsampleHll(regs: seq<nat>, srcLgK: nat, isHll8: bool, tgtLgK: nat, ghost D: set<nat>) returns (dst: Hll8Array)
    requires RegistersOf(regs, srcLgK, D) && 4 <= srcLgK <= 21 && 4 <= tgtLgK <= 21
    ensures fresh(dst) && fresh(dst.hllByteArr) && dst.Valid()
    ensures dst.lgConfigK == (if srcLgK < tgtLgK then srcLgK else tgtLgK) && RegistersOf(dst.hllByteArr[..], dst.lgConfigK, D)
  {
    SlotsFit(regs, srcLgK, D);
    hide RegistersOf, CountOf, Pow2;
    if srcLgK <= tgtLgK && isHll8 {
      dst := new Hll8Array.Copy(srcLgK, regs);
      return;
    }
    var minLgK := if srcLgK < tgtLgK then srcLgK else tgtLgK;
    dst := new Hll8Array(minLgK);
    NoRegisters(minLgK);
    FeedRegisters(dst, regs, srcLgK, {}, D);
    assert {} + D == D;
  }

  // ---- the union ----

  /** A sketch as the union reads it: the cells of a list or set, or the registers of an HLL array of any type. */
  datatype Source = Cells(cells: seq<nat>) | Registers(lgK: nat, isHll8: bool, regs: seq<nat>)

  ghost predicate AllHll(C: set<nat>)
  {
    forall c :: c in C ==> HllCoupon(c)
  }

  /** A source stands for the coupons it was fed. */
  ghost predicate SourceOf(source: Source, C: set<nat>)
  {
    match source
    case Cells(cells) => CouponsIn(cells) == C && AllHll(C)
    case Registers(lgK, _, regs) => 4 <= lgK <= 21 && RegistersOf(regs, lgK, C)
  }

  predicate SourceIsEmpty(source: Source)
  {
    match source
    case Cells(cells) => forall i :: 0 <= i < |cells| ==> cells[i] == 0
    case Registers(_, _, regs) => forall j :: 0 <= j < |regs| ==> regs[j] == 0
  }

  /** A sketch is empty exactly when it was fed no coupon. */
  lemma EmptySource(source: Source, C: set<nat>)
    requires SourceOf(source, C)
    ensures SourceIsEmpty(source) <==> C == {}
  {
    hide SlotOf;
    match source
    case Cells(cells) =>
      if i :| 0 <= i < |cells| && cells[i] != 0 {
        assert cells[i] in CouponsIn(cells);
      }
    case Registers(lgK, _, regs) =>
      if j :| 0 <= j < |regs| && regs[j] > 0 {
        assert Attained(C, lgK, j, regs[j]);
      }
      if c :| c in C {
        assert regs[SlotOf(c, lgK)] > 0;
      }
  }

  predicate HllSource(source: Source) { source.Registers? && !SourceIsEmpty(source) }

  ghost predicate AnyHll(sources: seq<Source>) { exists s :: s in sources && HllSource(s) }

  /** The rows of an HLL array after one more source: only a non-empty HLL source may shrink it. */
  function LeastLg(lgLeast: nat, source: Source): (lg: nat)
    ensures lg <= lgLeast
  {
    if source.Registers? && !SourceIsEmpty(source) && source.lgK < lgLeast then source.lgK else lgLeast
  }

  datatype Impl = ListImpl(list: CouponList) | SetImpl(coupons: CouponHashSet) | HllImpl(hll: Hll8Array)

  function Node(g: Impl): object
  {
    match g
    case ListImpl(list) => list
    case SetImpl(coupons) => coupons
    case HllImpl(hll) => hll
  }

  /** The cells of a list or set, or the registers. */
  function CellArray(g: Impl): array<nat>
    reads Node(g)
  {
    match g
    case ListImpl(list) => list.couponIntArr
    case SetImpl(coupons) => coupons.couponIntArr
    case HllImpl(hll) => hll.hllByteArr
  }

  /** The gadget stands for the coupons C; an HLL array has 2^lgLeast registers. */
  ghost predicate Stands(g: Impl, lgMaxK: nat, C: set<nat>, lgLeast: nat)
    reads Node(g), CellArray(g)
  {
    match g
    case ListImpl(list) => list.Valid() && CouponsIn(list.couponIntArr[..]) == C && AllHll(C) && lgLeast == lgMaxK
    case SetImpl(coupons) => coupons.Valid() && coupons.lgConfigK == lgMaxK && CouponsIn(coupons.couponIntArr[..]) == C && AllHll(C) && lgLeast == lgMaxK
    case HllImpl(hll) => hll.Valid() && hll.lgConfigK == lgLeast <= lgMaxK && RegistersOf(hll.hllByteArr[..], lgLeast, C) && (C == {} ==> lgLeast == lgMaxK)
  }

  /** So many coupons fit no list of 8 cells, nor a set filled to three quarters of an eighth of the rows. */
  ghost predicate TooMany(n: nat, lgMaxK: nat)
  {
    n >= 8 && (lgMaxK < 8 || 4 * n > 3 * Pow2(lgMaxK - 3))
  }

  lemma ManyMore(S: set<nat>, T: set<nat>, lgMaxK: nat)
    requires S <= T && TooMany(|S|, lgMaxK)
    ensures TooMany(|T|, lgMaxK)
  {
    SubsetSize(S, T);
  }

  /** Until it is full, a set has not too many coupons. */
  lemma NotTooMany(coupons: CouponHashSet)
    requires coupons.Valid()
    ensures !TooMany(|CouponsIn(coupons.couponIntArr[..])|, coupons.lgConfigK)
  {
    hide HashSet, Active, CouponsIn;
    Pow2Monotone(coupons.lgCouponArrInts, coupons.lgConfigK - 3);
  }

  class HllUnion {
    const lgMaxK: nat
    var gadget: Impl
    ghost var contributed: set<nat>  // every coupon that went into the union, directly or inside a sketch
    ghost var lgLeast: nat           // the smallest of lgMaxK and the lgK of the non-empty HLL sources
    ghost var fedHll: bool           // one of the sources was a non-empty HLL array

    /**
     * The gadget is an HLL array exactly when such a source came, or too many coupons for a list or set; until then it is a
     * list below eight coupons and a set from there on.
     */
    ghost predicate Valid()
      reads this, Node(gadget), CellArray(gadget)
    {
      4 <= lgMaxK <= 21 && Stands(gadget, lgMaxK, contributed, lgLeast) &&
      (gadget.HllImpl? <==> fedHll || TooMany(|contributed|, lgMaxK)) && (gadget.SetImpl? ==> |contributed| >= INIT_LIST_SIZE)
    }

    constructor (lgMaxK: nat)
      requires 4 <= lgMaxK <= 21
      ensures Valid() && contributed == {} && lgLeast == this.lgMaxK == lgMaxK && !fedHll && fresh(Node(gadget)) && fresh(CellArray(gadget))
    {
      this.lgMaxK := lgMaxK;
      var list := new CouponList(lgMaxK);
      gadget := ListImpl(list);
      contributed := {};
      lgLeast := lgMaxK;
      fedHll := false;
    }

    /** couponUpdate, with the promotions of the gadget from list to set to HLL array. */
    method CouponUpdate(coupon: nat)
      requires Valid() && (coupon == 0 || HllCoupon(coupon))
      modifies this`gadget, this`contributed, Node(gadget), CellArray(gadget)
      ensures Valid() && contributed == old(contributed) + (if coupon == 0 then {} else {coupon})
      ensures Node(gadget) == old(Node(gadget)) || fresh(Node(gadget))
      ensures CellArray(gadget) == old(CellArray(gadget)) || fresh(CellArray(gadget))
    {
      hide RegistersOf, CountOf, Pow2, CouponsIn, HllCoupon, SlotOf;
      if coupon == 0 {
        assert contributed + {} == contributed;
        return;
      }
      match gadget
      case ListImpl(list) => UpdateList(list, coupon);
      case SetImpl(coupons) => UpdateSet(coupons, coupon);
      case HllImpl(hll) =>
        FeedCoupon(hll, coupon, contributed);
        if TooMany(|contributed|, lgMaxK) {
          ManyMore(contributed, contributed + {coupon}, lgMaxK);
        }
        contributed := contributed + {coupon};
    }

    /** A coupon for the list. */
    method UpdateList(list: CouponList, coupon: nat)
      requires Valid() && gadget == ListImpl(list) && coupon > 0 && HllCoupon(coupon)
      modifies this`gadget, this`contributed, list`couponCount, list.couponIntArr
      ensures Valid() && contributed == old(contributed) + {coupon}
      ensures gadget == old(gadget) || (fresh(Node(gadget)) && fresh(CellArray(gadget)))
    {
      hide RegistersOf, CountOf, Pow2, CouponsIn, HllCoupon, Listed, HashSet;
      var full := list.CouponUpdate(coupon);
      contributed := contributed + {coupon};
      if full {
        if lgMaxK < 8 {
          var hll := PromoteToHll(list.couponIntArr);
          gadget := HllImpl(hll);
        } else {
          PromoteToSet(list);
        }
      }
    }

    /** promoteHeapListToSet: the set neither grows nor asks for a promotion. */
    method PromoteToSet(list: CouponList)
      requires |contributed| == INIT_LIST_SIZE
      requires 8 <= lgMaxK <= 21 && lgLeast == lgMaxK && !fedHll && list.Shape() && CouponsIn(list.couponIntArr[..]) == contributed && AllHll(contributed)
      modifies this`gadget
      ensures Valid() && fresh(Node(gadget)) && fresh(CellArray(gadget))
    {
      hide CountOf, CouponsIn, Pow2, HashSet, AllHll, RegistersOf;
      var chSet := new CouponHashSet(lgMaxK);
      ListFilled(list.couponIntArr[..], list.couponCount);
      SetRoom();
      for i := 0 to list.couponCount
        invariant chSet.Valid() && fresh(chSet) && fresh(chSet.couponIntArr) && chSet.lgConfigK == lgMaxK
        invariant chSet.couponCount <= i && chSet.lgCouponArrInts == LG_INIT_SET_SIZE && CouponsIn(chSet.couponIntArr[..]) == CouponsIn(list.couponIntArr[..i])
      {
        CouponsSnoc(list.couponIntArr[..], i);
        assert list.couponIntArr[..][..i] == list.couponIntArr[..i] && list.couponIntArr[..][..i + 1] == list.couponIntArr[..i + 1];
        var promote := chSet.CouponUpdate(list.couponIntArr[i]);
      }
      NotTooMany(chSet);
      gadget := SetImpl(chSet);
    }

    /** A coupon for the set. */
    method UpdateSet(coupons: CouponHashSet, coupon: nat)
      requires Valid() && gadget == SetImpl(coupons) && coupon > 0 && HllCoupon(coupon)
      modifies this`gadget, this`contributed, coupons, coupons.couponIntArr
      ensures Valid() && contributed == old(contributed) + {coupon}
      ensures gadget == old(gadget) || fresh(Node(gadget))
      ensures CellArray(gadget) == old(CellArray(gadget)) || fresh(CellArray(gadget))
    {
      hide RegistersOf, CountOf, Pow2, CouponsIn, HllCoupon, HashSet, Active;
      var promote := coupons.CouponUpdate(coupon);
      SubsetSize(contributed, contributed + {coupon});
      contributed := contributed + {coupon};
      if promote {
        var hll := PromoteToHll(coupons.couponIntArr);
        gadget := HllImpl(hll);
        EightAtLeast(lgMaxK - 3);
      } else {
        NotTooMany(coupons);
      }
    }

    /** promoteHeapListOrSetToHll */
    method PromoteToHll(cells: array<nat>) returns (tgt: Hll8Array)
      requires 4 <= lgMaxK <= 21 && lgLeast == lgMaxK && CouponsIn(cells[..]) == contributed && AllHll(contributed)
      ensures fresh(tgt) && fresh(tgt.hllByteArr) && tgt.Valid() && tgt.lgConfigK == lgMaxK && RegistersOf(tgt.hllByteArr[..], lgMaxK, contributed)
    {
      hide RegistersOf, CountOf, Pow2, CouponsIn;
      tgt := new Hll8Array(lgMaxK);
      NoRegisters(lgMaxK);
      FeedCoupons(tgt, cells[..], {});
      assert {} + CouponsIn(cells[..]) == contributed;
    }

    /** isEmpty of the gadget. */
    method GadgetIsEmpty() returns (empty: bool)
      requires Valid()
      ensures empty == (contributed == {})
    {
      hide Pow2, SlotOf, HashSet, Listed, Active;
      match gadget
      case ListImpl(list) => empty := list.couponCount == 0;
      case SetImpl(coupons) => empty := coupons.couponCount == 0;
      case HllImpl(hll) =>
        empty := hll.numAtCurMin == hll.hllByteArr.Length;
        ZerosMeanNothing(hll.hllByteArr[..], hll.lgConfigK, contributed);
    }

    /** unionImpl */
    method UnionImpl(source: Source, ghost C: set<nat>)
      requires Valid() && SourceOf(source, C)
      modifies this, Node(gadget), CellArray(gadget)
      ensures Valid() && contributed == old(contributed) + C && lgLeast == LeastLg(old(lgLeast), source)
      ensures fedHll == (old(fedHll) || HllSource(source))
      ensures Node(gadget) == old(Node(gadget)) || fresh(Node(gadget))
      ensures CellArray(gadget) == old(CellArray(gadget)) || fresh(CellArray(gadget))
    {
      hide RegistersOf, Stands;
      EmptySource(source, C);
      if SourceIsEmpty(source) {
        return;
      }
      match source
      case Cells(cells) => UnionCoupons(cells);
      case Registers(lgK, isHll8, regs) => UnionRegisters(lgK, isHll8, regs, C);
    }

    /** The cases of a list or set source. */
    method UnionCoupons(cells: seq<nat>)
      requires Valid() && AllHll(CouponsIn(cells))
      modifies this`gadget, this`contributed, Node(gadget), CellArray(gadget)
      ensures Valid() && contributed == old(contributed) + CouponsIn(cells)
      ensures Node(gadget) == old(Node(gadget)) || fresh(Node(gadget))
      ensures CellArray(gadget) == old(CellArray(gadget)) || fresh(CellArray(gadget))
    {
      hide Stands, CouponsIn, HllCoupon;
      ghost var before := contributed;
      NoneYet(cells, before);
      for i := 0 to |cells|
        invariant Valid() && contributed == before + CouponsIn(cells[..i])
        invariant Node(gadget) == old(Node(gadget)) || fresh(Node(gadget))
        invariant CellArray(gadget) == old(CellArray(gadget)) || fresh(CellArray(gadget))
      {
        NextCoupon(cells, i, before);
        CouponUpdate(cells[i]);
      }
      assert cells[..|cells|] == cells;
    }

    /** The cases of an HLL source: an empty gadget is replaced, a list or set is fed into a copy of the source, an HLL array shrinks to the source if need be. */
    method UnionRegisters(srcLgK: nat, isHll8: bool, regs: seq<nat>, ghost C: set<nat>)
      requires Valid() && 4 <= srcLgK <= 21 && RegistersOf(regs, srcLgK, C) && C != {}
      modifies this, Node(gadget), CellArray(gadget)
      ensures Valid() && contributed == old(contributed) + C && lgLeast == if srcLgK < old(lgLeast) then srcLgK else old(lgLeast)
      ensures fedHll
      ensures Node(gadget) == old(Node(gadget)) || fresh(Node(gadget))
      ensures CellArray(gadget) == old(CellArray(gadget)) || fresh(CellArray(gadget))
    {
      hide RegistersOf, CountOf, Pow2, CouponsIn, HllCoupon, HashSet, Listed, Active;
      var empty := GadgetIsEmpty();
      if empty || !gadget.HllImpl? {
        var dst := CopyOrDownsampleHll(regs, srcLgK, isHll8, lgMaxK, C);
        if !empty {
          FeedCoupons(dst, CellArray(gadget)[..], C);
        }
        assert C + contributed == contributed + C;
        assert empty ==> contributed + C == C;
        Replace(dst, contributed + C);
      } else {
        UnionHll(gadget.hll, srcLgK, regs, C);
      }
    }

    /** Both are HLL arrays. */
    method UnionHll(hll: Hll8Array, srcLgK: nat, regs: seq<nat>, ghost C: set<nat>)
      requires Valid() && gadget == HllImpl(hll) && 4 <= srcLgK <= 21 && RegistersOf(regs, srcLgK, C) && C != {}
      modifies this, hll`numAtCurMin, hll.hllByteArr
      ensures Valid() && contributed == old(contributed) + C && lgLeast == if srcLgK < old(lgLeast) then srcLgK else old(lgLeast)
      ensures fedHll
      ensures Node(gadget) == old(Node(gadget)) || fresh(Node(gadget))
      ensures CellArray(gadget) == old(CellArray(gadget)) || fresh(CellArray(gadget))
    {
      hide RegistersOf, CountOf, Pow2;
      var dst := hll;
      if srcLgK < hll.lgConfigK {
        dst := CopyOrDownsampleHll(hll.hllByteArr[..], hll.lgConfigK, true, srcLgK, contributed);
      }
      FeedRegisters(dst, regs, srcLgK, contributed, C);
      Replace(dst, contributed + C);
    }

    method Replace(dst: Hll8Array, ghost C: set<nat>)
      requires 4 <= lgMaxK <= 21 && dst.Valid() && dst.lgConfigK <= lgMaxK && RegistersOf(dst.hllByteArr[..], dst.lgConfigK, C) && C != {}
      modifies this
      ensures Valid() && contributed == C && gadget == HllImpl(dst) && lgLeast == dst.lgConfigK && fedHll
    {
      hide RegistersOf, CountOf, Pow2;
      gadget := HllImpl(dst);
      contributed := C;
      lgLeast := dst.lgConfigK;
      fedHll := true;
    }
  }

  lemma EightAtLeast(lg: nat)
    requires lg >= LG_INIT_SET_SIZE
    ensures Pow2(lg) >= 32
  {
    SetRoom();
    Pow2Monotone(LG_INIT_SET_SIZE, lg);
  }

  /** Every register is zero exactly when there were no coupons. */
  lemma ZerosMeanNothing(regs: seq<nat>, lgK: nat, C: set<nat>)
    requires RegistersOf(regs, lgK, C) && 4 <= lgK <= 21
    ensures CountOf(regs, 0) == |regs| <==> C == {}
  {
    hide SlotOf;
    if CountOf(regs, 0) == |regs| {
      AllZero(regs);
      EmptySource(Registers(lgK, true, regs), C);
    }
    if C == {} {
      EmptySource(Registers(lgK, true, regs), C);
      CountAll(regs, 0);
    }
  }

  lemma {:induction false} AllZero(s: seq<nat>)
    requires CountOf(s, 0) == |s|
    ensures forall i :: 0 <= i < |s| ==> s[i] == 0
  {
    if s != [] {
      AllZero(s[..|s| - 1]);
      assert forall i :: 0 <= i < |s| - 1 ==> s[i] == s[..|s| - 1][i];
    }
  }

  lemma ListFilled(cells: seq<nat>, n: nat)
    requires Listed(cells, n)
    ensures CouponsIn(cells[..n]) == CouponsIn(cells) && CouponsIn(cells[..0]) == {} && forall i :: 0 <= i < n ==> cells[i] != 0
  {
    forall c | c in CouponsIn(cells)
      ensures c in cells[..n]
    {
      var i :| 0 <= i < |cells| && cells[i] == c;
      assert cells[..n][i] == c;
    }
  }

  lemma SetRoom()
    ensures Pow2(LG_INIT_SET_SIZE) == 32
  {
    assert Pow2(5) == 32;
  }

  lemma NoneYet(cells: seq<nat>, before: set<nat>)
    ensures before + CouponsIn(cells[..0]) == before
  {
  }

  lemma NextCoupon(cells: seq<nat>, i: nat, before: set<nat>)
    requires i < |cells| && AllHll(CouponsIn(cells))
    ensures cells[i] != 0 ==> HllCoupon(cells[i])
    ensures before + CouponsIn(cells[..i + 1]) == before + CouponsIn(cells[..i]) + if cells[i] == 0 then {} else {cells[i]}
  {
    hide HllCoupon;
    CouponsSnoc(cells, i);
    assert cells[i] != 0 ==> cells[i] in CouponsIn(cells);
  }

  method FeedCoupons(dst: Hll8Array, cells: seq<nat>, ghost C: set<nat>)
    requires dst.Valid() && RegistersOf(dst.hllByteArr[..], dst.lgConfigK, C) && AllHll(CouponsIn(cells))
    modifies dst`numAtCurMin, dst.hllByteArr
    ensures dst.Valid() && RegistersOf(dst.hllByteArr[..], dst.lgConfigK, C + CouponsIn(cells))
  {
    hide RegistersOf, CountOf, Pow2, HllCoupon, CouponsIn, AllHll;
    NoneYet(cells, C);
    for i := 0 to |cells|
      invariant dst.Valid() && RegistersOf(dst.hllByteArr[..], dst.lgConfigK, C + CouponsIn(cells[..i]))
    {
      NextCoupon(cells, i, C);
      if cells[i] != 0 {
        FeedCoupon(dst, cells[i], C + CouponsIn(cells[..i]));
      } else {
        assert C + CouponsIn(cells[..i]) + {} == C + CouponsIn(cells[..i]);
      }
    }
    assert cells[..|cells|] == cells;
  }

  // ---- runs ----

  ghost function AllContributed(Cs: seq<set<nat>>): set<nat>
  {
    if Cs == [] then {} else AllContributed(Cs[..|Cs| - 1]) + Cs[|Cs| - 1]
  }

  function LeastLgOf(lgMaxK: nat, sources: seq<Source>): (lg: nat)
    ensures lg <= lgMaxK
  {
    if sources == [] then lgMaxK else LeastLg(LeastLgOf(lgMaxK, sources[..|sources| - 1]), sources[|sources| - 1])
  }

  /** Any sequence of sources of any kind: the union stands for all of their coupons, at the smallest K among its own and those of the HLL sources. */
  method RunUnion(lgMaxK: nat, sources: seq<Source>, ghost Cs: seq<set<nat>>) returns (union: HllUnion)
    requires 4 <= lgMaxK <= 21 && |Cs| == |sources| && forall i :: 0 <= i < |sources| ==> SourceOf(sources[i], Cs[i])
    ensures fresh(union) && union.Valid() && union.contributed == AllContributed(Cs) && union.lgLeast == LeastLgOf(lgMaxK, sources)
    ensures union.lgMaxK == lgMaxK && union.fedHll == AnyHll(sources)
  {
    hide Stands, SourceOf;
    union := new HllUnion(lgMaxK);
    for i := 0 to |sources|
      invariant fresh(union) && fresh(Node(union.gadget)) && fresh(CellArray(union.gadget)) && union.Valid()
      invariant union.contributed == AllContributed(Cs[..i]) && union.lgLeast == LeastLgOf(lgMaxK, sources[..i])
      invariant union.lgMaxK == lgMaxK && union.fedHll == AnyHll(sources[..i])
    {
      assert Cs[..i + 1][..i] == Cs[..i] && sources[..i + 1][..i] == sources[..i];
      assert sources[..i + 1] == sources[..i] + [sources[i]];
      union.UnionImpl(sources[i], Cs[i]);
    }
    assert Cs[..|Cs|] == Cs && sources[..|sources|] == sources;
  }

  /** What a sequence of sources contributes does not depend on its order. */
  lemma {:induction false} ContributedIff(Cs: seq<set<nat>>, c: nat)
    ensures c in AllContributed(Cs) <==> exists i :: 0 <= i < |Cs| && c in Cs[i]
  {
    if Cs != [] {
      var front := Cs[..|Cs| - 1];
      ContributedIff(front, c);
      if c in AllContributed(front) {
        var i :| 0 <= i < |front| && c in front[i];
        assert c in Cs[i];
      }
      if i :| 0 <= i < |Cs| && c in Cs[i] {
        assert i < |front| ==> c in front[i];
      }
    }
  }

  /** The smallest K among that of the union and those of its non-empty HLL sources, in whatever order they came. */
  lemma {:induction false} LeastLgIsMin(lgMaxK: nat, sources: seq<Source>)
    ensures forall i :: 0 <= i < |sources| && HllSource(sources[i]) ==> LeastLgOf(lgMaxK, sources) <= sources[i].lgK
    ensures LeastLgOf(lgMaxK, sources) == lgMaxK || exists i :: 0 <= i < |sources| && HllSource(sources[i]) && sources[i].lgK == LeastLgOf(lgMaxK, sources)
  {
    hide SourceIsEmpty;
    if sources != [] {
      var n := |sources| - 1;
      var front := sources[..n];
      LeastLgIsMin(lgMaxK, front);
      assert forall i :: 0 <= i < n ==> front[i] == sources[i];
    }
  }

  // ---- conversions ----

  /** curMinAndNum */
  method CurMinAndNum(values: seq<nat>) returns (curMin: nat, numAtCurMin: nat)
    requires |values| > 0 && forall i :: 0 <= i < |values| ==> values[i] <= MAX_VALUE
    ensures curMin <= MAX_VALUE && (forall i :: 0 <= i < |values| ==> values[i] >= curMin) && numAtCurMin == CountOf(values, curMin) > 0
  {
    hide CountOf;
    curMin, numAtCurMin := 64, 0;
    NoneCounted(values, 64);
    for i := 0 to |values|
      invariant (i == 0 <==> curMin == 64) && curMin <= 64 && (forall j :: 0 <= j < i ==> values[j] >= curMin)
      invariant numAtCurMin == CountOf(values[..i], curMin) && (i > 0 ==> numAtCurMin > 0)
    {
      var v := values[i];
      CountSnoc(values, i, curMin);
      CountSnoc(values, i, v);
      if v < curMin {
        NoneBelow(values[..i], v);
        curMin, numAtCurMin := v, 1;
      } else if v == curMin {
        numAtCurMin := numAtCurMin + 1;
      }
    }
    assert values[..|values|] == values;
  }

  lemma NoneCounted(s: seq<nat>, v: nat)
    ensures CountOf(s[..0], v) == 0
  {
  }

  lemma {:induction false} NoneBelow(s: seq<nat>, v: nat)
    requires forall i :: 0 <= i < |s| ==> s[i] != v
    ensures CountOf(s, v) == 0
  {
    if s != [] {
      NoneBelow(s[..|s| - 1], v);
    }
  }

  /** The exceptions among the first n registers. */
  ghost function FirstExceptions(values: seq<nat>, curMin: nat, n: nat): map<nat, nat>
  {
    map i: nat | i < n && i < |values| && values[i] >= curMin + AUX_TOKEN :: values[i]
  }

  lemma NextException(values: seq<nat>, curMin: nat, n: nat)
    requires n < |values|
    ensures FirstExceptions(values, curMin, n + 1) ==
            if values[n] >= curMin + AUX_TOKEN then FirstExceptions(values, curMin, n)[n := values[n]] else FirstExceptions(values, curMin, n)
    ensures n !in FirstExceptions(values, curMin, n)
  {
  }

  /** The first n nibbles have been written. */
  ghost predicate Converting(nibs: seq<nat>, values: seq<nat>, curMin: nat, n: nat)
  {
    |nibs| == |values| && (forall i :: 0 <= i < |values| ==> curMin <= values[i] <= MAX_VALUE) &&
    forall i :: 0 <= i < |values| ==> nibs[i] == if i < n then Stored(values[i], curMin) else 0
  }

  lemma ConvertNext(nibs: seq<nat>, values: seq<nat>, curMin: nat, n: nat)
    requires Converting(nibs, values, curMin, n) && n < |values|
    ensures Converting(nibs[n := Stored(values[n], curMin)], values, curMin, n + 1)
    ensures values[n] == 0 ==> Converting(nibs, values, curMin, n + 1)
  {
  }

  lemma ConvertDone(nibs: seq<nat>, values: seq<nat>, curMin: nat)
    requires Converting(nibs, values, curMin, |values|)
    ensures Represents(nibs, values, curMin) && FirstExceptions(values, curMin, |values|) == Exceptions(values, curMin)
  {
  }

  /** convertToHll4 preserves every register. */
  method ConvertToHll4(lgK: nat, values: seq<nat>) returns (hll: Hll4Array)
    requires 4 <= lgK <= 21 && |values| == Pow2(lgK) && forall i :: 0 <= i < |values| ==> values[i] <= MAX_VALUE
    ensures fresh(hll) && hll.Valid() && hll.lgConfigK == lgK && hll.regs == values
  {
    hide CountOf, Pow2, Nibbles, Exceptions, FirstExceptions, Converting, Represents, Nibble, AuxHolds;
    hll := new Hll4Array(lgK);
    var curMin, numAtCurMin := CurMinAndNum(values);
    var aux: AuxHashMap? := null;
    ConvertStart(hll, values, curMin);
    for i := 0 to |values|
      invariant hll.lgConfigK == lgK && |values| == 2 * hll.hllByteArr.Length && fresh(hll) && fresh(hll.hllByteArr)
      invariant Converting(Nibbles(hll.hllByteArr[..]), values, curMin, i)
      invariant AuxHolds(aux, lgK, FirstExceptions(values, curMin, i))
      invariant aux != null ==> fresh(aux) && fresh(aux.auxIntArr) && aux.auxIntArr != hll.hllByteArr
    {
      aux := ConvertOne(hll, aux, values, curMin, i);
    }
    ConvertDone(Nibbles(hll.hllByteArr[..]), values, curMin);
    hll.Install(aux, curMin, numAtCurMin, values);
  }

  lemma ConvertStart(hll: Hll4Array, values: seq<nat>, curMin: nat)
    requires hll.Valid() && hll.regs == seq(|values|, _ => 0) && forall i :: 0 <= i < |values| ==> curMin <= values[i] <= MAX_VALUE
    ensures Converting(Nibbles(hll.hllByteArr[..]), values, curMin, 0) && AuxHolds(null, hll.lgConfigK, FirstExceptions(values, curMin, 0))
    ensures |values| == 2 * hll.hllByteArr.Length
  {
    hide Nibbles, CountOf;
    assert FirstExceptions(values, curMin, 0) == map[];
  }

  /** One register of convertToHll4. */
  method ConvertOne(hll: Hll4Array, aux: AuxHashMap?, values: seq<nat>, curMin: nat, i: nat) returns (aux': AuxHashMap?)
    requires i < |values| == 2 * hll.hllByteArr.Length && 4 <= hll.lgConfigK <= 21 && |values| == Pow2(hll.lgConfigK)
    requires Converting(Nibbles(hll.hllByteArr[..]), values, curMin, i)
    requires AuxHolds(aux, hll.lgConfigK, FirstExceptions(values, curMin, i)) && (aux != null ==> aux.auxIntArr != hll.hllByteArr)
    modifies hll.hllByteArr, aux, if aux == null then {} else {aux.auxIntArr}
    ensures Converting(Nibbles(hll.hllByteArr[..]), values, curMin, i + 1)
    ensures AuxHolds(aux', hll.lgConfigK, FirstExceptions(values, curMin, i + 1))
    ensures aux' != null ==> (aux' == aux || fresh(aux')) && ((aux != null && aux'.auxIntArr == old(aux.auxIntArr)) || fresh(aux'.auxIntArr))
  {
    hide CountOf, Pow2, Nibbles, FirstExceptions, Converting, AuxHolds, Nibble, Stored;
    StoredRange(Nibbles(hll.hllByteArr[..]), values, curMin, i);
    ConvertNext(Nibbles(hll.hllByteArr[..]), values, curMin, i);
    NextException(values, curMin, i);
    aux' := aux;
    var actualValue := values[i];
    if actualValue != 0 {
      if actualValue >= curMin + 15 {
        hll.PutSlot(i, AUX_TOKEN);
        aux' := WithEntry(aux, hll.lgConfigK, i, actualValue, FirstExceptions(values, curMin, i));
      } else {
        hll.PutSlot(i, actualValue - curMin);
      }
    }
  }

  lemma StoredRange(nibs: seq<nat>, values: seq<nat>, curMin: nat, i: nat)
    requires Converting(nibs, values, curMin, i) && i < |values|
    ensures curMin <= values[i] <= MAX_VALUE
    ensures Stored(values[i], curMin) == if values[i] >= curMin + 15 then AUX_TOKEN else values[i] - curMin
  {
  }

  /** Among as many rows, the slot of a pair is its own. */
  lemma OwnSlot(i: nat, v: nat, lgK: nat)
    requires i < Pow2(lgK) && lgK <= 26
    ensures i < TWO_TO_THE_26 && SlotOf(PairOf(i, v), lgK) == i && ValueOf(PairOf(i, v)) == v
  {
    Pow2Monotone(lgK, 26);
    Pow26();
    LowKeeps(i, lgK);
  }

  /** The first n registers have been fed in. */
  ghost predicate Fed(regs: seq<nat>, values: seq<nat>, n: nat)
  {
    |regs| == |values| && forall i :: 0 <= i < |values| ==> regs[i] == if i < n then values[i] else 0
  }

  lemma FedNext(regs: seq<nat>, values: seq<nat>, n: nat)
    requires Fed(regs, values, n) && n < |values|
    ensures Fed(Raised(regs, n, values[n]), values, n + 1) && (values[n] == 0 ==> Fed(regs, values, n + 1))
  {
  }

  lemma FedAll(regs: seq<nat>, values: seq<nat>)
    requires Fed(regs, values, |values|)
    ensures regs == values
  {
  }

  /** convertToHll8 preserves every register. */
  method ConvertToHll8(lgK: nat, values: seq<nat>) returns (hll: Hll8Array)
    requires 4 <= lgK <= 21 && |values| == Pow2(lgK) && forall i :: 0 <= i < |values| ==> values[i] <= MAX_VALUE
    ensures fresh(hll) && hll.Valid() && hll.lgConfigK == lgK && hll.hllByteArr[..] == values
  {
    hide CountOf, Pow2, SlotOf, PairOf, ValueOf, Raised;
    hll := new Hll8Array(lgK);
    for i := 0 to |values|
      invariant fresh(hll) && fresh(hll.hllByteArr) && hll.Valid() && hll.lgConfigK == lgK && Fed(hll.hllByteArr[..], values, i)
    {
      FedNext(hll.hllByteArr[..], values, i);
      if values[i] != 0 {
        OwnSlot(i, values[i], lgK);
        var ok := hll.CouponUpdate(PairOf(i, values[i]));
      }
    }
    FedAll(hll.hllByteArr[..], values);
  }

  /** convertToHll6 preserves every register. */
  method ConvertToHll6(lgK: nat, values: seq<nat>) returns (hll: Hll6Array)
    requires 4 <= lgK <= 21 && |values| == Pow2(lgK) && forall i :: 0 <= i < |values| ==> values[i] <= MAX_VALUE
    ensures fresh(hll) && hll.Valid() && hll.lgConfigK == lgK && hll.regs == values
  {
    hide CountOf, Pow2, SlotOf, PairOf, ValueOf, Raised, Get6, Bytes;
    hll := new Hll6Array(lgK);
    for i := 0 to |values|
      invariant fresh(hll) && fresh(hll.hllByteArr) && hll.Valid() && hll.lgConfigK == lgK && Fed(hll.regs, values, i)
    {
      FedNext(hll.regs, values, i);
      if values[i] != 0 {
        OwnSlot(i, values[i], lgK);
        var ok := hll.CouponUpdate(PairOf(i, values[i]));
      }
    }
    FedAll(hll.regs, values);
  }

  // ---- the result of a union ----

  datatype TgtHllType = HLL_4 | HLL_6 | HLL_8

  /** A copy of a gadget: the cells of a list or set, or an HLL array of the type asked for. */
  datatype Copy = CopyOfCells(cells: seq<nat>) | CopyAs4(hll4: Hll4Array) | CopyAs6(hll6: Hll6Array) | CopyAs8(hll8: Hll8Array)

  /** The copy stands for the coupons C; an HLL array has 2^lg registers, each the maximum of its slot. */
  ghost predicate CopyStands(copy: Copy, tgt: TgtHllType, C: set<nat>, lg: nat)
    reads match copy
          case CopyOfCells(_) => {}
          case CopyAs4(hll) => {hll as object}
          case CopyAs6(hll) => {hll as object}
          case CopyAs8(hll) => {hll as object, hll.hllByteArr}
  {
    match copy
    case CopyOfCells(cells) => CouponsIn(cells) == C
    case CopyAs4(hll) => tgt == HLL_4 && hll.lgConfigK == lg && RegistersOf(hll.regs, lg, C)
    case CopyAs6(hll) => tgt == HLL_6 && hll.lgConfigK == lg && RegistersOf(hll.regs, lg, C)
    case CopyAs8(hll) => tgt == HLL_8 && hll.lgConfigK == lg && RegistersOf(hll.hllByteArr[..], lg, C)
  }

  /** getResult */
  method GetResult(union: HllUnion, tgt: TgtHllType) returns (copy: Copy)
    requires union.Valid()
    ensures CopyStands(copy, tgt, union.contributed, union.lgLeast)
    ensures var n := |union.contributed|;
            copy.CopyOfCells? <==> !union.fedHll && (n < 8 || (union.lgMaxK >= 8 && 4 * n <= 3 * Pow2(union.lgMaxK - 3)))
    ensures copy.CopyOfCells? ==> (|copy.cells| == INIT_LIST_SIZE <==> |union.contributed| < INIT_LIST_SIZE)
    ensures copy.CopyAs4? ==> fresh(copy.hll4) && copy.hll4.Valid()
    ensures copy.CopyAs6? ==> fresh(copy.hll6) && copy.hll6.Valid()
    ensures copy.CopyAs8? ==> fresh(copy.hll8) && copy.hll8.Valid()
  {
    hide RegistersOf, CouponsIn, AllHll, Pow2, CountOf;
    match union.gadget
    case ListImpl(list) => copy := CopyOfCells(list.couponIntArr[..]);
    case SetImpl(coupons) =>
      copy := CopyOfCells(coupons.couponIntArr[..]);
      SetSize(coupons);
    case HllImpl(hll) => copy := CopyHll(hll, tgt, union.contributed);
  }

  lemma SetSize(coupons: CouponHashSet)
    requires coupons.Valid()
    ensures coupons.couponIntArr.Length >= 32
  {
    hide Active, CouponsIn;
    EightAtLeast(coupons.lgCouponArrInts);
  }

  /** copyAs of an HLL array of type HLL_8. */
  method CopyHll(hll: Hll8Array, tgt: TgtHllType, ghost C: set<nat>) returns (copy: Copy)
    requires hll.Valid() && RegistersOf(hll.hllByteArr[..], hll.lgConfigK, C)
    ensures CopyStands(copy, tgt, C, hll.lgConfigK) && !copy.CopyOfCells?
    ensures copy.CopyAs4? ==> fresh(copy.hll4) && copy.hll4.Valid()
    ensures copy.CopyAs6? ==> fresh(copy.hll6) && copy.hll6.Valid()
    ensures copy.CopyAs8? ==> fresh(copy.hll8) && copy.hll8.Valid()
  {
    var values := hll.hllByteArr[..];
    RegistersFit(values, hll.lgConfigK, C);
    hide RegistersOf, Pow2, CountOf;
    if tgt == HLL_8 {
      var hll8 := new Hll8Array.Copy(hll.lgConfigK, values);
      copy := CopyAs8(hll8);
    } else if tgt == HLL_4 {
      var hll4 := ConvertToHll4(hll.lgConfigK, values);
      copy := CopyAs4(hll4);
    } else {
      var hll6 := ConvertToHll6(hll.lgConfigK, values);
      copy := CopyAs6(hll6);
    }
  }

  lemma RegistersFit(regs: seq<nat>, lgK: nat, C: set<nat>)
    requires RegistersOf(regs, lgK, C)
    ensures |regs| == Pow2(lgK) && forall i :: 0 <= i < |regs| ==> regs[i] <= MAX_VALUE
  {
  }

  /**
   * Any sequence of sources and any type of the result: its registers are the maxima over the coupons of all sources. The
   * result is a list or set exactly when no source was a non-empty HLL array and all sources together had few coupons.
   */
  method UnionResult(lgMaxK: nat, sources: seq<Source>, tgt: TgtHllType, ghost Cs: seq<set<nat>>) returns (copy: Copy)
    requires 4 <= lgMaxK <= 21 && |Cs| == |sources| && forall i :: 0 <= i < |sources| ==> SourceOf(sources[i], Cs[i])
    ensures CopyStands(copy, tgt, AllContributed(Cs), LeastLgOf(lgMaxK, sources))
    ensures var n := |AllContributed(Cs)|;
            copy.CopyOfCells? <==> !AnyHll(sources) && (n < 8 || (lgMaxK >= 8 && 4 * n <= 3 * Pow2(lgMaxK - 3)))
    ensures copy.CopyOfCells? ==> (|copy.cells| == INIT_LIST_SIZE <==> |AllContributed(Cs)| < INIT_LIST_SIZE)
    ensures copy.CopyAs4? ==> fresh(copy.hll4) && copy.hll4.Valid()
    ensures copy.CopyAs6? ==> fresh(copy.hll6) && copy.hll6.Valid()
    ensures copy.CopyAs8? ==> fresh(copy.hll8) && copy.hll8.Valid()
  {
    hide RegistersOf, CouponsIn, AllHll, Pow2, CountOf, AllContributed, LeastLgOf, AnyHll, TooMany;
    var union := RunUnion(lgMaxK, sources, Cs);
    copy := GetResult(union, tgt);
  }
}
