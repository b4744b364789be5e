/** The coupons of a small HLL sketch, as a list and as a hash set: hll/src/CouponList.cpp, hll/src/CouponHashSet.cpp. */
module CouponSets {
  import opened Words
  import opened Strides
  import opened LinearProbing
  import opened AuxHashMaps

  const INIT_LIST_SIZE: nat := 8
  const LG_INIT_SET_SIZE: nat := 5

  /** The coupons that the iterator over an array of cells yields: a cell of zero is empty. */
  ghost function CouponsIn(cells: seq<nat>): set<nat>
  {
    set c | c in cells && c != 0
  }

  lemma CouponsSnoc(cells: seq<nat>, i: nat)
    requires i < |cells|
    ensures CouponsIn(cells[..i + 1]) == CouponsIn(cells[..i]) + if cells[i] != 0 then {cells[i]} else {}
  {
    assert cells[..i + 1] == cells[..i] + [cells[i]];
  }

  lemma CouponsPut(cells: seq<nat>, p: nat, coupon: nat)
    requires p < |cells| && cells[p] == 0 && coupon != 0
    ensures CouponsIn(cells[p := coupon]) == CouponsIn(cells) + {coupon}
  {
    var cells2 := cells[p := coupon];
    forall c | c in CouponsIn(cells) + {coupon}
      ensures c in cells2
    {
      if c == coupon {
        assert cells2[p] == c;
      } else {
        var q :| 0 <= q < |cells| && cells[q] == c;
        assert cells2[q] == c;
      }
    }
  }

  lemma NoCoupons(cells: seq<nat>)
    requires forall i :: 0 <= i < |cells| ==> cells[i] == 0
    ensures CouponsIn(cells) == {} && Active(cells) == 0
  {
    CountEmpty(seq(|cells|, j requires 0 <= j < |cells| => if cells[j] > 0 then 1 else -1));
  }

  // ---- the list ----

  /** The first n cells hold different coupons, the others none. */
  ghost predicate Listed(cells: seq<nat>, n: nat)
  {
    n <= |cells| && (forall i :: 0 <= i < |cells| ==> (cells[i] != 0 <==> i < n)) &&
    (forall i, j :: 0 <= i < j < n ==> cells[i] != cells[j])
  }

  class CouponList {
    const lgConfigK: nat
    var couponCount: nat
    var couponIntArr: array<nat>

    ghost predicate Shape()
      reads this, couponIntArr
    {
      couponIntArr.Length == INIT_LIST_SIZE && Listed(couponIntArr[..], couponCount) && couponCount == |CouponsIn(couponIntArr[..])|
    }

    ghost predicate Valid()
      reads this, couponIntArr
    {
      Shape() && couponCount < 8
    }

    constructor (lgConfigK: nat)
      ensures Valid() && CouponsIn(couponIntArr[..]) == {} && this.lgConfigK == lgConfigK && fresh(couponIntArr)
    {
      this.lgConfigK := lgConfigK;
      couponCount := 0;
      couponIntArr := new nat[INIT_LIST_SIZE](_ => 0);
      new;
      NoCoupons(couponIntArr[..]);
    }

    /** couponUpdate: full says that the array is full and a promotion is due. The exception for a full array cannot occur. */
    method CouponUpdate(coupon: nat) returns (full: bool)
      requires Valid() && coupon != 0
      modifies this`couponCount, couponIntArr
      ensures Shape() && CouponsIn(couponIntArr[..]) == old(CouponsIn(couponIntArr[..])) + {coupon} && full == (couponCount == 8)
    {
      ghost var cells := couponIntArr[..];
      var i := 0;
      while true
        invariant i <= couponCount && couponIntArr[..] == cells && couponCount == old(couponCount)
        invariant forall j :: 0 <= j < i ==> cells[j] != coupon
        decreases INIT_LIST_SIZE - i
      {
        var couponAtIdx := couponIntArr[i];
        if couponAtIdx == 0 {
          NewCoupon(cells, i, coupon);
          couponIntArr[i] := coupon;
          assert couponIntArr[..] == cells[i := coupon];
          couponCount := couponCount + 1;
          return couponCount >= 8;
        }
        if couponAtIdx == coupon {
          OldCoupon(cells, i);
          return false;
        }
        i := i + 1;
      }
    }
  }

  lemma NewCoupon(cells: seq<nat>, n: nat, coupon: nat)
    requires Listed(cells, n) && n < |cells| && coupon != 0 && forall j :: 0 <= j < n ==> cells[j] != coupon
    ensures Listed(cells[n := coupon], n + 1) && CouponsIn(cells[n := coupon]) == CouponsIn(cells) + {coupon}
    ensures |CouponsIn(cells[n := coupon])| == |CouponsIn(cells)| + 1
  {
    CouponsPut(cells, n, coupon);
  }

  lemma OldCoupon(cells: seq<nat>, i: nat)
    requires i < |cells| && cells[i] != 0
    ensures CouponsIn(cells) + {cells[i]} == CouponsIn(cells)
  {
  }

  // ---- the hash set ----

  /** The first i probes for a coupon meet other coupons only. */
  ghost predicate Passed(arr: seq<nat>, lg: nat, coupon: nat, i: nat)
    requires |arr| == Pow2(lg)
  {
    forall j: nat :: j < i ==> arr[Probe(Low26(coupon), lg, j)] != 0 && arr[Probe(Low26(coupon), lg, j)] != coupon
  }

  /** Every coupon is stored once, in a cell where probing finds it. */
  ghost predicate HashSet(arr: seq<nat>, lg: nat)
  {
    |arr| == Pow2(lg) &&
    (forall p :: 0 <= p < |arr| && arr[p] != 0 ==> Reachable(arr, lg, Low26(arr[p]), p)) &&
    (forall p, q :: 0 <= p < q < |arr| && arr[p] != 0 ==> arr[p] != arr[q])
  }

  /** A probe sequence that passes by other coupons and ends at an empty cell shows that the coupon is not there. */
  lemma CouponAbsent(arr: seq<nat>, lg: nat, coupon: nat, i: nat)
    requires HashSet(arr, lg) && Passed(arr, lg, coupon, i) && arr[Probe(Low26(coupon), lg, i)] == 0 && coupon != 0
    ensures coupon !in CouponsIn(arr)
  {
    hide Probe, Low26;
  }

  /** Storing a coupon in the empty cell that ends its probes. */
  lemma StoreCoupon(arr: seq<nat>, lg: nat, coupon: nat, i: nat)
    requires HashSet(arr, lg) && Passed(arr, lg, coupon, i) && i < |arr| && arr[Probe(Low26(coupon), lg, i)] == 0 && coupon != 0
    ensures var arr2 := arr[Probe(Low26(coupon), lg, i) := coupon];
            HashSet(arr2, lg) && CouponsIn(arr2) == CouponsIn(arr) + {coupon} && |CouponsIn(arr2)| == |CouponsIn(arr)| + 1 && Active(arr2) == Active(arr) + 1
  {
    hide Probe, Low26, Active;
    var t := Probe(Low26(coupon), lg, i);
    CouponAbsent(arr, lg, coupon, i);
    CouponsPut(arr, t, coupon);
    ActiveUpdate(arr, t, coupon);
    StoreReachable(arr, lg, coupon, i);
    var arr2 := arr[t := coupon];
    forall p, q | 0 <= p < q < |arr| && arr2[p] != 0
      ensures arr2[p] != arr2[q]
    {
      assert arr[q] != 0 ==> arr[q] in CouponsIn(arr);
      assert arr[p] != 0 ==> arr[p] in CouponsIn(arr);
    }
  }

  lemma StoreReachable(arr: seq<nat>, lg: nat, coupon: nat, i: nat)
    requires HashSet(arr, lg) && Passed(arr, lg, coupon, i) && i < |arr| && arr[Probe(Low26(coupon), lg, i)] == 0 && coupon != 0
    ensures var arr2 := arr[Probe(Low26(coupon), lg, i) := coupon];
            forall p :: 0 <= p < |arr2| && arr2[p] != 0 ==> Reachable(arr2, lg, Low26(arr2[p]), p)
  {
    hide Probe, Low26;
    var t := Probe(Low26(coupon), lg, i);
    var arr2 := arr[t := coupon];
    forall p | 0 <= p < |arr2| && arr2[p] != 0
      ensures Reachable(arr2, lg, Low26(arr2[p]), p)
    {
      if p == t {
        assert forall j: nat :: j < i ==> arr2[Probe(Low26(coupon), lg, j)] != 0;
      } else {
        StillReachable(arr, lg, t, coupon, Low26(arr[p]), p);
      }
    }
  }

  /** The low bits of a coupon are those of its address. */
  lemma HomeOfCoupon(coupon: nat, lg: nat)
    requires lg <= 26
    ensures Low(coupon, lg) == Home(Low26(coupon), lg)
  {
    hide Low, Scale, Pow2, Low26, ValueOf;
    PairParts(coupon);
    LowOfSum(ValueOf(coupon), Low26(coupon), 26, lg);
  }

  /** find: the cell of a coupon, or the empty cell for it. The exception for a full table cannot occur. */
  method Find(arr: array<nat>, lg: nat, coupon: nat) returns (found: bool, index: nat, ghost i: nat)
    requires lg <= 26 && HashSet(arr[..], lg) && Active(arr[..]) < Pow2(lg) && coupon != 0
    ensures index < arr.Length && found == (coupon in CouponsIn(arr[..]))
    ensures !found ==> arr[index] == 0 && i < arr.Length && index == Probe(Low26(coupon), lg, i) && Passed(arr[..], lg, coupon, i)
  {
    hide Spot, Home, HashSet, Low26, Active, Low, Pow2, Shr, CouponsIn;
    SameLength(arr[..], lg);
    ghost var e := SomeEmpty(arr[..]);
    HomeOfCoupon(coupon, lg);
    ghost var home, key := Home(Low26(coupon), lg), Low26(coupon);
    ghost var ahead := StrideReaches(home, StrideOf(key, lg), lg, e);
    StrideStart(home, StrideOf(key, lg), arr.Length);
    var probe := Low(coupon, lg);
    var loopIndex := probe;
    i := 0;
    while true
      invariant i <= ahead && probe == Probe(key, lg, i) && loopIndex == Probe(key, lg, 0)
      invariant Passed(arr[..], lg, coupon, i)
      decreases ahead - i
    {
      var couponAtIdx := arr[probe];
      if couponAtIdx == 0 {
        CouponAbsent(arr[..], lg, coupon, i);
        return false, probe, i;
      } else if coupon == couponAtIdx {
        Present(arr[..], probe);
        return true, probe, i;
      }
      StrideNext(home, StrideOf(key, lg), arr.Length, i);
      probe := (probe + StrideOf(Low26(coupon), lg)) % arr.Length;
      i := i + 1;
      if probe == loopIndex {
        StrideInjective(home, StrideOf(key, lg), lg, i, 0);
        assert false;
      }
    }
  }

  lemma SameLength(arr: seq<nat>, lg: nat)
    requires HashSet(arr, lg)
    ensures |arr| == Pow2(lg)
  {
  }

  lemma Present(arr: seq<nat>, p: nat)
    requires p < |arr| && arr[p] != 0
    ensures arr[p] in CouponsIn(arr) && CouponsIn(arr) + {arr[p]} == CouponsIn(arr)
  {
  }

  class CouponHashSet {
    const lgConfigK: nat
    var lgCouponArrInts: nat
    var couponCount: nat
    var couponIntArr: array<nat>

    ghost predicate Shape()
      reads this, couponIntArr
    {
      8 <= lgConfigK <= 21 && LG_INIT_SET_SIZE <= lgCouponArrInts <= lgConfigK - 3 && HashSet(couponIntArr[..], lgCouponArrInts) &&
      couponCount == Active(couponIntArr[..]) == |CouponsIn(couponIntArr[..])|
    }

    ghost predicate Valid()
      reads this, couponIntArr
    {
      Shape() && 4 * couponCount <= 3 * Pow2(lgCouponArrInts)
    }

    constructor (lgConfigK: nat)
      requires 8 <= lgConfigK <= 21
      ensures Valid() && CouponsIn(couponIntArr[..]) == {} && this.lgConfigK == lgConfigK && lgCouponArrInts == LG_INIT_SET_SIZE && fresh(couponIntArr)
    {
      this.lgConfigK := lgConfigK;
      lgCouponArrInts := LG_INIT_SET_SIZE;
      couponCount := 0;
      couponIntArr := new nat[Pow2(LG_INIT_SET_SIZE)](_ => 0);
      new;
      NoCoupons(couponIntArr[..]);
    }

    /** couponUpdate and checkGrowOrPromote: promote says that the array is above three quarters and may not grow any more. */
    method CouponUpdate(coupon: nat) returns (promote: bool)
      requires Valid() && coupon != 0
      modifies this`lgCouponArrInts, this`couponCount, this`couponIntArr, couponIntArr
      ensures Shape() && CouponsIn(couponIntArr[..]) == old(CouponsIn(couponIntArr[..])) + {coupon}
      ensures promote == (4 * couponCount > 3 * Pow2(lgCouponArrInts)) && (promote ==> lgCouponArrInts == lgConfigK - 3)
      ensures couponIntArr == old(couponIntArr) || fresh(couponIntArr)
      ensures couponCount == old(couponCount) + if coupon in old(CouponsIn(couponIntArr[..])) then 0 else 1
      ensures lgCouponArrInts == old(lgCouponArrInts) + if 4 * couponCount > 3 * Pow2(old(lgCouponArrInts)) && !promote then 1 else 0
    {
      hide HashSet, Active, Passed, CouponsIn, Pow2, Probe;
      Room(couponCount, lgCouponArrInts);
      SameLength(couponIntArr[..], lgCouponArrInts);
      var found, index;
      ghost var i;
      found, index, i := Find(couponIntArr, lgCouponArrInts, coupon);
      if found {
        Already(couponIntArr[..], coupon);
        return false; // found duplicate
      }
      Store(index, coupon, i);
      promote := CheckGrowOrPromote();
    }

    method Store(index: nat, coupon: nat, ghost i: nat)
      requires Valid() && coupon != 0 && i < couponIntArr.Length == Pow2(lgCouponArrInts) && Passed(couponIntArr[..], lgCouponArrInts, coupon, i)
      requires index == Probe(Low26(coupon), lgCouponArrInts, i) && couponIntArr[index] == 0
      modifies this`couponCount, couponIntArr
      ensures Shape() && CouponsIn(couponIntArr[..]) == old(CouponsIn(couponIntArr[..])) + {coupon} && couponCount == old(couponCount) + 1
    {
      hide HashSet, Active, Passed, CouponsIn, Pow2, Probe, Low26;
      ghost var arr := couponIntArr[..];
      StoreCoupon(arr, lgCouponArrInts, coupon, i);
      couponIntArr[index] := coupon;
      assert couponIntArr[..] == arr[index := coupon];
      couponCount := couponCount + 1;
    }

    /** checkGrowOrPromote */
    method CheckGrowOrPromote() returns (promote: bool)
      requires Shape() && 4 * couponCount <= 3 * Pow2(lgCouponArrInts) + 4
      modifies this`lgCouponArrInts, this`couponIntArr
      ensures Shape() && CouponsIn(couponIntArr[..]) == old(CouponsIn(couponIntArr[..]))
      ensures promote == (4 * couponCount > 3 * Pow2(lgCouponArrInts)) && (promote ==> lgCouponArrInts == lgConfigK - 3)
      ensures couponIntArr == old(couponIntArr) || fresh(couponIntArr)
      ensures lgCouponArrInts == old(lgCouponArrInts) + if 4 * couponCount > 3 * Pow2(old(lgCouponArrInts)) && !promote then 1 else 0
    {
      hide HashSet, Active, CouponsIn, Pow2;
      if 4 * couponCount > 3 * Pow2(lgCouponArrInts) {
        if lgCouponArrInts == lgConfigK - 3 { // at max size
          return true; // promote to HLL
        }
        Room(couponCount, lgCouponArrInts);
        GrowHashSet();
      }
      return false;
    }

    /** growHashSet: the exception for a duplicate coupon cannot occur. */
    method GrowHashSet()
      requires Shape() && lgCouponArrInts < lgConfigK - 3
      modifies this`lgCouponArrInts, this`couponIntArr
      ensures Shape() && CouponsIn(couponIntArr[..]) == old(CouponsIn(couponIntArr[..])) && lgCouponArrInts == old(lgCouponArrInts) + 1 && fresh(couponIntArr)
    {
      hide HashSet, Active, CouponsIn, Pow2;
      ghost var arr := couponIntArr[..];
      var tgtLg := lgCouponArrInts + 1;
      var tgt := new nat[Pow2(tgtLg)](_ => 0);
      GrowStart(arr, lgCouponArrInts, tgt[..]);
      for i := 0 to couponIntArr.Length
        invariant unchanged(this) && couponIntArr[..] == arr && fresh(tgt) && HashSet(tgt[..], tgtLg)
        invariant CouponsIn(tgt[..]) == CouponsIn(arr[..i]) && Active(tgt[..]) == Active(arr[..i])
      {
        CopyCoupon(couponIntArr[i], arr, lgCouponArrInts, i, tgt);
      }
      assert arr[..|arr|] == arr;
      couponIntArr := tgt;
      lgCouponArrInts := tgtLg;
    }
  }

  /** One iteration of growHashSet. */
  method CopyCoupon(fetched: nat, ghost arr: seq<nat>, lg: nat, ghost i: nat, tgt: array<nat>)
    requires HashSet(arr, lg) && lg < 26 && i < |arr| && fetched == arr[i]
    requires HashSet(tgt[..], lg + 1) && CouponsIn(tgt[..]) == CouponsIn(arr[..i]) && Active(tgt[..]) == Active(arr[..i])
    modifies tgt
    ensures HashSet(tgt[..], lg + 1) && CouponsIn(tgt[..]) == CouponsIn(arr[..i + 1]) && Active(tgt[..]) == Active(arr[..i + 1])
  {
    hide HashSet, Active, CouponsIn, Pow2, Passed, Probe, Low26;
    CouponsSnoc(arr, i);
    ActiveSnoc(arr, i);
    if fetched != 0 {
      FitsInDouble(arr, lg, i);
      var found, index;
      ghost var k;
      found, index, k := Find(tgt, lg + 1, fetched);
      NotYetCopied(arr, lg, i);
      ghost var cells := tgt[..];
      StoreCoupon(cells, lg + 1, fetched, k);
      tgt[index] := fetched;
      assert tgt[..] == cells[index := fetched];
    }
  }

  lemma NotYetCopied(arr: seq<nat>, lg: nat, i: nat)
    requires HashSet(arr, lg) && i < |arr|
    ensures arr[i] !in CouponsIn(arr[..i])
  {
    hide Reachable;
  }

  lemma FitsInDouble(arr: seq<nat>, lg: nat, i: nat)
    requires HashSet(arr, lg) && i < |arr|
    ensures Active(arr[..i]) < Pow2(lg + 1)
  {
    hide Reachable;
  }

  lemma GrowStart(arr: seq<nat>, lg: nat, tgt: seq<nat>)
    requires HashSet(arr, lg) && |tgt| == Pow2(lg + 1) && forall i :: 0 <= i < |tgt| ==> tgt[i] == 0
    ensures HashSet(tgt, lg + 1) && CouponsIn(tgt) == CouponsIn(arr[..0]) && Active(tgt) == Active(arr[..0])
  {
    NoCoupons(tgt);
    NoCoupons(arr[..0]);
  }

  lemma Room(count: nat, lg: nat)
    requires lg >= LG_INIT_SET_SIZE
    ensures 4 * count <= 3 * Pow2(lg) ==> count < Pow2(lg)
    ensures 4 * count <= 3 * Pow2(lg) + 4 ==> 4 * count <= 3 * Pow2(lg + 1)
  {
    assert Pow2(5) == 32;
    Pow2Monotone(5, lg);
  }

  lemma Already(arr: seq<nat>, coupon: nat)
    requires coupon in CouponsIn(arr)
    ensures CouponsIn(arr) + {coupon} == CouponsIn(arr)
  {
  }
}
