/** Registers as maxima over coupons, and how they fold. A coupon is a 26-bit address with a 6-bit value. */
module HllRegisters {
  import opened Words
  import opened LinearProbing
  import opened AuxHashMaps
  import opened Hll4Arrays

  ghost predicate HllCoupon(c: nat) { 1 <= ValueOf(c) <= MAX_VALUE }

  /** The slot of a coupon among 2^lgK. */
  function SlotOf(coupon: nat, lgK: nat): (slot: nat)
    ensures slot < Pow2(lgK)
  {
    Home(Low26(coupon), lgK)
  }

  /** Every register is the largest value among the coupons of its slot, zero if there are none. */
  ghost predicate RegistersOf(regs: seq<nat>, lgK: nat, C: set<nat>)
  {
    |regs| == Pow2(lgK) &&
    (forall c :: c in C ==> HllCoupon(c) && ValueOf(c) <= regs[SlotOf(c, lgK)]) &&
    (forall j :: 0 <= j < |regs| && regs[j] > 0 ==> Attained(C, lgK, j, regs[j]))
  }

  ghost predicate Attained(C: set<nat>, lgK: nat, slot: nat, value: nat)
  {
    exists c :: c in C && SlotOf(c, lgK) == slot && ValueOf(c) == value
  }

  /** The registers depend on the coupons alone, not on their order. */
  lemma RegistersUnique(r: seq<nat>, s: seq<nat>, lgK: nat, C: set<nat>)
    requires RegistersOf(r, lgK, C) && RegistersOf(s, lgK, C)
    ensures r == s
  {
    hide SlotOf, ValueOf;
    forall j | 0 <= j < |r|
      ensures r[j] == s[j]
    {
      OneSided(r, s, lgK, C, j);
      OneSided(s, r, lgK, C, j);
    }
  }

  lemma OneSided(r: seq<nat>, s: seq<nat>, lgK: nat, C: set<nat>, j: nat)
    requires RegistersOf(r, lgK, C) && RegistersOf(s, lgK, C) && j < |r|
    ensures r[j] <= s[j]
  {
    hide SlotOf, ValueOf;
    if r[j] > 0 {
      assert Attained(C, lgK, j, r[j]);
      var c :| c in C && SlotOf(c, lgK) == j && ValueOf(c) == r[j];
    }
  }

  lemma NoRegisters(lgK: nat)
    ensures RegistersOf(seq(Pow2(lgK), _ => 0), lgK, {})
  {
  }

  /** One more coupon raises its register to its value. */
  lemma RaiseRegister(regs: seq<nat>, lgK: nat, C: set<nat>, c: nat)
    requires RegistersOf(regs, lgK, C) && HllCoupon(c)
    ensures RegistersOf(Raised(regs, SlotOf(c, lgK), ValueOf(c)), lgK, C + {c})
  {
    hide SlotOf, ValueOf;
    var r := Raised(regs, SlotOf(c, lgK), ValueOf(c));
    forall j | 0 <= j < |r| && r[j] > 0
      ensures Attained(C + {c}, lgK, j, r[j])
    {
      if r[j] == regs[j] {
        assert Attained(C, lgK, j, regs[j]);
        var d :| d in C && SlotOf(d, lgK) == j && ValueOf(d) == regs[j];
        assert d in C + {c};
      } else {
        assert c in C + {c};
      }
    }
  }

  /** The pairs that the iterator of a register array yields, up to slot n. */
  ghost function Pairs(regs: seq<nat>, n: nat): set<nat>
    requires |regs| <= TWO_TO_THE_26
  {
    set i | 0 <= i < n && i < |regs| && regs[i] > 0 :: PairOf(i, regs[i])
  }

  lemma PairsNext(regs: seq<nat>, n: nat)
    requires n < |regs| <= TWO_TO_THE_26
    ensures Pairs(regs, n + 1) == Pairs(regs, n) + if regs[n] > 0 then {PairOf(n, regs[n])} else {}
  {
    hide PairOf;
  }

  /** Slots among fewer rows are found from slots among more. */
  lemma SlotFolds(c: nat, a: nat, b: nat)
    requires a <= b <= 26
    ensures SlotOf(c, b) < TWO_TO_THE_26 && forall v: nat :: SlotOf(PairOf(SlotOf(c, b), v), a) == SlotOf(c, a)
  {
    Pow2Monotone(b, 26);
    Pow26();
    LowTwice(Low26(c), a, b);
  }

  /** Feeding the registers of a sketch of at least as many rows, pair by pair, is feeding its coupons. */
  lemma FoldRegisters(regs: seq<nat>, a: nat, C: set<nat>, R: seq<nat>, b: nat, D: set<nat>)
    requires a <= b <= 26 && |R| <= TWO_TO_THE_26 && RegistersOf(R, b, D) && RegistersOf(regs, a, C + Pairs(R, |R|))
    ensures RegistersOf(regs, a, C + D)
  {
    hide SlotOf, PairOf, ValueOf;
    forall c | c in C + D
      ensures HllCoupon(c) && ValueOf(c) <= regs[SlotOf(c, a)]
    {
      if c in D {
        PairAbove(R, b, D, c, a);
        var p := PairOf(SlotOf(c, b), R[SlotOf(c, b)]);
        assert p in C + Pairs(R, |R|);
      } else {
        assert c in C + Pairs(R, |R|);
      }
    }
    forall j | 0 <= j < |regs| && regs[j] > 0
      ensures Attained(C + D, a, j, regs[j])
    {
      assert Attained(C + Pairs(R, |R|), a, j, regs[j]);
      var c :| c in C + Pairs(R, |R|) && SlotOf(c, a) == j && ValueOf(c) == regs[j];
      if c in C {
        assert c in C + D;
      } else {
        var d := PairSource(R, b, D, c, a);
        assert d in C + D;
      }
    }
  }

  lemma PairAbove(R: seq<nat>, b: nat, D: set<nat>, c: nat, a: nat)
    requires a <= b <= 26 && |R| <= TWO_TO_THE_26 && RegistersOf(R, b, D) && c in D
    ensures HllCoupon(c) && SlotOf(c, b) < |R| && ValueOf(c) <= R[SlotOf(c, b)] && R[SlotOf(c, b)] > 0
    ensures PairOf(SlotOf(c, b), R[SlotOf(c, b)]) in Pairs(R, |R|)
    ensures SlotOf(PairOf(SlotOf(c, b), R[SlotOf(c, b)]), a) == SlotOf(c, a) && ValueOf(PairOf(SlotOf(c, b), R[SlotOf(c, b)])) == R[SlotOf(c, b)]
  {
    SlotFolds(c, a, b);
  }

  lemma PairSource(R: seq<nat>, b: nat, D: set<nat>, p: nat, a: nat) returns (d: nat)
    requires a <= b <= 26 && |R| <= TWO_TO_THE_26 && RegistersOf(R, b, D) && p in Pairs(R, |R|)
    ensures d in D && SlotOf(d, a) == SlotOf(p, a) && ValueOf(d) == ValueOf(p)
  {
    hide SlotOf;
    var i :| 0 <= i < |R| && R[i] > 0 && p == PairOf(i, R[i]);
    assert Attained(D, b, i, R[i]);
    d :| d in D && SlotOf(d, b) == i && ValueOf(d) == R[i];
    SlotFolds(d, a, b);
  }

  lemma PairIsCoupon(R: seq<nat>, b: nat, D: set<nat>, i: nat)
    requires b <= 26 && RegistersOf(R, b, D) && i < |R| && R[i] > 0 && |R| <= TWO_TO_THE_26
    ensures HllCoupon(PairOf(i, R[i]))
  {
    hide SlotOf;
    assert Attained(D, b, i, R[i]);
  }

  // ---- HLL_4 arrays ----

  ghost function AllOf(coupons: seq<nat>): set<nat> { set c | c in coupons }

  /** Any stream of coupons leaves in an HLL_4 array the maximum of every slot. */
  method RunHll4(lgK: nat, coupons: seq<nat>) returns (hll: Hll4Array)
    requires 4 <= lgK <= 21 && forall i :: 0 <= i < |coupons| ==> HllCoupon(coupons[i])
    ensures fresh(hll) && hll.Valid() && hll.lgConfigK == lgK && RegistersOf(hll.regs, lgK, AllOf(coupons))
    ensures fresh(hll.hllByteArr) && fresh(hll.AuxArr())
  {
    hide RegistersOf, Represents, AuxHolds, Exceptions, CountOf, Nibbles, Pow2;
    hll := new Hll4Array(lgK);
    NoRegisters(lgK);
    assert AllOf(coupons[..0]) == {};
    for i := 0 to |coupons|
      invariant fresh(hll) && hll.Valid() && hll.lgConfigK == lgK && fresh(hll.hllByteArr) && fresh(hll.AuxArr())
      invariant RegistersOf(hll.regs, lgK, AllOf(coupons[..i]))
    {
      RaiseRegister(hll.regs, lgK, AllOf(coupons[..i]), coupons[i]);
      assert AllOf(coupons[..i + 1]) == AllOf(coupons[..i]) + {coupons[i]} by {
        assert coupons[..i + 1] == coupons[..i] + [coupons[i]];
      }
      var ok := hll.CouponUpdate(coupons[i]);
    }
    assert coupons[..|coupons|] == coupons;
  }
}
