/** Folding row indices: what happens to a coupon set when a sketch is moved to fewer rows. */
module Folding {
  import opened Sets
  import opened Words
  import opened U32Tables
  import opened Coupons
  import opened Fm85Sketch

  /** `rowCol & destMask`: the row is taken modulo the destination's row count. */
  function FoldPair(rc: nat, lgK: nat): (f: nat)
    ensures Cell(f, lgK)
  {
    CellBits(lgK);
    LowBound(rc, 6 + lgK);
    Low(rc, 6 + lgK)
  }

  ghost function Fold(S: set<nat>, lgK: nat): set<nat>
  {
    set rc | rc in S :: FoldPair(rc, lgK)
  }

  lemma LowTwoBits(w: nat, n: nat)
    ensures Low(w, n + 2) == 4 * Low(w / 4, n) + w % 4
  {
    LowHalves(w, n + 2);
    LowHalves(w / 2, n + 1);
  }

  lemma LowSixBits(w: nat, n: nat)
    ensures Low(w, n + 6) == 64 * Low(w / 64, n) + w % 64
  {
    hide Low;
    LowTwoBits(w, n + 4);
    LowTwoBits(w / 4, n + 2);
    LowTwoBits(w / 16, n);
  }

  lemma FoldParts(rc: nat, lgK: nat)
    ensures FoldPair(rc, lgK) == Pair(Low(Row(rc), lgK), Col(rc))
  {
    LowSixBits(rc, lgK);
  }

  lemma FoldKeeps(rc: nat, lgK: nat)
    requires Cell(rc, lgK)
    ensures FoldPair(rc, lgK) == rc
  {
    CellBits(lgK);
    LowKeeps(rc, 6 + lgK);
  }

  lemma FoldCoupon(rc: nat, lgK: nat)
    requires lgK <= 26 && Coupon(rc, 26)
    ensures Coupon(FoldPair(rc, lgK), lgK)
  {
    if lgK == 26 {
      FoldKeeps(rc, 26);
    } else {
      Pow2Monotone(lgK, 25);
      Pow2At25();
    }
  }

  lemma Pow2At25()
    ensures Pow2(25) == 33554432
  {
    assert Pow2(5) == 32;
    Pow2Add(5, 5);
    Pow2Add(10, 10);
    Pow2Add(5, 20);
  }

  lemma FoldTwice(rc: nat, a: nat, b: nat)
    requires a <= b
    ensures FoldPair(FoldPair(rc, b), a) == FoldPair(rc, a)
  {
    LowTwice(rc, 6 + a, 6 + b);
  }

  lemma FoldSetTwice(S: set<nat>, a: nat, b: nat)
    requires a <= b
    ensures Fold(Fold(S, b), a) == Fold(S, a)
  {
    forall rc | rc in S ensures FoldPair(FoldPair(rc, b), a) == FoldPair(rc, a) { FoldTwice(rc, a, b); }
    assert forall rc :: rc in S ==> FoldPair(rc, b) in Fold(S, b);
    forall x | x in Fold(S, a) ensures x in Fold(Fold(S, b), a) {
      var rc :| rc in S && FoldPair(rc, a) == x;
      assert FoldPair(rc, b) in Fold(S, b);
    }
  }

  lemma FoldSetKeeps(S: set<nat>, lgK: nat)
    requires CouponSet(S, lgK)
    ensures Fold(S, lgK) == S
  {
    forall rc | rc in S ensures FoldPair(rc, lgK) == rc { FoldKeeps(rc, lgK); }
    assert forall rc :: rc in S ==> FoldPair(rc, lgK) in Fold(S, lgK);
  }

  lemma FoldUnion(S: set<nat>, T: set<nat>, lgK: nat)
    ensures Fold(S + T, lgK) == Fold(S, lgK) + Fold(T, lgK)
  {
  }

  lemma {:induction false} FoldInjective(A: set<nat>, B: set<nat>, lgK: nat)
    requires forall a :: a in A ==> FoldPair(a, lgK) in B
    requires forall a, b :: a in A && b in A && FoldPair(a, lgK) == FoldPair(b, lgK) ==> a == b
    ensures |A| <= |B|
    decreases |A|
  {
    if A != {} {
      var x :| x in A;
      FoldInjective(A - {x}, B - {FoldPair(x, lgK)}, lgK);
    }
  }

  lemma UpperHalf(rc: nat, lgK: nat)
    requires 64 * Pow2(lgK) <= rc < 2 * (64 * Pow2(lgK))
    ensures FoldPair(rc, lgK) == rc - 64 * Pow2(lgK)
  {
    CellBits(lgK);
    LowUpper(rc, 6 + lgK);
  }

  lemma {:induction false} LowUpper(w: nat, n: nat)
    requires Pow2(n) <= w < 2 * Pow2(n)
    ensures Low(w, n) == w - Pow2(n)
    decreases n
  {
    LowHalves(w, n);
    if n > 0 {
      LowUpper(w / 2, n - 1);
    }
  }

  /** Folding to half the rows loses at most half of the coupons. */
  lemma HalveSize(S: set<nat>, lgK: nat)
    requires forall rc :: rc in S ==> Cell(rc, lgK + 1)
    ensures 2 * |Fold(S, lgK)| >= |S|
  {
    var m := 64 * Pow2(lgK);
    var lo := set rc | rc in S && rc < m;
    var hi := set rc | rc in S && rc >= m;
    assert S == lo + hi;
    forall rc | rc in lo ensures FoldPair(rc, lgK) == rc { FoldKeeps(rc, lgK); }
    forall rc | rc in hi ensures FoldPair(rc, lgK) == rc - m { UpperHalf(rc, lgK); }
    assert forall rc :: rc in S ==> FoldPair(rc, lgK) in Fold(S, lgK);
    FoldInjective(lo, Fold(S, lgK), lgK);
    FoldInjective(hi, Fold(S, lgK), lgK);
  }

  /** Folding never lowers the density of a set of cells. */
  lemma {:induction false} FoldSize(T: set<nat>, lgK: nat, d: nat)
    requires forall rc :: rc in T ==> Cell(rc, lgK + d)
    ensures |Fold(T, lgK)| * Pow2(d) >= |T|
    decreases d
  {
    if d == 0 {
      forall rc | rc in T ensures FoldPair(rc, lgK) == rc { FoldKeeps(rc, lgK); }
      assert T <= Fold(T, lgK) by {
        assert forall rc :: rc in T ==> FoldPair(rc, lgK) in Fold(T, lgK);
      }
      SubsetSize(T, Fold(T, lgK));
    } else {
      HalveSize(T, lgK + d - 1);
      FoldSetTwice(T, lgK, lgK + d - 1);
      FoldSize(Fold(T, lgK + d - 1), lgK, d - 1);
    }
  }
}
