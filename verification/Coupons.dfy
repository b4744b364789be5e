/** What a CPC sketch denotes: a set of row/column coupons, packed as row * 64 + column. */
module Coupons {
  import opened Sets
  import opened Words
  import opened U32Tables

  function Row(rc: nat): nat { rc / 64 }

  function Col(rc: nat): (c: nat)
    ensures c < 64
  {
    rc % 64
  }

  function Pair(r: nat, c: nat): (rc: nat)
    requires c < 64
    ensures Row(rc) == r && Col(rc) == c
  {
    r * 64 + c
  }

  predicate Cell(rc: nat, lgK: nat) { rc < 64 * Pow2(lgK) }

  /** A coupon that can be fed to a sketch of 2^lgK rows: a cell that is not the table's empty marker. */
  predicate Coupon(rc: nat, lgK: nat) { Cell(rc, lgK) && rc != EMPTY }

  ghost predicate CouponSet(S: set<nat>, lgK: nat)
  {
    forall rc :: rc in S ==> Coupon(rc, lgK)
  }

  lemma CellBits(lgK: nat)
    ensures Pow2(6 + lgK) == 64 * Pow2(lgK)
  {
    assert Pow2(6) == 64;
    Pow2Add(6, lgK);
  }

  /** The cells that differ from their default value when the window starts at column w. */
  ghost function Surprises(S: set<nat>, lgK: nat, w: nat, windowed: bool): set<nat>
  {
    set rc: nat | rc < 64 * Pow2(lgK) && Surprising(S, rc, w, windowed)
  }

  ghost predicate Surprising(S: set<nat>, rc: nat, w: nat, windowed: bool)
  {
    if Col(rc) < w then rc !in S
    else if windowed && Col(rc) < w + 8 then false
    else rc in S
  }

  /** The bits of the sliding window. */
  ghost predicate WindowOf(win: seq<nat>, S: set<nat>, lgK: nat, w: nat)
  {
    |win| == Pow2(lgK) &&
    forall r, b :: 0 <= r < |win| && 0 <= b ==>
      Bit(win[r], b) == (b < 8 && w + b < 64 && Pair(r, w + b) in S)
  }

  /** The k-by-64 bit matrix of a coupon set. */
  ghost predicate MatrixOf(m: seq<nat>, S: set<nat>, lgK: nat)
  {
    |m| == Pow2(lgK) &&
    forall r, c :: 0 <= r < |m| && 0 <= c ==> Bit(m[r], c) == (c < 64 && Pair(r, c) in S)
  }

  // ---- flavors and offsets ----

  datatype Flavor = Empty | Sparse | Hybrid | Pinned | Sliding

  function DetermineFlavor(lgK: nat, c: nat): Flavor
  {
    var k := Pow2(lgK);
    if c == 0 then Empty
    else if 32 * c < 3 * k then Sparse
    else if 2 * c < k then Hybrid
    else if 8 * c < 27 * k then Pinned
    else Sliding
  }

  /** The ranges of counts: 1 <= C < 3K/32, 3K/32 <= C < K/2, K/2 <= C < 27K/8, 27K/8 <= C. */
  lemma FlavorIff(lgK: nat, c: nat)
    ensures DetermineFlavor(lgK, c) == Empty <==> c == 0
    ensures lgK >= 4 ==> (DetermineFlavor(lgK, c) == Sparse <==> 1 <= c && 32 * c < 3 * Pow2(lgK))
    ensures lgK >= 4 ==> (DetermineFlavor(lgK, c) == Hybrid <==> 3 * Pow2(lgK) <= 32 * c && 2 * c < Pow2(lgK))
    ensures lgK >= 4 ==> (DetermineFlavor(lgK, c) == Pinned <==> Pow2(lgK) <= 2 * c && 8 * c < 27 * Pow2(lgK))
    ensures lgK >= 4 ==> (DetermineFlavor(lgK, c) == Sliding <==> 27 * Pow2(lgK) <= 8 * c)
  {
    hide Pow2;
    if lgK >= 4 {
      Pow2Monotone(4, lgK);
      SixteenRows();
    }
  }

  lemma SixteenRows()
    ensures Pow2(4) == 16
  {
  }

  function DetermineCorrectOffset(lgK: nat, c: nat): nat
  {
    var tmp := 8 * c - 19 * Pow2(lgK);
    if tmp < 0 then 0 else Shr(tmp, lgK + 3)
  }

  /** The count thresholds of the window positions, with the product written as a shift. */
  lemma Threshold(a: nat, lgK: nat, w: nat)
    ensures (a + 8 * w) * Pow2(lgK) == a * Pow2(lgK) + 8 * Scale(w, lgK)
    ensures Scale(w, lgK + 3) == 8 * Scale(w, lgK) && Pow2(lgK + 3) == 8 * Pow2(lgK)
  {
    ScaleIsProduct(w, lgK);
    DistributeEight(a, w, Pow2(lgK));
    assert Scale(w, lgK + 3) == 2 * Scale(w, lgK + 2) && Scale(w, lgK + 2) == 2 * Scale(w, lgK + 1);
    assert Pow2(lgK + 3) == 2 * Pow2(lgK + 2) && Pow2(lgK + 2) == 2 * Pow2(lgK + 1);
  }

  lemma DistributeEight(a: nat, w: nat, k: nat)
    ensures (a + 8 * w) * k == a * k + 8 * (w * k)
  {
  }

  lemma ScaleNext(w: nat, n: nat)
    ensures Scale(w + 1, n) == Scale(w, n) + Pow2(n)
  {
    ScaleSum(w, 1, n);
    ScaleOne(n);
  }

  /** The correct offset is the one window position whose range of coupon counts contains c. */
  lemma OffsetIff(lgK: nat, c: nat, w: nat)
    ensures DetermineCorrectOffset(lgK, c) == w <==>
              8 * c < (27 + 8 * w) * Pow2(lgK) && (w == 0 || 8 * c >= (19 + 8 * w) * Pow2(lgK))
  {
    hide Pow2, Scale, Shr;
    var tmp := 8 * c - 19 * Pow2(lgK);
    Threshold(27, lgK, w);
    Threshold(19, lgK, w);
    ScaleNext(w, lgK + 3);
    ScaleZero(lgK);
    if tmp >= 0 {
      ShrRange(tmp, lgK + 3, w);
    } else if w > 0 {
      ScaleMonotone(1, w, lgK);
    }
  }

  // ---- what one coupon changes ----

  lemma AddCoupon(S: set<nat>, lgK: nat, w: nat, windowed: bool, rc: nat)
    requires Cell(rc, lgK)
    ensures Col(rc) < w ==> Surprises(S + {rc}, lgK, w, windowed) == Surprises(S, lgK, w, windowed) - {rc}
    ensures w <= Col(rc) && windowed && Col(rc) < w + 8 ==> Surprises(S + {rc}, lgK, w, windowed) == Surprises(S, lgK, w, windowed)
    ensures w <= Col(rc) && !(windowed && Col(rc) < w + 8) ==> Surprises(S + {rc}, lgK, w, windowed) == Surprises(S, lgK, w, windowed) + {rc}
  {
  }

  lemma SparseSurprises(S: set<nat>, lgK: nat)
    requires CouponSet(S, lgK)
    ensures Surprises(S, lgK, 0, false) == S
  {
  }

  lemma WindowMaskBits(w: nat, c: nat)
    requires w <= 63
    ensures Bit(Xor(Shl(255, w), ALL64BITS), c) == (c < 64 && !(w <= c < w + 8))
  {
    hide Bit, Xor, Shl;
    BitXor(Shl(255, w), ALL64BITS, c);
    BitAll64(c);
    BitShl(255, w, c);
    if c >= w {
      BitByteMask(c - w);
    }
  }

  /** The row pattern computed when the window is placed at w. */
  function Pattern(row: nat, w: nat): nat
  {
    Xor(And(row, Xor(Shl(255, w), ALL64BITS)), Pow2(w) - 1)
  }

  /** The pattern marks exactly the surprises of the row: zeros before the window, ones after it. */
  lemma PatternBits(row: nat, w: nat, c: nat)
    requires w <= 63
    ensures Bit(Pattern(row, w), c) ==
              if c < w then !Bit(row, c)
              else if c < w + 8 then false
              else c < 64 && Bit(row, c)
  {
    hide And, Xor, Shl;
    var mask := Xor(Shl(255, w), ALL64BITS);
    BitXor(And(row, mask), Pow2(w) - 1, c);
    BitMask(w, c);
    BitAnd(row, mask, c);
    WindowMaskBits(w, c);
  }

  /** The byte cut out of a row is the window byte. */
  lemma WindowByteBits(row: nat, w: nat, b: nat)
    ensures Bit(And(Shr(row, w), 255), b) == (b < 8 && Bit(row, w + b))
  {
    BitAnd(Shr(row, w), 255, b);
    BitShr(row, w, b);
    BitByteMask(b);
  }

  // ---- room in the surprise table ----

  /** The surprise table of a sketch of 2^lgK rows can hold three quarters of its 64 * 2^lgK possible keys. */
  ghost predicate Room(S: set<nat>, lgK: nat, w: nat)
  {
    4 * |Surprises(S, lgK, w, true)| <= 192 * Pow2(lgK)
  }

  ghost function EarlyCells(lgK: nat, w: nat): set<nat>
  {
    set rc: nat | rc < 64 * Pow2(lgK) && Col(rc) < w
  }

  ghost function Column(k: nat, c: nat): set<nat>
  {
    set rc: nat | rc < 64 * k && Col(rc) == c
  }

  lemma RowOrder(rc: nat, k: nat, c: nat)
    requires c < 64 && k > 0
    ensures rc < 64 * k && rc % 64 == c <==> (rc < 64 * (k - 1) && rc % 64 == c) || rc == (k - 1) * 64 + c
  {
  }

  lemma ColumnStep(k: nat, c: nat)
    requires c < 64 && k > 0
    ensures Column(k, c) == Column(k - 1, c) + {Pair(k - 1, c)}
  {
    var last := Pair(k - 1, c);
    forall rc: nat
      ensures rc in Column(k, c) <==> rc in Column(k - 1, c) || rc == last
    {
      RowOrder(rc, k, c);
    }
  }

  lemma {:induction false} ColumnSize(k: nat, c: nat)
    requires c < 64
    ensures |Column(k, c)| == k
  {
    if k == 0 {
      assert Column(0, c) == {};
    } else {
      ColumnSize(k - 1, c);
      ColumnStep(k, c);
    }
  }

  lemma {:induction false} EarlySize(lgK: nat, w: nat)
    requires w <= 64
    ensures |EarlyCells(lgK, w)| == Scale(w, lgK)
  {
    if w == 0 {
      assert EarlyCells(lgK, 0) == {};
      ScaleZero(lgK);
    } else {
      EarlySize(lgK, w - 1);
      ColumnSize(Pow2(lgK), w - 1);
      ScaleNext(w - 1, lgK);
      EarlySplit(lgK, w);
    }
  }

  lemma EarlySplit(lgK: nat, w: nat)
    requires 0 < w <= 64
    ensures EarlyCells(lgK, w) == EarlyCells(lgK, w - 1) + Column(Pow2(lgK), w - 1)
    ensures EarlyCells(lgK, w - 1) !! Column(Pow2(lgK), w - 1)
  {
  }

  /** Up to 25 coupons per row the surprise table has room, whatever the coupons are. */
  lemma RoomWhileModest(S: set<nat>, lgK: nat, w: nat)
    requires CouponSet(S, lgK) && |S| <= 25 * Pow2(lgK)
    requires w <= DetermineCorrectOffset(lgK, |S|)
    ensures Room(S, lgK, w)
  {
    var v := DetermineCorrectOffset(lgK, |S|);
    OffsetIff(lgK, |S|, v);
    Threshold(19, lgK, v);
    Scale22(lgK);
    if v > 22 {
      ScaleNext(22, lgK);
      ScaleMonotone(23, v, lgK);
    }
    ScaleMonotone(w, 22, lgK);
    EarlySize(lgK, w);
    var all := EarlyCells(lgK, w) + S;
    assert Surprises(S, lgK, w, true) <= all;
    SubsetSize(Surprises(S, lgK, w, true), all);
  }

  lemma Scale22(lgK: nat)
    ensures Scale(22, lgK) == 22 * Pow2(lgK)
  {
    ScaleIsProduct(22, lgK);
  }
}
