/** Unsigned machine words as natural numbers, and the bit operators on them. */
module Words {

  /** 2 to the power n: what `1 << n` computes for sizes and masks. */
  function Pow2(n: nat): (r: nat)
    ensures r >= 1
  {
    if n == 0 then 1 else 2 * Pow2(n - 1)
  }

  lemma {:induction false} Pow2Add(a: nat, b: nat)
    ensures Pow2(a + b) == Pow2(a) * Pow2(b)
  {
    if a > 0 {
      Pow2Add(a - 1, b);
      Double(Pow2(a - 1), Pow2(b));
    }
  }

  lemma Double(p: nat, q: nat)
    ensures (2 * p) * q == 2 * (p * q)
  {
  }

  lemma {:induction false} Pow2Monotone(a: nat, b: nat)
    requires a <= b
    ensures Pow2(a) <= Pow2(b)
    ensures a < b ==> 2 * Pow2(a) <= Pow2(b)
  {
    if a < b {
      Pow2Monotone(a, b - 1);
    }
  }

  /** Bit c of a word. */
  predicate Bit(w: nat, c: nat)
  {
    if c == 0 then w % 2 == 1 else Bit(w / 2, c - 1)
  }

  function And(a: nat, b: nat): nat
  {
    if a == 0 || b == 0 then 0
    else 2 * And(a / 2, b / 2) + (if a % 2 == 1 && b % 2 == 1 then 1 else 0)
  }

  function Or(a: nat, b: nat): nat
  {
    if a == 0 && b == 0 then 0
    else 2 * Or(a / 2, b / 2) + (if a % 2 == 1 || b % 2 == 1 then 1 else 0)
  }

  function Xor(a: nat, b: nat): nat
  {
    if a == 0 && b == 0 then 0
    else 2 * Xor(a / 2, b / 2) + (if a % 2 != b % 2 then 1 else 0)
  }

  /** The low n bits: `w & ((1 << n) - 1)`. */
  function Low(w: nat, n: nat): nat
    decreases w, n
  {
    if n == 0 || w == 0 then 0 else 2 * Low(w / 2, n - 1) + w % 2
  }

  function Shr(w: nat, n: nat): nat
    decreases w, n
  {
    if n == 0 || w == 0 then w else Shr(w / 2, n - 1)
  }

  /** w * 2^n, without the cut to 64 bits. */
  function Scale(w: nat, n: nat): nat
  {
    if n == 0 then w else 2 * Scale(w, n - 1)
  }

  /** `w << n` on 64-bit words. */
  function Shl(w: nat, n: nat): nat { Low(Scale(w, n), 64) }

  const ALL64BITS: nat := 0xffff_ffff_ffff_ffff

  lemma WordSize()
    ensures Pow2(64) == 0x1_0000_0000_0000_0000
  {
    EightBits();
    hide Pow2;
    Pow2Add(8, 8);
    Pow2Add(16, 16);
    Pow2Add(32, 32);
  }

  lemma EightBits()
    ensures Pow2(8) == 256
  {
  }

  // ---- one bit at a time ----

  lemma AndHalves(a: nat, b: nat)
    ensures And(a, b) / 2 == And(a / 2, b / 2) && And(a, b) % 2 == (if a % 2 == 1 && b % 2 == 1 then 1 else 0)
  {
  }

  lemma OrHalves(a: nat, b: nat)
    ensures Or(a, b) / 2 == Or(a / 2, b / 2) && Or(a, b) % 2 == (if a % 2 == 1 || b % 2 == 1 then 1 else 0)
  {
  }

  lemma XorHalves(a: nat, b: nat)
    ensures Xor(a, b) / 2 == Xor(a / 2, b / 2) && Xor(a, b) % 2 == (if a % 2 != b % 2 then 1 else 0)
  {
  }

  lemma LowHalves(w: nat, n: nat)
    ensures Low(w, n) / 2 == (if n == 0 then 0 else Low(w / 2, n - 1))
    ensures Low(w, n) % 2 == (if n == 0 then 0 else w % 2)
  {
  }

  lemma {:induction false} BitZero(c: nat)
    ensures !Bit(0, c)
  {
    if c > 0 {
      BitZero(c - 1);
    }
  }

  lemma {:induction false} BitAnd(a: nat, b: nat, c: nat)
    ensures Bit(And(a, b), c) == (Bit(a, c) && Bit(b, c))
    decreases c
  {
    AndHalves(a, b);
    if c > 0 {
      BitAnd(a / 2, b / 2, c - 1);
    }
  }

  lemma {:induction false} BitOr(a: nat, b: nat, c: nat)
    ensures Bit(Or(a, b), c) == (Bit(a, c) || Bit(b, c))
    decreases c
  {
    OrHalves(a, b);
    if c > 0 {
      BitOr(a / 2, b / 2, c - 1);
    }
  }

  lemma {:induction false} BitXor(a: nat, b: nat, c: nat)
    ensures Bit(Xor(a, b), c) == (Bit(a, c) != Bit(b, c))
    decreases c
  {
    XorHalves(a, b);
    if c > 0 {
      BitXor(a / 2, b / 2, c - 1);
    }
  }

  lemma {:induction false} BitShr(w: nat, n: nat, c: nat)
    ensures Bit(Shr(w, n), c) == Bit(w, n + c)
    decreases n
  {
    if w == 0 {
      BitZero(c);
      BitZero(n + c);
    } else if n > 0 {
      BitShr(w / 2, n - 1, c);
    }
  }

  lemma {:induction false} BitLow(w: nat, n: nat, c: nat)
    ensures Bit(Low(w, n), c) == (c < n && Bit(w, c))
    decreases n
  {
    LowHalves(w, n);
    if n == 0 {
      BitZero(c);
    } else if c > 0 {
      BitLow(w / 2, n - 1, c - 1);
    }
  }

  lemma {:induction false} BitScale(w: nat, n: nat, c: nat)
    ensures Bit(Scale(w, n), c) == (c >= n && Bit(w, c - n))
    decreases n
  {
    if n > 0 && c > 0 {
      assert Scale(w, n) / 2 == Scale(w, n - 1);
      BitScale(w, n - 1, c - 1);
    }
  }

  lemma BitShl(w: nat, n: nat, c: nat)
    ensures Bit(Shl(w, n), c) == (n <= c < 64 && Bit(w, c - n))
  {
    BitLow(Scale(w, n), 64, c);
    BitScale(w, n, c);
  }

  lemma {:induction false} BitPow2(n: nat, c: nat)
    ensures Bit(Pow2(n), c) == (c == n)
    decreases n
  {
    if c == 0 {
    } else if n == 0 {
      BitZero(c - 1);
    } else {
      assert Pow2(n) / 2 == Pow2(n - 1);
      BitPow2(n - 1, c - 1);
    }
  }

  lemma {:induction false} BitMask(n: nat, c: nat)
    ensures Bit(Pow2(n) - 1, c) == (c < n)
    decreases n
  {
    if n == 0 {
      BitZero(c);
    } else if c > 0 {
      assert (Pow2(n) - 1) / 2 == Pow2(n - 1) - 1;
      BitMask(n - 1, c - 1);
    }
  }

  lemma BitAll64(c: nat)
    ensures Bit(ALL64BITS, c) == (c < 64)
  {
    WordSize();
    BitMask(64, c);
  }

  lemma BitByteMask(c: nat)
    ensures Bit(255, c) == (c < 8)
  {
    assert Pow2(8) == 256;
    BitMask(8, c);
  }

  /** A word below 2^n has no bit at or past n. */
  lemma {:induction false} BitHigh(w: nat, n: nat, c: nat)
    requires w < Pow2(n) && n <= c
    ensures !Bit(w, c)
    decreases n
  {
    if n == 0 {
      BitZero(c);
    } else {
      BitHigh(w / 2, n - 1, c - 1);
    }
  }

  /** Words that agree on every bit are equal. */
  lemma {:induction false} Extensional(a: nat, b: nat, n: nat)
    requires a < Pow2(n) && b < Pow2(n)
    requires forall c :: 0 <= c < n ==> Bit(a, c) == Bit(b, c)
    ensures a == b
  {
    if n > 0 {
      forall c | 0 <= c < n - 1
        ensures Bit(a / 2, c) == Bit(b / 2, c)
      {
        assert Bit(a, c + 1) == Bit(b, c + 1);
      }
      Extensional(a / 2, b / 2, n - 1);
      assert Bit(a, 0) == Bit(b, 0);
    }
  }

  /** A word whose set bits all lie below n is below 2^n. */
  lemma {:induction false} BoundFromBits(w: nat, n: nat)
    requires forall c :: c >= n ==> !Bit(w, c)
    ensures w < Pow2(n)
    decreases w
  {
    if w > 0 {
      var t := LowestBit(w);
      if n > 0 {
        forall c | c >= n - 1
          ensures !Bit(w / 2, c)
        {
          assert !Bit(w, c + 1);
        }
        BoundFromBits(w / 2, n - 1);
      }
    }
  }

  /** The position of the lowest set bit: what counting trailing zeros returns. */
  function LowestBit(w: nat): (t: nat)
    requires w > 0
    ensures Bit(w, t)
    ensures forall c :: 0 <= c < t ==> !Bit(w, c)
  {
    if w % 2 == 1 then 0
    else
      var t := LowestBit(w / 2);
      assert forall c :: 0 < c < t + 1 ==> Bit(w, c) == Bit(w / 2, c - 1);
      t + 1
  }

  lemma LowestIs(w: nat, t: nat)
    requires Bit(w, t) && forall c :: 0 <= c < t ==> !Bit(w, c)
    ensures w > 0 && LowestBit(w) == t
  {
    BitZero(t);
  }

  /** Erasing a set bit makes the word smaller. */
  lemma {:induction false} EraseBit(w: nat, c: nat)
    requires Bit(w, c)
    ensures Xor(w, Pow2(c)) < w
    decreases c
  {
    XorHalves(w, Pow2(c));
    if c == 0 {
      XorZero(w / 2);
    } else {
      assert Pow2(c) / 2 == Pow2(c - 1);
      EraseBit(w / 2, c - 1);
    }
  }

  lemma {:induction false} XorZero(w: nat)
    ensures Xor(w, 0) == w
    decreases w
  {
    if w > 0 {
      XorHalves(w, 0);
      XorZero(w / 2);
    }
  }

  lemma {:induction false} OrZero(w: nat)
    ensures Or(w, 0) == w
    decreases w
  {
    if w > 0 {
      OrHalves(w, 0);
      OrZero(w / 2);
    }
  }

  /** Setting a bit that is already set changes nothing. */
  lemma {:induction false} OrSetBit(w: nat, c: nat)
    requires Bit(w, c)
    ensures Or(w, Pow2(c)) == w
    decreases c
  {
    OrHalves(w, Pow2(c));
    if c == 0 {
      OrZero(w / 2);
    } else {
      assert Pow2(c) / 2 == Pow2(c - 1);
      OrSetBit(w / 2, c - 1);
    }
  }

  // ---- sizes ----

  lemma {:induction false} LowBound(w: nat, n: nat)
    ensures Low(w, n) < Pow2(n)
    decreases w, n
  {
    if n > 0 && w > 0 {
      LowBound(w / 2, n - 1);
    }
  }

  lemma {:induction false} LowKeeps(w: nat, n: nat)
    requires w < Pow2(n)
    ensures Low(w, n) == w
    decreases w, n
  {
    if n > 0 && w > 0 {
      LowKeeps(w / 2, n - 1);
    }
  }

  /** Masking twice is masking with the smaller mask. */
  lemma {:induction false} LowTwice(w: nat, a: nat, b: nat)
    requires a <= b
    ensures Low(Low(w, b), a) == Low(w, a)
    decreases a
  {
    if a > 0 {
      LowHalves(w, b);
      LowHalves(w, a);
      LowHalves(Low(w, b), a);
      LowTwice(w / 2, a - 1, b - 1);
    }
  }

  /** Dropping the low `a` bits of a word of a + b bits leaves b bits. */
  lemma {:induction false} ShrBound(x: nat, a: nat, b: nat)
    requires x < Pow2(a + b)
    ensures Shr(x, a) < Pow2(b)
    decreases a
  {
    if x > 0 && a > 0 {
      ShrBound(x / 2, a - 1, b);
    }
  }

  // ---- scaling ----

  lemma {:induction false} ScaleSum(v: nat, w: nat, n: nat)
    ensures Scale(v + w, n) == Scale(v, n) + Scale(w, n)
  {
    if n > 0 {
      ScaleSum(v, w, n - 1);
    }
  }

  lemma {:induction false} ScaleOne(n: nat)
    ensures Scale(1, n) == Pow2(n)
  {
    if n > 0 {
      ScaleOne(n - 1);
    }
  }

  lemma {:induction false} ScaleMonotone(v: nat, w: nat, n: nat)
    requires v <= w
    ensures Scale(v, n) <= Scale(w, n)
  {
    if n > 0 {
      ScaleMonotone(v, w, n - 1);
    }
  }

  lemma {:induction false} ScaleIsProduct(w: nat, n: nat)
    ensures Scale(w, n) == w * Pow2(n)
  {
    if n > 0 {
      ScaleIsProduct(w, n - 1);
      TimesDouble(w, Pow2(n - 1));
    }
  }

  lemma TimesDouble(w: nat, p: nat)
    ensures w * (2 * p) == 2 * (w * p)
  {
  }

  /** What a right shift returns is the one multiple of 2^n not above the word by 2^n or more. */
  lemma {:induction false} ShrRange(x: nat, n: nat, w: nat)
    ensures Shr(x, n) == w <==> Scale(w, n) <= x < Scale(w + 1, n)
    decreases n
  {
    if x == 0 {
      ScaleMonotone(0, w, n);
      ScaleZero(n);
      ScaleSum(w, 1, n);
      ScaleOne(n);
      if w > 0 {
        ScaleMonotone(1, w, n);
      }
    } else if n > 0 {
      ShrRange(x / 2, n - 1, w);
    }
  }

  lemma {:induction false} ScaleZero(n: nat)
    ensures Scale(0, n) == 0
  {
    if n > 0 {
      ScaleZero(n - 1);
    }
  }

  lemma {:induction false} LowOfSum(q: nat, r: nat, n: nat, k: nat)
    requires r < Pow2(n) && k <= n
    ensures Low(Scale(q, n) + r, k) == Low(r, k)
    decreases k
  {
    if k > 0 {
      assert (Scale(q, n) + r) / 2 == Scale(q, n - 1) + r / 2;
      LowHalves(Scale(q, n) + r, k);
      LowHalves(r, k);
      LowOfSum(q, r / 2, n - 1, k - 1);
    }
  }

  lemma {:induction false} ShrOfSum(q: nat, r: nat, n: nat)
    requires r < Pow2(n)
    ensures Shr(Scale(q, n) + r, n) == q
    decreases n
  {
    if n > 0 {
      if Scale(q, n) + r == 0 {
        ScaleMonotone(0, q, n);
        if q > 0 {
          ScaleMonotone(1, q, n);
          ScaleOne(n);
        }
      } else {
        assert (Scale(q, n) + r) / 2 == Scale(q, n - 1) + r / 2;
        ShrOfSum(q, r / 2, n - 1);
      }
    }
  }

  /** A word is its low bits plus the rest, shifted back. */
  lemma {:induction false} LowAndShr(w: nat, n: nat)
    ensures w == Low(w, n) + Scale(Shr(w, n), n)
    decreases n
  {
    if w == 0 {
      ScaleZero(n);
    } else if n > 0 {
      LowAndShr(w / 2, n - 1);
    }
  }

  lemma {:induction false} ScaleTwice(w: nat, a: nat, b: nat)
    ensures Scale(Scale(w, a), b) == Scale(w, a + b)
  {
    if b > 0 {
      ScaleTwice(w, a, b - 1);
    }
  }

  /** OR-ing a word above n bits into a word of n bits adds it. */
  lemma {:induction false} OrDisjoint(r: nat, q: nat, n: nat)
    requires r < Pow2(n)
    ensures Or(r, Scale(q, n)) == r + Scale(q, n)
    decreases n
  {
    OrHalves(r, Scale(q, n));
    if n == 0 {
      OrFromZero(q);
    } else {
      assert Scale(q, n) / 2 == Scale(q, n - 1);
      OrDisjoint(r / 2, q, n - 1);
    }
  }

  lemma {:induction false} OrFromZero(w: nat)
    ensures Or(0, w) == w
    decreases w
  {
    if w > 0 {
      OrHalves(0, w);
      OrFromZero(w / 2);
    }
  }

  lemma ScaleBound(q: nat, a: nat, n: nat)
    requires q < Pow2(a)
    ensures Scale(q, n) + Pow2(n) <= Pow2(a + n)
  {
    ScaleMonotone(q + 1, Pow2(a), n);
    ScaleSum(q, 1, n);
    ScaleOne(n);
    ScaleOne(a);
    ScaleTwice(1, a, n);
    ScaleOne(a + n);
  }

  // ---- a little multiplication ----

  lemma MulStep(d: nat, a: int, b: int)
    requires a < b
    ensures d * a + d <= d * b
  {
    var e := b - a - 1;
    MulNonNegative(d, e);
    Distribute3(d, a, e);
  }

  lemma MulNonNegative(d: nat, e: nat)
    ensures d * e >= 0
  {
  }

  lemma Distribute3(d: int, a: int, e: int)
    ensures d * (a + 1 + e) == d * a + d + d * e
  {
  }

  lemma Quotient(x: nat, d: nat) returns (q: nat, r: nat)
    requires d >= 1
    ensures x == d * q + r && r < d && q == x / d && r == x % d
  {
    q, r := x / d, x % d;
  }

  /** The quotient and remainder of a division are the only ones. */
  lemma DivUnique(x: nat, d: nat, q: nat, r: nat)
    requires d >= 1 && r < d && x == d * q + r
    ensures x / d == q && x % d == r
  {
    var q2, r2 := Quotient(x, d);
    if q2 > q {
      MulStep(d, q, q2);
    } else if q2 < q {
      MulStep(d, q2, q);
    }
  }
}
