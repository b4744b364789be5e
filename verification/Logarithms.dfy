/** Logarithms and trailing zeros by loops: cpc/src/fm85Util.cpp. */
module Logarithms {
  import opened Words

  function FloorLog2(n: nat): (p: nat)
    requires n >= 1
    ensures Pow2(p) <= n < Pow2(p + 1)
  {
    if n == 1 then 0 else 1 + FloorLog2(n / 2)
  }

  /** Powers of two around a number determine its logarithm. */
  lemma FloorLog2Is(n: nat, p: nat)
    requires n >= 1 && Pow2(p) <= n < Pow2(p + 1)
    ensures FloorLog2(n) == p
  {
    var q := FloorLog2(n);
    if q < p {
      Pow2Monotone(q + 1, p);
    } else if p < q {
      Pow2Monotone(p + 1, q);
    }
  }

  /** longFloorLog2OfLong */
  method LongFloorLog2OfLong(x: nat) returns (p: nat)
    requires x >= 1
    ensures Pow2(p) <= x < Pow2(p + 1)
  {
    p := 0;
    var y := 1;
    while true
      invariant y == Pow2(p) && (p == 0 || Pow2(p - 1) < x)
      decreases if y <= x then x - y + 1 else 0
    {
      if y == x {
        return p;
      }
      if y > x {
        return p - 1;
      }
      p := p + 1;
      y := 2 * y;
    }
  }

  /** The number of base bits for k + count and count. */
  function BaseBits(k: nat, count: nat): nat
    requires count > 0
  {
    var quotient := k / count;
    if quotient == 0 then 0 else FloorLog2(quotient)
  }

  /** The largest number of bits with 2^bits * count <= k, or none. */
  lemma BaseBitsIff(k: nat, count: nat, bits: nat)
    requires count > 0
    ensures BaseBits(k, count) == bits <==> (bits == 0 || Pow2(bits) * count <= k) && k < Pow2(bits + 1) * count
  {
    hide Pow2, FloorLog2;
    var q, r := Quotient(k, count);
    Times(Pow2(bits), q, count, r, k);
    Times(Pow2(bits + 1), q, count, r, k);
    FirstPowers();
    if q == 0 {
      if bits > 0 {
        Pow2Monotone(1, bits);
      }
    } else if Pow2(bits) <= q < Pow2(bits + 1) {
      FloorLog2Is(q, bits);
    }
  }

  lemma Times(p: nat, q: nat, count: nat, r: nat, k: nat)
    requires k == count * q + r && r < count
    ensures p * count <= k <==> p <= q
  {
    if p < q {
      MulStep(count, p, q);
    } else if q < p {
      MulStep(count, q, p);
    }
  }

  lemma FirstPowers()
    ensures Pow2(0) == 1 && Pow2(1) == 2
  {
  }

  /** golombChooseNumberOfBaseBits */
  method GolombChooseNumberOfBaseBits(k: nat, count: nat) returns (bits: nat)
    requires 1 <= count <= k
    ensures bits == BaseBits(k - count, count)
  {
    var quotient := (k - count) / count;
    if quotient == 0 {
      return 0;
    }
    bits := LongFloorLog2OfLong(quotient);
    FloorLog2Is(quotient, bits);
  }

  lemma BaseBitsBound(lgK: nat, count: nat)
    requires lgK <= 26 && count > 0
    ensures BaseBits(Pow2(lgK), count) <= 26
  {
    var q, r := Quotient(Pow2(lgK), count);
    if q > 0 {
      QuotientSmaller(Pow2(lgK), count, q, r);
      if FloorLog2(q) > lgK {
        Pow2Monotone(lgK, FloorLog2(q));
      }
    }
  }

  lemma QuotientSmaller(x: nat, d: nat, q: nat, r: nat)
    requires x == d * q + r && d >= 1
    ensures q <= x
  {
    if q > x {
      MulStep(q, 0, d);
      Swap(d, q);
    }
  }

  lemma Swap(a: nat, b: nat)
    ensures a * b == b * a
  {
  }

  // ---- trailing zeros ----

  /** slow_count_trailing_zeros_in_byte, which fills byteTrailingZerosTable. */
  method SlowCountTrailingZerosInByte(byte: nat) returns (count: nat)
    requires byte < 256
    ensures count == if byte == 0 then 8 else LowestBit(byte)
  {
    hide Bit, LowestBit, Shr;
    count := 0;
    ByteBits(byte);
    while count <= 7
      invariant count <= 8 && forall c :: 0 <= c < count ==> !Bit(byte, c)
    {
      BitShr(byte, count, 0);
      LowestOfWord(Shr(byte, count));
      if Shr(byte, count) % 2 == 1 {
        LowestIs(byte, count);
        return;
      }
      count := count + 1;
    }
    NoBits(byte);
  }

  lemma ByteBits(byte: nat)
    requires byte < 256
    ensures forall c :: c >= 8 ==> !Bit(byte, c)
  {
    assert Pow2(8) == 256;
    forall c | c >= 8
      ensures !Bit(byte, c)
    {
      BitHigh(byte, 8, c);
    }
  }

  lemma LowestOfWord(w: nat)
    ensures Bit(w, 0) <==> w % 2 == 1
  {
  }

  lemma NoBits(w: nat)
    requires forall c :: 0 <= c ==> !Bit(w, c)
    ensures w == 0
  {
    if w > 0 {
      var t := LowestBit(w);
    }
  }

  /** countTrailingZerosInUnsignedLong */
  function TrailingZeros(w: nat): nat { if w == 0 then 64 else LowestBit(w) }

  method CountTrailingZerosInUnsignedLong(theInput: nat) returns (zeros: nat)
    requires theInput < Pow2(64)
    ensures zeros == TrailingZeros(theInput)
  {
    hide Bit, LowestBit, Shr, Pow2;
    var tmp, j := theInput, 0;
    ShrNone(theInput);
    while j < 8
      invariant j <= 8 && tmp == Shr(theInput, 8 * j) && forall c :: 0 <= c < 8 * j ==> !Bit(theInput, c)
    {
      var byte := tmp % 256;
      var zerosInByte := SlowCountTrailingZerosInByte(byte);
      LowByte(theInput, tmp, 8 * j);
      if byte != 0 {
        LowestIs(theInput, 8 * j + zerosInByte);
        return 8 * j + zerosInByte;
      }
      ShrByte(theInput, 8 * j);
      BitZeros(byte);
      tmp := tmp / 256;
      j := j + 1;
    }
    Beyond(theInput);
    NoBits(theInput);
    return 64;
  }

  lemma ShrNone(w: nat)
    ensures Shr(w, 0) == w
  {
  }

  /** The low byte of a shifted word is a stretch of its bits. */
  lemma LowByte(w: nat, tmp: nat, n: nat)
    requires tmp == Shr(w, n)
    ensures forall c :: 0 <= c < 8 ==> Bit(tmp % 256, c) == Bit(w, n + c)
    ensures forall c :: n <= c < n + 8 ==> Bit(w, c) == Bit(tmp % 256, c - n)
    ensures tmp % 256 > 0 ==> LowestBit(tmp % 256) < 8
  {
    hide Bit, Shr, LowestBit;
    LowIsRemainder(tmp, 8);
    assert Pow2(8) == 256;
    forall c | 0 <= c < 8
      ensures Bit(tmp % 256, c) == Bit(w, n + c)
    {
      BitLow(tmp, 8, c);
      BitShr(w, n, c);
    }
    forall c | n <= c < n + 8
      ensures Bit(w, c) == Bit(tmp % 256, c - n)
    {
      assert Bit(tmp % 256, c - n) == Bit(w, n + (c - n));
    }
    ByteBits(tmp % 256);
  }

  lemma LowIsRemainder(w: nat, n: nat)
    ensures Low(w, n) == w % Pow2(n)
  {
    hide Low, Shr, Scale, Pow2;
    LowAndShr(w, n);
    LowBound(w, n);
    ScaleIsProduct(Shr(w, n), n);
    Swap(Shr(w, n), Pow2(n));
    DivUnique(w, Pow2(n), Shr(w, n), Low(w, n));
  }

  lemma ShrByte(w: nat, n: nat)
    ensures Shr(w, n + 8) == Shr(w, n) / 256
  {
    hide Bit, Low, Shr, Scale;
    LowAndShr(Shr(w, n), 8);
    LowBound(Shr(w, n), 8);
    ScaleIsProduct(Shr(Shr(w, n), 8), 8);
    assert Pow2(8) == 256;
    DivUnique(Shr(w, n), 256, Shr(Shr(w, n), 8), Low(Shr(w, n), 8));
    ShrTwice(w, n, 8);
  }

  lemma {:induction false} ShrTwice(w: nat, a: nat, b: nat)
    ensures Shr(Shr(w, a), b) == Shr(w, a + b)
    decreases a
  {
    if a > 0 {
      ShrTwice(w / 2, a - 1, b);
    }
  }

  lemma BitZeros(byte: nat)
    requires byte == 0
    ensures forall c :: 0 <= c ==> !Bit(byte, c)
  {
    forall c: nat
      ensures !Bit(byte, c)
    {
      BitZero(c);
    }
  }

  lemma Beyond(w: nat)
    requires w < Pow2(64)
    ensures forall c :: c >= 64 ==> !Bit(w, c)
  {
    forall c | c >= 64
      ensures !Bit(w, c)
    {
      BitHigh(w, 64, c);
    }
  }
}
