/** Counting the bits of a matrix: cpc/src/fm85Util.cpp. */
module BitCounts {
  import opened Words
  import opened Logarithms

  const TWO_TO_THE_64: nat := 0x1_0000_0000_0000_0000

  function PopCount(w: nat): nat
  {
    if w == 0 then 0 else w % 2 + PopCount(w / 2)
  }

  /** Set bits in the first n words. */
  function Total(words: seq<nat>, n: nat): nat
    requires n <= |words|
  {
    if n == 0 then 0 else Total(words, n - 1) + PopCount(words[n - 1])
  }

  /** The carry-save adder of three words: high word and low word. */
  function CsaHigh(a: nat, b: nat, c: nat): nat
  {
    Or(And(a, b), And(Xor(a, b), c))
  }

  function CsaLow(a: nat, b: nat, c: nat): nat
  {
    Xor(Xor(a, b), c)
  }

  lemma {:induction false} CsaCounts(a: nat, b: nat, c: nat)
    ensures 2 * PopCount(CsaHigh(a, b, c)) + PopCount(CsaLow(a, b, c)) == PopCount(a) + PopCount(b) + PopCount(c)
    decreases a + b + c
  {
    hide And, Or, Xor;
    if a + b + c == 0 {
      NothingToAdd();
    } else {
      XorHalves(a, b);
      AndHalves(a, b);
      XorHalves(Xor(a, b), c);
      AndHalves(Xor(a, b), c);
      OrHalves(And(a, b), And(Xor(a, b), c));
      CsaCounts(a / 2, b / 2, c / 2);
      PopHalf(a); PopHalf(b); PopHalf(c);
      PopHalf(CsaHigh(a, b, c));
      PopHalf(CsaLow(a, b, c));
    }
  }

  lemma NothingToAdd()
    ensures PopCount(CsaHigh(0, 0, 0)) == PopCount(CsaLow(0, 0, 0)) == 0
  {
  }

  lemma PopHalf(w: nat)
    ensures PopCount(w) == w % 2 + PopCount(w / 2)
  {
  }

  // ---- the byte-parallel count of one word ----

  /** n fields of base b, each holding v: the constants of the masks. */
  function Fields(b: nat, v: nat, n: nat): nat
  {
    if n == 0 then 0 else v + b * Fields(b, v, n - 1)
  }

  /** The word has n digits in base b, none above v. */
  predicate Digits(w: nat, b: nat, v: nat, n: nat)
    requires b >= 2
  {
    if n == 0 then w == 0 else w % b <= v && Digits(w / b, b, v, n - 1)
  }

  function DigitSum(w: nat, b: nat, n: nat): nat
    requires b >= 2
  {
    if n == 0 then 0 else w % b + DigitSum(w / b, b, n - 1)
  }

  lemma AndField2(r: nat, q: nat, t: nat, m: nat)
    requires r < 2 && t < 2
    ensures And(r + 2 * q, t + 2 * m) == And(r, t) + 2 * And(q, m)
  {
    hide And;
    AndHalves(r + 2 * q, t + 2 * m);
    AndHalves(r, t);
    AndNone(r / 2, t / 2);
  }

  lemma AndNone(a: nat, b: nat)
    requires a == 0 || b == 0
    ensures And(a, b) == 0
  {
  }

  lemma AndField4(r: nat, q: nat, t: nat, m: nat)
    requires r < 4 && t < 4
    ensures And(r + 4 * q, t + 4 * m) == And(r, t) + 4 * And(q, m)
  {
    hide And;
    AndField2(r % 2, r / 2 + 2 * q, t % 2, t / 2 + 2 * m);
    AndField2(r / 2, q, t / 2, m);
    AndField2(r % 2, r / 2, t % 2, t / 2);
  }

  lemma AndField16(r: nat, q: nat, t: nat, m: nat)
    requires r < 16 && t < 16
    ensures And(r + 16 * q, t + 16 * m) == And(r, t) + 16 * And(q, m)
  {
    hide And;
    AndField4(r % 4, r / 4 + 4 * q, t % 4, t / 4 + 4 * m);
    AndField4(r / 4, q, t / 4, m);
    AndField4(r % 4, r / 4, t % 4, t / 4);
  }

  lemma AndField256(r: nat, q: nat, t: nat, m: nat)
    requires r < 256 && t < 256
    ensures And(r + 256 * q, t + 256 * m) == And(r, t) + 256 * And(q, m)
  {
    hide And;
    AndField16(r % 16, r / 16 + 16 * q, t % 16, t / 16 + 16 * m);
    AndField16(r / 16, q, t / 16, m);
    AndField16(r % 16, r / 16, t % 16, t / 16);
  }

  lemma And1(r: nat)
    ensures And(r, 1) == r % 2
  {
  }

  lemma And3(r: nat)
    ensures And(r, 3) == r % 4
  {
    hide And;
    AndHalves(r, 3);
    And1(r / 2);
  }

  lemma And15Split(lo: nat, hi: nat)
    requires lo < 4
    ensures And(lo + 4 * hi, 15) == lo + 4 * (hi % 4)
  {
    hide And;
    AndField4(lo, hi, 3, 3);
    And3(lo);
    And3(hi);
  }

  lemma And15(r: nat)
    ensures And(r, 15) == r % 16
  {
    hide And;
    And15Split(r % 4, r / 4);
    assert r == r % 4 + 4 * (r / 4);
  }

  lemma PairStep(d: nat, q: nat, m: nat)
    requires d < 4
    ensures And((d + 4 * q) / 2, 1 + 4 * m) == d / 2 + 4 * And(q / 2, m)
  {
    hide And;
    assert (d + 4 * q) / 2 == (d / 2 + 2 * (q % 2)) + 4 * (q / 2);
    AndField4(d / 2 + 2 * (q % 2), q / 2, 1, m);
    And1(d / 2 + 2 * (q % 2));
  }

  lemma PopPair(d: nat, q: nat)
    requires d < 4
    ensures PopCount(d + 4 * q) == (d - d / 2) + PopCount(q)
  {
    hide PopCount;
    PopHalf(d + 4 * q);
    PopHalf((d + 4 * q) / 2);
  }

  /** Bits to pairs: i - ((i >> 1) & 0x5555...). */
  lemma {:induction false} PairCounts(w: nat, n: nat)
    requires Digits(w, 4, 3, n)
    ensures And(w / 2, Fields(4, 1, n)) <= w
    ensures Digits(w - And(w / 2, Fields(4, 1, n)), 4, 2, n)
    ensures DigitSum(w - And(w / 2, Fields(4, 1, n)), 4, n) == PopCount(w)
  {
    hide And;
    if n > 0 {
      var d, q, m := w % 4, w / 4, Fields(4, 1, n - 1);
      PairCounts(q, n - 1);
      PairStep(d, q, m);
      PopPair(d, q);
      DigitCons(d - d / 2, q - And(q / 2, m), 4, 2, n);
    } else {
      AndNone(w / 2, 0);
    }
  }

  lemma DigitCons(d: nat, q: nat, b: nat, v: nat, n: nat)
    requires b >= 2 && d <= v < b && n > 0 && Digits(q, b, v, n - 1)
    ensures Digits(d + b * q, b, v, n) && DigitSum(d + b * q, b, n) == d + DigitSum(q, b, n - 1)
  {
    DivUnique(d + b * q, b, q, d);
  }

  lemma NibbleLow(d: nat, q: nat, m: nat)
    requires d < 16
    ensures And(d + 16 * q, 3 + 16 * m) == d % 4 + 16 * And(q, m)
  {
    hide And;
    AndField16(d, q, 3, m);
    And3(d);
  }

  lemma NibbleHigh(d: nat, q: nat)
    requires d < 16
    ensures (d + 16 * q) / 4 == (d / 4 + 4 * (q % 4)) + 16 * (q / 4)
    ensures (d / 4 + 4 * (q % 4)) % 4 == d / 4 && d / 4 + 4 * (q % 4) < 16
  {
  }

  lemma NibbleStep(d: nat, q: nat, m: nat)
    requires d < 16
    ensures And(d + 16 * q, 3 + 16 * m) == d % 4 + 16 * And(q, m)
    ensures And((d + 16 * q) / 4, 3 + 16 * m) == d / 4 + 16 * And(q / 4, m)
  {
    hide And;
    NibbleLow(d, q, m);
    NibbleHigh(d, q);
    NibbleLow(d / 4 + 4 * (q % 4), q / 4, m);
  }

  lemma NibbleCons(d: nat, x: nat, y: nat, n: nat)
    requires d % 4 <= 2 && d / 4 <= 2 && n > 0 && Digits(x + y, 16, 4, n - 1)
    ensures Digits((d % 4 + 16 * x) + (d / 4 + 16 * y), 16, 4, n)
    ensures DigitSum((d % 4 + 16 * x) + (d / 4 + 16 * y), 16, n) == d % 4 + d / 4 + DigitSum(x + y, 16, n - 1)
  {
    DigitCons(d % 4 + d / 4, x + y, 16, 4, n);
  }

  /** Pairs to nibbles: (i & 0x3333...) + ((i >> 2) & 0x3333...). */
  lemma {:induction false} NibbleCounts(i: nat, n: nat)
    requires Digits(i, 4, 2, 2 * n)
    ensures Digits(And(i, Fields(16, 3, n)) + And(i / 4, Fields(16, 3, n)), 16, 4, n)
    ensures DigitSum(And(i, Fields(16, 3, n)) + And(i / 4, Fields(16, 3, n)), 16, n) == DigitSum(i, 4, 2 * n)
  {
    hide And;
    if n > 0 {
      var d, q, m := i % 16, i / 16, Fields(16, 3, n - 1);
      TwoDigits(i, 2, n);
      NibbleCounts(q, n - 1);
      NibbleStep(d, q, m);
      assert i == d + 16 * q && Fields(16, 3, n) == 3 + 16 * m;
      NibbleCons(d, And(q, m), And(q / 4, m), n);
    } else {
      AndNone(i, 0);
      AndNone(i / 4, 0);
    }
  }

  lemma SplitNibble(i: nat)
    ensures i / 4 / 4 == i / 16 && (i % 16) % 4 == i % 4 && i / 4 % 4 == (i % 16) / 4
  {
  }

  lemma SplitByte(i: nat)
    ensures i / 16 / 16 == i / 256 && (i % 256) % 16 == i % 16 && i / 16 % 16 == (i % 256) / 16
  {
  }

  /** Two digits in base 4 make one in base 16. */
  lemma TwoDigits(i: nat, v: nat, n: nat)
    requires v < 4 && n > 0 && Digits(i, 4, v, 2 * n)
    ensures (i % 16) % 4 <= v && (i % 16) / 4 <= v && Digits(i / 16, 4, v, 2 * (n - 1))
    ensures DigitSum(i, 4, 2 * n) == (i % 16) % 4 + (i % 16) / 4 + DigitSum(i / 16, 4, 2 * (n - 1))
  {
    var h := i / 4;
    assert Digits(h, 4, v, 2 * n - 1) && DigitSum(i, 4, 2 * n) == i % 4 + DigitSum(h, 4, 2 * n - 1);
    SplitNibble(i);
    assert Digits(h / 4, 4, v, 2 * n - 2) && DigitSum(h, 4, 2 * n - 1) == h % 4 + DigitSum(h / 4, 4, 2 * n - 2);
  }

  /** Two digits in base 16 make one in base 256. */
  lemma TwoNibbles(i: nat, v: nat, n: nat)
    requires v < 16 && n > 0 && Digits(i, 16, v, 2 * n)
    ensures (i % 256) % 16 <= v && (i % 256) / 16 <= v && Digits(i / 256, 16, v, 2 * (n - 1))
    ensures DigitSum(i, 16, 2 * n) == (i % 256) % 16 + (i % 256) / 16 + DigitSum(i / 256, 16, 2 * (n - 1))
  {
    var h := i / 16;
    assert Digits(h, 16, v, 2 * n - 1) && DigitSum(i, 16, 2 * n) == i % 16 + DigitSum(h, 16, 2 * n - 1);
    SplitByte(i);
    assert Digits(h / 16, 16, v, 2 * n - 2) && DigitSum(h, 16, 2 * n - 1) == h % 16 + DigitSum(h / 16, 16, 2 * n - 2);
  }

  lemma LowNibble(q: nat, n: nat)
    requires Digits(q, 16, 4, n)
    ensures q % 16 <= 4
  {
  }

  lemma ByteCarry(lo: nat, hi: nat, q: nat)
    requires lo <= 4 && hi <= 4 && q % 16 <= 4
    ensures var i := lo + 16 * hi + 256 * q;
            i + i / 16 == ((lo + hi) + 16 * (hi + q % 16)) + 256 * (q + q / 16)
    ensures (lo + hi) + 16 * (hi + q % 16) < 256 && ((lo + hi) + 16 * (hi + q % 16)) % 16 == lo + hi
  {
    assert (lo + 16 * hi + 256 * q) / 16 == hi + 16 * q;
  }

  lemma ByteStep(lo: nat, hi: nat, q: nat, m: nat)
    requires lo <= 4 && hi <= 4 && q % 16 <= 4
    ensures var i := lo + 16 * hi + 256 * q;
            And(i + i / 16, 15 + 256 * m) == (lo + hi) + 256 * And(q + q / 16, m)
  {
    hide And;
    ByteCarry(lo, hi, q);
    var byte := (lo + hi) + 16 * (hi + q % 16);
    AndField256(byte, q + q / 16, 15, m);
    And15(byte);
  }

  /** Nibbles to bytes: (i + (i >> 4)) & 0x0f0f... */
  lemma {:induction false} ByteCounts(i: nat, n: nat)
    requires Digits(i, 16, 4, 2 * n)
    ensures Digits(And(i + i / 16, Fields(256, 15, n)), 256, 8, n)
    ensures DigitSum(And(i + i / 16, Fields(256, 15, n)), 256, n) == DigitSum(i, 16, 2 * n)
  {
    hide And;
    if n > 0 {
      var d, q, m := i % 256, i / 256, Fields(256, 15, n - 1);
      TwoNibbles(i, 4, n);
      ByteCounts(q, n - 1);
      LowNibble(q, 2 * (n - 1));
      ByteStep(d % 16, d / 16, q, m);
      DigitCons(d % 16 + d / 16, And(q + q / 16, m), 256, 8, n);
    } else {
      AndNone(i + i / 16, 0);
    }
  }

  lemma FoldOnce(lo: nat, hi: nat, b: nat)
    requires lo < b
    ensures (lo + b * hi) / b == hi
  {
    DivUnique(lo + b * hi, b, hi, lo);
  }

  /** Eight bytes of at most 8 each, as the word they form. */
  function Word8(b0: nat, b1: nat, b2: nat, b3: nat, b4: nat, b5: nat, b6: nat, b7: nat): nat
  {
    b0 + 256 * b1 + 65536 * b2 + 16777216 * b3
    + 0x1_0000_0000 * (b4 + 256 * b5 + 65536 * b6 + 16777216 * b7)
  }

  lemma ShiftWord8(b0: nat, b1: nat, b2: nat, b3: nat, b4: nat, b5: nat, b6: nat, b7: nat)
    requires b0 < 256 && b1 < 256 && b2 < 256 && b3 < 256
    ensures Word8(b0, b1, b2, b3, b4, b5, b6, b7) / 256 == Word8(b1, b2, b3, b4, b5, b6, b7, 0)
    ensures Word8(b0, b1, b2, b3, b4, b5, b6, b7) / 65536 == Word8(b2, b3, b4, b5, b6, b7, 0, 0)
    ensures Word8(b0, b1, b2, b3, b4, b5, b6, b7) / 0x1_0000_0000 == Word8(b4, b5, b6, b7, 0, 0, 0, 0)
  {
    FoldOnce(b0, Word8(b1, b2, b3, b4, b5, b6, b7, 0), 256);
    FoldOnce(b0 + 256 * b1, Word8(b2, b3, b4, b5, b6, b7, 0, 0), 65536);
    FoldOnce(b0 + 256 * b1 + 65536 * b2 + 16777216 * b3, Word8(b4, b5, b6, b7, 0, 0, 0, 0), 0x1_0000_0000);
  }

  /** i + (i >> shift), for a shift by log2 of d. */
  function AddShifted(i: nat, d: nat): nat
    requires d >= 1
  {
    i + i / d
  }

  lemma AddWord8By1(b0: nat, b1: nat, b2: nat, b3: nat, b4: nat, b5: nat, b6: nat, b7: nat)
    requires b0 < 256 && b1 < 256 && b2 < 256 && b3 < 256
    ensures AddShifted(Word8(b0, b1, b2, b3, b4, b5, b6, b7), 256) == Word8(b0 + b1, b1 + b2, b2 + b3, b3 + b4, b4 + b5, b5 + b6, b6 + b7, b7)
  {
    ShiftWord8(b0, b1, b2, b3, b4, b5, b6, b7);
  }

  lemma AddWord8By2(b0: nat, b1: nat, b2: nat, b3: nat, b4: nat, b5: nat, b6: nat, b7: nat)
    requires b0 < 256 && b1 < 256 && b2 < 256 && b3 < 256
    ensures AddShifted(Word8(b0, b1, b2, b3, b4, b5, b6, b7), 65536) == Word8(b0 + b2, b1 + b3, b2 + b4, b3 + b5, b4 + b6, b5 + b7, b6, b7)
  {
    ShiftWord8(b0, b1, b2, b3, b4, b5, b6, b7);
  }

  lemma AddWord8By4(b0: nat, b1: nat, b2: nat, b3: nat, b4: nat, b5: nat, b6: nat, b7: nat)
    requires b0 < 256 && b1 < 256 && b2 < 256 && b3 < 256
    ensures AddShifted(Word8(b0, b1, b2, b3, b4, b5, b6, b7), 0x1_0000_0000) == Word8(b0 + b4, b1 + b5, b2 + b6, b3 + b7, b4, b5, b6, b7)
  {
    ShiftWord8(b0, b1, b2, b3, b4, b5, b6, b7);
  }

  function FoldedBytes(i: nat): nat
  {
    AddShifted(AddShifted(AddShifted(i, 256), 65536), 0x1_0000_0000)
  }

  lemma FoldWord8(b0: nat, b1: nat, b2: nat, b3: nat, b4: nat, b5: nat, b6: nat, b7: nat)
    requires b0 <= 8 && b1 <= 8 && b2 <= 8 && b3 <= 8 && b4 <= 8 && b5 <= 8 && b6 <= 8 && b7 <= 8
    ensures FoldedBytes(Word8(b0, b1, b2, b3, b4, b5, b6, b7)) < 0x1_0000_0000_0000_0000
    ensures FoldedBytes(Word8(b0, b1, b2, b3, b4, b5, b6, b7)) % 128 == b0 + b1 + b2 + b3 + b4 + b5 + b6 + b7
  {
    hide Word8, AddShifted;
    var c0, c1, c2, c3, c4, c5, c6 := b0 + b1, b1 + b2, b2 + b3, b3 + b4, b4 + b5, b5 + b6, b6 + b7;
    var d0, d1, d2, d3, d4, d5 := c0 + c2, c1 + c3, c2 + c4, c3 + c5, c4 + c6, c5 + b7;
    AddWord8By1(b0, b1, b2, b3, b4, b5, b6, b7);
    AddWord8By2(c0, c1, c2, c3, c4, c5, c6, b7);
    AddWord8By4(d0, d1, d2, d3, d4, d5, c6, b7);
    LowBits(d0 + d4, d1 + d5, d2 + c6, d3 + b7, d4, d5, c6, b7);
  }

  lemma LowBits(b0: nat, b1: nat, b2: nat, b3: nat, b4: nat, b5: nat, b6: nat, b7: nat)
    requires b0 <= 64 && b1 <= 64 && b2 <= 64 && b3 <= 64 && b4 <= 64 && b5 <= 64 && b6 <= 64 && b7 <= 64
    ensures Word8(b0, b1, b2, b3, b4, b5, b6, b7) % 128 == b0
    ensures Word8(b0, b1, b2, b3, b4, b5, b6, b7) < 0x1_0000_0000_0000_0000
  {
    var hi := 2 * b1 + 512 * b2 + 131072 * b3 + 33554432 * (b4 + 256 * b5 + 65536 * b6 + 16777216 * b7);
    DivUnique(Word8(b0, b1, b2, b3, b4, b5, b6, b7), 128, hi, b0);
  }

  lemma BytesOf(i: nat) returns (b0: nat, b1: nat, b2: nat, b3: nat, b4: nat, b5: nat, b6: nat, b7: nat)
    requires Digits(i, 256, 8, 8)
    ensures b0 <= 8 && b1 <= 8 && b2 <= 8 && b3 <= 8 && b4 <= 8 && b5 <= 8 && b6 <= 8 && b7 <= 8
    ensures i == Word8(b0, b1, b2, b3, b4, b5, b6, b7)
    ensures DigitSum(i, 256, 8) == b0 + b1 + b2 + b3 + b4 + b5 + b6 + b7
  {
    var q;
    b0, b1, q := TwoBytes(i, 8);
    b2, b3, q := TwoBytes(q, 6);
    b4, b5, q := TwoBytes(q, 4);
    b6, b7, q := TwoBytes(q, 2);
  }

  lemma TwoBytes(i: nat, n: nat) returns (lo: nat, hi: nat, q: nat)
    requires n >= 2 && Digits(i, 256, 8, n)
    ensures lo <= 8 && hi <= 8 && i == lo + 256 * hi + 65536 * q && Digits(q, 256, 8, n - 2)
    ensures DigitSum(i, 256, n) == lo + hi + DigitSum(q, 256, n - 2)
  {
    lo := i % 256;
    var h := i / 256;
    assert Digits(h, 256, 8, n - 1) && DigitSum(i, 256, n) == lo + DigitSum(h, 256, n - 1);
    hi, q := h % 256, h / 256;
  }

  /** The three shifted additions leave the sum of the eight bytes in the lowest one. */
  lemma FoldBytes(i: nat)
    requires Digits(i, 256, 8, 8)
    ensures FoldedBytes(i) < 0x1_0000_0000_0000_0000 && FoldedBytes(i) % 128 == DigitSum(i, 256, 8)
  {
    var b0, b1, b2, b3, b4, b5, b6, b7 := BytesOf(i);
    FoldWord8(b0, b1, b2, b3, b4, b5, b6, b7);
  }

  /** A 64-bit word has 32 base-4 digits. */
  lemma {:induction false} AnyDigits(w: nat, n: nat)
    requires w < Pow2(2 * n)
    ensures Digits(w, 4, 3, n)
  {
    if n > 0 {
      assert Pow2(2 * n) == 2 * Pow2(2 * n - 1) == 4 * Pow2(2 * (n - 1));
      AnyDigits(w / 4, n - 1);
    }
  }

  lemma MaskConstants()
    ensures Fields(4, 1, 32) == 0x5555_5555_5555_5555
    ensures Fields(16, 3, 16) == 0x3333_3333_3333_3333
    ensures Fields(256, 15, 8) == 0x0f0f_0f0f_0f0f_0f0f
  {
    assert Fields(4, 1, 2) == 0x5;
    assert Fields(4, 1, 4) == 0x55;
    assert Fields(4, 1, 6) == 0x555;
    assert Fields(4, 1, 8) == 0x5555;
    assert Fields(4, 1, 10) == 0x55555;
    assert Fields(4, 1, 12) == 0x555555;
    assert Fields(4, 1, 14) == 0x5555555;
    assert Fields(4, 1, 16) == 0x55555555;
    assert Fields(4, 1, 18) == 0x555555555;
    assert Fields(4, 1, 20) == 0x5555555555;
    assert Fields(4, 1, 22) == 0x55555555555;
    assert Fields(4, 1, 24) == 0x555555555555;
    assert Fields(4, 1, 26) == 0x5555555555555;
    assert Fields(4, 1, 28) == 0x55555555555555;
    assert Fields(4, 1, 30) == 0x555555555555555;
    assert Fields(4, 1, 32) == 0x5555555555555555;
    assert Fields(16, 3, 2) == 0x33;
    assert Fields(16, 3, 4) == 0x3333;
    assert Fields(16, 3, 6) == 0x333333;
    assert Fields(16, 3, 8) == 0x33333333;
    assert Fields(16, 3, 10) == 0x3333333333;
    assert Fields(16, 3, 12) == 0x333333333333;
    assert Fields(16, 3, 14) == 0x33333333333333;
    assert Fields(16, 3, 16) == 0x3333333333333333;
    assert Fields(256, 15, 2) == 0xf0f;
    assert Fields(256, 15, 4) == 0xf0f0f0f;
    assert Fields(256, 15, 6) == 0xf0f0f0f0f0f;
    assert Fields(256, 15, 8) == 0xf0f0f0f0f0f0f0f;
  }

  method PairStage(w: nat, pairs: nat, ghost n: nat) returns (i: nat)
    requires w < Pow2(2 * n) && pairs == Fields(4, 1, n)
    ensures Digits(i, 4, 2, n) && DigitSum(i, 4, n) == PopCount(w)
  {
    AnyDigits(w, n);
    PairCounts(w, n);
    ShrConstants(w);
    i := w - And(Shr(w, 1), pairs);
  }

  method NibbleStage(w: nat, nibbles: nat, ghost n: nat) returns (i: nat)
    requires Digits(w, 4, 2, 2 * n) && nibbles == Fields(16, 3, n)
    ensures Digits(i, 16, 4, n) && DigitSum(i, 16, n) == DigitSum(w, 4, 2 * n)
  {
    NibbleCounts(w, n);
    ShrConstants(w);
    i := And(w, nibbles) + And(Shr(w, 2), nibbles);
  }

  method ByteStage(w: nat, bytes: nat, ghost n: nat) returns (i: nat)
    requires Digits(w, 16, 4, 2 * n) && bytes == Fields(256, 15, n)
    ensures Digits(i, 256, 8, n) && DigitSum(i, 256, n) == DigitSum(w, 16, 2 * n)
  {
    ByteCounts(w, n);
    ShrConstants(w);
    i := And(w + Shr(w, 4), bytes);
  }

  /** The masking stages of warrenBitCount leave one byte count per byte of an n-byte word. */
  method MaskStages(w: nat, pairs: nat, nibbles: nat, bytes: nat, ghost n: nat) returns (i: nat)
    requires w < Pow2(2 * (2 * (2 * n)))
    requires pairs == Fields(4, 1, 2 * (2 * n)) && nibbles == Fields(16, 3, 2 * n) && bytes == Fields(256, 15, n)
    ensures Digits(i, 256, 8, n) && DigitSum(i, 256, n) == PopCount(w)
  {
    i := PairStage(w, pairs, 2 * (2 * n));
    i := NibbleStage(i, nibbles, 2 * n);
    i := ByteStage(i, bytes, n);
  }

  lemma ShrHalf(i: nat, n: nat)
    ensures Shr(i, n + 1) == Shr(i / 2, n) && Shr(i, 0) == i
  {
  }

  lemma ShrTwo(i: nat, n: nat)
    ensures Shr(i, n + 2) == Shr(i / 4, n)
  {
    hide Shr;
    ShrHalf(i, n + 1);
    ShrHalf(i / 2, n);
  }

  lemma ShrFour(i: nat, n: nat)
    ensures Shr(i, n + 4) == Shr(i / 16, n)
  {
    hide Shr;
    ShrTwo(i, n + 2);
    ShrTwo(i / 4, n);
  }

  lemma ShrEight(i: nat, n: nat)
    ensures Shr(i, n + 8) == Shr(i / 256, n)
  {
    hide Shr;
    ShrFour(i, n + 4);
    ShrFour(i / 16, n);
  }

  lemma ShrSixteen(i: nat, n: nat)
    ensures Shr(i, n + 16) == Shr(i / 65536, n)
  {
    hide Shr;
    ShrEight(i, n + 8);
    ShrEight(i / 256, n);
  }

  lemma ShrConstants(i: nat)
    ensures Shr(i, 1) == i / 2 && Shr(i, 2) == i / 4 && Shr(i, 4) == i / 16
    ensures Shr(i, 8) == i / 256 && Shr(i, 16) == i / 65536 && Shr(i, 32) == i / 0x1_0000_0000
  {
    hide Shr;
    ShrHalf(i, 0);
    ShrHalf(i / 2, 0);
    ShrTwo(i, 0);
    ShrHalf(i / 4, 0);
    ShrFour(i, 0);
    ShrHalf(i / 16, 0);
    ShrEight(i, 0);
    ShrHalf(i / 256, 0);
    ShrSixteen(i, 0);
    ShrHalf(i / 65536, 0);
    ShrSixteen(i, 16);
    ShrSixteen(i / 65536, 0);
    ShrHalf(i / 65536 / 65536, 0);
  }

  /** The shifted additions of warrenBitCount. */
  method FoldShifted(bytes: nat) returns (i: nat)
    ensures i == FoldedBytes(bytes)
  {
    hide Shr;
    ShrConstants(bytes);
    i := bytes + Shr(bytes, 8);
    ShrConstants(i);
    i := i + Shr(i, 16);
    ShrConstants(i);
    i := i + Shr(i, 32);
  }

  /** warrenBitCount: counts the set bits of a 64-bit word by adding pairs, nibbles and bytes in parallel. */
  method WarrenBitCount(w: nat) returns (count: nat)
    requires w < TWO_TO_THE_64
    ensures count == PopCount(w)
  {
    WordSize();
    MaskConstants();
    var i := MaskStages(w, 0x5555_5555_5555_5555, 0x3333_3333_3333_3333, 0x0f0f_0f0f_0f0f_0f0f, 8);
    FoldBytes(i);
    i := FoldShifted(i);
    And127(i);
    count := And(i, 0x7f);
  }

  lemma {:induction false} AndLow(r: nat, k: nat)
    ensures And(r, Pow2(k) - 1) == Low(r, k)
    decreases k
  {
    AndHalves(r, Pow2(k) - 1);
    LowHalves(r, k);
    if k > 0 {
      assert (Pow2(k) - 1) / 2 == Pow2(k - 1) - 1;
      AndLow(r / 2, k - 1);
    }
  }

  /** The mask 0x7f keeps the remainder modulo 128. */
  lemma And127(r: nat)
    ensures And(r, 0x7f) == r % 128
  {
    hide And, Low;
    assert Pow2(7) == 128;
    AndLow(r, 7);
    LowIsRemainder(r, 7);
  }

  // ---- the whole matrix ----

  lemma CsaBounds(a: nat, b: nat, c: nat, n: nat)
    requires a < Pow2(n) && b < Pow2(n) && c < Pow2(n)
    ensures CsaHigh(a, b, c) < Pow2(n) && CsaLow(a, b, c) < Pow2(n)
  {
    OpBounds(a, b, n);
    OpBounds(Xor(a, b), c, n);
    OpBounds(And(a, b), And(Xor(a, b), c), n);
  }

  lemma CsaFits(a: nat, b: nat, c: nat)
    requires a < TWO_TO_THE_64 && b < TWO_TO_THE_64 && c < TWO_TO_THE_64
    ensures CsaHigh(a, b, c) < TWO_TO_THE_64 && CsaLow(a, b, c) < TWO_TO_THE_64
  {
    WordSize();
    CsaBounds(a, b, c, 64);
  }

  lemma {:induction false} OpBounds(a: nat, b: nat, n: nat)
    requires a < Pow2(n) && b < Pow2(n)
    ensures And(a, b) < Pow2(n) && Or(a, b) < Pow2(n) && Xor(a, b) < Pow2(n)
  {
    if n > 0 {
      AndHalves(a, b);
      OrHalves(a, b);
      XorHalves(a, b);
      OpBounds(a / 2, b / 2, n - 1);
    }
  }

  /** Four more words go into the carry-save state; the bits of weight four come out. */
  method AddFour(ones: nat, twos: nat, a: nat, b: nat, c: nat, d: nat) returns (ones': nat, twos': nat, foursOut: nat)
    requires ones < TWO_TO_THE_64 && twos < TWO_TO_THE_64 && a < TWO_TO_THE_64 && b < TWO_TO_THE_64 && c < TWO_TO_THE_64 && d < TWO_TO_THE_64
    ensures ones' < TWO_TO_THE_64 && twos' < TWO_TO_THE_64 && foursOut < TWO_TO_THE_64
    ensures 4 * PopCount(foursOut) + 2 * PopCount(twos') + PopCount(ones') ==
            2 * PopCount(twos) + PopCount(ones) + PopCount(a) + PopCount(b) + PopCount(c) + PopCount(d)
  {
    CsaCounts(ones, a, b);
    CsaFits(ones, a, b);
    var twosA, o1 := CsaHigh(ones, a, b), CsaLow(ones, a, b);
    CsaCounts(o1, c, d);
    CsaFits(o1, c, d);
    var twosB := CsaHigh(o1, c, d);
    ones' := CsaLow(o1, c, d);
    CsaCounts(twos, twosA, twosB);
    CsaFits(twos, twosA, twosB);
    foursOut, twos' := CsaHigh(twos, twosA, twosB), CsaLow(twos, twosA, twosB);
  }

  lemma TotalFour(s: seq<nat>, i: nat)
    requires i + 4 <= |s|
    ensures Total(s, i + 4) == Total(s, i) + (PopCount(s[i]) + PopCount(s[i + 1]) + PopCount(s[i + 2]) + PopCount(s[i + 3]))
  {
    assert Total(s, i + 2) == Total(s, i) + PopCount(s[i]) + PopCount(s[i + 1]);
  }

  /** The carry-save registers and the running total account for the first i words. */
  ghost predicate Tallied(words: seq<nat>, i: nat, tot: nat, fours: nat, twos: nat, ones: nat)
  {
    i <= |words| && fours < TWO_TO_THE_64 && twos < TWO_TO_THE_64 && ones < TWO_TO_THE_64 &&
    8 * tot + 4 * PopCount(fours) + 2 * PopCount(twos) + PopCount(ones) == Total(words, i)
  }

  /** Eight more words go into the registers; bits of weight eight go into the running total. */
  method AddEight(A: array<nat>, i: nat, tot: nat, ones: nat, twos: nat, fours: nat)
    returns (tot': nat, ones': nat, twos': nat, fours': nat)
    requires i + 8 <= A.Length && forall j :: 0 <= j < A.Length ==> A[j] < TWO_TO_THE_64
    requires Tallied(A[..], i, tot, fours, twos, ones)
    ensures Tallied(A[..], i + 8, tot', fours', twos', ones')
  {
    var foursA, foursB;
    ones', twos', foursA := AddFour(ones, twos, A[i], A[i + 1], A[i + 2], A[i + 3]);
    ones', twos', foursB := AddFour(ones', twos', A[i + 4], A[i + 5], A[i + 6], A[i + 7]);
    CsaCounts(fours, foursA, foursB);
    CsaFits(fours, foursA, foursB);
    var eights := CsaHigh(fours, foursA, foursB);
    fours' := CsaLow(fours, foursA, foursB);
    var more := WarrenBitCount(eights);
    tot' := tot + more;
    TotalFour(A[..], i);
    TotalFour(A[..], i + 4);
  }

  method WeighRegisters(tot: nat, fours: nat, twos: nat, ones: nat, ghost words: seq<nat>, ghost i: nat) returns (sum: nat)
    requires Tallied(words, i, tot, fours, twos, ones)
    ensures sum == Total(words, i)
  {
    var c4 := WarrenBitCount(fours);
    var c2 := WarrenBitCount(twos);
    var c1 := WarrenBitCount(ones);
    sum := 8 * tot + 4 * c4 + 2 * c2 + c1;
  }

  /** countBitsSetInMatrix; the length must be a multiple of 8. */
  method CountBitsSetInMatrix(A: array<nat>) returns (tot: nat)
    requires A.Length % 8 == 0 && forall i :: 0 <= i < A.Length ==> A[i] < TWO_TO_THE_64
    ensures tot == Total(A[..], A.Length)
  {
    tot := 0;
    var ones: nat, twos: nat, fours: nat := 0, 0, 0;
    var i := 0;
    while i <= A.Length - 8
      invariant 0 <= i <= A.Length && i % 8 == 0
      invariant Tallied(A[..], i, tot, fours, twos, ones)
    {
      tot, ones, twos, fours := AddEight(A, i, tot, ones, twos, fours);
      i := i + 8;
    }
    tot := WeighRegisters(tot, fours, twos, ones, A[..], i);
  }
}
