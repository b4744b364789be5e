/** Bits packed into 32-bit words through a 64-bit buffer: the MAYBE_FLUSH_BITBUF and MAYBE_FILL_BITBUF macros of cpc/include/fm85Compression.h. */
module BitStreams {
  import opened Words

  /** The words as one number, the first word lowest. */
  function Num(words: seq<nat>): nat
  {
    if words == [] then 0 else words[0] + Scale(Num(words[1..]), 32)
  }

  ghost predicate Fits(words: seq<nat>)
  {
    forall i :: 0 <= i < |words| ==> words[i] < Pow2(32)
  }

  lemma {:induction false} NumSnoc(words: seq<nat>, w: nat)
    ensures Num(words + [w]) == Num(words) + Scale(w, 32 * |words|)
  {
    if words == [] {
      ScaleZero(32);
      assert (words + [w])[1..] == [];
    } else {
      assert (words + [w])[1..] == words[1..] + [w];
      NumSnoc(words[1..], w);
      ScaleSum(Num(words[1..]), Scale(w, 32 * (|words| - 1)), 32);
      ScaleTwice(w, 32 * (|words| - 1), 32);
    }
  }

  lemma NumCons(words: seq<nat>, i: nat, n: nat)
    requires i < n <= |words|
    ensures Num(words[i..n]) == words[i] + Scale(Num(words[i + 1..n]), 32)
  {
    assert words[i..n][1..] == words[i + 1..n];
  }

  /** Flushing the low word of the buffer leaves the number written the same. */
  lemma FlushWord(words: seq<nat>, bitbuf: nat, bits: nat)
    requires 32 <= bits && bitbuf < Pow2(bits)
    ensures Num(words + [Low(bitbuf, 32)]) + Scale(Shr(bitbuf, 32), 32 * (|words| + 1)) == Num(words) + Scale(bitbuf, 32 * |words|)
    ensures Low(bitbuf, 32) < Pow2(32) && Shr(bitbuf, 32) < Pow2(bits - 32)
  {
    hide Num, Low, Shr, Scale, Pow2;
    var n := 32 * |words|;
    NumSnoc(words, Low(bitbuf, 32));
    LowAndShr(bitbuf, 32);
    ScaleSum(Low(bitbuf, 32), Scale(Shr(bitbuf, 32), 32), n);
    ScaleTwice(Shr(bitbuf, 32), 32, n);
    LowBound(bitbuf, 32);
    ShrBound(bitbuf, 32, bits - 32);
  }

  /** OR-ing `length` more bits into the buffer; nothing is lost at 64 bits. */
  lemma PutBits(bitbuf: nat, bits: nat, v: nat, length: nat)
    requires bits + length <= 64 && bitbuf < Pow2(bits) && v < Pow2(length)
    ensures Or(bitbuf, Shl(v, bits)) == bitbuf + Scale(v, bits) < Pow2(bits + length)
  {
    hide Or, Scale, Pow2, Low;
    ScaleBound(v, length, bits);
    Pow2Monotone(bits + length, 64);
    LowKeeps(Scale(v, bits), 64);
    OrDisjoint(bitbuf, v, bits);
  }

  class BitWriter {
    var compressedWords: array<nat>
    var nextWordIndex: nat
    var bitbuf: nat
    var bufbits: nat

    /** Everything written so far, as a number. */
    ghost function Written(): nat
      requires nextWordIndex <= compressedWords.Length
      reads this, compressedWords
    {
      Num(compressedWords[..nextWordIndex]) + Scale(bitbuf, 32 * nextWordIndex)
    }

    /** The number of bits written so far. */
    ghost function Bits(): nat
      reads this
    {
      32 * nextWordIndex + bufbits
    }

    ghost predicate Shape(most: nat)
      reads this, compressedWords
    {
      nextWordIndex <= compressedWords.Length && bufbits <= most && bitbuf < Pow2(bufbits) && Fits(compressedWords[..nextWordIndex])
    }

    ghost predicate Valid()
      reads this, compressedWords
    {
      Shape(31)
    }

    constructor (length: nat)
      ensures Valid() && Written() == 0 && Bits() == 0 && compressedWords.Length == length && fresh(compressedWords)
    {
      compressedWords := new nat[length](_ => 0);
      nextWordIndex := 0;
      bitbuf := 0;
      bufbits := 0;
    }

    /** MAYBE_FLUSH_BITBUF */
    method MaybeFlush()
      requires Shape(63) && Bits() <= 32 * compressedWords.Length
      modifies this`nextWordIndex, this`bitbuf, this`bufbits, compressedWords
      ensures Valid() && Written() == old(Written()) && Bits() == old(Bits())
    {
      hide Num, Scale, Low, Shr, Pow2;
      if bufbits >= 32 {
        ghost var words := compressedWords[..nextWordIndex];
        FlushWord(words, bitbuf, bufbits);
        compressedWords[nextWordIndex] := Low(bitbuf, 32);
        nextWordIndex := nextWordIndex + 1;
        assert compressedWords[..nextWordIndex] == words + [Low(bitbuf, 32)];
        bitbuf := Shr(bitbuf, 32);
        bufbits := bufbits - 32;
      }
    }

    /** Append a code of `length` bits. */
    method Put(v: nat, length: nat)
      requires Valid() && length <= 32 && v < Pow2(length) && Bits() + length <= 32 * compressedWords.Length
      modifies this`nextWordIndex, this`bitbuf, this`bufbits, compressedWords
      ensures Valid() && Written() == old(Written()) + Scale(v, old(Bits())) && Bits() == old(Bits()) + length
    {
      hide Num, Scale, Low, Shr, Pow2, Or, Shl, Fits;
      PutBits(bitbuf, bufbits, v, length);
      ScaleSum(bitbuf, Scale(v, bufbits), 32 * nextWordIndex);
      ScaleTwice(v, bufbits, 32 * nextWordIndex);
      bitbuf := Or(bitbuf, Shl(v, bufbits));
      bufbits := bufbits + length;
      MaybeFlush();
    }

    /** Record zeros, which are in the buffer already. */
    method Skip(length: nat)
      requires Valid() && length <= 32 && Bits() + length <= 32 * compressedWords.Length
      modifies this`nextWordIndex, this`bitbuf, this`bufbits, compressedWords
      ensures Valid() && Written() == old(Written()) && Bits() == old(Bits()) + length
    {
      hide Num, Scale, Fits;
      Pow2Monotone(bufbits, bufbits + length);
      bufbits := bufbits + length;
      MaybeFlush();
    }

    /** writeUnary: value zeros and a one. */
    method WriteUnary(value: nat)
      requires Valid() && Bits() + value + 1 <= 32 * compressedWords.Length
      modifies this`nextWordIndex, this`bitbuf, this`bufbits, compressedWords
      ensures Valid() && Written() == old(Written()) + Scale(1, old(Bits()) + value) && Bits() == old(Bits()) + value + 1
    {
      hide Num, Scale, Fits;
      ghost var bits0, written0 := Bits(), Written();
      var remaining: nat := value;
      while remaining >= 16
        invariant remaining <= value && Valid() && Written() == written0 && Bits() == bits0 + (value - remaining)
        invariant compressedWords == old(compressedWords)
      {
        remaining := remaining - 16;
        Skip(16);
      }
      UnaryCode(remaining, bits0 + (value - remaining));
      Put(Pow2(remaining), remaining + 1);
    }

    /** Pad with zeros and write out what is left in the buffer; the number of words used. */
    method Finish(padding: nat) returns (numWords: nat)
      requires Valid() && padding <= 32 && Bits() + padding <= 32 * compressedWords.Length
      modifies this`nextWordIndex, this`bitbuf, this`bufbits, compressedWords
      ensures numWords <= compressedWords.Length && Fits(compressedWords[..numWords])
      ensures Num(compressedWords[..numWords]) == old(Written())
      ensures old(Bits()) + padding <= 32 * numWords < old(Bits()) + padding + 32
    {
      hide Num, Scale, Low, Shr, Pow2;
      Skip(padding);
      NothingLeft(bitbuf, bufbits, 32 * nextWordIndex);
      if bufbits > 0 {
        ghost var words := compressedWords[..nextWordIndex];
        LastWord(words, bitbuf, bufbits);
        compressedWords[nextWordIndex] := Low(bitbuf, 32);
        nextWordIndex := nextWordIndex + 1;
        assert compressedWords[..nextWordIndex] == words + [Low(bitbuf, 32)];
        bitbuf, bufbits := 0, 0;
      }
      numWords := nextWordIndex;
    }
  }

  lemma UnaryCode(value: nat, bits: nat)
    ensures Pow2(value) < Pow2(value + 1) && Scale(Pow2(value), bits) == Scale(1, bits + value)
  {
    hide Scale;
    ScaleOne(value);
    ScaleTwice(1, value, bits);
  }

  lemma NothingLeft(bitbuf: nat, bits: nat, n: nat)
    requires bitbuf < Pow2(bits)
    ensures bits == 0 ==> Scale(bitbuf, n) == 0
  {
    ScaleZero(n);
  }

  lemma LastWord(words: seq<nat>, bitbuf: nat, bits: nat)
    requires bits <= 31 && bitbuf < Pow2(bits)
    ensures Num(words + [Low(bitbuf, 32)]) == Num(words) + Scale(bitbuf, 32 * |words|) && Low(bitbuf, 32) < Pow2(32)
  {
    hide Num, Low, Scale, Pow2;
    Pow2Monotone(bits, 32);
    LowKeeps(bitbuf, 32);
    NumSnoc(words, bitbuf);
  }

  // ---- reading ----

  /** A peek at n bits of the buffer is a peek at all that is left to read. */
  lemma PeekAll(bitbuf: nat, bits: nat, rest: nat, n: nat)
    requires bitbuf < Pow2(bits) && n <= bits
    ensures Low(bitbuf + Scale(rest, bits), n) == Low(bitbuf, n)
  {
    LowOfSum(rest, bitbuf, bits, n);
  }

  lemma DropAll(bitbuf: nat, bits: nat, rest: nat, n: nat)
    requires bitbuf < Pow2(bits) && n <= bits
    ensures Shr(bitbuf + Scale(rest, bits), n) == Shr(bitbuf, n) + Scale(rest, bits - n)
    ensures Shr(bitbuf, n) < Pow2(bits - n)
  {
    hide Low, Shr, Scale, Pow2;
    LowAndShr(bitbuf, n);
    ScaleTwice(rest, bits - n, n);
    ScaleSum(Shr(bitbuf, n), Scale(rest, bits - n), n);
    LowBound(bitbuf, n);
    ShrOfSum(Shr(bitbuf, n) + Scale(rest, bits - n), Low(bitbuf, n), n);
    ShrBound(bitbuf, n, bits - n);
  }

  class BitReader {
    const compressedWords: array<nat>
    const numCompressedWords: nat
    var wordIndex: nat
    var bitbuf: nat
    var bufbits: nat

    /** Everything left to read, as a number. */
    ghost function Rest(): nat
      requires wordIndex <= numCompressedWords <= compressedWords.Length
      reads this, compressedWords
    {
      bitbuf + Scale(Num(compressedWords[wordIndex..numCompressedWords]), bufbits)
    }

    /** The number of bits left to read. */
    ghost function Left(): nat
      requires wordIndex <= numCompressedWords
      reads this
    {
      32 * (numCompressedWords - wordIndex) + bufbits
    }

    ghost predicate Valid()
      reads this, compressedWords
    {
      wordIndex <= numCompressedWords <= compressedWords.Length && bufbits <= 63 && bitbuf < Pow2(bufbits) &&
      Fits(compressedWords[..numCompressedWords])
    }

    constructor (compressedWords: array<nat>, numCompressedWords: nat)
      requires numCompressedWords <= compressedWords.Length && Fits(compressedWords[..numCompressedWords])
      ensures Valid() && Rest() == Num(compressedWords[..numCompressedWords]) && Left() == 32 * numCompressedWords
      ensures this.compressedWords == compressedWords && this.numCompressedWords == numCompressedWords
    {
      this.compressedWords := compressedWords;
      this.numCompressedWords := numCompressedWords;
      wordIndex := 0;
      bitbuf := 0;
      bufbits := 0;
    }

    /** MAYBE_FILL_BITBUF: it reads no word that was not written. */
    method MaybeFill(minbits: nat)
      requires Valid() && minbits <= 32 && minbits <= Left()
      modifies this`wordIndex, this`bitbuf, this`bufbits
      ensures Valid() && bufbits >= minbits && Rest() == old(Rest()) && Left() == old(Left())
    {
      hide Num, Scale, Pow2, Or, Shl, Low;
      if bufbits < minbits {
        ghost var words := compressedWords[..];
        NumCons(words, wordIndex, numCompressedWords);
        assert compressedWords[..numCompressedWords][wordIndex] < Pow2(32);
        FillBits(bitbuf, bufbits, compressedWords[wordIndex], Num(words[wordIndex + 1..numCompressedWords]));
        bitbuf := Or(bitbuf, Shl(compressedWords[wordIndex], bufbits));
        wordIndex := wordIndex + 1;
        bufbits := bufbits + 32;
        assert compressedWords[wordIndex..numCompressedWords] == words[wordIndex..numCompressedWords];
        assert compressedWords[wordIndex - 1..numCompressedWords] == words[wordIndex - 1..numCompressedWords];
      }
    }

    /** The next n bits, which are in the buffer. */
    method Peek(n: nat) returns (bits: nat)
      requires Valid() && n <= bufbits
      ensures bits == Low(Rest(), n)
    {
      hide Num, Scale, Pow2, Low;
      PeekAll(bitbuf, bufbits, Num(compressedWords[wordIndex..numCompressedWords]), n);
      bits := Low(bitbuf, n);
    }

    method Drop(n: nat)
      requires Valid() && n <= bufbits
      modifies this`bitbuf, this`bufbits
      ensures Valid() && Rest() == Shr(old(Rest()), n) && Left() == old(Left()) - n && bufbits == old(bufbits) - n
    {
      hide Num, Scale, Pow2, Shr;
      DropAll(bitbuf, bufbits, Num(compressedWords[wordIndex..numCompressedWords]), n);
      bitbuf := Shr(bitbuf, n);
      bufbits := bufbits - n;
    }

    /** readUnary: the zeros before the first one, which is read too. */
    method ReadUnary(ghost u: nat, ghost rest: nat) returns (value: nat)
      requires Valid() && Rest() == Scale(1 + 2 * rest, u) && Left() >= u + 8
      modifies this`wordIndex, this`bitbuf, this`bufbits
      ensures Valid() && value == u && Rest() == rest && Left() == old(Left()) - (u + 1)
    {
      hide Num, Scale, Pow2, Shr, Low;
      ghost var left := Left();
      value := 0;
      while true
        invariant Valid() && value <= u && Rest() == Scale(1 + 2 * rest, u - value) && Left() == left - value
        decreases u - value
      {
        MaybeFill(8); // ensure 8 bits in the buffer
        var peek8 := Peek(8);
        var trailingZeros := ByteTrailingZeros(peek8);
        PeekUnary(u - value, rest);
        if trailingZeros < 8 {
          Drop(trailingZeros + 1);
          value := value + trailingZeros;
          return;
        }
        Drop(8); // the codeword was partial, so read some more
        value := value + 8;
      }
    }
  }

  lemma FillBits(bitbuf: nat, bits: nat, word: nat, rest: nat)
    requires bits < 32 && bitbuf < Pow2(bits) && word < Pow2(32)
    ensures Or(bitbuf, Shl(word, bits)) + Scale(rest, bits + 32) == bitbuf + Scale(word + Scale(rest, 32), bits)
    ensures Or(bitbuf, Shl(word, bits)) < Pow2(bits + 32)
  {
    hide Or, Shl, Scale, Pow2, Low;
    PutBits(bitbuf, bits, word, 32);
    ScaleSum(word, Scale(rest, 32), bits);
    ScaleTwice(rest, 32, bits);
  }

  /** byteTrailingZerosTable */
  function ByteTrailingZeros(byte: nat): (t: nat)
    ensures t <= 8
  {
    if byte == 0 then 8
    else
      var t := LowestBit(byte);
      if t < 8 then t else 8
  }

  lemma PeekUnary(u: nat, rest: nat)
    ensures u >= 8 ==> ByteTrailingZeros(Low(Scale(1 + 2 * rest, u), 8)) == 8 && Shr(Scale(1 + 2 * rest, u), 8) == Scale(1 + 2 * rest, u - 8)
    ensures u < 8 ==> ByteTrailingZeros(Low(Scale(1 + 2 * rest, u), 8)) == u && Shr(Scale(1 + 2 * rest, u), u + 1) == rest
  {
    var x := 1 + 2 * rest;
    if u >= 8 {
      ScaleTwice(x, u - 8, 8);
      PeekZeros(Scale(x, u - 8));
    } else {
      PeekOne(u, rest);
    }
  }

  lemma PeekZeros(x: nat)
    ensures ByteTrailingZeros(Low(Scale(x, 8), 8)) == 8 && Shr(Scale(x, 8), 8) == x
  {
    hide Low, Scale, Shr, Pow2;
    Pow2Monotone(0, 8);
    assert Pow2(8) >= 1;
    LowOfSum(x, 0, 8, 8);
    ShrOfSum(x, 0, 8);
    LowKeeps(0, 8);
  }

  lemma PeekOne(u: nat, rest: nat)
    requires u < 8
    ensures ByteTrailingZeros(Low(Scale(1 + 2 * rest, u), 8)) == u && Shr(Scale(1 + 2 * rest, u), u + 1) == rest
  {
    hide Low, Scale, Shr;
    var x := Scale(1 + 2 * rest, u);
    forall c: nat
      ensures c < u ==> !Bit(Low(x, 8), c)
    {
      BitLow(x, 8, c);
      BitScale(1 + 2 * rest, u, c);
    }
    BitLow(x, 8, u);
    BitScale(1 + 2 * rest, u, u);
    LowestIs(Low(x, 8), u);
    UnaryParts(u, rest);
    ShrOfSum(rest, Pow2(u), u + 1);
  }

  lemma UnaryParts(u: nat, rest: nat)
    ensures Scale(1 + 2 * rest, u) == Scale(rest, u + 1) + Pow2(u) && Pow2(u) < Pow2(u + 1)
  {
    hide Scale;
    ScaleSum(1, 2 * rest, u);
    ScaleOne(u);
    DoubleScale(rest, u);
  }

  lemma {:induction false} DoubleScale(x: nat, n: nat)
    ensures Scale(2 * x, n) == Scale(x, n + 1)
  {
    if n > 0 {
      DoubleScale(x, n - 1);
    }
  }
}
