/** The codec of sorted row/column pairs: cpc/src/fm85Compression.cpp. */
module PairCodecs {
  import opened Words
  import opened Coupons
  import opened BitStreams
  import opened PrefixCodes

  // ---- streams of pairs ----

  /** The pairs come after row and column, in increasing order. */
  ghost predicate After(pairs: seq<nat>, row: nat, col: nat)
  {
    pairs == [] ||
    ((Row(pairs[0]) > row || (Row(pairs[0]) == row && Col(pairs[0]) >= col)) && After(pairs[1..], Row(pairs[0]), Col(pairs[0]) + 1))
  }

  ghost predicate Increasing(pairs: seq<int>)
  {
    forall i, j :: 0 <= i < j < |pairs| ==> pairs[i] < pairs[j]
  }

  lemma {:induction false} IncreasingAfter(pairs: seq<nat>, row: nat, col: nat)
    requires Increasing(pairs) && (pairs != [] ==> Row(pairs[0]) > row || (Row(pairs[0]) == row && Col(pairs[0]) >= col))
    ensures After(pairs, row, col)
    decreases pairs
  {
    if pairs != [] {
      if |pairs| > 1 {
        assert pairs[0] < pairs[1];
        PairOrder(pairs[0], pairs[1]);
        assert pairs[1..][0] == pairs[1];
      }
      IncreasingAfter(pairs[1..], Row(pairs[0]), Col(pairs[0]) + 1);
    }
  }

  lemma PairOrder(a: nat, b: nat)
    requires a < b
    ensures Row(b) > Row(a) || (Row(b) == Row(a) && Col(b) >= Col(a) + 1)
  {
  }

  /** The row delta, and the column delta from the predicted column, which is zero in a new row. */
  function YDelta(rowCol: nat, row: nat): int { Row(rowCol) - row }

  function XDelta(rowCol: nat, row: nat, col: nat): int { if Row(rowCol) == row then Col(rowCol) - col else Col(rowCol) }

  /** A row delta as its Golomb code: the high part in unary, the low `base` bits as they are, then what follows. */
  function GolombStream(yDelta: nat, base: nat, rest: nat): nat
  {
    Scale(1 + 2 * (Low(yDelta, base) + Scale(rest, base)), Shr(yDelta, base))
  }

  function PairStream(pairs: seq<nat>, row: nat, col: nat, enc: seq<nat>, base: nat): nat
    requires After(pairs, row, col) && |enc| >= 65
  {
    if pairs == [] then 0
    else
      var x, y := XDelta(pairs[0], row, col), YDelta(pairs[0], row);
      CodeValue(enc[x]) +
      Scale(GolombStream(y, base, PairStream(pairs[1..], Row(pairs[0]), Col(pairs[0]) + 1, enc, base)), CodeLength(enc[x]))
  }

  function PairBits(pairs: seq<nat>, row: nat, col: nat, enc: seq<nat>, base: nat): nat
    requires After(pairs, row, col) && |enc| >= 65
  {
    if pairs == [] then 0
    else
      CodeLength(enc[XDelta(pairs[0], row, col)]) + (Shr(YDelta(pairs[0], row), base) + 1) + base +
      PairBits(pairs[1..], Row(pairs[0]), Col(pairs[0]) + 1, enc, base)
  }

  // ---- the safe length ----

  /** safeLengthForCompressedPairBuf, in bits and in words. */
  function SafeBits(k: nat, numPairs: nat, base: nat): nat
  {
    12 * numPairs + (numPairs * (1 + base) + Shr(k, base)) + Padding(base)
  }

  function Padding(base: nat): nat { if base <= 10 then 10 - base else 0 }

  function SafeLengthForCompressedPairBuf(k: nat, numPairs: nat, base: nat): nat
  {
    (SafeBits(k, numPairs, base) + 31) / 32
  }

  /** Dropping low bits of two numbers drops no less than dropping low bits of their sum. */
  lemma ShrSum(a: nat, b: nat, n: nat)
    ensures Shr(a, n) + Shr(b, n) <= Shr(a + b, n)
  {
    var p, q, r := Shr(a, n), Shr(b, n), Shr(a + b, n);
    ShrRange(a, n, p);
    ShrRange(b, n, q);
    ShrRange(a + b, n, r);
    ScaleSum(p, q, n);
    if p + q > r {
      ScaleMonotone(r + 1, p + q, n);
    }
  }

  lemma {:induction false} PairBitsBound(pairs: seq<nat>, row: nat, col: nat, enc: seq<nat>, base: nat, k: nat)
    requires After(pairs, row, col) && |enc| >= 65 && Codewords(enc) && row <= k && forall i :: 0 <= i < |pairs| ==> Row(pairs[i]) <= k
    ensures PairBits(pairs, row, col, enc, base) <= 12 * |pairs| + |pairs| * (1 + base) + Shr(k - row, base)
    decreases pairs
  {
    if pairs != [] {
      var x, y := XDelta(pairs[0], row, col), YDelta(pairs[0], row);
      PairBitsBound(pairs[1..], Row(pairs[0]), Col(pairs[0]) + 1, enc, base, k);
      ShrSum(y, k - Row(pairs[0]), base);
      OneMorePair(|pairs| - 1, 1 + base);
      assert CodeLength(enc[x]) <= 12;
    }
  }

  lemma OneMorePair(n: nat, c: nat)
    ensures (n + 1) * c == n * c + c
  {
  }

  // ---- coding ----

  /** What is left of a stream of pairs is its first pair and the stream of the others. */
  lemma PairStep(pairs: seq<nat>, i: nat, row: nat, col: nat, enc: seq<nat>, base: nat)
    requires i < |pairs| && After(pairs[i..], row, col) && |enc| >= 65
    ensures 0 <= XDelta(pairs[i], row, col) < 64 && YDelta(pairs[i], row) >= 0 && After(pairs[i + 1..], Row(pairs[i]), Col(pairs[i]) + 1)
    ensures var x, y := XDelta(pairs[i], row, col), YDelta(pairs[i], row);
            var rest := PairStream(pairs[i + 1..], Row(pairs[i]), Col(pairs[i]) + 1, enc, base);
            PairStream(pairs[i..], row, col, enc, base) == CodeValue(enc[x]) + Scale(GolombStream(y, base, rest), CodeLength(enc[x])) &&
            PairBits(pairs[i..], row, col, enc, base) ==
              CodeLength(enc[x]) + (Shr(y, base) + 1) + base + PairBits(pairs[i + 1..], Row(pairs[i]), Col(pairs[i]) + 1, enc, base)
  {
    hide Scale, GolombStream, Shr;
    assert pairs[i..][1..] == pairs[i + 1..] && pairs[i..][0] == pairs[i];
  }

  /** Write a row delta. */
  method PutGolomb(writer: BitWriter, yDelta: nat, base: nat, ghost rest: nat, ghost whole: nat)
    requires writer.Valid() && base <= 26 && writer.Bits() + (Shr(yDelta, base) + 1) + base <= 32 * writer.compressedWords.Length
    requires writer.Written() + Scale(GolombStream(yDelta, base, rest), writer.Bits()) == whole
    modifies writer`nextWordIndex, writer`bitbuf, writer`bufbits, writer.compressedWords
    ensures writer.Valid() && writer.Bits() == old(writer.Bits()) + (Shr(yDelta, base) + 1) + base
    ensures writer.Written() + Scale(rest, writer.Bits()) == whole
  {
    hide Num, Scale, Low, Shr, Pow2, Fits;
    var golombLo := Low(yDelta, base);
    var golombHi := Shr(yDelta, base);
    UnaryParts(golombHi, golombLo + Scale(rest, base));
    UnaryCode(golombHi, writer.Bits());
    Appended(writer.Written(), writer.Bits(), Pow2(golombHi), golombHi + 1, golombLo + Scale(rest, base), whole);
    writer.WriteUnary(golombHi);
    Appended(writer.Written(), writer.Bits(), golombLo, base, rest, whole);
    LowBound(yDelta, base);
    writer.Put(golombLo, base);
  }

  /** One pair of lowLevelCompressPairs; the checks that rows and columns do not decrease cannot fail. */
  method PutPair(writer: BitWriter, enc: seq<nat>, rowCol: nat, predictedRow: nat, predictedCol: nat, base: nat, ghost rest: nat, ghost whole: nat)
    requires writer.Valid() && base <= 26 && Codewords(enc) && |enc| >= 65
    requires 0 <= XDelta(rowCol, predictedRow, predictedCol) < 64 && YDelta(rowCol, predictedRow) >= 0
    requires writer.Bits() + CodeLength(enc[XDelta(rowCol, predictedRow, predictedCol)]) + (Shr(YDelta(rowCol, predictedRow), base) + 1) + base
             <= 32 * writer.compressedWords.Length
    requires writer.Written() + Scale(CodeValue(enc[XDelta(rowCol, predictedRow, predictedCol)]) +
               Scale(GolombStream(YDelta(rowCol, predictedRow), base, rest), CodeLength(enc[XDelta(rowCol, predictedRow, predictedCol)])), writer.Bits()) == whole
    modifies writer`nextWordIndex, writer`bitbuf, writer`bufbits, writer.compressedWords
    ensures writer.Valid() && writer.Written() + Scale(rest, writer.Bits()) == whole
    ensures writer.Bits() == old(writer.Bits()) + CodeLength(enc[XDelta(rowCol, predictedRow, predictedCol)]) + (Shr(YDelta(rowCol, predictedRow), base) + 1) + base
  {
    hide Num, Scale, Low, Shr, Pow2, Fits, GolombStream, Codewords, CodeValue, CodeLength;
    var yDelta := Row(rowCol) - predictedRow;
    var xDelta := if Row(rowCol) != predictedRow then Col(rowCol) else Col(rowCol) - predictedCol;
    Appended(writer.Written(), writer.Bits(), CodeValue(enc[xDelta]), CodeLength(enc[xDelta]), GolombStream(yDelta, base, rest), whole);
    PutSymbol(writer, enc, xDelta);
    PutGolomb(writer, yDelta, base, rest, whole);
  }

  /** lowLevelCompressPairs: the words used are within the safe length. */
  method LowLevelCompressPairs(pairArray: array<nat>, numPairs: nat, base: nat, enc: seq<nat>, length: nat, ghost k: nat)
    returns (words: array<nat>, numWords: nat)
    requires numPairs <= pairArray.Length && base <= 26 && Codewords(enc) && |enc| >= 65
    requires Increasing(pairArray[..numPairs]) && forall i :: 0 <= i < numPairs ==> Row(pairArray[i]) <= k
    requires length == SafeLengthForCompressedPairBuf(k, numPairs, base)
    ensures fresh(words) && numWords <= words.Length == length && Fits(words[..numWords])
    ensures Encodes(words[..numWords], pairArray[..numPairs], enc, base)
    ensures 32 * numWords < PairBits(pairArray[..numPairs], 0, 0, enc, base) + Padding(base) + 32
  {
    hide Num, Scale, Fits, After, PairStream, PairBits, Codewords;
    ghost var pairs := pairArray[..numPairs];
    var predictedRow: nat, predictedCol: nat := 0, 0;
    var writer := new BitWriter(length);
    PairsStart(pairs, enc, base, k);
    ghost var whole, bits := PairStream(pairs, 0, 0, enc, base), PairBits(pairs, 0, 0, enc, base);
    for pairIndex := 0 to numPairs
      invariant writer.Valid() && writer.compressedWords.Length == length && fresh(writer.compressedWords)
      invariant pairArray[..numPairs] == pairs
      invariant After(pairs[pairIndex..], predictedRow, predictedCol)
      invariant writer.Written() + Scale(PairStream(pairs[pairIndex..], predictedRow, predictedCol, enc, base), writer.Bits()) == whole
      invariant writer.Bits() + PairBits(pairs[pairIndex..], predictedRow, predictedCol, enc, base) == bits
    {
      var rowCol := pairArray[pairIndex];
      assert rowCol == pairs[pairIndex];
      PairStep(pairs, pairIndex, predictedRow, predictedCol, enc, base);
      ghost var rest := PairStream(pairs[pairIndex + 1..], Row(rowCol), Col(rowCol) + 1, enc, base);
      PutPair(writer, enc, rowCol, predictedRow, predictedCol, base, rest, whole);
      predictedRow, predictedCol := Row(rowCol), Col(rowCol) + 1;
    }
    PairsEnd(pairs, predictedRow, predictedCol, enc, base, writer.Bits());
    numWords := writer.Finish(Padding(base)); // so that the decompressor's 12-bit peek can't overrun its input
    words := writer.compressedWords;
  }

  /** The words hold the stream of the pairs, and enough padding. */
  ghost predicate Encodes(words: seq<nat>, pairs: seq<nat>, enc: seq<nat>, base: nat)
  {
    |enc| >= 65 && After(pairs, 0, 0) && Num(words) == PairStream(pairs, 0, 0, enc, base) &&
    32 * |words| >= PairBits(pairs, 0, 0, enc, base) + Padding(base)
  }

  lemma PairsStart(pairs: seq<nat>, enc: seq<nat>, base: nat, k: nat)
    requires Increasing(pairs) && |enc| >= 65 && Codewords(enc) && forall i :: 0 <= i < |pairs| ==> Row(pairs[i]) <= k
    ensures pairs[0..] == pairs && After(pairs, 0, 0) && Scale(PairStream(pairs, 0, 0, enc, base), 0) == PairStream(pairs, 0, 0, enc, base)
    ensures PairBits(pairs, 0, 0, enc, base) + Padding(base) <= 32 * SafeLengthForCompressedPairBuf(k, |pairs|, base)
  {
    hide PairStream, PairBits, Codewords, Shr;
    IncreasingAfter(pairs, 0, 0);
    PairBitsBound(pairs, 0, 0, enc, base, k);
  }

  lemma PairsEnd(pairs: seq<nat>, row: nat, col: nat, enc: seq<nat>, base: nat, bits: nat)
    requires |enc| >= 65
    ensures After(pairs[|pairs|..], row, col) && PairStream(pairs[|pairs|..], row, col, enc, base) == 0
    ensures PairBits(pairs[|pairs|..], row, col, enc, base) == 0 && Scale(0, bits) == 0
  {
    ScaleZero(bits);
  }

  // ---- decoding ----

  /** Read a row delta. */
  method GetGolomb(reader: BitReader, base: nat, ghost y: nat, ghost rest: nat) returns (yDelta: nat)
    requires reader.Valid() && base <= 26 && reader.Rest() == GolombStream(y, base, rest)
    requires reader.Left() >= (Shr(y, base) + 1) + base + Padding(base)
    modifies reader`wordIndex, reader`bitbuf, reader`bufbits
    ensures reader.Valid() && yDelta == y && reader.Rest() == rest && reader.Left() == old(reader.Left()) - (Shr(y, base) + 1) - base
  {
    hide Num, Scale, Low, Shr, Pow2, Fits, Or;
    GolombParts(y, base, rest);
    var golombHi := reader.ReadUnary(Shr(y, base), Low(y, base) + Scale(rest, base));
    reader.MaybeFill(base); // ensure the base bits in the buffer
    var golombLo := reader.Peek(base);
    reader.Drop(base);
    yDelta := Or(Scale(golombHi, base), golombLo);
  }

  lemma GolombParts(y: nat, base: nat, rest: nat)
    ensures Low(Low(y, base) + Scale(rest, base), base) == Low(y, base) && Shr(Low(y, base) + Scale(rest, base), base) == rest
    ensures Or(Scale(Shr(y, base), base), Low(y, base)) == y
  {
    hide Low, Shr, Scale, Or;
    LowBound(y, base);
    LowOfSum(rest, Low(y, base), base, base);
    LowKeeps(Low(y, base), base);
    ShrOfSum(rest, Low(y, base), base);
    LowAndShr(y, base);
    OrDisjoint(Low(y, base), Shr(y, base), base);
    OrCommutes(Scale(Shr(y, base), base), Low(y, base));
  }

  lemma {:induction false} OrCommutes(a: nat, b: nat)
    ensures Or(a, b) == Or(b, a)
    decreases a + b
  {
    if a + b > 0 {
      OrHalves(a, b);
      OrHalves(b, a);
      OrCommutes(a / 2, b / 2);
    }
  }

  /** One pair of lowLevelUncompressPairs. */
  method GetPair(reader: BitReader, dec: seq<nat>, predictedRow: nat, predictedCol: nat, base: nat, ghost rowCol: nat, ghost enc: seq<nat>, ghost rest: nat)
    returns (rowIndex: nat, colIndex: nat)
    requires reader.Valid() && base <= 26 && PrefixFree(enc) && Decodes(dec, enc) && |enc| >= 65
    requires 0 <= XDelta(rowCol, predictedRow, predictedCol) < 64 && YDelta(rowCol, predictedRow) >= 0
    requires reader.Rest() == CodeValue(enc[XDelta(rowCol, predictedRow, predictedCol)]) +
               Scale(GolombStream(YDelta(rowCol, predictedRow), base, rest), CodeLength(enc[XDelta(rowCol, predictedRow, predictedCol)]))
    requires reader.Left() >= CodeLength(enc[XDelta(rowCol, predictedRow, predictedCol)]) + (Shr(YDelta(rowCol, predictedRow), base) + 1) + base + Padding(base)
    modifies reader`wordIndex, reader`bitbuf, reader`bufbits
    ensures reader.Valid() && rowIndex == Row(rowCol) && colIndex == Col(rowCol) && reader.Rest() == rest
    ensures reader.Left() == old(reader.Left()) - CodeLength(enc[XDelta(rowCol, predictedRow, predictedCol)]) - (Shr(YDelta(rowCol, predictedRow), base) + 1) - base
  {
    hide Num, Scale, Low, Shr, Pow2, Fits, GolombStream, Decodes, CodeValue;
    ghost var x, y := XDelta(rowCol, predictedRow, predictedCol), YDelta(rowCol, predictedRow);
    EntryOk(enc, x);
    hide PrefixFree, CodeLength;
    var xDelta := GetSymbol(reader, dec, enc, x, GolombStream(y, base, rest));
    var yDelta := GetGolomb(reader, base, y, rest);
    var col := if yDelta > 0 then 0 else predictedCol;
    rowIndex := predictedRow + yDelta;
    colIndex := col + xDelta;
  }

  /** lowLevelUncompressPairs gives back the pairs that were compressed, and reads no word that was not written. */
  method LowLevelUncompressPairs(numPairs: nat, base: nat, dec: seq<nat>, words: array<nat>, numWords: nat, ghost pairs: seq<nat>, ghost enc: seq<nat>)
    returns (pairArray: array<nat>)
    requires PrefixFree(enc) && Decodes(dec, enc) && numPairs == |pairs| && base <= 26
    requires numWords <= words.Length && Fits(words[..numWords]) && Encodes(words[..numWords], pairs, enc, base)
    ensures fresh(pairArray) && pairArray[..] == pairs
  {
    hide Num, Scale, Fits, After, PairStream, PairBits, Decodes, PrefixFree;
    pairArray := new nat[numPairs];
    var reader := new BitReader(words, numWords);
    var predictedRow: nat, predictedCol: nat := 0, 0;
    assert pairs[0..] == pairs;
    for pairIndex := 0 to numPairs
      invariant reader.Valid() && words[..] == old(words[..])
      invariant After(pairs[pairIndex..], predictedRow, predictedCol)
      invariant reader.Rest() == PairStream(pairs[pairIndex..], predictedRow, predictedCol, enc, base)
      invariant reader.Left() >= PairBits(pairs[pairIndex..], predictedRow, predictedCol, enc, base) + Padding(base)
      invariant pairArray[..pairIndex] == pairs[..pairIndex]
    {
      PairStep(pairs, pairIndex, predictedRow, predictedCol, enc, base);
      ghost var rowCol := pairs[pairIndex];
      var rowIndex, colIndex := GetPair(reader, dec, predictedRow, predictedCol, base, rowCol, enc,
                                        PairStream(pairs[pairIndex + 1..], Row(rowCol), Col(rowCol) + 1, enc, base));
      pairArray[pairIndex] := Pair(rowIndex, colIndex);
      PairIs(rowCol);
      predictedRow, predictedCol := rowIndex, colIndex + 1;
    }
  }

  lemma PairIs(rowCol: nat)
    ensures Pair(Row(rowCol), Col(rowCol)) == rowCol
  {
  }
}
