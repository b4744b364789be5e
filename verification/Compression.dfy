/** Compressed sketches of all five flavors: cpc/src/fm85Compression.cpp. */
module Compression {
  import opened Sets
  import opened Words
  import opened Logarithms
  import opened U32Tables
  import opened Coupons
  import opened Fm85Sketch
  import opened BitStreams
  import opened PrefixCodes
  import opened PairCodecs
  import opened PairArrays
  import opened Merges

  // ---- tables ----

  /** The code tables and column permutations, which are parameters of the model. */
  datatype Tables = Tables(unaryEncoding: seq<nat>, unaryDecoding: seq<nat>, byteEncoding: seq<seq<nat>>, byteDecoding: seq<seq<nat>>,
                           permutation: seq<seq<nat>>, inverse: seq<seq<nat>>)

  ghost predicate Inverts(inverse: seq<nat>, permu: seq<nat>)
  {
    |permu| == |inverse| == 56 && forall c :: 0 <= c < 56 ==> permu[c] < 56 && inverse[permu[c]] == c
  }

  ghost predicate TablesOk(t: Tables)
  {
    |t.unaryEncoding| >= 65 && PrefixFree(t.unaryEncoding) && Decodes(t.unaryDecoding, t.unaryEncoding) &&
    |t.byteEncoding| == |t.byteDecoding| == 22 && |t.permutation| == |t.inverse| == 16 &&
    (forall i :: 0 <= i < 22 ==> |t.byteEncoding[i]| == 256 && PrefixFree(t.byteEncoding[i]) && Decodes(t.byteDecoding[i], t.byteEncoding[i])) &&
    (forall i :: 0 <= i < 16 ==> Inverts(t.inverse[i], t.permutation[i]))
  }

  /** makeInversePermutation: its check holds exactly for permutations. */
  method MakeInversePermutation(permu: seq<nat>) returns (inverse: array<nat>)
    requires |permu| == 56 && (forall c :: 0 <= c < 56 ==> permu[c] < 56) && NoRepeat(permu)
    ensures fresh(inverse) && Inverts(inverse[..], permu)
  {
    inverse := new nat[56](_ => 0);
    for i := 0 to 56
      invariant forall c :: 0 <= c < i ==> inverse[permu[c]] == c
    {
      inverse[permu[i]] := i;
    }
  }

  ghost predicate Permutation(permu: seq<nat>)
  {
    |permu| == 56 && (forall c :: 0 <= c < 56 ==> permu[c] < 56) && NoRepeat(permu)
  }

  ghost predicate CompleteCode(enc: seq<nat>, n: nat) { |enc| == n && PrefixFree(enc) && Complete(enc) }

  /** A decoding table, made and validated: the exceptions cannot occur. */
  method MakeAndValidate(enc: seq<nat>) returns (dec: seq<nat>)
    requires PrefixFree(enc) && Complete(enc)
    ensures Decodes(dec, enc)
  {
    hide PrefixFree, Decodes, Complete, GoodEntry;
    var encodingTable := new nat[|enc|](i requires 0 <= i < |enc| => enc[i]);
    assert encodingTable[..] == enc;
    var decodingTable := MakeDecodingTable(encodingTable);
    dec := decodingTable[..];
    ValidatedIff(dec, enc);
    TableLength(dec, enc);
    var ok := ValidateDecodingTable(dec, enc);
    assert ok;
  }

  lemma TableLength(dec: seq<nat>, enc: seq<nat>)
    requires Decodes(dec, enc)
    ensures |dec| == 4096
  {
  }

  /** makeTheDecodingTables: complete prefix-free codes and permutations are all that compression needs. */
  method MakeTheDecodingTables(unary: seq<nat>, bytes: seq<seq<nat>>, permutations: seq<seq<nat>>) returns (t: Tables)
    requires CompleteCode(unary, 65) && |bytes| == 22 && |permutations| == 16
    requires (forall i :: 0 <= i < 22 ==> CompleteCode(bytes[i], 256)) && forall i :: 0 <= i < 16 ==> Permutation(permutations[i])
    ensures TablesOk(t) && t.unaryEncoding == unary && t.byteEncoding == bytes && t.permutation == permutations
  {
    hide PrefixFree, Decodes, Complete, Inverts, NoRepeat;
    var unaryDecoding := MakeAndValidate(unary);
    var byteDecoding: seq<seq<nat>> := [];
    for i := 0 to 22
      invariant |byteDecoding| == i && forall j :: 0 <= j < i ==> Decodes(byteDecoding[j], bytes[j])
    {
      assert CompleteCode(bytes[i], 256);
      var dec := MakeAndValidate(bytes[i]);
      byteDecoding := byteDecoding + [dec];
    }
    var inverses: seq<seq<nat>> := [];
    for i := 0 to 16
      invariant |inverses| == i && forall j :: 0 <= j < i ==> Inverts(inverses[j], permutations[j])
    {
      assert Permutation(permutations[i]);
      var inverse := MakeInversePermutation(permutations[i]);
      inverses := inverses + [inverse[..]];
    }
    t := Tables(unary, unaryDecoding, bytes, byteDecoding, permutations, inverses);
    assert forall i :: 0 <= i < 22 ==> CompleteCode(bytes[i], 256);
  }

  // ---- parameters of the codes ----

  /** determinePseudoPhase; its checks cannot fail for 2^4 rows or more. */
  function PseudoPhase(lgK: nat, c: nat): (phase: nat)
    requires lgK >= 4
    ensures phase < 22
  {
    var k := Pow2(lgK);
    if 1000 * c < 2375 * k then
      if 4 * c < 3 * k then 16
      else if 10 * c < 11 * k then 17
      else if 100 * c < 132 * k then 18
      else if 3 * c < 5 * k then 19
      else if 1000 * c < 1965 * k then 20
      else if 1000 * c < 2275 * k then 21
      else 6
    else Shr(c, lgK - 4) % 16
  }

  /** The ranges of counts and their code tables: six for the middle range, and one of sixteen steady ones by the top bits of the count. */
  ghost predicate PhaseOf(p: nat, lgK: nat, c: nat)
  {
    var k := Pow2(lgK);
    if 2375 * k <= 1000 * c then exists q: nat :: k * q <= 16 * c < k * (q + 1) && p == q % 16
    else
      (p == 16 && 4 * c < 3 * k) ||
      (p == 17 && 3 * k <= 4 * c && 10 * c < 11 * k) ||
      (p == 18 && 11 * k <= 10 * c && 100 * c < 132 * k) ||
      (p == 19 && 132 * k <= 100 * c && 3 * c < 5 * k) ||
      (p == 20 && 5 * k <= 3 * c && 1000 * c < 1965 * k) ||
      (p == 21 && 1965 * k <= 1000 * c && 1000 * c < 2275 * k) ||
      (p == 6 && 2275 * k <= 1000 * c)
  }

  lemma PhaseIff(p: nat, lgK: nat, c: nat)
    requires lgK >= 4
    ensures PhaseOf(p, lgK, c) <==> p == PseudoPhase(lgK, c)
  {
    hide Pow2, Shr;
    if 2375 * Pow2(lgK) <= 1000 * c {
      SteadyPhase(lgK, c);
      if PhaseOf(p, lgK, c) {
        var q: nat :| Pow2(lgK) * q <= 16 * c < Pow2(lgK) * (q + 1) && p == q % 16;
        SameQuotient(Pow2(lgK), 16 * c, q, Shr(c, lgK - 4));
      }
    }
  }

  /** The top bits of the count are the quotient of 16C and K. */
  lemma SteadyPhase(lgK: nat, c: nat)
    requires lgK >= 4
    ensures Pow2(lgK) * Shr(c, lgK - 4) <= 16 * c < Pow2(lgK) * (Shr(c, lgK - 4) + 1)
  {
    var q := Shr(c, lgK - 4);
    ShrRange(c, lgK - 4, q);
    ScaleIsProduct(q, lgK - 4);
    ScaleIsProduct(q + 1, lgK - 4);
    Pow2Add(4, lgK - 4);
    assert Pow2(4) == 16;
    SixteenTimes(q, Pow2(lgK - 4), Pow2(lgK));
    SixteenTimes(q + 1, Pow2(lgK - 4), Pow2(lgK));
  }

  lemma SixteenTimes(q: nat, a: nat, b: nat)
    requires b == 16 * a
    ensures b * q == 16 * (q * a)
  {
  }

  lemma SameQuotient(k: nat, x: nat, q: nat, r: nat)
    requires k * q <= x < k * (q + 1) && k * r <= x < k * (r + 1)
    ensures q == r
  {
    if q + 1 <= r {
      NotAbove(k, q + 1, r);
    } else if r + 1 <= q {
      NotAbove(k, r + 1, q);
    }
  }

  lemma NotAbove(k: nat, a: nat, b: nat)
    requires a <= b
    ensures k * a <= k * b
  {
  }

  /** The words hold the pairs, with the largest number of base bits such that 2^base times their number is at most K, and no word more than they need with a padding that fills ten bits up. */
  ghost predicate PairsCoded(words: seq<nat>, pairs: seq<nat>, enc: seq<nat>, lgK: nat)
  {
    exists base: nat ::
      (base == 0 || Pow2(base) * |pairs| <= Pow2(lgK)) && Pow2(lgK) < Pow2(base + 1) * |pairs| &&
      Encodes(words, pairs, enc, base) && 32 * |words| < PairBits(pairs, 0, 0, enc, base) + (if base <= 10 then 10 - base else 0) + 32
  }

  /** The words hold the window bytes under the code table of this number of coupons. */
  ghost predicate WindowCoded(words: seq<nat>, window: seq<nat>, tables: seq<seq<nat>>, lgK: nat, c: nat)
  {
    exists p: nat :: p < |tables| && PhaseOf(p, lgK, c) &&
      (forall i :: 0 <= i < |window| ==> window[i] < |tables[p]|) && Num(words) == StreamOf(window, tables[p]) &&
      StreamBits(window, tables[p]) + 11 <= 32 * |words| < StreamBits(window, tables[p]) + 11 + 32
  }

  /** A sliding sketch is past the middle range, so it selects a column permutation, and its window has left column zero. */
  lemma SlidingPhase(lgK: nat, c: nat)
    requires lgK >= 4 && DetermineFlavor(lgK, c) == Sliding
    ensures PseudoPhase(lgK, c) < 16 && DetermineCorrectOffset(lgK, c) > 0
  {
    hide Pow2, Shr, DetermineCorrectOffset;
    OffsetIff(lgK, c, 0);
  }

  // ---- compressed sketches ----

  class CompressedFm85 {
    const lgK: nat
    const numCoupons: nat
    const windowOffset: nat
    const firstInterestingColumn: nat
    var numCompressedSurprisingValues: nat
    var compressedSurprisingValues: array?<nat>
    var compressedWindow: array?<nat>
    ghost var pairs: seq<nat>  // the pairs that were compressed
    ghost var window: seq<nat>  // the window bytes that were compressed

    /** The part of fm85Compress that copies the numbers and clears the rest. */
    constructor (lgK: nat, numCoupons: nat, windowOffset: nat, firstInterestingColumn: nat)
      ensures this.lgK == lgK && this.numCoupons == numCoupons && this.windowOffset == windowOffset
      ensures this.firstInterestingColumn == firstInterestingColumn
      ensures compressedSurprisingValues == null && compressedWindow == null && numCompressedSurprisingValues == 0 && pairs == []
    {
      this.lgK := lgK;
      this.numCoupons := numCoupons;
      this.windowOffset := windowOffset;
      this.firstInterestingColumn := firstInterestingColumn;
      numCompressedSurprisingValues := 0;
      compressedSurprisingValues := null;
      compressedWindow := null;
      pairs := [];
      window := [];
    }

    ghost predicate HoldsPairs(t: Tables)
      reads this, compressedSurprisingValues
    {
      numCompressedSurprisingValues == |pairs| &&
      (pairs == [] <==> compressedSurprisingValues == null) &&
      (pairs != [] ==>
        Fits(compressedSurprisingValues[..]) &&
        Encodes(compressedSurprisingValues[..], pairs, t.unaryEncoding, BaseBits(Pow2(lgK), |pairs|)))
    }

    ghost predicate HoldsWindow(t: Tables)
      reads this, compressedWindow
    {
      lgK >= 4 && compressedWindow != null && Fits(compressedWindow[..]) && |t.byteEncoding| == 22 &&
      (forall i :: 0 <= i < |window| ==> window[i] < |t.byteEncoding[PseudoPhase(lgK, numCoupons)]|) &&
      Num(compressedWindow[..]) == StreamOf(window, t.byteEncoding[PseudoPhase(lgK, numCoupons)]) &&
      32 * compressedWindow.Length >= StreamBits(window, t.byteEncoding[PseudoPhase(lgK, numCoupons)]) + 11
    }

    /** compressTheSurprisingValues */
    method CompressTheSurprisingValues(pairArray: array<nat>, t: Tables)
      requires pairArray.Length > 0 && 4 <= lgK <= 26 && TablesOk(t) && Increasing(pairArray[..])
      requires forall i :: 0 <= i < pairArray.Length ==> Cell(pairArray[i], lgK)
      modifies this`numCompressedSurprisingValues, this`compressedSurprisingValues, this`pairs
      ensures HoldsPairs(t) && pairs == pairArray[..] && fresh(compressedSurprisingValues)
      ensures PairsCoded(compressedSurprisingValues[..], pairs, t.unaryEncoding, lgK)
    {
      hide Increasing, Fits, Encodes, PrefixFree, Decodes, SafeBits, Pow2, BaseBits, Inverts;
      var numPairs := pairArray.Length;
      var numBaseBits := GolombChooseNumberOfBaseBits(Pow2(lgK) + numPairs, numPairs);
      BaseBitsBound(lgK, numPairs);
      BaseBitsIff(Pow2(lgK), numPairs, numBaseBits);
      CodewordsOf(t.unaryEncoding);
      CellRows(pairArray[..], lgK);
      assert pairArray[..numPairs] == pairArray[..];
      var words, numWords := LowLevelCompressPairs(pairArray, numPairs, numBaseBits, t.unaryEncoding,
                                                   SafeLengthForCompressedPairBuf(Pow2(lgK), numPairs, numBaseBits), Pow2(lgK));
      var shorterBuf := FirstWords(words, numWords);
      numCompressedSurprisingValues := numPairs;
      compressedSurprisingValues := shorterBuf;
      pairs := pairArray[..];
    }

    /** uncompressTheSurprisingValues */
    method UncompressTheSurprisingValues(t: Tables) returns (pairArray: array<nat>)
      requires HoldsPairs(t) && TablesOk(t) && 4 <= lgK <= 26 && pairs != []
      ensures fresh(pairArray) && pairArray[..] == pairs
    {
      hide Fits, Encodes, PrefixFree, Decodes, Pow2, BaseBits, Inverts;
      var numPairs := numCompressedSurprisingValues;
      var numBaseBits := GolombChooseNumberOfBaseBits(Pow2(lgK) + numPairs, numPairs);
      BaseBitsBound(lgK, numPairs);
      var words := compressedSurprisingValues;
      assert words[..words.Length] == words[..];
      pairArray := LowLevelUncompressPairs(numPairs, numBaseBits, t.unaryDecoding, words, words.Length, pairs, t.unaryEncoding);
    }

    /** compressTheWindow */
    method CompressTheWindow(slidingWindow: array<nat>, t: Tables)
      requires 4 <= lgK <= 26 && TablesOk(t) && forall i :: 0 <= i < slidingWindow.Length ==> slidingWindow[i] < 256
      modifies this`compressedWindow, this`window
      ensures HoldsWindow(t) && window == slidingWindow[..] && fresh(compressedWindow)
      ensures WindowCoded(compressedWindow[..], slidingWindow[..], t.byteEncoding, lgK, numCoupons)
    {
      hide Fits, PrefixFree, Decodes, StreamOf, StreamBits, PseudoPhase, Inverts, PhaseOf;
      PhaseIff(PseudoPhase(lgK, numCoupons), lgK, numCoupons);
      var enc := t.byteEncoding[PseudoPhase(lgK, numCoupons)];
      CodewordsOf(enc);
      var windowBuf, numWords := LowLevelCompressBytes(slidingWindow, enc, SafeLengthForCompressedWindowBuf(slidingWindow.Length));
      var shorterBuf := FirstWords(windowBuf, numWords);
      compressedWindow := shorterBuf;
      window := slidingWindow[..];
    }

    /** uncompressTheWindow */
    method UncompressTheWindow(numBytes: nat, t: Tables) returns (slidingWindow: array<nat>)
      requires HoldsWindow(t) && TablesOk(t) && numBytes == |window|
      ensures fresh(slidingWindow) && slidingWindow[..] == window
    {
      hide Fits, PrefixFree, Decodes, StreamOf, StreamBits, PseudoPhase, Inverts;
      var phase := PseudoPhase(lgK, numCoupons);
      var words := compressedWindow;
      assert words[..words.Length] == words[..];
      slidingWindow := LowLevelUncompressBytes(numBytes, t.byteDecoding[phase], words, words.Length, window, t.byteEncoding[phase]);
    }
  }

  lemma CodewordsOf(enc: seq<nat>)
    requires PrefixFree(enc)
    ensures Codewords(enc)
  {
  }

  lemma CellRows(pairs: seq<nat>, lgK: nat)
    requires forall i :: 0 <= i < |pairs| ==> Cell(pairs[i], lgK)
    ensures forall i :: 0 <= i < |pairs| ==> Row(pairs[i]) <= Pow2(lgK)
  {
  }

  /** A shorter buffer that holds only the words used. */
  method FirstWords(words: array<nat>, numWords: nat) returns (shorterBuf: array<nat>)
    requires numWords <= words.Length
    ensures fresh(shorterBuf) && shorterBuf[..] == words[..numWords]
  {
    shorterBuf := new nat[numWords](i requires 0 <= i < numWords reads words => words[i]);
  }

  // ---- moving columns ----

  /** Pinned sketches: the columns move down by 8, which subtracting 8 from the pairs does. */
  function Down(rc: nat): nat { if rc >= 8 then rc - 8 else rc }

  /** Sliding sketches: the columns are rotated past the window and permuted. */
  function Rotate(rc: nat, offset: nat, permu: seq<nat>): nat
  {
    var col := (Col(rc) + 56 - offset) % 64;
    if 0 <= col < |permu| && permu[col] < 64 then Pair(Row(rc), permu[col]) else rc
  }

  function Unrotate(rc: nat, offset: nat, inverse: seq<nat>): nat
  {
    if Col(rc) < |inverse| then Pair(Row(rc), (inverse[Col(rc)] + (offset + 8)) % 64) else rc
  }

  ghost function DownSet(T: set<nat>): set<nat> { set rc | rc in T :: Down(rc) }

  ghost function RotatedSet(T: set<nat>, offset: nat, permu: seq<nat>): set<nat> { set rc | rc in T :: Rotate(rc, offset, permu) }

  /** Outside the window, rotating and permuting gives a column below 56, and is undone. */
  lemma RotateBack(rc: nat, offset: nat, permu: seq<nat>, inverse: seq<nat>)
    requires Inverts(inverse, permu) && offset <= 56 && (Col(rc) < offset || offset + 8 <= Col(rc))
    ensures 0 <= (Col(rc) + 56 - offset) % 64 < 56
    ensures Row(Rotate(rc, offset, permu)) == Row(rc) && Col(Rotate(rc, offset, permu)) < 56
    ensures Unrotate(Rotate(rc, offset, permu), offset, inverse) == rc
  {
    PairIs(rc);
    RotateColumn(Col(rc), offset);
  }

  lemma RotateColumn(col: nat, offset: nat)
    requires col < 64 && offset <= 56 && (col < offset || offset + 8 <= col)
    ensures 0 <= (col + 56 - offset) % 64 < 56 && ((col + 56 - offset) % 64 + (offset + 8)) % 64 == col
  {
  }

  lemma DownBack(rc: nat)
    requires Col(rc) >= 8
    ensures Down(rc) + 8 == rc && Row(Down(rc)) == Row(rc) && Col(Down(rc)) == Col(rc) - 8
  {
  }

  /** A list mapped element by element, with an inverse, lists the image. */
  lemma MapLists(s: seq<nat>, t: seq<nat>, S: set<nat>, U: set<nat>)
    requires Lists(s, S) && |t| == |s|
    requires forall i, j :: 0 <= i < j < |s| && t[i] == t[j] ==> s[i] == s[j]
    requires (forall i :: 0 <= i < |t| ==> t[i] in U) && forall u :: u in U ==> exists i :: 0 <= i < |t| && t[i] == u
    ensures Lists(t, U)
  {
  }

  lemma DownLists(s: seq<nat>, t: seq<nat>, T: set<nat>)
    requires Lists(s, T) && |t| == |s| && (forall i :: 0 <= i < |s| ==> t[i] == Down(s[i])) && forall rc :: rc in T ==> Col(rc) >= 8
    ensures Lists(t, DownSet(T))
  {
    forall i | 0 <= i < |s|
      ensures s[i] in T && t[i] in DownSet(T) && t[i] + 8 == s[i]
    {
      assert s[i] in s;
      DownBack(s[i]);
    }
    forall u | u in DownSet(T)
      ensures exists i :: 0 <= i < |t| && t[i] == u
    {
      var rc :| rc in T && Down(rc) == u;
      var i :| 0 <= i < |s| && s[i] == rc;
      assert t[i] == u;
    }
    MapLists(s, t, T, DownSet(T));
  }

  lemma UpLists(s: seq<nat>, t: seq<nat>, T: set<nat>)
    requires Lists(s, DownSet(T)) && |t| == |s| && (forall i :: 0 <= i < |s| ==> t[i] == s[i] + 8) && forall rc :: rc in T ==> Col(rc) >= 8
    ensures Lists(t, T)
  {
    forall i | 0 <= i < |s|
      ensures t[i] in T
    {
      assert s[i] in s;
      var rc :| rc in T && Down(rc) == s[i];
      DownBack(rc);
    }
    forall rc | rc in T
      ensures exists i :: 0 <= i < |t| && t[i] == rc
    {
      DownBack(rc);
      assert Down(rc) in DownSet(T);
      var i :| 0 <= i < |s| && s[i] == Down(rc);
      assert t[i] == rc;
    }
    MapLists(s, t, DownSet(T), T);
  }

  /** The pairs of a set lie outside the window. */
  ghost predicate OutsideColumns(T: set<nat>, offset: nat)
  {
    forall rc :: rc in T ==> Col(rc) < offset || offset + 8 <= Col(rc)
  }

  lemma RotateLists(s: seq<nat>, t: seq<nat>, T: set<nat>, offset: nat, permu: seq<nat>, inverse: seq<nat>)
    requires Lists(s, T) && |t| == |s| && (forall i :: 0 <= i < |s| ==> t[i] == Rotate(s[i], offset, permu))
    requires Inverts(inverse, permu) && offset <= 56 && OutsideColumns(T, offset)
    ensures Lists(t, RotatedSet(T, offset, permu))
  {
    hide Rotate, Unrotate, Inverts;
    forall i | 0 <= i < |s|
      ensures t[i] in RotatedSet(T, offset, permu) && Unrotate(t[i], offset, inverse) == s[i]
    {
      assert s[i] in s;
      RotateBack(s[i], offset, permu, inverse);
    }
    forall u | u in RotatedSet(T, offset, permu)
      ensures exists i :: 0 <= i < |t| && t[i] == u
    {
      var rc :| rc in T && Rotate(rc, offset, permu) == u;
      var i :| 0 <= i < |s| && s[i] == rc;
      assert t[i] == u;
    }
    MapLists(s, t, T, RotatedSet(T, offset, permu));
  }

  lemma UnrotateLists(s: seq<nat>, t: seq<nat>, T: set<nat>, offset: nat, permu: seq<nat>, inverse: seq<nat>)
    requires Lists(s, RotatedSet(T, offset, permu)) && |t| == |s| && (forall i :: 0 <= i < |s| ==> t[i] == Unrotate(s[i], offset, inverse))
    requires Inverts(inverse, permu) && offset <= 56 && OutsideColumns(T, offset)
    ensures Lists(t, T)
  {
    hide Rotate, Unrotate, Inverts;
    forall i | 0 <= i < |s|
      ensures t[i] in T && Rotate(t[i], offset, permu) == s[i]
    {
      assert s[i] in s;
      var rc :| rc in T && Rotate(rc, offset, permu) == s[i];
      RotateBack(rc, offset, permu, inverse);
    }
    forall rc | rc in T
      ensures exists i :: 0 <= i < |t| && t[i] == rc
    {
      RotateBack(rc, offset, permu, inverse);
      assert Rotate(rc, offset, permu) in RotatedSet(T, offset, permu);
      var i :| 0 <= i < |s| && s[i] == Rotate(rc, offset, permu);
      assert t[i] == rc;
    }
    MapLists(s, t, RotatedSet(T, offset, permu), T);
  }

  /** A row cut off at K keeps the moved pairs within the rows of the sketch. */
  lemma MovedCells(T: set<nat>, lgK: nat, offset: nat, permu: seq<nat>, inverse: seq<nat>)
    requires (forall rc :: rc in T ==> Cell(rc, lgK)) && Inverts(inverse, permu) && offset <= 56 && OutsideColumns(T, offset)
    ensures forall q :: q in RotatedSet(T, offset, permu) ==> Cell(q, lgK)
    ensures (forall rc :: rc in T ==> Col(rc) >= 8) ==> forall q :: q in DownSet(T) ==> Cell(q, lgK)
  {
    hide Rotate, Unrotate, Inverts;
    forall rc | rc in T
      ensures Cell(Rotate(rc, offset, permu), lgK)
    {
      RotateBack(rc, offset, permu, inverse);
      SameRow(rc, Rotate(rc, offset, permu), lgK);
    }
  }

  lemma SameRow(a: nat, b: nat, lgK: nat)
    requires Row(a) == Row(b) && Cell(a, lgK)
    ensures Cell(b, lgK)
  {
  }

  // ---- what a compressed sketch denotes ----

  /** Everything about a sketch that follows from its coupons, and that its compressed form keeps. */
  ghost predicate Sketchable(lgK: nat, S: set<nat>, offset: nat, fic: nat)
  {
    4 <= lgK <= 26 && CouponSet(S, lgK) && WithinRange(lgK, |S|) && offset == DetermineCorrectOffset(lgK, |S|) <= 56 &&
    fic <= offset && (forall rc :: Cell(rc, lgK) && Col(rc) < fic ==> rc in S) &&
    4 * |Surprises(S, lgK, offset, DetermineFlavor(lgK, |S|) !in {Empty, Sparse})| <= 3 * Pow2(6 + lgK)
  }

  /** What the pairs and the window of a compressed sketch hold, flavor by flavor. */
  ghost predicate Content(lgK: nat, S: set<nat>, offset: nat, pairs: seq<nat>, window: seq<nat>, t: Tables)
    requires 4 <= lgK && |t.permutation| == 16
  {
    match DetermineFlavor(lgK, |S|)
    case Empty => pairs == []
    case Sparse => Lists(pairs, S)
    case Hybrid => Lists(pairs, S)
    case Pinned => WindowOf(window, S, lgK, offset) && Lists(pairs, DownSet(Surprises(S, lgK, offset, true)))
    case Sliding =>
      WindowOf(window, S, lgK, offset) &&
      PseudoPhase(lgK, |S|) < 16 && Lists(pairs, RotatedSet(Surprises(S, lgK, offset, true), offset, t.permutation[PseudoPhase(lgK, |S|)]))
  }

  ghost predicate Denotes(target: CompressedFm85, t: Tables, S: set<nat>)
    reads target, target.compressedSurprisingValues, target.compressedWindow
  {
    Sketchable(target.lgK, S, target.windowOffset, target.firstInterestingColumn) && target.numCoupons == |S| && |t.permutation| == 16 &&
    target.HoldsPairs(t) && (DetermineFlavor(target.lgK, |S|) in {Pinned, Sliding} ==> target.HoldsWindow(t)) &&
    Content(target.lgK, S, target.windowOffset, target.pairs, target.window, t)
  }

  /**
   * What is compressed, by the number of coupons: below K/2 all coupons; below 27K/8 those right of column 7, moved down
   * by 8 columns; from there on the surprises on both sides of the window, rotated past it and permuted.
   */
  ghost predicate Format(lgK: nat, S: set<nat>, offset: nat, pairs: seq<nat>, window: seq<nat>, permutations: seq<seq<nat>>)
  {
    var k, c := Pow2(lgK), |S|;
    NoRepeat(pairs) &&
    (2 * c < k ==> forall q :: q in pairs <==> q in S) &&
    (k <= 2 * c ==> WindowOf(window, S, lgK, offset)) &&
    (k <= 2 * c && 8 * c < 27 * k ==> offset == 0 && forall q :: q in pairs <==> q + 8 in S && Col(q + 8) >= 8) &&
    (27 * k <= 8 * c ==>
      exists p: nat :: p < |permutations| && PhaseOf(p, lgK, c) &&
        forall q :: q in pairs <==> exists rc :: rc in Surprises(S, lgK, offset, true) && Rotated(rc, q, offset, permutations[p]))
  }

  ghost predicate Rotated(rc: nat, q: nat, offset: nat, permu: seq<nat>)
  {
    var col := (Col(rc) + 56 - offset) % 64;
    0 <= col < |permu| && Row(q) == Row(rc) && Col(q) == permu[col]
  }

  /** A compressed sketch has this format. */
  lemma ContentFormat(lgK: nat, S: set<nat>, offset: nat, fic: nat, pairs: seq<nat>, window: seq<nat>, t: Tables)
    requires Sketchable(lgK, S, offset, fic) && TablesOk(t) && Content(lgK, S, offset, pairs, window, t)
    ensures Format(lgK, S, offset, pairs, window, t.permutation)
  {
    hide Surprises, WindowOf, PseudoPhase, PhaseOf, DetermineFlavor, Inverts, PrefixFree, Decodes, CouponSet, Rotate, Down, DetermineCorrectOffset, WithinRange, Pow2;
    FlavorIff(lgK, |S|);
    OffsetIff(lgK, |S|, 0);
    match DetermineFlavor(lgK, |S|)
    case Empty => assert S == {};
    case Sparse =>
    case Hybrid =>
    case Pinned => PinnedFormat(lgK, S, pairs);
    case Sliding =>
      PhaseIff(PseudoPhase(lgK, |S|), lgK, |S|);
      SlidingFormat(lgK, S, offset, pairs, t.permutation[PseudoPhase(lgK, |S|)], t.inverse[PseudoPhase(lgK, |S|)]);
  }

  lemma PinnedFormat(lgK: nat, S: set<nat>, pairs: seq<nat>)
    requires Lists(pairs, DownSet(Surprises(S, lgK, 0, true))) && CouponSet(S, lgK)
    ensures forall q :: q in pairs <==> q + 8 in S && Col(q + 8) >= 8
  {
    CouponsAreCells(S, lgK);
    forall q: nat
      ensures q in DownSet(Surprises(S, lgK, 0, true)) <==> q + 8 in S && Col(q + 8) >= 8
    {
      if q in DownSet(Surprises(S, lgK, 0, true)) {
        var rc :| rc in Surprises(S, lgK, 0, true) && Down(rc) == q;
        DownBack(rc);
      }
      if q + 8 in S && Col(q + 8) >= 8 {
        assert q + 8 in Surprises(S, lgK, 0, true) && Down(q + 8) == q;
      }
    }
  }

  lemma SlidingFormat(lgK: nat, S: set<nat>, offset: nat, pairs: seq<nat>, permu: seq<nat>, inverse: seq<nat>)
    requires Lists(pairs, RotatedSet(Surprises(S, lgK, offset, true), offset, permu)) && Inverts(inverse, permu) && offset <= 56
    ensures forall q :: q in pairs <==> exists rc :: rc in Surprises(S, lgK, offset, true) && Rotated(rc, q, offset, permu)
  {
    var T := Surprises(S, lgK, offset, true);
    SurpriseCells(S, lgK, offset);
    hide Surprises;
    forall rc, q: nat | rc in T
      ensures Rotate(rc, offset, permu) == q <==> Rotated(rc, q, offset, permu)
    {
      RotatedIs(rc, q, offset, permu, inverse);
    }
    forall q: nat
      ensures q in RotatedSet(T, offset, permu) <==> exists rc :: rc in T && Rotated(rc, q, offset, permu)
    {
    }
  }

  lemma RotatedIs(rc: nat, q: nat, offset: nat, permu: seq<nat>, inverse: seq<nat>)
    requires Inverts(inverse, permu) && offset <= 56 && (Col(rc) < offset || offset + 8 <= Col(rc))
    ensures Rotate(rc, offset, permu) == q <==> Rotated(rc, q, offset, permu)
  {
    RotateBack(rc, offset, permu, inverse);
    PairIs(q);
  }

  // ---- compressing ----

  lemma SourceFacts(source: Fm85)
    requires source.Valid()
    ensures Sketchable(source.lgK, source.coupons, source.windowOffset, source.firstInterestingColumn) && source.numCoupons == |source.coupons|
    ensures source.table != null ==> source.table.Valid() && source.table.validBits == 6 + source.lgK
    ensures var flavor := DetermineFlavor(source.lgK, source.numCoupons);
            (source.table == null <==> flavor == Empty) && (source.slidingWindow == null <==> flavor in {Empty, Sparse}) &&
            (flavor == Sparse ==> source.table.Items() == source.coupons) &&
            (flavor in {Hybrid, Pinned, Sliding} ==>
              source.table.Items() == Surprises(source.coupons, source.lgK, source.windowOffset, true) &&
              WindowOf(source.slidingWindow[..], source.coupons, source.lgK, source.windowOffset)) &&
            (flavor in {Hybrid, Pinned} ==> source.windowOffset == 0)
  {
    hide WindowOf, CouponSet;
    SparseSurprises(source.coupons, source.lgK);
    OffsetIff(source.lgK, source.numCoupons, 0);
    RangeOffset(source.lgK, source.numCoupons);
    SparseArithmetic(source.lgK, source.numCoupons);
    if source.table != null {
      TableFits(source.table);
    } else {
      NoSurprises(source.coupons, source.lgK);
    }
  }

  lemma TableFits(table: U32Table)
    requires table.Valid()
    ensures 4 * |table.Items()| <= 3 * Pow2(table.validBits) && table.lgSize <= table.validBits
  {
    Pow2Monotone(table.lgSize, table.validBits);
  }

  lemma NoSurprises(S: set<nat>, lgK: nat)
    ensures S == {} ==> Surprises(S, lgK, 0, false) == {}
  {
  }

  /** The items of a table, sorted. */
  method SortedItems(table: U32Table) returns (pairs: array<nat>)
    requires table.Valid() && table.validBits >= 6
    ensures fresh(pairs) && pairs.Length == table.numItems && Lists(pairs[..], table.Items()) && Increasing(pairs[..])
  {
    hide TableOk, Contents, Lists, Increasing;
    pairs := UnwrappingGetItems(table);
    IntrospectiveInsertionSort(pairs, table.Items());
  }

  lemma ListedCells(pairs: seq<nat>, T: set<nat>, lgK: nat)
    requires Lists(pairs, T) && forall rc :: rc in T ==> Cell(rc, lgK)
    ensures forall i :: 0 <= i < |pairs| ==> Cell(pairs[i], lgK)
    ensures pairs == [] <==> T == {}
  {
    forall i | 0 <= i < |pairs|
      ensures pairs[i] in T
    {
      assert pairs[i] in pairs;
    }
    if pairs != [] {
      assert pairs[0] in pairs;
    }
    assert forall x :: x in T ==> x in pairs;
  }

  lemma SurpriseCells(S: set<nat>, lgK: nat, w: nat)
    ensures forall rc :: rc in Surprises(S, lgK, w, true) ==> Cell(rc, lgK)
    ensures OutsideColumns(Surprises(S, lgK, w, true), w)
    ensures w == 0 ==> forall rc :: rc in Surprises(S, lgK, w, true) ==> Col(rc) >= 8
  {
  }

  /** compressSparseFlavor */
  method CompressSparseFlavor(target: CompressedFm85, source: Fm85, t: Tables)
    requires source.Valid() && DetermineFlavor(source.lgK, source.numCoupons) == Sparse && TablesOk(t) && target.lgK == source.lgK
    modifies target
    ensures target.HoldsPairs(t) && Lists(target.pairs, source.coupons) && target.compressedWindow == old(target.compressedWindow)
    ensures PairsCoded(target.compressedSurprisingValues[..], target.pairs, t.unaryEncoding, target.lgK)
    ensures target.compressedSurprisingValues != null && fresh(target.compressedSurprisingValues)
  {
    hide PairsCoded, Lists, Increasing, TablesOk, WindowOf, Surprises, Contents, TableOk, Encodes, DetermineFlavor, CouponSet, Pow2;
    SourceFacts(source);
    SparseNotEmpty(source);
    var pairs := SortedItems(source.table);
    CouponsAreCells(source.coupons, source.lgK);
    ListedCells(pairs[..], source.coupons, source.lgK);
    target.CompressTheSurprisingValues(pairs, t);
  }

  lemma SparseNotEmpty(source: Fm85)
    requires source.Valid()
    ensures DetermineFlavor(source.lgK, source.numCoupons) != Empty ==> source.coupons != {}
    ensures 4 <= source.lgK <= 26
  {
  }

  lemma CouponsAreCells(S: set<nat>, lgK: nat)
    requires CouponSet(S, lgK)
    ensures forall rc :: rc in S ==> Cell(rc, lgK)
  {
  }

  // ---- hybrid ----

  /** The pairs inside a window at column zero. */
  ghost function InFirstColumns(S: set<nat>): set<nat> { set rc | rc in S && Col(rc) < 8 }

  lemma WindowPattern(window: seq<nat>, S: set<nat>, lgK: nat, row: nat)
    requires WindowOf(window, S, lgK, 0) && row < |window|
    ensures RowPattern(window[row], row, InFirstColumns(S))
  {
  }

  /** Every pair already taken comes before those still marked in row i. */
  ghost predicate Before(all: set<nat>, i: nat, pattern: nat)
  {
    forall x, d :: x in Placed(all, i, pattern) && 0 <= d < 64 && Bit(pattern, d) ==> x < Pair(i, d)
  }

  lemma BeforeStart(all: set<nat>, i: nat, row: nat)
    requires RowPattern(row, i, all)
    ensures Before(all, i, row)
  {
    PlacedEnds(all, i, row);
    forall x, d | x in Placed(all, i, row) && 0 <= d < 64 && Bit(row, d)
      ensures x < Pair(i, d)
    {
      assert x in Above(all, i);
      LowerRow(x, i, d);
    }
  }

  lemma LowerRow(x: nat, i: nat, d: nat)
    requires Row(x) < i && d < 64
    ensures x < Pair(i, d)
  {
  }

  lemma BeforeNext(all: set<nat>, i: nat, pattern: nat)
    requires pattern > 0 && Before(all, i, pattern) && forall c :: 0 <= c && Bit(pattern, c) ==> c < 64 && Pair(i, c) in all
    ensures Before(all, i, Xor(pattern, Pow2(LowestBit(pattern))))
  {
    var col := LowestBit(pattern);
    PlaceOne(all, i, pattern, col);
    FlipBits(pattern, col);
    hide Pair;
  }

  /** The part of the output written so far lists these pairs in order. */
  ghost predicate Output(pairs: seq<nat>, from: nat, to: nat, S: set<nat>)
  {
    from <= to <= |pairs| && Lists(pairs[from..to], S) && Increasing(pairs[from..to])
  }

  lemma OutputNext(pairs: seq<nat>, from: nat, to: nat, S: set<nat>, x: nat)
    requires Output(pairs, from, to, S) && to < |pairs| && forall y :: y in S ==> y < x
    ensures Output(pairs[to := x], from, to + 1, S + {x})
  {
    var p := pairs[to := x];
    assert p[from..to + 1] == pairs[from..to] + [x];
    forall i | 0 <= i < to - from
      ensures pairs[from..to][i] in S
    {
      assert pairs[from..to][i] in pairs[from..to];
    }
    assert pairs[from..to] + [] == pairs[from..to] && pairs[from..to] + [x] + [] == pairs[from..to] + [x];
    ListsInsert(pairs[from..to], [], x, S);
  }

  /** One row of trickyGetPairsFromWindow. */
  method GetRow(pairs: array<nat>, pairIndex: nat, emptySpace: nat, rowIndex: nat, windowByte: nat, ghost all: set<nat>) returns (pairIndex': nat)
    requires RowPattern(windowByte, rowIndex, all) && Output(pairs[..], emptySpace, pairIndex, Above(all, rowIndex)) && pairs.Length == emptySpace + |all|
    modifies pairs
    ensures Output(pairs[..], emptySpace, pairIndex', Above(all, rowIndex + 1))
  {
    hide RowPattern, Output, Lists, Increasing, Xor, Pow2, Bit, Above;
    pairIndex' := pairIndex;
    var byte := windowByte;
    PlacedEnds(all, rowIndex, windowByte);
    BeforeStart(all, rowIndex, windowByte);
    PatternIn(windowByte, rowIndex, all);
    hide Placed, Before;
    while byte != 0
      invariant forall c :: 0 <= c && Bit(byte, c) ==> c < 64 && Pair(rowIndex, c) in all
      invariant Before(all, rowIndex, byte) && Output(pairs[..], emptySpace, pairIndex', Placed(all, rowIndex, byte))
      decreases byte
    {
      var colIndex := LowestBit(byte);
      ghost var before := pairs[..];
      PlaceOne(all, rowIndex, byte, colIndex);
      BeforeNext(all, rowIndex, byte);
      EraseBit(byte, colIndex);
      OutputRoom(before, emptySpace, pairIndex', Placed(all, rowIndex, byte));
      BeforeAll(all, rowIndex, byte, colIndex);
      OutputNext(before, emptySpace, pairIndex', Placed(all, rowIndex, byte), Pair(rowIndex, colIndex));
      byte := Xor(byte, Pow2(colIndex)); // erase the 1
      pairs[pairIndex'] := Pair(rowIndex, colIndex);
      assert pairs[..] == before[pairIndex' := Pair(rowIndex, colIndex)];
      pairIndex' := pairIndex' + 1;
    }
  }

  lemma PatternIn(row: nat, i: nat, all: set<nat>)
    requires RowPattern(row, i, all)
    ensures forall c :: 0 <= c && Bit(row, c) ==> c < 64 && Pair(i, c) in all
  {
  }

  lemma BeforeAll(all: set<nat>, i: nat, pattern: nat, col: nat)
    requires Before(all, i, pattern) && col < 64 && Bit(pattern, col)
    ensures forall y :: y in Placed(all, i, pattern) ==> y < Pair(i, col)
  {
  }

  lemma OutputRoom(pairs: seq<nat>, from: nat, to: nat, S: set<nat>)
    requires Output(pairs, from, to, S)
    ensures from <= to <= |pairs| && to - from == |S|
  {
    ListsSize(pairs[from..to], S);
  }

  /** trickyGetPairsFromWindow; its final check cannot fail. */
  method TrickyGetPairsFromWindow(window: array<nat>, numPairsToGet: nat, emptySpace: nat, ghost S: set<nat>, ghost lgK: nat) returns (pairs: array<nat>)
    requires WindowOf(window[..], S, lgK, 0) && numPairsToGet == |InFirstColumns(S)| && forall rc :: rc in S ==> Cell(rc, lgK)
    ensures fresh(pairs) && pairs.Length == emptySpace + numPairsToGet
    ensures Lists(pairs[emptySpace..], InFirstColumns(S)) && Increasing(pairs[emptySpace..])
  {
    ghost var all := InFirstColumns(S);
    AllRowsAbove(S, lgK);
    WindowRowCount(window[..], S, lgK);
    hide WindowOf, Output, RowPattern, Above, Lists, Increasing, InFirstColumns, Pow2;
    pairs := new nat[emptySpace + numPairsToGet];
    OutputNone(pairs[..], emptySpace, all);
    var pairIndex := emptySpace;
    ghost var win := window[..];
    for rowIndex := 0 to window.Length
      invariant window[..] == win && Output(pairs[..], emptySpace, pairIndex, Above(all, rowIndex))
    {
      WindowPattern(win, S, lgK, rowIndex);
      pairIndex := GetRow(pairs, pairIndex, emptySpace, rowIndex, window[rowIndex], all);
    }
    OutputRoom(pairs[..], emptySpace, pairIndex, all);
    assert pairIndex == emptySpace + numPairsToGet;
    OutputAll(pairs[..], emptySpace, all);
  }

  lemma WindowRowCount(window: seq<nat>, S: set<nat>, lgK: nat)
    requires WindowOf(window, S, lgK, 0)
    ensures |window| == Pow2(lgK)
  {
  }

  lemma AllRowsAbove(S: set<nat>, lgK: nat)
    requires forall rc :: rc in S ==> Cell(rc, lgK)
    ensures Above(InFirstColumns(S), Pow2(lgK)) == InFirstColumns(S)
  {
  }

  lemma OutputNone(pairs: seq<nat>, from: nat, all: set<nat>)
    requires from <= |pairs|
    ensures Output(pairs, from, from, Above(all, 0))
  {
    assert pairs[from..from] == [];
  }

  lemma OutputAll(pairs: seq<nat>, from: nat, S: set<nat>)
    requires Output(pairs, from, |pairs|, S)
    ensures Lists(pairs[from..], S) && Increasing(pairs[from..])
  {
    assert pairs[from..|pairs|] == pairs[from..];
  }

  lemma HybridParts(S: set<nat>, lgK: nat)
    requires CouponSet(S, lgK)
    ensures InFirstColumns(S) + Surprises(S, lgK, 0, true) == S && InFirstColumns(S) !! Surprises(S, lgK, 0, true)
    ensures |S| == |InFirstColumns(S)| + |Surprises(S, lgK, 0, true)|
  {
    var A, B := InFirstColumns(S), Surprises(S, lgK, 0, true);
    assert A + B == S && A !! B;
  }

  lemma MergedList(a: seq<nat>, b: seq<nat>, c: seq<nat>, A: set<nat>, B: set<nat>, S: set<nat>)
    requires Lists(a, A) && Lists(b, B) && Increasing(a) && Increasing(b) && A !! B && S == A + B && c == Merge(a, b)
    ensures Lists(c, S) && Increasing(c)
  {
    forall i, j | 0 <= i < |a| && 0 <= j < |b|
      ensures a[i] != b[j]
    {
      assert a[i] in a && b[j] in b;
    }
    MergeLists(a, b);
    IncreasingDistinct(c);
  }

  lemma IncreasingDistinct(c: seq<nat>)
    requires Increasing(c)
    ensures NoRepeat(c)
  {
  }

  /** compressHybridFlavor: it builds the sparse version of the sketch, and compresses that. */
  method CompressHybridFlavor(target: CompressedFm85, source: Fm85, t: Tables)
    requires source.Valid() && DetermineFlavor(source.lgK, source.numCoupons) == Hybrid && TablesOk(t) && target.lgK == source.lgK
    modifies target
    ensures target.HoldsPairs(t) && Lists(target.pairs, source.coupons) && target.compressedWindow == old(target.compressedWindow)
    ensures PairsCoded(target.compressedSurprisingValues[..], target.pairs, t.unaryEncoding, target.lgK)
    ensures target.compressedSurprisingValues != null && fresh(target.compressedSurprisingValues)
  {
    hide PairsCoded, Lists, Increasing, TablesOk, WindowOf, Surprises, Contents, TableOk, Encodes, DetermineFlavor, InFirstColumns, CouponSet, Pow2;
    SourceFacts(source);
    SparseNotEmpty(source);
    var allPairs := HybridPairs(source);
    CouponsAreCells(source.coupons, source.lgK);
    ListedCells(allPairs[..], source.coupons, source.lgK);
    target.CompressTheSurprisingValues(allPairs, t);
  }

  method HybridPairs(source: Fm85) returns (allPairs: array<nat>)
    requires source.Valid() && DetermineFlavor(source.lgK, source.numCoupons) == Hybrid
    ensures fresh(allPairs) && Lists(allPairs[..], source.coupons) && Increasing(allPairs[..])
  {
    hide Lists, Increasing, WindowOf, Surprises, Contents, TableOk, DetermineFlavor, InFirstColumns, CouponSet, Pow2, Block, Merge;
    SourceFacts(source);
    ghost var S, T, F := source.coupons, source.table.Items(), InFirstColumns(source.coupons);
    HybridParts(S, source.lgK);
    CouponsAreCells(S, source.lgK);
    var pairsFromTable := SortedItems(source.table);
    var numPairsFromTable := pairsFromTable.Length;
    ListsSize(pairsFromTable[..], T);
    var numPairsFromArray := source.numCoupons - numPairsFromTable; // because the window offset is zero
    allPairs := TrickyGetPairsFromWindow(source.slidingWindow, numPairsFromArray, numPairsFromTable, S, source.lgK);
    MergeParts(pairsFromTable, allPairs, numPairsFromArray, T, F, S);
  }

  /** Merge the pairs of the table into the array that holds the pairs of the window behind an empty space for them. */
  method MergeParts(pairsFromTable: array<nat>, allPairs: array<nat>, numPairsFromArray: nat, ghost T: set<nat>, ghost F: set<nat>, ghost S: set<nat>)
    requires pairsFromTable != allPairs && allPairs.Length == pairsFromTable.Length + numPairsFromArray
    requires Lists(pairsFromTable[..], T) && Increasing(pairsFromTable[..])
    requires Lists(allPairs[pairsFromTable.Length..], F) && Increasing(allPairs[pairsFromTable.Length..])
    requires F !! T && S == F + T
    modifies allPairs
    ensures Lists(allPairs[..], S) && Increasing(allPairs[..])
  {
    hide Lists, Increasing, Block, Merge;
    var n := pairsFromTable.Length;
    ghost var a, b := pairsFromTable[..], allPairs[n..];
    Blocks(a, allPairs[..], n);
    assert allPairs[..][n..] == b;
    U32Merge(pairsFromTable, 0, n, allPairs, n, numPairsFromArray, allPairs, 0, a, b); // the overlapping subarray trick
    WholeBlock(allPairs[..], Merge(a, b));
    MergedList(a, b, allPairs[..], T, F, S);
  }

  lemma Blocks(a: seq<nat>, c: seq<nat>, n: nat)
    requires |a| == n <= |c|
    ensures Block(a, 0, a) && Block(c, n, c[n..])
  {
  }

  lemma WholeBlock(c: seq<nat>, s: seq<int>)
    requires Block(c, 0, s) && |s| == |c|
    ensures c == s
  {
  }

  // ---- pinned and sliding ----

  lemma WindowBytes(window: seq<nat>, S: set<nat>, lgK: nat, w: nat)
    requires WindowOf(window, S, lgK, w)
    ensures forall r :: 0 <= r < |window| ==> window[r] < 256
  {
    forall r | 0 <= r < |window|
      ensures window[r] < 256
    {
      assert Pow2(8) == 256;
      BoundFromBits(window[r], 8);
    }
  }

  /** Shift the columns down by 8; the check that no column is below 8 cannot fail. */
  method ShiftDown(pairs: array<nat>, ghost T: set<nat>)
    requires Lists(pairs[..], T) && forall rc :: rc in T ==> Col(rc) >= 8
    modifies pairs
    ensures Lists(pairs[..], DownSet(T))
  {
    hide Lists;
    ghost var s := pairs[..];
    ListedColumns(s, T);
    for i := 0 to pairs.Length
      invariant forall j :: 0 <= j < i ==> pairs[j] == Down(s[j])
      invariant forall j :: i <= j < pairs.Length ==> pairs[j] == s[j]
    {
      assert Col(pairs[i]) >= 8;
      DownBack(pairs[i]);
      pairs[i] := pairs[i] - 8;
    }
    DownLists(s, pairs[..], T);
  }

  lemma ListedColumns(s: seq<nat>, T: set<nat>)
    requires Lists(s, T) && forall rc :: rc in T ==> Col(rc) >= 8
    ensures forall i :: 0 <= i < |s| ==> Col(s[i]) >= 8
  {
    forall i | 0 <= i < |s|
      ensures Col(s[i]) >= 8
    {
      assert s[i] in s;
    }
  }

  /** Rotate the columns into a canonical configuration, and permute them; the check on the rotated column cannot fail. */
  method RotatePairs(pairs: array<nat>, offset: nat, permu: seq<nat>, ghost inverse: seq<nat>, ghost T: set<nat>)
    requires Lists(pairs[..], T) && Inverts(inverse, permu) && offset <= 56 && OutsideColumns(T, offset)
    modifies pairs
    ensures Lists(pairs[..], RotatedSet(T, offset, permu))
  {
    ghost var s := pairs[..];
    ListedOutside(s, T, offset);
    hide Lists, OutsideColumns;
    for i := 0 to pairs.Length
      invariant forall j :: 0 <= j < i ==> pairs[j] == Rotate(s[j], offset, permu)
      invariant forall j :: i <= j < pairs.Length ==> pairs[j] == s[j]
    {
      var rowCol := pairs[i];
      RotateBack(rowCol, offset, permu, inverse);
      var col := (Col(rowCol) + 56 - offset) % 64;
      assert 0 <= col < 56;
      pairs[i] := Pair(Row(rowCol), permu[col]);
    }
    RotateLists(s, pairs[..], T, offset, permu, inverse);
  }

  lemma ListedOutside(s: seq<nat>, T: set<nat>, offset: nat)
    requires Lists(s, T) && OutsideColumns(T, offset)
    ensures forall i :: 0 <= i < |s| ==> Col(s[i]) < offset || offset + 8 <= Col(s[i])
  {
    forall i | 0 <= i < |s|
      ensures s[i] in T
    {
      assert s[i] in s;
    }
  }

  /** The surprises of a pinned sketch, moved and sorted. */
  method PinnedPairs(table: U32Table, ghost T: set<nat>) returns (pairs: array<nat>)
    requires table.Valid() && table.validBits >= 6 && table.Items() == T && forall rc :: rc in T ==> Col(rc) >= 8
    ensures fresh(pairs) && Lists(pairs[..], DownSet(T)) && Increasing(pairs[..])
  {
    hide TableOk, Contents, Lists, Increasing, DownSet;
    pairs := UnwrappingGetItems(table);
    ShiftDown(pairs, T);
    IntrospectiveInsertionSort(pairs, DownSet(T));
  }

  /** The surprises of a sliding sketch, moved and sorted. */
  method SlidingPairs(table: U32Table, offset: nat, permu: seq<nat>, ghost inverse: seq<nat>, ghost T: set<nat>) returns (pairs: array<nat>)
    requires table.Valid() && table.validBits >= 6 && table.Items() == T && Inverts(inverse, permu) && offset <= 56 && OutsideColumns(T, offset)
    ensures fresh(pairs) && Lists(pairs[..], RotatedSet(T, offset, permu)) && Increasing(pairs[..])
  {
    hide TableOk, Contents, Lists, Increasing, RotatedSet, OutsideColumns, Inverts;
    pairs := UnwrappingGetItems(table);
    RotatePairs(pairs, offset, permu, inverse, T);
    IntrospectiveInsertionSort(pairs, RotatedSet(T, offset, permu));
  }

  /** Compress moved pairs, or note that there are none. */
  method CompressMovedPairs(target: CompressedFm85, pairs: array<nat>, t: Tables, ghost U: set<nat>)
    requires 4 <= target.lgK <= 26 && TablesOk(t) && Lists(pairs[..], U) && Increasing(pairs[..]) && forall q :: q in U ==> Cell(q, target.lgK)
    requires target.pairs == [] && target.compressedSurprisingValues == null && target.numCompressedSurprisingValues == 0
    modifies target`numCompressedSurprisingValues, target`compressedSurprisingValues, target`pairs
    ensures target.HoldsPairs(t) && Lists(target.pairs, U)
    ensures target.compressedSurprisingValues != null ==> PairsCoded(target.compressedSurprisingValues[..], target.pairs, t.unaryEncoding, target.lgK)
    ensures target.compressedSurprisingValues != null ==> fresh(target.compressedSurprisingValues)
  {
    hide PairsCoded, Lists, Increasing, TablesOk, Encodes, Fits, BaseBits;
    ListedCells(pairs[..], U, target.lgK);
    if pairs.Length > 0 {
      target.CompressTheSurprisingValues(pairs, t);
    } else {
      assert pairs[..] == [];
    }
  }

  /** compressPinnedFlavor and compressSlidingFlavor: the window, and the surprises with their columns moved. */
  method CompressWindowedFlavor(target: CompressedFm85, source: Fm85, t: Tables)
    requires source.Valid() && DetermineFlavor(source.lgK, source.numCoupons) in {Pinned, Sliding} && TablesOk(t)
    requires target.lgK == source.lgK && target.numCoupons == source.numCoupons
    requires target.pairs == [] && target.compressedSurprisingValues == null && target.numCompressedSurprisingValues == 0
    modifies target
    ensures target.HoldsPairs(t) && target.HoldsWindow(t) && |t.permutation| == 16 && source.slidingWindow != null && target.window == source.slidingWindow[..]
    ensures target.compressedSurprisingValues != null ==> PairsCoded(target.compressedSurprisingValues[..], target.pairs, t.unaryEncoding, target.lgK)
    ensures WindowCoded(target.compressedWindow[..], target.window, t.byteEncoding, target.lgK, target.numCoupons)
    ensures Content(source.lgK, source.coupons, source.windowOffset, target.pairs, target.window, t)
  {
    hide PairsCoded, WindowCoded, Lists, Increasing, WindowOf, Surprises, Contents, TableOk, DetermineFlavor, CouponSet, Pow2, Fits, Encodes, BaseBits, StreamOf, StreamBits, PseudoPhase, Inverts, PrefixFree, Decodes, Num;
    SourceFacts(source);
    WindowBytes(source.slidingWindow[..], source.coupons, source.lgK, source.windowOffset);
    WindowElements(source.slidingWindow);
    target.CompressTheWindow(source.slidingWindow, t);
    CompressSurprises(target, source, t);
  }

  lemma WindowElements(window: array<nat>)
    requires forall r :: 0 <= r < window.Length ==> window[..][r] < 256
    ensures forall r :: 0 <= r < window.Length ==> window[r] < 256
  {
    forall r | 0 <= r < window.Length
      ensures window[r] < 256
    {
      assert window[..][r] == window[r];
    }
  }

  method CompressSurprises(target: CompressedFm85, source: Fm85, t: Tables)
    requires source.Valid() && DetermineFlavor(source.lgK, source.numCoupons) in {Pinned, Sliding} && TablesOk(t)
    requires target.lgK == source.lgK && target.numCoupons == source.numCoupons
    requires target.pairs == [] && target.compressedSurprisingValues == null && target.numCompressedSurprisingValues == 0
    requires target.HoldsWindow(t) && target.window == source.slidingWindow[..]
    modifies target`numCompressedSurprisingValues, target`compressedSurprisingValues, target`pairs
    ensures target.HoldsPairs(t) && target.HoldsWindow(t) && unchanged(target`compressedWindow) && unchanged(target`window)
    ensures target.compressedSurprisingValues != null ==>
              fresh(target.compressedSurprisingValues) && PairsCoded(target.compressedSurprisingValues[..], target.pairs, t.unaryEncoding, target.lgK)
    ensures Content(source.lgK, source.coupons, source.windowOffset, target.pairs, target.window, t)
  {
    hide PairsCoded, WindowCoded, Lists, Increasing, WindowOf, Surprises, Contents, TableOk, DetermineFlavor, CouponSet, Pow2, Fits, Encodes, BaseBits, StreamOf, StreamBits, PseudoPhase, Inverts, PrefixFree, Decodes, Num, RotatedSet, DownSet, OutsideColumns;
    SourceFacts(source);
    ghost var T := source.table.Items();
    SurpriseCells(source.coupons, source.lgK, source.windowOffset);
    ghost var U;
    var pairs;
    if DetermineFlavor(source.lgK, source.numCoupons) == Pinned {
      MovedCells(T, source.lgK, 0, t.permutation[0], t.inverse[0]);
      U := DownSet(T);
      pairs := PinnedPairs(source.table, T);
    } else {
      SlidingPhase(source.lgK, source.numCoupons);
      var phase := PseudoPhase(source.lgK, source.numCoupons);
      MovedCells(T, source.lgK, source.windowOffset, t.permutation[phase], t.inverse[phase]);
      U := RotatedSet(T, source.windowOffset, t.permutation[phase]);
      pairs := SlidingPairs(source.table, source.windowOffset, t.permutation[phase], t.inverse[phase], T);
    }
    CompressMovedPairs(target, pairs, t, U);
  }

  /** fm85Compress */
  method Compress(source: Fm85, t: Tables) returns (target: CompressedFm85)
    requires source.Valid() && TablesOk(t)
    ensures fresh(target) && Denotes(target, t, source.coupons)
    ensures target.lgK == source.lgK && target.numCoupons == source.numCoupons && target.windowOffset == source.windowOffset
    ensures target.firstInterestingColumn == source.firstInterestingColumn
    ensures target.compressedWindow != null <==> Pow2(source.lgK) <= 2 * source.numCoupons
    ensures Format(source.lgK, source.coupons, source.windowOffset, target.pairs, target.window, t.permutation)
    ensures target.compressedWindow != null ==>
              WindowCoded(target.compressedWindow[..], source.slidingWindow[..], t.byteEncoding, source.lgK, source.numCoupons)
    ensures target.compressedSurprisingValues != null ==> PairsCoded(target.compressedSurprisingValues[..], target.pairs, t.unaryEncoding, source.lgK)
  {
    hide Format, PhaseOf, WindowCoded, PairsCoded, Lists, Increasing, WindowOf, Surprises, Contents, TableOk, DetermineFlavor, CouponSet, Pow2, Fits, Encodes, BaseBits, StreamOf, StreamBits, PseudoPhase, Inverts, PrefixFree, Decodes, Num, RotatedSet, DownSet, DetermineCorrectOffset;
    SourceFacts(source);
    target := new CompressedFm85(source.lgK, source.numCoupons, source.windowOffset, source.firstInterestingColumn);
    FlavorIff(source.lgK, source.numCoupons);
    match DetermineFlavor(source.lgK, source.numCoupons) {
      case Empty =>
      case Sparse => CompressSparseFlavor(target, source, t);
      case Hybrid => CompressHybridFlavor(target, source, t);
      case Pinned => CompressWindowedFlavor(target, source, t);
      case Sliding => CompressWindowedFlavor(target, source, t);
    }
    ContentFormat(source.lgK, source.coupons, source.windowOffset, source.firstInterestingColumn, target.pairs, target.window, t);
  }

  // ---- uncompressing ----

  /** A table of listed pairs. */
  method TableOfPairs(pairs: array<nat>, numPairs: nat, lgK: nat, ghost T: set<nat>) returns (table: U32Table)
    requires numPairs <= pairs.Length && Lists(pairs[..numPairs], T) && lgK <= 26
    requires (forall rc :: rc in T ==> Coupon(rc, lgK)) && 4 * |T| <= 3 * Pow2(6 + lgK)
    ensures fresh(table) && fresh(table.slots) && table.Valid() && table.validBits == 6 + lgK && table.Items() == T
  {
    ghost var s := pairs[..numPairs];
    ListedStorable(s, T, lgK);
    hide Lists, NoRepeat, Coupon, TableOk, Contents, Storable, Pow2;
    assert forall i :: 0 <= i < numPairs ==> pairs[i] == s[i];
    table := MakeTableFromPairs(pairs, numPairs, lgK);
    ListedSet(s, T);
    assert (set i | 0 <= i < numPairs :: pairs[i]) == (set i | 0 <= i < |s| :: s[i]);
  }

  lemma ListedStorable(s: seq<nat>, T: set<nat>, lgK: nat)
    requires Lists(s, T) && forall rc :: rc in T ==> Coupon(rc, lgK)
    ensures NoRepeat(s) && |s| == |T| && forall i :: 0 <= i < |s| ==> Storable(s[i], 6 + lgK)
  {
    ListsSize(s, T);
    CellBits(lgK);
    forall i | 0 <= i < |s|
      ensures Storable(s[i], 6 + lgK)
    {
      assert s[i] in s;
    }
  }

  lemma ListedSet(s: seq<nat>, T: set<nat>)
    requires Lists(s, T)
    ensures (set i | 0 <= i < |s| :: s[i]) == T
  {
    forall i | 0 <= i < |s|
      ensures s[i] in T
    {
      assert s[i] in s;
    }
    forall x | x in T
      ensures exists i :: 0 <= i < |s| && s[i] == x
    {
      assert x in s;
    }
  }

  /** Undo the compressor's 8-column shift; the check that no column is past 55 cannot fail. */
  method ShiftUp(pairs: array<nat>, ghost T: set<nat>)
    requires Lists(pairs[..], DownSet(T)) && forall rc :: rc in T ==> Col(rc) >= 8
    modifies pairs
    ensures Lists(pairs[..], T)
  {
    ghost var s := pairs[..];
    DownColumns(s, T);
    hide Lists, DownSet;
    for i := 0 to pairs.Length
      invariant forall j :: 0 <= j < i ==> pairs[j] == s[j] + 8
      invariant forall j :: i <= j < pairs.Length ==> pairs[j] == s[j]
    {
      assert Col(pairs[i]) < 56;
      pairs[i] := pairs[i] + 8;
    }
    UpLists(s, pairs[..], T);
  }

  lemma DownColumns(s: seq<nat>, T: set<nat>)
    requires Lists(s, DownSet(T)) && forall rc :: rc in T ==> Col(rc) >= 8
    ensures forall i :: 0 <= i < |s| ==> Col(s[i]) < 56
  {
    forall i | 0 <= i < |s|
      ensures Col(s[i]) < 56
    {
      assert s[i] in s;
      var rc :| rc in T && Down(rc) == s[i];
      DownBack(rc);
    }
  }

  /** Undo the permutation, then the rotation. */
  method UnrotatePairs(pairs: array<nat>, offset: nat, inverse: seq<nat>, ghost permu: seq<nat>, ghost T: set<nat>)
    requires Lists(pairs[..], RotatedSet(T, offset, permu)) && Inverts(inverse, permu) && offset <= 56 && OutsideColumns(T, offset)
    modifies pairs
    ensures Lists(pairs[..], T)
  {
    ghost var s := pairs[..];
    RotatedColumns(s, T, offset, permu, inverse);
    hide Lists, RotatedSet, OutsideColumns;
    for i := 0 to pairs.Length
      invariant forall j :: 0 <= j < i ==> pairs[j] == Unrotate(s[j], offset, inverse)
      invariant forall j :: i <= j < pairs.Length ==> pairs[j] == s[j]
    {
      var row, col := Row(pairs[i]), Col(pairs[i]);
      col := inverse[col];
      col := (col + (offset + 8)) % 64;
      pairs[i] := Pair(row, col);
    }
    UnrotateLists(s, pairs[..], T, offset, permu, inverse);
  }

  lemma RotatedColumns(s: seq<nat>, T: set<nat>, offset: nat, permu: seq<nat>, inverse: seq<nat>)
    requires Lists(s, RotatedSet(T, offset, permu)) && Inverts(inverse, permu) && offset <= 56 && OutsideColumns(T, offset)
    ensures forall i :: 0 <= i < |s| ==> Col(s[i]) < 56
  {
    hide Rotate, Unrotate;
    forall i | 0 <= i < |s|
      ensures Col(s[i]) < 56
    {
      assert s[i] in s;
      var rc :| rc in T && Rotate(rc, offset, permu) == s[i];
      RotateBack(rc, offset, permu, inverse);
    }
  }

  /** uncompressSparseFlavor */
  method UncompressSparseFlavor(source: CompressedFm85, t: Tables, ghost S: set<nat>) returns (target: Fm85)
    requires Denotes(source, t, S) && TablesOk(t) && DetermineFlavor(source.lgK, |S|) == Sparse
    ensures fresh(target) && fresh(target.Repr) && target.Valid() && target.lgK == source.lgK && target.coupons == S
    ensures target.numCoupons == source.numCoupons && target.windowOffset == source.windowOffset
    ensures target.firstInterestingColumn == source.firstInterestingColumn
  {
    hide Lists, Sketchable, Pow2, Encodes, Fits, DetermineFlavor, DetermineCorrectOffset, Surprises, Contents, TableOk, CouponSet, Coupon, TablesOk, BaseBits;
    SketchFacts(source.lgK, S, source.windowOffset, source.firstInterestingColumn);
    ListsSize(source.pairs, S);
    var pairs := source.UncompressTheSurprisingValues(t);
    assert pairs[..pairs.Length] == pairs[..];
    var table := TableOfPairs(pairs, pairs.Length, source.lgK, S);
    target := new Fm85(source.lgK);
    target.FillSparse(source.numCoupons, table, S);
  }

  lemma SketchFacts(lgK: nat, S: set<nat>, offset: nat, fic: nat)
    requires Sketchable(lgK, S, offset, fic)
    ensures 4 <= lgK <= 26 && CouponSet(S, lgK) && (forall rc :: rc in S ==> Coupon(rc, lgK)) && WithinRange(lgK, |S|)
    ensures offset == DetermineCorrectOffset(lgK, |S|) <= 56 && fic <= offset
    ensures DetermineFlavor(lgK, |S|) == Sparse ==> offset == 0 && fic == 0 && S != {} && 4 * |S| <= 3 * Pow2(6 + lgK)
    ensures DetermineFlavor(lgK, |S|) in {Hybrid, Pinned} ==> offset == 0
    ensures DetermineFlavor(lgK, |S|) in {Hybrid, Pinned, Sliding} ==> 4 * |Surprises(S, lgK, offset, true)| <= 3 * Pow2(6 + lgK)
    ensures forall rc :: Cell(rc, lgK) && Col(rc) < fic ==> rc in S
  {
    hide Pow2, Shr;
    SparseSurprises(S, lgK);
    OffsetIff(lgK, |S|, 0);
    SparseArithmetic(lgK, |S|);
  }

  // ---- hybrid again ----

  /** The state of the loop of uncompressHybridFlavor: the pairs in the window have been set there, the others moved down. */
  ghost predicate Separated(now: seq<nat>, s: seq<nat>, i: nat, nextTruePair: nat, win: seq<nat>, lgK: nat)
  {
    |now| == |s| && nextTruePair <= i <= |s| && NoRepeat(s) && (forall j :: i <= j < |s| ==> now[j] == s[j]) &&
    WindowOf(win, First(s, i), lgK, 0) && Lists(now[..nextTruePair], Surprises(First(s, i), lgK, 0, true))
  }

  lemma SeparatedNext(now: seq<nat>, s: seq<nat>, i: nat, nextTruePair: nat, win: seq<nat>, lgK: nat)
    requires Separated(now, s, i, nextTruePair, win, lgK) && i < |s| && Cell(s[i], lgK)
    ensures now[i] == s[i]
    ensures Col(s[i]) < 8 ==> Row(s[i]) < |win| && Separated(now, s, i + 1, nextTruePair, win[Row(s[i]) := Or(win[Row(s[i])], Pow2(Col(s[i])))], lgK)
    ensures Col(s[i]) >= 8 ==> Separated(now[nextTruePair := s[i]], s, i + 1, nextTruePair + 1, win, lgK)
  {
    hide WindowOf, Or, Pow2, Surprises;
    FirstNext(s, i);
    SplitEntry(win, lgK, First(s, i), s[i]);
    AddCoupon(First(s, i), lgK, 0, true, s[i]);
    WindowRowCount(win, First(s, i), lgK);
    if Col(s[i]) >= 8 {
      NotSurprising(First(s, i), lgK, s[i]);
      var now2 := now[nextTruePair := s[i]];
      assert now[..nextTruePair] + [] == now[..nextTruePair];
      ListsInsert(now[..nextTruePair], [], s[i], Surprises(First(s, i), lgK, 0, true));
      assert now2[..nextTruePair + 1] == now[..nextTruePair] + [s[i]] + [];
    }
  }

  lemma NotSurprising(S: set<nat>, lgK: nat, rc: nat)
    requires rc !in S
    ensures rc !in Surprises(S, lgK, 0, true)
  {
  }

  /** The loop of uncompressHybridFlavor. */
  method Separate(pairs: array<nat>, window: array<nat>, lgK: nat, ghost S: set<nat>) returns (nextTruePair: nat)
    requires pairs != window && Lists(pairs[..], S) && CouponSet(S, lgK) && window.Length == Pow2(lgK) && forall r :: 0 <= r < window.Length ==> window[r] == 0
    modifies pairs, window
    ensures nextTruePair <= pairs.Length && Lists(pairs[..nextTruePair], Surprises(S, lgK, 0, true)) && WindowOf(window[..], S, lgK, 0)
  {
    hide Lists, WindowOf, Surprises, CouponSet, Pow2, Or, Separated;
    ghost var s := pairs[..];
    SeparatedStart(s, window[..], lgK, S);
    nextTruePair := 0;
    for i := 0 to pairs.Length
      invariant pairs.Length == |s| && Separated(pairs[..], s, i, nextTruePair, window[..], lgK)
    {
      ghost var now, win := pairs[..], window[..];
      PairCoupon(s, S, lgK, i);
      SeparatedNext(now, s, i, nextTruePair, win, lgK);
      SeparatedRange(now, s, i, nextTruePair, win, lgK);
      var rowCol := pairs[i];
      assert rowCol != EMPTY;
      var col := Col(rowCol);
      if col < 8 {
        var row := Row(rowCol);
        window[row] := Or(window[row], Pow2(col)); // set the window bit
        assert window[..] == win[row := Or(win[row], Pow2(col))];
      } else {
        pairs[nextTruePair] := rowCol; // move true pair down
        assert pairs[..] == now[nextTruePair := s[i]];
        nextTruePair := nextTruePair + 1;
      }
    }
    SeparatedEnd(pairs[..], s, nextTruePair, window[..], lgK, S);
  }

  lemma SeparatedStart(s: seq<nat>, win: seq<nat>, lgK: nat, S: set<nat>)
    requires Lists(s, S) && |win| == Pow2(lgK) && forall r :: 0 <= r < |win| ==> win[r] == 0
    ensures Separated(s, s, 0, 0, win, lgK)
  {
    EmptyWindow(win, lgK);
    FirstNone(s);
  }

  lemma SeparatedRange(now: seq<nat>, s: seq<nat>, i: nat, nextTruePair: nat, win: seq<nat>, lgK: nat)
    requires Separated(now, s, i, nextTruePair, win, lgK)
    ensures nextTruePair <= i <= |now|
  {
  }

  lemma SeparatedEnd(now: seq<nat>, s: seq<nat>, nextTruePair: nat, win: seq<nat>, lgK: nat, S: set<nat>)
    requires Separated(now, s, |s|, nextTruePair, win, lgK) && Lists(s, S)
    ensures nextTruePair <= |now| && Lists(now[..nextTruePair], Surprises(S, lgK, 0, true)) && WindowOf(win, S, lgK, 0)
  {
    ListedSet(s, S);
    assert First(s, |s|) == S;
  }

  lemma PairCoupon(s: seq<nat>, S: set<nat>, lgK: nat, i: nat)
    requires Lists(s, S) && CouponSet(S, lgK) && i < |s|
    ensures Coupon(s[i], lgK)
  {
    assert s[i] in s;
  }

  /** uncompressHybridFlavor */
  method UncompressHybridFlavor(source: CompressedFm85, t: Tables, ghost S: set<nat>) returns (target: Fm85)
    requires Denotes(source, t, S) && TablesOk(t) && DetermineFlavor(source.lgK, |S|) == Hybrid
    ensures fresh(target) && fresh(target.Repr) && target.Valid() && target.lgK == source.lgK && target.coupons == S
    ensures target.numCoupons == source.numCoupons && target.windowOffset == source.windowOffset
    ensures target.firstInterestingColumn == source.firstInterestingColumn
  {
    hide Lists, Pow2, Encodes, Fits, DetermineFlavor, DetermineCorrectOffset, Surprises, Contents, TableOk, CouponSet, Coupon, WindowOf, TablesOk, BaseBits, Sketchable;
    SketchFacts(source.lgK, S, source.windowOffset, source.firstInterestingColumn);
    HybridNotEmpty(source.lgK, S, source.pairs);
    var pairs := source.UncompressTheSurprisingValues(t);
    var window := new nat[Pow2(source.lgK)](_ => 0);
    var nextTruePair := Separate(pairs, window, source.lgK, S);
    SurprisesFit(S, source.lgK, 0);
    var table := TableOfPairs(pairs, nextTruePair, source.lgK, Surprises(S, source.lgK, 0, true));
    target := new Fm85(source.lgK);
    target.Fill(source.numCoupons, source.windowOffset, window, table, source.firstInterestingColumn, S);
  }

  lemma HybridNotEmpty(lgK: nat, S: set<nat>, pairs: seq<nat>)
    requires DetermineFlavor(lgK, |S|) != Empty && Lists(pairs, S)
    ensures pairs != []
  {
    ListsSize(pairs, S);
  }

  lemma SurprisesFit(S: set<nat>, lgK: nat, w: nat)
    requires CouponSet(S, lgK) && w <= 56
    ensures forall rc :: rc in Surprises(S, lgK, w, true) ==> Coupon(rc, lgK)
  {
  }

  /** The moved pairs of a windowed sketch, moved back. */
  method RestoredPairs(source: CompressedFm85, t: Tables, ghost S: set<nat>, ghost T: set<nat>) returns (pairs: array<nat>)
    requires Denotes(source, t, S) && TablesOk(t) && DetermineFlavor(source.lgK, source.numCoupons) in {Pinned, Sliding} && source.pairs != []
    requires T == Surprises(S, source.lgK, source.windowOffset, true)
    ensures fresh(pairs) && Lists(pairs[..], T)
  {
    hide Lists, Sketchable, Pow2, Encodes, Fits, DetermineFlavor, DetermineCorrectOffset, Surprises, CouponSet, BaseBits, WindowOf, Inverts, PseudoPhase,
         RotatedSet, DownSet, OutsideColumns, PrefixFree, Decodes;
    SketchFacts(source.lgK, S, source.windowOffset, source.firstInterestingColumn);
    SurpriseCells(S, source.lgK, source.windowOffset);
    pairs := source.UncompressTheSurprisingValues(t);
    if DetermineFlavor(source.lgK, source.numCoupons) == Pinned {
      ShiftUp(pairs, T);
    } else {
      var phase := PseudoPhase(source.lgK, source.numCoupons);
      UnrotatePairs(pairs, source.windowOffset, t.inverse[phase], t.permutation[phase], T);
    }
  }

  method RestoredTable(source: CompressedFm85, t: Tables, ghost S: set<nat>, ghost T: set<nat>) returns (table: U32Table)
    requires Denotes(source, t, S) && TablesOk(t) && DetermineFlavor(source.lgK, source.numCoupons) in {Pinned, Sliding}
    requires T == Surprises(S, source.lgK, source.windowOffset, true)
    ensures fresh(table) && fresh(table.slots) && table.Valid() && table.validBits == 6 + source.lgK && table.Items() == T
  {
    hide Lists, Sketchable, Pow2, Encodes, Fits, DetermineFlavor, DetermineCorrectOffset, Surprises, CouponSet, BaseBits, WindowOf, PseudoPhase,
         TablesOk, TableOk, Contents, Coupon;
    SketchFacts(source.lgK, S, source.windowOffset, source.firstInterestingColumn);
    if source.numCompressedSurprisingValues == 0 {
      NothingMoved(source, t, S, T);
      table := new U32Table(2, 6 + source.lgK);
    } else {
      var pairs := RestoredPairs(source, t, S, T);
      SurprisesFit(S, source.lgK, source.windowOffset);
      assert pairs[..pairs.Length] == pairs[..];
      table := TableOfPairs(pairs, pairs.Length, source.lgK, T);
    }
  }

  lemma NothingMoved(source: CompressedFm85, t: Tables, S: set<nat>, T: set<nat>)
    requires Denotes(source, t, S) && DetermineFlavor(source.lgK, source.numCoupons) in {Pinned, Sliding} && source.pairs == []
    requires T == Surprises(S, source.lgK, source.windowOffset, true)
    ensures T == {}
  {
    hide WindowOf, Surprises, Sketchable, PseudoPhase;
    if DetermineFlavor(source.lgK, source.numCoupons) == Pinned {
      ListsNothing(DownSet(T));
      assert forall rc :: rc in T ==> Down(rc) in DownSet(T);
    } else {
      var permu := t.permutation[PseudoPhase(source.lgK, source.numCoupons)];
      ListsNothing(RotatedSet(T, source.windowOffset, permu));
      assert forall rc :: rc in T ==> Rotate(rc, source.windowOffset, permu) in RotatedSet(T, source.windowOffset, permu);
    }
  }

  lemma ListsNothing(U: set<nat>)
    ensures Lists([], U) ==> U == {}
  {
    if Lists([], U) {
      ListsSize([], U);
    }
  }

  /** uncompressPinnedFlavor and uncompressSlidingFlavor */
  method UncompressWindowedFlavor(source: CompressedFm85, t: Tables, ghost S: set<nat>) returns (target: Fm85)
    requires Denotes(source, t, S) && TablesOk(t) && DetermineFlavor(source.lgK, source.numCoupons) in {Pinned, Sliding}
    ensures fresh(target) && fresh(target.Repr) && target.Valid() && target.lgK == source.lgK && target.coupons == S
    ensures target.numCoupons == source.numCoupons && target.windowOffset == source.windowOffset
    ensures target.firstInterestingColumn == source.firstInterestingColumn
  {
    hide Lists, Sketchable, Pow2, Encodes, Fits, DetermineFlavor, DetermineCorrectOffset, Surprises, CouponSet, BaseBits, PseudoPhase,
         TablesOk, TableOk, Contents, Coupon, StreamOf, StreamBits, RotatedSet, DownSet;
    SketchFacts(source.lgK, S, source.windowOffset, source.firstInterestingColumn);
    var window := source.UncompressTheWindow(Pow2(source.lgK), t);
    var table := RestoredTable(source, t, S, Surprises(S, source.lgK, source.windowOffset, true));
    target := new Fm85(source.lgK);
    target.Fill(source.numCoupons, source.windowOffset, window, table, source.firstInterestingColumn, S);
  }

  /** fm85Uncompress of a compressed sketch that denotes the coupons S. */
  method Uncompress(source: CompressedFm85, t: Tables, ghost S: set<nat>) returns (target: Fm85)
    requires Denotes(source, t, S) && TablesOk(t)
    ensures fresh(target) && fresh(target.Repr) && target.Valid() && target.lgK == source.lgK && target.coupons == S
    ensures target.numCoupons == source.numCoupons && target.windowOffset == source.windowOffset
    ensures target.firstInterestingColumn == source.firstInterestingColumn
  {
    hide Lists, Pow2, Encodes, Fits, Surprises, CouponSet, BaseBits, PseudoPhase, TablesOk, WindowOf, RotatedSet, DownSet, StreamOf, StreamBits, DetermineCorrectOffset, DetermineFlavor, Sketchable;
    match DetermineFlavor(source.lgK, source.numCoupons)
    case Empty =>
      EmptySketch(source.lgK, S, source.windowOffset, source.firstInterestingColumn);
      target := new Fm85(source.lgK);
    case Sparse => target := UncompressSparseFlavor(source, t, S);
    case Hybrid => target := UncompressHybridFlavor(source, t, S);
    case Pinned => target := UncompressWindowedFlavor(source, t, S);
    case Sliding => target := UncompressWindowedFlavor(source, t, S);
  }

  lemma EmptySketch(lgK: nat, S: set<nat>, offset: nat, fic: nat)
    requires Sketchable(lgK, S, offset, fic) && DetermineFlavor(lgK, |S|) == Empty
    ensures S == {} && offset == 0 && fic == 0 && 4 <= lgK <= 26
  {
    SparseArithmetic(lgK, |S|);
  }

  /** Compressing a sketch of any flavor and uncompressing the result gives a sketch of the same coupons, window position and columns. */
  method RoundTrip(source: Fm85, t: Tables) returns (result: Fm85)
    requires source.Valid() && TablesOk(t)
    ensures fresh(result) && result.Valid() && result.lgK == source.lgK && result.coupons == source.coupons
    ensures result.numCoupons == source.numCoupons && result.windowOffset == source.windowOffset
    ensures result.firstInterestingColumn == source.firstInterestingColumn
  {
    hide TablesOk, Denotes;
    var target := Compress(source, t);
    result := Uncompress(target, t, source.coupons);
  }
}
