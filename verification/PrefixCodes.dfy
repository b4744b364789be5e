/** Length-limited prefix codes and the byte codec: cpc/src/fm85Compression.cpp. */
module PrefixCodes {
  import opened Words
  import opened BitStreams

  // ---- encoding and decoding tables ----

  /** An encoding entry holds a codeword in its low 12 bits, and its length above. */
  function CodeValue(entry: nat): nat { entry % 4096 }

  function CodeLength(entry: nat): nat { entry / 4096 }

  /** A decoding entry holds the symbol in its low 8 bits, and the length of its codeword above. */
  function DecodedByte(entry: nat): nat { entry % 256 }

  function DecodedLength(entry: nat): nat { entry / 256 }

  /** The parts as the code cuts them out: & 0xfff and >> 12, & 255 and >> 8. */
  lemma EntryParts(entry: nat)
    ensures CodeValue(entry) == Low(entry, 12) && CodeLength(entry) == Shr(entry, 12)
    ensures DecodedByte(entry) == Low(entry, 8) && DecodedLength(entry) == Shr(entry, 8)
  {
    hide Low, Shr;
    Cut(entry, 12, CodeLength(entry), CodeValue(entry)) by {
      assert Pow2(12) == 4096;
    }
    Cut(entry, 8, DecodedLength(entry), DecodedByte(entry)) by {
      assert Pow2(8) == 256;
    }
  }

  lemma Cut(entry: nat, n: nat, q: nat, r: nat)
    requires r < Pow2(n) && entry == q * Pow2(n) + r
    ensures Low(entry, n) == r && Shr(entry, n) == q
  {
    hide Pow2;
    ScaleIsProduct(q, n);
    ShrOfSum(q, r, n);
    LowOfSum(q, r, n, n);
    LowKeeps(r, n);
  }

  ghost predicate Codewords(enc: seq<nat>)
  {
    |enc| <= 256 && forall s :: 0 <= s < |enc| ==> 1 <= CodeLength(enc[s]) <= 12 && CodeValue(enc[s]) < Pow2(CodeLength(enc[s]))
  }

  /** Twelve bits begin with the codeword of an entry. */
  predicate Begins(x: nat, entry: nat)
  {
    Low(x, CodeLength(entry)) == CodeValue(entry)
  }

  /** No codeword begins with the codeword of another symbol. */
  ghost predicate PrefixFree(enc: seq<nat>)
  {
    Codewords(enc) &&
    forall s, t :: 0 <= s < |enc| && 0 <= t < |enc| && s != t && CodeLength(enc[s]) <= CodeLength(enc[t]) ==> !Begins(CodeValue(enc[t]), enc[s])
  }

  /** Every 12-bit word that begins with a codeword is looked up as its symbol. */
  ghost predicate DecodesFirst(dec: seq<nat>, enc: seq<nat>, n: nat)
  {
    |dec| == 4096 && n <= |enc| &&
    forall s, x :: 0 <= s < n && 0 <= x < 4096 && Begins(x, enc[s]) ==> dec[x] == CodeLength(enc[s]) * 256 + s
  }

  ghost predicate Decodes(dec: seq<nat>, enc: seq<nat>) { DecodesFirst(dec, enc, |enc|) }

  /** Two codewords of a prefix-free code cannot both begin the same word. */
  lemma OneBegins(enc: seq<nat>, s: nat, t: nat, x: nat)
    requires PrefixFree(enc) && s < |enc| && t < |enc| && Begins(x, enc[s]) && Begins(x, enc[t])
    ensures s == t
  {
    hide Low;
    if s != t {
      if CodeLength(enc[s]) <= CodeLength(enc[t]) {
        LowTwice(x, CodeLength(enc[s]), CodeLength(enc[t]));
      } else {
        LowTwice(x, CodeLength(enc[t]), CodeLength(enc[s]));
      }
    }
  }

  /** The words written for one symbol are those its codeword begins: garbage bits follow the codeword. */
  lemma Extended(entry: nat, garbage: nat)
    requires CodeLength(entry) <= 12 && CodeValue(entry) < Pow2(CodeLength(entry)) && garbage < Pow2(12 - CodeLength(entry))
    ensures var x := CodeValue(entry) + Scale(garbage, CodeLength(entry));
            x < Pow2(12) && Begins(x, entry) && Shr(x, CodeLength(entry)) == garbage
  {
    hide Low, Scale, Pow2, Shr;
    var len := CodeLength(entry);
    ScaleBound(garbage, 12 - len, len);
    LowOfSum(garbage, CodeValue(entry), len, len);
    LowKeeps(CodeValue(entry), len);
    ShrOfSum(garbage, CodeValue(entry), len);
  }

  lemma Garbage(x: nat, entry: nat)
    requires x < Pow2(12) && CodeLength(entry) <= 12 && Begins(x, entry)
    ensures Shr(x, CodeLength(entry)) < Pow2(12 - CodeLength(entry))
    ensures x == CodeValue(entry) + Scale(Shr(x, CodeLength(entry)), CodeLength(entry))
  {
    ShrBound(x, CodeLength(entry), 12 - CodeLength(entry));
    LowAndShr(x, CodeLength(entry));
  }

  lemma Pow12()
    ensures Pow2(12) == 4096
  {
  }

  /** makeDecodingTable */
  method MakeDecodingTable(enc: array<nat>) returns (dec: array<nat>)
    requires PrefixFree(enc[..])
    ensures fresh(dec) && Decodes(dec[..], enc[..])
  {
    dec := new nat[4096](_ => 0);
    for byteValue := 0 to enc.Length
      invariant DecodesFirst(dec[..], enc[..], byteValue)
    {
      FillCopies(dec, enc[byteValue], byteValue, enc[..]);
    }
  }

  /** The words that begin with the codeword of one symbol and have garbage below n. */
  ghost predicate Filled(dec: seq<nat>, entry: nat, decodingEntry: nat, n: nat)
  {
    |dec| == 4096 && forall x :: 0 <= x < 4096 && Begins(x, entry) && Shr(x, CodeLength(entry)) < n ==> dec[x] == decodingEntry
  }

  /** The inner loop of makeDecodingTable. */
  method FillCopies(dec: array<nat>, entry: nat, byteValue: nat, ghost enc: seq<nat>)
    requires dec.Length == 4096 && PrefixFree(enc) && byteValue < |enc| && entry == enc[byteValue]
    requires DecodesFirst(dec[..], enc, byteValue)
    modifies dec
    ensures DecodesFirst(dec[..], enc, byteValue + 1)
  {
    hide Low, Scale, Pow2, Shr, PrefixFree, DecodesFirst, Filled;
    ghost var before := dec[..];
    EntryOk(enc, byteValue);
    var len := CodeLength(entry);
    var decodingEntry := len * 256 + byteValue;
    var numCopies := Pow2(12 - len);
    FilledNone(before, entry, decodingEntry);
    for garbageBits := 0 to numCopies
      invariant Filled(dec[..], entry, decodingEntry, garbageBits)
      invariant forall x :: 0 <= x < 4096 && !Begins(x, entry) ==> dec[x] == before[x]
    {
      Extended(entry, garbageBits);
      Pow12();
      ghost var dec0 := dec[..];
      var x := CodeValue(entry) + Scale(garbageBits, len);
      dec[x] := decodingEntry;
      FilledMore(dec0, dec[..], entry, decodingEntry, garbageBits, x);
    }
    FilledAll(before, dec[..], enc, byteValue);
  }

  lemma EntryOk(enc: seq<nat>, s: nat)
    requires PrefixFree(enc) && s < |enc|
    ensures 1 <= CodeLength(enc[s]) <= 12 && CodeValue(enc[s]) < Pow2(CodeLength(enc[s])) && s < 256
  {
  }

  lemma FilledNone(dec: seq<nat>, entry: nat, decodingEntry: nat)
    requires |dec| == 4096
    ensures Filled(dec, entry, decodingEntry, 0)
  {
  }

  lemma FilledMore(dec: seq<nat>, dec2: seq<nat>, entry: nat, decodingEntry: nat, garbage: nat, x: nat)
    requires Filled(dec, entry, decodingEntry, garbage) && x < 4096 && dec2 == dec[x := decodingEntry] && CodeLength(entry) <= 12
    requires x == CodeValue(entry) + Scale(garbage, CodeLength(entry))
    ensures Filled(dec2, entry, decodingEntry, garbage + 1)
  {
    hide Low, Scale, Pow2, Shr;
    Pow12();
    forall y | 0 <= y < 4096 && Begins(y, entry) && Shr(y, CodeLength(entry)) < garbage + 1
      ensures dec2[y] == decodingEntry
    {
      Garbage(y, entry);
    }
  }

  lemma FilledAll(before: seq<nat>, dec: seq<nat>, enc: seq<nat>, byteValue: nat)
    requires PrefixFree(enc) && byteValue < |enc| && DecodesFirst(before, enc, byteValue)
    requires Filled(dec, enc[byteValue], CodeLength(enc[byteValue]) * 256 + byteValue, Pow2(12 - CodeLength(enc[byteValue])))
    requires forall x :: 0 <= x < 4096 && !Begins(x, enc[byteValue]) ==> dec[x] == before[x]
    ensures DecodesFirst(dec, enc, byteValue + 1)
  {
    hide Low, Scale, Pow2, Shr, Begins;
    Pow12();
    forall s, x | 0 <= s < byteValue + 1 && 0 <= x < 4096 && Begins(x, enc[s])
      ensures dec[x] == CodeLength(enc[s]) * 256 + s
    {
      if s == byteValue {
        Garbage(x, enc[s]);
      } else if Begins(x, enc[byteValue]) {
        OneBegins(enc, s, byteValue, x);
      }
    }
  }

  /** Every 12-bit word begins with a codeword. */
  ghost predicate Complete(enc: seq<nat>)
  {
    forall x :: 0 <= x < 4096 ==> BeginsSome(x, enc)
  }

  ghost predicate BeginsSome(x: nat, enc: seq<nat>)
  {
    exists s :: 0 <= s < |enc| && Begins(x, enc[s])
  }

  /** A word begins with the codeword of the symbol it is looked up as, and of the length found beside it. */
  predicate GoodEntry(entry: nat, x: nat, enc: seq<nat>)
  {
    var s := DecodedByte(entry);
    s < |enc| && DecodedLength(entry) == CodeLength(enc[s]) && Begins(x, enc[s])
  }

  /** validateDecodingTable: false stands for its exceptions. */
  method ValidateDecodingTable(dec: seq<nat>, enc: seq<nat>) returns (ok: bool)
    requires |dec| == 4096
    ensures ok == forall x :: 0 <= x < 4096 ==> GoodEntry(dec[x], x, enc)
  {
    hide GoodEntry;
    for decodeThis := 0 to 4096
      invariant forall x :: 0 <= x < decodeThis ==> GoodEntry(dec[x], x, enc)
    {
      if !GoodEntry(dec[decodeThis], decodeThis, enc) {
        return false;
      }
    }
    return true;
  }

  /** The validation of the table of a prefix-free code passes exactly when the code is complete. */
  lemma ValidatedIff(dec: seq<nat>, enc: seq<nat>)
    requires PrefixFree(enc) && Decodes(dec, enc)
    ensures (forall x :: 0 <= x < 4096 ==> GoodEntry(dec[x], x, enc)) <==> Complete(enc)
  {
    hide Low, Pow2, Begins;
    forall x | 0 <= x < 4096
      ensures GoodEntry(dec[x], x, enc) <==> BeginsSome(x, enc)
    {
      if s :| 0 <= s < |enc| && Begins(x, enc[s]) {
        EntryOk(enc, s);
        assert dec[x] == CodeLength(enc[s]) * 256 + s;
      }
    }
  }

  // ---- one symbol of a stream ----

  /** A stream that begins with the codeword of s is looked up as s. */
  lemma LookUp(dec: seq<nat>, enc: seq<nat>, s: nat, rest: nat)
    requires PrefixFree(enc) && Decodes(dec, enc) && s < |enc|
    ensures var stream := CodeValue(enc[s]) + Scale(rest, CodeLength(enc[s]));
            Low(stream, 12) < 4096 == |dec| && DecodedByte(dec[Low(stream, 12)]) == s && DecodedLength(dec[Low(stream, 12)]) == CodeLength(enc[s]) &&
            Shr(stream, CodeLength(enc[s])) == rest
  {
    hide Low, Scale, Pow2, Shr;
    var len := CodeLength(enc[s]);
    var stream := CodeValue(enc[s]) + Scale(rest, len);
    Pow12();
    EntryOk(enc, s);
    LowBound(stream, 12);
    LowTwice(stream, len, 12);
    LowOfSum(rest, CodeValue(enc[s]), len, len);
    LowKeeps(CodeValue(enc[s]), len);
    ShrOfSum(rest, CodeValue(enc[s]), len);
    assert Begins(Low(stream, 12), enc[s]);
  }

  method PutSymbol(writer: BitWriter, enc: seq<nat>, symbol: nat)
    requires writer.Valid() && Codewords(enc) && symbol < |enc|
    requires writer.Bits() + CodeLength(enc[symbol]) <= 32 * writer.compressedWords.Length
    modifies writer`nextWordIndex, writer`bitbuf, writer`bufbits, writer.compressedWords
    ensures writer.Valid() && writer.Written() == old(writer.Written()) + Scale(CodeValue(enc[symbol]), old(writer.Bits()))
    ensures writer.Bits() == old(writer.Bits()) + CodeLength(enc[symbol])
  {
    writer.Put(CodeValue(enc[symbol]), CodeLength(enc[symbol]));
  }

  method GetSymbol(reader: BitReader, dec: seq<nat>, ghost enc: seq<nat>, ghost s: nat, ghost rest: nat) returns (symbol: nat)
    requires reader.Valid() && PrefixFree(enc) && Decodes(dec, enc) && s < |enc|
    requires reader.Rest() == CodeValue(enc[s]) + Scale(rest, CodeLength(enc[s])) && reader.Left() >= 12
    modifies reader`wordIndex, reader`bitbuf, reader`bufbits
    ensures reader.Valid() && symbol == s && reader.Rest() == rest && reader.Left() == old(reader.Left()) - CodeLength(enc[s])
  {
    hide Low, Scale, Pow2, Shr, PrefixFree, Decodes, Num;
    LookUp(dec, enc, s, rest);
    EntryOk(enc, s);
    reader.MaybeFill(12); // ensure 12 bits in the buffer
    var peek12 := reader.Peek(12);
    var lookup := dec[peek12];
    symbol := DecodedByte(lookup);
    reader.Drop(DecodedLength(lookup));
  }

  // ---- bytes ----

  /** The codewords of some symbols, the first lowest. */
  function StreamOf(bytes: seq<nat>, enc: seq<nat>): nat
    requires forall i :: 0 <= i < |bytes| ==> bytes[i] < |enc|
  {
    if bytes == [] then 0 else CodeValue(enc[bytes[0]]) + Scale(StreamOf(bytes[1..], enc), CodeLength(enc[bytes[0]]))
  }

  function StreamBits(bytes: seq<nat>, enc: seq<nat>): nat
    requires forall i :: 0 <= i < |bytes| ==> bytes[i] < |enc|
  {
    if bytes == [] then 0 else CodeLength(enc[bytes[0]]) + StreamBits(bytes[1..], enc)
  }

  lemma {:induction false} StreamBitsBound(bytes: seq<nat>, enc: seq<nat>)
    requires Codewords(enc) && forall i :: 0 <= i < |bytes| ==> bytes[i] < |enc|
    ensures |bytes| <= StreamBits(bytes, enc) <= 12 * |bytes|
  {
    if bytes != [] {
      StreamBitsBound(bytes[1..], enc);
    }
  }

  lemma StreamStep(bytes: seq<nat>, enc: seq<nat>, i: nat)
    requires i < |bytes| && forall j :: 0 <= j < |bytes| ==> bytes[j] < |enc|
    ensures StreamOf(bytes[i..], enc) == CodeValue(enc[bytes[i]]) + Scale(StreamOf(bytes[i + 1..], enc), CodeLength(enc[bytes[i]]))
    ensures StreamBits(bytes[i..], enc) == CodeLength(enc[bytes[i]]) + StreamBits(bytes[i + 1..], enc)
  {
    assert bytes[i..][1..] == bytes[i + 1..];
  }

  /** Appending the head of a stream leaves its tail to be appended. */
  lemma Appended(written: nat, bits: nat, v: nat, length: nat, rest: nat, whole: nat)
    requires written + Scale(v + Scale(rest, length), bits) == whole
    ensures written + Scale(v, bits) + Scale(rest, bits + length) == whole
  {
    ScaleSum(v, Scale(rest, length), bits);
    ScaleTwice(rest, length, bits);
  }

  /** safeLengthForCompressedWindowBuf */
  function SafeLengthForCompressedWindowBuf(k: nat): nat { (12 * k + 11 + 31) / 32 }

  /** lowLevelCompressBytes: the number of words used is within the safe length. */
  method LowLevelCompressBytes(byteArray: array<nat>, enc: seq<nat>, length: nat) returns (words: array<nat>, numWords: nat)
    requires Codewords(enc) && (forall i :: 0 <= i < byteArray.Length ==> byteArray[i] < |enc|)
    requires length == SafeLengthForCompressedWindowBuf(byteArray.Length)
    ensures fresh(words) && numWords <= words.Length == length && Fits(words[..numWords])
    ensures Num(words[..numWords]) == StreamOf(byteArray[..], enc)
    ensures StreamBits(byteArray[..], enc) + 11 <= 32 * numWords < StreamBits(byteArray[..], enc) + 11 + 32
  {
    hide Num, Scale, StreamOf, StreamBits, Fits;
    ghost var bytes := byteArray[..];
    StreamBitsBound(bytes, enc);
    ghost var whole, bits := StreamOf(bytes, enc), StreamBits(bytes, enc);
    var writer := new BitWriter(length);
    StreamStart(bytes, enc);
    for byteIndex := 0 to byteArray.Length
      invariant writer.Valid() && writer.compressedWords.Length == length && fresh(writer.compressedWords)
      invariant byteArray[..] == bytes
      invariant writer.Written() + Scale(StreamOf(bytes[byteIndex..], enc), writer.Bits()) == whole
      invariant writer.Bits() + StreamBits(bytes[byteIndex..], enc) == bits
    {
      var symbol := byteArray[byteIndex];
      StreamStep(bytes, enc, byteIndex);
      ghost var rest := StreamOf(bytes[byteIndex + 1..], enc);
      Appended(writer.Written(), writer.Bits(), CodeValue(enc[symbol]), CodeLength(enc[symbol]), rest, whole);
      PutSymbol(writer, enc, symbol);
    }
    StreamEnd(bytes, enc, writer.Bits());
    numWords := writer.Finish(11); // so that the decompressor's 12-bit peek can't overrun its input
    words := writer.compressedWords;
  }

  lemma StreamStart(bytes: seq<nat>, enc: seq<nat>)
    requires forall i :: 0 <= i < |bytes| ==> bytes[i] < |enc|
    ensures bytes[0..] == bytes && Scale(StreamOf(bytes, enc), 0) == StreamOf(bytes, enc)
  {
  }

  lemma StreamEnd(bytes: seq<nat>, enc: seq<nat>, bits: nat)
    ensures StreamOf(bytes[|bytes|..], enc) == 0 && StreamBits(bytes[|bytes|..], enc) == 0 && Scale(0, bits) == 0
  {
    ScaleZero(bits);
  }

  /** lowLevelUncompressBytes gives back the bytes that were compressed, and reads no word that was not written. */
  method LowLevelUncompressBytes(numBytesToDecode: nat, dec: seq<nat>, words: array<nat>, numWords: nat, ghost bytes: seq<nat>, ghost enc: seq<nat>)
    returns (byteArray: array<nat>)
    requires PrefixFree(enc) && Decodes(dec, enc) && numBytesToDecode == |bytes| && forall i :: 0 <= i < |bytes| ==> bytes[i] < |enc|
    requires numWords <= words.Length && Fits(words[..numWords])
    requires Num(words[..numWords]) == StreamOf(bytes, enc) && 32 * numWords >= StreamBits(bytes, enc) + 11
    ensures fresh(byteArray) && byteArray[..] == bytes
  {
    hide Num, Scale, StreamOf, StreamBits, Fits, Decodes;
    byteArray := new nat[numBytesToDecode];
    var reader := new BitReader(words, numWords);
    StreamStart(bytes, enc);
    for byteIndex := 0 to numBytesToDecode
      invariant reader.Valid() && words[..] == old(words[..])
      invariant reader.Rest() == StreamOf(bytes[byteIndex..], enc) && reader.Left() >= StreamBits(bytes[byteIndex..], enc) + 11
      invariant byteArray[..byteIndex] == bytes[..byteIndex]
    {
      StreamStep(bytes, enc, byteIndex);
      EntryOk(enc, bytes[byteIndex]);
      var symbol := GetSymbol(reader, dec, enc, bytes[byteIndex], StreamOf(bytes[byteIndex + 1..], enc));
      byteArray[byteIndex] := symbol;
    }
    // the reader has stayed within the words written
    assert reader.wordIndex <= numWords;
  }
}
