/** The levels of a KLL sketch packed in one buffer, and the loops that rewrite them: kll/include/kll_helper.hpp. */
module KllBuffers {
  import opened Words
  import opened Merges
  import opened Ranks
  import opened KllLevels

  /** The buffer holds the levels of L, one after the other; level i begins at lv[from + i]. */
  ghost predicate Holds(buf: seq<int>, lv: seq<nat>, from: nat, L: seq<seq<int>>)
    decreases L
  {
    from + |L| < |lv| &&
    if L == [] then lv[from] <= |buf|
    else Block(buf, lv[from], L[0]) && lv[from + 1] == lv[from] + |L[0]| && Holds(buf, lv, from + 1, L[1..])
  }

  lemma {:induction false} HoldsEnds(buf: seq<int>, lv: seq<nat>, from: nat, L: seq<seq<int>>)
    requires Holds(buf, lv, from, L)
    ensures from + |L| < |lv| && lv[from + |L|] == lv[from] + Population(L) <= |buf|
    decreases L
  {
    if L != [] {
      HoldsEnds(buf, lv, from + 1, L[1..]);
    }
  }

  /** Changes of the buffer away from the levels do not matter. */
  lemma {:induction false} HoldsFrame(buf: seq<int>, buf2: seq<int>, lv: seq<nat>, lv2: seq<nat>, from: nat, L: seq<seq<int>>, lo: int, hi: int)
    requires Holds(buf, lv, from, L) && Outside(buf2, buf, lo, hi) && (hi <= lv[from] || lv[from + |L|] <= lo)
    requires from + |L| < |lv2| && forall i :: from <= i <= from + |L| ==> lv2[i] == lv[i]
    ensures Holds(buf2, lv2, from, L)
    decreases L
  {
    if L != [] {
      HoldsEnds(buf, lv, from, L);
      HoldsEnds(buf, lv, from + 1, L[1..]);
      assert from + 1 + |L[1..]| == from + |L|;
      HoldsFrame(buf, buf2, lv, lv2, from + 1, L[1..], lo, hi);
      assert buf2[lv[from]..lv[from] + |L[0]|] == buf[lv[from]..lv[from] + |L[0]|];
    }
  }

  lemma {:induction false} HoldsSnoc(buf: seq<int>, lv: seq<nat>, from: nat, L: seq<seq<int>>, s: seq<int>)
    requires Holds(buf, lv, from, L) && from + |L| + 1 < |lv|
    requires Block(buf, lv[from + |L|], s) && lv[from + |L| + 1] == lv[from + |L|] + |s|
    ensures Holds(buf, lv, from, L + [s])
    decreases L
  {
    if L == [] {
      assert (L + [s])[1..] == [];
    } else {
      HoldsSnoc(buf, lv, from + 1, L[1..], s);
      assert (L + [s])[1..] == L[1..] + [s];
    }
  }

  lemma {:induction false} HoldsConcat(buf: seq<int>, lv: seq<nat>, from: nat, L: seq<seq<int>>, M: seq<seq<int>>)
    ensures Holds(buf, lv, from, L + M) <==> Holds(buf, lv, from, L) && Holds(buf, lv, from + |L|, M)
    decreases L
  {
    if L == [] {
      assert L + M == M;
      if Holds(buf, lv, from, M) {
        HoldsEnds(buf, lv, from, M);
      }
    } else {
      assert (L + M)[1..] == L[1..] + M;
      HoldsConcat(buf, lv, from + 1, L[1..], M);
    }
  }

  // ---- halving in place ----

  /** Positions from..lim-1 of the buffer hold h, of which position `at` is the first. */
  ghost predicate Part(buf: seq<int>, from: int, lim: int, h: seq<int>, at: int)
  {
    at <= from && 0 <= from && lim <= |buf| && lim - at <= |h| && forall p :: from <= p < lim ==> buf[p] == h[p - at]
  }

  lemma HalvePicks(s: seq<int>, second: bool)
    ensures forall q :: 0 <= q < |Halve(s, second)| ==> Halve(s, second)[q] == s[2 * q + if second then 1 else 0]
  {
    forall q | 0 <= q < |Halve(s, second)|
      ensures Halve(s, second)[q] == s[2 * q + if second then 1 else 0]
    {
      HalveAt(s, second, q);
    }
  }

  /** randomly_halve_down of the items s; `offset` is the random bit. */
  method HalveDown(buf: array<int>, start: nat, length: nat, offset: bool, ghost s: seq<int>)
    requires length == |s| && length % 2 == 0 && Block(buf[..], start, s)
    modifies buf
    ensures Block(buf[..], start, Halve(s, offset))
    ensures Outside(buf[..], old(buf[..]), start, start + length / 2)
  {
    hide Halve, Block;
    ghost var buf0 := buf[..];
    ghost var h := Halve(s, offset);
    HalvePicks(s, offset);
    BlockAt(buf[..], start, s);
    var mid := start + length / 2;
    var j := start + if offset then 1 else 0;
    for i := start to mid
      invariant j == start + 2 * (i - start) + if offset then 1 else 0
      invariant Outside(buf[..], buf0, start, i) && Part(buf[..], start, i, h, start)
    {
      assert h[i - start] == s[j - start] == buf0[j];
      buf[i] := buf[j];
      j := j + 2;
    }
    PartBlock(buf[..], start, h);
  }

  lemma PartBlock(buf: seq<int>, at: nat, h: seq<int>)
    requires Part(buf, at, at + |h|, h, at)
    ensures Block(buf, at, h)
  {
  }

  /** randomly_halve_up of the items s; those that end up in the upper half begin with the second when the random bit is zero. */
  method HalveUp(buf: array<int>, start: nat, length: nat, offset: bool, ghost s: seq<int>)
    requires length == |s| > 0 && length % 2 == 0 && Block(buf[..], start, s)
    modifies buf
    ensures Block(buf[..], start + length / 2, Halve(s, !offset))
    ensures Outside(buf[..], old(buf[..]), start + length / 2, start + length)
  {
    HalvePicks(s, !offset);
    BlockAt(buf[..], start, s);
    hide Halve, Block;
    FillUp(buf, start, start + length / 2, start + length, offset, Halve(s, !offset));
  }

  /** The loop of randomly_halve_up. */
  method FillUp(buf: array<int>, start: nat, mid: nat, lim: nat, offset: bool, ghost h: seq<int>)
    requires start < mid < lim == 2 * mid - start <= buf.Length && |h| == mid - start
    requires forall q :: 0 <= q < |h| ==> h[q] == buf[start + 2 * q + if offset then 0 else 1]
    modifies buf
    ensures Block(buf[..], mid, h)
    ensures Outside(buf[..], old(buf[..]), mid, lim)
  {
    ghost var buf0 := buf[..];
    var j := lim - 1 - if offset then 1 else 0;
    var i := lim - 1;
    while i >= mid
      invariant mid - 1 <= i < lim && j == start + 2 * (i - mid) + if offset then 0 else 1
      invariant Outside(buf[..], buf0, i + 1, lim) && Part(buf[..], i + 1, lim, h, mid)
    {
      assert h[i - mid] == buf0[j];
      buf[i] := buf[j];
      j := j - 2;
      i := i - 1;
    }
    PartBlock(buf[..], mid, h);
  }

  // ---- merging ----

  /**
   * merge_sorted_arrays. The destination may be the buffer of either input: it must lie past the first input, and may
   * overlap the second when there is room for the first before it.
   */
  method MergeSortedArrays(bufA: array<int>, startA: nat, lenA: nat, bufB: array<int>, startB: nat, lenB: nat, bufC: array<int>, startC: nat,
                           ghost A: seq<int>, ghost B: seq<int>)
    requires |A| == lenA && |B| == lenB && Block(bufA[..], startA, A) && Block(bufB[..], startB, B)
    requires startC + lenA + lenB <= bufC.Length
    requires bufC == bufA ==> startA + lenA <= startC || startC + lenA + lenB <= startA
    requires bufC == bufB ==> startC + lenA <= startB || startB + lenB <= startC
    modifies bufC
    ensures Block(bufC[..], startC, Merge(A, B))
    ensures Outside(bufC[..], old(bufC[..]), startC, startC + lenA + lenB)
  {
    hide MergeState, Merge, Block, Outside;
    ghost var all := Merge(A, B);
    ghost var a0, b0, c0 := bufA[..], bufB[..], bufC[..];
    var limA, limB := startA + lenA, startB + lenB;
    var a, b := startA, startB;
    MergeStart(a0, startA, A, b0, startB, B, c0, startC);
    for c := startC to startC + lenA + lenB
      invariant MergeState(bufA[..], a0, startA, a, limA, bufB[..], b0, startB, b, limB, bufC[..], c0, startC, c, all)
    {
      a, b := MergeOne(bufA, startA, a, limA, bufB, startB, b, limB, bufC, c, a0, b0, c0, startC, all);
    }
    MergeEnd(bufA[..], a0, startA, a, limA, bufB[..], b0, startB, b, limB, bufC[..], c0, startC, all);
  }

  /** The merge loop at position c: both inputs are as they were from a and b on, and nothing but startC..c-1 has been written. */
  ghost predicate MergeState(bufA: seq<int>, a0: seq<int>, startA: nat, a: nat, limA: nat, bufB: seq<int>, b0: seq<int>, startB: nat, b: nat, limB: nat,
                             bufC: seq<int>, c0: seq<int>, startC: nat, c: nat, all: seq<int>)
  {
    startA <= a && startB <= b && c - startC == (a - startA) + (b - startB) && |all| == (limA - startA) + (limB - startB) &&
    Merging(a0, a, limA, b0, b, limB, bufC, startC, c, all) &&
    Unread(bufA, a0, a, limA) && Unread(bufB, b0, b, limB) && Outside(bufC, c0, startC, c)
  }

  lemma MergeStart(bufA: seq<int>, startA: nat, A: seq<int>, bufB: seq<int>, startB: nat, B: seq<int>, bufC: seq<int>, startC: nat)
    requires Block(bufA, startA, A) && Block(bufB, startB, B) && startC + |A| + |B| <= |bufC|
    ensures |Merge(A, B)| == |A| + |B|
    ensures MergeState(bufA, bufA, startA, startA, startA + |A|, bufB, bufB, startB, startB, startB + |B|, bufC, bufC, startC, startC, Merge(A, B))
  {
    hide Merge, Merging;
    MergingStart(bufA, startA, A, bufB, startB, B, bufC, startC);
  }

  lemma MergeEnd(bufA: seq<int>, a0: seq<int>, startA: nat, a: nat, limA: nat, bufB: seq<int>, b0: seq<int>, startB: nat, b: nat, limB: nat,
                 bufC: seq<int>, c0: seq<int>, startC: nat, all: seq<int>)
    requires MergeState(bufA, a0, startA, a, limA, bufB, b0, startB, b, limB, bufC, c0, startC, startC + |all|, all)
    ensures Block(bufC, startC, all) && Outside(bufC, c0, startC, startC + |all|)
  {
    hide Merge, Merging, Block;
    MergingEnd(a0, a, limA, b0, b, limB, bufC, startC, all);
  }

  /** One iteration of the merge. */
  method MergeOne(bufA: array<int>, ghost startA: nat, a: nat, limA: nat, bufB: array<int>, ghost startB: nat, b: nat, limB: nat, bufC: array<int>, c: nat,
                  ghost a0: seq<int>, ghost b0: seq<int>, ghost c0: seq<int>, ghost startC: nat, ghost all: seq<int>) returns (a': nat, b': nat)
    requires MergeState(bufA[..], a0, startA, a, limA, bufB[..], b0, startB, b, limB, bufC[..], c0, startC, c, all) && c < startC + |all|
    requires bufC == bufA ==> limA <= startC || startC + |all| <= startA
    requires bufC == bufB ==> startC + (limA - startA) <= startB || limB <= startC
    modifies bufC
    ensures MergeState(bufA[..], a0, startA, a', limA, bufB[..], b0, startB, b', limB, bufC[..], c0, startC, c + 1, all)
  {
    hide MergeState;
    ghost var bufA1, bufB1, bufC1 := bufA[..], bufB[..], bufC[..];
    MergeTakes(bufA1, a0, startA, a, limA, bufB1, b0, startB, b, limB, bufC1, c0, startC, c, all);
    if a == limA {
      bufC[c] := bufB[b];
      a', b' := a, b + 1;
    } else if b == limB {
      bufC[c] := bufA[a];
      a', b' := a + 1, b;
    } else if bufA[a] < bufB[b] {
      bufC[c] := bufA[a];
      a', b' := a + 1, b;
    } else {
      bufC[c] := bufB[b];
      a', b' := a, b + 1;
    }
    MergeTook(bufA1, bufA[..], a0, startA, a, limA, bufB1, bufB[..], b0, startB, b, limB, bufC1, bufC[..], c0, startC, c, all);
  }

  /** What the merge writes at position c. */
  lemma MergeTakes(bufA: seq<int>, a0: seq<int>, startA: nat, a: nat, limA: nat, bufB: seq<int>, b0: seq<int>, startB: nat, b: nat, limB: nat,
                   bufC: seq<int>, c0: seq<int>, startC: nat, c: nat, all: seq<int>)
    requires MergeState(bufA, a0, startA, a, limA, bufB, b0, startB, b, limB, bufC, c0, startC, c, all) && c < startC + |all|
    ensures a <= limA <= |bufA| && b <= limB <= |bufB| && startC <= c < |bufC| && limA - startA <= |all|
    ensures TakesB(bufA, a, limA, bufB, b, limB) ==> b < limB && all[c - startC] == bufB[b]
    ensures !TakesB(bufA, a, limA, bufB, b, limB) ==> a < limA && all[c - startC] == bufA[a]
  {
    hide Merge, Merging, Outside;
    MergingBounds(a0, a, limA, b0, b, limB, bufC, startC, c, all);
    MergingStep(a0, a, limA, b0, b, limB, bufC, startC, c, all);
  }

  /** It leaves what is yet to be read of the inputs alone, even where it writes over their buffers. */
  lemma MergeTook(bufA: seq<int>, bufA2: seq<int>, a0: seq<int>, startA: nat, a: nat, limA: nat,
                  bufB: seq<int>, bufB2: seq<int>, b0: seq<int>, startB: nat, b: nat, limB: nat,
                  bufC: seq<int>, bufC2: seq<int>, c0: seq<int>, startC: nat, c: nat, all: seq<int>)
    requires MergeState(bufA, a0, startA, a, limA, bufB, b0, startB, b, limB, bufC, c0, startC, c, all) && c < startC + |all|
    requires bufC2 == bufC[c := all[c - startC]] && a <= limA <= |bufA| && b <= limB <= |bufB|
    requires bufA2 == bufA || (bufA == bufC && bufA2 == bufC2 && (limA <= startC || startC + |all| <= startA))
    requires bufB2 == bufB || (bufB == bufC && bufB2 == bufC2 && (startC + (limA - startA) <= startB || limB <= startC))
    ensures var takesB := TakesB(bufA, a, limA, bufB, b, limB);
            MergeState(bufA2, a0, startA, if takesB then a else a + 1, limA, bufB2, b0, startB, if takesB then b + 1 else b, limB, bufC2, c0, startC, c + 1, all)
  {
    hide Merge, Merging;
    MergingBounds(a0, a, limA, b0, b, limB, bufC, startC, c, all);
    MergingStep(a0, a, limA, b0, b, limB, bufC, startC, c, all);
    MergingTook(a0, a, limA, b0, b, limB, bufC, bufC2, startC, c, all);
  }

  // ---- copying and sorting a range ----

  /** std::move to a lower or separate destination. */
  method MoveDown(src: array<int>, beg: nat, lim: nat, dst: array<int>, at: nat)
    requires beg <= lim <= src.Length && at + (lim - beg) <= dst.Length && (src == dst ==> at <= beg)
    modifies dst
    ensures Block(dst[..], at, old(src[beg..lim]))
    ensures Outside(dst[..], old(dst[..]), at, at + (lim - beg))
  {
    for i := 0 to lim - beg
      invariant forall p :: 0 <= p < dst.Length && !(at <= p < at + i) ==> dst[p] == old(dst[p])
      invariant forall p :: at <= p < at + i ==> dst[p] == old(src[p - at + beg])
      invariant src != dst ==> src[..] == old(src[..])
    {
      dst[at + i] := src[beg + i];
    }
  }

  /** std::sort */
  method SortRange(buf: array<int>, beg: nat, lim: nat)
    requires beg <= lim <= buf.Length
    modifies buf
    ensures Block(buf[..], beg, Sort(old(buf[beg..lim])))
    ensures Outside(buf[..], old(buf[..]), beg, lim)
  {
    var s := Sort(buf[beg..lim]);
    for i := 0 to lim - beg
      invariant forall p :: 0 <= p < buf.Length && !(beg <= p < beg + i) ==> buf[p] == old(buf[p])
      invariant forall p :: beg <= p < beg + i ==> buf[p] == s[p - beg]
    {
      buf[beg + i] := s[i];
    }
  }

  // ---- compacting one level in place ----

  /** The compactable items of a level, sorted if need be. */
  function Arranged(adj: seq<int>, sorted: bool): (s: seq<int>)
    ensures |s| == |adj|
  {
    if sorted then adj else Sort(adj)
  }

  /** Sort the range if need be, halve it up or down, and merge it with the level above, which follows it. */
  method CompactRange(buf: array<int>, adjBeg: nat, half: nat, coin: bool, sorted: bool, popAbove: nat, ghost adj: seq<int>, ghost above: seq<int>)
    requires half > 0 && |adj| == 2 * half && |above| == popAbove
    requires Block(buf[..], adjBeg, adj) && Block(buf[..], adjBeg + 2 * half, above)
    modifies buf
    ensures Block(buf[..], adjBeg + half, Promoted(Arranged(adj, sorted), above, coin))
    ensures Outside(buf[..], old(buf[..]), adjBeg, adjBeg + 2 * half + popAbove)
  {
    hide Halve, Merge, Sort;
    if !sorted {
      ghost var buf0 := buf[..];
      SortRange(buf, adjBeg, adjBeg + 2 * half);
      BlockKept(buf0, buf[..], adjBeg + 2 * half, above, adjBeg, adjBeg + 2 * half);
      assert buf0[adjBeg..adjBeg + 2 * half] == adj;
      OutsideBoth(buf0, buf0, buf[..], adjBeg, adjBeg, adjBeg, adjBeg + 2 * half + popAbove);
    }
    HalveAndMerge(buf, adjBeg, half, coin, popAbove, Arranged(adj, sorted), above);
  }

  method HalveAndMerge(buf: array<int>, adjBeg: nat, half: nat, coin: bool, popAbove: nat, ghost adj: seq<int>, ghost above: seq<int>)
    requires half > 0 && |adj| == 2 * half && |above| == popAbove
    requires Block(buf[..], adjBeg, adj) && Block(buf[..], adjBeg + 2 * half, above)
    modifies buf
    ensures Block(buf[..], adjBeg + half, Promoted(adj, above, coin))
    ensures Outside(buf[..], old(buf[..]), adjBeg, adjBeg + 2 * half + popAbove)
  {
    hide Halve, Merge, Block;
    if popAbove == 0 { // level above is empty, so halve up
      HalveUp(buf, adjBeg, 2 * half, coin, adj);
    } else { // level above is nonempty, so halve down, then merge up
      HalveMerge(buf, adjBeg, half, coin, popAbove, adj, above);
    }
  }

  method HalveMerge(buf: array<int>, adjBeg: nat, half: nat, coin: bool, popAbove: nat, ghost adj: seq<int>, ghost above: seq<int>)
    requires half > 0 && |adj| == 2 * half && |above| == popAbove
    requires Block(buf[..], adjBeg, adj) && Block(buf[..], adjBeg + 2 * half, above)
    modifies buf
    ensures Block(buf[..], adjBeg + half, Merge(Halve(adj, coin), above))
    ensures Outside(buf[..], old(buf[..]), adjBeg, adjBeg + 2 * half + popAbove)
  {
    hide Halve, Merge, Block, Outside;
    var startC, startB := adjBeg + half, adjBeg + 2 * half;
    BlockAt(buf[..], startB, above);
    ghost var buf0 := buf[..];
    HalveDown(buf, adjBeg, 2 * half, coin, adj);
    ghost var buf1 := buf[..];
    BlockKept(buf0, buf1, startB, above, adjBeg, startC);
    MergeSortedArrays(buf, adjBeg, half, buf, startB, popAbove, buf, startC, Halve(adj, coin), above);
    OutsideBoth(buf0, buf1, buf[..], adjBeg, startC, startC, startB + popAbove);
  }

  // ---- compacting all levels ----

  /**
   * The buffers of general_compress: the levels in `done` have been written, those in `rest` are still to be visited, and
   * nothing written reaches past what is still to be read, so that both buffers may be one.
   */
  ghost predicate Layout(inBuf: seq<int>, inLv: seq<nat>, outBuf: seq<int>, outLv: seq<nat>, rest: seq<seq<int>>, done: seq<seq<int>>)
  {
    Holds(inBuf, inLv, |done|, rest) && Holds(outBuf, outLv, 0, done) &&
    outLv[0] == 0 && outLv[|done|] <= inLv[|done|]
  }

  /** What an iteration finds: the lowest remaining level, and the level above it. */
  lemma LayoutFacts(inBuf: seq<int>, inLv: seq<nat>, outBuf: seq<int>, outLv: seq<nat>, rest: seq<seq<int>>, done: seq<seq<int>>)
    requires Layout(inBuf, inLv, outBuf, outLv, rest, done) && rest != []
    ensures |done| + |rest| < |inLv| && |done| < |outLv|
    ensures inLv[|done| + 1] == inLv[|done|] + |rest[0]| <= |inBuf| && outLv[|done|] <= inLv[|done|]
    ensures Block(inBuf, inLv[|done|], rest[0])
    ensures |rest| > 1 ==> inLv[|done| + 2] == inLv[|done| + 1] + |rest[1]| && Block(inBuf, inLv[|done| + 1], rest[1])
  {
    HoldsEnds(inBuf, inLv, |done|, rest);
    if |rest| > 1 {
      var tail := rest[1..];
      assert Holds(inBuf, inLv, |done| + 1, tail) && tail[0] == rest[1];
    }
  }

  /** One boundary has been set to v. */
  ghost predicate Reset(lv2: seq<nat>, lv: seq<nat>, i: nat, v: int)
  {
    i < |lv| && v >= 0 && lv2 == lv[i := v]
  }

  /** Writing one more level past those written. */
  lemma DoneStep(outBuf: seq<int>, outLv: seq<nat>, done: seq<seq<int>>, s: seq<int>, outBuf2: seq<int>, outLv2: seq<nat>, hi: int)
    requires Holds(outBuf, outLv, 0, done) && |done| + 1 < |outLv| && outLv[0] == 0
    requires Reset(outLv2, outLv, |done| + 1, outLv[|done|] + |s|)
    requires Outside(outBuf2, outBuf, outLv[|done|], hi) && Block(outBuf2, outLv[|done|], s)
    ensures Holds(outBuf2, outLv2, 0, done + [s]) && outLv2[0] == 0 && outLv2[|done| + 1] == outLv[|done|] + |s| && |outBuf2| == |outBuf|
  {
    HoldsFrame(outBuf, outBuf2, outLv, outLv2, 0, done, outLv[|done|], hi);
    HoldsSnoc(outBuf2, outLv2, 0, done, s);
  }

  /** Moving a level over as it is. */
  lemma KeepStep(inBuf: seq<int>, inLv: seq<nat>, outBuf: seq<int>, outLv: seq<nat>, rest: seq<seq<int>>, done: seq<seq<int>>,
                 inBuf2: seq<int>, outBuf2: seq<int>, outLv2: seq<nat>)
    requires Layout(inBuf, inLv, outBuf, outLv, rest, done) && rest != [] && |done| + 1 < |outLv|
    requires Reset(outLv2, outLv, |done| + 1, outLv[|done|] + |rest[0]|) && Block(outBuf2, outLv[|done|], rest[0])
    requires Outside(inBuf2, inBuf, outLv[|done|], outLv[|done|] + |rest[0]|) && Outside(outBuf2, outBuf, outLv[|done|], outLv[|done|] + |rest[0]|)
    ensures Layout(inBuf2, inLv, outBuf2, outLv2, rest[1..], done + [rest[0]])
  {
    LayoutFacts(inBuf, inLv, outBuf, outLv, rest, done);
    HoldsFrame(inBuf, inBuf2, inLv, inLv, |done| + 1, rest[1..], outLv[|done|], outLv[|done|] + |rest[0]|);
    DoneStep(outBuf, outLv, done, rest[0], outBuf2, outLv2, outLv[|done|] + |rest[0]|);
  }

  /** Compacting a level into the one above. */
  lemma CompactStep(inBuf: seq<int>, inLv: seq<nat>, outBuf: seq<int>, outLv: seq<nat>, rest: seq<seq<int>>, done: seq<seq<int>>,
                    inBuf2: seq<int>, inLv2: seq<nat>, outBuf2: seq<int>, outLv2: seq<nat>, sorted: bool, coin: bool)
    requires Layout(inBuf, inLv, outBuf, outLv, rest, done) && rest != [] && |done| + 2 < |inLv| && |done| + 1 < |outLv|
    requires |rest| == 1 ==> inLv[|done| + 2] == inLv[|done| + 1]
    requires Reset(outLv2, outLv, |done| + 1, outLv[|done|] + |rest[0]| % 2) && Block(outBuf2, outLv[|done|], Leftover(rest[0]))
    requires Reset(inLv2, inLv, |done| + 1, inLv[|done| + 1] - |rest[0]| / 2)
    requires Outside(inBuf2, inBuf, outLv[|done|], inLv[|done| + 2]) && Outside(outBuf2, outBuf, outLv[|done|], inLv[|done| + 2])
    requires Block(inBuf2, inLv[|done| + 1] - |rest[0]| / 2, Above(rest, sorted, coin)[0])
    ensures Layout(inBuf2, inLv2, outBuf2, outLv2, Above(rest, sorted, coin), done + [Leftover(rest[0])])
  {
    hide Block, Holds, Above, Leftover, Outside;
    LayoutFacts(inBuf, inLv, outBuf, outLv, rest, done);
    DoneStep(outBuf, outLv, done, Leftover(rest[0]), outBuf2, outLv2, inLv[|done| + 2]);
    AboveFrame(inBuf, inBuf2, inLv, inLv2, rest, |done|, sorted, coin, outLv[|done|]);
  }

  lemma AboveFrame(inBuf: seq<int>, inBuf2: seq<int>, inLv: seq<nat>, inLv2: seq<nat>, rest: seq<seq<int>>, cur: nat, sorted: bool, coin: bool, lo: nat)
    requires rest != [] && Holds(inBuf, inLv, cur, rest) && cur + 2 < |inLv|
    requires |rest| == 1 ==> inLv[cur + 2] == inLv[cur + 1]
    requires Reset(inLv2, inLv, cur + 1, inLv[cur + 1] - |rest[0]| / 2)
    requires Outside(inBuf2, inBuf, lo, inLv[cur + 2])
    requires Block(inBuf2, inLv[cur + 1] - |rest[0]| / 2, Above(rest, sorted, coin)[0])
    ensures Holds(inBuf2, inLv2, cur + 1, Above(rest, sorted, coin)) && |inBuf2| == |inBuf|
  {
    hide Above, Block;
    var r := Above(rest, sorted, coin);
    AboveTail(rest, sorted, coin);
    if |rest| > 1 {
      assert rest[1..][1..] == rest[2..];
      HoldsFrame(inBuf, inBuf2, inLv, inLv2, cur + 2, rest[2..], lo, inLv[cur + 2]);
    }
  }

  lemma AboveTail(rest: seq<seq<int>>, sorted: bool, coin: bool)
    requires rest != []
    ensures var r := Above(rest, sorted, coin);
            r[1..] == (if |rest| == 1 then [] else rest[2..]) && |r[0]| == |rest[0]| / 2 + if |rest| == 1 then 0 else |rest[1]|
  {
    hide Promoted, Compactable;
  }

  /** One iteration that moves the level over as it is; the check against moving data upwards cannot fail. */
  method KeepLevel(inBuf: array<int>, inLevels: array<nat>, outBuf: array<int>, outLevels: array<nat>, curLevel: nat,
                   ghost rest: seq<seq<int>>, ghost done: seq<seq<int>>)
    requires inLevels != outLevels && curLevel == |done| && rest != [] && |done| + 1 < outLevels.Length
    requires Layout(inBuf[..], inLevels[..], outBuf[..], outLevels[..], rest, done) && outLevels[|done|] + |rest[0]| <= outBuf.Length
    modifies outBuf, outLevels
    ensures Layout(inBuf[..], inLevels[..], outBuf[..], outLevels[..], rest[1..], done + [rest[0]])
  {
    ghost var ib, ob, ol := inBuf[..], outBuf[..], outLevels[..];
    LayoutFacts(ib, inLevels[..], ob, ol, rest, done);
    hide Layout;
    var rawBeg, rawLim := inLevels[curLevel], inLevels[curLevel + 1];
    assert rawBeg >= outLevels[curLevel];
    assert inBuf[rawBeg..rawLim] == rest[0];
    MoveDown(inBuf, rawBeg, rawLim, outBuf, outLevels[curLevel]);
    outLevels[curLevel + 1] := outLevels[curLevel] + (rawLim - rawBeg);
    KeepStep(ib, inLevels[..], ob, ol, rest, done, inBuf[..], outBuf[..], outLevels[..]);
  }

  /** One iteration that compacts the level. */
  method CompactLevel(inBuf: array<int>, inLevels: array<nat>, outBuf: array<int>, outLevels: array<nat>, curLevel: nat, sorted: bool, coin: bool,
                      ghost rest: seq<seq<int>>, ghost done: seq<seq<int>>)
    requires inLevels != outLevels && curLevel == |done| && rest != [] && |rest[0]| >= 2
    requires |done| + 2 < inLevels.Length && |done| + 1 < outLevels.Length && (|rest| == 1 ==> inLevels[|done| + 2] == inLevels[|done| + 1])
    requires Layout(inBuf[..], inLevels[..], outBuf[..], outLevels[..], rest, done) && outLevels[|done|] + |rest[0]| % 2 <= outBuf.Length
    modifies inBuf, inLevels, outBuf, outLevels
    ensures Layout(inBuf[..], inLevels[..], outBuf[..], outLevels[..], Above(rest, sorted, coin), done + [Leftover(rest[0])])
  {
    hide Layout, Above, Block, Outside, Leftover, Reset;
    ghost var ib, il, ob, ol := inBuf[..], inLevels[..], outBuf[..], outLevels[..];
    LayoutFacts(ib, il, ob, ol, rest, done);
    var rawBeg, rawLim := inLevels[curLevel], inLevels[curLevel + 1];
    NothingAbove(ib, rawLim);
    ghost var above := if |rest| == 1 then [] else rest[1];
    CompactData(inBuf, outBuf, rawBeg, rawLim - rawBeg, inLevels[curLevel + 2] - rawLim, outLevels[curLevel], coin, sorted, rest, above);
    ghost var ib2, ob2 := inBuf[..], outBuf[..];
    MoveBoundaries(inLevels, outLevels, curLevel, rawLim - rawBeg);
    CompactStep(ib, il, ob, ol, rest, done, ib2, inLevels[..], ob2, outLevels[..], sorted, coin);
  }

  /** Adjust the boundaries of the level and of the level above. */
  method MoveBoundaries(inLevels: array<nat>, outLevels: array<nat>, curLevel: nat, rawPop: nat)
    requires inLevels != outLevels && curLevel + 1 < inLevels.Length && curLevel + 1 < outLevels.Length && inLevels[curLevel + 1] >= rawPop / 2
    modifies inLevels, outLevels
    ensures Reset(inLevels[..], old(inLevels[..]), curLevel + 1, old(inLevels[curLevel + 1]) - rawPop / 2)
    ensures Reset(outLevels[..], old(outLevels[..]), curLevel + 1, old(outLevels[curLevel]) + rawPop % 2)
  {
    outLevels[curLevel + 1] := outLevels[curLevel] + rawPop % 2;
    inLevels[curLevel + 1] := inLevels[curLevel + 1] - rawPop / 2;
  }

  lemma NothingAbove(buf: seq<int>, at: nat)
    requires at <= |buf|
    ensures Block(buf, at, [])
  {
  }

  /** Copy the odd item out, and compact the others. */
  method CompactData(inBuf: array<int>, outBuf: array<int>, rawBeg: nat, rawPop: nat, popAbove: nat, at: nat, coin: bool, sorted: bool,
                     ghost rest: seq<seq<int>>, ghost above: seq<int>)
    requires rawPop >= 2 && at + rawPop % 2 <= outBuf.Length && at <= rawBeg
    requires rest != [] && |rest[0]| == rawPop && |above| == popAbove && above == if |rest| == 1 then [] else rest[1]
    requires Block(inBuf[..], rawBeg, rest[0]) && Block(inBuf[..], rawBeg + rawPop, above)
    modifies inBuf, outBuf
    ensures Outside(inBuf[..], old(inBuf[..]), at, rawBeg + rawPop + popAbove) && Outside(outBuf[..], old(outBuf[..]), at, rawBeg + rawPop + popAbove)
    ensures Block(outBuf[..], at, Leftover(rest[0]))
    ensures Block(inBuf[..], rawBeg + rawPop - rawPop / 2, Above(rest, sorted, coin)[0])
  {
    hide Promoted, Arranged, Above, Block, Outside, Leftover;
    ghost var ib, ob, adj := inBuf[..], outBuf[..], rest[0][rawPop % 2..];
    var half, oddPop := rawPop / 2, rawPop % 2;
    CopyOdd(inBuf, outBuf, rawBeg, oddPop, at, rest[0], above);
    ghost var ib1, ob1 := inBuf[..], outBuf[..];
    AboveFirst(rest, sorted, coin);
    CompactRange(inBuf, rawBeg + oddPop, half, coin, sorted, popAbove, adj, above);
    OutsideBoth(ib, ib1, inBuf[..], at, at + oddPop, rawBeg + oddPop, rawBeg + rawPop + popAbove);
    if inBuf == outBuf {
      BlockKept(ob1, outBuf[..], at, Leftover(rest[0]), rawBeg + oddPop, rawBeg + rawPop + popAbove);
    } else {
      OutsideWider(outBuf[..], ob, at, at + oddPop, at, rawBeg + rawPop + popAbove);
    }
  }

  lemma OutsideWider(b: seq<int>, a: seq<int>, lo: int, hi: int, lo2: int, hi2: int)
    requires Outside(b, a, lo, hi) && lo2 <= lo && hi <= hi2
    ensures Outside(b, a, lo2, hi2)
  {
  }

  /** Copy zero or one guy over. */
  method CopyOdd(inBuf: array<int>, outBuf: array<int>, rawBeg: nat, oddPop: nat, at: nat, ghost level: seq<int>, ghost above: seq<int>)
    requires oddPop == |level| % 2 && at + oddPop <= outBuf.Length && at <= rawBeg && |level| >= 2
    requires Block(inBuf[..], rawBeg, level) && Block(inBuf[..], rawBeg + |level|, above)
    modifies outBuf
    ensures Outside(outBuf[..], old(outBuf[..]), at, at + oddPop) && Outside(inBuf[..], old(inBuf[..]), at, at + oddPop)
    ensures Block(outBuf[..], at, Leftover(level))
    ensures Block(inBuf[..], rawBeg + oddPop, level[oddPop..]) && Block(inBuf[..], rawBeg + |level|, above)
  {
    ghost var ib := inBuf[..];
    SuffixBlock(ib, rawBeg, level, oddPop);
    if oddPop == 1 {
      assert ib[rawBeg..rawBeg + |level|][0] == level[0];
      outBuf[at] := inBuf[rawBeg];
      BlockKept(ib, inBuf[..], rawBeg + 1, level[1..], at, at + 1);
      BlockKept(ib, inBuf[..], rawBeg + |level|, above, at, at + 1);
    }
  }

  lemma SuffixBlock(buf: seq<int>, at: nat, s: seq<int>, d: nat)
    requires Block(buf, at, s) && d <= |s|
    ensures Block(buf, at + d, s[d..])
  {
    assert buf[at..at + |s|][d..] == buf[at + d..at + |s|];
  }

  lemma AboveFirst(rest: seq<seq<int>>, sorted: bool, coin: bool)
    requires rest != []
    ensures var adj := rest[0][|rest[0]| % 2..];
            |adj| % 2 == 0 && Above(rest, sorted, coin)[0] == Promoted(Arranged(adj, sorted), if |rest| == 1 then [] else rest[1], coin)
  {
    hide Promoted, Sort;
  }

  // ---- general_compress ----

  /** compute_total_capacity */
  method ComputeTotalCapacity(k: nat, m: nat, numLevels: nat) returns (total: nat)
    requires numLevels <= MAX_DEPTH + 1
    ensures total == TotalCapacity(k, m, numLevels)
  {
    total := 0;
    for h := 0 to numLevels
      invariant total == TotalCapacity(k, m, numLevels) - TotalCapacity(k, m, numLevels - h)
    {
      total := total + LevelCapacity(k, numLevels, h, m);
    }
  }

  /** Where general_compress begins. */
  ghost function Start(z: Size, L: seq<seq<int>>, sorted: bool): Todo
  {
    Todo(0, L, Population(L), TotalCapacity(z.k, z.m, |L|), sorted)
  }

  /** The invariant of general_compress, apart from the buffers: what is done and what is left to do lead to `final`. */
  ghost predicate Underway(z: Size, t: Todo, done: seq<seq<int>>, coins: nat -> bool, final: seq<seq<int>>)
  {
    Ready(z, t) && t.cur == |done| && done + Compress(z, t, coins) == final && Roomy(z, t, Population(done))
  }

  lemma UnderwayStart(z: Size, L: seq<seq<int>>, sorted: bool, coins: nat -> bool)
    requires z.m >= 2
    ensures var t := Start(z, L, sorted); Ready(z, t) && Underway(z, t, [], coins, Compress(z, t, coins))
  {
    hide Compress, TotalCapacity;
    var t := Start(z, L, sorted);
    assert [] + Compress(z, t, coins) == Compress(z, t, coins);
  }

  lemma UnderwayNext(z: Size, t: Todo, done: seq<seq<int>>, coins: nat -> bool, final: seq<seq<int>>)
    requires Underway(z, t, done, coins, final) && t.rest != []
    ensures Ready(z, t) && Underway(z, Next(z, t, coins), done + [Kept(z, t)], coins, final)
    ensures Next(z, t, coins).sorted
  {
    NextRoomy(z, t, coins, Population(done));
    PopulationSnoc(done, Kept(z, t));
    NextCur(z, t, coins);
    CompressUnfold(z, t, done, coins);
    hide Compress, Kept, Roomy;
  }

  lemma CompressUnfold(z: Size, t: Todo, done: seq<seq<int>>, coins: nat -> bool)
    requires Ready(z, t) && t.rest != []
    ensures done + [Kept(z, t)] + Compress(z, Next(z, t, coins), coins) == done + Compress(z, t, coins)
  {
  }

  lemma {:induction false} CompressLength(z: Size, t: Todo, coins: nat -> bool)
    requires Ready(z, t)
    ensures |Compress(z, t, coins)| >= |t.rest|
    decreases Population(t.rest) + |t.rest|
  {
    if t.rest != [] {
      hide CapAt, Above;
      CompressLength(z, Next(z, t, coins), coins);
    }
  }

  /** No more levels are visited than the outcome has. */
  lemma UnderwayFits(z: Size, t: Todo, done: seq<seq<int>>, coins: nat -> bool, final: seq<seq<int>>)
    requires Underway(z, t, done, coins, final)
    ensures |done| + |t.rest| <= |final| && Ready(z, t)
    ensures t.rest == [] ==> final == done && t.count == Population(final) && t.target == TotalCapacity(z.k, z.m, |final|)
  {
    CompressLength(z, t, coins);
  }

  lemma {:induction false} PopulationSnoc(L: seq<seq<int>>, s: seq<int>)
    ensures Population(L + [s]) == Population(L) + |s|
  {
    if L == [] {
      assert (L + [s])[1..] == [];
    } else {
      assert (L + [s])[1..] == L[1..] + [s];
      PopulationSnoc(L[1..], s);
    }
  }

  /** The numbers general_compress keeps, and what one iteration does to them. */
  lemma NextNumbers(z: Size, t: Todo, coins: nat -> bool)
    requires t.rest != [] && Ready(z, t)
    ensures Keeps(z, t) ==> Next(z, t, coins).rest == t.rest[1..] && Kept(z, t) == t.rest[0]
    ensures Keeps(z, t) ==> Next(z, t, coins).count == t.count && Next(z, t, coins).target == t.target
    ensures !Keeps(z, t) ==> |t.rest[0]| >= 2 && t.count >= |t.rest[0]| / 2 && |Kept(z, t)| == |t.rest[0]| % 2
    ensures !Keeps(z, t) ==> Next(z, t, coins).rest == Above(t.rest, t.sorted, coins(t.cur)) && Kept(z, t) == Leftover(t.rest[0])
    ensures !Keeps(z, t) ==> Next(z, t, coins).count == t.count - |t.rest[0]| / 2
    ensures !Keeps(z, t) ==> Next(z, t, coins).target == t.target + if |t.rest| == 1 then CapAt(z.k, z.m, t.cur + 1) else 0
  {
    hide CapAt, Above, Leftover;
  }

  /** At the current top level, add an empty level above it for convenience. */
  method PrepareTop(ghost inBuf: seq<int>, inLevels: array<nat>, ghost outBuf: seq<int>, ghost outLv: seq<nat>, curLevel: nat, numLevels: nat,
                    ghost rest: seq<seq<int>>, ghost done: seq<seq<int>>)
    requires rest != [] && curLevel == |done| && numLevels == |done| + |rest| && numLevels + 1 < inLevels.Length
    requires Layout(inBuf, inLevels[..], outBuf, outLv, rest, done)
    modifies inLevels
    ensures Layout(inBuf, inLevels[..], outBuf, outLv, rest, done)
    ensures |rest| == 1 ==> inLevels[|done| + 2] == inLevels[|done| + 1]
  {
    if curLevel == numLevels - 1 {
      ghost var il := inLevels[..];
      inLevels[curLevel + 2] := inLevels[curLevel + 1];
      HoldsFrame(inBuf, inBuf, il, inLevels[..], |done|, rest, 0, 0);
    }
  }

  /** One iteration of general_compress. */
  method CompressOne(z: Size, inBuf: array<int>, inLevels: array<nat>, outBuf: array<int>, outLevels: array<nat>, sorted: bool, coins: nat -> bool,
                     curLevel: nat, numLevels: nat, currentItemCount: nat, targetItemCount: nat, ghost t: Todo, ghost done: seq<seq<int>>)
    returns (numLevels': nat, currentItemCount': nat, targetItemCount': nat)
    requires Ready(z, t) && t.rest != [] && curLevel == t.cur == |done| && numLevels == t.cur + |t.rest| <= MAX_DEPTH + 1 && sorted == t.sorted
    requires currentItemCount == t.count && targetItemCount == t.target
    requires inLevels != outLevels && numLevels + 1 < inLevels.Length && numLevels < outLevels.Length
    requires |Next(z, t, coins).rest| + t.cur <= MAX_DEPTH
    requires Layout(inBuf[..], inLevels[..], outBuf[..], outLevels[..], t.rest, done) && outLevels[|done|] + |Kept(z, t)| <= outBuf.Length
    modifies inBuf, inLevels, outBuf, outLevels
    ensures Layout(inBuf[..], inLevels[..], outBuf[..], outLevels[..], Next(z, t, coins).rest, done + [Kept(z, t)])
    ensures numLevels' == t.cur + 1 + |Next(z, t, coins).rest| && currentItemCount' == Next(z, t, coins).count && targetItemCount' == Next(z, t, coins).target
  {
    hide Layout, Next, Kept, Leftover, CapAt, Population, Ready, Block;
    NextNumbers(z, t, coins);
    PrepareTop(inBuf[..], inLevels, outBuf[..], outLevels[..], curLevel, numLevels, t.rest, done);
    LayoutFacts(inBuf[..], inLevels[..], outBuf[..], outLevels[..], t.rest, done);
    var rawPop := inLevels[curLevel + 1] - inLevels[curLevel];
    numLevels', currentItemCount', targetItemCount' := numLevels, currentItemCount, targetItemCount;
    if currentItemCount < targetItemCount || rawPop < LevelCapacity(z.k, numLevels, curLevel, z.m) {
      KeepLevel(inBuf, inLevels, outBuf, outLevels, curLevel, t.rest, done);
    } else {
      CompactLevel(inBuf, inLevels, outBuf, outLevels, curLevel, sorted, coins(curLevel), t.rest, done);
      currentItemCount' := currentItemCount - rawPop / 2;
      if curLevel == numLevels - 1 { // the old top level has been compacted
        numLevels' := numLevels + 1;
        targetItemCount' := targetItemCount + LevelCapacity(z.k, numLevels', 0, z.m);
      }
    }
  }

  /** The loop of general_compress. */
  method CompressLoop(z: Size, numLevelsIn: nat, inBuf: array<int>, inLevels: array<nat>, outBuf: array<int>, outLevels: array<nat>,
                      isLevelZeroSorted: bool, coins: nat -> bool, itemCount: nat, itemTarget: nat, ghost t0: Todo, ghost final: seq<seq<int>>)
    returns (numLevels: nat, targetItemCount: nat, currentItemCount: nat)
    requires inLevels != outLevels && |final| <= MAX_DEPTH + 1 && |final| + 1 < inLevels.Length && |final| < outLevels.Length
    requires numLevelsIn == |t0.rest| && itemCount == t0.count && itemTarget == t0.target && t0.sorted == isLevelZeroSorted
    requires Layout(inBuf[..], inLevels[..], outBuf[..], outLevels[..], t0.rest, []) && Underway(z, t0, [], coins, final)
    requires Population(final) <= outBuf.Length
    modifies inBuf, inLevels, outBuf, outLevels
    ensures Holds(outBuf[..], outLevels[..], 0, final) && outLevels[0] == 0 && numLevels == |final|
    ensures currentItemCount == Population(final) == outLevels[numLevels] && targetItemCount == TotalCapacity(z.k, z.m, |final|)
  {
    ghost var t, done := t0, [];
    UnderwayFits(z, t, done, coins, final);
    hide Layout, Underway, Next, Kept, Holds, Ready, TotalCapacity, Population;
    numLevels := numLevelsIn;
    currentItemCount := itemCount; // decreases with each compaction
    targetItemCount := itemTarget; // increases if we add levels
    var curLevel := 0;
    while curLevel < numLevels
      invariant curLevel == t.cur == |done| && numLevels == t.cur + |t.rest| <= |final| && currentItemCount == t.count && targetItemCount == t.target
      invariant Ready(z, t) && t.sorted == (curLevel > 0 || isLevelZeroSorted)
      invariant Layout(inBuf[..], inLevels[..], outBuf[..], outLevels[..], t.rest, done) && Underway(z, t, done, coins, final)
      decreases Population(t.rest) + |t.rest|
    {
      UnderwayNext(z, t, done, coins, final);
      UnderwayFits(z, Next(z, t, coins), done + [Kept(z, t)], coins, final);
      UnderwayRoom(inBuf[..], inLevels[..], outBuf[..], outLevels[..], z, t, done, coins, final);
      numLevels, currentItemCount, targetItemCount :=
        CompressOne(z, inBuf, inLevels, outBuf, outLevels, curLevel > 0 || isLevelZeroSorted, coins, curLevel, numLevels, currentItemCount, targetItemCount, t, done);
      NextCur(z, t, coins);
      done, t := done + [Kept(z, t)], Next(z, t, coins);
      curLevel := curLevel + 1;
    }
    UnderwayFits(z, t, done, coins, final);
    LayoutEnd(inBuf[..], inLevels[..], outBuf[..], outLevels[..], done);
    // the boundaries written agree with the count of items
    assert outLevels[numLevels] - outLevels[0] == currentItemCount;
  }

  /** What is to be written next is part of the outcome. */
  lemma UnderwayRoom(inBuf: seq<int>, inLv: seq<nat>, outBuf: seq<int>, outLv: seq<nat>, z: Size, t: Todo, done: seq<seq<int>>, coins: nat -> bool, final: seq<seq<int>>)
    requires Layout(inBuf, inLv, outBuf, outLv, t.rest, done) && Underway(z, t, done, coins, final) && t.rest != []
    ensures |done| < |outLv| && outLv[|done|] + |Kept(z, t)| <= Population(final)
  {
    hide Compress, Kept, Roomy, Ready;
    UnderwayNext(z, t, done, coins, final);
    HoldsEnds(outBuf, outLv, 0, done);
    PopulationSnoc(done, Kept(z, t));
    PopulationPart(done + [Kept(z, t)], Compress(z, Next(z, t, coins), coins));
  }

  lemma {:induction false} PopulationPart(L: seq<seq<int>>, more: seq<seq<int>>)
    ensures Population(L + more) >= Population(L)
  {
    if L != [] {
      assert (L + more)[1..] == L[1..] + more;
      PopulationPart(L[1..], more);
    }
  }

  /** general_compress never adds items. */
  lemma {:induction false} CompressPopulation(z: Size, t: Todo, coins: nat -> bool, below: nat)
    requires Ready(z, t) && Roomy(z, t, below)
    ensures Population(Compress(z, t, coins)) <= Population(t.rest)
    decreases Population(t.rest) + |t.rest|
  {
    if t.rest != [] {
      hide CapAt, Above, Leftover, TotalCapacity, Kept, Next;
      NextRoomy(z, t, coins, below);
      NextNumbers(z, t, coins);
      NextCur(z, t, coins);
      CompressPopulation(z, Next(z, t, coins), coins, below + |Kept(z, t)|);
      assert Compress(z, t, coins) == [Kept(z, t)] + Compress(z, Next(z, t, coins), coins);
    }
  }

  lemma LayoutEnd(inBuf: seq<int>, inLv: seq<nat>, outBuf: seq<int>, outLv: seq<nat>, done: seq<seq<int>>)
    requires Layout(inBuf, inLv, outBuf, outLv, [], done)
    ensures Holds(outBuf, outLv, 0, done) && |done| < |outLv| && outLv[0] == 0 && outLv[|done|] == Population(done)
  {
    HoldsEnds(outBuf, outLv, 0, done);
  }

  lemma LayoutStart(inBuf: seq<int>, inLv: seq<nat>, outBuf: seq<int>, outLv: seq<nat>, L: seq<seq<int>>)
    requires Holds(inBuf, inLv, 0, L) && |outLv| > 0 && outLv[0] == 0
    ensures Layout(inBuf, inLv, outBuf, outLv, L, [])
  {
  }

  /** What is known beforehand about the outcome of general_compress. */
  lemma FinalFacts(z: Size, L: seq<seq<int>>, sorted: bool, coins: nat -> bool, ub: nat)
    requires z.m >= 2 && 1 <= |L| <= ub && Weight(L) < Pow2(ub) && AllSorted(L[1..]) && (sorted ==> Sorted(L[0]))
    ensures Ready(z, Start(z, L, sorted)) && Start(z, L, sorted).rest == L && Start(z, L, sorted).sorted == sorted
    ensures Start(z, L, sorted).count == Population(L) && Start(z, L, sorted).target == TotalCapacity(z.k, z.m, |L|)
    ensures var final := Compress(z, Start(z, L, sorted), coins);
            |final| <= ub && Population(final) < TotalCapacity(z.k, z.m, |final|) && Population(final) <= Population(L)
  {
    hide Compress, AllSorted, Sorted, Population, Start, Roomy, InOrder, Within, Weight, TotalCapacity, Pow2, Ready;
    StartFacts(z, L, sorted, ub);
    CompressLevels(z, Start(z, L, sorted), coins, ub);
    CompressSpace(z, Start(z, L, sorted), coins, 0);
    CompressPopulation(z, Start(z, L, sorted), coins, 0);
  }

  lemma StartFacts(z: Size, L: seq<seq<int>>, sorted: bool, ub: nat)
    requires z.m >= 2 && 1 <= |L| <= ub && Weight(L) < Pow2(ub) && AllSorted(L[1..]) && (sorted ==> Sorted(L[0]))
    ensures var t := Start(z, L, sorted);
            t.cur == 0 && t.rest == L && t.sorted == sorted && t.count == Population(L) && t.target == TotalCapacity(z.k, z.m, |L|) &&
            Ready(z, t) && Roomy(z, t, 0) && InOrder(t) && Within(t, ub)
  {
    hide AllSorted, Sorted, Population, Weight, TotalCapacity, Pow2;
  }

  /** Nothing is compacted if the levels fit, and something is if they do not. */
  lemma CompressIff(z: Size, L: seq<seq<int>>, sorted: bool, coins: nat -> bool)
    requires z.m >= 2 && L != []
    ensures var t := Start(z, L, sorted);
            (Compress(z, t, coins) == L <==> Population(L) < TotalCapacity(z.k, z.m, |L|)) &&
            (CompressError(z, t, coins) == 0 <==> Population(L) < TotalCapacity(z.k, z.m, |L|))
  {
    hide Compress, CompressError, Population, TotalCapacity;
    var t := Start(z, L, sorted);
    if t.count < t.target {
      CompressFits(z, t, coins);
    } else {
      CompressCompacts(z, t, coins);
    }
  }

  /**
   * What happens at level h, whose capacity before the smallest width is x, with rest the levels that are left by then.
   * If there are fewer items than the capacity of all levels, everything from here on is moved as it is. Otherwise a
   * level below its own capacity is moved as it is, and any other is compacted into the one above.
   */
  lemma CompressLevel(z: Size, L: seq<seq<int>>, sorted: bool, coins: nat -> bool, h: nat, x: nat)
    requires z.m >= 2 && h < |Compress(z, Start(z, L, sorted), coins)|
    requires var rest := After(z, Start(z, L, sorted), coins, h).rest; rest != [] ==> IsIntCap(x, z.k, |rest| - 1)
    ensures var final, t := Compress(z, Start(z, L, sorted), coins), Start(z, L, sorted);
            var rest, next := After(z, t, coins, h).rest, After(z, t, coins, h + 1).rest;
            var fits := Population(final[..h]) + Population(rest) < TotalCapacity(z.k, z.m, h + |rest|);
            rest != [] &&
            (fits ==> final[h..] == rest) &&
            (!fits && (|rest[0]| < z.m || |rest[0]| < x) ==> final[h] == rest[0] && next == rest[1..]) &&
            (!fits && |rest[0]| >= z.m && |rest[0]| >= x ==>
              final[h] == Leftover(rest[0]) && next == Above(rest, if h == 0 then sorted else true, coins(h)))
  {
    hide Compress, CompressError, Population, TotalCapacity, Above, Leftover, IsIntCap, IntCapAux, Next, Kept, Keeps, CapAt;
    var t := Start(z, L, sorted);
    var final, s := Compress(z, t, coins), After(z, t, coins, h);
    CompressAfter(z, t, coins, h, 0) by {
      StartRoomy(z, L, sorted);
    }
    AfterNext(z, t, coins, h);
    CompressHead(z, s, coins);
    assert final[h..][0] == final[h];
    IntCapIff(x, z.k, |s.rest| - 1);
    LevelNumbers(z, s, coins, x);
    if s.count < s.target {
      CompressFits(z, s, coins);
    }
  }

  lemma LevelNumbers(z: Size, t: Todo, coins: nat -> bool, x: nat)
    requires t.rest != [] && Ready(z, t) && x == IntCapAux(z.k, |t.rest| - 1)
    ensures Keeps(z, t) <==> t.count < t.target || |t.rest[0]| < z.m || |t.rest[0]| < x
    ensures Keeps(z, t) ==> Next(z, t, coins).rest == t.rest[1..] && Kept(z, t) == t.rest[0]
    ensures !Keeps(z, t) ==> Next(z, t, coins).rest == Above(t.rest, t.sorted, coins(t.cur)) && Kept(z, t) == Leftover(t.rest[0])
  {
    hide IntCapAux, Above, Leftover;
  }

  lemma StartRoomy(z: Size, L: seq<seq<int>>, sorted: bool)
    ensures Roomy(z, Start(z, L, sorted), 0)
  {
    hide TotalCapacity, Population;
  }

  lemma CompressHead(z: Size, t: Todo, coins: nat -> bool)
    requires Ready(z, t) && Compress(z, t, coins) != []
    ensures t.rest != [] && Compress(z, t, coins)[0] == Kept(z, t)
  {
    hide Kept, Next;
  }

  lemma {:induction false} AfterNext(z: Size, t: Todo, coins: nat -> bool, h: nat)
    requires Ready(z, t) && h < |Compress(z, t, coins)|
    ensures After(z, t, coins, h).rest != [] && After(z, t, coins, h + 1) == Next(z, After(z, t, coins, h), coins)
    ensures After(z, t, coins, h).sorted == (t.sorted || h > 0)
    decreases h
  {
    hide Kept, Above, CapAt, Keeps;
    NextCur(z, t, coins);
    if h > 0 {
      AfterNext(z, Next(z, t, coins), coins, h - 1);
    }
  }

  /**
   * general_compress, with the same result whether inBuf and outBuf are one buffer or two. coins(h) is the random bit
   * drawn at level h. The output buffer need only have room for the outcome, and neither the check that data moves down
   * nor the final count can fail.
   */
  method GeneralCompress(k: nat, m: nat, numLevelsIn: nat, inBuf: array<int>, inLevels: array<nat>, outBuf: array<int>, outLevels: array<nat>,
                         isLevelZeroSorted: bool, coins: nat -> bool, ghost L: seq<seq<int>>, ghost ub: nat)
    returns (finalNumLevels: nat, finalCapacity: nat, finalPop: nat, ghost final: seq<seq<int>>)
    requires m >= 2 && numLevelsIn == |L| >= 1 && |L| <= ub <= MAX_DEPTH + 1 && Weight(L) < Pow2(ub)
    requires AllSorted(L[1..]) && (isLevelZeroSorted ==> Sorted(L[0]))
    requires inLevels != outLevels && inLevels.Length >= ub + 2 && outLevels.Length >= ub + 2
    requires Holds(inBuf[..], inLevels[..], 0, L)
    requires Population(Compress(Size(k, m), Start(Size(k, m), L, isLevelZeroSorted), coins)) <= outBuf.Length
    modifies inBuf, inLevels, outBuf, outLevels
    ensures final == Compress(Size(k, m), Start(Size(k, m), L, isLevelZeroSorted), coins)
    ensures Holds(outBuf[..], outLevels[..], 0, final) && outLevels[0] == 0
    ensures finalNumLevels == |final| <= ub && finalPop == Population(final)
    ensures finalPop < finalCapacity == TotalCapacity(k, m, finalNumLevels)
    ensures final == L <==> Population(L) < TotalCapacity(k, m, |L|)
  {
    hide Compress, Holds, Ready, Weight, AllSorted, Sorted, TotalCapacity, Underway, Layout, Population, Pow2, CapAt;
    var z := Size(k, m);
    FinalFacts(z, L, isLevelZeroSorted, coins, ub);
    CompressIff(z, L, isLevelZeroSorted, coins);
    UnderwayStart(z, L, isLevelZeroSorted, coins);
    HoldsEnds(inBuf[..], inLevels[..], 0, L);
    ghost var t := Start(z, L, isLevelZeroSorted);
    final := Compress(z, t, coins);
    var itemCount := inLevels[numLevelsIn] - inLevels[0];
    var target := ComputeTotalCapacity(k, m, numLevelsIn);
    outLevels[0] := 0;
    LayoutStart(inBuf[..], inLevels[..], outBuf[..], outLevels[..], L);
    finalNumLevels, finalCapacity, finalPop :=
      CompressLoop(z, numLevelsIn, inBuf, inLevels, outBuf, outLevels, isLevelZeroSorted, coins, itemCount, target, t, final);
  }

  // ---- moving levels as a whole ----

  /** Positions beg..lim-1 of buf are d places further up in buf2. */
  ghost predicate Shifted(buf: seq<int>, buf2: seq<int>, beg: nat, lim: nat, d: nat)
  {
    beg <= lim <= |buf| && lim + d <= |buf2| && forall p :: beg <= p < lim ==> buf2[p + d] == buf[p]
  }

  lemma ShiftedBlock(buf: seq<int>, buf2: seq<int>, beg: nat, lim: nat, d: nat, at: nat, s: seq<int>)
    requires Block(buf, at, s) && Shifted(buf, buf2, beg, lim, d) && beg <= at && at + |s| <= lim
    ensures Block(buf2, at + d, s)
  {
    assert buf2[at + d..at + d + |s|] == buf[at..at + |s|];
  }

  lemma {:induction false} HoldsShift(buf: seq<int>, buf2: seq<int>, lv: seq<nat>, lv2: seq<nat>, from: nat, L: seq<seq<int>>, beg: nat, lim: nat, d: nat)
    requires Holds(buf, lv, from, L) && Shifted(buf, buf2, beg, lim, d) && beg <= lv[from] && lv[from + |L|] <= lim
    requires from + |L| < |lv2| && forall i :: from <= i <= from + |L| ==> lv2[i] == lv[i] + d
    ensures Holds(buf2, lv2, from, L)
    decreases L
  {
    if L != [] {
      HoldsEnds(buf, lv, from, L);
      HoldsEnds(buf, lv, from + 1, L[1..]);
      assert from + 1 + |L[1..]| == from + |L|;
      ShiftedBlock(buf, buf2, beg, lim, d, lv[from], L[0]);
      hide Block, Shifted;
      HoldsShift(buf, buf2, lv, lv2, from + 1, L[1..], beg, lim, d);
    }
  }

  /** std::move_backward by d places within one buffer. */
  method MoveUp(buf: array<int>, beg: nat, lim: nat, d: nat)
    requires beg <= lim && lim + d <= buf.Length
    modifies buf
    ensures Shifted(old(buf[..]), buf[..], beg, lim, d) && Outside(buf[..], old(buf[..]), beg + d, lim + d)
  {
    var i := lim;
    while i > beg
      invariant beg <= i <= lim
      invariant forall p :: 0 <= p < buf.Length && !(i + d <= p < lim + d) ==> buf[p] == old(buf[p])
      invariant forall p :: i <= p < lim ==> buf[p + d] == old(buf[p])
    {
      i := i - 1;
      buf[i + d] := buf[i];
    }
  }

  /** Copy positions beg..lim-1 to another buffer, d places further up. */
  method CopyUp(src: array<int>, beg: nat, lim: nat, dst: array<int>, d: nat)
    requires src != dst && beg <= lim <= src.Length && lim + d <= dst.Length
    modifies dst
    ensures Shifted(src[..], dst[..], beg, lim, d)
  {
    for i := beg to lim
      invariant forall p :: beg <= p < i ==> dst[p + d] == src[p]
    {
      dst[i + d] := src[i];
    }
  }

  // ---- compacting one level of a sketch in place ----

  /** The level below the freed space and those from it up, after the compaction. */
  lemma CompactedHead(buf: seq<int>, buf2: seq<int>, lv: seq<nat>, lv2: seq<nat>, h: nat, rest: seq<seq<int>>, coin: bool, lo: nat)
    requires |rest| >= 2 && Holds(buf, lv, h, rest) && h + 2 < |lv|
    requires |lv2| == |lv| && lv2[h + 1] == lv[h + 1] - |rest[0]| / 2 && lv2[h] == lv2[h + 1] - |rest[0]| % 2
    requires forall i :: h + 2 <= i < |lv| ==> lv2[i] == lv[i]
    requires Outside(buf2, buf, lo, lv[h + 2])
    requires Block(buf2, lv2[h + 1], Above(rest, h > 0, coin)[0]) && Block(buf2, lv2[h], Leftover(rest[0]))
    ensures Holds(buf2, lv2, h, [Leftover(rest[0])] + Above(rest, h > 0, coin))
  {
    hide Leftover, Promoted, Compactable, Block, Outside;
    var above := Above(rest, h > 0, coin);
    assert ([Leftover(rest[0])] + above)[1..] == above;
    assert Holds(buf, lv, h + 1, rest[1..]) && rest[1..][1..] == rest[2..] == above[1..] && lv[h + 2] == lv[h + 1] + |rest[1]|;
    HoldsFrame(buf, buf2, lv, lv2, h + 2, rest[2..], lo, lv[h + 2]);
  }

  lemma SplitLevels(buf: seq<int>, lv: seq<nat>, L: seq<seq<int>>, h: nat)
    requires Holds(buf, lv, 0, L) && h < |L|
    ensures Holds(buf, lv, 0, L[..h]) && Holds(buf, lv, h, L[h..]) && |L| < |lv|
    ensures Block(buf, lv[h], L[h]) && lv[h + 1] == lv[h] + |L[h]| <= |buf| && lv[0] <= lv[h]
    ensures h + 1 < |L| ==> Block(buf, lv[h + 1], L[h + 1]) && lv[h + 2] == lv[h + 1] + |L[h + 1]| <= |buf|
  {
    assert L == L[..h] + L[h..];
    HoldsConcat(buf, lv, 0, L[..h], L[h..]);
    HoldsEnds(buf, lv, 0, L[..h]);
    HoldsEnds(buf, lv, h, L[h..]);
    var rest := L[h..];
    assert rest[0] == L[h];
    if h + 1 < |L| {
      var up := rest[1..];
      assert Holds(buf, lv, h + 1, up) && up[0] == L[h + 1];
    }
  }

  /** The data of one compaction in place: the leftover item, if any, ends up below the promoted ones. */
  method CompactItems(items: array<int>, rawBeg: nat, rawPop: nat, popAbove: nat, coin: bool, sorted: bool, ghost rest: seq<seq<int>>)
    requires |rest| >= 2 && rawPop >= 2 && |rest[0]| == rawPop && |rest[1]| == popAbove
    requires Block(items[..], rawBeg, rest[0]) && Block(items[..], rawBeg + rawPop, rest[1])
    modifies items
    ensures Outside(items[..], old(items[..]), rawBeg, rawBeg + rawPop + popAbove)
    ensures Block(items[..], rawBeg + rawPop - rawPop / 2, Above(rest, sorted, coin)[0])
    ensures Block(items[..], rawBeg + rawPop / 2, Leftover(rest[0]))
  {
    hide Above, Promoted, Arranged, Outside, Block, Leftover;
    ghost var adj, before := rest[0][rawPop % 2..], items[..];
    var half, oddPop := rawPop / 2, rawPop % 2;
    SuffixBlock(before, rawBeg, rest[0], oddPop);
    BlockAt(before, rawBeg + rawPop, rest[1]);
    AboveFirst(rest, sorted, coin);
    CompactRange(items, rawBeg + oddPop, half, coin, sorted, popAbove, adj, rest[1]);
    MoveLeftover(items, rawBeg, half, oddPop, before, rest[0], Above(rest, sorted, coin)[0], rawBeg + rawPop + popAbove);
  }

  /** Move the leftover item up against the promoted ones, if there is one. */
  method MoveLeftover(items: array<int>, rawBeg: nat, half: nat, oddPop: nat, ghost before: seq<int>, ghost level: seq<int>, ghost up: seq<int>, ghost lim: nat)
    requires |level| == 2 * half + oddPop && oddPop < 2 <= |level| && Block(before, rawBeg, level)
    requires Outside(items[..], before, rawBeg + oddPop, lim) && rawBeg + |level| <= lim <= items.Length && Block(items[..], rawBeg + oddPop + half, up)
    modifies items
    ensures Outside(items[..], before, rawBeg, lim) && Block(items[..], rawBeg + oddPop + half, up)
    ensures Block(items[..], rawBeg + half, Leftover(level))
  {
    hide Outside, Block, Leftover;
    ghost var after := items[..];
    if oddPop == 1 {
      KeptFirst(before, after, rawBeg, level, rawBeg + 1, lim);
      items[rawBeg + half] := items[rawBeg];
      OneChanged(after, items[..], rawBeg + half, level);
      BlockKept(after, items[..], rawBeg + 1 + half, up, rawBeg + half, rawBeg + half + 1);
      OutsideBoth(before, after, items[..], rawBeg + 1, lim, rawBeg + half, rawBeg + half + 1);
      OutsideWider(items[..], before, rawBeg + 1, lim, rawBeg, lim);
    } else {
      NoLeftover(after, rawBeg + half, level);
    }
  }

  lemma NoLeftover(buf: seq<int>, at: nat, level: seq<int>)
    requires |level| % 2 == 0 && at <= |buf|
    ensures Block(buf, at, Leftover(level))
  {
  }

  lemma KeptFirst(buf: seq<int>, buf2: seq<int>, at: nat, level: seq<int>, lo: int, hi: int)
    requires Block(buf, at, level) && Outside(buf2, buf, lo, hi) && level != [] && at < lo
    ensures |buf2| == |buf| && at < |buf| && buf2[at] == level[0]
  {
    assert buf[at..at + |level|][0] == buf[at];
  }

  lemma OneChanged(buf: seq<int>, buf2: seq<int>, p: nat, level: seq<int>)
    requires level != [] && |level| % 2 == 1 && p < |buf| && buf2 == buf[p := level[0]]
    ensures Outside(buf2, buf, p, p + 1) && Block(buf2, p, Leftover(level))
  {
  }

  /**
   * The data movements of compress_while_updating at a level below the top: compact the level into the one above, and
   * move the levels below up into the space freed.
   */
  method CompactInPlace(items: array<int>, levels: array<nat>, level: nat, coin: bool, ghost L: seq<seq<int>>)
    requires level + 1 < |L| && |L[level]| >= 2 && Holds(items[..], levels[..], 0, L)
    modifies items, levels
    ensures Holds(items[..], levels[..], 0, L[..level] + ([Leftover(L[level])] + Above(L[level..], level > 0, coin)))
    ensures levels[0] == old(levels[0]) + |L[level]| / 2 && levels[|L|] == old(levels[|L|])
  {
    hide Holds, Above, Leftover, Block, Outside;
    ghost var before, lv, rest := items[..], levels[..], L[level..];
    SplitLevels(before, lv, L, level);
    var rawBeg, rawLim := levels[level], levels[level + 1];
    var rawPop := rawLim - rawBeg;
    CompactItems(items, rawBeg, rawPop, levels[level + 2] - rawLim, coin, level > 0, rest);
    ghost var after := items[..];
    ghost var lowest := levels[0];
    levels[level + 1] := levels[level + 1] - rawPop / 2; // adjust boundaries of the level above
    levels[level] := levels[level + 1] - rawPop % 2;
    assert levels[level] == rawBeg + rawPop / 2;
    CompactedHead(before, after, lv, levels[..], level, rest, coin, rawBeg);
    if level > 0 {
      OutsideWider(after, before, rawBeg, lv[level + 2], rawBeg, items.Length);
      LowerLevels(items, levels, level, rawBeg, rawPop / 2, L[..level], [Leftover(L[level])] + Above(rest, level > 0, coin), before, lv);
    } else {
      assert L[..0] + ([Leftover(L[0])] + Above(rest, false, coin)) == [Leftover(L[0])] + Above(rest, false, coin);
    }
  }

  method RaiseBoundaries(levels: array<nat>, level: nat, half: nat)
    requires level <= levels.Length
    modifies levels
    ensures forall i :: 0 <= i < levels.Length ==> levels[i] == old(levels[i]) + if i < level then half else 0
  {
    for lvl := 0 to level
      invariant forall i :: 0 <= i < levels.Length ==> levels[i] == old(levels[i]) + if i < lvl then half else 0
    {
      levels[lvl] := levels[lvl] + half;
    }
  }

  /** Shift up the data in the levels below, so that the freed-up space can be used by level zero. */
  method LowerLevels(items: array<int>, levels: array<nat>, level: nat, rawBeg: nat, half: nat,
                     ghost lower: seq<seq<int>>, ghost upper: seq<seq<int>>, ghost before: seq<int>, ghost lv: seq<nat>)
    requires level == |lower| > 0 && Holds(before, lv, 0, lower) && lv[level] == rawBeg && |lv| == levels.Length && level + |upper| < |lv|
    requires forall i :: 0 <= i < level ==> levels[i] == lv[i]
    requires Outside(items[..], before, rawBeg, items.Length) && levels[level] == rawBeg + half
    requires Holds(items[..], levels[..], level, upper)
    modifies items, levels
    ensures Holds(items[..], levels[..], 0, lower + upper)
    ensures levels[0] == lv[0] + half && forall i :: level <= i < levels.Length ==> levels[i] == old(levels[i])
  {
    hide Shifted, Holds;
    ghost var after, lv1 := items[..], levels[..];
    HoldsEnds(before, lv, 0, lower);
    HoldsEnds(after, lv1, level, upper);
    HoldsFrame(before, after, lv, lv, 0, lower, rawBeg, items.Length);
    MoveUp(items, levels[0], rawBeg, half);
    ghost var moved := items[..];
    RaiseBoundaries(levels, level, half);
    HoldsShift(after, moved, lv, levels[..], 0, lower, lv[0], rawBeg, half);
    HoldsFrame(after, moved, lv1, levels[..], level, upper, lv[0] + half, rawBeg + half);
    HoldsConcat(moved, levels[..], 0, lower, upper);
  }
}
