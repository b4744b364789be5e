/** Quantile queries: kll/include/kll_quantile_calculator.hpp. */
module KllQuantiles {
  import opened Words
  import opened Merges
  import opened Ranks
  import opened KllLevels
  import opened KllBuffers

  datatype Sample = Sample(item: int, weight: nat)

  // ---- samples ----

  ghost predicate Ordered(s: seq<Sample>)
  {
    forall i, j :: 0 <= i < j < |s| ==> s[i].item <= s[j].item
  }

  /** The weight of all items below x. */
  function SampleRank(s: seq<Sample>, x: int): nat
  {
    if s == [] then 0 else (if s[0].item < x then s[0].weight else 0) + SampleRank(s[1..], x)
  }

  /** The weight of the first n samples. */
  function Cumulative(s: seq<Sample>, n: nat): nat
    requires n <= |s|
  {
    if n == 0 then 0 else Cumulative(s, n - 1) + s[n - 1].weight
  }

  /** tandem_merge: the sample of the first range is taken when its item is below that of the second. */
  function MergeSamples(a: seq<Sample>, b: seq<Sample>): (c: seq<Sample>)
    ensures |c| == |a| + |b|
  {
    if a == [] then b
    else if b == [] then a
    else if a[0].item < b[0].item then [a[0]] + MergeSamples(a[1..], b)
    else [b[0]] + MergeSamples(a, b[1..])
  }

  lemma {:induction false} MergeOrdered(a: seq<Sample>, b: seq<Sample>)
    requires Ordered(a) && Ordered(b)
    ensures Ordered(MergeSamples(a, b))
    ensures MergeSamples(a, b) != [] ==> (a != [] && MergeSamples(a, b)[0] == a[0]) || (b != [] && MergeSamples(a, b)[0] == b[0])
    decreases |a| + |b|
  {
    if a == [] || b == [] {
    } else if a[0].item < b[0].item {
      MergeOrdered(a[1..], b);
    } else {
      MergeOrdered(a, b[1..]);
    }
  }

  /** Merging rearranges the samples of both ranges. */
  lemma {:induction false} MergePermutes(a: seq<Sample>, b: seq<Sample>)
    ensures multiset(MergeSamples(a, b)) == multiset(a) + multiset(b)
    decreases |a| + |b|
  {
    if a == [] || b == [] {
    } else if a[0].item < b[0].item {
      MergePermutes(a[1..], b);
      assert a == [a[0]] + a[1..];
    } else {
      MergePermutes(a, b[1..]);
      assert b == [b[0]] + b[1..];
    }
  }

  lemma {:induction false} RankOfMerge(a: seq<Sample>, b: seq<Sample>, x: int)
    ensures SampleRank(MergeSamples(a, b), x) == SampleRank(a, x) + SampleRank(b, x)
    decreases |a| + |b|
  {
    if a == [] || b == [] {
    } else if a[0].item < b[0].item {
      RankOfMerge(a[1..], b, x);
    } else {
      RankOfMerge(a, b[1..], x);
    }
  }

  // ---- sorting blocks ----

  /** What blocky_tandem_merge_sort makes of sorted blocks. */
  function SortBlocks(B: seq<seq<Sample>>): seq<Sample>
    requires B != []
  {
    if |B| == 1 then B[0] else MergeSamples(SortBlocks(B[..|B| / 2]), SortBlocks(B[|B| / 2..]))
  }

  function Flatten(B: seq<seq<Sample>>): seq<Sample>
  {
    if B == [] then [] else B[0] + Flatten(B[1..])
  }

  lemma {:induction false} FlattenSplit(B: seq<seq<Sample>>, i: nat)
    requires i <= |B|
    ensures Flatten(B) == Flatten(B[..i]) + Flatten(B[i..])
  {
    if i > 0 {
      FlattenSplit(B[1..], i - 1);
      assert B[..i][1..] == B[1..][..i - 1];
      assert B[1..][i - 1..] == B[i..];
    } else {
      assert B[0..] == B;
    }
  }

  /** The sorted samples are in order, and are those of the blocks. */
  lemma {:induction false} SortBlocksSorts(B: seq<seq<Sample>>)
    requires B != [] && forall i :: 0 <= i < |B| ==> Ordered(B[i])
    ensures Ordered(SortBlocks(B)) && multiset(SortBlocks(B)) == multiset(Flatten(B)) && |SortBlocks(B)| == |Flatten(B)|
    decreases |B|
  {
    if |B| == 1 {
      assert Flatten(B[1..]) == [];
    } else {
      hide Ordered, MergeSamples;
      var h := |B| / 2;
      SortBlocksSorts(B[..h]);
      SortBlocksSorts(B[h..]);
      FlattenSplit(B, h);
      MergeOrdered(SortBlocks(B[..h]), SortBlocks(B[h..]));
      MergePermutes(SortBlocks(B[..h]), SortBlocks(B[h..]));
    }
  }

  lemma {:induction false} RankConcatSamples(a: seq<Sample>, b: seq<Sample>, x: int)
    ensures SampleRank(a + b, x) == SampleRank(a, x) + SampleRank(b, x)
  {
    if a == [] {
      assert a + b == b;
    } else {
      assert (a + b)[1..] == a[1..] + b;
      RankConcatSamples(a[1..], b, x);
    }
  }

  lemma {:induction false} RankOfBlocks(B: seq<seq<Sample>>, x: int)
    requires B != []
    ensures SampleRank(SortBlocks(B), x) == SampleRank(Flatten(B), x)
    decreases |B|
  {
    if |B| == 1 {
      assert Flatten(B[1..]) == [] && Flatten(B) == B[0];
    } else {
      hide MergeSamples, SampleRank;
      var h := |B| / 2;
      RankOfBlocks(B[..h], x);
      RankOfBlocks(B[h..], x);
      FlattenSplit(B, h);
      RankOfMerge(SortBlocks(B[..h]), SortBlocks(B[h..]), x);
      RankConcatSamples(Flatten(B[..h]), Flatten(B[h..]), x);
    }
  }

  // ---- ranges of two arrays in tandem ----

  /** From position lo on, the arrays hold these samples. */
  ghost predicate Range(items: seq<int>, weights: seq<nat>, lo: nat, s: seq<Sample>)
  {
    lo + |s| <= |items| && lo + |s| <= |weights| && forall i :: 0 <= i < |s| ==> Sample(items[lo + i], weights[lo + i]) == s[i]
  }

  /** Outside positions lo..hi-1 nothing has changed. */
  ghost predicate Kept(items: seq<int>, weights: seq<nat>, items0: seq<int>, weights0: seq<nat>, lo: int, hi: int)
  {
    |items| == |items0| && |weights| == |weights0| &&
    (forall p :: 0 <= p < |items| && !(lo <= p < hi) ==> items[p] == items0[p]) &&
    (forall p :: 0 <= p < |weights| && !(lo <= p < hi) ==> weights[p] == weights0[p])
  }

  lemma RangeKept(items: seq<int>, weights: seq<nat>, items0: seq<int>, weights0: seq<nat>, lo: int, hi: int, at: nat, s: seq<Sample>)
    requires Range(items0, weights0, at, s) && Kept(items, weights, items0, weights0, lo, hi) && (at + |s| <= lo || hi <= at)
    ensures Range(items, weights, at, s)
  {
  }

  lemma KeptTwice(i2: seq<int>, w2: seq<nat>, i1: seq<int>, w1: seq<nat>, i0: seq<int>, w0: seq<nat>, lo1: int, hi1: int, lo2: int, hi2: int, lo: int, hi: int)
    requires Kept(i1, w1, i0, w0, lo1, hi1) && Kept(i2, w2, i1, w1, lo2, hi2) && lo <= lo1 && lo <= lo2 && hi1 <= hi && hi2 <= hi
    ensures Kept(i2, w2, i0, w0, lo, hi)
  {
  }

  lemma RangeSplit(items: seq<int>, weights: seq<nat>, lo: nat, a: seq<Sample>, b: seq<Sample>)
    ensures Range(items, weights, lo, a + b) <==> Range(items, weights, lo, a) && Range(items, weights, lo + |a|, b)
  {
    if Range(items, weights, lo, a + b) {
      forall i | 0 <= i < |a|
        ensures Sample(items[lo + i], weights[lo + i]) == a[i]
      {
        assert (a + b)[i] == a[i];
      }
      forall i | 0 <= i < |b|
        ensures Sample(items[lo + |a| + i], weights[lo + |a| + i]) == b[i]
      {
        assert (a + b)[|a| + i] == b[i];
      }
    }
  }

  /** The state of tandem_merge: `all` from i on is what is left to merge. */
  ghost predicate Tandem(a: seq<Sample>, b: seq<Sample>, i: nat, j: nat, all: seq<Sample>)
  {
    i <= |a| && j <= |b| && i + j <= |all| && all[i + j..] == MergeSamples(a[i..], b[j..])
  }

  lemma TandemStart(a: seq<Sample>, b: seq<Sample>)
    ensures Tandem(a, b, 0, 0, MergeSamples(a, b))
  {
    assert a[0..] == a && b[0..] == b && MergeSamples(a, b)[0..] == MergeSamples(a, b);
  }

  lemma TandemStep(a: seq<Sample>, b: seq<Sample>, i: nat, j: nat, all: seq<Sample>)
    requires Tandem(a, b, i, j, all) && i < |a| && j < |b|
    ensures i + j < |all|
    ensures if a[i].item < b[j].item then all[i + j] == a[i] && Tandem(a, b, i + 1, j, all) else all[i + j] == b[j] && Tandem(a, b, i, j + 1, all)
  {
    var rest := all[i + j..];
    assert a[i..][1..] == a[i + 1..] && b[j..][1..] == b[j + 1..];
    assert rest[0] == all[i + j] && rest[1..] == all[i + j + 1..];
  }

  lemma TandemEnd(a: seq<Sample>, b: seq<Sample>, i: nat, j: nat, all: seq<Sample>)
    requires Tandem(a, b, i, j, all) && (i == |a| || j == |b|)
    ensures all == all[..i + j] + if i < |a| then a[i..] else b[j..]
  {
  }

  /** The arrays of one side of the ping-pong. */
  class TandemArrays {
    const items: array<int>
    const weights: array<nat>

    constructor (items: array<int>, weights: array<nat>)
      ensures this.items == items && this.weights == weights
    {
      this.items := items;
      this.weights := weights;
    }

    ghost predicate Has(lo: nat, s: seq<Sample>)
      reads items, weights
    {
      Range(items[..], weights[..], lo, s)
    }
  }

  /** tandem_merge of the range of a and the range of b, which follows it. */
  method TandemMerge(src: TandemArrays, dst: TandemArrays, from: nat, to1: nat, to2: nat, ghost a: seq<Sample>, ghost b: seq<Sample>)
    requires src.items != dst.items && src.weights != dst.weights && to1 == from + |a| && to2 == to1 + |b|
    requires src.Has(from, a) && src.Has(to1, b) && to2 <= dst.items.Length && to2 <= dst.weights.Length
    modifies dst.items, dst.weights
    ensures dst.Has(from, MergeSamples(a, b))
    ensures Kept(dst.items[..], dst.weights[..], old(dst.items[..]), old(dst.weights[..]), from, to2)
  {
    hide MergeSamples, Tandem, Range, Kept;
    ghost var all := MergeSamples(a, b);
    ghost var i0, w0 := dst.items[..], dst.weights[..];
    TandemStart(a, b);
    NothingYet(i0, w0, from, to2, all);
    var iSrc1, iSrc2, iDst := from, to1, from;
    while iSrc1 < to1 && iSrc2 < to2
      decreases (to1 - iSrc1) + (to2 - iSrc2)
      invariant from <= iSrc1 <= to1 <= iSrc2 <= to2 && iDst == from + (iSrc1 - from) + (iSrc2 - to1)
      invariant Tandem(a, b, iSrc1 - from, iSrc2 - to1, all)
      invariant dst.Has(from, all[..iDst - from])
      invariant Kept(dst.items[..], dst.weights[..], i0, w0, from, to2)
    {
      iSrc1, iSrc2 := MergeOneSample(src, dst, from, to1, iSrc1, iSrc2, iDst, a, b, all, i0, w0, to2);
      iDst := iDst + 1;
    }
    MergeTail(src, dst, from, to1, to2, iSrc1, iSrc2, iDst, a, b, all, i0, w0);
  }

  lemma NothingYet(items: seq<int>, weights: seq<nat>, from: nat, to: nat, all: seq<Sample>)
    requires from <= |items| && from <= |weights|
    ensures Range(items, weights, from, all[..0]) && Kept(items, weights, items, weights, from, to)
  {
  }

  /** The copies at the end of tandem_merge. */
  method MergeTail(src: TandemArrays, dst: TandemArrays, from: nat, to1: nat, to2: nat, iSrc1: nat, iSrc2: nat, iDst: nat,
                   ghost a: seq<Sample>, ghost b: seq<Sample>, ghost all: seq<Sample>, ghost i0: seq<int>, ghost w0: seq<nat>)
    requires src.items != dst.items && src.weights != dst.weights && to1 == from + |a| && to2 == to1 + |b| && |all| == |a| + |b|
    requires from <= iSrc1 <= to1 <= iSrc2 <= to2 && iDst == from + (iSrc1 - from) + (iSrc2 - to1) && (iSrc1 == to1 || iSrc2 == to2)
    requires src.Has(from, a) && src.Has(to1, b) && to2 <= dst.items.Length && to2 <= dst.weights.Length
    requires Tandem(a, b, iSrc1 - from, iSrc2 - to1, all) && dst.Has(from, all[..iDst - from])
    requires Kept(dst.items[..], dst.weights[..], i0, w0, from, to2)
    modifies dst.items, dst.weights
    ensures dst.Has(from, all) && Kept(dst.items[..], dst.weights[..], i0, w0, from, to2)
  {
    hide Tandem, Kept, Range, MergeSamples;
    TandemEnd(a, b, iSrc1 - from, iSrc2 - to1, all);
    ghost var done, i, j := all[..iDst - from], iSrc1 - from, iSrc2 - to1;
    if iSrc1 < to1 {
      RangeTail(src.items[..], src.weights[..], from, a, i);
      ghost var rest := a[i..];
      CopyRange(src, dst, iSrc1, to1, iDst, rest, done, from, i0, w0, to2);
    } else {
      RangeTail(src.items[..], src.weights[..], to1, b, j);
      ghost var rest := b[j..];
      CopyRange(src, dst, iSrc2, to2, iDst, rest, done, from, i0, w0, to2);
    }
  }

  lemma RangeTail(items: seq<int>, weights: seq<nat>, lo: nat, s: seq<Sample>, i: nat)
    requires Range(items, weights, lo, s) && i <= |s|
    ensures Range(items, weights, lo + i, s[i..])
  {
    assert s == s[..i] + s[i..];
    RangeSplit(items, weights, lo, s[..i], s[i..]);
  }

  /** One iteration of tandem_merge. */
  method MergeOneSample(src: TandemArrays, dst: TandemArrays, ghost from: nat, ghost to1: nat, iSrc1: nat, iSrc2: nat, iDst: nat,
                        ghost a: seq<Sample>, ghost b: seq<Sample>, ghost all: seq<Sample>, ghost i0: seq<int>, ghost w0: seq<nat>, ghost to2: nat)
    returns (iSrc1': nat, iSrc2': nat)
    requires src.items != dst.items && src.weights != dst.weights && to1 == from + |a| && to2 == to1 + |b| && |all| == |a| + |b|
    requires from <= iSrc1 < to1 <= iSrc2 < to2 && iDst == from + (iSrc1 - from) + (iSrc2 - to1)
    requires src.Has(from, a) && src.Has(to1, b) && to2 <= dst.items.Length && to2 <= dst.weights.Length
    requires Tandem(a, b, iSrc1 - from, iSrc2 - to1, all) && Range(dst.items[..], dst.weights[..], from, all[..iDst - from])
    requires Kept(dst.items[..], dst.weights[..], i0, w0, from, to2)
    modifies dst.items, dst.weights
    ensures from <= iSrc1' <= to1 <= iSrc2' <= to2 && iSrc1' + iSrc2' == iSrc1 + iSrc2 + 1
    ensures Tandem(a, b, iSrc1' - from, iSrc2' - to1, all) && Range(dst.items[..], dst.weights[..], from, all[..iDst + 1 - from])
    ensures Kept(dst.items[..], dst.weights[..], i0, w0, from, to2)
  {
    hide Tandem, Range, Kept;
    ghost var items, weights, done := dst.items[..], dst.weights[..], all[..iDst - from];
    TandemStep(a, b, iSrc1 - from, iSrc2 - to1, all);
    RangeAt(src.items[..], src.weights[..], from, a, iSrc1 - from);
    RangeAt(src.items[..], src.weights[..], to1, b, iSrc2 - to1);
    if src.items[iSrc1] < src.items[iSrc2] {
      dst.items[iDst] := src.items[iSrc1];
      dst.weights[iDst] := src.weights[iSrc1];
      iSrc1', iSrc2' := iSrc1 + 1, iSrc2;
    } else {
      dst.items[iDst] := src.items[iSrc2];
      dst.weights[iDst] := src.weights[iSrc2];
      iSrc1', iSrc2' := iSrc1, iSrc2 + 1;
    }
    OneMoreSample(items, weights, dst.items[..], dst.weights[..], from, done, all[iDst - from], i0, w0, to2);
    assert all[..iDst + 1 - from] == done + [all[iDst - from]];
  }

  lemma RangeAt(items: seq<int>, weights: seq<nat>, lo: nat, s: seq<Sample>, i: nat)
    requires Range(items, weights, lo, s) && i < |s|
    ensures lo + i < |items| && lo + i < |weights| && items[lo + i] == s[i].item && weights[lo + i] == s[i].weight
  {
  }

  /** One more sample behind those already there. */
  lemma OneMoreSample(items: seq<int>, weights: seq<nat>, items2: seq<int>, weights2: seq<nat>, from: nat, done: seq<Sample>, x: Sample,
                      i0: seq<int>, w0: seq<nat>, to: nat)
    requires Range(items, weights, from, done) && Kept(items, weights, i0, w0, from, to)
    requires var at := from + |done|; at < to && at < |items| && at < |weights| && items2 == items[at := x.item] && weights2 == weights[at := x.weight]
    ensures Range(items2, weights2, from, done + [x]) && Kept(items2, weights2, i0, w0, from, to)
  {
  }

  /** Copy a range of samples behind those already there. */
  method CopyRange(src: TandemArrays, dst: TandemArrays, lo: nat, hi: nat, at: nat, ghost s: seq<Sample>, ghost done: seq<Sample>, ghost from: nat,
                   ghost i0: seq<int>, ghost w0: seq<nat>, ghost to: nat)
    requires src.items != dst.items && src.weights != dst.weights && lo <= hi == lo + |s| && at == from + |done|
    requires src.Has(lo, s) && at + |s| <= to <= dst.items.Length && to <= dst.weights.Length
    requires dst.Has(from, done) && Kept(dst.items[..], dst.weights[..], i0, w0, from, to)
    modifies dst.items, dst.weights
    ensures dst.Has(from, done + s) && Kept(dst.items[..], dst.weights[..], i0, w0, from, to)
  {
    hide Range, Kept;
    assert done + s[..0] == done;
    for i := 0 to hi - lo
      invariant Kept(dst.items[..], dst.weights[..], i0, w0, from, to)
      invariant Range(dst.items[..], dst.weights[..], from, done + s[..i])
    {
      ghost var items, weights := dst.items[..], dst.weights[..];
      RangeAt(src.items[..], src.weights[..], lo, s, i);
      dst.items[at + i] := src.items[lo + i];
      dst.weights[at + i] := src.weights[lo + i];
      OneMoreSample(items, weights, dst.items[..], dst.weights[..], from, done + s[..i], s[i], i0, w0, to);
      assert done + s[..i + 1] == done + s[..i] + [s[i]];
    }
    assert s[..hi - lo] == s;
  }

  // ---- ping-pong ----

  ghost predicate Bounds(levels: seq<nat>, start: nat, B: seq<seq<Sample>>)
  {
    start + |B| < |levels| && forall i :: 0 <= i < |B| ==> levels[start + i + 1] == levels[start + i] + |B[i]|
  }

  lemma {:induction false} BoundsEnd(levels: seq<nat>, start: nat, B: seq<seq<Sample>>)
    requires Bounds(levels, start, B)
    ensures levels[start + |B|] == levels[start] + |Flatten(B)|
    decreases |B|
  {
    if B != [] {
      BoundsTail(levels, start, B);
      BoundsEnd(levels, start + 1, B[1..]);
    }
  }

  lemma BoundsTail(levels: seq<nat>, start: nat, B: seq<seq<Sample>>)
    requires Bounds(levels, start, B) && B != []
    ensures Bounds(levels, start + 1, B[1..]) && levels[start + 1] == levels[start] + |B[0]|
  {
    assert levels[start + 0 + 1] == levels[start + 0] + |B[0]|;
    forall i | 0 <= i < |B[1..]|
      ensures levels[start + 1 + i + 1] == levels[start + 1 + i] + |B[1..][i]|
    {
      assert levels[start + (i + 1) + 1] == levels[start + (i + 1)] + |B[i + 1]|;
    }
  }

  lemma BoundsSplit(levels: seq<nat>, start: nat, B: seq<seq<Sample>>, h: nat)
    requires Bounds(levels, start, B) && h <= |B|
    ensures Bounds(levels, start, B[..h]) && Bounds(levels, start + h, B[h..])
  {
    forall i | 0 <= i < |B| - h
      ensures levels[start + h + i + 1] == levels[start + h + i] + |B[h..][i]|
    {
      assert levels[start + (h + i) + 1] == levels[start + (h + i)] + |B[h + i]|;
    }
  }

  lemma {:induction false} SortBlocksLength(B: seq<seq<Sample>>)
    requires B != []
    ensures |SortBlocks(B)| == |Flatten(B)|
    decreases |B|
  {
    if |B| == 1 {
      assert Flatten(B[1..]) == [];
    } else {
      SortBlocksLength(B[..|B| / 2]);
      SortBlocksLength(B[|B| / 2..]);
      FlattenSplit(B, |B| / 2);
    }
  }

  /** Two halves of a range, with the facts the recursion needs. */
  lemma HalfFacts(levels: seq<nat>, start: nat, B: seq<seq<Sample>>, h: nat)
    requires Bounds(levels, start, B) && |B| >= 2 && h == |B| / 2
    ensures Bounds(levels, start, B[..h]) && Bounds(levels, start + h, B[h..]) && Flatten(B) == Flatten(B[..h]) + Flatten(B[h..])
    ensures levels[start + h] == levels[start] + |Flatten(B[..h])| && levels[start + |B|] == levels[start + h] + |Flatten(B[h..])|
    ensures |SortBlocks(B[..h])| == |Flatten(B[..h])| && |SortBlocks(B[h..])| == |Flatten(B[h..])|
    ensures SortBlocks(B) == MergeSamples(SortBlocks(B[..h]), SortBlocks(B[h..]))
  {
    hide MergeSamples, Flatten, Bounds;
    BoundsSplit(levels, start, B, h);
    FlattenSplit(B, h);
    BoundsEnd(levels, start, B[..h]);
    BoundsEnd(levels, start + h, B[h..]);
    SortBlocksLength(B[..h]);
    SortBlocksLength(B[h..]);
  }

  ghost predicate Apart(src: TandemArrays, dst: TandemArrays)
  {
    src.items != dst.items && src.weights != dst.weights
  }

  /** blocky_tandem_merge_sort_recursion: the roles of source and destination are swapped at each depth. */
  method SortRecursion(src: TandemArrays, dst: TandemArrays, levels: seq<nat>, startingLevel: nat, numLevels: nat, ghost B: seq<seq<Sample>>)
    requires Apart(src, dst) && numLevels == |B| >= 1 && Bounds(levels, startingLevel, B)
    requires src.Has(levels[startingLevel], Flatten(B)) && dst.Has(levels[startingLevel], Flatten(B))
    modifies src.items, src.weights, dst.items, dst.weights
    ensures dst.Has(levels[startingLevel], SortBlocks(B))
    ensures Kept(dst.items[..], dst.weights[..], old(dst.items[..]), old(dst.weights[..]), levels[startingLevel], levels[startingLevel + numLevels])
    ensures Kept(src.items[..], src.weights[..], old(src.items[..]), old(src.weights[..]), levels[startingLevel], levels[startingLevel + numLevels])
    decreases numLevels, 1
  {
    hide MergeSamples, Flatten, SortBlocks, Bounds, Range, Kept;
    NothingKept(src.items[..], src.weights[..], dst.items[..], dst.weights[..], levels, startingLevel, B);
    if numLevels == 1 {
      return;
    }
    var h := numLevels / 2;
    var lo, mid, hi := levels[startingLevel], levels[startingLevel + h], levels[startingLevel + numLevels];
    ghost var B1, B2 := B[..h], B[h..];
    HalfFacts(levels, startingLevel, B, h);
    SplitBoth(src, dst, lo, Flatten(B1), Flatten(B2));
    HasRoom(dst, mid, Flatten(B2));
    SortHalves(src, dst, levels, startingLevel, h, numLevels, B1, B2);
    ghost var i1, w1 := dst.items[..], dst.weights[..];
    TandemMerge(src, dst, lo, mid, hi, SortBlocks(B1), SortBlocks(B2));
    KeptTwice(dst.items[..], dst.weights[..], i1, w1, old(dst.items[..]), old(dst.weights[..]), lo, hi, lo, hi, lo, hi);
  }

  lemma NothingKept(i: seq<int>, w: seq<nat>, i2: seq<int>, w2: seq<nat>, levels: seq<nat>, start: nat, B: seq<seq<Sample>>)
    requires Bounds(levels, start, B)
    ensures Kept(i, w, i, w, levels[start], levels[start + |B|]) && Kept(i2, w2, i2, w2, levels[start], levels[start + |B|])
    ensures |B| == 1 ==> SortBlocks(B) == Flatten(B)
    ensures start + |B| < |levels|
  {
    if |B| == 1 {
      assert Flatten(B[1..]) == [] && B[0] + [] == B[0];
    }
  }

  lemma SplitBoth(src: TandemArrays, dst: TandemArrays, lo: nat, a: seq<Sample>, b: seq<Sample>)
    requires src.Has(lo, a + b) && dst.Has(lo, a + b)
    ensures src.Has(lo, a) && src.Has(lo + |a|, b) && dst.Has(lo, a) && dst.Has(lo + |a|, b)
  {
    RangeSplit(src.items[..], src.weights[..], lo, a, b);
    RangeSplit(dst.items[..], dst.weights[..], lo, a, b);
  }

  lemma HasRoom(dst: TandemArrays, lo: nat, s: seq<Sample>)
    requires dst.Has(lo, s)
    ensures lo + |s| <= dst.items.Length && lo + |s| <= dst.weights.Length
  {
  }

  /** The two recursive calls, which sort the halves of a range from the destination into the source. */
  method SortHalves(src: TandemArrays, dst: TandemArrays, levels: seq<nat>, startingLevel: nat, h: nat, numLevels: nat,
                    ghost B1: seq<seq<Sample>>, ghost B2: seq<seq<Sample>>)
    requires Apart(src, dst) && 1 <= h == |B1| && h + |B2| == numLevels && |B2| >= 1
    requires Bounds(levels, startingLevel, B1) && Bounds(levels, startingLevel + h, B2) && startingLevel + numLevels < |levels|
    requires levels[startingLevel + h] == levels[startingLevel] + |Flatten(B1)| && levels[startingLevel + numLevels] == levels[startingLevel + h] + |Flatten(B2)|
    requires |SortBlocks(B1)| == |Flatten(B1)|
    requires src.Has(levels[startingLevel], Flatten(B1)) && src.Has(levels[startingLevel + h], Flatten(B2))
    requires dst.Has(levels[startingLevel], Flatten(B1)) && dst.Has(levels[startingLevel + h], Flatten(B2))
    modifies src.items, src.weights, dst.items, dst.weights
    ensures src.Has(levels[startingLevel], SortBlocks(B1)) && src.Has(levels[startingLevel + h], SortBlocks(B2))
    ensures Kept(dst.items[..], dst.weights[..], old(dst.items[..]), old(dst.weights[..]), levels[startingLevel], levels[startingLevel + numLevels])
    ensures Kept(src.items[..], src.weights[..], old(src.items[..]), old(src.weights[..]), levels[startingLevel], levels[startingLevel + numLevels])
    decreases numLevels, 0
  {
    hide MergeSamples, Flatten, SortBlocks, Bounds, Range, Kept;
    ghost var lo, mid, hi := levels[startingLevel], levels[startingLevel + h], levels[startingLevel + numLevels];
    ghost var di0, dw0, si0, sw0 := dst.items[..], dst.weights[..], src.items[..], src.weights[..];
    SortRecursion(dst, src, levels, startingLevel, h, B1);
    ghost var di1, dw1, si1, sw1 := dst.items[..], dst.weights[..], src.items[..], src.weights[..];
    RangeKept(di1, dw1, di0, dw0, lo, mid, mid, Flatten(B2));
    RangeKept(si1, sw1, si0, sw0, lo, mid, mid, Flatten(B2));
    SortRecursion(dst, src, levels, startingLevel + h, numLevels - h, B2);
    RangeKept(src.items[..], src.weights[..], si1, sw1, mid, hi, lo, SortBlocks(B1));
    KeptTwice(dst.items[..], dst.weights[..], di1, dw1, di0, dw0, lo, mid, mid, hi, lo, hi);
    KeptTwice(src.items[..], src.weights[..], si1, sw1, si0, sw0, lo, mid, mid, hi, lo, hi);
  }

  /** blocky_tandem_merge_sort */
  method BlockyTandemMergeSort(dst: TandemArrays, numItems: nat, levels: seq<nat>, numLevels: nat, ghost B: seq<seq<Sample>>)
    requires numLevels == |B| >= 1 && Bounds(levels, 0, B) && levels[0] == 0 && numItems == |Flatten(B)|
    requires dst.Has(0, Flatten(B))
    modifies dst.items, dst.weights
    ensures dst.Has(0, SortBlocks(B))
    ensures Kept(dst.items[..], dst.weights[..], old(dst.items[..]), old(dst.weights[..]), 0, numItems)
  {
    hide MergeSamples, SortBlocks, Bounds;
    BoundsEnd(levels, 0, B);
    if numLevels == 1 {
      NothingKept([], [], [], [], levels, 0, B);
      return;
    }
    // duplicate the input in preparation for the "ping-pong" copy reduction strategy
    HasRoom(dst, 0, Flatten(B));
    var itemsTmp := new int[numItems](i requires 0 <= i < numItems reads dst.items => dst.items[i]);
    var weightsTmp := new nat[numItems](i requires 0 <= i < numItems reads dst.weights => dst.weights[i]);
    var src := new TandemArrays(itemsTmp, weightsTmp);
    SortRecursion(src, dst, levels, 0, numLevels, B);
  }

  // ---- from a sketch ----

  /** The items of one level with their weight. */
  function Weighted(s: seq<int>, h: nat): seq<Sample>
  {
    seq(|s|, i requires 0 <= i < |s| => Sample(s[i], Pow2(h)))
  }

  /** The non-empty levels, from level h up. */
  function Blocks(L: seq<seq<int>>, h: nat): seq<seq<Sample>>
  {
    if L == [] then [] else (if L[0] == [] then [] else [Weighted(L[0], h)]) + Blocks(L[1..], h + 1)
  }

  lemma {:induction false} BlocksSnoc(L: seq<seq<int>>, h: nat, s: seq<int>)
    ensures Blocks(L + [s], h) == Blocks(L, h) + if s == [] then [] else [Weighted(s, h + |L|)]
  {
    if L == [] {
      assert (L + [s])[1..] == [];
    } else {
      assert (L + [s])[1..] == L[1..] + [s];
      BlocksSnoc(L[1..], h + 1, s);
    }
  }

  lemma {:induction false} BlocksOrdered(L: seq<seq<int>>, h: nat)
    requires AllSorted(L)
    ensures forall i :: 0 <= i < |Blocks(L, h)| ==> Ordered(Blocks(L, h)[i]) && Blocks(L, h)[i] != []
  {
    if L != [] {
      assert forall i :: 0 <= i < |L[1..]| ==> L[1..][i] == L[i + 1];
      BlocksOrdered(L[1..], h + 1);
      assert Sorted(L[0]);
    }
  }

  lemma {:induction false} WeightedRankOf(s: seq<int>, h: nat, x: int)
    ensures SampleRank(Weighted(s, h), x) == Scale(Rank(s, x), h)
  {
    if s == [] {
      ScaleZero(h);
    } else {
      assert Weighted(s, h)[1..] == Weighted(s[1..], h);
      WeightedRankOf(s[1..], h, x);
      ScaleSum(1, Rank(s[1..], x), h);
      ScaleOne(h);
    }
  }

  /** The blocks of a sketch weigh what its levels weigh, below any value. */
  lemma {:induction false} BlocksRank(L: seq<seq<int>>, h: nat, x: int)
    ensures SampleRank(Flatten(Blocks(L, h)), x) == Scale(WeightedRank(L, x), h)
  {
    if L == [] {
      ScaleZero(h);
    } else {
      BlocksRank(L[1..], h + 1, x);
      hide Weighted, SampleRank;
      var rest := Blocks(L[1..], h + 1);
      ScaleTwice(WeightedRank(L[1..], x), 1, h);
      ScaleSum(Rank(L[0], x), 2 * WeightedRank(L[1..], x), h);
      if L[0] == [] {
        assert Blocks(L, h) == rest;
        ScaleZero(h);
      } else {
        WeightedRankOf(L[0], h, x);
        assert Blocks(L, h)[1..] == rest;
        RankConcatSamples(Weighted(L[0], h), Flatten(rest), x);
      }
    }
  }

  lemma {:induction false} BlocksLength(L: seq<seq<int>>, h: nat)
    ensures |Flatten(Blocks(L, h))| == Population(L) && |Blocks(L, h)| <= |L|
  {
    if L != [] {
      BlocksLength(L[1..], h + 1);
      var rest := Blocks(L[1..], h + 1);
      if L[0] == [] {
        assert Blocks(L, h) == rest;
      } else {
        assert Blocks(L, h)[1..] == rest;
      }
    }
  }

  lemma FlattenSnoc(B: seq<seq<Sample>>, s: seq<Sample>)
    ensures Flatten(B + [s]) == Flatten(B) + s
  {
    FlattenSplit(B + [s], |B|);
    assert (B + [s])[..|B|] == B && (B + [s])[|B|..] == [s] && [s][1..] == [];
    assert s + [] == s;
  }

  /** The arrays of the calculator after the first src levels of a sketch have been visited. */
  ghost predicate Populated(items: seq<int>, weights: seq<nat>, levels: seq<nat>, dst: nat, L: seq<seq<int>>, src: nat)
  {
    src <= |L| && Range(items, weights, 0, Flatten(Blocks(L[..src], 0))) && Bounds(levels, 0, Blocks(L[..src], 0)) &&
    dst == |Blocks(L[..src], 0)| && levels[0] == 0 && |levels| > |L|
  }

  /** The weights of one level. */
  method FillWeights(weights: array<nat>, from: nat, to: nat, weight: nat)
    requires from <= to <= weights.Length
    modifies weights
    ensures forall p :: 0 <= p < weights.Length ==> weights[p] == if from <= p < to then weight else old(weights[p])
  {
    for i := from to to
      invariant forall p :: 0 <= p < weights.Length ==> weights[p] == if from <= p < i then weight else old(weights[p])
    {
      weights[i] := weight;
    }
  }

  lemma PopulatedNext(items: seq<int>, weights: seq<nat>, weights2: seq<nat>, levels: seq<nat>, levels2: seq<nat>, dst: nat, L: seq<seq<int>>, src: nat, from: nat)
    requires Populated(items, weights, levels, dst, L, src) && src < |L| && L[src] != [] && from == Population(L[..src])
    requires Block(items, from, L[src]) && from + |L[src]| <= |weights2| == |weights| && dst + 1 < |levels2| == |levels|
    requires forall p :: 0 <= p < |weights| ==> weights2[p] == if from <= p < from + |L[src]| then Pow2(src) else weights[p]
    requires (forall i :: 0 <= i < dst ==> levels2[i] == levels[i]) && levels2[dst] == from && levels2[dst + 1] == from + |L[src]|
    ensures Populated(items, weights2, levels2, dst + 1, L, src + 1)
  {
    hide Weighted, Pow2, Population, Blocks, Range, Bounds, Block, Flatten;
    var B, s := Blocks(L[..src], 0), Weighted(L[src], src);
    BlocksSnoc(L[..src], 0, L[src]);
    assert L[..src + 1] == L[..src] + [L[src]];
    BlocksLength(L[..src], 0);
    WeightedRange(items, weights2, from, L[src], src);
    RangeBefore(items, weights, weights2, Flatten(B), from, from + |L[src]|);
    FlattenSnoc(B, s);
    RangeSplit(items, weights2, 0, Flatten(B), s);
    BoundsSnoc(levels, levels2, B, s);
  }

  lemma RangeBefore(items: seq<int>, weights: seq<nat>, weights2: seq<nat>, s: seq<Sample>, from: nat, to: nat)
    requires Range(items, weights, 0, s) && |s| <= from <= to && |weights2| == |weights|
    requires forall p :: 0 <= p < |weights| && !(from <= p < to) ==> weights2[p] == weights[p]
    ensures Range(items, weights2, 0, s)
  {
  }

  lemma BoundsSnoc(levels: seq<nat>, levels2: seq<nat>, B: seq<seq<Sample>>, s: seq<Sample>)
    requires Bounds(levels, 0, B) && levels[0] == 0 && |B| + 1 < |levels2| == |levels| && forall i :: 0 <= i < |B| ==> levels2[i] == levels[i]
    requires levels2[|B|] == |Flatten(B)| && levels2[|B| + 1] == |Flatten(B)| + |s|
    ensures Bounds(levels2, 0, B + [s]) && levels2[0] == 0
  {
    BoundsEnd(levels, 0, B);
  }

  lemma WeightedRange(items: seq<int>, weights: seq<nat>, from: nat, s: seq<int>, h: nat)
    requires Block(items, from, s) && from + |s| <= |weights| && forall p :: from <= p < from + |s| ==> weights[p] == Pow2(h)
    ensures Range(items, weights, from, Weighted(s, h)) && |Weighted(s, h)| == |s|
  {
    forall i | 0 <= i < |s|
      ensures items[from + i] == s[i]
    {
      assert items[from..from + |s|][i] == s[i];
    }
  }

  lemma PopulatedSkip(items: seq<int>, weights: seq<nat>, levels: seq<nat>, dst: nat, L: seq<seq<int>>, src: nat)
    requires Populated(items, weights, levels, dst, L, src) && src < |L| && L[src] == []
    ensures Populated(items, weights, levels, dst, L, src + 1)
  {
    hide Blocks, Range, Bounds;
    BlocksSnoc(L[..src], 0, L[src]);
    assert L[..src + 1] == L[..src] + [L[src]];
    var none: seq<seq<Sample>> := [];
    assert Blocks(L[..src], 0) + none == Blocks(L[..src], 0);
  }

  lemma PopulatedFacts(items: seq<int>, weights: seq<nat>, levels: seq<nat>, dst: nat, L: seq<seq<int>>, src: nat)
    requires Populated(items, weights, levels, dst, L, src)
    ensures dst <= src <= |L| < |levels|
  {
    BlocksLength(L[..src], 0);
  }

  /** populate_from_sketch: the items of all levels, their weights, and the boundaries of the levels that are not empty. */
  method PopulateFromSketch(items: array<int>, levels: array<nat>, numLevels: nat, ghost L: seq<seq<int>>)
    returns (arrays: TandemArrays, levels': array<nat>, numLevels': nat)
    requires numLevels == |L| >= 1 && Holds(items[..], levels[..], 0, L)
    ensures fresh(arrays) && fresh(arrays.items) && fresh(arrays.weights) && fresh(levels') && arrays.items.Length == Population(L) == arrays.weights.Length - 1
    ensures arrays.Has(0, Flatten(Blocks(L, 0))) && Bounds(levels'[..], 0, Blocks(L, 0)) && levels'[0] == 0 && numLevels' == |Blocks(L, 0)|
    ensures arrays.weights[arrays.weights.Length - 1] == 0 && levels'.Length > 0
  {
    hide Holds, Flatten, Blocks, Bounds, Range, Populated, Weighted, Block, Population, Pow2;
    HoldsEnds(items[..], levels[..], 0, L);
    FirstPower();
    var offset := levels[0];
    var numItems := levels[numLevels] - offset;
    var qItems := new int[numItems](i requires 0 <= i < numItems reads items => items[offset + i]);
    var qWeights := new nat[numItems + 1](_ => 0);
    levels' := new nat[numLevels + 1](_ => 0);
    numLevels' := 0;
    var weight := 1;
    PopulatedNone(qItems[..], qWeights[..], levels'[..], L);
    assert qItems[..] == items[..][offset..offset + numItems];
    for srcLevel := 0 to numLevels
      invariant weight == Pow2(srcLevel) && items[..] == old(items[..]) && levels[..] == old(levels[..]) && qItems[..] == items[..][offset..offset + numItems]
      invariant Populated(qItems[..], qWeights[..], levels'[..], numLevels', L, srcLevel) && qWeights[numItems] == 0
    {
      PopulatedFacts(qItems[..], qWeights[..], levels'[..], numLevels', L, srcLevel);
      LevelIn(items[..], levels[..], L, srcLevel, offset, numItems);
      var fromIndex, toIndex := levels[srcLevel] - offset, levels[srcLevel + 1] - offset;
      if fromIndex < toIndex { // skip empty levels
        ghost var w, lv := qWeights[..], levels'[..];
        FillWeights(qWeights, fromIndex, toIndex, weight);
        levels'[numLevels'] := fromIndex;
        levels'[numLevels' + 1] := toIndex;
        PopulatedNext(qItems[..], w, qWeights[..], lv, levels'[..], numLevels', L, srcLevel, fromIndex);
        numLevels' := numLevels' + 1;
      } else {
        PopulatedSkip(qItems[..], qWeights[..], levels'[..], numLevels', L, srcLevel);
      }
      weight := weight * 2;
    }
    PopulatedAll(qItems[..], qWeights[..], levels'[..], numLevels', L);
    arrays := new TandemArrays(qItems, qWeights);
  }

  lemma FirstPower()
    ensures Pow2(0) == 1 && forall n: nat :: Pow2(n + 1) == 2 * Pow2(n)
  {
  }

  lemma PopulatedNone(items: seq<int>, weights: seq<nat>, levels: seq<nat>, L: seq<seq<int>>)
    requires |levels| > |L| && levels[0] == 0
    ensures Populated(items, weights, levels, 0, L, 0)
  {
    assert L[..0] == [];
  }

  lemma PopulatedAll(items: seq<int>, weights: seq<nat>, levels: seq<nat>, dst: nat, L: seq<seq<int>>)
    requires Populated(items, weights, levels, dst, L, |L|)
    ensures Range(items, weights, 0, Flatten(Blocks(L, 0))) && Bounds(levels, 0, Blocks(L, 0)) && levels[0] == 0 && dst == |Blocks(L, 0)|
  {
    assert L[..|L|] == L;
  }

  /** A level of the sketch in the copy of its items. */
  lemma LevelIn(items: seq<int>, lv: seq<nat>, L: seq<seq<int>>, h: nat, offset: nat, n: nat)
    requires Holds(items, lv, 0, L) && h < |L| && offset == lv[0] && lv[|L|] == offset + n
    ensures h + 1 < |lv| && offset <= lv[h] && lv[h + 1] == lv[h] + |L[h]| <= offset + n <= |items| && lv[h] - offset == Population(L[..h])
    ensures Block(items[offset..offset + n], lv[h] - offset, L[h])
  {
    hide Holds, Block, Population;
    LevelPlace(items, lv, L, h);
    HoldsEnds(items, lv, 0, L);
    BlockOfCopy(items, lv[h], L[h], offset, n);
  }

  lemma LevelPlace(items: seq<int>, lv: seq<nat>, L: seq<seq<int>>, h: nat)
    requires Holds(items, lv, 0, L) && h < |L|
    ensures h + 1 < |lv| && |L| < |lv| && lv[h + 1] <= lv[|L|] && lv[h] == lv[0] + Population(L[..h])
    ensures Block(items, lv[h], L[h]) && lv[h + 1] == lv[h] + |L[h]|
  {
    hide Holds, Block, Population;
    SplitLevels(items, lv, L, h);
    HoldsEnds(items, lv, 0, L[..h]);
    LevelFits(items, lv, L, h);
  }

  lemma LevelFits(items: seq<int>, lv: seq<nat>, L: seq<seq<int>>, h: nat)
    requires Holds(items, lv, 0, L) && h < |L|
    ensures h + 1 < |lv| && |L| < |lv| && lv[h + 1] <= lv[|L|]
  {
    SplitLevels(items, lv, L, h);
    HoldsEnds(items, lv, h, L[h..]);
    var rest := L[h..];
    assert Holds(items, lv, h + 1, rest[1..]);
    HoldsEnds(items, lv, h + 1, rest[1..]);
  }

  lemma BlockOfCopy(items: seq<int>, at: nat, s: seq<int>, offset: nat, n: nat)
    requires Block(items, at, s) && offset <= at && at + |s| <= offset + n <= |items|
    ensures Block(items[offset..offset + n], at - offset, s)
  {
    var copy := items[offset..offset + n];
    assert forall i :: at <= i < at + |s| ==> copy[i - offset] == items[i];
    forall i | 0 <= i < |s|
      ensures copy[at - offset + i] == s[i]
    {
      assert items[at..at + |s|][i] == items[at + i] == copy[at + i - offset];
    }
  }

  // ---- cumulative weights ----

  const TWO_TO_THE_32: nat := 0x1_0000_0000

  /** A value kept in 32 bits. */
  function Wrap32(x: nat): nat { x % TWO_TO_THE_32 }

  /** convert_to_preceding_cummulative: the subtotal is kept in 32 bits. */
  method ConvertToPrecedingCumulative(weights: array<nat>, weightsSize: nat, ghost s: seq<Sample>)
    requires weightsSize == weights.Length == |s| + 1 && weights[|s|] == 0 && forall i :: 0 <= i < |s| ==> weights[i] == s[i].weight
    modifies weights
    ensures forall i :: 0 <= i <= |s| ==> weights[i] == Wrap32(Cumulative(s, i))
  {
    hide Cumulative, Wrap32;
    NoneCumulative(s);
    var subtotal := 0;
    for i := 0 to weightsSize
      invariant i <= |s| ==> subtotal == Wrap32(Cumulative(s, i))
      invariant forall j :: 0 <= j < i ==> weights[j] == Wrap32(Cumulative(s, j))
      invariant forall j :: i <= j < weightsSize ==> weights[j] == old(weights[j])
    {
      var newSubtotal := Wrap32(subtotal + weights[i]);
      if i < |s| {
        AddModulo(Cumulative(s, i), s[i].weight);
        NextCumulative(s, i);
      }
      weights[i] := subtotal;
      subtotal := newSubtotal;
    }
  }

  lemma AddModulo(a: nat, w: nat)
    ensures Wrap32(Wrap32(a) + w) == Wrap32(a + w)
  {
  }

  lemma {:induction false} CumulativeMonotone(s: seq<Sample>, i: nat, j: nat)
    requires i <= j <= |s|
    ensures Cumulative(s, i) <= Cumulative(s, j)
  {
    if i < j {
      CumulativeMonotone(s, i, j - 1);
    }
  }

  /** The 32-bit subtotals are the true ones exactly when the total weight is below 2^32. */
  lemma CumulativeExact(s: seq<Sample>)
    ensures (forall i :: 0 <= i <= |s| ==> Wrap32(Cumulative(s, i)) == Cumulative(s, i)) <==> Cumulative(s, |s|) < TWO_TO_THE_32
  {
    if Cumulative(s, |s|) < TWO_TO_THE_32 {
      forall i | 0 <= i <= |s|
        ensures Cumulative(s, i) < TWO_TO_THE_32
      {
        CumulativeMonotone(s, i, |s|);
      }
    }
  }

  // ---- queries ----

  /** search_for_chunk_containing_pos */
  function SearchForChunk(arr: seq<nat>, pos: nat, l: nat, r: nat): (i: nat)
    requires l < r < |arr| && arr[l] <= pos < arr[r]
    ensures l <= i < r && arr[i] <= pos < arr[i + 1]
    decreases r - l
  {
    if l + 1 == r then l
    else
      var m := l + (r - l) / 2;
      if arr[m] <= pos then SearchForChunk(arr, pos, m, r) else SearchForChunk(arr, pos, l, m)
  }

  /** All of the first n samples that are below x, and no others. */
  lemma {:induction false} RankIsCumulative(s: seq<Sample>, x: int, n: nat)
    requires n <= |s| && (forall i :: 0 <= i < n ==> s[i].item < x) && (forall i :: n <= i < |s| ==> s[i].item >= x)
    ensures SampleRank(s, x) == Cumulative(s, n)
    decreases |s|
  {
    if s != [] {
      var m := |s| - 1;
      var last := [s[m]];
      RankConcatSamples(s[..m], last, x);
      assert s == s[..m] + last && last[1..] == [];
      RankIsCumulative(s[..m], x, if n <= m then n else m);
      CumulativePrefix(s, m, if n <= m then n else m);
    }
  }

  lemma {:induction false} CumulativePrefix(s: seq<Sample>, m: nat, n: nat)
    requires n <= m <= |s|
    ensures Cumulative(s[..m], n) == Cumulative(s, n)
  {
    if n > 0 {
      CumulativePrefix(s, m, n - 1);
    }
  }

  /** A position within sample i of the sorted samples lies between the weights strictly below it and not above it. */
  lemma ChunkRank(s: seq<Sample>, i: nat, pos: nat)
    requires Ordered(s) && i < |s| && Cumulative(s, i) <= pos < Cumulative(s, i + 1)
    ensures SampleRank(s, s[i].item) <= pos < SampleRank(s, s[i].item + 1)
  {
    var lo := FirstNotBelow(s, s[i].item);
    var hi := FirstNotBelow(s, s[i].item + 1);
    RankIsCumulative(s, s[i].item, lo);
    RankIsCumulative(s, s[i].item + 1, hi);
    CumulativeMonotone(s, lo, i);
    CumulativeMonotone(s, i + 1, hi);
  }

  lemma FirstNotBelow(s: seq<Sample>, x: int) returns (n: nat)
    requires Ordered(s)
    ensures n <= |s| && (forall i :: 0 <= i < n ==> s[i].item < x) && (forall i :: n <= i < |s| ==> s[i].item >= x)
  {
    n := 0;
    while n < |s| && s[n].item < x
      invariant n <= |s| && forall i :: 0 <= i < n ==> s[i].item < x
    {
      n := n + 1;
    }
  }

  // ---- the total weight ----

  lemma {:induction false} AboveAll(s: seq<int>) returns (x: int)
    ensures forall i :: 0 <= i < |s| ==> s[i] < x
    decreases s
  {
    if s == [] {
      x := 0;
    } else {
      var y := AboveAll(s[1..]);
      x := if s[0] < y then y else s[0] + 1;
      assert forall i :: 0 < i < |s| ==> s[i] == s[1..][i - 1];
    }
  }

  lemma {:induction false} RankOfAll(s: seq<int>, x: int)
    requires forall i :: 0 <= i < |s| ==> s[i] < x
    ensures Rank(s, x) == |s|
  {
    if s != [] {
      RankOfAll(s[1..], x);
    }
  }

  /** From some value on, every weighted rank is the whole weight. */
  lemma {:induction false} WeightAbove(L: seq<seq<int>>) returns (x: int)
    ensures forall y :: y >= x ==> WeightedRank(L, y) == Weight(L)
    decreases L
  {
    if L == [] {
      x := 0;
    } else {
      var a := AboveAll(L[0]);
      var b := WeightAbove(L[1..]);
      x := if a < b then b else a;
      forall y | y >= x
        ensures WeightedRank(L, y) == Weight(L)
      {
        RankOfAll(L[0], y);
        assert WeightedRank(L[1..], y) == Weight(L[1..]);
      }
    }
  }

  lemma TotalWeight(s: seq<Sample>, L: seq<seq<int>>)
    requires forall x :: SampleRank(s, x) == WeightedRank(L, x)
    requires Ordered(s)
    ensures Cumulative(s, |s|) == Weight(L)
  {
    hide SampleRank, WeightedRank, Weight, Cumulative;
    var x := WeightAbove(L);
    var y := if s != [] && s[|s| - 1].item >= x then s[|s| - 1].item + 1 else x;
    RankIsCumulative(s, y, |s|);
    assert SampleRank(s, y) == WeightedRank(L, y);
  }

  // ---- the calculator ----

  class QuantileCalculator {
    const items: array<int>
    const weights: array<nat>
    ghost const L: seq<seq<int>>
    ghost const sorted: seq<Sample>

    /** The items of the sketch in order, with the weight that precedes each. */
    ghost predicate Valid()
      reads items, weights
    {
      Ordered(sorted) && items.Length == |sorted| && weights.Length == |sorted| + 1 &&
      (forall i :: 0 <= i < |sorted| ==> items[i] == sorted[i].item) &&
      (forall i :: 0 <= i <= |sorted| ==> weights[i] == Wrap32(Cumulative(sorted, i))) &&
      (forall x :: SampleRank(sorted, x) == WeightedRank(L, x)) && Cumulative(sorted, |sorted|) == Weight(L)
    }

    constructor (items: array<int>, weights: array<nat>, ghost L: seq<seq<int>>, ghost sorted: seq<Sample>)
      ensures this.items == items && this.weights == weights && this.L == L && this.sorted == sorted
    {
      this.items := items;
      this.weights := weights;
      this.L := L;
      this.sorted := sorted;
    }

    /** approximately_answer_positional_query: for a stream shorter than 2^32 items. */
    method ApproximatelyAnswerPositionalQuery(pos: nat) returns (v: int)
      requires Valid() && pos < Weight(L) < TWO_TO_THE_32
      ensures WeightedRank(L, v) <= pos < WeightedRank(L, v + 1)
    {
      hide Valid, Cumulative, SampleRank, WeightedRank, Weight;
      ExactWeights();
      var index := SearchForChunk(weights[..], pos, 0, weights.Length - 1);
      ChunkAnswer(index, pos);
      v := items[index];
    }

    /** Below 2^32 items the weights are the preceding weights themselves. */
    lemma ExactWeights()
      requires Valid() && Weight(L) < TWO_TO_THE_32
      ensures items.Length == |sorted| && weights.Length == |sorted| + 1
      ensures forall i :: 0 <= i <= |sorted| ==> weights[..][i] == Cumulative(sorted, i)
      ensures weights[..][0] == 0 && weights[..][|sorted|] == Weight(L)
    {
      hide Cumulative, SampleRank, WeightedRank, Weight, Ordered, Wrap32;
      CumulativeExact(sorted);
      NoneCumulative(sorted);
    }

    lemma ChunkAnswer(i: nat, pos: nat)
      requires Valid() && i < |sorted| && Cumulative(sorted, i) <= pos < Cumulative(sorted, i + 1)
      ensures i < items.Length && WeightedRank(L, items[i]) <= pos < WeightedRank(L, items[i] + 1)
    {
      hide Cumulative, SampleRank, WeightedRank, Weight, Ordered, Wrap32;
      ChunkRank(sorted, i, pos);
    }
  }

  lemma NextCumulative(s: seq<Sample>, i: nat)
    requires i < |s|
    ensures Cumulative(s, i + 1) == Cumulative(s, i) + s[i].weight
  {
  }

  lemma NoneCumulative(s: seq<Sample>)
    ensures Cumulative(s, 0) == 0 == Wrap32(0)
  {
  }

  /** The constructor of the calculator: populate, sort in tandem, and accumulate. */
  method MakeCalculator(items: array<int>, levels: array<nat>, numLevels: nat, ghost L: seq<seq<int>>) returns (calculator: QuantileCalculator)
    requires numLevels == |L| >= 1 && Holds(items[..], levels[..], 0, L) && AllSorted(L) && Population(L) > 0
    ensures fresh(calculator) && calculator.Valid() && calculator.L == L
  {
    hide Holds, Flatten, Blocks, SortBlocks, Bounds, Population, AllSorted, Cumulative, SampleRank, WeightedRank, Ordered, Weight;
    var arrays, qLevels, numQLevels := PopulateFromSketch(items, levels, numLevels, L);
    ghost var B := Blocks(L, 0);
    ghost var sorted := SortedBlocks(L, B);
    var numItems := arrays.items.Length;
    BlockyTandemMergeSort(arrays, numItems, qLevels[..], numQLevels, B);
    Accumulate(arrays, numItems + 1, sorted);
    calculator := new QuantileCalculator(arrays.items, arrays.weights, L, sorted);
  }

  method Accumulate(arrays: TandemArrays, weightsSize: nat, ghost s: seq<Sample>)
    requires arrays.Has(0, s) && weightsSize == arrays.weights.Length == |s| + 1 && arrays.weights[|s|] == 0 && arrays.items.Length == |s|
    modifies arrays.weights
    ensures arrays.items[..] == old(arrays.items[..]) && forall i :: 0 <= i < |s| ==> arrays.items[i] == s[i].item
    ensures forall i :: 0 <= i <= |s| ==> arrays.weights[i] == Wrap32(Cumulative(s, i))
  {
    hide Cumulative, Wrap32;
    forall i | 0 <= i < |s|
      ensures arrays.items[i] == s[i].item && arrays.weights[i] == s[i].weight
    {
      assert Sample(arrays.items[..][0 + i], arrays.weights[..][0 + i]) == s[i];
    }
    ConvertToPrecedingCumulative(arrays.weights, weightsSize, s);
  }

  /** The sorted samples of a sketch, and what is known of them. */
  lemma SortedBlocks(L: seq<seq<int>>, B: seq<seq<Sample>>) returns (sorted: seq<Sample>)
    requires L != [] && AllSorted(L) && Population(L) > 0 && B == Blocks(L, 0)
    ensures B != [] && sorted == SortBlocks(B) && Ordered(sorted) && |sorted| == Population(L) == |Flatten(B)|
    ensures (forall x :: SampleRank(sorted, x) == WeightedRank(L, x)) && Cumulative(sorted, |sorted|) == Weight(L)
  {
    hide Blocks, Ordered, SampleRank, WeightedRank, Population, Cumulative, Weight, AllSorted;
    BlocksLength(L, 0);
    BlocksOrdered(L, 0);
    SortBlocksSorts(B);
    sorted := SortBlocks(B);
    hide Flatten, SortBlocks;
    forall x: int
      ensures SampleRank(sorted, x) == WeightedRank(L, x)
    {
      RankOfBlocks(B, x);
      BlocksRank(L, 0, x);
    }
    TotalWeight(sorted, L);
  }
}
