/** The mass and distribution queries of a KLL sketch: get_PMF_or_CDF of kll/include/kll_sketch.hpp. */
module KllBuckets {
  import opened Words
  import opened Merges
  import opened Ranks
  import opened KllLevels
  import opened KllBuffers
  import opened KllSketches

  ghost predicate StrictlyIncreasing(splits: seq<int>)
  {
    forall i, j :: 0 <= i < j < |splits| ==> splits[i] < splits[j]
  }

  /** How many items are below split point c; all of them at the end. */
  function CountBelow(s: seq<int>, splits: seq<int>, c: nat): nat
    requires c <= |splits|
  {
    if c < |splits| then Rank(s, splits[c]) else |s|
  }

  /** The weight of the items below split point c; all of it at the end. */
  function WeightBelow(L: seq<seq<int>>, splits: seq<int>, c: nat): nat
    requires c <= |splits|
  {
    if c < |splits| then WeightedRank(L, splits[c]) else Weight(L)
  }

  /** The weight between split point c and the one before. */
  function WeightBetween(L: seq<seq<int>>, splits: seq<int>, c: nat): int
    requires c <= |splits|
  {
    WeightBelow(L, splits, c) - if c == 0 then 0 else WeightBelow(L, splits, c - 1)
  }

  /** How many items lie from one split point up to, not including, the next: bucket c counts these. */
  function CountBetween(s: seq<int>, splits: seq<int>, c: nat): nat
    requires c <= |splits|
  {
    if s == [] then 0
    else (if (c > 0 ==> splits[c - 1] <= s[0]) && (c < |splits| ==> s[0] < splits[c]) then 1 else 0) + CountBetween(s[1..], splits, c)
  }

  lemma {:induction false} CountDifference(s: seq<int>, splits: seq<int>, c: nat)
    requires StrictlyIncreasing(splits) && c <= |splits|
    ensures CountBetween(s, splits, c) == CountBelow(s, splits, c) - if c == 0 then 0 else CountBelow(s, splits, c - 1)
  {
    if s != [] {
      CountDifference(s[1..], splits, c);
    }
  }

  /** The split points on either side of bucket c, none, one or two, bring in an error each. */
  function EdgeError(splits: seq<int>, c: nat, err: nat): nat
  {
    (if c > 0 then err else 0) + (if c < |splits| then err else 0)
  }

  function SumTo(b: seq<nat>, n: nat): nat
    requires n <= |b|
  {
    if n == 0 then 0 else SumTo(b, n - 1) + b[n - 1]
  }

  lemma {:induction false} SumAdd(b: seq<nat>, j: nat, w: nat, n: nat)
    requires j < |b| && n <= |b|
    ensures SumTo(b[j := b[j] + w], n) == SumTo(b, n) + if j < n then w else 0
  {
    if n > 0 {
      SumAdd(b, j, w, n - 1);
    }
  }

  /** The buckets up to c hold the weight of the lower levels, and of these items of the current level. */
  ghost predicate Tally(b: seq<nat>, L: seq<seq<int>>, splits: seq<int>, s: seq<int>, w: nat)
  {
    |b| == |splits| + 1 && forall c :: 0 <= c <= |splits| ==> SumTo(b, c + 1) == WeightBelow(L, splits, c) + Weighed(w, CountBelow(s, splits, c))
  }

  /** An item belongs in the bucket of the first split point above it. */
  ghost predicate BelongsIn(item: int, splits: seq<int>, j: nat)
  {
    j <= |splits| && (forall c :: 0 <= c < j ==> item >= splits[c]) && (j < |splits| ==> item < splits[j])
  }

  lemma OneMoreItem(w: nat, count: nat)
    ensures Weighed(w, count + 1) == Weighed(w, count) + w && Weighed(w, 0) == 0
  {
  }

  lemma RankSnoc(s: seq<int>, item: int, x: int)
    ensures Rank(s + [item], x) == Rank(s, x) + if item < x then 1 else 0
  {
    RankConcat(s, [item], x);
    var none: seq<int> := [];
    assert [item][1..] == none;
  }

  lemma PlaceItem(b: seq<nat>, L: seq<seq<int>>, splits: seq<int>, s: seq<int>, w: nat, item: int, j: nat)
    requires Tally(b, L, splits, s, w) && StrictlyIncreasing(splits) && BelongsIn(item, splits, j)
    ensures Tally(b[j := b[j] + w], L, splits, s + [item], w)
  {
    hide Weighed, WeightBelow, Rank, SumTo;
    forall c | 0 <= c <= |splits|
      ensures SumTo(b[j := b[j] + w], c + 1) == WeightBelow(L, splits, c) + Weighed(w, CountBelow(s + [item], splits, c))
    {
      SumAdd(b, j, w, c + 1);
      OneMoreItem(w, CountBelow(s, splits, c));
      if c < |splits| {
        RankSnoc(s, item, splits[c]);
      }
    }
  }

  lemma Grouped(w: nat, a: nat, d: nat)
    ensures Weighed(w, a + d) == Weighed(w, a) + Weighed(w, d)
  {
  }

  lemma {:induction false} NoneBelow(s: seq<int>, x: int)
    requires forall q :: 0 <= q < |s| ==> s[q] >= x
    ensures Rank(s, x) == 0
  {
    if s != [] {
      NoneBelow(s[1..], x);
    }
  }

  /** The items that are left when the buckets have run out all belong in the last one. */
  lemma PlaceRest(b: seq<nat>, L: seq<seq<int>>, splits: seq<int>, s: seq<int>, i: nat, w: nat)
    requires i <= |s| && Tally(b, L, splits, s[..i], w) && forall q, c :: i <= q < |s| && 0 <= c < |splits| ==> s[q] >= splits[c]
    ensures Tally(b[|splits| := b[|splits|] + Weighed(w, |s| - i)], L, splits, s, w)
  {
    hide Weighed, WeightBelow, Rank, SumTo;
    var more := Weighed(w, |s| - i);
    assert s == s[..i] + s[i..];
    forall c | 0 <= c <= |splits|
      ensures SumTo(b[|splits| := b[|splits|] + more], c + 1) == WeightBelow(L, splits, c) + Weighed(w, CountBelow(s, splits, c))
    {
      SumAdd(b, |splits|, more, c + 1);
      Grouped(w, i, |s| - i);
      if c < |splits| {
        RankConcat(s[..i], s[i..], splits[c]);
        NoneBelow(s[i..], splits[c]);
      }
    }
  }

  /** increment_buckets_unsorted_level */
  method IncrementBucketsUnsortedLevel(items: array<int>, from: nat, to: nat, weight: nat, splits: seq<int>, buckets: array<nat>,
                                       ghost L: seq<seq<int>>, ghost s: seq<int>)
    requires Block(items[..], from, s) && to == from + |s| && StrictlyIncreasing(splits) && Tally(buckets[..], L, splits, [], weight)
    modifies buckets
    ensures Tally(buckets[..], L, splits, s, weight)
  {
    hide Tally, Block;
    BlockAt(items[..], from, s);
    TallyLength(buckets[..], L, splits, [], weight);
    assert s[..0] == [];
    for i := from to to
      invariant Tally(buckets[..], L, splits, s[..i - from], weight)
    {
      var j := 0;
      while j < |splits|
        invariant j <= |splits| && forall c :: 0 <= c < j ==> items[i] >= splits[c]
      {
        if items[i] < splits[j] {
          break;
        }
        j := j + 1;
      }
      ghost var b := buckets[..];
      PlaceItem(b, L, splits, s[..i - from], weight, items[i], j);
      assert s[..i - from] + [items[i]] == s[..i + 1 - from];
      buckets[j] := buckets[j] + weight;
      assert buckets[..] == b[j := b[j] + weight];
    }
    assert s[..|s|] == s;
  }

  lemma TallyLength(b: seq<nat>, L: seq<seq<int>>, splits: seq<int>, s: seq<int>, w: nat)
    requires Tally(b, L, splits, s, w)
    ensures |b| == |splits| + 1
  {
  }

  /** increment_buckets_sorted_level: one pass over items and split points together. */
  method IncrementBucketsSortedLevel(items: array<int>, from: nat, to: nat, weight: nat, splits: seq<int>, buckets: array<nat>,
                                     ghost L: seq<seq<int>>, ghost s: seq<int>)
    requires Block(items[..], from, s) && to == from + |s| && Sorted(s) && StrictlyIncreasing(splits) && Tally(buckets[..], L, splits, [], weight)
    modifies buckets
    ensures Tally(buckets[..], L, splits, s, weight)
  {
    hide Tally, Block, Weighed;
    BlockAt(items[..], from, s);
    TallyLength(buckets[..], L, splits, [], weight);
    assert s[..0] == [];
    var i, j := from, 0;
    while i < to && j < |splits|
      invariant from <= i <= to && j <= |splits| && Tally(buckets[..], L, splits, s[..i - from], weight)
      invariant forall q, c :: i - from <= q < |s| && 0 <= c < j ==> s[q] >= splits[c]
    {
      assert s[i - from] == items[i];
      if items[i] < splits[j] {
        ghost var b := buckets[..];
        PlaceItem(b, L, splits, s[..i - from], weight, items[i], j);
        assert s[..i - from] + [items[i]] == s[..i + 1 - from];
        buckets[j] := buckets[j] + weight;
        assert buckets[..] == b[j := b[j] + weight];
        i := i + 1;
      } else {
        j := j + 1;
      }
    }
    if j == |splits| {
      ghost var b := buckets[..];
      PlaceRest(b, L, splits, s, i - from, weight);
      buckets[j] := buckets[j] + Weighed(weight, to - i);
      assert buckets[..] == b[j := b[j] + Weighed(weight, to - i)];
    } else {
      assert s[..|s|] == s;
    }
  }

  lemma TallyStart(b: seq<nat>, splits: seq<int>)
    requires |b| == |splits| + 1 && forall c :: 0 <= c < |b| ==> b[c] == 0
    ensures Tally(b, [], splits, [], 1)
  {
    hide Weighed;
    OneMoreItem(1, 0);
    forall c | 0 <= c <= |splits|
      ensures SumTo(b, c + 1) == WeightBelow([], splits, c)
    {
      SumZero(b, c + 1);
    }
  }

  lemma {:induction false} SumZero(b: seq<nat>, n: nat)
    requires n <= |b| && forall c :: 0 <= c < |b| ==> b[c] == 0
    ensures SumTo(b, n) == 0
  {
    if n > 0 {
      SumZero(b, n - 1);
    }
  }

  /** A finished level becomes one of the lower levels. */
  lemma TallyNext(b: seq<nat>, L: seq<seq<int>>, splits: seq<int>, h: nat, w: nat)
    requires h < |L| && w == Pow2(h) && Tally(b, L[..h], splits, L[h], w)
    ensures Tally(b, L[..h + 1], splits, [], 2 * w) && 2 * w == Pow2(h + 1)
  {
    hide Weighed, WeightedRank, Weight, Rank, SumTo, Pow2;
    OneMoreItem(2 * w, 0);
    WeighLevel(L, h, 0);
    forall c | 0 <= c <= |splits|
      ensures SumTo(b, c + 1) == WeightBelow(L[..h + 1], splits, c) + Weighed(2 * w, CountBelow([], splits, c))
    {
      LevelBelow(L, splits, h, c);
      if c < |splits| {
        RankOfNothing(splits[c]);
      }
    }
  }

  lemma LevelBelow(L: seq<seq<int>>, splits: seq<int>, h: nat, c: nat)
    requires h < |L| && c <= |splits|
    ensures WeightBelow(L[..h + 1], splits, c) == WeightBelow(L[..h], splits, c) + Weighed(Pow2(h), CountBelow(L[h], splits, c))
  {
    hide WeightedRank, Weight, Rank, Pow2;
    if c < |splits| {
      WeighLevel(L, h, splits[c]);
    } else {
      var none: seq<seq<int>> := [];
      WeighConcat(L[..h], [L[h]], 0);
      WeighCons(L[h], none, 0);
      assert L[..h + 1] == L[..h] + [L[h]] && [L[h]] == [L[h]] + none;
      NoLevels();
      ScaleIsProduct(|L[h]|, h);
      Commute(|L[h]|, Pow2(h));
    }
  }

  lemma NoLevels()
    ensures Weight([]) == 0
  {
  }

  /** validate_values: false stands for its exception. */
  method ValidateValues(values: seq<int>) returns (ok: bool)
    ensures ok == StrictlyIncreasing(values)
  {
    for i := 0 to |values|
      invariant forall p, q :: 0 <= p < q <= i < |values| ==> values[p] < values[q]
      invariant forall p, q :: 0 <= p < q < i ==> values[p] < values[q]
    {
      if i < |values| - 1 && !(values[i] < values[i + 1]) {
        return false;
      }
    }
    return true;
  }

  /** The loop of get_PMF_or_CDF over the levels. */
  method FillBuckets(sketch: KllSketch, splits: seq<int>) returns (buckets: array<nat>)
    requires sketch.Valid() && StrictlyIncreasing(splits)
    ensures fresh(buckets) && buckets.Length == |splits| + 1
    ensures forall c :: 0 <= c <= |splits| ==> SumTo(buckets[..], c + 1) == WeightBelow(sketch.L, splits, c)
  {
    hide Sketched, Holds, TotalCapacity, Tally, Pow2, Block, AllSorted, Sorted;
    buckets := new nat[|splits| + 1](_ => 0);
    TallyStart(buckets[..], splits);
    var level, weight := 0, 1;
    FirstWeight();
    ghost var L := sketch.L;
    while level < sketch.numLevels
      invariant level <= sketch.numLevels && weight == Pow2(level) && fresh(buckets) && buckets.Length == |splits| + 1
      invariant Tally(buckets[..], L[..level], splits, [], weight)
    {
      SplitLevels(sketch.items[..], sketch.levels[..], L, level);
      LevelOrder(sketch.k, L, sketch.fed, sketch.err, sketch.isLevelZeroSorted, level);
      if level == 0 && !sketch.isLevelZeroSorted {
        IncrementBucketsUnsortedLevel(sketch.items, sketch.levels[level], sketch.levels[level + 1], weight, splits, buckets, L[..level], L[level]);
      } else {
        IncrementBucketsSortedLevel(sketch.items, sketch.levels[level], sketch.levels[level + 1], weight, splits, buckets, L[..level], L[level]);
      }
      TallyNext(buckets[..], L, splits, level, weight);
      level := level + 1;
      weight := 2 * weight;
    }
    assert L[..|L|] == L;
    TallyEnd(buckets[..], L, splits, weight);
  }

  lemma FirstWeight()
    ensures Pow2(0) == 1
  {
  }

  lemma LevelOrder(k: nat, L: seq<seq<int>>, fed: seq<int>, err: nat, levelZeroSorted: bool, h: nat)
    requires Sketched(k, L, fed, err, levelZeroSorted) && h < |L|
    ensures h > 0 || levelZeroSorted ==> Sorted(L[h])
  {
    hide Sorted, Close, Weight, Pow2, TopNonEmpty;
    if h > 0 {
      assert L[h] == L[1..][h - 1];
    }
  }

  lemma TallyEnd(b: seq<nat>, L: seq<seq<int>>, splits: seq<int>, w: nat)
    requires Tally(b, L, splits, [], w)
    ensures forall c :: 0 <= c <= |splits| ==> SumTo(b, c + 1) == WeightBelow(L, splits, c)
  {
    hide Weighed, WeightBelow;
    OneMoreItem(w, 0);
  }

  /** Whether a query has an answer: none for an empty sketch, an exception for split points out of order. */
  datatype Answer = NoAnswer | BadSplits | Answer(buckets: array<real>)

  /** get_PMF_or_CDF, in real arithmetic: bucket c holds the share of the weight up to split point c, or between it and the one before. */
  method GetPmfOrCdf(sketch: KllSketch, splits: seq<int>, isCdf: bool) returns (answer: Answer)
    requires sketch.Valid()
    ensures answer.NoAnswer? <==> sketch.n == 0
    ensures answer.BadSplits? <==> sketch.n > 0 && !StrictlyIncreasing(splits)
    ensures answer.Answer? ==> fresh(answer.buckets) && answer.buckets.Length == |splits| + 1
    ensures answer.Answer? && isCdf ==> forall c :: 0 <= c <= |splits| ==> answer.buckets[c] == Share(WeightBelow(sketch.L, splits, c), sketch.n)
    ensures answer.Answer? && !isCdf ==> forall c :: 0 <= c <= |splits| ==> answer.buckets[c] == Share(WeightBetween(sketch.L, splits, c), sketch.n)
    ensures answer.Answer? && isCdf ==> answer.buckets[|splits|] == 1.0
    ensures answer.Answer? && isCdf ==>
              forall c :: 0 <= c < |splits| ==> Near(answer.buckets[c], Share(Rank(sketch.fed, splits[c]), sketch.n), Share(sketch.err, sketch.n))
    ensures answer.Answer? && !isCdf ==>
              forall c :: 0 <= c <= |splits| ==> Near(answer.buckets[c], Share(CountBetween(sketch.fed, splits, c), sketch.n), Share((if c > 0 then sketch.err else 0) + (if c < |splits| then sketch.err else 0), sketch.n))
  {
    hide Sketched, WeightBelow, WeightBetween, SumTo, StrictlyIncreasing, Rank, Holds, TotalCapacity, Share;
    if sketch.n == 0 {
      return NoAnswer;
    }
    var ok := ValidateValues(splits);
    if !ok {
      return BadSplits;
    }
    var buckets := FillBuckets(sketch, splits);
    SketchErrors(sketch.k, sketch.L, sketch.fed, sketch.err, sketch.isLevelZeroSorted, splits);
    if isCdf {
      Accumulate(buckets);
      ShareEnds(sketch.n);
      SharesNear(buckets[..], sketch.fed, splits, sketch.err, sketch.n);
    } else {
      Differences(buckets[..], sketch.L, splits);
      MassesNear(sketch.L, sketch.fed, splits, sketch.err, sketch.n);
    }
    var shares := Normalize(buckets, sketch.n);
    return Answer(shares);
  }

  predicate Near(a: real, b: real, e: real) { -e <= a - b <= e }

  lemma SharesNear(b: seq<nat>, fed: seq<int>, splits: seq<int>, err: nat, n: nat)
    requires n > 0 && |b| == |splits| + 1
    requires forall c :: 0 <= c < |splits| ==> -(err as int) <= b[c] - Rank(fed, splits[c]) <= err
    ensures forall c :: 0 <= c < |splits| ==> Near(Share(b[c], n), Share(Rank(fed, splits[c]), n), Share(err, n))
  {
    hide Rank, Share;
    forall c | 0 <= c < |splits|
      ensures Near(Share(b[c], n), Share(Rank(fed, splits[c]), n), Share(err, n))
    {
      ShareClose(b[c], Rank(fed, splits[c]), err, n);
    }
  }

  lemma MassesNear(L: seq<seq<int>>, fed: seq<int>, splits: seq<int>, err: nat, n: nat)
    requires n > 0 && StrictlyIncreasing(splits) && WeightBelow(L, splits, |splits|) == |fed|
    requires forall c :: 0 <= c < |splits| ==> -(err as int) <= WeightBelow(L, splits, c) - Rank(fed, splits[c]) <= err
    ensures forall c :: 0 <= c <= |splits| ==>
              Near(Share(WeightBetween(L, splits, c), n), Share(CountBetween(fed, splits, c), n), Share(EdgeError(splits, c, err), n))
  {
    hide Rank, Share, WeightBelow, StrictlyIncreasing;
    forall c | 0 <= c <= |splits|
      ensures Near(Share(WeightBetween(L, splits, c), n), Share(CountBetween(fed, splits, c), n), Share(EdgeError(splits, c, err), n))
    {
      CountDifference(fed, splits, c);
      ShareClose(WeightBetween(L, splits, c), CountBetween(fed, splits, c), EdgeError(splits, c, err), n);
    }
  }

  /** Divide every bucket by n. */
  method Normalize(weights: array<nat>, n: nat) returns (shares: array<real>)
    requires n > 0
    ensures fresh(shares) && shares.Length == weights.Length && forall c :: 0 <= c < weights.Length ==> shares[c] == Share(weights[c], n)
  {
    shares := new real[weights.Length](_ => 0.0);
    for i := 0 to weights.Length
      invariant forall c :: 0 <= c < i ==> shares[c] == Share(weights[c], n)
    {
      shares[i] := Share(weights[i], n);
    }
  }

  lemma SketchErrors(k: nat, L: seq<seq<int>>, fed: seq<int>, err: nat, levelZeroSorted: bool, splits: seq<int>)
    requires Sketched(k, L, fed, err, levelZeroSorted)
    ensures WeightBelow(L, splits, |splits|) == |fed|
    ensures forall c :: 0 <= c < |splits| ==> -(err as int) <= WeightBelow(L, splits, c) - Rank(fed, splits[c]) <= err
  {
    hide AllSorted, Sorted, TopNonEmpty, Pow2, WeightedRank, Rank;
  }

  lemma Differences(b: seq<nat>, L: seq<seq<int>>, splits: seq<int>)
    requires |b| == |splits| + 1 && forall c :: 0 <= c <= |splits| ==> SumTo(b, c + 1) == WeightBelow(L, splits, c)
    ensures forall c :: 0 <= c <= |splits| ==> b[c] == WeightBetween(L, splits, c)
  {
    hide WeightBelow;
    forall c | 0 <= c <= |splits|
      ensures b[c] == WeightBetween(L, splits, c)
    {
      assert SumTo(b, c + 1) == SumTo(b, c) + b[c];
      assert c > 0 ==> SumTo(b, c - 1 + 1) == WeightBelow(L, splits, c - 1);
    }
  }

  /** Convert to cumulative sums in place. */
  method Accumulate(buckets: array<nat>)
    modifies buckets
    ensures forall c :: 0 <= c < buckets.Length ==> buckets[c] == SumTo(old(buckets[..]), c + 1)
  {
    ghost var b := buckets[..];
    var subtotal := 0;
    for i := 0 to buckets.Length
      invariant subtotal == SumTo(b, i)
      invariant forall c :: 0 <= c < buckets.Length ==> buckets[c] == if c < i then SumTo(b, c + 1) else b[c]
    {
      subtotal := subtotal + buckets[i];
      buckets[i] := subtotal;
    }
  }
}
