/** Whole runs of KLL sketches: every sequence of updates, queries and merges, for every outcome of the random bits. */
module KllRuns {
  import opened Words
  import opened Merges
  import opened Ranks
  import opened KllLevels
  import opened KllBuffers
  import opened KllItems
  import opened KllSketches

  /** How a sketch came about. */
  datatype Script =
    | Make(k: nat)
    | Feed(before: Script, item: int, coin: bool)
    | Query(before: Script)
    | Union(before: Script, other: Script, updateCoins: nat -> bool, coins: nat -> bool)

  predicate Sizes(script: Script)
  {
    match script
    case Make(k) => DEFAULT_M <= k <= 65535
    case Feed(before, _, _) => Sizes(before)
    case Query(before) => Sizes(before)
    case Union(before, other, _, _) => Sizes(before) && Sizes(other)
  }

  /** Every item that reached the sketch. */
  function Stream(script: Script): seq<int>
  {
    match script
    case Make(_) => []
    case Feed(before, item, _) => Stream(before) + [item]
    case Query(before) => Stream(before)
    case Union(before, other, _, _) => Stream(before) + Stream(other)
  }

  datatype State = State(k: nat, L: seq<seq<int>>, levelZeroSorted: bool, err: nat)

  /** The levels a run leaves, and the weights of the levels it compacted, summed. */
  ghost function Outcome(script: Script): (s: State)
    ensures s.L != []
  {
    match script
    case Make(k) => State(k, [[]], false, 0)
    case Feed(before, item, coin) =>
      var s := Outcome(before);
      State(s.k, Updated(s.k, s.L, item, coin), false, s.err + UpdateCost(s.k, s.L))
    case Query(before) =>
      var s := Outcome(before);
      if s.levelZeroSorted then s else State(s.k, SortedZero(s.L), true, s.err)
    case Union(before, other, updateCoins, coins) =>
      var s, o := Outcome(before), Outcome(other);
      MergedNotEmpty(s.k, s.L, o.L, s.levelZeroSorted, updateCoins, coins);
      State(s.k, MergedL(s.k, s.L, o.L, s.levelZeroSorted, updateCoins, coins), s.levelZeroSorted && o.L[0] == [],
            s.err + o.err + MergeCost(s.k, s.L, o.L, s.levelZeroSorted, updateCoins, coins))
  }

  lemma MergedNotEmpty(k: nat, L: seq<seq<int>>, L2: seq<seq<int>>, levelZeroSorted: bool, updateCoins: nat -> bool, coins: nat -> bool)
    requires L != [] && L2 != []
    ensures MergedL(k, L, L2, levelZeroSorted, updateCoins, coins) != []
  {
    hide UpdatedAll, Compress;
    CompressLength(Size(k, DEFAULT_M), JoinStart(k, UpdatedAll(k, L, L2[0], updateCoins), L2, levelZeroSorted && L2[0] == []), coins);
  }

  ghost predicate SketchedState(s: State, fed: seq<int>)
  {
    Sketched(s.k, s.L, fed, s.err, s.levelZeroSorted)
  }

  lemma SketchedUpdated(k: nat, L: seq<seq<int>>, fed: seq<int>, err: nat, levelZeroSorted: bool, value: int, coin: bool)
    requires Sketched(k, L, fed, err, levelZeroSorted) && L != [] && |fed| + 1 < Pow2(MAX_DEPTH + 1)
    ensures Sketched(k, Updated(k, L, value, coin), fed + [value], err + UpdateCost(k, L), false)
  {
    hide Sketched, Population, TotalCapacity, Pow2, Compacted, FirstFull, LevelCapacity;
    if Full(k, L) {
      SomeLevelFull(Size(k, DEFAULT_M), L);
      var h := CompactedLevel(k, L);
      LowestLevelFull(Size(k, DEFAULT_M), L, 0);
      SketchedCompacted(k, L, fed, err, levelZeroSorted, h, coin);
      SketchedInserted(k, Compacted(L, h, coin), fed, err + Pow2(h), false, value);
    } else {
      SketchedInserted(k, L, fed, err, levelZeroSorted, value);
    }
  }

  lemma {:induction false} LowestLevelFull(z: Size, L: seq<seq<int>>, h: nat)
    requires h <= |L| && exists i :: h <= i < |L| && |L[i]| >= LevelCapacity(z.k, |L|, i, z.m)
    ensures h <= FirstFull(z, L, h) < |L| && |L[FirstFull(z, L, h)]| >= z.m
    decreases |L| - h
  {
    hide CapAt;
    if |L[h]| < LevelCapacity(z.k, |L|, h, z.m) {
      LowestLevelFull(z, L, h + 1);
    }
  }

  lemma {:induction false} SketchedUpdatedAll(k: nat, L: seq<seq<int>>, fed: seq<int>, err: nat, levelZeroSorted: bool, s: seq<int>, coins: nat -> bool)
    requires Sketched(k, L, fed, err, levelZeroSorted) && L != [] && |fed| + |s| < Pow2(MAX_DEPTH + 1)
    ensures Sketched(k, UpdatedAll(k, L, s, coins), fed + s, err + UpdateAllCost(k, L, s, coins), levelZeroSorted && s == [])
    decreases |s|
  {
    hide Sketched, Updated, UpdateCost, Pow2;
    if s == [] {
      assert fed + s == fed;
    } else {
      var n := |s| - 1;
      SketchedUpdatedAll(k, L, fed, err, levelZeroSorted, s[..n], coins);
      SketchedUpdated(k, UpdatedAll(k, L, s[..n], coins), fed + s[..n], err + UpdateAllCost(k, L, s[..n], coins), levelZeroSorted && s[..n] == [], s[n], coins(n));
      assert fed + s[..n] + [s[n]] == fed + s;
    }
  }

  lemma SketchedMerged(s: State, fed: seq<int>, o: State, fed2: seq<int>, updateCoins: nat -> bool, coins: nat -> bool)
    requires SketchedState(s, fed) && SketchedState(o, fed2) && s.L != [] && o.L != [] && |fed| + |fed2| < Pow2(MAX_DEPTH + 1)
    ensures Sketched(s.k, MergedL(s.k, s.L, o.L, s.levelZeroSorted, updateCoins, coins), fed + fed2,
                     s.err + o.err + MergeCost(s.k, s.L, o.L, s.levelZeroSorted, updateCoins, coins), s.levelZeroSorted && o.L[0] == [])
  {
    hide Sketched, UpdatedAll, UpdateAllCost, Compress, CompressError, Start, Joined, Pow2;
    LevelZeroFits(o.k, o.L, fed2, o.err, o.levelZeroSorted);
    SketchedUpdatedAll(s.k, s.L, fed, s.err, s.levelZeroSorted, o.L[0], updateCoins);
    var L1, err1, flag := UpdatedAll(s.k, s.L, o.L[0], updateCoins), s.err + UpdateAllCost(s.k, s.L, o.L[0], updateCoins), s.levelZeroSorted && o.L[0] == [];
    if |o.L| == 1 {
      SingleLevel(s.k, L1, fed, err1, flag, o.k, o.L, fed2, o.err, o.levelZeroSorted);
    } else {
      SketchedJoined(s.k, L1, fed, err1, flag, o.k, o.L, fed2, o.err, o.levelZeroSorted);
      SketchedCompressed(s.k, Joined(L1, o.L), fed + fed2, err1 + o.err, flag, coins);
    }
  }

  /**
   * For every run and every outcome of the random bits: the weights of the retained items add up to the length of the
   * stream, levels above zero are sorted, and no weighted rank is off by more than the weights of the levels compacted.
   */
  lemma {:induction false} RunSketched(script: Script)
    requires |Stream(script)| < Pow2(MAX_DEPTH + 1)
    ensures SketchedState(Outcome(script), Stream(script))
    decreases script
  {
    hide Sketched, Updated, UpdateCost, MergedL, MergeCost, SortedZero, Pow2;
    match script
    case Make(k) =>
      NothingSketched(k);
    case Feed(before, item, coin) =>
      RunSketched(before);
      var s := Outcome(before);
      SketchedUpdated(s.k, s.L, Stream(before), s.err, s.levelZeroSorted, item, coin);
    case Query(before) =>
      RunSketched(before);
      var s := Outcome(before);
      if !s.levelZeroSorted {
        SketchedSorted(s.k, s.L, Stream(before), s.err);
      }
    case Union(before, other, updateCoins, coins) =>
      RunSketched(before);
      RunSketched(other);
      SketchedMerged(Outcome(before), Stream(before), Outcome(other), Stream(other), updateCoins, coins);
  }

  lemma NothingSketched(k: nat)
    ensures Sketched(k, [[]], [], 0, false)
  {
    var empty: seq<int>, none: seq<seq<int>> := [], [];
    assert [empty][1..] == none;
    Pow2Monotone(1, MAX_DEPTH + 1);
  }

  /** The error of a run, spelled out. */
  lemma RunRank(script: Script, x: int)
    requires |Stream(script)| < Pow2(MAX_DEPTH + 1)
    ensures -(Outcome(script).err as int) <= WeightedRank(Outcome(script).L, x) - Rank(Stream(script), x) <= Outcome(script).err
    ensures Weight(Outcome(script).L) == |Stream(script)| && |Outcome(script).L| <= UbOnNumLevels(|Stream(script)|)
  {
    hide Outcome, Pow2, Weight, WeightedRank, Rank, UbOnNumLevels, AllSorted, Sorted;
    RunSketched(script);
    CloseAt(Outcome(script).L, Stream(script), Outcome(script).err, x);
    LevelsFit(Outcome(script).L);
  }

  /** No merge of the run takes in, while the sketch is empty, a non-empty sketch that has nothing at level zero. */
  ghost predicate Noted(script: Script)
  {
    match script
    case Make(_) => true
    case Feed(before, _, _) => Noted(before)
    case Query(before) => Noted(before)
    case Union(before, other, _, _) =>
      Noted(before) && Noted(other) && (Stream(other) == [] || Stream(before) != [] || Outcome(other).L[0] != [])
  }

  /** The extreme values of the run stay unset: it, or the run it continues, has merged a non-empty sketch with nothing at level zero into an empty one. */
  ghost predicate Lost(script: Script)
  {
    match script
    case Make(_) => false
    case Feed(before, _, _) => Lost(before)
    case Query(before) => Lost(before)
    case Union(before, other, _, _) => Lost(before) || (Stream(other) != [] && Stream(before) == [] && Outcome(other).L[0] == [])
  }

  /** The items of a run that its extreme values account for: of a sketch merged in that has lost them, only those at level zero. */
  ghost function NotedItems(script: Script): seq<int>
  {
    match script
    case Make(_) => []
    case Feed(before, item, _) => NotedItems(before) + [item]
    case Query(before) => NotedItems(before)
    case Union(before, other, _, _) =>
      NotedItems(before) + Outcome(other).L[0] + (if Lost(other) || Stream(other) == [] then [] else NotedItems(other))
  }

  /** The sketch that a run builds, in its packed buffer, is the one described by Outcome. */
  method Build(script: Script) returns (sketch: KllSketch)
    requires Sizes(script) && |Stream(script)| < Pow2(MAX_DEPTH + 1)
    ensures fresh(sketch) && fresh(sketch.items) && fresh(sketch.levels) && sketch.Valid() && sketch.fed == Stream(script)
    ensures State(sketch.k, sketch.L, sketch.isLevelZeroSorted, sketch.err) == Outcome(script)
    ensures Noted(script) ==> sketch.Extremes()
    ensures sketch.Noting() && sketch.noted == NotedItems(script) && sketch.lost == Lost(script)
    ensures IsLeast(sketch.minValue, Stream(script)) && IsGreatest(sketch.maxValue, Stream(script)) <==> !Lost(script) && Spans(NotedItems(script), Stream(script))
    decreases script
  {
    hide Sketched, Holds, TotalCapacity, Updated, UpdateCost, MergedL, MergeCost, SortedZero, Pow2, Drawn, IsLeast, IsGreatest, NotedExtremes, Spans;
    match script {
      case Make(k) =>
        sketch := new KllSketch(k);
      case Feed(before, item, coin) =>
        sketch := Build(before);
        sketch.Update(item, coin);
      case Query(before) =>
        sketch := Build(before);
        sketch.SortLevelZero();
      case Union(before, other, updateCoins, coins) =>
        sketch := Build(before);
        var that := Build(other);
        sketch.Merge(that, updateCoins, coins);
    }
    NotedIff(sketch.minValue, sketch.maxValue, sketch.fed, sketch.noted, sketch.lost);
  }

  // ---- a merge that loses the minimum and the maximum ----

  /** With k equal to the smallest level width every level has room for 8 items. */
  lemma SmallCapacity(numLevels: nat)
    requires 1 <= numLevels <= 2
    ensures TotalCapacity(8, DEFAULT_M, numLevels) == 8 * numLevels
    ensures forall d :: 0 <= d < numLevels ==> CapAt(8, DEFAULT_M, d) == 8
  {
    hide CapAt;
    SmallCap(0);
    SmallCap(1);
    assert TotalCapacity(8, DEFAULT_M, 1) == TotalCapacity(8, DEFAULT_M, 0) + CapAt(8, DEFAULT_M, 0);
    assert TotalCapacity(8, DEFAULT_M, 2) == TotalCapacity(8, DEFAULT_M, 1) + CapAt(8, DEFAULT_M, 1);
  }

  lemma SmallCap(d: nat)
    ensures CapAt(8, DEFAULT_M, d) == 8
  {
    hide IntCapAux;
    IntCapBelow(8, d);
  }

  /** Two levels of a and b items. */
  predicate Shape(L: seq<seq<int>>, a: nat, b: nat)
  {
    |L| == 2 && |L[0]| == a && |L[1]| == b
  }

  lemma SmallPopulation(L: seq<seq<int>>)
    ensures |L| == 1 ==> Population(L) == |L[0]|
    ensures |L| == 2 ==> Population(L) == |L[0]| + |L[1]|
  {
    if |L| == 2 {
      assert L[1..][1..] == [];
    }
  }

  lemma FillOne(L: seq<seq<int>>, value: int, coin: bool)
    requires |L| == 1 && |L[0]| <= 8
    ensures |L[0]| < 8 ==> |Updated(8, L, value, coin)| == 1 && |Updated(8, L, value, coin)[0]| == |L[0]| + 1
    ensures |L[0]| == 8 ==> Shape(Updated(8, L, value, coin), 1, 4)
  {
    hide TotalCapacity, CapAt;
    SmallCapacity(1);
    SmallPopulation(L);
  }

  lemma FillTwo(L: seq<seq<int>>, a: nat, value: int, coin: bool)
    requires Shape(L, a, 4) && a < 12
    ensures Shape(Updated(8, L, value, coin), a + 1, 4)
  {
    hide TotalCapacity, CapAt;
    SmallCapacity(2);
    SmallPopulation(L);
  }

  /** Feed a sketch of the smallest size 8 + a items. */
  method FeedShape(a: nat) returns (sketch: KllSketch)
    requires 1 <= a <= 8
    ensures fresh(sketch) && fresh(sketch.items) && fresh(sketch.levels) && sketch.Valid() && sketch.Extremes()
    ensures sketch.k == 8 && Shape(sketch.L, a, 4) && |sketch.fed| == 8 + a && !sketch.isLevelZeroSorted
  {
    hide Sketched, Holds, TotalCapacity, Updated, UpdateCost, Drawn, IsLeast, IsGreatest;
    Long();
    sketch := new KllSketch(8);
    for i := 0 to 8
      invariant fresh(sketch) && fresh(sketch.items) && fresh(sketch.levels) && sketch.Valid() && sketch.Extremes() && sketch.k == 8
      invariant |sketch.L| == 1 && |sketch.L[0]| == i == |sketch.fed| && !sketch.isLevelZeroSorted
    {
      FillOne(sketch.L, i, false);
      sketch.Update(i, false);
    }
    FillOne(sketch.L, 8, false);
    sketch.Update(8, false);
    for i := 1 to a
      invariant fresh(sketch) && fresh(sketch.items) && fresh(sketch.levels) && sketch.Valid() && sketch.Extremes() && sketch.k == 8
      invariant Shape(sketch.L, i, 4) && |sketch.fed| == 8 + i && !sketch.isLevelZeroSorted
    {
      FillTwo(sketch.L, i, 8 + i, false);
      sketch.Update(8 + i, false);
    }
  }

  lemma Long()
    ensures Pow2(MAX_DEPTH + 1) >= 256
  {
    assert Pow2(8) == 256;
    Pow2Monotone(8, MAX_DEPTH + 1);
  }

  /** Merging two more items at level zero, and four above, empties level zero of a sketch of 6 and 4. */
  lemma MergeEmptiesZero(L: seq<seq<int>>, L2: seq<seq<int>>, updateCoins: nat -> bool, coins: nat -> bool)
    requires Shape(L, 6, 4) && Shape(L2, 2, 4)
    ensures MergedL(8, L, L2, false, updateCoins, coins) != [] && MergedL(8, L, L2, false, updateCoins, coins)[0] == []
  {
    hide TotalCapacity, CapAt, Updated, Merge, Above, Leftover;
    var s := L2[0];
    assert s[..0] == [] && s[..2] == s;
    UpdatedNext(8, L, s, 0, updateCoins);
    UpdatedNext(8, L, s, 1, updateCoins);
    FillTwo(L, 6, s[0], updateCoins(0));
    FillTwo(UpdatedAll(8, L, s[..1], updateCoins), 7, s[1], updateCoins(1));
    CompressEmptiesZero(UpdatedAll(8, L, s, updateCoins), L2, coins);
  }

  lemma CompressEmptiesZero(L: seq<seq<int>>, L2: seq<seq<int>>, coins: nat -> bool)
    requires Shape(L, 8, 4) && Shape(L2, 2, 4)
    ensures JoinedUp(8, L, L2, false, coins) != [] && JoinedUp(8, L, L2, false, coins)[0] == []
  {
    hide TotalCapacity, CapAt, Merge;
    SmallCapacity(2);
    var J := Joined(L, L2);
    assert |J| == 2 && |J[0]| == 8 && |J[1]| == 8;
    SmallPopulation(J);
    var z, t := Size(8, DEFAULT_M), Start(Size(8, DEFAULT_M), J, false);
    assert !Keeps(z, t) && Kept(z, t) == [];
  }

  /** A sketch of 24 items, and its merge into a new sketch, which accounts for all of the items but knows neither minimum nor maximum. */
  method ExtremesLost(updateCoins: nat -> bool, coins: nat -> bool) returns (sketch: KllSketch)
    ensures sketch.Valid() && |sketch.fed| == 24 && !IsLeast(sketch.minValue, sketch.fed) && !IsGreatest(sketch.maxValue, sketch.fed)
  {
    hide Sketched, Holds, TotalCapacity, MergedL, MergeCost, Drawn, IsLeast, IsGreatest;
    Long();
    var first := FeedShape(6);
    var second := FeedShape(2);
    MergeEmptiesZero(first.L, second.L, updateCoins, coins);
    first.Merge(second, updateCoins, coins);
    sketch := new KllSketch(8);
    sketch.Merge(first, updateCoins, coins);
  }
}
