/** The KLL sketch: kll/include/kll_sketch.hpp. */
module KllSketches {
  import opened Words
  import opened Merges
  import opened Ranks
  import opened KllLevels
  import opened KllBuffers
  import opened KllItems
  import opened KllQuantiles

  const DEFAULT_M: nat := 8

  // ---- weights of concatenated and joined levels ----

  lemma {:induction false} WeighConcat(P: seq<seq<int>>, X: seq<seq<int>>, x: int)
    ensures Weight(P + X) == Weight(P) + Scale(Weight(X), |P|)
    ensures WeightedRank(P + X, x) == WeightedRank(P, x) + Scale(WeightedRank(X, x), |P|)
    ensures Population(P + X) == Population(P) + Population(X)
  {
    if P == [] {
      assert P + X == X;
    } else {
      assert (P + X)[1..] == P[1..] + X;
      WeighConcat(P[1..], X, x);
      ScaleSum(Weight(P[1..]), Scale(Weight(X), |P| - 1), 1);
    }
  }

  /** Levels of two sketches, merged level by level. */
  function Join(A: seq<seq<int>>, B: seq<seq<int>>): (J: seq<seq<int>>)
    ensures |J| == if |A| < |B| then |B| else |A|
  {
    if A == [] then B else if B == [] then A else [Merge(A[0], B[0])] + Join(A[1..], B[1..])
  }

  lemma {:induction false} WeighJoin(A: seq<seq<int>>, B: seq<seq<int>>, x: int)
    ensures Weight(Join(A, B)) == Weight(A) + Weight(B)
    ensures WeightedRank(Join(A, B), x) == WeightedRank(A, x) + WeightedRank(B, x)
    ensures Population(Join(A, B)) == Population(A) + Population(B)
  {
    if A != [] && B != [] {
      hide Rank, Merge;
      WeighJoin(A[1..], B[1..], x);
      RankMerge(A[0], B[0], x);
      WeighCons(Merge(A[0], B[0]), Join(A[1..], B[1..]), x);
      WeighSplit(A, x);
      WeighSplit(B, x);
    }
  }

  lemma {:induction false} JoinSorted(A: seq<seq<int>>, B: seq<seq<int>>)
    requires AllSorted(A) && AllSorted(B)
    ensures AllSorted(Join(A, B))
  {
    if A != [] && B != [] {
      hide Sorted;
      JoinSorted(A[1..], B[1..]);
      MergeSorted(A[0], B[0]);
      var J := Join(A, B);
      forall h | 0 <= h < |J|
        ensures Sorted(J[h])
      {
        if h > 0 {
          assert J[h] == Join(A[1..], B[1..])[h - 1];
        }
      }
    }
  }

  lemma {:induction false} JoinTop(A: seq<seq<int>>, B: seq<seq<int>>)
    requires TopNonEmpty(A) && TopNonEmpty(B)
    ensures TopNonEmpty(Join(A, B))
  {
    if A != [] && B != [] {
      JoinTop(A[1..], B[1..]);
    }
  }

  // ---- bounds on the number of levels ----

  /** ub_on_num_levels: the number of binary digits of n, but at least one. */
  function UbOnNumLevels(n: nat): (ub: nat)
    ensures ub >= 1 && n < Pow2(ub) && (n > 0 ==> Pow2(ub - 1) <= n)
  {
    if n <= 1 then 1 else 1 + UbOnNumLevels(n / 2)
  }

  /** floor_of_log2_of_fraction for a denominator of one. */
  method FloorOfLog2(numer: nat) returns (count: nat)
    requires numer >= 1
    ensures Pow2(count) <= numer < Pow2(count + 1)
  {
    var denom := 1;
    count := 0;
    while true
      invariant denom == Pow2(count) <= numer
      decreases numer - denom
    {
      denom := 2 * denom;
      if denom > numer {
        return;
      }
      count := count + 1;
    }
  }

  /** ub_on_num_levels */
  method ComputeUbOnNumLevels(n: nat) returns (ub: nat)
    ensures ub == UbOnNumLevels(n)
  {
    if n == 0 {
      return 1;
    }
    var log := FloorOfLog2(n);
    ub := 1 + log;
    UbIs(n, ub);
  }

  lemma UbIs(n: nat, ub: nat)
    requires ub >= 1 && Pow2(ub - 1) <= n < Pow2(ub)
    ensures UbOnNumLevels(n) == ub
  {
    var v := UbOnNumLevels(n);
    if v < ub {
      Pow2Monotone(v, ub - 1);
    } else if ub < v {
      Pow2Monotone(ub, v - 1);
    }
  }

  /** Levels up to a non-empty one weigh enough for ub_on_num_levels to count them. */
  lemma LevelsFit(L: seq<seq<int>>)
    requires L != [] && (|L| > 1 ==> TopNonEmpty(L))
    ensures |L| <= UbOnNumLevels(Weight(L))
  {
    if |L| > 1 {
      TopWeight(L, 1);
      ScaleOne(|L| - 1);
      if UbOnNumLevels(Weight(L)) < |L| {
        Pow2Monotone(UbOnNumLevels(Weight(L)), |L| - 1);
      }
    }
  }

  lemma UbMonotone(n: nat, ub: nat)
    requires n < Pow2(ub) && ub >= 1
    ensures UbOnNumLevels(n) <= ub
  {
    if UbOnNumLevels(n) > ub && n > 0 {
      Pow2Monotone(ub, UbOnNumLevels(n) - 1);
    }
  }

  // ---- rank error ----

  /** The levels estimate every rank in the stream up to err. */
  ghost predicate Close(L: seq<seq<int>>, fed: seq<int>, err: nat)
  {
    forall x :: -(err as int) <= WeightedRank(L, x) - Rank(fed, x) <= err
  }

  // ---- compaction while updating ----

  /** What compress_while_updating makes of the levels when it compacts level h. */
  function Compacted(L: seq<seq<int>>, h: nat, coin: bool): (r: seq<seq<int>>)
    requires h < |L|
    ensures |r| == if h == |L| - 1 then |L| + 1 else |L|
  {
    var rest := if h == |L| - 1 then [L[h], []] else L[h..];
    L[..h] + [Leftover(L[h])] + Above(rest, h > 0, coin)
  }

  lemma CompactedRest(L: seq<seq<int>>, h: nat, coin: bool, x: int)
    requires h < |L| && AllSorted(L[1..])
    ensures var r := [Leftover(L[h])] + Above(if h == |L| - 1 then [L[h], []] else L[h..], h > 0, coin);
            Compacted(L, h, coin) == L[..h] + r && Weight(r) == Weight(L[h..]) && Population(r) == Population(L[h..]) - |L[h]| / 2 &&
            -1 <= WeightedRank(r, x) - WeightedRank(L[h..], x) <= 1
  {
    var rest := if h == |L| - 1 then [L[h], []] else L[h..];
    var above := Above(rest, h > 0, coin);
    assert h > 0 ==> L[h] == L[1..][h - 1];
    WeighAbove(rest, h > 0, coin, x);
    WeighCons(Leftover(L[h]), above, x);
    assert L[..h] + [Leftover(L[h])] + above == L[..h] + ([Leftover(L[h])] + above);
    if h == |L| - 1 {
      assert L[h..] == [L[h]];
      EmptyTop(L[h], x);
    } else {
      WeighSplit(L[h..], x);
    }
  }

  lemma EmptyTop(s: seq<int>, x: int)
    ensures Weight([s, []]) == |s| == Weight([s]) && Population([s, []]) == |s| == Population([s])
    ensures WeightedRank([s, []], x) == Rank(s, x) == WeightedRank([s], x)
  {
    var none: seq<seq<int>>, empty: seq<int> := [], [];
    WeighCons(s, [empty], x);
    WeighCons(s, none, x);
    WeighCons(empty, none, x);
    assert [s, empty] == [s] + [empty] && [s] == [s] + none && [empty] == [empty] + none;
  }

  /** One compaction while updating conserves the weight and moves no rank by more than the weight of its level. */
  lemma CompactedRank(L: seq<seq<int>>, h: nat, coin: bool, x: int)
    requires h < |L| && AllSorted(L[1..])
    ensures Weight(Compacted(L, h, coin)) == Weight(L)
    ensures Population(Compacted(L, h, coin)) == Population(L) - |L[h]| / 2
    ensures -(Pow2(h) as int) <= WeightedRank(Compacted(L, h, coin), x) - WeightedRank(L, x) <= Pow2(h)
  {
    hide Weight, WeightedRank, Population, AllSorted, Rank, Compacted, Above, Leftover, Scale, Pow2;
    var rest := if h == |L| - 1 then [L[h], []] else L[h..];
    var r := [Leftover(L[h])] + Above(rest, h > 0, coin);
    CompactedRest(L, h, coin, x);
    WeighConcat(L[..h], r, x);
    WeighConcat(L[..h], L[h..], x);
    assert L == L[..h] + L[h..];
    ScaleClose(WeightedRank(r, x), WeightedRank(L[h..], x), h);
  }

  lemma ScaleClose(v: nat, w: nat, n: nat)
    requires -1 <= v - w <= 1
    ensures -(Pow2(n) as int) <= Scale(v, n) - Scale(w, n) <= Pow2(n)
  {
    ScaleOne(n);
    if v < w {
      ScaleSum(v, 1, n);
    } else if v > w {
      ScaleSum(w, 1, n);
    }
  }

  lemma CompactedSorted(L: seq<seq<int>>, h: nat, coin: bool)
    requires h < |L| && AllSorted(L[1..])
    ensures AllSorted(Compacted(L, h, coin)[1..])
  {
    hide Sorted, Above, Leftover;
    var rest := if h == |L| - 1 then [L[h], []] else L[h..];
    assert h > 0 ==> L[h] == L[1..][h - 1];
    RestSorted(L, h);
    AboveSorted(rest, h > 0, coin);
    LeftoverSorted(L[h]);
    var r := Compacted(L, h, coin);
    forall i | 0 <= i < |r| - 1
      ensures Sorted(r[1..][i])
    {
      if i + 1 < h {
        assert r[1..][i] == L[1..][i];
      } else if i + 1 > h {
        assert r[1..][i] == Above(rest, h > 0, coin)[i - h];
      }
    }
  }

  lemma RestSorted(L: seq<seq<int>>, h: nat)
    requires h < |L| && AllSorted(L[1..])
    ensures AllSorted((if h == |L| - 1 then [L[h], []] else L[h..])[1..])
  {
    hide Sorted;
    NothingSorted();
    var rest := if h == |L| - 1 then [L[h], []] else L[h..];
    forall i | 0 <= i < |rest| - 1
      ensures Sorted(rest[1..][i])
    {
      if h < |L| - 1 {
        assert rest[1..][i] == L[1..][h + i];
      }
    }
  }

  lemma LeftoverSorted(level: seq<int>)
    ensures Sorted(Leftover(level))
  {
  }

  lemma CompactedTop(L: seq<seq<int>>, h: nat, coin: bool)
    requires h < |L| && |L[h]| >= 2 && (|L| > 1 ==> TopNonEmpty(L))
    ensures TopNonEmpty(Compacted(L, h, coin))
  {
    hide Leftover, Promoted, Compactable;
    var rest := if h == |L| - 1 then [L[h], []] else L[h..];
    var above := Above(rest, h > 0, coin);
    assert above[|above| - 1] != [];
  }

  // ---- what updates and merges do to the estimate of ranks ----

  lemma CloseCompacted(L: seq<seq<int>>, fed: seq<int>, err: nat, h: nat, coin: bool)
    requires Close(L, fed, err) && h < |L| && AllSorted(L[1..])
    ensures Close(Compacted(L, h, coin), fed, err + Pow2(h))
  {
    hide WeightedRank, Rank, Pow2, Compacted, AllSorted;
    forall x: int
      ensures -((err + Pow2(h)) as int) <= WeightedRank(Compacted(L, h, coin), x) - Rank(fed, x) <= err + Pow2(h)
    {
      CompactedRank(L, h, coin, x);
    }
  }

  /** The levels with one more item at level zero. */
  function Inserted(L: seq<seq<int>>, value: int): (r: seq<seq<int>>)
    requires L != []
  {
    [[value] + L[0]] + L[1..]
  }

  lemma WeighInserted(L: seq<seq<int>>, value: int, x: int)
    requires L != []
    ensures Weight(Inserted(L, value)) == Weight(L) + 1
    ensures WeightedRank(Inserted(L, value), x) == WeightedRank(L, x) + if value < x then 1 else 0
  {
    WeighCons([value] + L[0], L[1..], x);
    RankConcat([value], L[0], x);
    WeighSplit(L, x);
    assert [value][1..] == [];
  }

  lemma CloseInserted(L: seq<seq<int>>, fed: seq<int>, err: nat, value: int)
    requires L != [] && Close(L, fed, err)
    ensures Close(Inserted(L, value), fed + [value], err)
  {
    hide WeightedRank, Inserted;
    forall x: int
      ensures -(err as int) <= WeightedRank(Inserted(L, value), x) - Rank(fed + [value], x) <= err
    {
      WeighInserted(L, value, x);
      RankConcat(fed, [value], x);
      assert [value][1..] == [];
    }
  }

  lemma CloseCompressed(z: Size, L: seq<seq<int>>, sorted: bool, coins: nat -> bool, fed: seq<int>, err: nat)
    requires z.m >= 2 && L != [] && AllSorted(L[1..]) && (sorted ==> Sorted(L[0])) && Close(L, fed, err)
    ensures var t := Start(z, L, sorted);
            Ready(z, t) && Close(Compress(z, t, coins), fed, err + CompressError(z, t, coins)) && Weight(Compress(z, t, coins)) == Weight(L)
  {
    hide Compress, CompressError, WeightedRank, Rank, InOrder, AllSorted, Sorted, Start, Weight;
    var t := Start(z, L, sorted);
    StartInOrder(z, L, sorted);
    forall x: int
      ensures -((err + CompressError(z, t, coins)) as int) <= WeightedRank(Compress(z, t, coins), x) - Rank(fed, x) <= err + CompressError(z, t, coins)
    {
      CompressRank(z, t, coins, x);
    }
    CompressRank(z, t, coins, 0);
  }

  lemma StartInOrder(z: Size, L: seq<seq<int>>, sorted: bool)
    requires z.m >= 2 && L != [] && AllSorted(L[1..]) && (sorted ==> Sorted(L[0]))
    ensures var t := Start(z, L, sorted); Ready(z, t) && InOrder(t) && t.rest == L && t.sorted == sorted
  {
    hide AllSorted, Sorted, TotalCapacity, Population;
  }

  /** The levels of one sketch with the higher levels of another joined in. */
  function Joined(L: seq<seq<int>>, L2: seq<seq<int>>): (r: seq<seq<int>>)
    requires L != [] && L2 != []
    ensures |r| == if |L| < |L2| then |L2| else |L|
  {
    [L[0]] + Join(L[1..], L2[1..])
  }

  lemma WeighJoined(L: seq<seq<int>>, L2: seq<seq<int>>, x: int)
    requires L != [] && L2 != []
    ensures Weight(Joined(L, L2)) + |L2[0]| == Weight(L) + Weight(L2)
    ensures WeightedRank(Joined(L, L2), x) + Rank(L2[0], x) == WeightedRank(L, x) + WeightedRank(L2, x)
    ensures Population(Joined(L, L2)) + |L2[0]| == Population(L) + Population(L2)
  {
    hide Rank, Merge, Join;
    WeighSplit(L, x);
    WeighSplit(L2, x);
    WeighJoin(L[1..], L2[1..], x);
    WeighCons(L[0], Join(L[1..], L2[1..]), x);
  }

  /** Level zero of the other sketch has been fed in item by item; joining its higher levels accounts for all it was fed. */
  lemma CloseJoined(L: seq<seq<int>>, fed: seq<int>, err: nat, L2: seq<seq<int>>, fed2: seq<int>, err2: nat)
    requires L != [] && L2 != [] && Close(L, fed + L2[0], err) && Close(L2, fed2, err2)
    ensures Close(Joined(L, L2), fed + fed2, err + err2)
  {
    hide WeightedRank, Rank, Joined;
    forall x: int
      ensures -((err + err2) as int) <= WeightedRank(Joined(L, L2), x) - Rank(fed + fed2, x) <= err + err2
    {
      WeighJoined(L, L2, x);
      RankConcat(fed, L2[0], x);
      RankConcat(fed, fed2, x);
      assert -(err as int) <= WeightedRank(L, x) - Rank(fed + L2[0], x) <= err;
      assert -(err2 as int) <= WeightedRank(L2, x) - Rank(fed2, x) <= err2;
    }
  }

  lemma JoinedSorted(L: seq<seq<int>>, L2: seq<seq<int>>)
    requires L != [] && L2 != [] && AllSorted(L[1..]) && AllSorted(L2[1..])
    ensures AllSorted(Joined(L, L2)[1..]) && Joined(L, L2)[0] == L[0]
  {
    JoinSorted(L[1..], L2[1..]);
    assert Joined(L, L2)[1..] == Join(L[1..], L2[1..]);
  }

  lemma JoinedTop(L: seq<seq<int>>, L2: seq<seq<int>>)
    requires L != [] && L2 != [] && (|L| > 1 ==> TopNonEmpty(L)) && (|L2| > 1 ==> TopNonEmpty(L2))
    ensures |Joined(L, L2)| > 1 ==> TopNonEmpty(Joined(L, L2))
  {
    JoinTop(L[1..], L2[1..]);
  }

  // ---- the sketch ----

  /** Everything about the levels of a sketch that has been fed `fed`, whatever buffer they are in. */
  ghost predicate Sketched(k: nat, L: seq<seq<int>>, fed: seq<int>, err: nat, levelZeroSorted: bool)
  {
    L != [] && Weight(L) == |fed| && |fed| < Pow2(MAX_DEPTH + 1) && AllSorted(L[1..]) && (levelZeroSorted ==> Sorted(L[0])) &&
    (|L| > 1 ==> TopNonEmpty(L)) && Close(L, fed, err)
  }

  lemma SketchedFits(k: nat, L: seq<seq<int>>, fed: seq<int>, err: nat, levelZeroSorted: bool)
    requires Sketched(k, L, fed, err, levelZeroSorted)
    ensures 1 <= |L| <= MAX_DEPTH + 1
  {
    hide AllSorted, Sorted, Close, TopNonEmpty, Weight;
    LevelsFit(L);
    UbMonotone(|fed|, MAX_DEPTH + 1);
  }

  /** A full level below the top, or at a top that can have another above it, leaves a sketch when it is compacted. */
  lemma SketchedCompacted(k: nat, L: seq<seq<int>>, fed: seq<int>, err: nat, levelZeroSorted: bool, h: nat, coin: bool)
    requires Sketched(k, L, fed, err, levelZeroSorted) && h < |L| && |L[h]| >= 2
    ensures Sketched(k, Compacted(L, h, coin), fed, err + Pow2(h), false)
  {
    hide AllSorted, Sorted, Close, TopNonEmpty, Weight, Compacted;
    CloseCompacted(L, fed, err, h, coin);
    CompactedRank(L, h, coin, 0);
    CompactedSorted(L, h, coin);
    CompactedTop(L, h, coin);
  }

  lemma SketchedInserted(k: nat, L: seq<seq<int>>, fed: seq<int>, err: nat, levelZeroSorted: bool, value: int)
    requires Sketched(k, L, fed, err, levelZeroSorted) && |fed| + 1 < Pow2(MAX_DEPTH + 1)
    ensures Sketched(k, Inserted(L, value), fed + [value], err, false)
  {
    hide Sorted, Close, Weight, Pow2;
    CloseInserted(L, fed, err, value);
    WeighInserted(L, value, 0);
    assert Inserted(L, value)[1..] == L[1..];
  }

  // ---- updates and merges as functions of the levels ----

  /** The lowest level at its capacity, from level h up. */
  function FirstFull(z: Size, L: seq<seq<int>>, h: nat): (r: nat)
    requires h <= |L|
    decreases |L| - h
  {
    if h == |L| || |L[h]| >= LevelCapacity(z.k, |L|, h, z.m) then h else FirstFull(z, L, h + 1)
  }

  lemma {:induction false} FirstFullIs(z: Size, L: seq<seq<int>>, h: nat, level: nat)
    requires h <= level < |L| && |L[level]| >= LevelCapacity(z.k, |L|, level, z.m)
    requires forall i :: h <= i < level ==> |L[i]| < LevelCapacity(z.k, |L|, i, z.m)
    ensures FirstFull(z, L, h) == level
    decreases level - h
  {
    hide LevelCapacity;
    if h < level {
      FirstFullIs(z, L, h + 1, level);
    }
  }

  /** The buffer of a sketch with these levels has no free slot. */
  predicate Full(k: nat, L: seq<seq<int>>) { Population(L) >= TotalCapacity(k, DEFAULT_M, |L|) }

  /** The level that update compacts, if there is no free slot. */
  function CompactedLevel(k: nat, L: seq<seq<int>>): (h: nat) { FirstFull(Size(k, DEFAULT_M), L, 0) }

  /** The levels after an update. */
  function Updated(k: nat, L: seq<seq<int>>, value: int, coin: bool): (r: seq<seq<int>>)
    requires L != []
    ensures r != []
  {
    var h := CompactedLevel(k, L);
    if Full(k, L) && h < |L| then Inserted(Compacted(L, h, coin), value) else Inserted(L, value)
  }

  /** The weight of the level that an update compacts. */
  function UpdateCost(k: nat, L: seq<seq<int>>): nat
  {
    if Full(k, L) then Pow2(CompactedLevel(k, L)) else 0
  }

  function UpdatedAll(k: nat, L: seq<seq<int>>, s: seq<int>, coins: nat -> bool): (r: seq<seq<int>>)
    requires L != []
    ensures r != []
  {
    if s == [] then L
    else
      var n := |s| - 1;
      Updated(k, UpdatedAll(k, L, s[..n], coins), s[n], coins(n))
  }

  function UpdateAllCost(k: nat, L: seq<seq<int>>, s: seq<int>, coins: nat -> bool): nat
    requires L != []
  {
    if s == [] then 0
    else
      var n := |s| - 1;
      UpdateAllCost(k, L, s[..n], coins) + UpdateCost(k, UpdatedAll(k, L, s[..n], coins))
  }

  lemma UpdatedNext(k: nat, L: seq<seq<int>>, s: seq<int>, i: nat, coins: nat -> bool)
    requires L != [] && i < |s|
    ensures UpdatedAll(k, L, s[..i + 1], coins) == Updated(k, UpdatedAll(k, L, s[..i], coins), s[i], coins(i))
    ensures UpdateAllCost(k, L, s[..i + 1], coins) == UpdateAllCost(k, L, s[..i], coins) + UpdateCost(k, UpdatedAll(k, L, s[..i], coins))
  {
    hide Updated, UpdateCost;
    assert s[..i + 1][..i] == s[..i];
  }

  /** Where the compression of a merge begins: the higher levels of the other sketch have been joined in. */
  ghost function JoinStart(k: nat, L: seq<seq<int>>, L2: seq<seq<int>>, levelZeroSorted: bool): (t: Todo)
    requires L != [] && L2 != []
    ensures Ready(Size(k, DEFAULT_M), t)
  {
    Start(Size(k, DEFAULT_M), Joined(L, L2), levelZeroSorted)
  }

  /** The levels with the higher levels of another sketch merged in. */
  ghost function JoinedUp(k: nat, L: seq<seq<int>>, L2: seq<seq<int>>, levelZeroSorted: bool, coins: nat -> bool): (r: seq<seq<int>>)
    requires L != [] && L2 != []
  {
    if |L2| == 1 then L else Compress(Size(k, DEFAULT_M), JoinStart(k, L, L2, levelZeroSorted), coins)
  }

  ghost function JoinCost(k: nat, L: seq<seq<int>>, L2: seq<seq<int>>, levelZeroSorted: bool, coins: nat -> bool): nat
    requires L != [] && L2 != []
  {
    if |L2| == 1 then 0 else CompressError(Size(k, DEFAULT_M), JoinStart(k, L, L2, levelZeroSorted), coins)
  }

  /** The levels after a merge: level zero of the other sketch is fed in, then its higher levels are joined in. */
  ghost function MergedL(k: nat, L: seq<seq<int>>, L2: seq<seq<int>>, levelZeroSorted: bool, updateCoins: nat -> bool, coins: nat -> bool): (r: seq<seq<int>>)
    requires L != [] && L2 != []
  {
    JoinedUp(k, UpdatedAll(k, L, L2[0], updateCoins), L2, levelZeroSorted && L2[0] == [], coins)
  }

  /** The weights of the levels that a merge compacts. */
  ghost function MergeCost(k: nat, L: seq<seq<int>>, L2: seq<seq<int>>, levelZeroSorted: bool, updateCoins: nat -> bool, coins: nat -> bool): nat
    requires L != [] && L2 != []
  {
    UpdateAllCost(k, L, L2[0], updateCoins) + JoinCost(k, UpdatedAll(k, L, L2[0], updateCoins), L2, levelZeroSorted && L2[0] == [], coins)
  }

  /** Items that have room below the capacity of the levels are taken in without a compaction. */
  lemma {:induction false} UpdatedFits(k: nat, L: seq<seq<int>>, s: seq<int>, coins: nat -> bool, x: int)
    requires L != [] && Population(L) + |s| <= TotalCapacity(k, DEFAULT_M, |L|)
    ensures UpdateAllCost(k, L, s, coins) == 0
    ensures var U := UpdatedAll(k, L, s, coins);
            |U| == |L| && Population(U) == Population(L) + |s| && WeightedRank(U, x) == WeightedRank(L, x) + Rank(s, x)
    decreases |s|
  {
    hide TotalCapacity, CompactedLevel, Compacted, Population, WeightedRank, Rank;
    if s == [] {
      RankOfNothing(x);
    } else {
      var n := |s| - 1;
      UpdatedFits(k, L, s[..n], coins, x);
      var U := UpdatedAll(k, L, s[..n], coins);
      WeighInserted(U, s[n], x);
      InsertedPopulation(U, s[n]);
      assert s == s[..n] + [s[n]];
      RankConcat(s[..n], [s[n]], x);
      RankOfOne(s[n], x);
    }
  }

  lemma RankOfOne(value: int, x: int)
    ensures Rank([value], x) == if value < x then 1 else 0
  {
    assert [value][1..] == [];
  }

  lemma InsertedPopulation(L: seq<seq<int>>, value: int)
    requires L != []
    ensures Population(Inserted(L, value)) == Population(L) + 1
  {
    WeighCons([value] + L[0], L[1..], 0);
  }

  /** The levels that a merge joins, before they are compressed. */
  ghost function ToCompress(k: nat, L: seq<seq<int>>, L2: seq<seq<int>>, updateCoins: nat -> bool): (J: seq<seq<int>>)
    requires L != [] && L2 != []
    ensures J != []
  {
    Joined(UpdatedAll(k, L, L2[0], updateCoins), L2)
  }

  /** The joined levels are left as they are, at no error beyond that of the updates, exactly when they fit. */
  lemma MergeFitsIff(k: nat, L: seq<seq<int>>, L2: seq<seq<int>>, levelZeroSorted: bool, updateCoins: nat -> bool, coins: nat -> bool)
    requires L != [] && |L2| > 1
    ensures var J := ToCompress(k, L, L2, updateCoins);
            (MergedL(k, L, L2, levelZeroSorted, updateCoins, coins) == J <==> Population(J) < TotalCapacity(k, DEFAULT_M, |J|)) &&
            (MergeCost(k, L, L2, levelZeroSorted, updateCoins, coins) == UpdateAllCost(k, L, L2[0], updateCoins) <==>
             Population(J) < TotalCapacity(k, DEFAULT_M, |J|))
  {
    hide Compress, CompressError, TotalCapacity, Joined, UpdatedAll, UpdateAllCost;
    CompressIff(Size(k, DEFAULT_M), ToCompress(k, L, L2, updateCoins), levelZeroSorted && L2[0] == [], coins);
  }

  /** The items of both sketches have room together, and those at level zero of the other one in the levels that are there. */
  ghost predicate FitTogether(k: nat, L: seq<seq<int>>, L2: seq<seq<int>>)
    requires L2 != []
  {
    Population(L) + |L2[0]| <= TotalCapacity(k, DEFAULT_M, |L|) &&
    (|L2| > 1 ==> Population(L) + Population(L2) < TotalCapacity(k, DEFAULT_M, if |L| < |L2| then |L2| else |L|))
  }

  /** There are as many items as in both, and no weighted rank is lost. */
  ghost predicate AddsUp(r: seq<seq<int>>, L: seq<seq<int>>, L2: seq<seq<int>>)
  {
    Population(r) == Population(L) + Population(L2) && forall x :: WeightedRank(r, x) == WeightedRank(L, x) + WeightedRank(L2, x)
  }

  /** Then nothing is compacted: every item stays, at its weight. */
  lemma MergeKeepsAll(k: nat, L: seq<seq<int>>, L2: seq<seq<int>>, levelZeroSorted: bool, updateCoins: nat -> bool, coins: nat -> bool, x: int)
    requires L != [] && L2 != [] && FitTogether(k, L, L2)
    ensures MergeCost(k, L, L2, levelZeroSorted, updateCoins, coins) == 0
    ensures var r := MergedL(k, L, L2, levelZeroSorted, updateCoins, coins);
            Population(r) == Population(L) + Population(L2) && WeightedRank(r, x) == WeightedRank(L, x) + WeightedRank(L2, x)
  {
    hide Compress, CompressError, TotalCapacity, Joined, UpdatedAll, UpdateAllCost, Population, WeightedRank, Rank, MergedL, MergeCost;
    UpdatedFits(k, L, L2[0], updateCoins, x);
    WeighJoined(UpdatedAll(k, L, L2[0], updateCoins), L2, x);
    if |L2| > 1 {
      MergeFitsIff(k, L, L2, levelZeroSorted, updateCoins, coins);
    } else {
      MergeOneLevel(k, L, L2, levelZeroSorted, updateCoins, coins, x);
    }
  }

  lemma MergeAddsUp(k: nat, L: seq<seq<int>>, L2: seq<seq<int>>, levelZeroSorted: bool, updateCoins: nat -> bool, coins: nat -> bool)
    requires L != [] && L2 != []
    ensures FitTogether(k, L, L2) ==>
              MergeCost(k, L, L2, levelZeroSorted, updateCoins, coins) == 0 &&
              AddsUp(MergedL(k, L, L2, levelZeroSorted, updateCoins, coins), L, L2)
  {
    hide MergedL, MergeCost, Population, WeightedRank, FitTogether;
    if FitTogether(k, L, L2) {
      forall x: int
        ensures MergeCost(k, L, L2, levelZeroSorted, updateCoins, coins) == 0
        ensures var r := MergedL(k, L, L2, levelZeroSorted, updateCoins, coins);
                Population(r) == Population(L) + Population(L2) && WeightedRank(r, x) == WeightedRank(L, x) + WeightedRank(L2, x)
      {
        MergeKeepsAll(k, L, L2, levelZeroSorted, updateCoins, coins, x);
      }
      MergeKeepsAll(k, L, L2, levelZeroSorted, updateCoins, coins, 0);
    }
  }

  lemma MergeOneLevel(k: nat, L: seq<seq<int>>, L2: seq<seq<int>>, levelZeroSorted: bool, updateCoins: nat -> bool, coins: nat -> bool, x: int)
    requires L != [] && |L2| == 1
    ensures MergedL(k, L, L2, levelZeroSorted, updateCoins, coins) == UpdatedAll(k, L, L2[0], updateCoins)
    ensures MergeCost(k, L, L2, levelZeroSorted, updateCoins, coins) == UpdateAllCost(k, L, L2[0], updateCoins)
    ensures Population(L2) == |L2[0]| && WeightedRank(L2, x) == Rank(L2[0], x)
  {
    hide UpdatedAll, UpdateAllCost, Rank;
  }

  // ---- retained items are items of the stream ----

  lemma DrawnCompacted(L: seq<seq<int>>, h: nat, coin: bool, fed: seq<int>)
    requires h < |L| && Drawn(L, fed)
    ensures Drawn(Compacted(L, h, coin), fed)
  {
    hide From, Above, Leftover;
    var rest := if h == |L| - 1 then [L[h], []] else L[h..];
    FromNothing(fed);
    DrawnAbove(rest, h > 0, coin, fed);
    DrawnConcat(L[..h], [Leftover(L[h])], fed);
    DrawnConcat(L[..h] + [Leftover(L[h])], Above(rest, h > 0, coin), fed);
  }

  lemma DrawnInserted(L: seq<seq<int>>, value: int, fed: seq<int>)
    requires L != [] && Drawn(L, fed)
    ensures Drawn(Inserted(L, value), fed + [value])
  {
    DrawnMore(L, fed, [value]);
  }

  lemma DrawnUpdated(k: nat, L: seq<seq<int>>, fed: seq<int>, value: int, coin: bool)
    requires L != [] && Drawn(L, fed)
    ensures Drawn(Updated(k, L, value, coin), fed + [value])
  {
    hide Drawn, Compacted, Inserted, FirstFull;
    if CompactedLevel(k, L) < |L| {
      DrawnCompacted(L, CompactedLevel(k, L), coin, fed);
      DrawnInserted(Compacted(L, CompactedLevel(k, L), coin), value, fed);
    }
    DrawnInserted(L, value, fed);
  }

  lemma {:induction false} DrawnUpdatedAll(k: nat, L: seq<seq<int>>, fed: seq<int>, s: seq<int>, coins: nat -> bool)
    requires L != [] && Drawn(L, fed)
    ensures Drawn(UpdatedAll(k, L, s, coins), fed + s)
    decreases |s|
  {
    hide Drawn, Updated;
    if s == [] {
      assert fed + s == fed;
    } else {
      var n := |s| - 1;
      DrawnUpdatedAll(k, L, fed, s[..n], coins);
      DrawnUpdated(k, UpdatedAll(k, L, s[..n], coins), fed + s[..n], s[n], coins(n));
      assert fed + s[..n] + [s[n]] == fed + s;
    }
  }

  lemma {:induction false} DrawnJoin(A: seq<seq<int>>, B: seq<seq<int>>, fed: seq<int>)
    requires Drawn(A, fed) && Drawn(B, fed)
    ensures Drawn(Join(A, B), fed)
  {
    hide From, Merge;
    if A != [] && B != [] {
      DrawnJoin(A[1..], B[1..], fed);
      FromMerge(A[0], B[0], fed);
      DrawnConcat([Merge(A[0], B[0])], Join(A[1..], B[1..]), fed);
    }
  }

  /** A merge keeps only items that one of the sketches had been fed. */
  lemma DrawnMerged(k: nat, L: seq<seq<int>>, fed: seq<int>, L2: seq<seq<int>>, fed2: seq<int>, levelZeroSorted: bool, updateCoins: nat -> bool, coins: nat -> bool)
    requires L != [] && L2 != [] && Drawn(L, fed) && Drawn(L2, fed2)
    ensures Drawn(MergedL(k, L, L2, levelZeroSorted, updateCoins, coins), fed + fed2)
  {
    hide From, UpdatedAll, Join, Compress, Start;
    var L1 := UpdatedAll(k, L, L2[0], updateCoins);
    DrawnUpdatedAll(k, L, fed, L2[0], updateCoins);
    DrawnFed(L1, fed, L2[0], fed2);
    DrawnMore(L2, fed2, fed);
    DrawnJoin(L1[1..], L2[1..], fed + fed2);
    DrawnConcat([L1[0]], Join(L1[1..], L2[1..]), fed + fed2);
    JoinStartRest(k, L1, L2, levelZeroSorted && L2[0] == []);
    DrawnCompress(Size(k, DEFAULT_M), JoinStart(k, L1, L2, levelZeroSorted && L2[0] == []), coins, fed + fed2);
  }

  lemma JoinStartRest(k: nat, L: seq<seq<int>>, L2: seq<seq<int>>, levelZeroSorted: bool)
    requires L != [] && L2 != []
    ensures JoinStart(k, L, L2, levelZeroSorted).rest == [L[0]] + Join(L[1..], L2[1..])
  {
    hide Join;
  }

  lemma DrawnFed(L: seq<seq<int>>, fed: seq<int>, s: seq<int>, fed2: seq<int>)
    requires Drawn(L, fed + s) && From(s, fed2)
    ensures Drawn(L, fed + fed2)
  {
    assert forall x :: x in fed + s ==> x in fed + fed2;
  }

  lemma DrawnSorted(L: seq<seq<int>>, fed: seq<int>)
    requires L != [] && Drawn(L, fed)
    ensures Drawn(SortedZero(L), fed)
  {
    hide Sort;
    FromSort(L[0], fed);
  }

  class KllSketch {
    const k: nat
    var minK: nat
    var minValue: Extreme
    var maxValue: Extreme
    var n: nat
    var numLevels: nat
    var levels: array<nat>
    var items: array<int>
    var isLevelZeroSorted: bool
    ghost var L: seq<seq<int>>  // the levels, lowest first
    ghost var fed: seq<int>  // every item fed in, directly or through a merge
    ghost var err: nat  // the weights of the levels compacted so far, summed
    ghost var noted: seq<int>  // the items that minimum and maximum account for
    ghost var lost: bool  // minimum and maximum have stayed unset although the sketch is not empty

    /** The levels are packed against the end of a buffer that has exactly the capacity of their number. */
    ghost predicate Packed()
      reads this, items, levels
    {
      numLevels == |L| && Holds(items[..], levels[..], 0, L) && items.Length == TotalCapacity(k, DEFAULT_M, |L|) &&
      |L| < levels.Length && levels[|L|] == items.Length
    }

    ghost predicate Valid()
      reads this, items, levels
    {
      k >= DEFAULT_M && Packed() && Sketched(k, L, fed, err, isLevelZeroSorted) && n == |fed|
    }

    /** Minimum and maximum are those of the stream, which all retained items come from. */
    ghost predicate Extremes()
      reads this
    {
      Drawn(L, fed) && IsLeast(minValue, fed) && IsGreatest(maxValue, fed)
    }

    /** Minimum and maximum are those of the noted items, unless they are lost. */
    ghost predicate Noting()
      reads this
    {
      Drawn(L, fed) && NotedExtremes(minValue, maxValue, fed, noted, lost)
    }

    constructor (k: nat)
      requires DEFAULT_M <= k <= 65535
      ensures Noting() && noted == [] && !lost && minK == k
      ensures Valid() && Extremes() && fed == [] && err == 0 && L == [[]] && !isLevelZeroSorted && this.k == k && fresh(items) && fresh(levels)
    {
      this.k := k;
      minK := k;
      minValue, maxValue := Unset, Unset;
      n := 0;
      numLevels := 1;
      levels := new nat[2](_ => k);
      items := new int[k](_ => 0);
      isLevelZeroSorted := false;
      L := [[]];
      fed := [];
      err := 0;
      noted, lost := [], false;
      new;
      FirstLevel(k, items[..], levels[..]);
    }

    /** find_level_to_compact: the lowest level at its capacity. */
    method FindLevelToCompact() returns (level: nat)
      requires Packed() && levels[0] == 0 && 1 <= numLevels <= MAX_DEPTH + 1
      ensures level < |L| && |L[level]| >= LevelCapacity(k, |L|, level, DEFAULT_M)
      ensures forall h :: 0 <= h < level ==> |L[h]| < LevelCapacity(k, |L|, h, DEFAULT_M)
    {
      hide CapAt, Holds, TotalCapacity;
      HoldsEnds(items[..], levels[..], 0, L);
      SomeLevelFull(Size(k, DEFAULT_M), L);
      level := 0;
      while true
        invariant level < |L| && forall h :: 0 <= h < level ==> |L[h]| < LevelCapacity(k, |L|, h, DEFAULT_M)
        decreases |L| - level
      {
        SplitLevels(items[..], levels[..], L, level);
        if levels[level + 1] - levels[level] >= LevelCapacity(k, numLevels, level, DEFAULT_M) {
          return;
        }
        level := level + 1;
      }
    }

    /** add_empty_top_level_to_completely_full_sketch */
    method AddEmptyTopLevel()
      requires Packed() && levels[0] == 0 && 1 <= numLevels <= MAX_DEPTH
      modifies this`levels, this`items, this`numLevels, this`L, levels
      ensures Packed() && L == old(L) + [[]]
      ensures fresh(items) && (levels == old(levels) || fresh(levels))
    {
      hide Holds, CapAt, Population;
      var curTotalCap := levels[numLevels];
      GrowLevelsArray(numLevels + 2);
      ghost var buf, lv := items[..], levels[..];
      var deltaCap := LevelCapacity(k, numLevels + 1, 0, DEFAULT_M);
      var newBuf := new int[curTotalCap + deltaCap](_ => 0);
      CopyUp(items, 0, curTotalCap, newBuf, deltaCap);
      RaiseLevels(deltaCap, lv);
      HoldsShift(buf, newBuf[..], lv, levels[..], 0, L, 0, curTotalCap, deltaCap);
      HoldsTop(newBuf[..], levels[..], L);
      items := newBuf;
      numLevels := numLevels + 1;
      L := L + [[]];
    }

    /** Reallocate the boundaries when there are too few. */
    method GrowLevelsArray(size: nat)
      requires Packed()
      modifies this`levels
      ensures Packed() && levels.Length >= size && (levels == old(levels) || fresh(levels))
      ensures levels[0] == old(levels[0])
    {
      if levels.Length < size {
        ghost var lv := levels[..];
        var old_levels := levels;
        var newLevels := new nat[size](i requires 0 <= i reads old_levels => if i < old_levels.Length then old_levels[i] else 0);
        HoldsFrame(items[..], items[..], lv, newLevels[..], 0, L, 0, 0);
        levels := newLevels;
      }
    }

    /** Raise all boundaries, and add one for the new top level. */
    method RaiseLevels(deltaCap: nat, ghost lv: seq<nat>)
      requires numLevels + 1 < levels.Length && lv == levels[..]
      modifies levels
      ensures |lv| == levels.Length && forall i :: 0 <= i <= numLevels ==> levels[i] == lv[i] + deltaCap
      ensures levels[numLevels + 1] == lv[numLevels] + deltaCap
    {
      for i := 0 to numLevels + 1
        invariant forall j :: 0 <= j <= numLevels ==> levels[j] == lv[j] + if j < i then deltaCap else 0
      {
        levels[i] := levels[i] + deltaCap;
      }
      levels[numLevels + 1] := levels[numLevels];
    }

    /** compress_while_updating; `coin` is the random bit. The level compacted is the lowest one at its capacity. */
    method CompressWhileUpdating(coin: bool)
      requires Valid() && levels[0] == 0
      modifies this`levels, this`items, this`numLevels, this`L, this`err, levels, items
      ensures Packed() && Sketched(k, L, fed, err, false) && levels[0] > 0
      ensures var level := CompactedLevel(k, old(L));
              level < |old(L)| && L == Compacted(old(L), level, coin) && err == old(err) + Pow2(level)
      ensures (items == old(items) || fresh(items)) && (levels == old(levels) || fresh(levels))
    {
      hide Sketched, Holds, CapAt, TotalCapacity, Above, Leftover, Pow2;
      SketchedFits(k, L, fed, err, isLevelZeroSorted);
      ghost var L0 := L;
      var level := FindLevelToCompact();
      FirstFullIs(Size(k, DEFAULT_M), L, 0, level);
      SketchedCompacted(k, L, fed, err, isLevelZeroSorted, level, coin);
      RoomForTop(k, L, fed, err, isLevelZeroSorted, level);
      if level == numLevels - 1 {
        AddEmptyTopLevel();
      }
      CompactedTwice(L0, L, level, coin);
      CompactInPlace(items, levels, level, coin, L);
      L := Compacted(L0, level, coin);
      err := err + Pow2(level);
    }

    /** update; `coin` is the random bit if one is drawn. */
    method Update(value: int, coin: bool)
      requires Valid() && n + 1 < Pow2(MAX_DEPTH + 1)
      modifies this, levels, items
      ensures Valid() && fed == old(fed) + [value] && minK == old(minK) && !isLevelZeroSorted
      ensures old(Extremes()) ==> Extremes()
      ensures noted == old(noted) + [value] && lost == old(lost) && (old(Noting()) ==> Noting())
      ensures old(L) != [] && L == Updated(k, old(L), value, coin) && err == old(err) + UpdateCost(k, old(L))
      ensures (items == old(items) || fresh(items)) && (levels == old(levels) || fresh(levels))
    {
      hide Sketched, Holds, TotalCapacity, Updated, UpdateCost, Pow2, Drawn, IsLeast, IsGreatest, NotedExtremes, Lowered, Raised;
      NoFreeSlot();
      NoteUpdate(value, coin);
      noted := noted + [value];
      minValue, maxValue := Lowered(minValue, n == 0, value), Raised(maxValue, n == 0, value);
      MakeRoom(value, coin);
      n := n + 1;
      isLevelZeroSorted := false;
      Insert(value);
    }

    /** The compaction that frees a slot for the item, if there is none. */
    method MakeRoom(ghost value: int, coin: bool)
      requires Valid()
      modifies this`levels, this`items, this`numLevels, this`L, this`err, levels, items
      ensures Packed() && Sketched(k, L, fed, err, false) && levels[0] > 0 && old(L) != []
      ensures Inserted(L, value) == Updated(k, old(L), value, coin) && err == old(err) + UpdateCost(k, old(L))
      ensures (items == old(items) || fresh(items)) && (levels == old(levels) || fresh(levels))
    {
      hide Sketched, Holds, TotalCapacity, Compacted, Pow2, FirstFull, Population;
      NoFreeSlot();
      if levels[0] == 0 {
        CompressWhileUpdating(coin);
      } else {
        NotSorted(k, L, fed, err, isLevelZeroSorted);
      }
    }

    lemma NoteUpdate(value: int, coin: bool)
      requires L != [] && n == |fed|
      ensures Drawn(L, fed) ==> Drawn(Updated(k, L, value, coin), fed + [value])
      ensures Noting() ==> NotedExtremes(Lowered(minValue, n == 0, value), Raised(maxValue, n == 0, value), fed + [value], noted + [value], lost)
      ensures Extremes() ==> IsLeast(Lowered(minValue, n == 0, value), fed + [value]) && IsGreatest(Raised(maxValue, n == 0, value), fed + [value])
    {
      hide Drawn, IsLeast, IsGreatest, Updated, NotedExtremes;
      if Drawn(L, fed) {
        DrawnUpdated(k, L, fed, value, coin);
      }
      if Extremes() {
        UpdateExtremes(minValue, maxValue, fed, value);
      }
      if Noting() {
        NotedUpdate(minValue, maxValue, fed, noted, lost, value);
      }
    }

    lemma NoFreeSlot()
      requires Valid()
      ensures L != [] && (levels[0] == 0 <==> Full(k, L))
    {
      hide TotalCapacity, Holds;
      HoldsEnds(items[..], levels[..], 0, L);
    }

    /** The last lines of update. */
    method Insert(value: int)
      requires k >= DEFAULT_M && Packed() && Sketched(k, L, fed, err, false) && levels[0] > 0 && |fed| + 1 < Pow2(MAX_DEPTH + 1)
      modifies this`L, this`fed, levels, items
      ensures Packed() && Sketched(k, L, fed, err, false)
      ensures fed == old(fed) + [value] && L == Inserted(old(L), value)
    {
      SketchedFits(k, L, fed, err, false);
      SketchedInserted(k, L, fed, err, false, value);
      hide Sketched, Holds, TotalCapacity, Pow2;
      ghost var buf, lv := items[..], levels[..];
      HoldsEnds(buf, lv, 0, L);
      var nextPos := levels[0] - 1;
      levels[0] := nextPos;
      items[nextPos] := value;
      HoldsInserted(buf, items[..], lv, levels[..], L, value);
      L := Inserted(L, value);
      fed := fed + [value];
    }

    /** The weight of the items below a value: get_rank before it is divided by n. */
    method GetRankWeight(value: int) returns (total: nat)
      requires Valid()
      ensures total == WeightedRank(L, value)
      ensures -(err as int) <= total - Rank(fed, value) <= err
    {
      CloseAt(L, fed, err, value);
      hide Holds, TotalCapacity, WeightedRank, Rank, Close, Pow2, Weighed, Block, Weight, Sorted;
      total := 0;
      var level, weight := 0, 1;
      WeightedRankNone(value);
      while level < numLevels
        invariant level <= numLevels && weight == Pow2(level)
        invariant total == WeightedRank(L[..level], value)
      {
        SplitLevels(items[..], levels[..], L, level);
        var count := CountBelow(items, levels[level], levels[level + 1], value, level > 0 || isLevelZeroSorted, L[level]);
        WeighLevel(L, level, value);
        total := total + Weighed(weight, count);
        level := level + 1;
        weight := weight * 2;
      }
      assert L[..|L|] == L;
    }

    /** get_rank, in real arithmetic; a sketch without items has none. */
    method GetRank(value: int) returns (rank: Normalized)
      requires Valid()
      ensures rank.NotANumber? <==> fed == []
      ensures rank.Fraction? ==> rank.value == Share(WeightedRank(L, value), n) && 0.0 <= rank.value <= 1.0
      ensures rank.Fraction? ==> -Share(err, n) <= rank.value - Share(Rank(fed, value), n) <= Share(err, n)
    {
      hide Holds, TotalCapacity, WeightedRank, Rank, Close, Pow2, Weight, Sorted, AllSorted, TopNonEmpty, Share;
      if n == 0 {
        return NotANumber;
      }
      var total := GetRankWeight(value);
      RankWithin(L, value);
      ShareOrder(0, total, n);
      ShareOrder(total, n, n);
      ShareEnds(n);
      ShareClose(total, Rank(fed, value), err, n);
      return Fraction(Share(total, n));
    }

    // ---- quantiles ----

    /** sort_level_zero */
    method SortLevelZero()
      requires Valid()
      modifies this`isLevelZeroSorted, this`L, items
      ensures Valid() && isLevelZeroSorted && fed == old(fed) && err == old(err) && n == old(n) && (old(Extremes()) ==> Extremes())
      ensures old(Noting()) ==> Noting()
      ensures old(L) != [] && L == if old(isLevelZeroSorted) then old(L) else SortedZero(old(L))
      ensures forall x :: WeightedRank(L, x) == WeightedRank(old(L), x)
    {
      hide Sketched, Holds, TotalCapacity, WeightedRank, Sort, Drawn, IsLeast, IsGreatest, Block, Outside;
      NotEmpty(k, L, fed, err, isLevelZeroSorted);
      if !isLevelZeroSorted {
        SplitLevels(items[..], levels[..], L, 0);
        SketchedSorted(k, L, fed, err);
        if Drawn(L, fed) {
          DrawnSorted(L, fed);
        }
        ghost var buf := items[..];
        SortRange(items, levels[0], levels[1]);
        HoldsSorted(buf, items[..], levels[..], L);
        isLevelZeroSorted := true;
        L := SortedZero(L);
      }
    }

    /** get_quantile for a position in the stream, of fewer than 2^32 items: the rank of the answer is off by at most err. */
    method GetQuantileAt(pos: nat) returns (v: int)
      requires Valid() && pos < n < TWO_TO_THE_32
      modifies this`isLevelZeroSorted, this`L, items
      ensures Valid() && fed == old(fed) && err == old(err)
      ensures WeightedRank(L, v) <= pos < WeightedRank(L, v + 1)
      ensures Rank(fed, v) - err <= pos < Rank(fed, v + 1) + err
    {
      hide Sketched, Holds, TotalCapacity, WeightedRank, Rank, Weight, Population;
      SortLevelZero();
      ReadyToQuery(k, L, fed, err);
      var calculator := MakeCalculator(items, levels, numLevels, L);
      v := calculator.ApproximatelyAnswerPositionalQuery(pos);
      CloseAt(L, fed, err, v);
      CloseAt(L, fed, err, v + 1);
    }

    // ---- merging ----

    /** The arrays of two sketches are different objects. */
    ghost predicate Apart(other: KllSketch)
      reads this, other
    {
      other != this && items != other.items && levels != other.levels
    }

    /** The first i items of s have been fed in, with these coins. */
    ghost predicate Feeding(L0: seq<seq<int>>, fed0: seq<int>, err0: nat, flag: bool, s: seq<int>, i: nat, coins: nat -> bool)
      requires L0 != []
      reads this
    {
      i <= |s| && fed == fed0 + s[..i] && isLevelZeroSorted == (flag && i == 0) &&
      L == UpdatedAll(k, L0, s[..i], coins) && err == err0 + UpdateAllCost(k, L0, s[..i], coins)
    }

    method FeedOne(value: int, coin: bool, ghost L0: seq<seq<int>>, ghost fed0: seq<int>, ghost err0: nat, ghost flag: bool, ghost s: seq<int>, ghost i: nat,
                   ghost coins: nat -> bool)
      requires L0 != [] && Valid() && Feeding(L0, fed0, err0, flag, s, i, coins) && i < |s| && value == s[i] && coin == coins(i)
      requires |fed0| + |s| < Pow2(MAX_DEPTH + 1)
      modifies this, levels, items
      ensures Valid() && Feeding(L0, fed0, err0, flag, s, i + 1, coins) && minK == old(minK) && (old(Extremes()) ==> Extremes())
      ensures noted == old(noted) + [value] && lost == old(lost) && (old(Noting()) ==> Noting())
      ensures (items == old(items) || fresh(items)) && (levels == old(levels) || fresh(levels))
    {
      hide Packed, Sketched, Updated, UpdateCost, UpdatedAll, UpdateAllCost, Pow2, Extremes, Noting;
      UpdatedNext(k, L0, s, i, coins);
      OneMore(fed0, s, i);
      Update(value, coin);
    }

    /** The loop of merge over level zero of the other sketch. */
    method FeedLevelZero(other: KllSketch, updateCoins: nat -> bool)
      requires Valid() && other.Valid() && Apart(other) && |fed| + |LevelAt(other.L, 0)| < Pow2(MAX_DEPTH + 1)
      modifies this, levels, items
      ensures Valid() && Apart(other) && minK == old(minK) && old(L) != []
      ensures Feeding(old(L), old(fed), old(err), old(isLevelZeroSorted), LevelAt(other.L, 0), |LevelAt(other.L, 0)|, updateCoins)
      ensures old(Extremes()) ==> Extremes()
      ensures noted == old(noted) + LevelAt(other.L, 0) && lost == old(lost) && (old(Noting()) ==> Noting())
      ensures (items == old(items) || fresh(items)) && (levels == old(levels) || fresh(levels))
    {
      hide Valid, LevelAt, Pow2, Updated, UpdateCost, Feeding, Extremes, Noting;
      LevelZero();
      other.LevelZero();
      ghost var s, L0, fed0, err0, flag := LevelAt(other.L, 0), L, fed, err, isLevelZeroSorted;
      FeedingStart(s, updateCoins);
      var src, beg, lim := other.items, other.levels[0], other.levels[1];
      ghost var data := src[..];
      for i := beg to lim
        invariant Valid() && Apart(other) && Feeding(L0, fed0, err0, flag, s, i - beg, updateCoins) && minK == old(minK)
        invariant src[..] == data && src == other.items && (old(Extremes()) ==> Extremes())
        invariant noted == old(noted) + s[..i - beg] && lost == old(lost) && (old(Noting()) ==> Noting())
        invariant (items == old(items) || fresh(items)) && (levels == old(levels) || fresh(levels))
      {
        OneMore(old(noted), s, i - beg);
        FeedOne(src[i], updateCoins(i - beg), L0, fed0, err0, flag, s, i - beg, updateCoins);
      }
      assert s[..lim - beg] == s;
    }

    lemma FeedingStart(s: seq<int>, coins: nat -> bool)
      requires L != []
      ensures Feeding(L, fed, err, isLevelZeroSorted, s, 0, coins)
    {
    }

    lemma FeedingEnd(L0: seq<seq<int>>, fed0: seq<int>, err0: nat, flag: bool, s: seq<int>, coins: nat -> bool)
      requires L0 != [] && Feeding(L0, fed0, err0, flag, s, |s|, coins)
      ensures fed == fed0 + s && isLevelZeroSorted == (flag && s == [])
      ensures L == UpdatedAll(k, L0, s, coins) && err == err0 + UpdateAllCost(k, L0, s, coins)
    {
      assert s[..|s|] == s;
    }

    lemma LevelZero()
      requires Valid()
      ensures L != [] && 1 < levels.Length && levels[1] == levels[0] + |L[0]| <= items.Length && L[0] == LevelAt(L, 0)
      ensures forall i :: levels[0] <= i < levels[1] ==> items[..][i] == L[0][i - levels[0]]
    {
      hide Sketched, TotalCapacity;
      NotEmpty(k, L, fed, err, isLevelZeroSorted);
      SplitLevels(items[..], levels[..], L, 0);
      BlockAt(items[..], levels[0], L[0]);
    }

    /** safe_level_size */
    method SafeLevelSize(level: nat) returns (size: nat)
      requires Packed()
      ensures size == |LevelAt(L, level)|
      ensures size > 0 ==> level + 1 < levels.Length && levels[level] + size <= items.Length && Block(items[..], levels[level], LevelAt(L, level))
    {
      hide Holds, TotalCapacity, Block;
      if level >= numLevels {
        return 0;
      }
      SplitLevels(items[..], levels[..], L, level);
      return levels[level + 1] - levels[level];
    }

    /** One level of populate_work_arrays. */
    method JoinLevel(other: KllSketch, lvl: nat, workbuf: array<int>, at: nat)
      requires Packed() && other.Packed() && workbuf != items && workbuf != other.items
      requires at + |LevelAt(L, lvl)| + |LevelAt(other.L, lvl)| <= workbuf.Length
      modifies workbuf
      ensures Block(workbuf[..], at, MergedLevel(L, other.L, lvl))
      ensures Outside(workbuf[..], old(workbuf[..]), at, at + |LevelAt(L, lvl)| + |LevelAt(other.L, lvl)|)
    {
      hide Packed, Holds, TotalCapacity, LevelAt;
      ghost var a, b := LevelAt(L, lvl), LevelAt(other.L, lvl);
      var selfPop := SafeLevelSize(lvl);
      var otherPop := other.SafeLevelSize(lvl);
      MergeNothing(a, b);
      if selfPop > 0 && otherPop == 0 {
        MoveDown(items, levels[lvl], levels[lvl] + selfPop, workbuf, at);
      } else if selfPop == 0 && otherPop > 0 {
        MoveDown(other.items, other.levels[lvl], other.levels[lvl] + otherPop, workbuf, at);
      } else if selfPop > 0 && otherPop > 0 {
        hide Block, Outside;
        MergeSortedArrays(items, levels[lvl], selfPop, other.items, other.levels[lvl], otherPop, workbuf, at, a, b);
      }
    }

    /** populate_work_arrays */
    method PopulateWorkArrays(other: KllSketch, workbuf: array<int>, worklevels: array<nat>, provisionalNumLevels: nat)
      requires Packed() && other.Packed() && L != [] && other.L != [] && provisionalNumLevels == |Joined(L, other.L)|
      requires workbuf != items && workbuf != other.items && worklevels != levels && worklevels != other.levels
      requires provisionalNumLevels < worklevels.Length && workbuf.Length == Population(Joined(L, other.L))
      modifies workbuf, worklevels
      ensures Holds(workbuf[..], worklevels[..], 0, Joined(L, other.L))
    {
      hide TotalCapacity, Joined, LevelAt, Population;
      ghost var J := Joined(L, other.L);
      JoinedZero(L, other.L);
      PopulationPrefix(J, 0);
      HoldsEnds(items[..], levels[..], 0, L);
      var selfPopZero := SafeLevelSize(0);
      worklevels[0] := 0;
      CopyLevelZero(selfPopZero, workbuf, J[0]);
      worklevels[1] := selfPopZero;
      OneLevel(workbuf[..], worklevels[..], J);
      hide Holds, Block, Outside;
      for lvl := 1 to provisionalNumLevels
        invariant Holds(workbuf[..], worklevels[..], 0, J[..lvl]) && worklevels[0] == 0
      {
        JoinInto(other, lvl, workbuf, worklevels, J);
      }
      assert J[..|J|] == J;
    }

    method CopyLevelZero(selfPopZero: nat, workbuf: array<int>, ghost s: seq<int>)
      requires Packed() && L != [] && s == L[0] && selfPopZero == |s| <= workbuf.Length && workbuf != items
      modifies workbuf
      ensures Block(workbuf[..], 0, s)
    {
      hide TotalCapacity, Holds;
      SplitLevels(items[..], levels[..], L, 0);
      MoveDown(items, levels[0], levels[0] + selfPopZero, workbuf, 0);
    }

    /** One iteration of populate_work_arrays. */
    method JoinInto(other: KllSketch, lvl: nat, workbuf: array<int>, worklevels: array<nat>, ghost J: seq<seq<int>>)
      requires Packed() && other.Packed() && L != [] && other.L != [] && J == Joined(L, other.L) && 1 <= lvl < |J|
      requires workbuf != items && workbuf != other.items && worklevels != levels && worklevels != other.levels
      requires |J| < worklevels.Length && workbuf.Length == Population(J)
      requires Holds(workbuf[..], worklevels[..], 0, J[..lvl]) && worklevels[0] == 0
      modifies workbuf, worklevels
      ensures Holds(workbuf[..], worklevels[..], 0, J[..lvl + 1]) && worklevels[0] == 0
    {
      hide Packed, Joined, LevelAt, MergedLevel, Population, Holds, Block, Outside;
      ghost var buf, lv := workbuf[..], worklevels[..];
      JoinedAt(L, other.L, lvl);
      PopulationPrefix(J, lvl);
      HoldsEnds(buf, lv, 0, J[..lvl]);
      var selfPop := SafeLevelSize(lvl);
      var otherPop := other.SafeLevelSize(lvl);
      worklevels[lvl + 1] := worklevels[lvl] + selfPop + otherPop;
      JoinLevel(other, lvl, workbuf, worklevels[lvl]);
      OneMoreLevel(buf, workbuf[..], lv, worklevels[..], J, lvl);
    }

    /** get_num_retained */
    method GetNumRetained() returns (count: nat)
      requires Packed()
      ensures count == Population(L)
    {
      HoldsEnds(items[..], levels[..], 0, L);
      return levels[numLevels] - levels[0];
    }

    /** get_num_retained_above_level_zero */
    method GetNumRetainedAboveLevelZero() returns (count: nat)
      requires Packed() && L != []
      ensures count + |L[0]| == Population(L)
    {
      hide TotalCapacity;
      HoldsEnds(items[..], levels[..], 0, L);
      if numLevels == 1 {
        return 0;
      }
      return levels[numLevels] - levels[1];
    }

    /** merge_higher_levels; its assertion on the final number of levels holds. coins(h) is the random bit drawn at level h. */
    method MergeHigherLevels(other: KllSketch, finalN: nat, ghost fed0: seq<int>, coins: nat -> bool) returns (ghost J: seq<seq<int>>)
      requires Valid() && other.Valid() && Apart(other) && |other.L| >= 2 && fed == fed0 + other.L[0]
      requires finalN == |fed0| + |other.fed| < Pow2(MAX_DEPTH + 1)
      modifies this`items, this`levels, this`numLevels, this`L, this`fed, this`err, items, levels
      ensures Packed() && Sketched(k, L, fed, err, isLevelZeroSorted) && fed == fed0 + other.fed
      ensures L != [] && J == Joined(old(L), other.L) && Ready(Size(k, DEFAULT_M), Start(Size(k, DEFAULT_M), J, isLevelZeroSorted))
      ensures L == Compress(Size(k, DEFAULT_M), Start(Size(k, DEFAULT_M), J, isLevelZeroSorted), coins)
      ensures err == old(err) + other.err + CompressError(Size(k, DEFAULT_M), Start(Size(k, DEFAULT_M), J, isLevelZeroSorted), coins)
      ensures (items == old(items) || fresh(items)) && (levels == old(levels) || fresh(levels))
    {
      hide TotalCapacity, Holds, Joined, Population, Sketched, Compress, CompressError, Start, Pow2, Ready;
      NotEmpty(k, L, fed, err, isLevelZeroSorted);
      J := Joined(L, other.L);
      var retained := GetNumRetained();
      var above := other.GetNumRetainedAboveLevelZero();
      JoinReady(k, L, fed0, err, isLevelZeroSorted, other.k, other.L, other.fed, other.err, other.isLevelZeroSorted, finalN);
      hide UbOnNumLevels, Weight;
      var workbuf := new int[retained + above](_ => 0);
      var ub := ComputeUbOnNumLevels(finalN);
      var worklevels := new nat[ub + 2](_ => 0);
      var outlevels := new nat[ub + 2](_ => 0);
      var provisionalNumLevels := if numLevels < other.numLevels then other.numLevels else numLevels;
      PopulateWorkArrays(other, workbuf, worklevels, provisionalNumLevels);
      CompressAndTransfer(workbuf, worklevels, outlevels, provisionalNumLevels, ub, coins, J, fed0 + other.fed, err + other.err);
    }

    /** The second half of merge_higher_levels: compress the work buffer in place, and transfer the result back. */
    method CompressAndTransfer(workbuf: array<int>, worklevels: array<nat>, outlevels: array<nat>, provisionalNumLevels: nat, ub: nat, coins: nat -> bool,
                               ghost J: seq<seq<int>>, ghost fed1: seq<int>, ghost err1: nat)
      requires Packed() && workbuf != items && worklevels != levels && outlevels != levels && worklevels != outlevels
      requires Sketched(k, J, fed1, err1, isLevelZeroSorted) && Weight(J) < Pow2(ub) && provisionalNumLevels == |J| <= ub <= MAX_DEPTH + 1
      requires worklevels.Length == outlevels.Length == ub + 2 && Holds(workbuf[..], worklevels[..], 0, J)
      modifies workbuf, worklevels, outlevels, this`items, this`levels, this`numLevels, this`L, this`fed, this`err, items, levels
      ensures Packed() && Sketched(k, L, fed, err, isLevelZeroSorted) && fed == fed1
      ensures L != [] && J != [] && Ready(Size(k, DEFAULT_M), Start(Size(k, DEFAULT_M), J, isLevelZeroSorted))
      ensures L == Compress(Size(k, DEFAULT_M), Start(Size(k, DEFAULT_M), J, isLevelZeroSorted), coins)
      ensures err == err1 + CompressError(Size(k, DEFAULT_M), Start(Size(k, DEFAULT_M), J, isLevelZeroSorted), coins)
      ensures (items == old(items) || fresh(items)) && (levels == old(levels) || fresh(levels))
    {
      hide TotalCapacity, Holds, Population, Compress, CompressError, Start, Pow2, Ready, Weight, AllSorted, Sorted, Close, TopNonEmpty;
      SketchedCompressed(k, J, fed1, err1, isLevelZeroSorted, coins);
      FinalFacts(Size(k, DEFAULT_M), J, isLevelZeroSorted, coins, ub);
      HoldsEnds(workbuf[..], worklevels[..], 0, J);
      // the work buffer is both the input and the output here
      var finalNumLevels, finalCapacity, finalPop;
      ghost var final;
      finalNumLevels, finalCapacity, finalPop, final :=
        GeneralCompress(k, DEFAULT_M, provisionalNumLevels, workbuf, worklevels, workbuf, outlevels, isLevelZeroSorted, coins, J, ub);
      Transfer(workbuf, outlevels, finalNumLevels, finalCapacity, finalPop, final);
      fed := fed1;
      err := err1 + CompressError(Size(k, DEFAULT_M), Start(Size(k, DEFAULT_M), J, isLevelZeroSorted), coins);
    }

    /** Pack the levels of the work buffer against the end of a buffer of the final capacity. */
    method Transfer(workbuf: array<int>, outlevels: array<nat>, finalNumLevels: nat, finalCapacity: nat, finalPop: nat, ghost final: seq<seq<int>>)
      requires workbuf != items && outlevels != levels && Holds(workbuf[..], outlevels[..], 0, final) && outlevels[0] == 0
      requires finalNumLevels == |final| && finalPop == Population(final) < finalCapacity == TotalCapacity(k, DEFAULT_M, |final|)
      modifies this`items, this`levels, this`numLevels, this`L, items, levels
      ensures Packed() && L == final && levels[0] > 0
      ensures (items == old(items) || fresh(items)) && (levels == old(levels) || fresh(levels))
    {
      hide TotalCapacity, Holds, Shifted;
      HoldsEnds(workbuf[..], outlevels[..], 0, final);
      assert finalPop <= workbuf.Length;
      var newItems, newLevels := items, levels;
      if finalCapacity != items.Length {
        newItems := new int[finalCapacity](_ => 0);
      }
      var freeSpaceAtBottom := finalCapacity - finalPop;
      CopyUp(workbuf, 0, finalPop, newItems, freeSpaceAtBottom);
      if levels.Length < finalNumLevels + 1 {
        newLevels := new nat[finalNumLevels + 1](_ => 0);
      }
      RaiseTo(outlevels, newLevels, finalNumLevels + 1, freeSpaceAtBottom);
      HoldsShift(workbuf[..], newItems[..], outlevels[..], newLevels[..], 0, final, 0, finalPop, freeSpaceAtBottom);
      items, levels, numLevels := newItems, newLevels, finalNumLevels;
      L := final;
    }

    /** The part of merge after level zero of the other sketch has been fed in. */
    method MergeAbove(other: KllSketch, finalN: nat, ghost fed0: seq<int>, coins: nat -> bool)
      requires Valid() && other.Valid() && Apart(other) && other.L != [] && fed == fed0 + other.L[0]
      requires finalN == |fed0| + |other.fed| < Pow2(MAX_DEPTH + 1)
      modifies this, items, levels
      ensures Valid() && fed == fed0 + other.fed && isLevelZeroSorted == old(isLevelZeroSorted) && minK == old(minK)
      ensures minValue == old(minValue) && maxValue == old(maxValue) && noted == old(noted) && lost == old(lost)
      ensures old(L) != [] && L == JoinedUp(k, old(L), other.L, isLevelZeroSorted, coins)
      ensures err == old(err) + other.err + JoinCost(k, old(L), other.L, isLevelZeroSorted, coins)
      ensures (items == old(items) || fresh(items)) && (levels == old(levels) || fresh(levels))
    {
      hide TotalCapacity, Holds, Sketched, Compress, CompressError, Start, Pow2, Ready, Joined;
      NotEmpty(k, L, fed, err, isLevelZeroSorted);
      if other.numLevels >= 2 {
        ghost var J := MergeHigherLevels(other, finalN, fed0, coins);
      } else {
        SingleLevel(k, L, fed0, err, isLevelZeroSorted, other.k, other.L, other.fed, other.err, other.isLevelZeroSorted);
        fed, err := fed0 + other.fed, err + other.err;
      }
      n := finalN;
    }

    /** The minimum and maximum after a merge; n has been set before. */
    method MergeExtremes(other: KllSketch, ghost fed0: seq<int>, ghost s: seq<int>, ghost noted0: seq<int>, ghost noting: bool)
      requires other != this && other.fed != [] && n == |fed| > 0 && fed == fed0 + other.fed
      requires NotedExtremes(minValue, maxValue, fed0 + s, noted0 + s, lost) || !noting
      requires noting ==> other.Noting() && From(s, other.fed) && noted == noted0 + s && forall x :: x in noted0 ==> x in fed0
      modifies this`minValue, this`maxValue, this`noted, this`lost
      ensures noting ==> NotedExtremes(minValue, maxValue, fed, noted, lost)
      ensures noted == old(noted) + (if other.lost then [] else other.noted) && lost == (old(lost) || fed0 + s == [])
      ensures IsLeast(old(minValue), fed0 + s) && other.Extremes() && From(s, other.fed) ==>
                (IsLeast(minValue, fed) <==> fed0 != [] || s != [])
      ensures IsGreatest(old(maxValue), fed0 + s) && other.Extremes() && From(s, other.fed) ==>
                (IsGreatest(maxValue, fed) <==> fed0 != [] || s != [])
    {
      hide IsLeast, IsGreatest, Drawn, From, NotedExtremes, Less;
      if From(s, other.fed) {
        MergedExtremes(minValue, maxValue, fed0, s, other.minValue, other.maxValue, other.fed);
      }
      if noting {
        NotedMerge(minValue, maxValue, fed0, noted0, lost, s, other.minValue, other.maxValue, other.fed, other.noted, other.lost);
      }
      noted, lost := noted + (if other.lost then [] else other.noted), lost || fed0 + s == [];
      if n == 0 || Less(other.minValue, minValue) {
        minValue := other.minValue;
      }
      if n == 0 || Less(maxValue, other.maxValue) {
        maxValue := other.maxValue;
      }
    }

    /** merge; the assertion on the total weight holds. */
    method Merge(other: KllSketch, updateCoins: nat -> bool, coins: nat -> bool)
      requires Valid() && other.Valid() && Apart(other) && n + other.n < Pow2(MAX_DEPTH + 1)
      modifies this, items, levels
      ensures Valid() && fed == old(fed) + other.fed && old(L) != [] && other.L != []
      ensures L == MergedL(k, old(L), other.L, old(isLevelZeroSorted), updateCoins, coins)
      ensures err == old(err) + other.err + MergeCost(k, old(L), other.L, old(isLevelZeroSorted), updateCoins, coins)
      ensures isLevelZeroSorted == (old(isLevelZeroSorted) && other.L[0] == [])
      ensures FitTogether(k, old(L), other.L) ==>
                err == old(err) + other.err && AddsUp(L, old(L), other.L)
      ensures minK == if |other.L| > 1 && other.minK < old(minK) then other.minK else old(minK)
      ensures old(Noting()) && other.Noting() ==> Noting()
      ensures lost == (old(lost) || (other.fed != [] && old(fed) == [] && other.L[0] == []))
      ensures noted == old(noted) + other.L[0] + (if other.lost || other.fed == [] then [] else other.noted)
      ensures old(Extremes()) && other.Extremes() ==> Drawn(L, fed)
      ensures old(Extremes()) && other.Extremes() ==> (IsLeast(minValue, fed) <==> other.fed == [] || old(fed) != [] || other.L[0] != [])
      ensures old(Extremes()) && other.Extremes() ==> (IsGreatest(maxValue, fed) <==> other.fed == [] || old(fed) != [] || other.L[0] != [])
      ensures (items == old(items) || fresh(items)) && (levels == old(levels) || fresh(levels))
    {
      hide TotalCapacity, Holds, Sketched, Pow2, JoinedUp, JoinCost, UpdatedAll, UpdateAllCost, IsLeast, IsGreatest, Drawn, From, NotedExtremes, MergedL, MergeCost, FitTogether, AddsUp;
      NotEmpty(k, L, fed, err, isLevelZeroSorted);
      NoteMerge(other, updateCoins, coins);
      MergeAddsUp(k, L, other.L, isLevelZeroSorted, updateCoins, coins);
      LevelZeroFits(other.k, other.L, other.fed, other.err, other.isLevelZeroSorted);
      if other.n == 0 {
        SkipEmpty(other, updateCoins, coins);
        return;
      }
      ghost var fed0, noted0, noting := fed, noted, Noting() && other.Noting();
      NotedFed(minValue, maxValue, fed, noted, lost);
      MergeItems(other, updateCoins, coins);
      MergeExtremes(other, fed0, other.L[0], noted0, noting);
    }

    /** All of a merge with a non-empty sketch but the minimum and maximum, which are still those of what level zero of the other brought in. */
    method MergeItems(other: KllSketch, updateCoins: nat -> bool, coins: nat -> bool)
      requires Valid() && other.Valid() && Apart(other) && n + other.n < Pow2(MAX_DEPTH + 1) && L != [] && other.L != []
      requires |fed| + |LevelAt(other.L, 0)| < Pow2(MAX_DEPTH + 1) && other.L[0] == LevelAt(other.L, 0)
      modifies this, items, levels
      ensures Valid() && fed == old(fed) + other.fed
      ensures L == MergedL(k, old(L), other.L, old(isLevelZeroSorted), updateCoins, coins)
      ensures err == old(err) + other.err + MergeCost(k, old(L), other.L, old(isLevelZeroSorted), updateCoins, coins)
      ensures isLevelZeroSorted == (old(isLevelZeroSorted) && other.L[0] == [])
      ensures minK == if |other.L| > 1 && other.minK < old(minK) then other.minK else old(minK)
      ensures old(Extremes()) ==> IsLeast(minValue, old(fed) + other.L[0]) && IsGreatest(maxValue, old(fed) + other.L[0])
      ensures old(Noting()) ==> NotedExtremes(minValue, maxValue, old(fed) + other.L[0], old(noted) + other.L[0], lost)
      ensures noted == old(noted) + other.L[0] && lost == old(lost)
      ensures (items == old(items) || fresh(items)) && (levels == old(levels) || fresh(levels))
    {
      hide TotalCapacity, Holds, Sketched, Pow2, JoinedUp, JoinCost, UpdatedAll, UpdateAllCost, IsLeast, IsGreatest, Drawn, From, NotedExtremes;
      ghost var fed0, L0, err0, flag := fed, L, err, isLevelZeroSorted;
      var finalN := n + other.n;
      FeedLevelZero(other, updateCoins);
      FeedingEnd(L0, fed0, err0, flag, other.L[0], updateCoins);
      MergeAbove(other, finalN, fed0, coins);
      if other.numLevels > 1 && other.minK < minK {
        minK := other.minK;
      }
    }

    /** An empty sketch adds nothing but the bound on its error. */
    ghost method SkipEmpty(other: KllSketch, updateCoins: nat -> bool, coins: nat -> bool)
      requires Valid() && other.Valid() && other != this && other.n == 0
      modifies this`err
      ensures Valid() && other.fed == [] && fed + other.fed == fed && err == old(err) + other.err
      ensures L != [] && |other.L| == 1 && other.L[0] == []
      ensures MergedL(k, L, other.L, isLevelZeroSorted, updateCoins, coins) == L
      ensures MergeCost(k, L, other.L, isLevelZeroSorted, updateCoins, coins) == 0
    {
      hide TotalCapacity, Holds, Sketched, Pow2, MergedL, MergeCost;
      NotEmpty(k, L, fed, err, isLevelZeroSorted);
      NothingFed(other.k, other.L, other.fed, other.err, other.isLevelZeroSorted);
      MergeEmpty(k, L, fed, err, isLevelZeroSorted, other.fed, other.err);
      NothingMerged(k, L, other.L, isLevelZeroSorted, updateCoins, coins);
      err := err + other.err;
    }

    lemma NoteMerge(other: KllSketch, updateCoins: nat -> bool, coins: nat -> bool)
      requires L != [] && other.Valid()
      ensures other.L != []
      ensures Drawn(L, fed) && Drawn(other.L, other.fed) ==>
                From(other.L[0], other.fed) && Drawn(MergedL(k, L, other.L, isLevelZeroSorted, updateCoins, coins), fed + other.fed)
    {
      NotEmpty(other.k, other.L, other.fed, other.err, other.isLevelZeroSorted);
      hide MergedL, From, IsLeast, IsGreatest, Sketched, TotalCapacity;
      if Drawn(L, fed) && Drawn(other.L, other.fed) {
        DrawnMerged(k, L, fed, other.L, other.fed, isLevelZeroSorted, updateCoins, coins);
      }
    }
  }

  lemma NothingMerged(k: nat, L: seq<seq<int>>, L2: seq<seq<int>>, levelZeroSorted: bool, updateCoins: nat -> bool, coins: nat -> bool)
    requires L != [] && |L2| == 1 && L2[0] == []
    ensures MergedL(k, L, L2, levelZeroSorted, updateCoins, coins) == L && MergeCost(k, L, L2, levelZeroSorted, updateCoins, coins) == 0
  {
  }

  lemma NotedFed(least: Extreme, greatest: Extreme, fed: seq<int>, noted: seq<int>, lost: bool)
    ensures NotedExtremes(least, greatest, fed, noted, lost) ==> forall x :: x in noted ==> x in fed
  {
  }

  lemma NotSorted(k: nat, L: seq<seq<int>>, fed: seq<int>, err: nat, levelZeroSorted: bool)
    requires Sketched(k, L, fed, err, levelZeroSorted)
    ensures Sketched(k, L, fed, err, false)
  {
    hide AllSorted, Sorted, Close, TopNonEmpty, Weight;
  }

  lemma CloseAt(L: seq<seq<int>>, fed: seq<int>, err: nat, x: int)
    requires Close(L, fed, err)
    ensures -(err as int) <= WeightedRank(L, x) - Rank(fed, x) <= err
  {
  }

  lemma WeightedRankNone(x: int)
    ensures WeightedRank([], x) == 0 && Pow2(0) == 1
  {
  }

  /** A part of the weight of a stream of n items. */
  function Share(weight: int, n: nat): real
    requires n > 0
  {
    weight as real / n as real
  }

  /** The outcome of a query that divides by n. */
  datatype Normalized = NotANumber | Fraction(value: real)

  /** A share multiplied out. */
  lemma ShareTimes(a: int, n: nat)
    requires n > 0
    ensures Share(a, n) * (n as real) == a as real
  {
  }

  lemma Positive(x: real, d: real)
    requires x > 0.0 && d > 0.0
    ensures x * d > 0.0
  {
  }

  lemma Distribute(w: real, x: real, y: real, z: real, d: real)
    requires w == x + y + z
    ensures w * d == x * d + y * d + z * d
  {
  }

  lemma Negated(x: real, d: real)
    ensures (-x) * d == -(x * d)
  {
  }

  /** x <= y + z, multiplied by a positive number and back. */
  lemma Cancel(x: real, y: real, z: real, d: real)
    requires d > 0.0 && x * d <= y * d + z * d
    ensures x <= y + z
  {
    Negated(y, d);
    Negated(z, d);
    var w := x + -y + -z;
    Distribute(w, x, -y, -z, d);
    if w > 0.0 {
      Positive(w, d);
    }
  }

  lemma ShareEnds(n: nat)
    requires n > 0
    ensures Share(0, n) == 0.0 && Share(n, n) == 1.0
  {
  }

  lemma ShareOrder(a: int, b: int, n: nat)
    requires n > 0 && a <= b
    ensures Share(a, n) <= Share(b, n)
  {
    ShareAtMost(a, b, 0, n);
    ShareEnds(n);
  }

  lemma ShareAtMost(a: int, b: int, e: int, n: nat)
    requires n > 0 && a <= b + e
    ensures Share(a, n) <= Share(b, n) + Share(e, n)
  {
    hide Share;
    ShareTimes(a, n);
    ShareTimes(b, n);
    ShareTimes(e, n);
    Cancel(Share(a, n), Share(b, n), Share(e, n), n as real);
  }

  lemma ShareClose(a: int, b: int, e: int, n: nat)
    requires n > 0 && -e <= a - b <= e
    ensures -Share(e, n) <= Share(a, n) - Share(b, n) <= Share(e, n)
  {
    hide Share;
    ShareAtMost(a, b, e, n);
    ShareAtMost(b, a, e, n);
  }

  lemma {:induction false} RankWithin(L: seq<seq<int>>, x: int)
    ensures WeightedRank(L, x) <= Weight(L)
  {
    if L != [] {
      RankBound(L[0], x);
      RankWithin(L[1..], x);
    }
  }

  function Weighed(weight: nat, count: nat): nat { weight * count }

  lemma WeighLevel(L: seq<seq<int>>, h: nat, x: int)
    requires h < |L|
    ensures WeightedRank(L[..h + 1], x) == WeightedRank(L[..h], x) + Weighed(Pow2(h), Rank(L[h], x))
    ensures Pow2(h + 1) == Pow2(h) * 2
  {
    WeighConcat(L[..h], [L[h]], x);
    var none: seq<seq<int>> := [];
    WeighCons(L[h], none, x);
    assert L[..h + 1] == L[..h] + [L[h]] && [L[h]] == [L[h]] + none;
    ScaleIsProduct(Rank(L[h], x), h);
    Commute(Rank(L[h], x), Pow2(h));
  }

  lemma Commute(a: nat, b: nat)
    ensures a * b == b * a
  {
  }

  /** The inner loop of get_rank, which stops early on a sorted level. */
  method CountBelow(items: array<int>, from: nat, to: nat, value: int, sorted: bool, ghost s: seq<int>) returns (count: nat)
    requires Block(items[..], from, s) && to == from + |s| && (sorted ==> Sorted(s))
    ensures count == Rank(s, value)
  {
    BlockAt(items[..], from, s);
    hide Block;
    count := 0;
    assert s[..0] == [];
    var i := from;
    while i < to
      invariant from <= i <= to
      invariant count == Rank(s[..i - from], value)
    {
      RankNext(s, i - from, value);
      if items[i] < value {
        count := count + 1;
      } else if sorted {
        RankRest(s, i - from, value);
        return;
      }
      i := i + 1;
    }
    assert s[..|s|] == s;
  }

  lemma RankNext(s: seq<int>, i: nat, x: int)
    requires i < |s|
    ensures Rank(s[..i + 1], x) == Rank(s[..i], x) + if s[i] < x then 1 else 0
  {
    assert s[..i + 1] == s[..i] + [s[i]];
    RankConcat(s[..i], [s[i]], x);
    assert [s[i]][1..] == [];
  }

  lemma RankRest(s: seq<int>, i: nat, x: int)
    requires i < |s| && Sorted(s) && s[i] >= x
    ensures Rank(s, x) == Rank(s[..i], x)
  {
    assert s == s[..i] + s[i..];
    RankConcat(s[..i], s[i..], x);
    RankSortedNone(s[i..], x);
  }

  lemma HoldsInserted(buf: seq<int>, buf2: seq<int>, lv: seq<nat>, lv2: seq<nat>, L: seq<seq<int>>, value: int)
    requires Holds(buf, lv, 0, L) && L != [] && 0 < lv[0] <= |buf| && lv2 == lv[0 := lv[0] - 1] && buf2 == buf[lv[0] - 1 := value]
    ensures Holds(buf2, lv2, 0, Inserted(L, value))
  {
    InsertedBlock(buf, buf2, lv[0], L[0], value);
    hide Block;
    HoldsEnds(buf, lv, 1, L[1..]);
    HoldsFrame(buf, buf2, lv, lv2, 1, L[1..], lv[0] - 1, lv[0]);
    assert Inserted(L, value)[1..] == L[1..];
  }

  lemma InsertedBlock(buf: seq<int>, buf2: seq<int>, at: nat, s: seq<int>, value: int)
    requires Block(buf, at, s) && 0 < at <= |buf| && buf2 == buf[at - 1 := value]
    ensures Block(buf2, at - 1, [value] + s) && Outside(buf2, buf, at - 1, at)
  {
    assert buf2[at..at + |s|] == buf[at..at + |s|];
  }

  /** A full level is far from the bound on the number of levels. */
  lemma RoomForTop(k: nat, L: seq<seq<int>>, fed: seq<int>, err: nat, levelZeroSorted: bool, h: nat)
    requires Sketched(k, L, fed, err, levelZeroSorted) && h < |L| && |L[h]| >= DEFAULT_M
    ensures |L| <= MAX_DEPTH || h < |L| - 1
    ensures 1 <= |L| <= MAX_DEPTH + 1
  {
    SketchedFits(k, L, fed, err, levelZeroSorted);
    if h == |L| - 1 {
      hide AllSorted, Sorted, Close, TopNonEmpty, Weight;
      TopWeight(L, 2);
      ScaleTwo(h);
    }
  }

  lemma ScaleTwo(n: nat)
    ensures Scale(2, n) == Pow2(n + 1)
  {
    ScaleSum(1, 1, n);
    ScaleOne(n);
  }

  /** Compacting with the new top level in place is what Compacted says. */
  lemma CompactedTwice(L0: seq<seq<int>>, L: seq<seq<int>>, h: nat, coin: bool)
    requires h < |L0| && L == (if h == |L0| - 1 then L0 + [[]] else L0)
    ensures h + 1 < |L| && L[h] == L0[h] && Compacted(L0, h, coin) == L[..h] + ([Leftover(L[h])] + Above(L[h..], h > 0, coin))
    ensures |Compacted(L0, h, coin)| == |L|
  {
    hide Above, Leftover;
    if h == |L0| - 1 {
      assert L[h..] == [L0[h], []];
    }
    assert L[..h] == L0[..h];
  }

  lemma FirstLevel(k: nat, buf: seq<int>, lv: seq<nat>)
    requires k >= DEFAULT_M && |buf| == k && |lv| == 2 && lv[0] == lv[1] == k
    ensures Holds(buf, lv, 0, [[]]) && TotalCapacity(k, DEFAULT_M, 1) == k
    ensures Sketched(k, [[]], [], 0, false)
  {
    var empty: seq<int>, none: seq<seq<int>> := [], [];
    assert [empty][1..] == none && Holds(buf, lv, 1, none);
    FirstCapacity(k);
    Pow2Monotone(1, MAX_DEPTH + 1);
  }

  lemma FirstCapacity(k: nat)
    ensures IntCapAux(k, 0) == k && (k >= DEFAULT_M ==> TotalCapacity(k, DEFAULT_M, 1) == k)
  {
    var p := PowerOfThree(0);
    assert p == 1 && Scale(2 * k, 0) == 2 * k;
    DivUnique(2 * k, p, 2 * k, 0);
    assert TotalCapacity(k, DEFAULT_M, 1) == TotalCapacity(k, DEFAULT_M, 0) + CapAt(k, DEFAULT_M, 0);
  }

  lemma HoldsTop(buf: seq<int>, lv: seq<nat>, L: seq<seq<int>>)
    requires Holds(buf, lv, 0, L) && |L| + 1 < |lv| && lv[|L| + 1] == lv[|L|]
    ensures Holds(buf, lv, 0, L + [[]])
  {
    HoldsEnds(buf, lv, 0, L);
    HoldsSnoc(buf, lv, 0, L, []);
  }

  /** Copy the boundaries, shifted. */
  method RaiseTo(outlevels: array<nat>, levels: array<nat>, count: nat, shift: nat)
    requires outlevels != levels && count <= outlevels.Length && count <= levels.Length
    modifies levels
    ensures forall i :: 0 <= i < count ==> levels[i] == outlevels[i] + shift
  {
    for lvl := 0 to count
      invariant forall i :: 0 <= i < lvl ==> levels[i] == outlevels[i] + shift
    {
      levels[lvl] := outlevels[lvl] + shift;
    }
  }

  lemma OneMore(fed: seq<int>, s: seq<int>, i: nat)
    requires i < |s|
    ensures fed + s[..i + 1] == fed + s[..i] + [s[i]] && |fed + s[..i]| == |fed| + i
  {
  }

  lemma NotEmpty(k: nat, L: seq<seq<int>>, fed: seq<int>, err: nat, levelZeroSorted: bool)
    requires Sketched(k, L, fed, err, levelZeroSorted)
    ensures L != []
  {
  }

  lemma NothingFed(k: nat, L: seq<seq<int>>, fed: seq<int>, err: nat, levelZeroSorted: bool)
    requires Sketched(k, L, fed, err, levelZeroSorted) && fed == []
    ensures |L| == 1 && L[0] == []
  {
    hide AllSorted, Sorted, Close, Pow2;
    AllEmpty(L);
  }

  lemma {:induction false} AllEmpty(L: seq<seq<int>>)
    requires Weight(L) == 0
    ensures forall h :: 0 <= h < |L| ==> L[h] == []
  {
    if L != [] {
      AllEmpty(L[1..]);
      assert forall h :: 1 <= h < |L| ==> L[h] == L[1..][h - 1];
    }
  }

  lemma LevelZeroFits(k: nat, L: seq<seq<int>>, fed: seq<int>, err: nat, levelZeroSorted: bool)
    requires Sketched(k, L, fed, err, levelZeroSorted)
    ensures L != [] && |L[0]| <= |fed| && LevelAt(L, 0) == L[0]
  {
    hide AllSorted, Sorted, Close, TopNonEmpty;
    WeighSplit(L, 0);
  }

  lemma MergeEmpty(k: nat, L: seq<seq<int>>, fed: seq<int>, err: nat, levelZeroSorted: bool, fed2: seq<int>, err2: nat)
    requires Sketched(k, L, fed, err, levelZeroSorted) && fed2 == []
    ensures Sketched(k, L, fed + fed2, err + err2, levelZeroSorted) && fed + fed2 == fed
  {
    hide AllSorted, Sorted, TopNonEmpty, Weight;
    assert fed + fed2 == fed;
  }

  /** Level h, or nothing when there are fewer levels. */
  ghost function LevelAt(L: seq<seq<int>>, h: nat): seq<int>
  {
    if h < |L| then L[h] else []
  }

  /** Level h of two sketches, merged. */
  ghost function MergedLevel(L: seq<seq<int>>, L2: seq<seq<int>>, h: nat): seq<int>
  {
    Merge(LevelAt(L, h), LevelAt(L2, h))
  }

  lemma MergeNothing(a: seq<int>, b: seq<int>)
    ensures a == [] ==> Merge(a, b) == b
    ensures b == [] ==> Merge(a, b) == a
  {
  }

  lemma {:induction false} JoinAt(A: seq<seq<int>>, B: seq<seq<int>>, h: nat)
    requires h < |Join(A, B)|
    ensures Join(A, B)[h] == Merge(LevelAt(A, h), LevelAt(B, h))
  {
    MergeNothing(LevelAt(A, h), LevelAt(B, h));
    hide Merge;
    if A != [] && B != [] && h > 0 {
      JoinAt(A[1..], B[1..], h - 1);
    }
  }

  lemma JoinedAt(L: seq<seq<int>>, L2: seq<seq<int>>, h: nat)
    requires L != [] && L2 != [] && 1 <= h < |Joined(L, L2)|
    ensures Joined(L, L2)[h] == MergedLevel(L, L2, h)
    ensures |MergedLevel(L, L2, h)| == |LevelAt(L, h)| + |LevelAt(L2, h)|
  {
    hide Merge, Join;
    JoinAt(L[1..], L2[1..], h - 1);
  }

  lemma JoinedZero(L: seq<seq<int>>, L2: seq<seq<int>>)
    requires L != [] && L2 != []
    ensures Joined(L, L2)[0] == L[0] == LevelAt(L, 0)
  {
  }

  lemma PopulationPrefix(L: seq<seq<int>>, h: nat)
    requires h < |L|
    ensures Population(L[..h]) + |L[h]| <= Population(L) && (h == 0 ==> Population(L[..h]) == 0)
  {
    assert L == L[..h] + L[h..];
    WeighConcat(L[..h], L[h..], 0);
    WeighSplit(L[h..], 0);
  }

  lemma OneLevel(buf: seq<int>, lv: seq<nat>, J: seq<seq<int>>)
    requires J != [] && 1 < |lv| && lv[0] == 0 && lv[1] == |J[0]| && Block(buf, 0, J[0])
    ensures Holds(buf, lv, 0, J[..1])
  {
    var none: seq<seq<int>> := [];
    assert J[..1][1..] == none && Holds(buf, lv, 1, none);
  }

  lemma OneMoreLevel(buf: seq<int>, buf2: seq<int>, lv: seq<nat>, lv2: seq<nat>, J: seq<seq<int>>, h: nat)
    requires h < |J| && Holds(buf, lv, 0, J[..h]) && h + 1 < |lv| && lv2 == lv[h + 1 := lv[h] + |J[h]|]
    requires Block(buf2, lv[h], J[h]) && Outside(buf2, buf, lv[h], lv[h] + |J[h]|)
    ensures Holds(buf2, lv2, 0, J[..h + 1])
  {
    hide Block, Outside;
    HoldsFrame(buf, buf2, lv, lv2, 0, J[..h], lv[h], lv[h] + |J[h]|);
    HoldsSnoc(buf2, lv2, 0, J[..h], J[h]);
    assert J[..h] + [J[h]] == J[..h + 1];
  }

  lemma SketchedJoined(k: nat, L: seq<seq<int>>, fed0: seq<int>, err: nat, flag: bool, k2: nat, L2: seq<seq<int>>, fed2: seq<int>, err2: nat, flag2: bool)
    requires Sketched(k2, L2, fed2, err2, flag2) && L2 != [] && Sketched(k, L, fed0 + L2[0], err, flag) && L != []
    requires |fed0| + |fed2| < Pow2(MAX_DEPTH + 1)
    ensures Sketched(k, Joined(L, L2), fed0 + fed2, err + err2, flag)
  {
    hide AllSorted, Sorted, Close, TopNonEmpty, Weight, Pow2, Joined;
    CloseJoined(L, fed0, err, L2, fed2, err2);
    WeighJoined(L, L2, 0);
    JoinedSorted(L, L2);
    JoinedTop(L, L2);
  }

  lemma SketchedWeight(k: nat, L: seq<seq<int>>, fed: seq<int>, err: nat, flag: bool)
    requires Sketched(k, L, fed, err, flag)
    ensures L != [] && Weight(L) == |fed| < Pow2(UbOnNumLevels(|fed|)) && |L| <= UbOnNumLevels(|fed|) <= MAX_DEPTH + 1
  {
    hide AllSorted, Sorted, Close, TopNonEmpty, Weight;
    LevelsFit(L);
    UbMonotone(|fed|, MAX_DEPTH + 1);
  }

  /** What the joined levels bring to general_compress. */
  lemma JoinReady(k: nat, L: seq<seq<int>>, fed0: seq<int>, err: nat, flag: bool, k2: nat, L2: seq<seq<int>>, fed2: seq<int>, err2: nat, flag2: bool, n: nat)
    requires Sketched(k2, L2, fed2, err2, flag2) && L2 != [] && Sketched(k, L, fed0 + L2[0], err, flag) && L != []
    requires n == |fed0| + |fed2| < Pow2(MAX_DEPTH + 1)
    ensures Sketched(k, Joined(L, L2), fed0 + fed2, err + err2, flag)
    ensures Population(Joined(L, L2)) + |L2[0]| == Population(L) + Population(L2)
    ensures Weight(Joined(L, L2)) < Pow2(UbOnNumLevels(n)) && |Joined(L, L2)| <= UbOnNumLevels(n) <= MAX_DEPTH + 1
  {
    hide Sketched, Joined, Weight, Pow2, UbOnNumLevels, Population;
    WeighJoined(L, L2, 0);
    SketchedJoined(k, L, fed0, err, flag, k2, L2, fed2, err2, flag2);
    SketchedWeight(k, Joined(L, L2), fed0 + fed2, err + err2, flag);
  }

  lemma SketchedCompressed(k: nat, J: seq<seq<int>>, fed: seq<int>, err: nat, flag: bool, coins: nat -> bool)
    requires Sketched(k, J, fed, err, flag)
    ensures J != [] && AllSorted(J[1..]) && (flag ==> Sorted(J[0])) && Ready(Size(k, DEFAULT_M), Start(Size(k, DEFAULT_M), J, flag))
    ensures var z, t := Size(k, DEFAULT_M), Start(Size(k, DEFAULT_M), J, flag);
            Compress(z, t, coins) != [] && Sketched(k, Compress(z, t, coins), fed, err + CompressError(z, t, coins), flag)
  {
    hide AllSorted, Sorted, Close, Weight, Pow2, TotalCapacity, Compress, CompressError, Start, Ready, InOrder, TopNonEmpty;
    var z, t := Size(k, DEFAULT_M), Start(Size(k, DEFAULT_M), J, flag);
    StartInOrder(z, J, flag);
    CloseCompressed(z, J, flag, coins, fed, err);
    CompressSorted(z, t, coins);
    CompressLength(z, t, coins);
    if |J| > 1 {
      CompressTop(z, t, coins);
    } else {
      CompressTopOne(z, t, coins);
    }
  }

  /** A single level, even an empty one, leaves a non-empty top if it is compacted into a new level. */
  lemma CompressTopOne(z: Size, t: Todo, coins: nat -> bool)
    requires Ready(z, t) && |t.rest| == 1
    ensures |Compress(z, t, coins)| > 1 ==> TopNonEmpty(Compress(z, t, coins))
  {
    hide CapAt, Above, Leftover;
    if t.rest[0] != [] {
      CompressTop(z, t, coins);
    } else {
      assert Next(z, t, coins).rest == [];
    }
  }

  /** Merging a sketch of a single level. */
  lemma SingleLevel(k: nat, L: seq<seq<int>>, fed0: seq<int>, err: nat, flag: bool, k2: nat, L2: seq<seq<int>>, fed2: seq<int>, err2: nat, flag2: bool)
    requires Sketched(k2, L2, fed2, err2, flag2) && |L2| == 1 && Sketched(k, L, fed0 + L2[0], err, flag)
    ensures Sketched(k, L, fed0 + fed2, err + err2, flag)
  {
    hide AllSorted, Sorted, TopNonEmpty, Pow2, Rank, WeightedRank;
    OneLevelWeighs(L2);
    forall x: int
      ensures -((err + err2) as int) <= WeightedRank(L, x) - Rank(fed0 + fed2, x) <= err + err2
    {
      RankConcat(fed0, L2[0], x);
      RankConcat(fed0, fed2, x);
      CloseAt(L, fed0 + L2[0], err, x);
      CloseAt(L2, fed2, err2, x);
    }
  }

  lemma OneLevelWeighs(L: seq<seq<int>>)
    requires |L| == 1
    ensures Weight(L) == |L[0]| && forall x :: WeightedRank(L, x) == Rank(L[0], x)
  {
    assert L[1..] == [];
    forall x: int
      ensures WeightedRank(L, x) == Rank(L[0], x)
    {
      WeighSplit(L, x);
    }
  }

  /** The levels with level zero sorted. */
  ghost function SortedZero(L: seq<seq<int>>): seq<seq<int>>
    requires L != []
  {
    [Sort(L[0])] + L[1..]
  }

  lemma SketchedSorted(k: nat, L: seq<seq<int>>, fed: seq<int>, err: nat)
    requires Sketched(k, L, fed, err, false)
    ensures L != [] && Sketched(k, SortedZero(L), fed, err, true) && forall x :: WeightedRank(SortedZero(L), x) == WeightedRank(L, x)
  {
    hide AllSorted, Weight, WeightedRank, Pow2, Rank, Sort;
    var r := SortedZero(L);
    assert r[1..] == L[1..];
    SortSorted(L[0]);
    WeighCons(Sort(L[0]), L[1..], 0);
    WeighSplit(L, 0);
    forall x: int
      ensures WeightedRank(r, x) == WeightedRank(L, x)
    {
      WeighCons(Sort(L[0]), L[1..], x);
      WeighSplit(L, x);
      RankSort(L[0], x);
    }
  }

  lemma HoldsSorted(buf: seq<int>, buf2: seq<int>, lv: seq<nat>, L: seq<seq<int>>)
    requires Holds(buf, lv, 0, L) && L != [] && Block(buf2, lv[0], Sort(L[0])) && Outside(buf2, buf, lv[0], lv[1])
    ensures Holds(buf2, lv, 0, SortedZero(L))
  {
    hide Sort;
    HoldsEnds(buf, lv, 1, L[1..]);
    HoldsFrame(buf, buf2, lv, lv, 1, L[1..], lv[0], lv[1]);
    assert SortedZero(L)[1..] == L[1..];
  }

  lemma ReadyToQuery(k: nat, L: seq<seq<int>>, fed: seq<int>, err: nat)
    requires Sketched(k, L, fed, err, true)
    ensures L != [] && AllSorted(L) && Close(L, fed, err) && Weight(L) == |fed|
    ensures |fed| > 0 ==> Population(L) > 0
  {
    hide Close, Pow2;
    forall h | 0 <= h < |L|
      ensures Sorted(L[h])
    {
      if h > 0 {
        assert L[h] == L[1..][h - 1];
      }
    }
    NoWeight(L);
  }

  lemma {:induction false} NoWeight(L: seq<seq<int>>)
    ensures Population(L) == 0 ==> Weight(L) == 0
  {
    if L != [] {
      NoWeight(L[1..]);
    }
  }
}
