/** The levels of a KLL sketch and their compaction: kll/include/kll_helper.hpp. */
module KllLevels {
  import opened Words
  import opened Merges
  import opened Ranks

  // ---- capacities ----

  const MAX_DEPTH: nat := 60

  function PowerOfThree(n: nat): (p: nat)
    ensures p >= 1
  {
    if n == 0 then 1 else 3 * PowerOfThree(n - 1)
  }

  /** int_cap_aux_aux: k * (2/3)^depth, rounded. */
  function IntCapAuxAux(k: nat, depth: nat): nat
  {
    (Scale(2 * k, depth) / PowerOfThree(depth) + 1) / 2
  }

  /** int_cap_aux */
  function IntCapAux(k: nat, depth: nat): nat
  {
    if depth <= 30 then IntCapAuxAux(k, depth)
    else IntCapAuxAux(IntCapAuxAux(k, depth / 2), depth - depth / 2)
  }

  lemma {:induction false} TwosBelowThrees(n: nat)
    ensures Pow2(n) <= PowerOfThree(n)
  {
    if n > 0 {
      TwosBelowThrees(n - 1);
    }
  }

  lemma QuotientBelow(x: nat, p: nat, c: nat)
    requires p >= 1 && x <= c * p
    ensures x / p <= c
  {
    var q, r := Quotient(x, p);
    if q > c {
      MulStep(p, c, q);
    }
  }

  /** c is k * (2/3)^depth to the nearest integer. */
  ghost predicate Nearest(c: nat, k: nat, depth: nat)
  {
    (2 * c - 1) * PowerOfThree(depth) <= 2 * k * Pow2(depth) < (2 * c + 1) * PowerOfThree(depth)
  }

  lemma NearestHalf(x: nat, p: nat)
    requires p >= 1
    ensures var c := (x / p + 1) / 2; (2 * c - 1) * p <= x < (2 * c + 1) * p
  {
    var q, r := Quotient(x, p);
    var c := (q + 1) / 2;
    if c > 0 && 2 * c - 1 < q {
      MulStep(p, 2 * c - 1, q);
    }
    if q < 2 * c {
      MulStep(p, q, 2 * c);
    }
  }

  lemma NearestUnique(c: nat, d: nat, k: nat, depth: nat)
    requires Nearest(c, k, depth) && Nearest(d, k, depth)
    ensures c == d
  {
    if c < d {
      MulStep(PowerOfThree(depth), 2 * c, 2 * d - 1);
    } else if d < c {
      MulStep(PowerOfThree(depth), 2 * d, 2 * c - 1);
    }
  }

  /** The capacity by distance from the top level, before the smallest width: two steps of at most 30 levels each. */
  ghost predicate IsIntCap(c: nat, k: nat, depth: nat)
  {
    if depth <= 30 then Nearest(c, k, depth)
    else exists half: nat :: Nearest(half, k, depth / 2) && Nearest(c, half, depth - depth / 2)
  }

  lemma AuxNearest(k: nat, depth: nat)
    ensures Nearest(IntCapAuxAux(k, depth), k, depth)
  {
    hide Scale, PowerOfThree, Pow2;
    ScaleIsProduct(2 * k, depth);
    NearestHalf(Scale(2 * k, depth), PowerOfThree(depth));
  }

  /** The capacities decay by two thirds a level: they are k * (2/3)^depth to the nearest integer, and nothing else. */
  lemma IntCapIff(c: nat, k: nat, depth: nat)
    ensures IsIntCap(c, k, depth) <==> c == IntCapAux(k, depth)
  {
    hide IntCapAuxAux, Nearest;
    AuxNearest(k, depth);
    var half := IntCapAuxAux(k, depth / 2);
    AuxNearest(k, depth / 2);
    AuxNearest(half, depth - depth / 2);
    if IsIntCap(c, k, depth) {
      if depth <= 30 {
        NearestUnique(c, IntCapAuxAux(k, depth), k, depth);
      } else {
        var other: nat :| Nearest(other, k, depth / 2) && Nearest(c, other, depth - depth / 2);
        NearestUnique(other, half, k, depth / 2);
        NearestUnique(c, IntCapAuxAux(half, depth - depth / 2), half, depth - depth / 2);
      }
    }
  }

  /** powers_of_three */
  const POWERS_OF_THREE: seq<nat> := [
    1, 3, 9, 27, 81, 243, 729, 2187, 6561, 19683, 59049, 177147, 531441,
    1594323, 4782969, 14348907, 43046721, 129140163, 387420489, 1162261467,
    3486784401, 10460353203, 31381059609, 94143178827, 282429536481,
    847288609443, 2541865828329, 7625597484987, 22876792454961, 68630377364883,
    205891132094649]

  lemma {:induction false} PowersOfThree(depth: nat)
    requires depth <= 30
    ensures POWERS_OF_THREE[depth] == PowerOfThree(depth)
  {
    if depth > 0 {
      PowersOfThree(depth - 1);
    }
  }

  /** A level never has room for more than k items: the exception for that in int_cap_aux_aux cannot occur. */
  lemma IntCapBelow(k: nat, depth: nat)
    ensures IntCapAuxAux(k, depth) <= k && IntCapAux(k, depth) <= k
  {
    IntCapAuxBelow(k, depth);
    if depth > 30 {
      IntCapAuxBelow(k, depth / 2);
      IntCapAuxBelow(IntCapAuxAux(k, depth / 2), depth - depth / 2);
    }
  }

  lemma IntCapAuxBelow(k: nat, depth: nat)
    ensures IntCapAuxAux(k, depth) <= k
  {
    hide Scale, PowerOfThree, Pow2;
    TwosBelowThrees(depth);
    ScaleIsProduct(2 * k, depth);
    if Pow2(depth) < PowerOfThree(depth) {
      MulStep(2 * k, Pow2(depth), PowerOfThree(depth));
    }
    QuotientBelow(Scale(2 * k, depth), PowerOfThree(depth), 2 * k);
  }

  /** level_capacity, by the distance from the top level. */
  function CapAt(k: nat, m: nat, depth: nat): (c: nat)
    ensures c >= m
  {
    var c := IntCapAux(k, depth);
    if m < c then c else m
  }

  function LevelCapacity(k: nat, numLevels: nat, height: nat, m: nat): (c: nat)
    requires height < numLevels
    ensures c >= m
  {
    CapAt(k, m, numLevels - height - 1)
  }

  /** The capacity of a level is the one by distance from the top, but not below the smallest width. */
  lemma LevelCapacityIff(k: nat, numLevels: nat, height: nat, m: nat, x: nat)
    requires height < numLevels && IsIntCap(x, k, numLevels - height - 1)
    ensures LevelCapacity(k, numLevels, height, m) == if m < x then x else m
  {
    hide IntCapAux, IsIntCap;
    IntCapIff(x, k, numLevels - height - 1);
  }

  /** compute_total_capacity, summed from the top level down. */
  function TotalCapacity(k: nat, m: nat, numLevels: nat): nat
  {
    if numLevels == 0 then 0 else TotalCapacity(k, m, numLevels - 1) + CapAt(k, m, numLevels - 1)
  }

  // ---- weights ----

  /** Items of level h weigh 2^h. */
  function Weight(L: seq<seq<int>>): nat
  {
    if L == [] then 0 else |L[0]| + 2 * Weight(L[1..])
  }

  /** The weight of all items below x. */
  function WeightedRank(L: seq<seq<int>>, x: int): nat
  {
    if L == [] then 0 else Rank(L[0], x) + 2 * WeightedRank(L[1..], x)
  }

  function Population(L: seq<seq<int>>): nat
  {
    if L == [] then 0 else |L[0]| + Population(L[1..])
  }

  ghost predicate AllSorted(L: seq<seq<int>>)
  {
    forall h :: 0 <= h < |L| ==> Sorted(L[h])
  }

  /** A level of `bottom` items or more at height h weighs at least bottom * 2^h. */
  lemma {:induction false} TopWeight(L: seq<seq<int>>, c: nat)
    requires L != [] && |L[|L| - 1]| >= c
    ensures Weight(L) >= Scale(c, |L| - 1)
  {
    if |L| > 1 {
      TopWeight(L[1..], c);
    }
  }

  /** Some level is at its capacity when the whole sketch is. */
  lemma {:induction false} SomeLevelFull(z: Size, L: seq<seq<int>>)
    requires L != [] && Population(L) >= TotalCapacity(z.k, z.m, |L|)
    ensures exists h :: 0 <= h < |L| && |L[h]| >= LevelCapacity(z.k, |L|, h, z.m)
  {
    hide CapAt;
    if |L[0]| < CapAt(z.k, z.m, |L| - 1) {
      assert |L| > 1;
      SomeLevelFull(z, L[1..]);
      var h :| 0 <= h < |L| - 1 && |L[1..][h]| >= LevelCapacity(z.k, |L| - 1, h, z.m);
      assert L[h + 1] == L[1..][h];
      assert |L[h + 1]| >= LevelCapacity(z.k, |L|, h + 1, z.m);
    } else {
      assert |L[0]| >= LevelCapacity(z.k, |L|, 0, z.m);
    }
  }

  // ---- one compaction ----

  /** The item of a level of odd population that stays behind. */
  function Leftover(level: seq<int>): (s: seq<int>)
    ensures |s| == |level| % 2
  {
    if |level| % 2 == 1 then level[..1] else []
  }

  /** The items of a level that are compacted, sorted. */
  function Compactable(level: seq<int>, sorted: bool): (s: seq<int>)
    ensures |s| == |level| - |level| % 2
  {
    var adj := level[|level| % 2..];
    if sorted then adj else Sort(adj)
  }

  /** The level above after a compaction; `coin` is the random bit. Into an empty level the items are halved up, otherwise halved down and merged. */
  function Promoted(adj: seq<int>, above: seq<int>, coin: bool): (s: seq<int>)
    requires |adj| % 2 == 0
    ensures |s| == |adj| / 2 + |above|
  {
    if above == [] then Halve(adj, !coin) else Merge(Halve(adj, coin), above)
  }

  lemma LeftoverRank(level: seq<int>, sorted: bool, x: int)
    ensures Rank(Leftover(level), x) + Rank(Compactable(level, sorted), x) == Rank(level, x)
  {
    var p := |level| % 2;
    assert level == level[..p] + level[p..];
    RankConcat(level[..p], level[p..], x);
    RankSort(level[p..], x);
    assert p == 0 ==> level[..p] == [];
  }

  lemma CompactableSorted(level: seq<int>, sorted: bool)
    requires sorted ==> Sorted(level)
    ensures Sorted(Compactable(level, sorted))
  {
    SortSorted(level[|level| % 2..]);
  }

  lemma PromotedSorted(adj: seq<int>, above: seq<int>, coin: bool)
    requires |adj| % 2 == 0 && Sorted(adj) && Sorted(above)
    ensures Sorted(Promoted(adj, above, coin))
  {
    HalveSorted(adj, coin);
    HalveSorted(adj, !coin);
    MergeSorted(Halve(adj, coin), above);
  }

  /** One compaction moves the weighted rank of any value by at most the weight of its level. */
  lemma CompactionRank(level: seq<int>, above: seq<int>, sorted: bool, coin: bool, x: int)
    requires sorted ==> Sorted(level)
    ensures var adj := Compactable(level, sorted);
            -1 <= Rank(Leftover(level), x) + 2 * Rank(Promoted(adj, above, coin), x) - (Rank(level, x) + 2 * Rank(above, x)) <= 1
  {
    var adj := Compactable(level, sorted);
    LeftoverRank(level, sorted, x);
    CompactableSorted(level, sorted);
    HalveRank(adj, coin, x);
    HalveRank(adj, !coin, x);
    RankMerge(Halve(adj, coin), above, x);
  }

  // ---- compacting every level that is too full ----

  datatype Size = Size(k: nat, m: nat)

  /** The levels still to be visited, lowest first, from level `cur` up; the number of items and the capacity of the whole sketch. */
  datatype Todo = Todo(cur: nat, rest: seq<seq<int>>, count: nat, target: nat, sorted: bool)

  ghost predicate Ready(z: Size, t: Todo)
  {
    z.m >= 2 && t.count >= Population(t.rest)
  }

  /** A level is left alone while the sketch, or the level itself, is below capacity. */
  predicate Keeps(z: Size, t: Todo)
    requires t.rest != []
  {
    t.count < t.target || |t.rest[0]| < CapAt(z.k, z.m, |t.rest| - 1)
  }

  /** The levels that remain after compacting the lowest one into the one above, which may be new. */
  function Above(rest: seq<seq<int>>, sorted: bool, coin: bool): (r: seq<seq<int>>)
    requires rest != []
    ensures |r| == (if |rest| == 1 then 1 else |rest| - 1) && |r[0]| >= |rest[0]| / 2
    ensures Population(r) == Population(rest) - |rest[0]| + |rest[0]| / 2
  {
    var adj := Compactable(rest[0], sorted);
    if |rest| == 1 then [Promoted(adj, [], coin)]
    else [Promoted(adj, rest[1], coin)] + rest[2..]
  }

  /** What one iteration of general_compress leaves of the lowest level. */
  function Kept(z: Size, t: Todo): seq<int>
    requires t.rest != []
  {
    if Keeps(z, t) then t.rest[0] else Leftover(t.rest[0])
  }

  /** What one iteration of general_compress leaves to do; coins(h) is the random bit drawn at level h. */
  function Next(z: Size, t: Todo, coins: nat -> bool): (t': Todo)
    requires t.rest != [] && Ready(z, t)
    ensures Ready(z, t') && Population(t'.rest) + |t'.rest| < Population(t.rest) + |t.rest|
  {
    if Keeps(z, t) then
      Todo(t.cur + 1, t.rest[1..], t.count, t.target, true)
    else
      Todo(t.cur + 1, Above(t.rest, t.sorted, coins(t.cur)), t.count - |t.rest[0]| / 2,
           if |t.rest| == 1 then t.target + CapAt(z.k, z.m, t.cur + 1) else t.target, true)
  }

  /** What general_compress makes of the levels from `cur` up. */
  function Compress(z: Size, t: Todo, coins: nat -> bool): seq<seq<int>>
    requires Ready(z, t)
    decreases Population(t.rest) + |t.rest|
  {
    if t.rest == [] then [] else [Kept(z, t)] + Compress(z, Next(z, t, coins), coins)
  }

  /** The weights of the levels that are compacted, in units of the weight of level `cur`. */
  function CompressError(z: Size, t: Todo, coins: nat -> bool): nat
    requires Ready(z, t)
    decreases Population(t.rest) + |t.rest|
  {
    if t.rest == [] then 0
    else (if Keeps(z, t) then 0 else 1) + 2 * CompressError(z, Next(z, t, coins), coins)
  }

  lemma WeighCons(s: seq<int>, L: seq<seq<int>>, x: int)
    ensures Weight([s] + L) == |s| + 2 * Weight(L)
    ensures WeightedRank([s] + L, x) == Rank(s, x) + 2 * WeightedRank(L, x)
    ensures Population([s] + L) == |s| + Population(L)
  {
    assert ([s] + L)[1..] == L;
  }

  lemma WeighSplit(rest: seq<seq<int>>, x: int)
    requires rest != []
    ensures Weight(rest) == |rest[0]| + 2 * Weight(rest[1..])
    ensures WeightedRank(rest, x) == Rank(rest[0], x) + 2 * WeightedRank(rest[1..], x)
    ensures Population(rest) == |rest[0]| + Population(rest[1..])
  {
  }

  lemma WeighAbove(rest: seq<seq<int>>, sorted: bool, coin: bool, x: int)
    requires rest != [] && (sorted ==> Sorted(rest[0]))
    ensures |rest[0]| % 2 + 2 * Weight(Above(rest, sorted, coin)) == Weight(rest)
    ensures -1 <= Rank(Leftover(rest[0]), x) + 2 * WeightedRank(Above(rest, sorted, coin), x) - WeightedRank(rest, x) <= 1
  {
    hide Compactable, Promoted, Leftover, Rank, Sorted;
    var adj := Compactable(rest[0], sorted);
    var above := if |rest| == 1 then [] else rest[1];
    var up := Promoted(adj, above, coin);
    CompactionRank(rest[0], above, sorted, coin, x);
    WeighCons(up, if |rest| == 1 then [] else rest[2..], x);
    if |rest| > 1 {
      assert rest[1..][1..] == rest[2..];
    } else {
      RankOfNothing(x);
    }
  }

  lemma RankOfNothing(x: int)
    ensures Rank([], x) == 0
  {
  }

  /** The lowest remaining level may be unsorted only while it is level zero. */
  ghost predicate InOrder(t: Todo)
  {
    t.rest != [] ==> (t.sorted ==> Sorted(t.rest[0])) && AllSorted(t.rest[1..])
  }

  lemma AboveSorted(rest: seq<seq<int>>, sorted: bool, coin: bool)
    requires rest != [] && (sorted ==> Sorted(rest[0])) && AllSorted(rest[1..])
    ensures AllSorted(Above(rest, sorted, coin))
  {
    hide Compactable, Promoted, Sorted;
    var adj := Compactable(rest[0], sorted);
    CompactableSorted(rest[0], sorted);
    NothingSorted();
    if |rest| > 1 {
      assert rest[1..][0] == rest[1];
      PromotedSorted(adj, rest[1], coin);
      forall h | 0 <= h < |rest| - 2
        ensures Sorted(rest[2..][h])
      {
        assert rest[1..][h + 1] == rest[2..][h];
      }
    } else {
      PromotedSorted(adj, [], coin);
    }
  }

  lemma NothingSorted()
    ensures Sorted([])
  {
  }

  lemma NextInOrder(z: Size, t: Todo, coins: nat -> bool)
    requires t.rest != [] && Ready(z, t) && InOrder(t)
    ensures InOrder(Next(z, t, coins)) && AllSorted(Next(z, t, coins).rest)
  {
    hide Sorted, Above, CapAt;
    AboveSorted(t.rest, t.sorted, coins(t.cur));
    var next := Next(z, t, coins).rest;
    forall h | 0 <= h < |next| - 1
      ensures Sorted(next[1..][h])
    {
      assert next[1..][h] == next[h + 1];
    }
  }

  /** One iteration conserves weight, and moves a rank by at most one unit, and only if it compacts. */
  lemma NextRank(z: Size, t: Todo, coins: nat -> bool, x: int)
    requires t.rest != [] && Ready(z, t) && InOrder(t)
    ensures |Kept(z, t)| + 2 * Weight(Next(z, t, coins).rest) == Weight(t.rest)
    ensures var d := if Keeps(z, t) then 0 else 1;
            -d <= Rank(Kept(z, t), x) + 2 * WeightedRank(Next(z, t, coins).rest, x) - WeightedRank(t.rest, x) <= d
  {
    hide Sorted, Above, CapAt, Rank, Leftover;
    WeighAbove(t.rest, t.sorted, coins(t.cur), x);
    WeighSplit(t.rest, x);
  }

  /** Compaction conserves the total weight and moves no rank by more than the weights of the compacted levels. */
  lemma {:induction false} CompressRank(z: Size, t: Todo, coins: nat -> bool, x: int)
    requires Ready(z, t) && InOrder(t)
    ensures Weight(Compress(z, t, coins)) == Weight(t.rest)
    ensures -(CompressError(z, t, coins) as int) <= WeightedRank(Compress(z, t, coins), x) - WeightedRank(t.rest, x) <= CompressError(z, t, coins)
    decreases Population(t.rest) + |t.rest|
  {
    if t.rest != [] {
      hide Next, Kept, Keeps, InOrder, Rank;
      NextRank(z, t, coins, x);
      NextInOrder(z, t, coins);
      CompressRank(z, Next(z, t, coins), coins, x);
      WeighCons(Kept(z, t), Compress(z, Next(z, t, coins), coins), x);
    }
  }

  lemma {:induction false} CompressAllSorted(z: Size, t: Todo, coins: nat -> bool)
    requires Ready(z, t) && t.sorted && InOrder(t)
    ensures AllSorted(Compress(z, t, coins))
    decreases Population(t.rest) + |t.rest|
  {
    if t.rest != [] {
      NextInOrder(z, t, coins);
      CompressAllSorted(z, Next(z, t, coins), coins);
    }
  }

  /** Every level above the lowest is sorted afterwards. */
  lemma CompressSorted(z: Size, t: Todo, coins: nat -> bool)
    requires Ready(z, t) && InOrder(t) && t.rest != []
    ensures AllSorted(Compress(z, t, coins)[1..]) && (t.sorted ==> Sorted(Compress(z, t, coins)[0]))
  {
    NextInOrder(z, t, coins);
    CompressAllSorted(z, Next(z, t, coins), coins);
    assert Compress(z, t, coins)[1..] == Compress(z, Next(z, t, coins), coins);
  }

  /** The capacities of the levels below `cur`. */
  function CapacityBelow(z: Size, t: Todo): int
  {
    t.target - TotalCapacity(z.k, z.m, |t.rest|)
  }

  /**
   * The invariant behind the space bound; `below` counts the items of the levels below `cur`. Either the sketch is below
   * capacity, or every level below is.
   */
  ghost predicate Roomy(z: Size, t: Todo, below: nat)
  {
    t.target == TotalCapacity(z.k, z.m, t.cur + |t.rest|) && t.count == below + Population(t.rest) &&
    (t.count < t.target || below + t.cur <= CapacityBelow(z, t))
  }

  lemma NextRoomy(z: Size, t: Todo, coins: nat -> bool, below: nat)
    requires t.rest != [] && Ready(z, t) && Roomy(z, t, below)
    ensures Roomy(z, Next(z, t, coins), below + |Kept(z, t)|)
  {
    hide Above, CapAt, Leftover;
  }

  /** The space bound: however many items came in, fewer than the capacity of the final number of levels remain. */
  lemma {:induction false} CompressSpace(z: Size, t: Todo, coins: nat -> bool, below: nat)
    requires Ready(z, t) && Roomy(z, t, below) && t.cur + |t.rest| > 0
    ensures below + Population(Compress(z, t, coins)) < TotalCapacity(z.k, z.m, t.cur + |Compress(z, t, coins)|)
    decreases Population(t.rest) + |t.rest|
  {
    if t.rest != [] {
      NextRoomy(z, t, coins, below);
      CompressSpace(z, Next(z, t, coins), coins, below + |Kept(z, t)|);
      WeighCons(Kept(z, t), Compress(z, Next(z, t, coins), coins), 0);
      NextCur(z, t, coins);
    }
  }

  lemma NextCur(z: Size, t: Todo, coins: nat -> bool)
    requires t.rest != [] && Ready(z, t)
    ensures Next(z, t, coins).cur == t.cur + 1
    ensures |Compress(z, t, coins)| == 1 + |Compress(z, Next(z, t, coins), coins)|
  {
  }

  /** There are at most ub levels, and a weight that levels beyond them could not have. */
  ghost predicate Within(t: Todo, ub: nat)
  {
    t.cur + |t.rest| <= ub && Weight(t.rest) < Pow2(ub - t.cur)
  }

  lemma NextWithin(z: Size, t: Todo, coins: nat -> bool, ub: nat)
    requires t.rest != [] && Ready(z, t) && InOrder(t) && Within(t, ub)
    ensures Within(Next(z, t, coins), ub)
  {
    hide Above, CapAt, Sorted;
    NextRank(z, t, coins, 0);
    WeighSplit(t.rest, 0);
    var next := Next(z, t, coins).rest;
    if next != [] {
      WeighSplit(next, 0);
    }
  }

  /** New levels are added only while the weight of the sketch justifies them. */
  lemma {:induction false} CompressLevels(z: Size, t: Todo, coins: nat -> bool, ub: nat)
    requires Ready(z, t) && InOrder(t) && Within(t, ub)
    ensures t.cur + |Compress(z, t, coins)| <= ub
    decreases Population(t.rest) + |t.rest|
  {
    if t.rest != [] {
      hide Next, Kept, InOrder, Within;
      NextWithin(z, t, coins, ub);
      NextInOrder(z, t, coins);
      CompressLevels(z, Next(z, t, coins), coins, ub);
      NextCur(z, t, coins);
    } else {
      assert t.cur <= ub;
    }
  }

  ghost predicate TopNonEmpty(L: seq<seq<int>>)
  {
    L != [] ==> L[|L| - 1] != []
  }

  lemma NextTop(z: Size, t: Todo, coins: nat -> bool)
    requires t.rest != [] && Ready(z, t) && TopNonEmpty(t.rest)
    ensures TopNonEmpty(Next(z, t, coins).rest)
    ensures Next(z, t, coins).rest == [] ==> Kept(z, t) != []
  {
    hide CapAt, Leftover;
  }

  /** A non-empty top level stays non-empty, or gets a non-empty one above it. */
  lemma {:induction false} CompressTop(z: Size, t: Todo, coins: nat -> bool)
    requires Ready(z, t) && TopNonEmpty(t.rest)
    ensures TopNonEmpty(Compress(z, t, coins))
    decreases Population(t.rest) + |t.rest|
  {
    if t.rest != [] {
      NextTop(z, t, coins);
      CompressTop(z, Next(z, t, coins), coins);
    }
  }

  // ---- nothing is compacted without need ----

  /** As long as the whole sketch is below capacity every level is moved as it is. */
  lemma {:induction false} CompressFits(z: Size, t: Todo, coins: nat -> bool)
    requires Ready(z, t) && t.count < t.target
    ensures Compress(z, t, coins) == t.rest && CompressError(z, t, coins) == 0
    decreases Population(t.rest) + |t.rest|
  {
    if t.rest != [] {
      hide CapAt, Above, Leftover;
      CompressFits(z, Next(z, t, coins), coins);
      assert t.rest == [t.rest[0]] + t.rest[1..];
    }
  }

  /** When it is at capacity some level is compacted. */
  lemma {:induction false} CompressCompacts(z: Size, t: Todo, coins: nat -> bool)
    requires Ready(z, t) && t.rest != [] && t.count >= t.target && Population(t.rest) >= TotalCapacity(z.k, z.m, |t.rest|)
    ensures CompressError(z, t, coins) > 0 && Compress(z, t, coins) != t.rest
    decreases Population(t.rest) + |t.rest|
  {
    hide CapAt, Above;
    if Keeps(z, t) {
      FewerThanCapacity(z, t);
      CompressCompacts(z, Next(z, t, coins), coins);
      assert Compress(z, t, coins)[1..] == Compress(z, Next(z, t, coins), coins);
    } else {
      assert |Kept(z, t)| < |t.rest[0]|;
      assert Compress(z, t, coins)[0] == Kept(z, t);
    }
  }

  lemma FewerThanCapacity(z: Size, t: Todo)
    requires t.rest != [] && |t.rest[0]| < CapAt(z.k, z.m, |t.rest| - 1) && Population(t.rest) >= TotalCapacity(z.k, z.m, |t.rest|)
    ensures t.rest[1..] != [] && Population(t.rest[1..]) >= TotalCapacity(z.k, z.m, |t.rest[1..]|)
  {
    hide CapAt;
  }

  /** What is left to do after h iterations. */
  function After(z: Size, t: Todo, coins: nat -> bool, h: nat): (t': Todo)
    requires Ready(z, t) && h <= |Compress(z, t, coins)|
    ensures Ready(z, t')
    decreases h
  {
    if h == 0 then t
    else
      NextCur(z, t, coins);
      After(z, Next(z, t, coins), coins, h - 1)
  }

  lemma {:induction false} CompressAfter(z: Size, t: Todo, coins: nat -> bool, h: nat, below: nat)
    requires Ready(z, t) && h <= |Compress(z, t, coins)| && Roomy(z, t, below)
    ensures Compress(z, t, coins)[h..] == Compress(z, After(z, t, coins, h), coins)
    ensures Roomy(z, After(z, t, coins, h), below + Population(Compress(z, t, coins)[..h])) && After(z, t, coins, h).cur == t.cur + h
    decreases h
  {
    hide Next, Kept, Roomy;
    if h > 0 {
      NextCur(z, t, coins);
      NextRoomy(z, t, coins, below);
      CompressAfter(z, Next(z, t, coins), coins, h - 1, below + |Kept(z, t)|);
      var more := Compress(z, Next(z, t, coins), coins);
      assert Compress(z, t, coins)[..h] == [Kept(z, t)] + more[..h - 1];
      WeighCons(Kept(z, t), more[..h - 1], 0);
    }
  }

  /** The weights of the levels below h that do not come out as they came to their turn. */
  function CompactedWeights(z: Size, t: Todo, coins: nat -> bool, h: nat): nat
    requires Ready(z, t) && h <= |Compress(z, t, coins)|
    decreases h
  {
    if h == 0 then 0
    else
      var rest := After(z, t, coins, h - 1).rest;
      CompactedWeights(z, t, coins, h - 1) +
      if rest != [] && Compress(z, t, coins)[h - 1] == rest[0] then 0 else Pow2(h - 1)
  }

  /** The weights from the second level on, in units of the second level. */
  lemma {:induction false} CompactedShift(z: Size, t: Todo, coins: nat -> bool, h: nat)
    requires Ready(z, t) && t.rest != [] && 1 <= h <= |Compress(z, t, coins)|
    ensures |Compress(z, Next(z, t, coins), coins)| == |Compress(z, t, coins)| - 1
    ensures CompactedWeights(z, t, coins, h) == CompactedWeights(z, t, coins, 1) + 2 * CompactedWeights(z, Next(z, t, coins), coins, h - 1)
    decreases h
  {
    hide Next, Kept;
    NextCur(z, t, coins);
    if h > 1 {
      CompactedShift(z, t, coins, h - 1);
      assert Compress(z, t, coins) == [Kept(z, t)] + Compress(z, Next(z, t, coins), coins);
      assert Compress(z, t, coins)[h - 1] == Compress(z, Next(z, t, coins), coins)[h - 2];
      assert Pow2(h - 1) == 2 * Pow2(h - 2);
    }
  }

  /** The recorded error of a compression is the sum of 2^h over the levels h that it compacts, and no more. */
  lemma {:induction false} CompressErrorIs(z: Size, t: Todo, coins: nat -> bool)
    requires Ready(z, t)
    ensures CompressError(z, t, coins) == CompactedWeights(z, t, coins, |Compress(z, t, coins)|)
    decreases Population(t.rest) + |t.rest|
  {
    hide CapAt, Above;
    if t.rest != [] {
      NextCur(z, t, coins);
      CompressErrorIs(z, Next(z, t, coins), coins);
      CompactedShift(z, t, coins, |Compress(z, t, coins)|);
      FirstCompacted(z, t, coins);
    }
  }

  lemma FirstCompacted(z: Size, t: Todo, coins: nat -> bool)
    requires Ready(z, t) && t.rest != [] && 1 <= |Compress(z, t, coins)|
    ensures CompactedWeights(z, t, coins, 1) == if Keeps(z, t) then 0 else 1
  {
    hide CapAt, Above;
    assert Compress(z, t, coins)[0] == Kept(z, t);
    assert CompactedWeights(z, t, coins, 0) == 0 && After(z, t, coins, 0) == t && Pow2(0) == 1;
    if !Keeps(z, t) {
      assert |Kept(z, t)| < |t.rest[0]|;
    }
  }
}
