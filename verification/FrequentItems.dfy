/** The frequent-items sketch: fi/include/frequent_items_sketch.hpp. */
module FrequentItems {
  import opened Sets
  import opened Words
  import opened LinearProbing
  import opened ReversePurge
  import opened ReversePurgeMaps
  import opened Medians
  import opened Weights

  const LG_MIN_MAP_SIZE: nat := 3

  /** What is certain to be taken off for each unit of offset at a purge of a table of its largest size. */
  function Guarantee(lgMax: nat): nat
  {
    Upper(SampleSize(Capacity(lgMax) + 1))
  }

  /** Lower bound, true weight and upper bound of every item are in order. */
  ghost predicate Bounded<T(!new)>(m: map<T, nat>, truth: map<T, nat>, offset: nat)
  {
    forall x: T :: WeightIn(m, x) <= WeightIn(truth, x) <= WeightIn(m, x) + offset
  }

  ghost predicate Positive<T>(m: map<T, nat>)
  {
    forall x :: x in m ==> m[x] > 0
  }

  /** Tracked weights, true weights, total weight and offset fit together; each unit of offset has cost `factor` of the total. */
  ghost predicate Account<T(!new)>(m: map<T, nat>, truth: map<T, nat>, totalWeight: nat, offset: nat, factor: nat)
  {
    Bounded(m, truth, offset) && Positive(m) && Positive(truth) && totalWeight == Sum(truth) && offset * factor + Sum(m) <= totalWeight
  }

  lemma BoundedUpdate<T(!new)>(m: map<T, nat>, truth: map<T, nat>, offset: nat, item: T, weight: nat)
    requires Bounded(m, truth, offset)
    ensures Bounded(Added(m, item, weight), Added(truth, item, weight), offset)
  {
    forall x: T
      ensures WeightIn(Added(m, item, weight), x) <= WeightIn(Added(truth, item, weight), x)
              <= WeightIn(Added(m, item, weight), x) + offset
    {
      assert WeightIn(m, x) <= WeightIn(truth, x) <= WeightIn(m, x) + offset;
    }
  }

  lemma AccountUpdate<T(!new)>(m: map<T, nat>, truth: map<T, nat>, totalWeight: nat, offset: nat, factor: nat, item: T, weight: nat)
    requires Account(m, truth, totalWeight, offset, factor) && weight > 0
    ensures Account(Added(m, item, weight), Added(truth, item, weight), totalWeight + weight, offset, factor)
  {
    hide Sum, Bounded;
    SumAdded(m, item, weight);
    SumAdded(truth, item, weight);
    BoundedUpdate(m, truth, offset, item, weight);
  }

  lemma ChargeMore(offset: nat, more: nat, factor: nat, upper: nat)
    requires factor <= upper
    ensures (offset + more) * factor <= offset * factor + more * upper
  {
    TimesMonotone(more, factor, upper);
    Split(offset, more, factor);
  }

  lemma Split(a: nat, b: nat, c: nat)
    ensures (a + b) * c == a * c + b * c
  {
  }

  lemma BoundedPurge<T(!new)>(m: map<T, nat>, truth: map<T, nat>, offset: nat, amount: nat)
    requires Bounded(m, truth, offset)
    ensures Bounded(Purged(m, amount), truth, offset + amount)
  {
    forall x: T
      ensures WeightIn(Purged(m, amount), x) <= WeightIn(truth, x) <= WeightIn(Purged(m, amount), x) + (offset + amount)
    {
      assert WeightIn(m, x) <= WeightIn(truth, x) <= WeightIn(m, x) + offset;
    }
  }

  lemma AccountPurge<T(!new)>(m: map<T, nat>, truth: map<T, nat>, totalWeight: nat, offset: nat, factor: nat, amount: nat)
    requires Account(m, truth, totalWeight, offset, factor) && PurgeAmount(m, amount)
    requires SampleSize(|m|) > 0 ==> factor <= Upper(SampleSize(|m|))
    ensures Account(Purged(m, amount), truth, totalWeight, offset + amount, factor)
  {
    hide Sum, PurgeAmount, Bounded;
    BoundedPurge(m, truth, offset, amount);
    PurgeGain(m, amount);
    ChargeMore(offset, amount, factor, Upper(SampleSize(|m|)));
  }

  /** The account survives whatever the map does when it settles. */
  lemma AccountSettled<T(0,!new)>(items: ReversePurgeMap<T>, m: map<T, nat>, lg: nat, m': map<T, nat>, lg': nat, more: nat,
                                     truth: map<T, nat>, totalWeight: nat, offset: nat, factor: nat)
    requires items.Settled(m, lg, m', lg', more) && factor <= Guarantee(items.lgMax)
    requires Account(m, truth, totalWeight, offset, factor)
    ensures Account(m', truth, totalWeight, offset + more, factor)
  {
    hide Account, PurgeAmount, TablePurge, Capacity;
    if |m| > Capacity(lg) && lg >= items.lgMax {
      AccountPurge(m, truth, totalWeight, offset, factor, more);
    }
  }

  lemma BoundedMerge<T(!new)>(m: map<T, nat>, truth: map<T, nat>, offset: nat, m2: map<T, nat>, truth2: map<T, nat>, offset2: nat)
    requires Bounded(m, Combined(truth, m2), offset) && Bounded(m2, truth2, offset2)
    ensures Bounded(m, Combined(truth, truth2), offset + offset2)
  {
    forall x: T
      ensures WeightIn(m, x) <= WeightIn(Combined(truth, truth2), x) <= WeightIn(m, x) + (offset + offset2)
    {
      assert WeightIn(m, x) <= WeightIn(Combined(truth, m2), x) <= WeightIn(m, x) + offset;
      assert WeightIn(m2, x) <= WeightIn(truth2, x) <= WeightIn(m2, x) + offset2;
      assert WeightIn(Combined(truth, m2), x) == WeightIn(truth, x) + WeightIn(m2, x);
      assert WeightIn(Combined(truth, truth2), x) == WeightIn(truth, x) + WeightIn(truth2, x);
    }
  }

  /** What a merge leaves: the tracked weights have all been fed in, and the offset of the other sketch is added. */
  lemma AccountMerge<T(!new)>(m: map<T, nat>, truth: map<T, nat>, offset: nat, factor: nat, total: nat,
                              m2: map<T, nat>, truth2: map<T, nat>, total2: nat, offset2: nat, factor2: nat)
    requires Account(m, Combined(truth, m2), total, offset, factor) && Account(m2, truth2, total2, offset2, factor2)
    requires factor <= factor2
    ensures Account(m, Combined(truth, truth2), Sum(truth) + total2, offset + offset2, factor)
  {
    hide Sum, Bounded, Combined, Positive;
    SumCombined(truth, m2);
    SumCombined(truth, truth2);
    BoundedMerge(m, truth, offset, m2, truth2, offset2);
    PositiveMerge(truth, m2, truth2, offset2);
    MergeCharge(offset, offset2, factor, factor2);
  }

  lemma PositiveMerge<T(!new)>(truth: map<T, nat>, m2: map<T, nat>, truth2: map<T, nat>, offset2: nat)
    requires Positive(Combined(truth, m2)) && Positive(m2) && Positive(truth2) && Bounded(m2, truth2, offset2)
    ensures Positive(Combined(truth, truth2))
  {
    forall x | x in Combined(truth, truth2)
      ensures Combined(truth, truth2)[x] > 0
    {
      assert WeightIn(m2, x) <= WeightIn(truth2, x);
      if x !in truth2 {
        assert Combined(truth, m2)[x] == truth[x];
      }
    }
  }

  lemma MergeCharge(offset: nat, offset2: nat, factor: nat, factor2: nat)
    requires factor <= factor2
    ensures (offset + offset2) * factor <= offset * factor + offset2 * factor2
  {
    Split(offset, offset2, factor);
    TimesMonotone(offset2, factor, factor2);
  }

  lemma AccountWeaken<T(!new)>(m: map<T, nat>, truth: map<T, nat>, total: nat, offset: nat, factor: nat, smaller: nat)
    requires Account(m, truth, total, offset, factor) && smaller <= factor
    ensures Account(m, truth, total, offset, smaller)
  {
    TimesMonotone(offset, smaller, factor);
  }

  datatype Row<T> = Row(item: T, estimate: nat, lowerBound: nat, upperBound: nat)

  datatype ErrorType = NoFalsePositives | NoFalseNegatives

  /** The filter of get_frequent_items. */
  predicate Wanted(errType: ErrorType, lowerBound: nat, upperBound: nat, threshold: nat)
  {
    match errType
    case NoFalseNegatives => upperBound > threshold
    case NoFalsePositives => lowerBound > threshold
  }

  /** What a sketch tracks, in a table of 2^lg cells, and its offset. */
  datatype Tracked<T> = Tracked(weights: map<T, nat>, lg: nat, offset: nat)

  /** The entries were fed in one after the other: after each the map settled, and the offset grew by what a purge took off. */
  ghost predicate Path<T(0,!new)>(items: ReversePurgeMap<T>, path: seq<Tracked<T>>, entries: seq<Entry<T>>)
  {
    |path| == |entries| + 1 &&
    forall i :: 0 <= i < |entries| ==> SettlesTo(items, path[i], entries[i], path[i + 1])
  }

  ghost predicate SettlesTo<T(0,!new)>(items: ReversePurgeMap<T>, s: Tracked<T>, entry: Entry<T>, s': Tracked<T>)
  {
    s'.offset >= s.offset && items.Settled(Added(s.weights, entry.key, entry.value), s.lg, s'.weights, s'.lg, s'.offset - s.offset)
  }

  /** The entries are those of w, each once. */
  ghost predicate ListsAll<T>(entries: seq<Entry<T>>, w: map<T, nat>)
  {
    (forall i :: 0 <= i < |entries| ==> entries[i].key in w && w[entries[i].key] == entries[i].value) &&
    (forall i, j :: 0 <= i < j < |entries| ==> entries[i].key != entries[j].key) &&
    (forall x :: x in w ==> exists i :: 0 <= i < |entries| && entries[i].key == x)
  }

  /** From s to s' by feeding in the entries of w, in some order. */
  ghost predicate FedAll<T(0,!new)>(items: ReversePurgeMap<T>, s: Tracked<T>, w: map<T, nat>, s': Tracked<T>)
  {
    exists path, entries :: Path(items, path, entries) && ListsAll(entries, w) && path[0] == s && path[|entries|] == s'
  }

  lemma PathSnoc<T(0,!new)>(items: ReversePurgeMap<T>, path: seq<Tracked<T>>, entries: seq<Entry<T>>, entry: Entry<T>, s': Tracked<T>)
    requires Path(items, path, entries) && SettlesTo(items, path[|entries|], entry, s')
    ensures Path(items, path + [s'], entries + [entry]) && (path + [s'])[0] == path[0] && (path + [s'])[|entries| + 1] == s'
  {
    hide SettlesTo;
  }

  lemma PathStart<T(0,!new)>(items: ReversePurgeMap<T>, s: Tracked<T>)
    ensures Path(items, [s], [])
  {
  }

  /** The weights of the first n entries. */
  ghost function MapOf<T>(entries: seq<Entry<T>>, n: nat): map<T, nat>
    requires n <= |entries|
  {
    if n == 0 then map[] else MapOf(entries, n - 1)[entries[n - 1].key := entries[n - 1].value]
  }

  lemma {:induction false} MapOfPart<T>(entries: seq<Entry<T>>, w: map<T, nat>, n: nat)
    requires ListsAll(entries, w) && n <= |entries|
    ensures forall x :: x in MapOf(entries, n) <==> exists i :: 0 <= i < n && entries[i].key == x
    ensures forall x :: x in MapOf(entries, n) ==> x in w && MapOf(entries, n)[x] == w[x]
  {
    if n > 0 {
      MapOfPart(entries, w, n - 1);
    }
  }

  lemma MapOfAll<T>(entries: seq<Entry<T>>, w: map<T, nat>)
    requires ListsAll(entries, w)
    ensures MapOf(entries, |entries|) == w
  {
    MapOfPart(entries, w, |entries|);
  }

  /** As long as all items have room in a table of the largest size, the weights just add up. */
  lemma {:induction false} PathInRoom<T(0,!new)>(items: ReversePurgeMap<T>, path: seq<Tracked<T>>, entries: seq<Entry<T>>, w: map<T, nat>, n: nat)
    requires Path(items, path, entries) && ListsAll(entries, w) && n <= |entries|
    requires |path[0].weights.Keys + w.Keys| <= Capacity(items.lgMax)
    ensures path[n].weights == Combined(path[0].weights, MapOf(entries, n)) && path[n].offset == path[0].offset
  {
    hide Capacity, Combined, Added, ListsAll, MapOf;
    if n == 0 {
      NoneCombined(path[0].weights, entries);
    } else {
      PathInRoom(items, path, entries, w, n - 1);
      assert SettlesTo(items, path[n - 1], entries[n - 1], path[n]);
      OneMoreEntry(path[0].weights, entries, w, n);
    }
  }

  lemma NoneCombined<T>(m: map<T, nat>, entries: seq<Entry<T>>)
    ensures Combined(m, MapOf(entries, 0)) == m
  {
  }

  lemma OneMoreEntry<T>(m: map<T, nat>, entries: seq<Entry<T>>, w: map<T, nat>, n: nat)
    requires ListsAll(entries, w) && 0 < n <= |entries|
    ensures var sum := Combined(m, MapOf(entries, n));
            Added(Combined(m, MapOf(entries, n - 1)), entries[n - 1].key, entries[n - 1].value) == sum && |sum| <= |m.Keys + w.Keys|
  {
    hide Combined, Added;
    MapOfPart(entries, w, n - 1);
    MapOfPart(entries, w, n);
    CombinedNext(m, MapOf(entries, n - 1), entries[n - 1].key, entries[n - 1].value);
    CombinedSize(m, MapOf(entries, n), w);
  }

  lemma CombinedSize<T>(m: map<T, nat>, part: map<T, nat>, w: map<T, nat>)
    requires forall x :: x in part ==> x in w
    ensures |Combined(m, part)| <= |m.Keys + w.Keys|
  {
    var sum := Combined(m, part);
    assert sum.Keys == m.Keys + part.Keys;
    assert |sum| == |sum.Keys|;
    SubsetSize(sum.Keys, m.Keys + w.Keys);
  }

  /** So a merge of items that have room together purges nothing. */
  lemma FedInRoom<T(0,!new)>(items: ReversePurgeMap<T>, s: Tracked<T>, w: map<T, nat>, s': Tracked<T>)
    requires FedAll(items, s, w, s') && |s.weights.Keys + w.Keys| <= Capacity(items.lgMax)
    ensures s'.weights == Combined(s.weights, w) && s'.offset == s.offset
  {
    hide SettlesTo, ListsAll, Capacity, Combined;
    var path, entries :| Path(items, path, entries) && ListsAll(entries, w) && path[0] == s && path[|entries|] == s';
    PathInRoom(items, path, entries, w, |entries|);
    MapOfAll(entries, w);
  }

  /** If all items have room together, the weights add up and the offset stays. */
  ghost predicate InRoom<T(0,!new)>(items: ReversePurgeMap<T>, s: Tracked<T>, w: map<T, nat>, s': Tracked<T>)
  {
    |s.weights.Keys + w.Keys| <= Capacity(items.lgMax) ==> s'.weights == Combined(s.weights, w) && s'.offset == s.offset
  }

  lemma InRoomAdds<T(0,!new)>(items: ReversePurgeMap<T>, s: Tracked<T>, w: map<T, nat>, s': Tracked<T>)
    requires FedAll(items, s, w, s')
    ensures InRoom(items, s, w, s')
  {
    hide FedAll, Capacity, Combined;
    if |s.weights.Keys + w.Keys| <= Capacity(items.lgMax) {
      FedInRoom(items, s, w, s');
    }
  }

  class FrequentItemsSketch<T(==,0,!new)> {
    var totalWeight: nat
    var offset: nat
    var items: ReversePurgeMap<T>
    ghost var truth: map<T, nat>  // the weight fed in for every item
    ghost var factor: nat
    ghost var Repr: set<object>

    ghost predicate Valid()
      reads this, Repr
    {
      this in Repr && Owns() && items.Valid() && factor <= Guarantee(items.lgMax) &&
      Account(items.weights, truth, totalWeight, offset, factor)
    }

    ghost predicate Owns()
      reads this, Repr
    {
      items in Repr && items.keys in Repr && items.values in Repr && items.states in Repr
    }

    constructor (hash: T -> nat, lgMaxMapSize: nat)
      ensures Valid() && truth == map[] && fresh(Repr) && offset == 0
      ensures items.lgMax == (if lgMaxMapSize < LG_MIN_MAP_SIZE then LG_MIN_MAP_SIZE else lgMaxMapSize)
      ensures factor == Guarantee(items.lgMax) && items.weights == map[] && items.hash == hash && items.lgCur == 3
    {
      var lgMax := if lgMaxMapSize < LG_MIN_MAP_SIZE then LG_MIN_MAP_SIZE else lgMaxMapSize;
      var m := new ReversePurgeMap<T>(hash, LG_MIN_MAP_SIZE, lgMax);
      items := m;
      totalWeight := 0;
      offset := 0;
      truth := map[];
      factor := Guarantee(lgMax);
      Repr := {this, m} + m.Arrays();
    }

    /** The map has settled from weights m in a table of 2^lg cells, and what a purge took off has been added to the offset. */
    ghost predicate Settles(m: map<T, nat>, lg: nat, before: nat)
      reads this, items
    {
      offset >= before && items.Settled(m, lg, items.weights, items.lgCur, offset - before)
    }

    /** Too few items for a search to reach the drift limit, and for a purge. */
    ghost predicate Few()
      reads this, items
    {
      |items.weights| < DRIFT_LIMIT - 1 && (items.lgCur < items.lgMax || |items.weights| < Capacity(items.lgMax))
    }

    /**
     * update: false stands for the drift exception. It occurs when the item cannot be placed, and cannot in tables of up
     * to 2^10 cells, for smooth updates, or while there are too few items.
     */
    method Update(item: T, weight: nat) returns (ok: bool)
      requires Valid()
      modifies Repr
      ensures items.lgMax <= 10 || items.Smooth(Added(old(items.weights), item, weight), old(items.lgCur)) || old(Few()) ==> ok
      ensures weight > 0 && !old(items.CanPlace(item)) ==> !ok
      ensures ok ==> Valid() && truth == (if weight == 0 then old(truth) else Added(old(truth), item, weight))
      ensures ok && weight > 0 ==> Settles(Added(old(items.weights), item, weight), old(items.lgCur), old(offset))
      ensures items == old(items) && factor == old(factor) && fresh(Repr - old(Repr))
    {
      hide Account, PurgeAmount, TablePurge, Guarantee, Direct, Capacity;
      if weight == 0 {
        return true;
      }
      AccountUpdate(items.weights, truth, totalWeight, offset, factor, item, weight);
      totalWeight := totalWeight + weight;
      truth := Added(truth, item, weight);
      ok := AdjustItem(item, weight);
    }

    method AdjustItem(item: T, weight: nat) returns (ok: bool)
      requires this in Repr && Owns() && items.Valid() && factor <= Guarantee(items.lgMax)
      requires Account(Added(items.weights, item, weight), truth, totalWeight, offset, factor)
      modifies Repr
      ensures items.lgMax <= 10 || items.Smooth(Added(old(items.weights), item, weight), old(items.lgCur)) || old(Few()) ==> ok
      ensures !old(items.CanPlace(item)) ==> !ok
      ensures ok ==> Valid() && Settles(Added(old(items.weights), item, weight), old(items.lgCur), old(offset))
      ensures items == old(items) && factor == old(factor) && truth == old(truth) && fresh(Repr - old(Repr))
    {
      hide Account, PurgeAmount, TablePurge, Direct, MapCells, Guarantee, Capacity, Active, Pow2;
      ghost var m, lg := Added(items.weights, item, weight), items.lgCur;
      var more;
      ok, more := items.AdjustOrInsert(item, weight);
      offset := offset + more;
      if ok {
        AccountSettled(items, m, lg, items.weights, items.lgCur, more, truth, totalWeight, old(offset), factor);
      }
      Own();
    }

    /** Record the arrays in use. */
    ghost method Own()
      modifies this`Repr
      ensures Repr == old(Repr) + items.Arrays()
      ensures old(Settling()) ==> Valid()
    {
      hide Account, MapCells, Guarantee, Capacity, Active, Pow2;
      Repr := Repr + items.Arrays();
    }

    ghost predicate Settling()
      reads this, items, items.Arrays()
    {
      this in Repr && items in Repr && items.Valid() && factor <= Guarantee(items.lgMax) &&
      Account(items.weights, truth, totalWeight, offset, factor)
    }

    /** merge: a sketch without active entries is skipped, whatever its total weight. */
    method Merge(other: FrequentItemsSketch<T>) returns (ok: bool)
      requires Valid() && other.Valid() && other.Repr !! Repr
      modifies Repr
      ensures items.lgMax <= 10 ==> ok
      ensures ok ==> Valid() && truth == MergedTruth(old(truth), other.items.weights, other.truth)
      ensures other.items.weights == map[] ==> ok && items.weights == old(items.weights) && offset == old(offset) && totalWeight == old(totalWeight)
      ensures ok && other.items.weights != map[] ==>
                offset >= other.offset &&
                FedAll(items, old(State()), other.items.weights, Tracked(items.weights, items.lgCur, offset - other.offset)) &&
                InOrder(items, old(State()), old(other.items.keys[..]), old(other.items.values[..]), old(other.items.states[..]),
                        Tracked(items.weights, items.lgCur, offset - other.offset))
      ensures ok && other.items.weights != map[] && |old(items.weights).Keys + other.items.weights.Keys| <= Capacity(items.lgMax) ==>
                items.weights == Combined(old(items.weights), other.items.weights) && offset == old(offset) + other.offset
      ensures ok ==> factor == if other.items.weights == map[] || old(factor) <= other.factor then old(factor) else other.factor
      ensures items == old(items) && fresh(Repr - old(Repr))
    {
      hide Account, MapCells, Guarantee, Capacity, Active, Pow2, Combined, FedAll, InOrder;
      other.items.Size();
      if other.items.numActive == 0 {
        return true;
      }
      ok := MergeActive(other);
    }

    /** The merge with a sketch that has active entries. */
    method MergeActive(other: FrequentItemsSketch<T>) returns (ok: bool)
      requires Valid() && other.Valid() && other.Repr !! Repr && other.items.weights != map[]
      modifies Repr
      ensures items.lgMax <= 10 ==> ok
      ensures ok ==> Valid() && truth == MergedTruth(old(truth), other.items.weights, other.truth)
      ensures ok ==>
                offset >= other.offset && FedAll(items, old(State()), other.items.weights, Tracked(items.weights, items.lgCur, offset - other.offset)) &&
                InRoom(items, old(State()), other.items.weights, Tracked(items.weights, items.lgCur, offset - other.offset)) &&
                InOrder(items, old(State()), old(other.items.keys[..]), old(other.items.values[..]), old(other.items.states[..]),
                        Tracked(items.weights, items.lgCur, offset - other.offset))
      ensures ok ==> factor == if old(factor) <= other.factor then old(factor) else other.factor
      ensures items == old(items) && fresh(Repr - old(Repr))
    {
      hide Account, MapCells, Guarantee, Capacity, Active, Pow2, Combined, FedAll, InRoom, FedCells, IterationOrder;
      other.items.Size();
      var mergedTotalWeight := totalWeight + other.totalWeight; // for correction at the end
      ghost var truth0, before, w2 := truth, State(), other.items.weights;
      Weaken(other.factor);
      var cells := Traverse(other.items.states, other.items.numActive, other.items.lgCur);
      ok := FeedCells(other, cells);
      if ok {
        assert other.items.weights == w2;
        ghost var fed := State();
        InRoomAdds(items, before, w2, fed);
        Finish(other, truth0, mergedTotalWeight);
        assert Tracked(items.weights, items.lgCur, offset - other.offset) == fed;
      }
    }

    ghost function State(): Tracked<T>
      reads this, items
    {
      Tracked(items.weights, items.lgCur, offset)
    }

    ghost method Weaken(smaller: nat)
      requires Valid()
      modifies this`factor
      ensures Valid() && factor == if old(factor) <= smaller then old(factor) else smaller
      ensures totalWeight == Sum(truth)
    {
      if smaller < factor {
        AccountWeaken(items.weights, truth, totalWeight, offset, factor, smaller);
        factor := smaller;
      }
      hide Account, MapCells, Guarantee, Capacity, Active, Pow2;
    }

    /** The call of update in the loop of merge. */
    method FeedEntry(item: T, weight: nat) returns (ok: bool)
      requires Valid() && weight > 0
      modifies Repr
      ensures items.lgMax <= 10 ==> ok
      ensures ok ==> Valid() && truth == Added(old(truth), item, weight) && SettlesTo(items, old(State()), Entry(item, weight), State())
      ensures items == old(items) && factor == old(factor) && fresh(Repr - old(Repr))
    {
      hide Direct, TablePurge, PurgeAmount, Account, MapCells, Guarantee, Capacity, Active, Pow2;
      ok := Update(item, weight);
    }

    /** The loop of merge over the entries of the other sketch. */
    method FeedCells(other: FrequentItemsSketch<T>, cells: seq<nat>) returns (ok: bool)
      requires Valid() && other.Valid() && other.Repr !! Repr && Listed(cells, other.items.states[..])
      modifies Repr
      ensures items.lgMax <= 10 ==> ok
      ensures ok ==> Valid() && truth == Combined(old(truth), other.items.weights) && FedAll(items, old(State()), other.items.weights, State())
      ensures ok ==> FedCells(items, old(State()), old(other.items.keys[..]), old(other.items.values[..]), cells, |cells|, State())
      ensures items == old(items) && factor == old(factor) && fresh(Repr - old(Repr))
    {
      hide Account, MapCells, Guarantee, Capacity, Active, Pow2, Combined, Listed, Merging, FedAll, FedCells, Shows;
      ghost var k, v, s, w, before, truth0 := other.items.keys[..], other.items.values[..], other.items.states[..], other.items.weights, State(), truth;
      other.ShowsItself();
      MergingStart(items, before, truth0, k, v, s, cells, other.items.hash, w);
      for i := 0 to |cells|
        invariant Valid() && items == old(items) && factor == old(factor) && fresh(Repr - old(Repr))
        invariant other.Shows(k, v, w) && other.Repr !! Repr
        invariant Merging(items, before, truth0, k, v, s, cells, i, other.items.hash, w, State(), truth)
      {
        ok := FeedCell(other, cells, i, before, truth0, k, v, s, w);
        if !ok {
          return;
        }
      }
      other.Shown(k, v, w);
      MergingEnd(items, before, truth0, k, v, s, cells, other.items.hash, w, State(), truth);
      return true;
    }

    /** The cells and weights of a sketch that is merged into another. */
    ghost predicate Shows(k: seq<T>, v: seq<nat>, w: map<T, nat>)
      reads this, Repr
    {
      Valid() && items.keys[..] == k && items.values[..] == v && items.weights == w
    }

    lemma ShowsItself()
      requires Valid()
      ensures Shows(items.keys[..], items.values[..], items.weights)
    {
    }

    lemma Shown(k: seq<T>, v: seq<nat>, w: map<T, nat>)
      requires Shows(k, v, w)
      ensures Valid() && items.keys[..] == k && items.values[..] == v && items.weights == w && Positive(w)
    {
      hide MapCells, Guarantee, Capacity, Active, Pow2;
    }

    /** One entry of the other sketch. */
    method FeedCell(other: FrequentItemsSketch<T>, cells: seq<nat>, i: nat, ghost before: Tracked<T>, ghost truth0: map<T, nat>,
                    ghost k: seq<T>, ghost v: seq<nat>, ghost s: seq<nat>, ghost w: map<T, nat>) returns (ok: bool)
      requires Valid() && other.Shows(k, v, w) && other.Repr !! Repr && i < |cells|
      requires Merging(items, before, truth0, k, v, s, cells, i, other.items.hash, w, State(), truth)
      modifies Repr
      ensures items.lgMax <= 10 ==> ok
      ensures ok ==> Valid() && Merging(items, before, truth0, k, v, s, cells, i + 1, other.items.hash, w, State(), truth)
      ensures items == old(items) && factor == old(factor) && fresh(Repr - old(Repr))
    {
      hide Account, MapCells, Guarantee, Capacity, Active, Pow2, Combined, Listed, Merging, SettlesTo, Shows;
      other.Shown(k, v, w);
      MergingCell(items, before, truth0, k, v, s, cells, i, other.items.hash, w, State(), truth);
      ghost var at, truth1 := State(), truth;
      ok := FeedEntry(other.items.keys[cells[i]], other.items.values[cells[i]]);
      if ok {
        MergingNext(items, before, truth0, k, v, s, cells, i, other.items.hash, w, at, truth1, State(), truth);
      }
    }

    /** The last lines of merge. */
    method Finish(other: FrequentItemsSketch<T>, ghost truth0: map<T, nat>, mergedTotalWeight: nat)
      requires Valid() && other.Valid() && other.Repr !! Repr && factor <= other.factor
      requires truth == Combined(truth0, other.items.weights) && mergedTotalWeight == Sum(truth0) + other.totalWeight
      modifies this
      ensures Valid() && truth == Combined(truth0, other.truth)
      ensures Repr == old(Repr) && items == old(items) && factor == old(factor) && offset == old(offset) + other.offset
    {
      hide Account, MapCells, Guarantee, Capacity, Active, Pow2, Combined;
      AccountMerge(items.weights, truth0, offset, factor, totalWeight, other.items.weights, other.truth, other.totalWeight, other.offset, other.factor);
      offset := offset + other.offset;
      totalWeight := mergedTotalWeight;
      truth := Combined(truth0, other.truth);
    }

    /** get_lower_bound */
    method GetLowerBound(item: T) returns (bound: nat)
      requires Valid()
      ensures bound <= WeightIn(truth, item) && bound == WeightIn(items.weights, item)
    {
      bound := items.Get(item);
      assert WeightIn(items.weights, item) <= WeightIn(truth, item);
    }

    /** get_upper_bound */
    method GetUpperBound(item: T) returns (bound: nat)
      requires Valid()
      ensures WeightIn(truth, item) <= bound == WeightIn(items.weights, item) + offset
    {
      var weight := items.Get(item);
      bound := weight + offset;
      assert WeightIn(truth, item) <= WeightIn(items.weights, item) + offset;
    }

    /** get_estimate: zero for an item that is not tracked, otherwise too large by no more than the maximum error. */
    method GetEstimate(item: T) returns (estimate: nat)
      requires Valid()
      ensures estimate == if item in items.weights then items.weights[item] + offset else 0
      ensures item in items.weights ==> WeightIn(truth, item) <= estimate <= WeightIn(truth, item) + offset
      ensures item !in items.weights ==> estimate == 0 && WeightIn(truth, item) <= offset
    {
      var weight := items.Get(item);
      assert WeightIn(items.weights, item) <= WeightIn(truth, item) <= WeightIn(items.weights, item) + offset;
      if weight > 0 {
        return weight + offset;
      }
      return 0;
    }

    /** get_maximum_error: with all maps of one size of up to 2^10 cells it is within what get_apriori_error promises. */
    method GetMaximumError() returns (error: nat)
      requires Valid()
      ensures error == offset
      ensures forall item :: WeightIn(items.weights, item) <= WeightIn(truth, item) <= WeightIn(items.weights, item) + error
      ensures items.lgMax <= 10 && factor == Guarantee(items.lgMax) ==> WithinEpsilon(items.lgMax, error, totalWeight)
    {
      error := offset;
      Apriori();
    }

    lemma Apriori()
      requires Valid()
      ensures items.lgMax <= 10 && factor == Guarantee(items.lgMax) ==> WithinEpsilon(items.lgMax, offset, totalWeight)
    {
      hide Account, MapCells, Guarantee, Capacity, Active, Pow2, WithinEpsilon;
      if items.lgMax <= 10 && factor == Guarantee(items.lgMax) {
        AprioriError(items.weights, truth, totalWeight, offset, items.lgMax);
      }
    }

    /** get_frequent_items: one row for every tracked item that passes the filter, by descending estimate. */
    method GetFrequentItems(errType: ErrorType, threshold: nat) returns (rows: seq<Row<T>>)
      requires Valid()
      ensures Descending(rows) && forall i, j :: 0 <= i < j < |rows| ==> rows[i].item != rows[j].item
      ensures forall i :: 0 <= i < |rows| ==> rows[i].item in items.weights && rows[i].lowerBound == items.weights[rows[i].item]
      ensures forall i :: 0 <= i < |rows| ==> rows[i].upperBound == rows[i].estimate == items.weights[rows[i].item] + offset
      ensures forall i :: 0 <= i < |rows| ==> rows[i].lowerBound <= WeightIn(truth, rows[i].item) <= rows[i].upperBound
      ensures forall x :: HasRow(rows, x) <==>
                x in items.weights && items.weights[x] + (if errType == NoFalsePositives then 0 else offset) > (if threshold == 0 then offset else threshold)
      ensures errType == NoFalsePositives ==> forall i :: 0 <= i < |rows| ==> WeightIn(truth, rows[i].item) > (if threshold == 0 then offset else threshold)
      ensures errType == NoFalseNegatives ==>
                forall x :: WeightIn(truth, x) > (if threshold == 0 then offset else threshold) && WeightIn(truth, x) > offset ==> HasRow(rows, x)
    {
      hide MapCells, Guarantee, Capacity, Active, Pow2, Wanted, SortRows, RowOk, HasRow, IterationOrder, Bounded, Positive, Sum;
      var th := Threshold(threshold, offset);
      var cells := Traverse(items.states, items.numActive, items.lgCur);
      var found := CollectRows(items.keys, items.values, cells, offset, errType, th, items.states[..], items.hash, items.weights);
      rows := SortRows(found);
      FinalRows(found, items.weights, truth, offset, errType, th);
    }
  }

  ghost predicate Descending<T>(rows: seq<Row<T>>)
  {
    forall i, j :: 0 <= i < j < |rows| ==> rows[i].estimate >= rows[j].estimate
  }

  function InsertRow<T>(rows: seq<Row<T>>, row: Row<T>): seq<Row<T>>
  {
    if rows == [] || row.estimate >= rows[0].estimate then [row] + rows else [rows[0]] + InsertRow(rows[1..], row)
  }

  lemma {:induction false} InsertedRow<T>(rows: seq<Row<T>>, row: Row<T>)
    requires Descending(rows)
    ensures Descending(InsertRow(rows, row)) && multiset(InsertRow(rows, row)) == multiset(rows) + multiset{row}
  {
    InsertedBag(rows, row);
    if rows != [] && row.estimate < rows[0].estimate {
      InsertedRow(rows[1..], row);
      BelowFirst(InsertRow(rows[1..], row), rows[1..], row, rows[0].estimate);
    }
  }

  lemma {:induction false} InsertedBag<T>(rows: seq<Row<T>>, row: Row<T>)
    ensures multiset(InsertRow(rows, row)) == multiset(rows) + multiset{row}
  {
    if rows != [] && row.estimate < rows[0].estimate {
      InsertedBag(rows[1..], row);
      assert rows == [rows[0]] + rows[1..];
    }
  }

  lemma BelowFirst<T>(more: seq<Row<T>>, rows: seq<Row<T>>, row: Row<T>, top: nat)
    requires multiset(more) == multiset(rows) + multiset{row} && row.estimate <= top
    requires forall i :: 0 <= i < |rows| ==> rows[i].estimate <= top
    ensures forall i :: 0 <= i < |more| ==> more[i].estimate <= top
  {
    forall i | 0 <= i < |more|
      ensures more[i].estimate <= top
    {
      assert more[i] in multiset(more);
      assert more[i] in rows || more[i] == row;
    }
  }

  /** std::sort by descending estimate. */
  function SortRows<T>(rows: seq<Row<T>>): seq<Row<T>>
  {
    if rows == [] then [] else InsertRow(SortRows(rows[..|rows| - 1]), rows[|rows| - 1])
  }

  lemma {:induction false} SortedAgain<T>(rows: seq<Row<T>>)
    ensures Descending(SortRows(rows)) && multiset(SortRows(rows)) == multiset(rows)
    decreases |rows|
  {
    if rows == [] {
    } else {
      var n := |rows| - 1;
      SortedAgain(rows[..n]);
      InsertedRow(SortRows(rows[..n]), rows[n]);
      assert rows == rows[..n] + [rows[n]];
    }
  }

  /** Sorting keeps the rows: the same rows, and still one for each item. */
  lemma SortedRows<T>(rows: seq<Row<T>>)
    requires forall i, j :: 0 <= i < j < |rows| ==> rows[i].item != rows[j].item
    ensures var sorted := SortRows(rows);
            Descending(sorted) && (forall i, j :: 0 <= i < j < |sorted| ==> sorted[i].item != sorted[j].item) &&
            (forall i :: 0 <= i < |sorted| ==> sorted[i] in rows) && forall i :: 0 <= i < |rows| ==> rows[i] in sorted
  {
    hide SortRows;
    SortedAgain(rows);
    var sorted := SortRows(rows);
    forall i | 0 <= i < |sorted|
      ensures sorted[i] in rows
    {
      assert sorted[i] in multiset(sorted);
    }
    forall i | 0 <= i < |rows|
      ensures rows[i] in sorted
    {
      assert rows[i] in multiset(rows);
    }
    forall i, j | 0 <= i < j < |sorted|
      ensures sorted[i].item != sorted[j].item
    {
      Twice(sorted, i, j);
      Once(rows, sorted[i]);
      var p :| 0 <= p < |rows| && rows[p] == sorted[i];
      var q :| 0 <= q < |rows| && rows[q] == sorted[j];
    }
  }

  lemma Twice<R>(rows: seq<R>, i: nat, j: nat)
    requires i < j < |rows|
    ensures rows[i] == rows[j] ==> multiset(rows)[rows[i]] >= 2
  {
    assert rows == rows[..j] + [rows[j]] + rows[j + 1..];
    assert rows[i] in rows[..j];
  }

  lemma {:induction false} Once<T>(rows: seq<Row<T>>, row: Row<T>)
    requires forall i, j :: 0 <= i < j < |rows| ==> rows[i].item != rows[j].item
    ensures multiset(rows)[row] <= 1
    decreases |rows|
  {
    if rows != [] {
      var n := |rows| - 1;
      Once(rows[..n], row);
      assert rows == rows[..n] + [rows[n]];
      assert row == rows[n] ==> row !in rows[..n];
    }
  }

  /** The loop of get_frequent_items. */
  method CollectRows<T(==)>(keys: array<T>, values: array<nat>, cells: seq<nat>, offset: nat, errType: ErrorType, th: nat,
                        ghost s: seq<nat>, ghost hash: T -> nat, ghost w: map<T, nat>) returns (rows: seq<Row<T>>)
    requires MapCells(keys[..], values[..], s, hash, w) && Listed(cells, s)
    ensures forall x :: x in w && Wanted(errType, w[x], w[x] + offset, th) ==> exists r :: 0 <= r < |rows| && rows[r].item == x
    ensures forall r :: 0 <= r < |rows| ==> RowOk(rows[r], w, offset) && Wanted(errType, rows[r].lowerBound, rows[r].upperBound, th)
    ensures forall r, q :: 0 <= r < q < |rows| ==> rows[r].item != rows[q].item
  {
    hide MapCells, Wanted, Listed, RowsOf;
    rows := [];
    RowsNone(keys[..], values[..], s, cells, hash, w, offset, errType, th);
    for i := 0 to |cells|
      invariant RowsOf(rows, keys[..], values[..], s, cells, i, hash, w, offset, errType, th)
    {
      RowsSkip(rows, keys[..], values[..], s, cells, i, hash, w, offset, errType, th);
      var lb := values[cells[i]];
      var est := lb + offset;
      if Wanted(errType, lb, est, th) {
        RowsAdd(rows, keys[..], values[..], s, cells, i, hash, w, offset, errType, th);
        rows := rows + [Row(keys[cells[i]], est, lb, est)];
      }
    }
    RowsAll(rows, keys[..], values[..], s, cells, hash, w, offset, errType, th);
  }

  /** USE_MAX_ERROR, zero, stands for the maximum error. */
  function Threshold(threshold: nat, maxError: nat): nat { if threshold == 0 then maxError else threshold }

  ghost predicate RowOk<T>(row: Row<T>, w: map<T, nat>, offset: nat)
  {
    row.item in w && row.lowerBound == w[row.item] && row.upperBound == row.estimate == w[row.item] + offset
  }

  /** x is the key of one of the first i listed cells. */
  ghost predicate Met<T>(x: T, k: seq<T>, cells: seq<nat>, i: nat)
  {
    exists c :: 0 <= c < i <= |cells| && cells[c] < |k| && k[cells[c]] == x
  }

  ghost predicate HasRow<T>(rows: seq<Row<T>>, x: T)
  {
    exists r :: 0 <= r < |rows| && rows[r].item == x
  }

  /** The state of the loop of get_frequent_items after i cells. */
  ghost predicate RowsOf<T>(rows: seq<Row<T>>, k: seq<T>, v: seq<nat>, s: seq<nat>, cells: seq<nat>, i: nat, hash: T -> nat, w: map<T, nat>,
                            offset: nat, errType: ErrorType, th: nat)
  {
    MapCells(k, v, s, hash, w) && Listed(cells, s) && i <= |cells| &&
    (forall r, q :: 0 <= r < q < |rows| ==> rows[r].item != rows[q].item) &&
    (forall r :: 0 <= r < |rows| ==>
      RowOk(rows[r], w, offset) && Wanted(errType, rows[r].lowerBound, rows[r].upperBound, th) && Met(rows[r].item, k, cells, i)) &&
    (forall c :: 0 <= c < i && Wanted(errType, v[cells[c]], v[cells[c]] + offset, th) ==> HasRow(rows, k[cells[c]]))
  }

  lemma RowsNone<T>(k: seq<T>, v: seq<nat>, s: seq<nat>, cells: seq<nat>, hash: T -> nat, w: map<T, nat>, offset: nat, errType: ErrorType, th: nat)
    requires MapCells(k, v, s, hash, w) && Listed(cells, s)
    ensures RowsOf([], k, v, s, cells, 0, hash, w, offset, errType, th)
  {
  }

  lemma MetNext<T>(k: seq<T>, s: seq<nat>, cells: seq<nat>, i: nat)
    requires Listed(cells, s) && |k| == |s| && DistinctKeys(k, s) && i < |cells|
    ensures !Met(k[cells[i]], k, cells, i) && Met(k[cells[i]], k, cells, i + 1)
    ensures forall x :: Met(x, k, cells, i) ==> Met(x, k, cells, i + 1)
  {
  }

  lemma HasRowMore<T>(rows: seq<Row<T>>, row: Row<T>)
    ensures HasRow(rows + [row], row.item) && forall x :: HasRow(rows, x) ==> HasRow(rows + [row], x)
  {
    var more := rows + [row];
    assert more[|rows|] == row;
    forall x | HasRow(rows, x)
      ensures HasRow(more, x)
    {
      var r :| 0 <= r < |rows| && rows[r].item == x;
      assert more[r].item == x;
    }
  }

  lemma RowsSkip<T>(rows: seq<Row<T>>, k: seq<T>, v: seq<nat>, s: seq<nat>, cells: seq<nat>, i: nat, hash: T -> nat, w: map<T, nat>,
                    offset: nat, errType: ErrorType, th: nat)
    requires i < |cells| && RowsOf(rows, k, v, s, cells, i, hash, w, offset, errType, th)
    ensures cells[i] < |k| == |v| == |s|
    ensures !Wanted(errType, v[cells[i]], v[cells[i]] + offset, th) ==> RowsOf(rows, k, v, s, cells, i + 1, hash, w, offset, errType, th)
  {
    MetNext(k, s, cells, i);
    hide Wanted, CellsOk, Holds, Met, HasRow;
  }

  lemma RowsAdd<T>(rows: seq<Row<T>>, k: seq<T>, v: seq<nat>, s: seq<nat>, cells: seq<nat>, i: nat, hash: T -> nat, w: map<T, nat>,
                   offset: nat, errType: ErrorType, th: nat)
    requires i < |cells| && RowsOf(rows, k, v, s, cells, i, hash, w, offset, errType, th)
    requires Wanted(errType, v[cells[i]], v[cells[i]] + offset, th)
    ensures RowsOf(rows + [Row(k[cells[i]], v[cells[i]] + offset, v[cells[i]], v[cells[i]] + offset)],
                   k, v, s, cells, i + 1, hash, w, offset, errType, th)
  {
    CellInMap(k, v, s, w, cells[i]);
    MetNext(k, s, cells, i);
    HasRowMore(rows, Row(k[cells[i]], v[cells[i]] + offset, v[cells[i]], v[cells[i]] + offset));
    hide Wanted, CellsOk, Holds, Met, HasRow;
  }

  lemma RowsAll<T>(rows: seq<Row<T>>, k: seq<T>, v: seq<nat>, s: seq<nat>, cells: seq<nat>, hash: T -> nat, w: map<T, nat>,
                   offset: nat, errType: ErrorType, th: nat)
    requires RowsOf(rows, k, v, s, cells, |cells|, hash, w, offset, errType, th)
    ensures forall x :: x in w && Wanted(errType, w[x], w[x] + offset, th) ==> exists r :: 0 <= r < |rows| && rows[r].item == x
    ensures forall r :: 0 <= r < |rows| ==> RowOk(rows[r], w, offset) && Wanted(errType, rows[r].lowerBound, rows[r].upperBound, th)
    ensures forall r, q :: 0 <= r < q < |rows| ==> rows[r].item != rows[q].item
  {
    hide Wanted, CellsOk;
    forall x | x in w && Wanted(errType, w[x], w[x] + offset, th)
      ensures exists r :: 0 <= r < |rows| && rows[r].item == x
    {
      var j := MapInCells(k, v, s, w, x);
      var c :| 0 <= c < |cells| && cells[c] == j;
    }
  }

  /** The filter compares the lower bound or the upper bound. */
  lemma WantedIff<T>(w: map<T, nat>, offset: nat, errType: ErrorType, th: nat)
    ensures forall x :: x in w ==> (Wanted(errType, w[x], w[x] + offset, th) <==> w[x] + (if errType == NoFalsePositives then 0 else offset) > th)
  {
  }

  /** What the filter means for true weights. */
  lemma AllRows<T(!new)>(w: map<T, nat>, truth: map<T, nat>, offset: nat, errType: ErrorType, th: nat)
    requires Bounded(w, truth, offset)
    ensures forall x :: x in w ==> w[x] <= WeightIn(truth, x) <= w[x] + offset
    ensures errType == NoFalsePositives ==> forall x :: x in w && Wanted(errType, w[x], w[x] + offset, th) ==> WeightIn(truth, x) > th
    ensures errType == NoFalseNegatives ==>
              forall x :: WeightIn(truth, x) > th && WeightIn(truth, x) > offset ==> x in w && Wanted(errType, w[x], w[x] + offset, th)
  {
    assert forall x :: x in w ==> WeightIn(w, x) <= WeightIn(truth, x) <= WeightIn(w, x) + offset;
    forall x | WeightIn(truth, x) > offset
      ensures x in w && WeightIn(truth, x) <= w[x] + offset
    {
      assert WeightIn(truth, x) <= WeightIn(w, x) + offset;
    }
  }

  /** What the rows mean, once they are sorted. */
  lemma FinalRows<T(!new)>(found: seq<Row<T>>, w: map<T, nat>, truth: map<T, nat>, offset: nat, errType: ErrorType, th: nat)
    requires Bounded(w, truth, offset)
    requires forall x :: x in w && Wanted(errType, w[x], w[x] + offset, th) ==> exists r :: 0 <= r < |found| && found[r].item == x
    requires forall r :: 0 <= r < |found| ==> RowOk(found[r], w, offset) && Wanted(errType, found[r].lowerBound, found[r].upperBound, th)
    requires forall r, q :: 0 <= r < q < |found| ==> found[r].item != found[q].item
    ensures var rows := SortRows(found);
            Descending(rows) && (forall i, j :: 0 <= i < j < |rows| ==> rows[i].item != rows[j].item) &&
            (forall i :: 0 <= i < |rows| ==> rows[i].item in w && rows[i].lowerBound == w[rows[i].item]) &&
            (forall i :: 0 <= i < |rows| ==> rows[i].upperBound == rows[i].estimate == w[rows[i].item] + offset) &&
            (forall i :: 0 <= i < |rows| ==> rows[i].lowerBound <= WeightIn(truth, rows[i].item) <= rows[i].upperBound) &&
            (forall x :: HasRow(rows, x) <==> x in w && w[x] + (if errType == NoFalsePositives then 0 else offset) > th) &&
            (errType == NoFalsePositives ==> forall i :: 0 <= i < |rows| ==> WeightIn(truth, rows[i].item) > th) &&
            (errType == NoFalseNegatives ==> forall x :: WeightIn(truth, x) > th && WeightIn(truth, x) > offset ==> HasRow(rows, x))
  {
    hide SortRows, Wanted, Bounded, Descending;
    AllRows(w, truth, offset, errType, th);
    WantedIff(w, offset, errType, th);
    SortedRows(found);
    var rows := SortRows(found);
    forall x | x in w && Wanted(errType, w[x], w[x] + offset, th)
      ensures HasRow(rows, x)
    {
      var r :| 0 <= r < |found| && found[r].item == x;
      var i :| 0 <= i < |rows| && rows[i] == found[r];
    }
  }

  /** Every active cell is listed exactly once. */
  ghost predicate Listed(cells: seq<nat>, states: seq<nat>)
  {
    (forall i, j :: 0 <= i < j < |cells| ==> cells[i] != cells[j]) &&
    (forall i :: 0 <= i < |cells| ==> cells[i] < |states| && states[cells[i]] > 0) &&
    (forall j :: 0 <= j < |states| && states[j] > 0 ==> j in cells)
  }

  /** The entries of the first i listed cells. */
  ghost predicate PartOf<T>(part: map<T, nat>, k: seq<T>, v: seq<nat>, s: seq<nat>, cells: seq<nat>, i: nat, hash: T -> nat, w: map<T, nat>)
  {
    MapCells(k, v, s, hash, w) && Listed(cells, s) && i <= |cells| &&
    (forall x :: x in part ==> x in w && part[x] == w[x] && exists c :: 0 <= c < i && k[cells[c]] == x) &&
    (forall c :: 0 <= c < i ==> k[cells[c]] in part)
  }

  lemma PartNone<T>(k: seq<T>, v: seq<nat>, s: seq<nat>, cells: seq<nat>, hash: T -> nat, w: map<T, nat>, truth: map<T, nat>)
    requires MapCells(k, v, s, hash, w) && Listed(cells, s)
    ensures PartOf(map[], k, v, s, cells, 0, hash, w) && truth == Combined(truth, map[])
  {
  }

  lemma PartNext<T(!new)>(part: map<T, nat>, k: seq<T>, v: seq<nat>, s: seq<nat>, cells: seq<nat>, i: nat, hash: T -> nat, w: map<T, nat>, truth: map<T, nat>)
    requires i < |cells| && PartOf(part, k, v, s, cells, i, hash, w)
    ensures cells[i] < |k| == |v| && k[cells[i]] in w && w[k[cells[i]]] == v[cells[i]]
    ensures PartOf(part[k[cells[i]] := v[cells[i]]], k, v, s, cells, i + 1, hash, w)
    ensures Combined(truth, part[k[cells[i]] := v[cells[i]]]) == Added(Combined(truth, part), k[cells[i]], v[cells[i]])
  {
    hide Combined, Added;
    CellInMap(k, v, s, w, cells[i]);
    CombinedNext(truth, part, k[cells[i]], v[cells[i]]);
  }

  lemma KeysDiffer<T>(keys: seq<T>, states: seq<nat>, hash: T -> nat)
    requires CellsOk(keys, states, hash)
    ensures |keys| == |states| && DistinctKeys(keys, states)
  {
  }

  /** From before to s' by feeding in the entries of the first i cells, in their order. */
  ghost predicate FedCells<T(0,!new)>(items: ReversePurgeMap<T>, before: Tracked<T>, k: seq<T>, v: seq<nat>, cells: seq<nat>, i: nat, s': Tracked<T>)
  {
    exists path, entries: seq<Entry<T>> ::
      Path(items, path, entries) && path[0] == before && path[|entries|] == s' && |entries| == i <= |cells| &&
      forall c :: 0 <= c < i ==> cells[c] < |k| && cells[c] < |v| && entries[c] == Entry(k[cells[c]], v[cells[c]])
  }

  /** From before to s' by feeding in the entries in the order of the iterator. */
  ghost predicate InOrder<T(0,!new)>(items: ReversePurgeMap<T>, before: Tracked<T>, k: seq<T>, v: seq<nat>, s: seq<nat>, s': Tracked<T>)
  {
    FedCells(items, before, k, v, IterationOrder(s), |IterationOrder(s)|, s')
  }

  lemma FedNone<T(0,!new)>(items: ReversePurgeMap<T>, before: Tracked<T>, k: seq<T>, v: seq<nat>, cells: seq<nat>)
    ensures FedCells(items, before, k, v, cells, 0, before)
  {
    PathStart(items, before);
    assert [before][0] == before;
  }

  lemma FedNext<T(0,!new)>(items: ReversePurgeMap<T>, before: Tracked<T>, k: seq<T>, v: seq<nat>, cells: seq<nat>, i: nat, s: Tracked<T>, s': Tracked<T>)
    requires FedCells(items, before, k, v, cells, i, s) && i < |cells| && cells[i] < |k| && cells[i] < |v|
    requires SettlesTo(items, s, Entry(k[cells[i]], v[cells[i]]), s')
    ensures FedCells(items, before, k, v, cells, i + 1, s')
  {
    hide SettlesTo;
    var path, entries: seq<Entry<T>> :|
      Path(items, path, entries) && path[0] == before && path[|entries|] == s && |entries| == i <= |cells| &&
      forall c :: 0 <= c < i ==> cells[c] < |k| && cells[c] < |v| && entries[c] == Entry(k[cells[c]], v[cells[c]]);
    PathSnoc(items, path, entries, Entry(k[cells[i]], v[cells[i]]), s');
    assert Path(items, path + [s'], entries + [Entry(k[cells[i]], v[cells[i]])]);
  }

  lemma FedEvery<T(0,!new)>(items: ReversePurgeMap<T>, before: Tracked<T>, k: seq<T>, v: seq<nat>, s: seq<nat>, cells: seq<nat>, hash: T -> nat,
                            w: map<T, nat>, s': Tracked<T>)
    requires MapCells(k, v, s, hash, w) && Listed(cells, s) && FedCells(items, before, k, v, cells, |cells|, s')
    ensures FedAll(items, before, w, s')
  {
    hide SettlesTo, ListsAll, MapCells, Listed;
    var path, entries: seq<Entry<T>> :|
      Path(items, path, entries) && path[0] == before && path[|entries|] == s' && |entries| == |cells| &&
      forall c :: 0 <= c < |cells| ==> cells[c] < |k| && cells[c] < |v| && entries[c] == Entry(k[cells[c]], v[cells[c]]);
    CellEntries(entries, k, v, s, cells, hash, w);
  }

  /** The entries of all listed cells are those of the map. */
  lemma CellEntries<T>(entries: seq<Entry<T>>, k: seq<T>, v: seq<nat>, s: seq<nat>, cells: seq<nat>, hash: T -> nat, w: map<T, nat>)
    requires MapCells(k, v, s, hash, w) && Listed(cells, s) && |entries| == |cells|
    requires forall c :: 0 <= c < |cells| ==> cells[c] < |k| && cells[c] < |v| && entries[c] == Entry(k[cells[c]], v[cells[c]])
    ensures ListsAll(entries, w)
  {
    KeysDiffer(k, s, hash);
    hide CellsOk;
    forall i, j | 0 <= i < j < |cells|
      ensures entries[i].key != entries[j].key
    {
      assert cells[i] != cells[j];
    }
    forall c | 0 <= c < |cells|
      ensures entries[c].key in w && w[entries[c].key] == entries[c].value
    {
      CellInMap(k, v, s, w, cells[c]);
    }
    forall x | x in w
      ensures exists i :: 0 <= i < |entries| && entries[i].key == x
    {
      var j := MapInCells(k, v, s, w, x);
      var c :| 0 <= c < |cells| && cells[c] == j;
      assert entries[c].key == x;
    }
  }

  /** The loop of merge after i cells: state and true weights have been brought from before and truth0 by the entries of these cells. */
  ghost predicate Merging<T(0,!new)>(items: ReversePurgeMap<T>, before: Tracked<T>, truth0: map<T, nat>, k: seq<T>, v: seq<nat>, s: seq<nat>, cells: seq<nat>, i: nat,
                                     hash: T -> nat, w: map<T, nat>, state: Tracked<T>, truth: map<T, nat>)
  {
    FedCells(items, before, k, v, cells, i, state) && exists part :: PartOf(part, k, v, s, cells, i, hash, w) && truth == Combined(truth0, part)
  }

  lemma MergingStart<T(0,!new)>(items: ReversePurgeMap<T>, before: Tracked<T>, truth0: map<T, nat>, k: seq<T>, v: seq<nat>, s: seq<nat>, cells: seq<nat>,
                                hash: T -> nat, w: map<T, nat>)
    requires MapCells(k, v, s, hash, w) && Listed(cells, s)
    ensures Merging(items, before, truth0, k, v, s, cells, 0, hash, w, before, truth0)
  {
    hide MapCells, Listed, FedCells, Combined, PartOf;
    FedNone(items, before, k, v, cells);
    PartNone(k, v, s, cells, hash, w, truth0);
  }

  lemma MergingCell<T(0,!new)>(items: ReversePurgeMap<T>, before: Tracked<T>, truth0: map<T, nat>, k: seq<T>, v: seq<nat>, s: seq<nat>, cells: seq<nat>, i: nat,
                               hash: T -> nat, w: map<T, nat>, state: Tracked<T>, truth: map<T, nat>)
    requires Merging(items, before, truth0, k, v, s, cells, i, hash, w, state, truth) && i < |cells|
    ensures cells[i] < |k| == |v| && k[cells[i]] in w && w[k[cells[i]]] == v[cells[i]]
  {
    hide FedCells, Combined, PartOf;
    var part :| PartOf(part, k, v, s, cells, i, hash, w) && truth == Combined(truth0, part);
    PartNext(part, k, v, s, cells, i, hash, w, truth0);
  }

  lemma MergingNext<T(0,!new)>(items: ReversePurgeMap<T>, before: Tracked<T>, truth0: map<T, nat>, k: seq<T>, v: seq<nat>, s: seq<nat>, cells: seq<nat>, i: nat,
                               hash: T -> nat, w: map<T, nat>, state: Tracked<T>, truth: map<T, nat>, state': Tracked<T>, truth': map<T, nat>)
    requires Merging(items, before, truth0, k, v, s, cells, i, hash, w, state, truth) && i < |cells| && cells[i] < |k| == |v|
    requires SettlesTo(items, state, Entry(k[cells[i]], v[cells[i]]), state') && truth' == Added(truth, k[cells[i]], v[cells[i]])
    ensures Merging(items, before, truth0, k, v, s, cells, i + 1, hash, w, state', truth')
  {
    hide FedCells, Combined, PartOf, SettlesTo, Added;
    var part :| PartOf(part, k, v, s, cells, i, hash, w) && truth == Combined(truth0, part);
    PartNext(part, k, v, s, cells, i, hash, w, truth0);
    FedNext(items, before, k, v, cells, i, state, state');
  }

  lemma MergingEnd<T(0,!new)>(items: ReversePurgeMap<T>, before: Tracked<T>, truth0: map<T, nat>, k: seq<T>, v: seq<nat>, s: seq<nat>, cells: seq<nat>,
                              hash: T -> nat, w: map<T, nat>, state: Tracked<T>, truth: map<T, nat>)
    requires MapCells(k, v, s, hash, w) && Listed(cells, s) && Merging(items, before, truth0, k, v, s, cells, |cells|, hash, w, state, truth)
    ensures FedAll(items, before, w, state) && truth == Combined(truth0, w) && FedCells(items, before, k, v, cells, |cells|, state)
  {
    hide FedCells, Combined, PartOf, MapCells, Listed, FedAll;
    var part :| PartOf(part, k, v, s, cells, |cells|, hash, w) && truth == Combined(truth0, part);
    FedEvery(items, before, k, v, s, cells, hash, w, state);
    PartAll(part, k, v, s, cells, hash, w);
  }

  lemma PartAll<T>(part: map<T, nat>, k: seq<T>, v: seq<nat>, s: seq<nat>, cells: seq<nat>, hash: T -> nat, w: map<T, nat>)
    requires PartOf(part, k, v, s, cells, |cells|, hash, w)
    ensures part == w
  {
    hide CellsOk;
    forall x | x in w
      ensures x in part
    {
      var j := MapInCells(k, v, s, w, x);
      var c :| 0 <= c < |cells| && cells[c] == j;
    }
  }

  /** The true weights after a merge. */
  ghost function MergedTruth<T>(truth: map<T, nat>, w2: map<T, nat>, truth2: map<T, nat>): map<T, nat>
  {
    if w2 == map[] then truth else Combined(truth, truth2)
  }

  // ---- the error bound ----

  lemma EighthsOfTable(lg: nat) returns (p: nat)
    requires 3 <= lg <= 10
    ensures Pow2(lg) == 8 * p && p <= 128
  {
    assert Pow2(3) == 8;
    Pow2Add(3, lg - 3);
    p := Pow2(lg - 3);
    Pow2Monotone(lg - 3, 7);
    assert Pow2(7) == 128;
  }

  lemma ThreeEighths(lg: nat)
    requires 3 <= lg <= 10
    ensures 8 * Guarantee(lg) == 3 * Pow2(lg)
  {
    hide Pow2;
    var p := EighthsOfTable(lg);
    assert Capacity(lg) == 6 * p;
  }

  lemma ErrorBound(offset: nat, factor: nat, total: nat, k: nat)
    requires offset * factor <= total && 7 * factor >= 2 * k
    ensures 2 * (k * offset) <= 7 * total
  {
    TimesMonotone(offset, 2 * k, 7 * factor);
    Factor(offset, 2, k);
    Factor(offset, 7, factor);
  }

  lemma Factor(a: nat, c: nat, b: nat)
    ensures a * (c * b) == c * (b * a) && b * a == a * b
  {
  }

  /** error <= 3.5 * total weight / 2^lgMax, what get_apriori_error promises of the maximum error. */
  ghost predicate WithinEpsilon(lgMax: nat, error: nat, totalWeight: nat)
  {
    2 * (Pow2(lgMax) * error) <= 7 * totalWeight
  }

  /** The account of a sketch with maps of up to 2^10 cells keeps the promise. */
  lemma AprioriError<T(!new)>(m: map<T, nat>, truth: map<T, nat>, totalWeight: nat, offset: nat, lgMax: nat)
    requires 3 <= lgMax <= 10 && Account(m, truth, totalWeight, offset, Guarantee(lgMax))
    ensures WithinEpsilon(lgMax, offset, totalWeight)
  {
    ThreeEighths(lgMax);
    hide Sum;
    ErrorBound(offset, Guarantee(lgMax), totalWeight, Pow2(lgMax));
  }

  // ---- maps of more than 2^10 cells break the promise ----

  /** The items 0 to n-1 with their weights. */
  ghost function FirstItems(weight: nat -> nat, n: nat): map<nat, nat>
  {
    map i: nat | i < n :: weight(i)
  }

  lemma FirstItemsNext(weight: nat -> nat, n: nat)
    ensures FirstItems(weight, n + 1) == Added(FirstItems(weight, n), n, weight(n))
    ensures Sum(FirstItems(weight, n + 1)) == Sum(FirstItems(weight, n)) + weight(n)
  {
    SumAdded(FirstItems(weight, n), n, weight(n));
  }

  lemma InFirst(weight: nat -> nat, n: nat, j: nat)
    ensures j in FirstItems(weight, n) <==> j < n
    ensures j < n ==> FirstItems(weight, n)[j] == weight(j)
  {
  }

  lemma {:induction false} FirstItemsCount(weight: nat -> nat, n: nat)
    ensures |FirstItems(weight, n)| == n
  {
    if n == 0 {
      assert FirstItems(weight, 0) == map[];
    } else {
      FirstItemsCount(weight, n - 1);
      assert FirstItems(weight, n).Keys == FirstItems(weight, n - 1).Keys + {n - 1};
    }
  }

  /** 511 items weigh h, the others 1. */
  function Heavy(h: nat): nat -> nat
  {
    i => if i < 511 then h else 1
  }

  lemma SumOfNone()
    ensures Sum<nat>(map[]) == 0
  {
  }

  lemma {:induction false} HeavySum(h: nat, n: nat)
    ensures Sum(FirstItems(Heavy(h), n)) == if n < 511 then n * h else 511 * h + (n - 511)
  {
    hide Sum;
    if n == 0 {
      assert FirstItems(Heavy(h), 0) == map[];
      SumOfNone();
    } else {
      HeavySum(h, n - 1);
      FirstItemsNext(Heavy(h), n - 1);
    }
  }

  ghost predicate HeavySamples(samples: seq<nat>, h: nat)
  {
    forall j :: 0 <= j < |samples| ==> samples[j] == Heavy(h)(j)
  }

  lemma {:induction false} HeavyCounts(samples: seq<nat>, h: nat)
    requires HeavySamples(samples, h) && h > 1
    ensures CountLess(samples, h) == if |samples| < 511 then 0 else |samples| - 511
    ensures CountAtMost(samples, h) == |samples|
    decreases |samples|
  {
    if samples == [] {
    } else {
      HeavyCounts(samples[..|samples| - 1], h);
    }
  }

  /** nth_element puts a heavy weight in the middle of the first 1023 samples. */
  lemma HeavyMedian(samples: seq<nat>, h: nat)
    requires |samples| == MAX_SAMPLE_SIZE && HeavySamples(samples, h) && h > 1
    ensures SampleMedian(samples) == h
  {
    hide CountLess, CountAtMost, NthSmallest;
    var s := samples[..1023];
    HeavyCounts(s, h);
    assert SampleMedian(samples) == NthSmallest(s, 512);
    NthUnique(s, 512, NthSmallest(s, 512), h);
  }

  /** With such weights the items of a full table weigh too little for the amount of a purge. */
  lemma HeavyExceeds(lg: nat)
    requires lg >= 11
    ensures MAX_SAMPLE_SIZE < Capacity(lg) + 1
    ensures !WithinEpsilon(lg, 7 * Pow2(lg), Sum(FirstItems(Heavy(7 * Pow2(lg)), Capacity(lg) + 1)))
  {
    hide FirstItems, Heavy, Sum;
    Pow2Monotone(11, lg);
    assert Pow2(11) == 2048;
    HeavySum(7 * Pow2(lg), Capacity(lg) + 1);
    HeavyArithmetic(Pow2(lg), Capacity(lg) + 1);
  }

  lemma HeavyArithmetic(k: nat, n: nat)
    requires k >= 2048 && 511 <= n <= k
    ensures 2 * (k * (7 * k)) > 7 * (511 * (7 * k) + (n - 511))
  {
    TimesMonotone(7 * k, 2048, k);
    assert (7 * k) * k == k * (7 * k);
  }

  lemma HeavyPurge(h: nat, n: nat)
    requires h > 1 && n > MAX_SAMPLE_SIZE
    ensures PurgeAmount(FirstItems(Heavy(h), n), h)
  {
    hide SampleMedian;
    FirstItemsCount(Heavy(h), n);
    var m := FirstItems(Heavy(h), n);
    var sample: seq<nat> := seq(MAX_SAMPLE_SIZE, i => i);
    var weights: seq<nat> := seq(MAX_SAMPLE_SIZE, i requires 0 <= i => Heavy(h)(i));
    HeavyMedian(weights, h);
    assert Sampled(sample, weights, m);
  }

  lemma Pow2Positive(n: nat)
    ensures Pow2(n) >= 1
  {
  }

  /** Every purge of a full table of the largest size stays within the promise if and only if that size is at most 2^10 cells. */
  lemma EpsilonIff(lg: nat)
    requires lg >= LG_MIN_MAP_SIZE
    ensures (forall m: map<nat, nat>, amount: nat :: |m| == Capacity(lg) + 1 && PurgeAmount(m, amount) ==> WithinEpsilon(lg, amount, Sum(m))) <==>
            lg <= 10
  {
    hide Sum, PurgeAmount, WithinEpsilon, Capacity, Pow2;
    if lg <= 10 {
      forall m: map<nat, nat>, amount: nat | |m| == Capacity(lg) + 1 && PurgeAmount(m, amount)
        ensures WithinEpsilon(lg, amount, Sum(m))
      {
        PurgeWithinEpsilon(lg, m, amount);
      }
    } else {
      HeavyExceeds(lg);
      Pow2Positive(lg);
      HeavyPurge(7 * Pow2(lg), Capacity(lg) + 1);
      FirstItemsCount(Heavy(7 * Pow2(lg)), Capacity(lg) + 1);
    }
  }

  lemma PurgeWithinEpsilon<T(!new)>(lg: nat, m: map<T, nat>, amount: nat)
    requires 3 <= lg <= 10 && |m| == Capacity(lg) + 1 && PurgeAmount(m, amount)
    ensures WithinEpsilon(lg, amount, Sum(m))
  {
    hide Sum, PurgeAmount, Capacity, Pow2;
    ThreeEighths(lg);
    PurgeGain(m, amount);
    ErrorBound(amount, Guarantee(lg), Sum(m), Pow2(lg));
  }

  // ---- feeding a sketch up to its first purge ----

  lemma CapacityGrows(lg: nat, lgMax: nat)
    requires 3 <= lg <= lgMax
    ensures Capacity(lg) <= Capacity(lgMax) && (Capacity(lgMax) <= Capacity(lg) ==> lg == lgMax)
  {
    CapacityFits(lg);
    if lg < lgMax {
      Pow2Monotone(lg + 1, lgMax);
    }
  }

  /** Under the identity as hash function the first items never share a home cell. */
  lemma FirstItemsDirect(weight: nat -> nat, n: nat, lg: nat, hash: nat -> nat)
    requires lg >= 3 && n <= Capacity(lg) + 1 && forall i :: hash(i) == i
    ensures Direct(FirstItems(weight, n).Keys, hash, Pow2(lg))
  {
    hide Home;
    CapacityFits(lg);
    forall x | x in FirstItems(weight, n)
      ensures Home(hash(x), Pow2(lg)) == x
    {
      SmallHome(x, Pow2(lg));
    }
  }

  /** No purge of these items in a table of 2^lgMax cells leaves an item. */
  ghost predicate Wiped(weight: nat -> nat, lgMax: nat, hash: nat -> nat)
  {
    var n := Capacity(lgMax) + 1;
    var m := FirstItems(weight, n);
    forall amount: nat :: TablePurge(m, hash, Pow2(lgMax), amount) ==> forall i: nat :: i < n ==> weight(i) <= amount
  }

  /** The sketch has been fed the first n items and has not been purged. */
  ghost predicate FedFirst(sketch: FrequentItemsSketch<nat>, weight: nat -> nat, n: nat)
    reads sketch, sketch.Repr
  {
    sketch.Valid() && sketch.items.weights == sketch.truth == FirstItems(weight, n) && sketch.offset == 0
  }

  lemma FedFits(sketch: FrequentItemsSketch<nat>, weight: nat -> nat, n: nat)
    requires FedFirst(sketch, weight, n)
    ensures 3 <= sketch.items.lgCur <= sketch.items.lgMax && n <= Capacity(sketch.items.lgCur)
  {
    hide Account, Capacity, MapCells;
    sketch.items.Size();
    FirstItemsCount(weight, n);
  }

  method FeedFirst(sketch: FrequentItemsSketch<nat>, weight: nat -> nat, n: nat) returns (ok: bool)
    requires FedFirst(sketch, weight, n) && weight(n) > 0 && n < Capacity(sketch.items.lgMax)
    modifies sketch.Repr
    ensures sketch.items == old(sketch.items) && sketch.factor == old(sketch.factor) && fresh(sketch.Repr - old(sketch.Repr))
    ensures sketch.items.lgMax <= 10 || (forall i :: sketch.items.hash(i) == i) || old(sketch.Few()) ==> ok
    ensures !old(sketch.items.CanPlace(n)) ==> !ok
    ensures ok ==> FedFirst(sketch, weight, n + 1)
  {
    hide Lands, Account, MapCells, Guarantee, Capacity, Active, Pow2, PurgeAmount, TablePurge, FirstItems, Direct;
    ghost var lg, lgMax := sketch.items.lgCur, sketch.items.lgMax;
    FedFits(sketch, weight, n);
    FirstItemsNext(weight, n);
    FirstItemsCount(weight, n + 1);
    if forall i :: sketch.items.hash(i) == i {
      FirstItemsDirect(weight, n + 1, lg, sketch.items.hash);
    }
    ok := sketch.Update(n, weight(n));
  }

  /** The update after which the table is full at its largest size. */
  method FeedLast(sketch: FrequentItemsSketch<nat>, weight: nat -> nat, n: nat) returns (ok: bool)
    requires FedFirst(sketch, weight, n) && weight(n) > 0 && n == Capacity(sketch.items.lgMax)
    modifies sketch.Repr
    ensures sketch.items == old(sketch.items) && sketch.factor == old(sketch.factor) && fresh(sketch.Repr - old(sketch.Repr))
    ensures sketch.items.lgMax <= 10 || ((forall i :: sketch.items.hash(i) == i) && Wiped(weight, sketch.items.lgMax, sketch.items.hash)) ==> ok
    ensures ok ==> sketch.Valid() && sketch.truth == FirstItems(weight, n + 1)
    ensures ok ==> PurgeAmount(sketch.truth, sketch.offset) && TablePurge(sketch.truth, sketch.items.hash, Pow2(sketch.items.lgMax), sketch.offset)
    ensures ok ==> sketch.items.weights == Purged(sketch.truth, sketch.offset)
  {
    hide Account, MapCells, Guarantee, Capacity, Active, Pow2, PurgeAmount, TablePurge, FirstItems, Direct;
    ghost var lg, lgMax := sketch.items.lgCur, sketch.items.lgMax;
    FedFits(sketch, weight, n);
    CapacityGrows(lg, lgMax);
    FirstItemsNext(weight, n);
    FirstItemsCount(weight, n + 1);
    if (forall i :: sketch.items.hash(i) == i) && Wiped(weight, lgMax, sketch.items.hash) {
      FirstItemsDirect(weight, n + 1, lg, sketch.items.hash);
      WipedWeights(weight, lgMax, sketch.items.hash);
    }
    ok := sketch.Update(n, weight(n));
  }

  lemma WipedWeights(weight: nat -> nat, lgMax: nat, hash: nat -> nat)
    requires Wiped(weight, lgMax, hash)
    ensures var m := FirstItems(weight, Capacity(lgMax) + 1);
            forall amount, x :: TablePurge(m, hash, Pow2(lgMax), amount) && x in m ==> m[x] <= amount
  {
    hide TablePurge, Capacity, Pow2;
  }

  /** Feed the first items, each once, until the table of the largest size is purged. */
  method FeedToPurge(hash: nat -> nat, lgMax: nat, weight: nat -> nat) returns (sketch: FrequentItemsSketch<nat>, ok: bool)
    requires lgMax >= LG_MIN_MAP_SIZE && forall i :: weight(i) > 0
    ensures fresh(sketch.Repr)
    ensures lgMax <= 10 || ((forall i :: hash(i) == i) && Wiped(weight, lgMax, hash)) ==> ok
    ensures ok ==> sketch.Valid() && sketch.items.lgMax == lgMax && sketch.truth == FirstItems(weight, Capacity(lgMax) + 1)
    ensures ok ==> sketch.factor == Guarantee(lgMax)
    ensures ok ==> PurgeAmount(sketch.truth, sketch.offset) && TablePurge(sketch.truth, hash, Pow2(lgMax), sketch.offset)
    ensures ok ==> sketch.items.weights == Purged(sketch.truth, sketch.offset)
  {
    hide Account, MapCells, Guarantee, Active, Pow2, PurgeAmount, TablePurge, Wiped;
    sketch := new FrequentItemsSketch(hash, lgMax);
    assert FirstItems(weight, 0) == map[];
    ok := true;
    for n := 0 to Capacity(lgMax)
      invariant ok && fresh(sketch.Repr) && sketch.items.lgMax == lgMax && sketch.items.hash == hash
      invariant FedFirst(sketch, weight, n) && sketch.factor == Guarantee(lgMax)
    {
      ok := FeedFirst(sketch, weight, n);
      if !ok {
        return;
      }
    }
    ok := FeedLast(sketch, weight, Capacity(lgMax));
  }

  // ---- when the drift exception is raised ----

  /** The next of the first items, all of which share a home cell, can be placed exactly while there are fewer than the probes before the drift limit. */
  lemma SameHomeNext(sketch: FrequentItemsSketch<nat>, weight: nat -> nat, n: nat, c: nat)
    requires FedFirst(sketch, weight, n) && n < DRIFT_LIMIT && sketch.items.lgMax > 10 && forall x :: sketch.items.hash(x) == c
    ensures n < Capacity(sketch.items.lgMax)
    ensures n < DRIFT_LIMIT - 1 ==> sketch.Few()
    ensures n == DRIFT_LIMIT - 1 ==> !sketch.items.CanPlace(n)
  {
    LargeCapacity(sketch.items.lgMax);
    hide Account, Capacity, MapCells, Lands, FirstItems;
    FirstItemsCount(weight, n);
    InFirst(weight, n, n);
    if n == DRIFT_LIMIT - 1 {
      var items := sketch.items;
      SameHomeFails(items.keys[..], items.values[..], items.states[..], items.hash, items.weights, c, n);
    }
  }

  lemma LargeCapacity(lg: nat)
    requires lg > 10
    ensures Capacity(lg) >= DRIFT_LIMIT
  {
    Pow2Monotone(11, lg);
    assert Pow2(11) == 2048;
  }

  method FeedShared(sketch: FrequentItemsSketch<nat>, weight: nat -> nat, n: nat, ghost c: nat) returns (ok: bool)
    requires sketch.Valid() && sketch.truth == FirstItems(weight, n) && weight(n) > 0 && forall x :: sketch.items.hash(x) == c
    requires sketch.items.lgMax > 10 ==> n < DRIFT_LIMIT && FedFirst(sketch, weight, n)
    modifies sketch.Repr
    ensures sketch.items == old(sketch.items) && fresh(sketch.Repr - old(sketch.Repr))
    ensures ok <==> sketch.items.lgMax <= 10 || n < DRIFT_LIMIT - 1
    ensures ok ==> sketch.Valid() && sketch.truth == FirstItems(weight, n + 1)
    ensures ok && sketch.items.lgMax > 10 ==> FedFirst(sketch, weight, n + 1)
  {
    hide Account, MapCells, Guarantee, Capacity, Active, Pow2, PurgeAmount, TablePurge, FirstItems, Lands, Direct;
    if sketch.items.lgMax > 10 {
      SameHomeNext(sketch, weight, n, c);
      ok := FeedFirst(sketch, weight, n);
    } else {
      FirstItemsNext(weight, n);
      ok := sketch.Update(n, weight(n));
    }
  }

  /**
   * Different items, each fed once, under a constant hash function: the drift exception is raised exactly when the map
   * may have more than 2^10 cells and there are 1024 items or more.
   */
  method FeedSame(c: nat, lgMax: nat, weight: nat -> nat, count: nat) returns (sketch: FrequentItemsSketch<nat>, ok: bool)
    requires lgMax >= LG_MIN_MAP_SIZE && forall i :: weight(i) > 0
    ensures ok <==> lgMax <= 10 || count < DRIFT_LIMIT
    ensures ok ==> sketch.Valid() && sketch.items.lgMax == lgMax && sketch.truth == FirstItems(weight, count)
  {
    hide Account, MapCells, Guarantee, Capacity, Active, Pow2, FirstItems;
    sketch := new FrequentItemsSketch(_ => c, lgMax);
    NoItems(weight);
    ok := true;
    for n := 0 to count
      invariant ok && sketch.Valid() && fresh(sketch.Repr) && sketch.items.lgMax == lgMax && forall x :: sketch.items.hash(x) == c
      invariant sketch.truth == FirstItems(weight, n)
      invariant lgMax > 10 ==> n < DRIFT_LIMIT && FedFirst(sketch, weight, n)
    {
      ok := FeedShared(sketch, weight, n, c);
      if !ok {
        return;
      }
    }
  }

  lemma NoItems(weight: nat -> nat)
    ensures FirstItems(weight, 0) == map[]
  {
  }

  // ---- an input on which the published bound fails ----

  lemma {:induction false} IncreasingFrom(cells: seq<nat>, j: nat)
    requires j < |cells| && forall i, l :: 0 <= i < l < |cells| ==> cells[i] < cells[l]
    ensures cells[j] >= j && cells[|cells| - 1] >= cells[j] + (|cells| - 1 - j)
    decreases j
  {
    if j > 0 {
      IncreasingFrom(cells, j - 1);
    }
    IncreasingTo(cells, j);
  }

  lemma {:induction false} IncreasingTo(cells: seq<nat>, j: nat)
    requires j < |cells| && forall i, l :: 0 <= i < l < |cells| ==> cells[i] < cells[l]
    ensures cells[|cells| - 1] >= cells[j] + (|cells| - 1 - j)
    decreases |cells| - j
  {
    if j + 1 < |cells| {
      IncreasingTo(cells, j + 1);
    }
  }

  lemma {:induction false} ActiveFirst(states: seq<nat>, n: nat, i: nat)
    requires i <= |states| && forall j :: 0 <= j < |states| ==> (states[j] > 0 <==> j < n)
    ensures Active(states[..i]) == if i < n then i else n
  {
    hide Active;
    if i == 0 {
      ActiveNone(states[..0]);
    } else {
      ActiveFirst(states, n, i - 1);
      ActiveSnoc(states, i - 1);
    }
  }

  /** Under the identity as hash function the first items lie in the first cells, in order. */
  lemma FirstItemsLayout(keys: seq<nat>, values: seq<nat>, states: seq<nat>, hash: nat -> nat, weight: nat -> nat, n: nat, lg: nat)
    requires MapCells(keys, values, states, hash, FirstItems(weight, n)) && |keys| == Pow2(lg)
    requires lg >= 3 && n <= Capacity(lg) + 1 && forall i :: hash(i) == i
    ensures |values| == |states| == |keys|
    ensures forall j :: 0 <= j < |states| ==> (states[j] > 0 <==> j < n)
    ensures forall j :: 0 <= j < |states| && j < n ==> values[j] == weight(j)
  {
    hide Active, CellsOk, Home, Direct, Pow2, Capacity, FirstItems;
    var m := FirstItems(weight, n);
    CapacityFits(lg);
    FirstItemsCount(weight, n);
    ActiveCount(keys, values, states, hash, m);
    FirstItemsDirect(weight, n, lg, hash);
    TrackedCells(keys, values, states, m);
    var e := SomeEmpty(states);
    forall j | 0 <= j < |states|
      ensures states[j] > 0 ==> j < n && values[j] == weight(j)
      ensures j < n ==> states[j] > 0
    {
      if states[j] > 0 {
        AtItsIndex(keys, values, states, hash, weight, n, e, j);
      }
      if j < n {
        InFirst(weight, n, j);
        var c := MapInCells(keys, values, states, m, j);
        AtItsIndex(keys, values, states, hash, weight, n, e, c);
      }
    }
  }

  lemma ActiveCount(keys: seq<nat>, values: seq<nat>, states: seq<nat>, hash: nat -> nat, m: map<nat, nat>)
    requires MapCells(keys, values, states, hash, m)
    ensures Active(states) == |m|
  {
    ActiveIsSize(keys, values, states, m);
  }

  lemma AtItsIndex(keys: seq<nat>, values: seq<nat>, states: seq<nat>, hash: nat -> nat, weight: nat -> nat, n: nat, e: nat, j: nat)
    requires MapCells(keys, values, states, hash, FirstItems(weight, n)) && ActiveIn(FirstItems(weight, n).Keys, keys, states)
    requires Direct(FirstItems(weight, n).Keys, hash, |keys|) && n <= |keys| && forall i :: hash(i) == i
    requires e < |keys| && states[e] == 0 && j < |keys| && states[j] > 0
    ensures keys[j] == j < n && values[j] == weight(j)
  {
    hide CellsOk, Home, Direct, FirstItems;
    AtHome(keys, states, hash, FirstItems(weight, n).Keys, e, j);
    CellInMap(keys, values, states, FirstItems(weight, n), j);
    InFirst(weight, n, keys[j]);
    SmallHome(keys[j], |keys|);
  }

  /** So the sample of such a table is that of the first items, and its median is the heavy weight. */
  lemma HeavySampled(lg: nat, h: nat, hash: nat -> nat, amount: nat)
    requires lg >= 11 && h > 1 && forall i :: hash(i) == i
    requires TablePurge(FirstItems(Heavy(h), Capacity(lg) + 1), hash, Pow2(lg), amount)
    ensures amount == h
  {
    hide Active, MapCells, Pow2, Capacity, FirstItems, SampleMedian;
    var n := Capacity(lg) + 1;
    var keys, values, states, cells, samples, i :|
      |keys| == Pow2(lg) && FirstSample(keys, values, states, cells, samples, i, hash, FirstItems(Heavy(h), n)) && amount == SampleMedian(samples);
    HeavyExceeds(lg);
    FirstItemsCount(Heavy(h), n);
    FirstItemsLayout(keys, values, states, hash, Heavy(h), n, lg);
    ActiveFirst(states, n, i);
    forall j | 0 <= j < |samples|
      ensures samples[j] == Heavy(h)(j)
    {
      IncreasingFrom(cells, j);
    }
    HeavyMedian(samples, h);
  }

  /**
   * For every larger size there are sketches that break the promise: under the identity as hash function, the items 0 to
   * three quarters of the table, each fed once, the first 511 of them with weight 7 * 2^lg and the others with 1.
   */
  method EpsilonFails(lg: nat) returns (sketch: FrequentItemsSketch<nat>)
    requires lg >= 11
    ensures sketch.Valid() && sketch.items.lgMax == lg && sketch.factor == Guarantee(lg)
    ensures sketch.truth == FirstItems(Heavy(7 * Pow2(lg)), Capacity(lg) + 1)
    ensures !WithinEpsilon(lg, sketch.offset, sketch.totalWeight)
    ensures 0 in sketch.truth && 0 !in sketch.items.weights && !WithinEpsilon(lg, sketch.truth[0], sketch.totalWeight)
  {
    hide Account, MapCells, Guarantee, Capacity, Active, Pow2, PurgeAmount, TablePurge, FirstItems, WithinEpsilon, Sum;
    var h, hash: nat -> nat := 7 * Pow2(lg), x => x;
    Pow2Positive(lg);
    HeavyExceeds(lg);
    HeavyWiped(lg, h, hash);
    var ok;
    sketch, ok := FeedToPurge(hash, lg, Heavy(h));
    HeavySampled(lg, h, hash, sketch.offset);
    InFirst(Heavy(h), Capacity(lg) + 1, 0);
    TotalIsSum(sketch);
  }

  lemma HeavyWiped(lg: nat, h: nat, hash: nat -> nat)
    requires lg >= 11 && h > 1 && forall i :: hash(i) == i
    ensures Wiped(Heavy(h), lg, hash)
  {
    hide TablePurge, Capacity, Pow2, FirstItems;
    var m := FirstItems(Heavy(h), Capacity(lg) + 1);
    forall amount: nat | TablePurge(m, hash, Pow2(lg), amount)
      ensures amount == h
    {
      HeavySampled(lg, h, hash, amount);
    }
  }

  lemma TotalIsSum<T(0,!new)>(sketch: FrequentItemsSketch<T>)
    requires sketch.Valid()
    ensures sketch.totalWeight == Sum(sketch.truth) && Positive(sketch.truth)
  {
  }

  // ---- merging a sketch that has been purged of everything ----

  /** Merging adds the true weights of the other sketch exactly when it has an active entry, or has seen no weight at all. */
  lemma MergeLossless<T(!new)>(truth: map<T, nat>, w2: map<T, nat>, truth2: map<T, nat>)
    requires Positive(truth2)
    ensures MergedTruth(truth, w2, truth2) == Combined(truth, truth2) <==> w2 != map[] || Sum(truth2) == 0
  {
    SumCombined(truth, truth2);
    if Sum(truth2) == 0 {
      assert truth2 == map[];
      assert Combined(truth, truth2) == truth;
    }
  }

  /** A purge of items of one and the same weight removes them all. */
  lemma UniformPurge<T(!new)>(m: map<T, nat>, amount: nat, weight: nat)
    requires PurgeAmount(m, amount) && forall x :: x in m ==> m[x] == weight
    ensures amount == weight && Purged(m, amount) == map[]
  {
    var sample: seq<T>, weights: seq<nat> :|
      Sampled(sample, weights, m) && |weights| == SampleSize(|m|) > 0 && amount == SampleMedian(weights);
    var i :| 0 <= i < |weights| && weights[i] == amount;
    assert m[sample[i]] == weights[i];
  }

  lemma {:induction false} UnitSum(weight: nat -> nat, n: nat)
    requires forall i :: weight(i) == 1
    ensures Sum(FirstItems(weight, n)) == n
  {
    hide Sum;
    if n == 0 {
      assert FirstItems(weight, 0) == map[];
      SumOfNone();
    } else {
      UnitSum(weight, n - 1);
      FirstItemsNext(weight, n - 1);
    }
  }

  /** Seven different items, each fed once to a sketch of the smallest size, leave it with weight but without an active entry. */
  method PurgedEmpty(hash: nat -> nat) returns (sketch: FrequentItemsSketch<nat>)
    ensures fresh(sketch.Repr) && sketch.Valid() && sketch.items.weights == map[] && sketch.totalWeight == Sum(sketch.truth) == 7
    ensures forall i :: i < 7 ==> WeightIn(sketch.truth, i) == 1
  {
    hide Account, MapCells, Guarantee, Active, PurgeAmount, TablePurge, FirstItems, Sum;
    var weight: nat -> nat := _ => 1;
    var ok;
    assert Pow2(3) == 8;
    sketch, ok := FeedToPurge(hash, 3, weight);
    UnitSum(weight, 7);
    UnitWeights(weight, 7);
    forall i | i < 7
      ensures WeightIn(sketch.truth, i) == 1
    {
      InFirst(weight, 7, i);
    }
    UniformPurge(sketch.truth, sketch.offset, 1);
    TotalIsSum(sketch);
  }

  lemma UnitWeights(weight: nat -> nat, n: nat)
    requires forall i :: weight(i) == 1
    ensures forall x :: x in FirstItems(weight, n) ==> FirstItems(weight, n)[x] == 1
  {
  }

  /** Merging it into a new sketch loses all of the weight. */
  method MergeLosesWeight(hash: nat -> nat) returns (sketch: FrequentItemsSketch<nat>, that: FrequentItemsSketch<nat>)
    ensures sketch.Valid() && that.Valid() && sketch.totalWeight == 0 && that.totalWeight == Sum(Combined(map[], that.truth)) == 7
    ensures sketch.items.weights == map[] && sketch.offset == 0 && WeightIn(that.truth, 0) == 1
    ensures !Bounded(sketch.items.weights, Combined(map[], that.truth), sketch.offset)
  {
    hide Account, MapCells, Guarantee, Capacity, Active, Pow2, Sum, Combined, Bounded;
    that := PurgedEmpty(hash);
    sketch := new FrequentItemsSketch(hash, 3);
    TotalIsSum(sketch);
    SumOfNone();
    SumCombined(map[], that.truth);
    OutOfBounds(that.truth, 0);
    var ok := sketch.Merge(that);
  }

  lemma OutOfBounds<T(!new)>(truth: map<T, nat>, item: T)
    requires WeightIn(truth, item) > 0
    ensures !Bounded(map[], Combined(map[], truth), 0)
  {
    var none: map<T, nat> := map[];
    assert WeightIn(Combined(none, truth), item) > WeightIn(none, item) + 0;
  }

  // ---- whole runs ----

  /** How a sketch came about: from nothing, by an update, or by merging another sketch into it. */
  datatype Script<T> = Start(lgMax: nat) | Feed(before: Script<T>, item: T, weight: nat) | Union(before: Script<T>, other: Script<T>)

  ghost function TrueWeights<T>(script: Script<T>): map<T, nat>
  {
    match script
    case Start(_) => map[]
    case Feed(before, item, weight) => if weight == 0 then TrueWeights(before) else Added(TrueWeights(before), item, weight)
    case Union(before, other) => Combined(TrueWeights(before), TrueWeights(other))
  }

  /** All sketches of the script have maps of at most 2^lg cells. */
  predicate UpTo<T>(script: Script<T>, lg: nat)
  {
    match script
    case Start(lgMax) => lgMax <= lg
    case Feed(before, _, _) => UpTo(before, lg)
    case Union(before, other) => UpTo(before, lg) && UpTo(other, lg)
  }

  /** A script without merges. */
  predicate Updates<T>(script: Script<T>)
  {
    match script
    case Start(_) => true
    case Feed(before, _, _) => Updates(before)
    case Union(_, _) => false
  }

  predicate AllOf<T>(script: Script<T>, lg: nat)
  {
    match script
    case Start(lgMax) => lgMax == lg
    case Feed(before, _, _) => AllOf(before, lg)
    case Union(before, other) => AllOf(before, lg) && AllOf(other, lg)
  }

  /** The true weights of a sketch are those fed in or, when merges have lost weight, sum up to less. */
  ghost predicate Kept<T(!new)>(truth: map<T, nat>, fed: map<T, nat>, lossless: bool)
  {
    if lossless then truth == fed else Sum(truth) < Sum(fed)
  }

  /** Carry out a script. */
  method Follow<T(==,0,!new)>(hash: T -> nat, script: Script<T>) returns (sketch: FrequentItemsSketch<T>, ok: bool, lossless: bool)
    ensures fresh(sketch.Repr) && (ok ==> sketch.Valid() && Kept(sketch.truth, TrueWeights(script), lossless))
    ensures UpTo(script, 10) ==> ok && sketch.items.lgMax <= 10
    ensures Updates(script) ==> lossless
    ensures forall lg :: lg >= LG_MIN_MAP_SIZE && AllOf(script, lg) && ok ==> sketch.items.lgMax == lg && sketch.factor == Guarantee(lg)
    decreases script, 1
  {
    hide Account, MapCells, Guarantee, Capacity, Active, Pow2, Combined, Added, Sum;
    match script {
      case Start(lgMax) =>
        sketch := new FrequentItemsSketch(hash, lgMax);
        ok, lossless := true, true;
      case Feed(before, item, weight) =>
        sketch, ok, lossless := Follow(hash, before);
        if ok {
          SumAdded(sketch.truth, item, weight);
          SumAdded(TrueWeights(before), item, weight);
          ok := sketch.Update(item, weight);
        }
      case Union(before, other) =>
        sketch, ok, lossless := FollowUnion(hash, before, other);
    }
  }

  method FollowUnion<T(==,0,!new)>(hash: T -> nat, before: Script<T>, other: Script<T>) returns (sketch: FrequentItemsSketch<T>, ok: bool, lossless: bool)
    ensures fresh(sketch.Repr) && (ok ==> sketch.Valid() && Kept(sketch.truth, TrueWeights(Union(before, other)), lossless))
    ensures UpTo(Union(before, other), 10) ==> ok && sketch.items.lgMax <= 10
    ensures forall lg :: lg >= LG_MIN_MAP_SIZE && AllOf(Union(before, other), lg) && ok ==> sketch.items.lgMax == lg && sketch.factor == Guarantee(lg)
    decreases Script.Union(before, other), 0
  {
    hide Account, MapCells, Guarantee, Capacity, Active, Pow2, Combined, Added, Sum, MergedTruth;
    var lossless1, that, ok2, lossless2;
    sketch, ok, lossless1 := Follow(hash, before);
    that, ok2, lossless2 := Follow(hash, other);
    ok, lossless := ok && ok2, false;
    if ok {
      ok, lossless := MergeTracked(sketch, that, lossless1, lossless2, TrueWeights(before), TrueWeights(other));
    }
  }

  /**
   * Any run of updates and merges: the bounds and the account of Valid() hold for the weights fed in as long as no merge
   * lost weight, which shows in the total weight. Maps of up to 2^10 cells never raise the drift exception, and if they
   * are all of one size, the error is within the published bound.
   */
  method Build<T(==,0,!new)>(hash: T -> nat, script: Script<T>) returns (sketch: FrequentItemsSketch<T>, ok: bool, lossless: bool)
    ensures fresh(sketch.Repr) && (ok ==> sketch.Valid())
    ensures UpTo(script, 10) ==> ok && sketch.items.lgMax <= 10
    ensures ok ==> (lossless <==> sketch.totalWeight == Sum(TrueWeights(script))) && (lossless <==> sketch.truth == TrueWeights(script))
    ensures ok && lossless ==> Bounded(sketch.items.weights, TrueWeights(script), sketch.offset)
    ensures ok && !lossless ==> sketch.totalWeight < Sum(TrueWeights(script))
    ensures Updates(script) ==> lossless
    ensures forall lg :: lg >= LG_MIN_MAP_SIZE && AllOf(script, lg) && ok ==> sketch.items.lgMax == lg && sketch.factor == Guarantee(lg)
    ensures forall lg :: LG_MIN_MAP_SIZE <= lg <= 10 && AllOf(script, lg) && ok ==> WithinEpsilon(lg, sketch.offset, sketch.totalWeight)
  {
    hide MapCells, Guarantee, Capacity, Active, Pow2, Sum, WithinEpsilon, Bounded, Positive, TrueWeights;
    sketch, ok, lossless := Follow(hash, script);
    if ok {
      TotalIsSum(sketch);
      sketch.Apriori();
    }
  }

  method MergeTracked<T(==,0,!new)>(sketch: FrequentItemsSketch<T>, that: FrequentItemsSketch<T>, lossless1: bool, lossless2: bool,
                                    ghost fed: map<T, nat>, ghost fed2: map<T, nat>) returns (ok: bool, lossless: bool)
    requires sketch.Valid() && that.Valid() && that.Repr !! sketch.Repr
    requires Kept(sketch.truth, fed, lossless1) && Kept(that.truth, fed2, lossless2)
    modifies sketch.Repr
    ensures sketch.items.lgMax <= 10 ==> ok
    ensures ok ==> sketch.Valid() && Kept(sketch.truth, Combined(fed, fed2), lossless)
    ensures ok && old(sketch.factor) == old(that.factor) ==> sketch.factor == old(sketch.factor)
    ensures sketch.items == old(sketch.items) && fresh(sketch.Repr - old(sketch.Repr))
  {
    hide Account, MapCells, Guarantee, Capacity, Active, Pow2, Combined, Sum, MergedTruth;
    lossless := MergeChecked(sketch, that);
    TotalIsSum(that);
    MergedLoss(sketch.truth, that.items.weights, that.truth, fed, fed2, lossless1, lossless2);
    ok := sketch.Merge(that);
    lossless := lossless && lossless1 && lossless2;
  }

  /** Weight that has been lost on the way to a merge, or is lost by it, stays lost. */
  lemma MergedLoss<T(!new)>(truth: map<T, nat>, w2: map<T, nat>, truth2: map<T, nat>, fed: map<T, nat>, fed2: map<T, nat>, lossless: bool, lossless2: bool)
    requires Kept(truth, fed, lossless) && Kept(truth2, fed2, lossless2) && Positive(truth2)
    ensures Kept(MergedTruth(truth, w2, truth2), Combined(fed, fed2),
                 lossless && lossless2 && MergedTruth(truth, w2, truth2) == Combined(truth, truth2))
  {
    hide Sum, Combined, Positive;
    MergeLossless(truth, w2, truth2);
    SumCombined(truth, truth2);
    SumCombined(fed, fed2);
  }

  /** Whether a merge will add the true weights of the other sketch, as its caller can tell before the call. */
  method MergeChecked<T(==,0,!new)>(sketch: FrequentItemsSketch<T>, that: FrequentItemsSketch<T>) returns (lossless: bool)
    requires that.Valid()
    ensures lossless <==> MergedTruth(sketch.truth, that.items.weights, that.truth) == Combined(sketch.truth, that.truth)
  {
    that.items.Size();
    MergeLossless(sketch.truth, that.items.weights, that.truth);
    lossless := that.items.numActive > 0 || that.totalWeight == 0;
  }
}
