/** Weights of items as maps: sums, additions, and what a purge takes away. */
module Weights {
  import opened ReversePurge
  import opened ReversePurgeMaps
  import opened Medians

  ghost function Sum<T(!new)>(m: map<T, nat>): nat
  {
    if m == map[] then 0
    else
      var x :| x in m;
      m[x] + Sum(m - {x})
  }

  /** The order of summation does not matter. */
  lemma {:induction false} SumRemove<T(!new)>(m: map<T, nat>, y: T)
    requires y in m
    ensures Sum(m) == m[y] + Sum(m - {y})
    decreases |m|
  {
    var x :| x in m && Sum(m) == m[x] + Sum(m - {x});
    if x != y {
      SumRemove(m - {x}, y);
      SumRemove(m - {y}, x);
      assert m - {x} - {y} == m - {y} - {x};
    }
  }

  /** One more occurrence of an item. */
  ghost function Added<T>(m: map<T, nat>, key: T, value: nat): map<T, nat>
  {
    m[key := WeightIn(m, key) + value]
  }

  lemma SumAdded<T(!new)>(m: map<T, nat>, key: T, value: nat)
    ensures Sum(Added(m, key, value)) == Sum(m) + value
  {
    var m2 := Added(m, key, value);
    SumRemove(m2, key);
    if key in m {
      SumRemove(m, key);
    }
    assert m2 - {key} == m - {key};
    assert key !in m ==> m - {key} == m;
  }

  ghost function Combined<T>(m: map<T, nat>, m2: map<T, nat>): map<T, nat>
  {
    map x | x in m.Keys + m2.Keys :: WeightIn(m, x) + WeightIn(m2, x)
  }

  lemma CombinedNext<T>(m: map<T, nat>, m2: map<T, nat>, key: T, value: nat)
    requires key !in m2
    ensures Combined(m, m2[key := value]) == Added(Combined(m, m2), key, value)
  {
  }

  lemma CombinedNothing<T(!new)>(m: map<T, nat>, m2: map<T, nat>)
    requires m2 == map[]
    ensures Combined(m, m2) == m && Sum(m2) == 0
  {
  }

  lemma {:induction false} SumCombined<T(!new)>(m: map<T, nat>, m2: map<T, nat>)
    ensures Sum(Combined(m, m2)) == Sum(m) + Sum(m2)
    decreases |m2|
  {
    hide Sum, Combined, Added;
    if m2 == map[] {
      CombinedNothing(m, m2);
    } else {
      var x :| x in m2;
      SumRemove(m2, x);
      SumCombined(m, m2 - {x});
      CombinedNext(m, m2 - {x}, x, m2[x]);
      assert m2 == (m2 - {x})[x := m2[x]];
      SumAdded(Combined(m, m2 - {x}), x, m2[x]);
    }
  }

  // ---- what a purge takes away ----

  lemma OneFewer(amount: nat, n: nat)
    requires n > 0
    ensures amount * n == amount * (n - 1) + amount
  {
  }

  /** A purge takes its amount off every item that weighs at least that much. */
  lemma {:induction false} PurgedSum<T(!new)>(m: map<T, nat>, amount: nat, heavy: set<T>)
    requires forall x :: x in heavy ==> x in m && m[x] >= amount
    ensures Sum(Purged(m, amount)) + amount * |heavy| <= Sum(m)
    decreases |m|
  {
    hide Sum, Purged;
    if m == map[] {
      PurgedNothing(m, amount);
      assert heavy == {};
    } else {
      var x :| x in m;
      SumRemove(m, x);
      PurgedSum(m - {x}, amount, heavy - {x});
      PurgedStep(m, amount, x);
      if x in heavy {
        OneFewer(amount, |heavy|);
      } else {
        assert heavy - {x} == heavy;
      }
    }
  }

  lemma PurgedNothing<T(!new)>(m: map<T, nat>, amount: nat)
    requires m == map[]
    ensures Sum(Purged(m, amount)) == 0
  {
  }

  lemma PurgedStep<T(!new)>(m: map<T, nat>, amount: nat, x: T)
    requires x in m
    ensures Sum(Purged(m, amount)) == Sum(Purged(m - {x}, amount)) + if m[x] > amount then m[x] - amount else 0
  {
    hide Sum;
    assert Purged(m - {x}, amount) == Purged(m, amount) - {x};
    if m[x] > amount {
      SumRemove(Purged(m, amount), x);
    } else {
      assert Purged(m, amount) - {x} == Purged(m, amount);
    }
  }

  /** The sampled items that weigh at least the amount. */
  ghost function HeavySamples<T>(sample: seq<T>, weights: seq<nat>, amount: nat): set<T>
    requires |sample| == |weights|
  {
    set i | 0 <= i < |sample| && weights[i] >= amount :: sample[i]
  }

  lemma HeavySnoc<T>(sample: seq<T>, weights: seq<nat>, amount: nat)
    requires |sample| == |weights| > 0
    requires forall i, j :: 0 <= i < j < |sample| ==> sample[i] != sample[j]
    ensures var n := |sample| - 1;
            HeavySamples(sample, weights, amount) ==
            HeavySamples(sample[..n], weights[..n], amount) + (if weights[n] >= amount then {sample[n]} else {})
    ensures sample[|sample| - 1] !in HeavySamples(sample[..|sample| - 1], weights[..|sample| - 1], amount)
  {
    var n := |sample| - 1;
    forall x | x in HeavySamples(sample[..n], weights[..n], amount)
      ensures x in HeavySamples(sample, weights, amount)
    {
      var i :| 0 <= i < n && weights[..n][i] >= amount && sample[..n][i] == x;
      assert weights[i] >= amount && sample[i] == x;
    }
    forall x | x in HeavySamples(sample, weights, amount) && x != sample[n]
      ensures x in HeavySamples(sample[..n], weights[..n], amount)
    {
      var i :| 0 <= i <= n && weights[i] >= amount && sample[i] == x;
      assert weights[..n][i] >= amount && sample[..n][i] == x;
    }
  }

  lemma {:induction false} HeavyCount<T>(sample: seq<T>, weights: seq<nat>, amount: nat)
    requires |sample| == |weights|
    requires forall i, j :: 0 <= i < j < |sample| ==> sample[i] != sample[j]
    ensures |HeavySamples(sample, weights, amount)| == |sample| - CountLess(weights, amount)
  {
    if sample != [] {
      var n := |sample| - 1;
      HeavySnoc(sample, weights, amount);
      HeavyCount(sample[..n], weights[..n], amount);
    }
  }

  /** How many of s samples weigh at least the sample median for certain. */
  function Upper(s: nat): nat
    requires s > 0
  {
    s - 1 - s / 2
  }

  /** A purge of a map takes off at least Upper(s) times its amount, where s is the sample size. */
  lemma PurgeGain<T(!new)>(m: map<T, nat>, amount: nat)
    requires PurgeAmount(m, amount)
    ensures SampleSize(|m|) > 0 && Sum(Purged(m, amount)) + amount * Upper(SampleSize(|m|)) <= Sum(m)
  {
    var sample: seq<T>, weights: seq<nat> :|
      Sampled(sample, weights, m) && |weights| == SampleSize(|m|) > 0 && amount == SampleMedian(weights);
    var heavy := HeavySamples(sample, weights, amount);
    MedianCounts(weights);
    HeavyCount(sample, weights, amount);
    PurgedSum(m, amount, heavy);
    TimesMonotone(amount, Upper(|weights|), |heavy|);
  }

  lemma TimesMonotone(a: nat, b: nat, c: nat)
    requires b <= c
    ensures a * b <= a * c
  {
  }
}
