/** The value that selecting the nth element of a range puts in its place. */
module Medians {

  function CountLess(s: seq<nat>, v: nat): nat
  {
    if s == [] then 0 else CountLess(s[..|s| - 1], v) + if s[|s| - 1] < v then 1 else 0
  }

  function CountAtMost(s: seq<nat>, v: nat): nat
  {
    if s == [] then 0 else CountAtMost(s[..|s| - 1], v) + if s[|s| - 1] <= v then 1 else 0
  }

  function Without(s: seq<nat>, i: nat): seq<nat>
    requires i < |s|
  {
    s[..i] + s[i + 1..]
  }

  lemma {:induction false} CountWithout(s: seq<nat>, i: nat, v: nat)
    requires i < |s|
    ensures CountLess(s, v) == CountLess(Without(s, i), v) + if s[i] < v then 1 else 0
    ensures CountAtMost(s, v) == CountAtMost(Without(s, i), v) + if s[i] <= v then 1 else 0
  {
    var n := |s| - 1;
    if i == n {
      assert Without(s, i) == s[..n];
    } else {
      CountWithout(s[..n], i, v);
      assert Without(s, i)[..n - 1] == Without(s[..n], i) && Without(s, i)[n - 1] == s[n];
    }
  }

  lemma {:induction false} NoneLess(s: seq<nat>, v: nat)
    requires forall j :: 0 <= j < |s| ==> v <= s[j]
    ensures CountLess(s, v) == 0
  {
    if s != [] {
      NoneLess(s[..|s| - 1], v);
    }
  }

  function LeastIndex(s: seq<nat>): (i: nat)
    requires s != []
    ensures i < |s| && forall j :: 0 <= j < |s| ==> s[i] <= s[j]
  {
    var n := |s| - 1;
    if n == 0 then 0
    else
      var i := LeastIndex(s[..n]);
      if s[n] < s[i] then n else i
  }

  /** The value with at most k values below it and more than k not above it: what nth_element leaves at position k. */
  function NthSmallest(s: seq<nat>, k: nat): (v: nat)
    requires k < |s|
    ensures v in s && CountLess(s, v) <= k < CountAtMost(s, v)
    decreases |s|
  {
    var i := LeastIndex(s);
    NoneLess(s, s[i]);
    if k == 0 then
      CountWithout(s, i, s[i]);
      s[i]
    else
      var v := NthSmallest(Without(s, i), k - 1);
      CountWithout(s, i, v);
      v
  }

  /** The contract of nth_element determines the value. */
  lemma NthUnique(s: seq<nat>, k: nat, v: nat, w: nat)
    requires CountLess(s, v) <= k < CountAtMost(s, v) && CountLess(s, w) <= k < CountAtMost(s, w)
    ensures v == w
  {
    if v < w {
      CountOrder(s, v, w);
    } else if w < v {
      CountOrder(s, w, v);
    }
  }

  lemma {:induction false} CountOrder(s: seq<nat>, v: nat, w: nat)
    requires v < w
    ensures CountAtMost(s, v) <= CountLess(s, w)
  {
    if s != [] {
      CountOrder(s[..|s| - 1], v, w);
    }
  }

  /** The element at half the number of samples, after nth_element on all samples but the last. */
  function SampleMedian(samples: seq<nat>): (median: nat)
    requires samples != []
    ensures median in samples
  {
    var n := |samples|;
    if n / 2 < n - 1 then NthSmallest(samples[..n - 1], n / 2) else samples[n / 2]
  }

  lemma {:induction false} CountBounds(s: seq<nat>, v: nat)
    ensures CountLess(s, v) <= CountAtMost(s, v) <= |s|
  {
    if s != [] {
      CountBounds(s[..|s| - 1], v);
    }
  }

  /** At least n - 1 - n/2 samples are no smaller than the sample median, and from three samples on more than n/2 are no larger. */
  lemma MedianCounts(samples: seq<nat>)
    requires samples != []
    ensures |samples| - CountLess(samples, SampleMedian(samples)) >= |samples| - 1 - |samples| / 2
    ensures |samples| >= 3 ==> CountAtMost(samples, SampleMedian(samples)) > |samples| / 2
  {
    CountBounds(samples[..|samples| - 1], SampleMedian(samples));
  }
}
