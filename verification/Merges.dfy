/** Merging sorted ranges of buffers: what the merge loops of the KLL and CPC sketches have in common. */
module Merges {
  ghost predicate Sorted(s: seq<int>)
  {
    forall i, j :: 0 <= i < j < |s| ==> s[i] <= s[j]
  }

  /** merge_sorted_arrays: the first item of a is taken when it is below the first of b. */
  function Merge(a: seq<int>, b: seq<int>): (c: seq<int>)
    ensures |c| == |a| + |b|
  {
    if a == [] then b
    else if b == [] then a
    else if a[0] < b[0] then [a[0]] + Merge(a[1..], b)
    else [b[0]] + Merge(a, b[1..])
  }

  lemma {:induction false} MergeSorted(a: seq<int>, b: seq<int>)
    requires Sorted(a) && Sorted(b)
    ensures Sorted(Merge(a, b))
    ensures Merge(a, b) != [] ==> (a != [] && Merge(a, b)[0] == a[0]) || (b != [] && Merge(a, b)[0] == b[0])
    decreases |a| + |b|
  {
    if a == [] || b == [] {
    } else if a[0] < b[0] {
      MergeSorted(a[1..], b);
    } else {
      MergeSorted(a, b[1..]);
    }
  }

  /** The buffer holds s from position `at` on. */
  ghost predicate Block(buf: seq<int>, at: nat, s: seq<int>)
  {
    at + |s| <= |buf| && buf[at..at + |s|] == s
  }

  lemma BlockAt(buf: seq<int>, at: nat, s: seq<int>)
    requires Block(buf, at, s)
    ensures at + |s| <= |buf| && forall q :: 0 <= q < |s| ==> s[q] == buf[at + q]
  {
  }

  /** Outside positions lo..hi-1 nothing has changed. */
  ghost predicate Outside(buf: seq<int>, buf0: seq<int>, lo: int, hi: int)
  {
    |buf| == |buf0| && forall p :: 0 <= p < |buf| && !(lo <= p < hi) ==> buf[p] == buf0[p]
  }

  lemma BlockKept(buf: seq<int>, buf2: seq<int>, at: nat, s: seq<int>, lo: int, hi: int)
    requires Block(buf, at, s) && Outside(buf2, buf, lo, hi) && (at + |s| <= lo || hi <= at)
    ensures Block(buf2, at, s)
  {
    assert buf2[at..at + |s|] == buf[at..at + |s|];
  }

  lemma OutsideBoth(a: seq<int>, b: seq<int>, c: seq<int>, lo1: int, hi1: int, lo2: int, hi2: int)
    requires Outside(b, a, lo1, hi1) && Outside(c, b, lo2, hi2)
    ensures Outside(c, a, if lo1 < lo2 then lo1 else lo2, if hi1 < hi2 then hi2 else hi1)
  {
  }

  lemma MergeStep(a: seq<int>, b: seq<int>)
    requires a != [] || b != []
    ensures Merge(a, b) == if a == [] then [b[0]] + Merge(a, b[1..])
                           else if b == [] then [a[0]] + Merge(a[1..], b)
                           else if a[0] < b[0] then [a[0]] + Merge(a[1..], b)
                           else [b[0]] + Merge(a, b[1..])
  {
    assert a == [] ==> b == [b[0]] + b[1..];
    assert b == [] ==> a == [a[0]] + a[1..];
  }

  /** The state of the merge loop: `rest` is what remains to be written from position c on. */
  ghost predicate Merging(bufA: seq<int>, a: nat, limA: nat, bufB: seq<int>, b: nat, limB: nat, bufC: seq<int>, startC: nat, c: nat, all: seq<int>)
  {
    a <= limA <= |bufA| && b <= limB <= |bufB| && startC <= c && c - startC <= |all| && startC + |all| <= |bufC| &&
    all[c - startC..] == Merge(bufA[a..limA], bufB[b..limB]) && bufC[startC..c] == all[..c - startC]
  }

  /** Where the merge reads next: in the second input when the first is used up or not below it. */
  predicate TakesB(bufA: seq<int>, a: nat, limA: nat, bufB: seq<int>, b: nat, limB: nat)
    requires a <= limA <= |bufA| && b <= limB <= |bufB|
  {
    a == limA || (b < limB && !(bufA[a] < bufB[b]))
  }

  lemma MergingStep(bufA: seq<int>, a: nat, limA: nat, bufB: seq<int>, b: nat, limB: nat, bufC: seq<int>, startC: nat, c: nat, all: seq<int>)
    requires Merging(bufA, a, limA, bufB, b, limB, bufC, startC, c, all) && c < startC + |all|
    ensures TakesB(bufA, a, limA, bufB, b, limB) ==> b < limB && all[c - startC] == bufB[b]
    ensures TakesB(bufA, a, limA, bufB, b, limB) ==> all[c + 1 - startC..] == Merge(bufA[a..limA], bufB[b + 1..limB])
    ensures !TakesB(bufA, a, limA, bufB, b, limB) ==> a < limA && all[c - startC] == bufA[a]
    ensures !TakesB(bufA, a, limA, bufB, b, limB) ==> all[c + 1 - startC..] == Merge(bufA[a + 1..limA], bufB[b..limB])
  {
    var x, y := bufA[a..limA], bufB[b..limB];
    assert all[c - startC..][0] == all[c - startC] && all[c - startC..][1..] == all[c + 1 - startC..];
    MergeStep(x, y);
    if a < limA {
      assert x[0] == bufA[a] && x[1..] == bufA[a + 1..limA];
    }
    if b < limB {
      assert y[0] == bufB[b] && y[1..] == bufB[b + 1..limB];
    }
  }

  /** The state after the step. */
  lemma MergingTook(bufA: seq<int>, a: nat, limA: nat, bufB: seq<int>, b: nat, limB: nat, bufC: seq<int>, bufC2: seq<int>, startC: nat, c: nat, all: seq<int>)
    requires Merging(bufA, a, limA, bufB, b, limB, bufC, startC, c, all) && c < startC + |all|
    requires bufC2 == bufC[c := all[c - startC]]
    ensures TakesB(bufA, a, limA, bufB, b, limB) ==> Merging(bufA, a, limA, bufB, b + 1, limB, bufC2, startC, c + 1, all)
    ensures !TakesB(bufA, a, limA, bufB, b, limB) ==> Merging(bufA, a + 1, limA, bufB, b, limB, bufC2, startC, c + 1, all)
  {
    MergingStep(bufA, a, limA, bufB, b, limB, bufC, startC, c, all);
    hide Merge, TakesB;
    assert bufC2[startC..c + 1] == bufC[startC..c] + [all[c - startC]];
    assert all[..c + 1 - startC] == all[..c - startC] + [all[c - startC]];
  }

  lemma MergingBounds(bufA: seq<int>, a: nat, limA: nat, bufB: seq<int>, b: nat, limB: nat, bufC: seq<int>, startC: nat, c: nat, all: seq<int>)
    requires Merging(bufA, a, limA, bufB, b, limB, bufC, startC, c, all)
    ensures a <= limA <= |bufA| && b <= limB <= |bufB| && startC <= c && startC + |all| <= |bufC|
  {
    hide Merge;
  }

  lemma MergingStart(bufA: seq<int>, startA: nat, A: seq<int>, bufB: seq<int>, startB: nat, B: seq<int>, bufC: seq<int>, startC: nat)
    requires Block(bufA, startA, A) && Block(bufB, startB, B) && startC + |A| + |B| <= |bufC|
    ensures Merging(bufA, startA, startA + |A|, bufB, startB, startB + |B|, bufC, startC, startC, Merge(A, B))
  {
    hide Merge;
  }

  lemma MergingEnd(bufA: seq<int>, a: nat, limA: nat, bufB: seq<int>, b: nat, limB: nat, bufC: seq<int>, startC: nat, all: seq<int>)
    requires Merging(bufA, a, limA, bufB, b, limB, bufC, startC, startC + |all|, all)
    ensures Block(bufC, startC, all)
  {
    hide Merge;
  }

  /** The part of an input that the merge has not read yet is as it was. */
  ghost predicate Unread(buf: seq<int>, buf0: seq<int>, from: nat, lim: nat)
  {
    lim <= |buf| == |buf0| && forall p :: from <= p < lim ==> buf[p] == buf0[p]
  }
}
