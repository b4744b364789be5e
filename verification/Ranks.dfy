/** Sequences of items as samples of a stream: ranks, merging and halving. */
module Ranks {
  import opened Merges

  /** How many items are below x. */
  function Rank(s: seq<int>, x: int): (r: nat)
  {
    if s == [] then 0 else (if s[0] < x then 1 else 0) + Rank(s[1..], x)
  }

  lemma {:induction false} RankBound(s: seq<int>, x: int)
    ensures Rank(s, x) <= |s|
  {
    if s != [] {
      RankBound(s[1..], x);
    }
  }

  lemma {:induction false} RankConcat(s: seq<int>, t: seq<int>, x: int)
    ensures Rank(s + t, x) == Rank(s, x) + Rank(t, x)
  {
    if s == [] {
      assert s + t == t;
    } else {
      assert (s + t)[1..] == s[1..] + t;
      RankConcat(s[1..], t, x);
    }
  }

  /** Past the first item that is not below x, a sorted sequence has none. */
  lemma {:induction false} RankSortedNone(s: seq<int>, x: int)
    requires Sorted(s) && (s == [] || s[0] >= x)
    ensures Rank(s, x) == 0
  {
    if s != [] {
      RankSortedNone(s[1..], x);
    }
  }

  // ---- merging ----

  lemma {:induction false} RankMerge(a: seq<int>, b: seq<int>, x: int)
    ensures Rank(Merge(a, b), x) == Rank(a, x) + Rank(b, x)
    decreases |a| + |b|
  {
    if a == [] || b == [] {
    } else if a[0] < b[0] {
      RankMerge(a[1..], b, x);
    } else {
      RankMerge(a, b[1..], x);
    }
  }

  // ---- sorting ----

  function Insert(v: int, s: seq<int>): (r: seq<int>)
    ensures |r| == |s| + 1
  {
    if s == [] || v <= s[0] then [v] + s else [s[0]] + Insert(v, s[1..])
  }

  /** The sorted rearrangement of a sequence. */
  function Sort(s: seq<int>): (r: seq<int>)
    ensures |r| == |s|
  {
    if s == [] then [] else Insert(s[0], Sort(s[1..]))
  }

  lemma {:induction false} InsertSorted(v: int, s: seq<int>)
    requires Sorted(s)
    ensures Sorted(Insert(v, s)) && (Insert(v, s)[0] == v || (s != [] && Insert(v, s)[0] == s[0]))
  {
    if s != [] && v > s[0] {
      InsertSorted(v, s[1..]);
    }
  }

  lemma {:induction false} RankInsert(v: int, s: seq<int>, x: int)
    ensures Rank(Insert(v, s), x) == Rank(s, x) + if v < x then 1 else 0
  {
    if s == [] || v <= s[0] {
      assert ([v] + s)[1..] == s;
    } else {
      RankInsert(v, s[1..], x);
      assert ([s[0]] + Insert(v, s[1..]))[1..] == Insert(v, s[1..]);
    }
  }

  lemma {:induction false} SortSorted(s: seq<int>)
    ensures Sorted(Sort(s))
  {
    if s != [] {
      SortSorted(s[1..]);
      InsertSorted(s[0], Sort(s[1..]));
    }
  }

  lemma {:induction false} RankSort(s: seq<int>, x: int)
    ensures Rank(Sort(s), x) == Rank(s, x)
  {
    if s != [] {
      RankSort(s[1..], x);
      RankInsert(s[0], Sort(s[1..]), x);
    }
  }

  // ---- halving ----

  /** Every other item, starting with the first or the second. */
  function Halve(s: seq<int>, second: bool): (h: seq<int>)
    ensures 2 * |h| <= |s| <= 2 * |h| + 1
  {
    if |s| < 2 then [] else [s[if second then 1 else 0]] + Halve(s[2..], second)
  }

  lemma {:induction false} HalveAt(s: seq<int>, second: bool, i: nat)
    requires i < |Halve(s, second)|
    ensures Halve(s, second)[i] == s[2 * i + if second then 1 else 0]
    decreases i
  {
    if i > 0 {
      HalveAt(s[2..], second, i - 1);
    }
  }

  lemma HalveSorted(s: seq<int>, second: bool)
    requires Sorted(s)
    ensures Sorted(Halve(s, second))
  {
    var h := Halve(s, second);
    forall i, j | 0 <= i < j < |h|
      ensures h[i] <= h[j]
    {
      HalveAt(s, second, i);
      HalveAt(s, second, j);
    }
  }

  /** Doubling the rank in half of a sorted sequence of even length misses its rank by at most one, whichever half it is. */
  lemma {:induction false} HalveRank(s: seq<int>, second: bool, x: int)
    requires Sorted(s) && |s| % 2 == 0
    ensures second ==> Rank(s, x) - 1 <= 2 * Rank(Halve(s, second), x) <= Rank(s, x)
    ensures !second ==> Rank(s, x) <= 2 * Rank(Halve(s, second), x) <= Rank(s, x) + 1
  {
    if s != [] {
      assert s[1..][1..] == s[2..];
      assert s[1..][0] == s[1];
      HalveRank(s[2..], second, x);
      if s[1] >= x {
        RankSortedNone(s[2..], x);
      }
    }
  }
}
