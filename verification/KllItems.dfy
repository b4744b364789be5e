/** Where the retained items of a KLL sketch come from, and the extreme values kept beside them. */
module KllItems {
  import opened Words
  import opened Merges
  import opened Ranks
  import opened KllLevels

  // ---- retained items ----

  /** Every item of s is one of `fed`. */
  ghost predicate From(s: seq<int>, fed: seq<int>)
  {
    forall i :: 0 <= i < |s| ==> s[i] in fed
  }

  /** Every retained item is one of `fed`. */
  ghost predicate Drawn(L: seq<seq<int>>, fed: seq<int>)
  {
    forall h :: 0 <= h < |L| ==> From(L[h], fed)
  }

  lemma DrawnMore(L: seq<seq<int>>, fed: seq<int>, more: seq<int>)
    requires Drawn(L, fed)
    ensures Drawn(L, fed + more) && Drawn(L, more + fed)
  {
  }

  lemma DrawnConcat(L: seq<seq<int>>, M: seq<seq<int>>, fed: seq<int>)
    requires Drawn(L, fed) && Drawn(M, fed)
    ensures Drawn(L + M, fed)
  {
    hide From;
  }

  lemma {:induction false} FromMerge(a: seq<int>, b: seq<int>, fed: seq<int>)
    requires From(a, fed) && From(b, fed)
    ensures From(Merge(a, b), fed)
    decreases |a| + |b|
  {
    if a == [] || b == [] {
    } else if a[0] < b[0] {
      FromMerge(a[1..], b, fed);
    } else {
      FromMerge(a, b[1..], fed);
    }
  }

  lemma {:induction false} FromInsert(v: int, s: seq<int>, fed: seq<int>)
    requires v in fed && From(s, fed)
    ensures From(Insert(v, s), fed)
  {
    if s == [] || v <= s[0] {
    } else {
      FromInsert(v, s[1..], fed);
    }
  }

  lemma {:induction false} FromSort(s: seq<int>, fed: seq<int>)
    requires From(s, fed)
    ensures From(Sort(s), fed)
  {
    if s != [] {
      FromSort(s[1..], fed);
      FromInsert(s[0], Sort(s[1..]), fed);
    }
  }

  lemma FromHalve(s: seq<int>, second: bool, fed: seq<int>)
    requires From(s, fed)
    ensures From(Halve(s, second), fed)
  {
    forall i | 0 <= i < |Halve(s, second)|
      ensures Halve(s, second)[i] in fed
    {
      HalveAt(s, second, i);
    }
  }

  lemma FromCompaction(level: seq<int>, above: seq<int>, sorted: bool, coin: bool, fed: seq<int>)
    requires From(level, fed) && From(above, fed)
    ensures From(Leftover(level), fed) && From(Promoted(Compactable(level, sorted), above, coin), fed)
  {
    hide Merge, Halve, Sort;
    var adj := Compactable(level, sorted);
    FromSort(level[|level| % 2..], fed);
    FromHalve(adj, coin, fed);
    FromHalve(adj, !coin, fed);
    FromMerge(Halve(adj, coin), above, fed);
  }

  /** A compaction keeps only items it found. */
  lemma DrawnAbove(rest: seq<seq<int>>, sorted: bool, coin: bool, fed: seq<int>)
    requires rest != [] && Drawn(rest, fed)
    ensures From(Leftover(rest[0]), fed) && Drawn(Above(rest, sorted, coin), fed)
  {
    hide From, Leftover, Promoted, Compactable;
    FromNothing(fed);
    FromCompaction(rest[0], if |rest| == 1 then [] else rest[1], sorted, coin, fed);
  }

  lemma FromNothing(fed: seq<int>)
    ensures From([], fed)
  {
  }

  /** So does the compression of a whole sketch. */
  lemma {:induction false} DrawnCompress(z: Size, t: Todo, coins: nat -> bool, fed: seq<int>)
    requires Ready(z, t) && Drawn(t.rest, fed)
    ensures Drawn(Compress(z, t, coins), fed)
    decreases Population(t.rest) + |t.rest|
  {
    if t.rest != [] {
      hide From, Above, Leftover, CapAt;
      DrawnAbove(t.rest, t.sorted, coins(t.cur), fed);
      DrawnCompress(z, Next(z, t, coins), coins, fed);
      assert Compress(z, t, coins) == [Kept(z, t)] + Compress(z, Next(z, t, coins), coins);
    }
  }

  // ---- extreme values ----

  /** A minimum or maximum value, unset as long as the sketch is new: of a floating-point type it is not a number, and no comparison with it holds. */
  datatype Extreme = Unset | Value(v: int)

  predicate Less(a: Extreme, b: Extreme) { a.Value? && b.Value? && a.v < b.v }

  ghost predicate IsLeast(m: Extreme, fed: seq<int>)
  {
    if fed == [] then m == Unset else m.Value? && m.v in fed && forall x :: x in fed ==> m.v <= x
  }

  ghost predicate IsGreatest(m: Extreme, fed: seq<int>)
  {
    if fed == [] then m == Unset else m.Value? && m.v in fed && forall x :: x in fed ==> x <= m.v
  }

  /** The minimum and maximum that update leaves. */
  function Lowered(m: Extreme, isEmpty: bool, value: int): Extreme
  {
    if isEmpty || Less(Value(value), m) then Value(value) else m
  }

  function Raised(m: Extreme, isEmpty: bool, value: int): Extreme
  {
    if isEmpty || Less(m, Value(value)) then Value(value) else m
  }

  lemma UpdateExtremes(least: Extreme, greatest: Extreme, fed: seq<int>, value: int)
    requires IsLeast(least, fed) && IsGreatest(greatest, fed)
    ensures IsLeast(Lowered(least, fed == [], value), fed + [value]) && IsGreatest(Raised(greatest, fed == [], value), fed + [value])
  {
  }

  /**
   * The last lines of merge take the extreme values of the other sketch when they are lower or higher. By then n has been
   * set, so their test for an empty sketch cannot succeed: what is still unset stays so. The result is right exactly when
   * something had been fed before, or level zero of the other sketch, fed in by update, had an item.
   */
  lemma MergedLeast(least: Extreme, fed0: seq<int>, s: seq<int>, other: Extreme, fed2: seq<int>)
    requires IsLeast(least, fed0 + s) && IsLeast(other, fed2) && From(s, fed2) && fed2 != []
    ensures IsLeast(if Less(other, least) then other else least, fed0 + fed2) <==> fed0 != [] || s != []
  {
    if fed0 != [] || s != [] {
      assert forall x :: x in fed0 ==> x in fed0 + s;
      assert least.v in fed0 || least.v in s;
    } else {
      assert fed0 + s == [] && fed0 + fed2 == fed2;
    }
  }

  lemma MergedGreatest(greatest: Extreme, fed0: seq<int>, s: seq<int>, other: Extreme, fed2: seq<int>)
    requires IsGreatest(greatest, fed0 + s) && IsGreatest(other, fed2) && From(s, fed2) && fed2 != []
    ensures IsGreatest(if Less(greatest, other) then other else greatest, fed0 + fed2) <==> fed0 != [] || s != []
  {
    if fed0 != [] || s != [] {
      assert forall x :: x in fed0 ==> x in fed0 + s;
      assert greatest.v in fed0 || greatest.v in s;
    } else {
      assert fed0 + s == [] && fed0 + fed2 == fed2;
    }
  }

  /** Both at once. */
  lemma MergedExtremes(least: Extreme, greatest: Extreme, fed0: seq<int>, s: seq<int>, least2: Extreme, greatest2: Extreme, fed2: seq<int>)
    requires From(s, fed2) && fed2 != []
    ensures IsLeast(least, fed0 + s) && IsLeast(least2, fed2) ==>
              (IsLeast(if Less(least2, least) then least2 else least, fed0 + fed2) <==> fed0 != [] || s != [])
    ensures IsGreatest(greatest, fed0 + s) && IsGreatest(greatest2, fed2) ==>
              (IsGreatest(if Less(greatest, greatest2) then greatest2 else greatest, fed0 + fed2) <==> fed0 != [] || s != [])
  {
    hide IsLeast, IsGreatest, From;
    if IsLeast(least, fed0 + s) && IsLeast(least2, fed2) {
      MergedLeast(least, fed0, s, least2, fed2);
    }
    if IsGreatest(greatest, fed0 + s) && IsGreatest(greatest2, fed2) {
      MergedGreatest(greatest, fed0, s, greatest2, fed2);
    }
  }

  /**
   * The extreme values of a sketch that was fed `fed`, of which only `noted` reached them. Once they are lost they stay
   * unset: the sketch is no longer empty, and nothing is lower or higher than a value that is not set.
   */
  ghost predicate NotedExtremes(least: Extreme, greatest: Extreme, fed: seq<int>, noted: seq<int>, lost: bool)
  {
    (forall x :: x in noted ==> x in fed) &&
    if lost then least == Unset && greatest == Unset && fed != []
    else IsLeast(least, noted) && IsGreatest(greatest, noted) && (fed == [] <==> noted == [])
  }

  lemma NotedUpdate(least: Extreme, greatest: Extreme, fed: seq<int>, noted: seq<int>, lost: bool, value: int)
    requires NotedExtremes(least, greatest, fed, noted, lost)
    ensures NotedExtremes(Lowered(least, fed == [], value), Raised(greatest, fed == [], value), fed + [value], noted + [value], lost)
  {
    if !lost {
      UpdateExtremes(least, greatest, noted, value);
    }
  }

  /** Level zero of the other sketch has been fed in, by update. */
  lemma NotedMerge(least: Extreme, greatest: Extreme, fed0: seq<int>, noted0: seq<int>, lost0: bool, s: seq<int>,
                   least2: Extreme, greatest2: Extreme, fed2: seq<int>, noted2: seq<int>, lost2: bool)
    requires NotedExtremes(least, greatest, fed0 + s, noted0 + s, lost0) && NotedExtremes(least2, greatest2, fed2, noted2, lost2)
    requires From(s, fed2) && fed2 != [] && forall x :: x in noted0 ==> x in fed0
    ensures NotedExtremes(if Less(least2, least) then least2 else least, if Less(greatest, greatest2) then greatest2 else greatest,
                          fed0 + fed2, noted0 + s + (if lost2 then [] else noted2), lost0 || fed0 + s == [])
  {
    if !lost0 && fed0 + s != [] {
      assert least.v in noted0 + s && greatest.v in noted0 + s;
      if lost2 {
        assert noted0 + s + [] == noted0 + s;
      }
    }
  }

  /** Some noted item is not above, and some not below, any item fed. */
  ghost predicate Spans(noted: seq<int>, fed: seq<int>)
  {
    (forall x :: x in fed ==> exists y :: y in noted && y <= x) && (forall x :: x in fed ==> exists y :: y in noted && x <= y)
  }

  /** Both extreme values are right exactly when they are not lost and the noted items span the stream. */
  lemma NotedIff(least: Extreme, greatest: Extreme, fed: seq<int>, noted: seq<int>, lost: bool)
    requires NotedExtremes(least, greatest, fed, noted, lost)
    ensures IsLeast(least, fed) && IsGreatest(greatest, fed) <==> !lost && Spans(noted, fed)
  {
  }
}
