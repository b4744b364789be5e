/** Arrays of row/column pairs: extraction from a table, sorting and merging, cpc/src/u32Table.cpp. */
module PairArrays {
  import opened Sets
  import opened Words
  import opened U32Tables
  import opened PairCodecs
  import opened Merges

  // ---- lists without repetition ----

  ghost predicate NoRepeat(s: seq<nat>)
  {
    forall i, j :: 0 <= i < j < |s| ==> s[i] != s[j]
  }

  /** The elements of s are those of S, each once. */
  ghost predicate Lists(s: seq<nat>, S: set<nat>)
  {
    NoRepeat(s) && forall x :: x in s <==> x in S
  }

  lemma {:induction false} ListsSize(s: seq<nat>, S: set<nat>)
    requires Lists(s, S)
    ensures |s| == |S|
    decreases |s|
  {
    if s == [] {
      assert S == {};
    } else {
      var n := |s| - 1;
      assert s == s[..n] + [s[n]];
      ListsSize(s[..n], S - {s[n]});
      assert S == S - {s[n]} + {s[n]};
    }
  }

  /** Putting a new element between two parts of a list. */
  lemma ListsInsert(a: seq<nat>, b: seq<nat>, x: nat, S: set<nat>)
    requires Lists(a + b, S) && x !in S
    ensures Lists(a + [x] + b, S + {x})
  {
    var s, t := a + b, a + [x] + b;
    forall i | 0 <= i < |t|
      ensures t[i] == (if i < |a| then s[i] else if i == |a| then x else s[i - 1])
    {
    }
    forall i | 0 <= i < |s|
      ensures s[i] in S && s[i] == t[if i < |a| then i else i + 1]
    {
      assert s[i] in s;
    }
    forall i, j | 0 <= i < j < |t|
      ensures t[i] != t[j]
    {
      var p, q := if i < |a| then i else i - 1, if j < |a| then j else j - 1;
      if i != |a| && j != |a| {
        assert p < q && t[i] == s[p] && t[j] == s[q];
      }
    }
    InsertedElements(a, b, x);
  }

  lemma InsertedElements(a: seq<nat>, b: seq<nat>, x: nat)
    ensures forall y :: y in a + [x] + b <==> y in a + b || y == x
  {
  }

  lemma SwapLists(s: seq<nat>, i: nat, j: nat, S: set<nat>)
    requires Lists(s, S) && i < |s| && j < |s|
    ensures Lists(s[i := s[j]][j := s[i]], S)
  {
    var t := s[i := s[j]][j := s[i]];
    forall x
      ensures x in t <==> x in s
    {
      if x in s {
        var p :| 0 <= p < |s| && s[p] == x;
        assert t[if p == i then j else if p == j then i else p] == x;
      }
      if x in t {
        var p :| 0 <= p < |t| && t[p] == x;
        assert s[if p == i then j else if p == j then i else p] == x;
      }
    }
  }

  // ---- extraction ----

  /** The part of a result array that has been filled: from the left up to l, and from the right down to r. */
  ghost predicate Taken(result: seq<nat>, l: nat, r: int, S: set<nat>)
  {
    l <= r + 1 <= |result| && Lists(result[..l] + result[r + 1..], S) && l + (|result| - 1 - r) == |S|
  }

  lemma TakeLeft(result: seq<nat>, l: nat, r: int, S: set<nat>, x: nat)
    requires Taken(result, l, r, S) && x !in S && |S| < |result|
    ensures l <= r && Taken(result[l := x], l + 1, r, S + {x})
  {
    ListsInsert(result[..l], result[r + 1..], x, S);
    var t := result[l := x];
    assert t[..l + 1] == result[..l] + [x] && t[r + 1..] == result[r + 1..];
  }

  lemma TakeRight(result: seq<nat>, l: nat, r: int, S: set<nat>, x: nat)
    requires Taken(result, l, r, S) && x !in S && |S| < |result|
    ensures l <= r && Taken(result[r := x], l, r - 1, S + {x})
  {
    ListsInsert(result[..l], result[r + 1..], x, S);
    var t := result[r := x];
    assert t[r..] == [x] + result[r + 1..] && t[..l] == result[..l];
    assert result[..l] + [x] + result[r + 1..] == t[..l] + t[r..];
  }

  lemma NextSlot(s: seq<nat>, i: nat)
    requires i < |s| && Distinct(s)
    ensures Contents(s[..i + 1]) == if s[i] == EMPTY then Contents(s[..i]) else Contents(s[..i]) + {s[i]}
    ensures s[i] != EMPTY ==> s[i] !in Contents(s[..i]) && |Contents(s[..i])| < |Contents(s)|
  {
    assert s[..i + 1][..i] == s[..i];
    ContentsSnoc(s[..i + 1]);
    if s[i] != EMPTY {
      assert Contents(s[..i]) + {s[i]} <= Contents(s);
      SubsetSize(Contents(s[..i]) + {s[i]}, Contents(s));
    }
  }

  /** u32TableUnwrappingGetItems; its check on the final positions cannot fail. */
  method UnwrappingGetItems(table: U32Table) returns (result: array<nat>)
    requires table.Valid() && table.validBits >= 1
    ensures fresh(result) && result.Length == table.numItems && Lists(result[..], table.Items())
  {
    hide TableOk, Taken, Contents;
    var slots := table.slots;
    ghost var s := slots[..];
    TableDistinct(table);
    result := new nat[table.numItems];
    TakenNone(result[..], s);
    var i: nat, l: nat, r: int := 0, 0, table.numItems - 1;
    // Special rules for the region before the first empty slot.
    while i < slots.Length && slots[i] != EMPTY
      invariant i <= slots.Length && slots[..] == s && Taken(result[..], l, r, Contents(s[..i]))
    {
      NextSlot(s, i);
      l, r := TakeItem(result, slots[i], l, r, Bit(slots[i], table.validBits - 1), Contents(s[..i]));
      i := i + 1;
    }
    // The rest of the table is processed normally.
    while i < slots.Length
      invariant i <= slots.Length && slots[..] == s && Taken(result[..], l, r, Contents(s[..i]))
    {
      NextSlot(s, i);
      if slots[i] != EMPTY {
        l, r := TakeItem(result, slots[i], l, r, false, Contents(s[..i]));
      }
      i := i + 1;
    }
    assert s[..|s|] == s;
    TakenAll(result[..], l, r, Contents(s));
    assert l == r + 1;
  }

  lemma TableDistinct(table: U32Table)
    requires table.Valid()
    ensures Distinct(table.slots[..]) && table.numItems == |Contents(table.slots[..])|
  {
  }

  lemma TakenNone(result: seq<nat>, s: seq<nat>)
    ensures Taken(result, 0, |result| - 1, Contents(s[..0]))
  {
    assert Contents(s[..0]) == {};
  }

  lemma TakenAll(result: seq<nat>, l: nat, r: int, S: set<nat>)
    requires Taken(result, l, r, S) && |S| == |result|
    ensures l == r + 1 && Lists(result, S)
  {
    assert result[..l] + result[r + 1..] == result;
  }

  /** An item that was probably wrapped goes to the end. */
  method TakeItem(result: array<nat>, item: nat, l: nat, r: int, wrapped: bool, ghost S: set<nat>) returns (l': nat, r': int)
    requires Taken(result[..], l, r, S) && item !in S && |S| < result.Length
    modifies result
    ensures Taken(result[..], l', r', S + {item})
  {
    hide Taken, Lists;
    ghost var before := result[..];
    TakeLeft(before, l, r, S, item);
    TakeRight(before, l, r, S, item);
    TakenRange(before, l, r, S);
    if wrapped {
      result[r] := item;
      assert result[..] == before[r := item];
      l', r' := l, r - 1;
    } else {
      result[l] := item;
      assert result[..] == before[l := item];
      l', r' := l + 1, r;
    }
  }

  lemma TakenRange(result: seq<nat>, l: nat, r: int, S: set<nat>)
    requires Taken(result, l, r, S)
    ensures l <= r + 1 <= |result|
  {
  }

  // ---- sorting ----

  /** The first n elements are in order. */
  ghost predicate InOrder(a: seq<nat>, n: nat)
  {
    n <= |a| && forall p, q :: 0 <= p < q < n ==> a[p] <= a[q]
  }

  /** The elements up to i, apart from position j, are in order, and those after j are above v. */
  ghost predicate Hole(a: seq<nat>, i: nat, j: nat, v: nat)
  {
    j <= i < |a| &&
    (forall p, q :: 0 <= p < q <= i && p != j && q != j ==> a[p] <= a[q]) &&
    (forall q :: j < q <= i ==> v < a[q])
  }

  lemma MoveHole(a: seq<nat>, i: nat, j: nat, v: nat)
    requires Hole(a, i, j, v) && j > 0 && v < a[j - 1]
    ensures Hole(a[j := a[j - 1]], i, j - 1, v)
  {
  }

  lemma FillHole(a: seq<nat>, i: nat, j: nat, v: nat)
    requires Hole(a, i, j, v) && (j > 0 ==> a[j - 1] <= v)
    ensures InOrder(a[j := v], i + 1)
  {
  }

  /** Moving an element into the hole is swapping it with the element held. */
  lemma HeldSwap(a: seq<nat>, j: nat, k: nat, v: nat, S: set<nat>)
    requires j < |a| && k < |a| && j != k && Lists(a[j := v], S)
    ensures Lists(a[j := a[k]][k := v], S)
  {
    SwapLists(a[j := v], j, k, S);
    assert a[j := v][j := a[j := v][k]][k := a[j := v][j]] == a[j := a[k]][k := v];
  }

  /** Insert element i into the elements h, 2h, ... before it; for h = 1 this extends the sorted part. */
  method InsertElement(a: array<nat>, i: nat, h: nat, ghost S: set<nat>) returns (j: nat)
    requires 1 <= h <= i < a.Length && Lists(a[..], S) && (h == 1 ==> InOrder(a[..], i))
    modifies a
    ensures j <= i && Lists(a[..], S) && (h == 1 ==> InOrder(a[..], i + 1))
  {
    hide Lists, Hole, InOrder;
    j := i;
    var v := a[i];
    assert a[..][i := v] == a[..];
    HoleStart(a[..], i, v, h);
    while j >= h && v < a[j - h]
      invariant j <= i && Lists(a[..][j := v], S) && (h == 1 ==> Hole(a[..], i, j, v))
    {
      ghost var before := a[..];
      HeldSwap(before, j, j - h, v, S);
      if h == 1 {
        MoveHole(before, i, j, v);
      }
      a[j] := a[j - h];
      assert a[..] == before[j := before[j - h]];
      j := j - h;
    }
    ghost var held := a[..];
    if h == 1 {
      FillHole(held, i, j, v);
    }
    a[j] := v;
    assert a[..] == held[j := v];
  }

  lemma HoleStart(a: seq<nat>, i: nat, v: nat, h: nat)
    requires i < |a| && v == a[i] && (h == 1 ==> InOrder(a, i))
    ensures h == 1 ==> Hole(a, i, i, v)
  {
  }

  /** The steps of the shell sort are 1, 4, 13, ... */
  predicate KnuthStep(h: nat)
    decreases h
  {
    h == 1 || (h > 1 && h % 3 == 1 && KnuthStep(h / 3))
  }

  /** u32KnuthShellSort3 of a whole array; its check of the order cannot fail. */
  method KnuthShellSort3(a: array<nat>, ghost S: set<nat>)
    requires Lists(a[..], S) && a.Length >= 1
    modifies a
    ensures Lists(a[..], S) && InOrder(a[..], a.Length)
  {
    hide Lists, InOrder;
    var h: nat := 1;
    while h <= (a.Length - 1) / 9
      invariant h >= 1 && KnuthStep(h) && Lists(a[..], S)
      decreases a.Length - h
    {
      NextStep(h);
      h := 3 * h + 1;
    }
    var last: nat := 0;
    while h > 0
      invariant Lists(a[..], S) && (h == 0 ==> last == 1) && (last == 1 ==> InOrder(a[..], a.Length)) && (h > 0 ==> KnuthStep(h))
    {
      ShellPass(a, h, S);
      StepDown(h);
      last := h;
      h := h / 3;
    }
  }

  lemma NextStep(h: nat)
    requires KnuthStep(h)
    ensures KnuthStep(3 * h + 1)
  {
    assert (3 * h + 1) / 3 == h;
  }

  lemma StepDown(h: nat)
    requires KnuthStep(h)
    ensures h / 3 == 0 <==> h == 1
    ensures h / 3 > 0 ==> KnuthStep(h / 3)
  {
  }

  method ShellPass(a: array<nat>, h: nat, ghost S: set<nat>)
    requires h >= 1 && Lists(a[..], S) && a.Length >= 1
    modifies a
    ensures Lists(a[..], S) && (h == 1 ==> InOrder(a[..], a.Length))
  {
    OneInOrder(a[..]);
    hide Lists, InOrder;
    var i := h;
    while i < a.Length
      invariant h <= i && Lists(a[..], S) && (h == 1 ==> InOrder(a[..], if i < a.Length then i else a.Length))
    {
      var j := InsertElement(a, i, h, S);
      i := i + 1;
    }
  }

  lemma OneInOrder(a: seq<nat>)
    ensures |a| >= 1 ==> InOrder(a, 1)
  {
  }

  /** introspectiveInsertionSort of a whole array. */
  method IntrospectiveInsertionSort(a: array<nat>, ghost S: set<nat>)
    requires Lists(a[..], S)
    modifies a
    ensures Lists(a[..], S) && Increasing(a[..])
  {
    OneInOrder(a[..]);
    hide InOrder, Lists;
    var cost, costLimit := 0, 8 * a.Length;
    var i: nat := 1;
    while i < a.Length
      invariant 1 <= i && Lists(a[..], S) && (a.Length >= 1 ==> i <= a.Length && InOrder(a[..], i))
    {
      var j := InsertElement(a, i, 1, S);
      cost := cost + (i - j); // distance moved is a measure of work
      if cost > costLimit {
        KnuthShellSort3(a, S);
        SortedIncreasing(a[..], S);
        return;
      }
      i := i + 1;
    }
    SortedIncreasing(a[..], S);
  }

  lemma SortedIncreasing(a: seq<nat>, S: set<nat>)
    requires Lists(a, S) && (|a| >= 1 ==> InOrder(a, |a|))
    ensures Increasing(a)
  {
  }

  // ---- merging ----

  lemma {:induction false} MergeLists(a: seq<nat>, b: seq<nat>)
    requires Increasing(a) && Increasing(b) && forall i, j :: 0 <= i < |a| && 0 <= j < |b| ==> a[i] != b[j]
    ensures Increasing(Merge(a, b)) && forall x :: x in Merge(a, b) <==> x in a || x in b
    decreases |a| + |b|
  {
    var c := Merge(a, b);
    if a != [] && b != [] {
      if a[0] < b[0] {
        MergeLists(a[1..], b);
        MergeCons(a[0], a[1..], b, Merge(a[1..], b));
        assert a == [a[0]] + a[1..];
      } else {
        MergeLists(a, b[1..]);
        MergeCons(b[0], a, b[1..], Merge(a, b[1..]));
        assert b == [b[0]] + b[1..];
      }
    }
  }

  lemma MergeCons(x: int, a: seq<int>, b: seq<int>, c: seq<int>)
    requires Increasing(c) && (forall y :: y in c <==> y in a || y in b)
    requires (forall i :: 0 <= i < |a| ==> x < a[i]) && (forall i :: 0 <= i < |b| ==> x < b[i])
    ensures Increasing([x] + c)
  {
    forall i | 0 <= i < |c|
      ensures x < c[i]
    {
      assert c[i] in c;
    }
  }

  /** u32Merge: the output may be the front of the second input's array, when there is room there for the first input. */
  method U32Merge(arrA: array<nat>, startA: nat, lengthA: nat, arrB: array<nat>, startB: nat, lengthB: nat, arrC: array<nat>, startC: nat,
                  ghost A: seq<nat>, ghost B: seq<nat>)
    requires |A| == lengthA && |B| == lengthB && Block(arrA[..], startA, A) && Block(arrB[..], startB, B)
    requires startC + lengthA + lengthB <= arrC.Length && arrC != arrA
    requires arrC == arrB ==> startC + lengthA <= startB || startB + lengthB <= startC
    modifies arrC
    ensures Block(arrC[..], startC, Merge(A, B))
  {
    hide MergeState, Merge, Block;
    ghost var all := Merge(A, B);
    ghost var a0, b0 := arrA[..], arrB[..];
    var limA, limB := startA + lengthA, startB + lengthB;
    var a, b := startA, startB;
    MergeStart(a0, startA, A, b0, startB, B, arrC[..], startC);
    for c := startC to startC + lengthA + lengthB
      invariant MergeState(arrA[..], a0, startA, a, limA, arrB[..], b0, startB, b, limB, arrC[..], startC, c, all)
    {
      a, b := MergeOne(arrA, startA, a, limA, arrB, startB, b, limB, arrC, c, a0, b0, startC, all);
    }
    MergeEnd(arrA[..], a0, startA, a, limA, arrB[..], b0, startB, b, limB, arrC[..], startC, all);
    assert a == limA && b == limB; // both inputs have been used up
  }

  /** The merge loop at position c: the first input is as it was, the second is from b on. */
  ghost predicate MergeState(arrA: seq<nat>, a0: seq<nat>, startA: nat, a: nat, limA: nat, arrB: seq<nat>, b0: seq<nat>, startB: nat, b: nat, limB: nat,
                             arrC: seq<nat>, startC: nat, c: nat, all: seq<int>)
  {
    startA <= a && startB <= b && c - startC == (a - startA) + (b - startB) && |all| == (limA - startA) + (limB - startB) &&
    Merging(a0, a, limA, b0, b, limB, arrC, startC, c, all) && arrA == a0 && Unread(arrB, b0, b, limB)
  }

  lemma MergeStart(arrA: seq<nat>, startA: nat, A: seq<nat>, arrB: seq<nat>, startB: nat, B: seq<nat>, arrC: seq<nat>, startC: nat)
    requires Block(arrA, startA, A) && Block(arrB, startB, B) && startC + |A| + |B| <= |arrC|
    ensures |Merge(A, B)| == |A| + |B|
    ensures MergeState(arrA, arrA, startA, startA, startA + |A|, arrB, arrB, startB, startB, startB + |B|, arrC, startC, startC, Merge(A, B))
  {
    hide Merge, Merging;
    MergingStart(arrA, startA, A, arrB, startB, B, arrC, startC);
  }

  lemma MergeEnd(arrA: seq<nat>, a0: seq<nat>, startA: nat, a: nat, limA: nat, arrB: seq<nat>, b0: seq<nat>, startB: nat, b: nat, limB: nat,
                 arrC: seq<nat>, startC: nat, all: seq<int>)
    requires MergeState(arrA, a0, startA, a, limA, arrB, b0, startB, b, limB, arrC, startC, startC + |all|, all)
    ensures Block(arrC, startC, all) && a == limA && b == limB
  {
    hide Merge, Merging, Block;
    MergingBounds(a0, a, limA, b0, b, limB, arrC, startC, startC + |all|, all);
    MergingEnd(a0, a, limA, b0, b, limB, arrC, startC, all);
  }

  /** One iteration of the merge. */
  method MergeOne(arrA: array<nat>, ghost startA: nat, a: nat, limA: nat, arrB: array<nat>, ghost startB: nat, b: nat, limB: nat, arrC: array<nat>, c: nat,
                  ghost a0: seq<nat>, ghost b0: seq<nat>, ghost startC: nat, ghost all: seq<int>) returns (a': nat, b': nat)
    requires MergeState(arrA[..], a0, startA, a, limA, arrB[..], b0, startB, b, limB, arrC[..], startC, c, all) && c < startC + |all|
    requires arrC != arrA && (arrC == arrB ==> startC + (limA - startA) <= startB || limB <= startC)
    modifies arrC
    ensures MergeState(arrA[..], a0, startA, a', limA, arrB[..], b0, startB, b', limB, arrC[..], startC, c + 1, all)
  {
    hide Merge, Merging;
    MergingBounds(a0, a, limA, b0, b, limB, arrC[..], startC, c, all);
    MergingStep(a0, a, limA, b0, b, limB, arrC[..], startC, c, all);
    ghost var c0 := arrC[..];
    if b >= limB {
      arrC[c] := arrA[a];
      a', b' := a + 1, b;
    } else if a >= limA {
      arrC[c] := arrB[b];
      a', b' := a, b + 1;
    } else if arrA[a] < arrB[b] {
      arrC[c] := arrA[a];
      a', b' := a + 1, b;
    } else {
      arrC[c] := arrB[b];
      a', b' := a, b + 1;
    }
    MergingTook(a0, a, limA, b0, b, limB, c0, arrC[..], startC, c, all);
  }

  // ---- a table from an array of pairs ----

  /** makeU32TableFromPairsArray */
  method MakeTableFromPairs(pairs: array<nat>, numPairs: nat, lgK: nat) returns (table: U32Table)
    requires numPairs <= pairs.Length && NoRepeat(pairs[..numPairs]) && lgK <= 26
    requires (forall i :: 0 <= i < numPairs ==> Storable(pairs[i], 6 + lgK)) && 4 * numPairs <= 3 * Pow2(6 + lgK)
    ensures fresh(table) && fresh(table.slots) && table.Valid() && table.validBits == 6 + lgK
    ensures table.Items() == set i | 0 <= i < numPairs :: pairs[i]
  {
    hide Storable, Pow2;
    var lgNumSlots := TableSize(numPairs, 6 + lgK);
    table := new U32Table(lgNumSlots, 6 + lgK);
    hide TableOk, Contents;
    ghost var s := pairs[..numPairs];
    FirstNone(s);
    for i := 0 to numPairs
      invariant pairs[..numPairs] == s && fresh(table) && fresh(table.slots) && table.lgSize == lgNumSlots && table.numItems == 0
      invariant table.Shape() && Contents(table.slots[..]) == First(s, i)
    {
      InsertPair(table, pairs[i], s, i);
    }
    FirstSize(s, numPairs);
    table.numItems := numPairs;
    assert First(s, numPairs) == set i | 0 <= i < numPairs :: pairs[i];
  }

  ghost function First(s: seq<nat>, n: nat): set<nat>
    requires n <= |s|
  {
    set i | 0 <= i < n :: s[i]
  }

  lemma FirstNone(s: seq<nat>)
    ensures First(s, 0) == {}
  {
  }

  lemma FirstNext(s: seq<nat>, i: nat)
    requires i < |s| && NoRepeat(s)
    ensures First(s, i + 1) == First(s, i) + {s[i]} && s[i] !in First(s, i)
  {
  }

  lemma {:induction false} FirstSize(s: seq<nat>, n: nat)
    requires n <= |s| && NoRepeat(s)
    ensures |First(s, n)| == n
  {
    if n == 0 {
      FirstNone(s);
    } else {
      FirstSize(s, n - 1);
      FirstNext(s, n - 1);
    }
  }

  method TableSize(numPairs: nat, validBits: nat) returns (lg: nat)
    requires 4 * numPairs <= 3 * Pow2(validBits) && validBits >= 2
    ensures 2 <= lg <= validBits && 4 * numPairs <= 3 * Pow2(lg)
  {
    hide Pow2;
    lg := 2;
    while 4 * numPairs > 3 * Pow2(lg)
      invariant 2 <= lg <= validBits
      decreases validBits - lg
    {
      lg := lg + 1;
    }
  }

  method InsertPair(table: U32Table, item: nat, ghost s: seq<nat>, ghost i: nat)
    requires table.Shape() && i < |s| && NoRepeat(s) && item == s[i] && Storable(item, table.validBits)
    requires Contents(table.slots[..]) == First(s, i) && 4 * |s| <= 3 * Pow2(table.lgSize)
    modifies table.slots
    ensures table.Shape() && Contents(table.slots[..]) == First(s, i + 1)
  {
    ghost var before := table.slots[..];
    RoomToInsert(before, table.validBits, table.lgSize, s, i);
    hide TableOk, Contents, Pow2, Storable;
    ghost var t := table.MustInsert(item);
    table.InsertedOk(before, item, t);
  }

  lemma RoomToInsert(slots: seq<nat>, validBits: nat, lgSize: nat, s: seq<nat>, i: nat)
    requires TableOk(slots, validBits, lgSize) && i < |s| && NoRepeat(s) && Storable(s[i], validBits)
    requires Contents(slots) == First(s, i) && 4 * |s| <= 3 * Pow2(lgSize)
    ensures EMPTY in slots && s[i] !in slots && First(s, i + 1) == First(s, i) + {s[i]}
    ensures lgSize <= validBits && |slots| == Pow2(lgSize)
  {
    FirstNext(s, i);
    FirstSize(s, i);
    var e := SomeEmptySlot(slots);
  }
}
