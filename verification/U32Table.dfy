/** The open-addressing table of 32-bit row/column pairs: cpc/src/u32Table.cpp. */
module U32Tables {
  import opened Sets
  import opened Words
  import opened LinearProbing

  /** ALL32BITS, the marker of an empty slot. */
  const EMPTY: nat := 0xFFFF_FFFF

  ghost predicate Storable(x: nat, validBits: nat)
  {
    x < Pow2(validBits) && x != EMPTY
  }

  ghost function Contents(s: seq<nat>): set<nat>
  {
    set x | x in s && x != EMPTY
  }

  ghost predicate Distinct(s: seq<nat>)
  {
    forall i, j :: 0 <= i < j < |s| && s[i] != EMPTY ==> s[i] != s[j]
  }

  /** Home slots of the occupants; the home of an item is its top bits, `item >> shift`. */
  ghost function HomesOf(s: seq<nat>, shift: nat): (g: seq<int>)
    ensures |g| == |s|
    ensures forall j :: 0 <= j < |s| ==> g[j] == if s[j] == EMPTY then -1 else Shr(s[j], shift)
  {
    seq(|s|, j requires 0 <= j < |s| => if s[j] == EMPTY then -1 else Shr(s[j], shift))
  }

  /** Everything but the load bound: distinct storable items, each reachable by probing. */
  ghost predicate TableOk(s: seq<nat>, validBits: nat, lgSize: nat)
  {
    lgSize <= validBits && |s| == Pow2(lgSize) &&
    (forall x :: x in s && x != EMPTY ==> Storable(x, validBits)) &&
    Distinct(s) && Reach(HomesOf(s, validBits - lgSize))
  }

  lemma HomeInRange(x: nat, validBits: nat, lgSize: nat)
    requires lgSize <= validBits && x < Pow2(validBits)
    ensures Shr(x, validBits - lgSize) < Pow2(lgSize)
  {
    ShrBound(x, validBits - lgSize, lgSize);
  }

  lemma HomesUpdate(s: seq<nat>, shift: nat, i: nat, x: nat)
    requires i < |s|
    ensures HomesOf(s[i := x], shift) == HomesOf(s, shift)[i := if x == EMPTY then -1 else Shr(x, shift)]
  {
  }

  lemma ContentsSnoc(s: seq<nat>)
    requires s != [] && Distinct(s)
    ensures Contents(s) == if s[|s| - 1] == EMPTY then Contents(s[..|s| - 1]) else Contents(s[..|s| - 1]) + {s[|s| - 1]}
    ensures s[|s| - 1] !in Contents(s[..|s| - 1])
  {
    assert s == s[..|s| - 1] + [s[|s| - 1]];
  }

  lemma {:induction false} ContentsSize(s: seq<nat>, shift: nat)
    requires Distinct(s)
    ensures |Contents(s)| == Count(HomesOf(s, shift))
  {
    if s == [] {
      assert Contents(s) == {};
    } else {
      var n := |s| - 1;
      ContentsSize(s[..n], shift);
      assert HomesOf(s, shift)[..n] == HomesOf(s[..n], shift);
      ContentsSnoc(s);
    }
  }

  lemma SomeEmptySlot(s: seq<nat>) returns (e: nat)
    requires Distinct(s) && |Contents(s)| < |s|
    ensures e < |s| && s[e] == EMPTY
  {
    ContentsSize(s, 0);
    e := HasEmpty(HomesOf(s, 0));
  }

  lemma ContentsPut(s: seq<nat>, t: nat, x: nat)
    requires t < |s| && s[t] == EMPTY && x != EMPTY
    ensures Contents(s[t := x]) == Contents(s) + {x}
    ensures Distinct(s) && x !in s ==> Distinct(s[t := x])
  {
    assert forall y :: y in Contents(s) ==> exists j :: 0 <= j < |s| && s[j] == y && s[t := x][j] == y;
    assert s[t := x][t] == x;
  }

  lemma ContentsClear(s: seq<nat>, t: nat)
    requires t < |s| && s[t] != EMPTY && Distinct(s)
    ensures Contents(s[t := EMPTY]) == Contents(s) - {s[t]}
    ensures Distinct(s[t := EMPTY])
    ensures s[t] !in s[t := EMPTY]
  {
    assert forall y :: y in Contents(s) && y != s[t] ==> exists j :: 0 <= j < |s| && s[j] == y && s[t := EMPTY][j] == y;
  }

  /** An unsuccessful search that stops at an empty slot shows that the item is nowhere. */
  lemma AbsentWhenEmpty(s: seq<nat>, validBits: nat, lgSize: nat, item: nat, t: nat)
    requires TableOk(s, validBits, lgSize) && Storable(item, validBits) && t < |s|
    requires Shr(item, validBits - lgSize) < |s|
    requires s[t] == EMPTY
    requires forall p :: 0 <= p < |s| && Dist(|s|, Shr(item, validBits - lgSize), p) < Dist(|s|, Shr(item, validBits - lgSize), t) ==> s[p] != item
    ensures item !in s
  {
    var g := HomesOf(s, validBits - lgSize);
    forall j | 0 <= j < |s|
      ensures s[j] != item
    {
      var blocked := OnPath(g, j, t);
    }
  }

  class U32Table {
    const validBits: nat
    var lgSize: nat
    var numItems: nat
    var slots: array<nat>

    ghost predicate Shape()
      reads this, slots
    {
      TableOk(slots[..], validBits, lgSize) && 2 <= lgSize
    }

    /** The table invariant between calls; the load bound keeps every search finite. */
    ghost predicate Valid()
      reads this, slots
    {
      Shape() && numItems == |Contents(slots[..])| && 4 * numItems <= 3 * Pow2(lgSize)
    }

    ghost function Items(): set<nat>
      reads this, slots
    {
      Contents(slots[..])
    }

    /** u32TableMake */
    constructor (lgSize: nat, numValidBits: nat)
      requires 2 <= lgSize <= numValidBits <= 32
      ensures Valid() && Items() == {} && fresh(slots)
      ensures validBits == numValidBits && this.lgSize == lgSize
    {
      validBits := numValidBits;
      this.lgSize := lgSize;
      numItems := 0;
      slots := new nat[Pow2(lgSize)](_ => EMPTY);
      new;
      assert Contents(slots[..]) == {};
    }

    /** u32TableCopy */
    constructor Copy(that: U32Table)
      requires that.Valid()
      ensures Valid() && Items() == that.Items() && validBits == that.validBits && fresh(slots)
    {
      validBits := that.validBits;
      lgSize := that.lgSize;
      numItems := that.numItems;
      slots := new nat[that.slots.Length](i requires 0 <= i < that.slots.Length reads that, that.slots => that.slots[i]);
      new;
      assert slots[..] == that.slots[..];
    }

    /** u32TableClear */
    method Clear()
      requires Valid()
      modifies this`numItems, slots
      ensures Valid() && Items() == {} && lgSize == old(lgSize)
    {
      var i := 0;
      while i < slots.Length
        invariant 0 <= i <= slots.Length
        invariant forall j :: 0 <= j < i ==> slots[j] == EMPTY
      {
        slots[i] := EMPTY;
        i := i + 1;
      }
      numItems := 0;
      assert Contents(slots[..]) == {};
    }

    /** The shared lookup code: probe from the home slot until the item or an empty slot is met. */
    method Lookup(item: nat) returns (probe: nat, fetched: nat)
      requires lgSize <= validBits && slots.Length == Pow2(lgSize)
      requires Storable(item, validBits)
      requires EMPTY in slots[..]
      ensures probe < slots.Length && fetched == slots[probe]
      ensures fetched == item || fetched == EMPTY
      ensures Shr(item, validBits - lgSize) < slots.Length
      ensures forall p :: 0 <= p < slots.Length && Dist(slots.Length, Shr(item, validBits - lgSize), p) < Dist(slots.Length, Shr(item, validBits - lgSize), probe)
                ==> slots[p] != EMPTY && slots[p] != item
    {
      HomeInRange(item, validBits, lgSize);
      var n := slots.Length;
      probe := Shr(item, validBits - lgSize);
      ghost var home := probe;
      ghost var e: nat :| e < n && slots[e] == EMPTY;
      fetched := slots[probe];
      while fetched != item && fetched != EMPTY
        invariant probe < n && fetched == slots[probe]
        invariant Dist(n, home, probe) <= Dist(n, home, e)
        invariant forall p :: 0 <= p < n && Dist(n, home, p) < Dist(n, home, probe) ==> slots[p] != EMPTY && slots[p] != item
        decreases Dist(n, home, e) - Dist(n, home, probe)
      {
        probe := Next(n, probe);
        fetched := slots[probe];
      }
    }

    /** u32TableMustInsert; the caller keeps the count and the size. */
    method MustInsert(item: nat) returns (ghost t: nat)
      requires lgSize <= validBits && slots.Length == Pow2(lgSize)
      requires Storable(item, validBits) && item !in slots[..]
      requires EMPTY in slots[..]
      modifies slots
      ensures t < slots.Length && old(slots[t]) == EMPTY
      ensures slots[..] == old(slots[..])[t := item]
      ensures Shr(item, validBits - lgSize) < slots.Length
      ensures Run(HomesOf(old(slots[..]), validBits - lgSize), Shr(item, validBits - lgSize), t)
    {
      var probe, fetched := Lookup(item);
      t := probe;
      slots[probe] := item;
    }

    lemma InsertedOk(s: seq<nat>, item: nat, t: nat)
      requires TableOk(s, validBits, lgSize) && Storable(item, validBits) && item !in s
      requires t < |s| && s[t] == EMPTY
      requires Shr(item, validBits - lgSize) < |s|
      requires Run(HomesOf(s, validBits - lgSize), Shr(item, validBits - lgSize), t)
      ensures TableOk(s[t := item], validBits, lgSize)
      ensures Contents(s[t := item]) == Contents(s) + {item}
    {
      ContentsPut(s, t, item);
      HomesUpdate(s, validBits - lgSize, t, item);
      InsertKeepsReach(HomesOf(s, validBits - lgSize), Shr(item, validBits - lgSize), t);
    }

    lemma RebuildRoom(s: seq<nat>, i: nat, now: seq<nat>)
      requires i < |s| && Distinct(s) && Distinct(now)
      requires Contents(now) == Contents(s[..i])
      ensures Contents(s[..i + 1]) == if s[i] == EMPTY then Contents(now) else Contents(now) + {s[i]}
      ensures s[i] !in Contents(now)
      ensures |Contents(s)| < |now| ==> EMPTY in now
    {
      var t := s[..i + 1];
      assert t[..i] == s[..i];
      ContentsSnoc(t);
      if |Contents(s)| < |now| {
        assert Contents(s[..i]) <= Contents(s);
        SubsetSize(Contents(s[..i]), Contents(s));
        var e := SomeEmptySlot(now);
      }
    }

    /** privateU32TableRebuild */
    method Rebuild(newLgSize: nat)
      requires Shape() && numItems == |Items()|
      requires 2 <= newLgSize <= validBits && numItems < Pow2(newLgSize)
      modifies this
      ensures Shape() && fresh(slots) && lgSize == newLgSize
      ensures Items() == old(Items()) && numItems == old(numItems)
    {
      var oldSlots := slots;
      ghost var s := oldSlots[..];
      slots := new nat[Pow2(newLgSize)](_ => EMPTY);
      lgSize := newLgSize;
      assert Contents(slots[..]) == {} == Contents(s[..0]);
      var i := 0;
      while i < oldSlots.Length
        invariant 0 <= i <= oldSlots.Length && oldSlots[..] == s
        invariant fresh(slots) && slots != oldSlots && lgSize == newLgSize && numItems == old(numItems)
        invariant Shape() && Contents(slots[..]) == Contents(s[..i])
      {
        var item := oldSlots[i];
        RebuildRoom(s, i, slots[..]);
        if item != EMPTY {
          ghost var before := slots[..];
          ghost var t := MustInsert(item);
          InsertedOk(before, item, t);
        }
        i := i + 1;
      }
      assert s[..|s|] == s;
    }

    /** The table has grown only as long as it was more than three quarters full. */
    ghost predicate GrownFrom(lg: nat)
      reads this
    {
      lg == lgSize || (lg < lgSize && 4 * numItems > 3 * Pow2(lgSize - 1))
    }

    /** It has shrunk as long as it was less than a quarter full, and no further. */
    ghost predicate ShrunkFrom(lg: nat)
      reads this
    {
      (lgSize == 2 || 4 * numItems >= Pow2(lgSize)) && (lg == lgSize || (lg > lgSize && 4 * numItems < Pow2(lgSize + 1)))
    }

    /** The upsizing loop of u32TableMaybeInsert: false when the table would need more slots than there are keys, so that the shift were negative. */
    method GrowWhileFull() returns (room: bool)
      requires Shape() && numItems == |Items()| && numItems <= Pow2(lgSize)
      modifies this
      ensures room <==> 4 * |old(Items())| <= 3 * Pow2(validBits)
      ensures room ==> Valid() && Items() == old(Items()) && GrownFrom(old(lgSize))
      ensures slots == old(slots) || fresh(slots)
    {
      while 4 * numItems > 3 * Pow2(lgSize)
        invariant Shape() && numItems == |Items()| && Items() == old(Items()) && GrownFrom(old(lgSize))
        invariant slots == old(slots) || fresh(slots)
        invariant numItems <= Pow2(lgSize)
        decreases validBits - lgSize
      {
        if lgSize == validBits {
          return false;
        }
        Rebuild(lgSize + 1);
      }
      room := true;
      Pow2Monotone(lgSize, validBits);
    }

    /** The downsizing loop of u32TableMaybeDelete. */
    method ShrinkWhileSparse()
      requires Valid()
      modifies this
      ensures Valid() && (slots == old(slots) || fresh(slots))
      ensures Items() == old(Items()) && ShrunkFrom(old(lgSize))
    {
      while 4 * numItems < Pow2(lgSize) && lgSize > 2
        invariant Valid() && Items() == old(Items())
        invariant lgSize == old(lgSize) || (old(lgSize) > lgSize && 4 * numItems < Pow2(lgSize + 1))
        invariant slots == old(slots) || fresh(slots)
        decreases lgSize
      {
        Rebuild(lgSize - 1);
      }
    }

    /** Write a new item into the empty slot where its search ended, and grow the table if it is too full. */
    method InsertNew(item: nat, probe: nat) returns (room: bool)
      requires Valid() && Storable(item, validBits)
      requires item !in slots[..] && probe < slots.Length && slots[probe] == EMPTY
      requires Shr(item, validBits - lgSize) < slots.Length
      requires Run(HomesOf(slots[..], validBits - lgSize), Shr(item, validBits - lgSize), probe)
      modifies this, slots
      ensures room <==> item in old(Items()) || 4 * (|old(Items())| + 1) <= 3 * Pow2(validBits)
      ensures room ==> Valid() && Items() == old(Items()) + {item} && GrownFrom(old(lgSize))
      ensures slots == old(slots) || fresh(slots)
    {
      ghost var before := slots[..];
      slots[probe] := item;
      assert slots[..] == before[probe := item];
      InsertedOk(before, item, probe);
      numItems := numItems + 1;
      room := GrowWhileFull();
    }

    /** u32TableMaybeInsert: isNovel says whether the item was new, room is false when the table cannot grow as it has to. */
    method MaybeInsert(item: nat) returns (isNovel: bool, room: bool)
      requires Valid() && Storable(item, validBits)
      modifies this, slots
      ensures isNovel == (item !in old(Items()))
      ensures room <==> item in old(Items()) || 4 * (|old(Items())| + 1) <= 3 * Pow2(validBits)
      ensures room ==> Valid() && Items() == old(Items()) + {item}
      ensures if isNovel then room ==> GrownFrom(old(lgSize)) else lgSize == old(lgSize)
      ensures slots == old(slots) || fresh(slots)
    {
      ghost var e := SomeEmptySlot(slots[..]);
      var probe, fetched := Lookup(item);
      if fetched == item {
        assert item in Items();
        return false, true;
      }
      AbsentWhenEmpty(slots[..], validBits, lgSize, item, probe);
      isNovel := true;
      room := InsertNew(item, probe);
    }

    /** Lift the item out of one slot and insert it again. */
    method ReinsertAt(ghost f: nat, probe: nat, ghost e: nat)
      requires lgSize <= validBits && Reinserting(slots[..], validBits, lgSize, f, probe, e)
      requires probe < slots.Length && slots[probe] != EMPTY
      modifies slots
      ensures Dist(slots.Length, f, probe) < Dist(slots.Length, f, e)
      ensures Dist(slots.Length, f, Next(slots.Length, probe)) == Dist(slots.Length, f, probe) + 1
      ensures Reinserting(slots[..], validBits, lgSize, f, Next(slots.Length, probe), e)
      ensures Items() == old(Items())
    {
      hide Pending, Run, Distinct, Contents;
      ghost var s := slots[..];
      var fetched := slots[probe];
      ReinsertStep(s, validBits, lgSize, f, probe, e);
      slots[probe] := EMPTY;
      assert slots[..] == s[probe := EMPTY];
      ghost var t := MustInsert(fetched);
      ReinsertedStep(s, validBits, lgSize, f, probe, e, t);
    }

    /** Re-insert all items between the freed slot f and the next empty slot e. */
    method ReinsertCluster(f: nat, ghost e: nat)
      requires lgSize <= validBits && f < slots.Length
      requires Reinserting(slots[..], validBits, lgSize, f, Next(slots.Length, f), e)
      modifies slots
      ensures TableOk(slots[..], validBits, lgSize)
      ensures Items() == old(Items())
    {
      hide Reinserting, TableOk, Contents, Dist, Next;
      var probe: nat := Next(slots.Length, f);
      ReinsertNext(slots[..], validBits, lgSize, f, probe, e);
      while slots[probe] != EMPTY
        invariant probe < slots.Length && e < slots.Length && Dist(slots.Length, f, probe) <= Dist(slots.Length, f, e)
        invariant Reinserting(slots[..], validBits, lgSize, f, probe, e) && Items() == old(Items())
        decreases Dist(slots.Length, f, e) - Dist(slots.Length, f, probe)
      {
        ReinsertAt(f, probe, e);
        probe := Next(slots.Length, probe);
        ReinsertNext(slots[..], validBits, lgSize, f, probe, e);
      }
      ReinsertEnd(slots[..], validBits, lgSize, f, probe, e);
    }

    /** u32TableMaybeDelete: true exactly when the item was present. */
    method MaybeDelete(item: nat) returns (isNovel: bool)
      requires Valid() && Storable(item, validBits)
      modifies this, slots
      ensures Valid() && (slots == old(slots) || fresh(slots))
      ensures isNovel == (item in old(Items()))
      ensures Items() == old(Items()) - {item}
      ensures if isNovel then ShrunkFrom(old(lgSize)) else lgSize == old(lgSize)
    {
      ghost var before := slots[..];
      ghost var e0 := SomeEmptySlot(before);
      var probe, fetched := Lookup(item);
      if fetched == EMPTY {
        AbsentWhenEmpty(before, validBits, lgSize, item, probe);
        return false;
      }
      ghost var e := DeleteStart(before, validBits, lgSize, probe, e0);
      slots[probe] := EMPTY;
      assert slots[..] == before[probe := EMPTY];
      numItems := numItems - 1;
      ReinsertCluster(probe, e);
      ShrinkWhileSparse();
      return true;
    }

  }

  /** The state of the re-insertion loop: slots probe..e-1, counted from the freed slot f, are still to be moved. */
  ghost predicate Reinserting(s: seq<nat>, validBits: nat, lgSize: nat, f: nat, probe: nat, e: nat)
    requires lgSize <= validBits
  {
    |s| == Pow2(lgSize) && Distinct(s) &&
    (forall x :: x in s && x != EMPTY ==> Storable(x, validBits)) &&
    Pending(HomesOf(s, validBits - lgSize), f, probe, e)
  }

  /** A slot that is still to be moved lies before e, and is occupied. */
  lemma ReinsertNext(s: seq<nat>, validBits: nat, lgSize: nat, f: nat, probe: nat, e: nat)
    requires lgSize <= validBits && Reinserting(s, validBits, lgSize, f, probe, e)
    ensures probe < |s| && f < |s| && e < |s| && Dist(|s|, f, probe) <= Dist(|s|, f, e)
  {
    hide Distinct, Storable;
  }

  /** The loop stops at e: everything is reachable again. */
  lemma ReinsertEnd(s: seq<nat>, validBits: nat, lgSize: nat, f: nat, probe: nat, e: nat)
    requires lgSize <= validBits && Reinserting(s, validBits, lgSize, f, probe, e) && probe < |s| && s[probe] == EMPTY
    ensures TableOk(s, validBits, lgSize)
  {
    hide Distinct, Storable;
    DonePending(HomesOf(s, validBits - lgSize), f, e);
  }

  lemma MemberOfContents(s: seq<nat>, f: nat)
    requires f < |s| && s[f] != EMPTY
    ensures s[f] in Contents(s)
  {
  }

  lemma DeleteStart(s: seq<nat>, validBits: nat, lgSize: nat, f: nat, e0: nat) returns (e: nat)
    requires TableOk(s, validBits, lgSize) && f < |s| && s[f] != EMPTY
    requires e0 < |s| && s[e0] == EMPTY
    ensures Reinserting(s[f := EMPTY], validBits, lgSize, f, Next(|s|, f), e)
    ensures Contents(s[f := EMPTY]) == Contents(s) - {s[f]}
    ensures s[f] in Contents(s)
  {
    hide Pending, Reach, Run, Contents;
    var g := HomesOf(s, validBits - lgSize);
    assert g[e0] < 0;
    e := NextEmpty(g, f);
    StartPending(g, f, e);
    HomesUpdate(s, validBits - lgSize, f, EMPTY);
    ContentsClear(s, f);
    MemberOfContents(s, f);
  }

  lemma ReinsertStep(s: seq<nat>, validBits: nat, lgSize: nat, f: nat, q: nat, e: nat)
    requires lgSize <= validBits && Reinserting(s, validBits, lgSize, f, q, e) && s[q] != EMPTY
    ensures Storable(s[q], validBits) && s[q] !in s[q := EMPTY] && EMPTY in s[q := EMPTY]
    ensures Dist(|s|, f, q) < Dist(|s|, f, e)
    ensures Dist(|s|, f, Next(|s|, q)) == Dist(|s|, f, q) + 1
  {
    ContentsClear(s, q);
    assert s[q := EMPTY][q] == EMPTY;
    assert HomesOf(s, validBits - lgSize)[e] < 0;
  }

  lemma ReinsertedContents(s: seq<nat>, q: nat, t: nat)
    requires Distinct(s) && q < |s| && s[q] != EMPTY && t < |s| && s[q := EMPTY][t] == EMPTY
    ensures Distinct(s[q := EMPTY][t := s[q]])
    ensures Contents(s[q := EMPTY][t := s[q]]) == Contents(s)
  {
    ContentsClear(s, q);
    ContentsPut(s[q := EMPTY], t, s[q]);
  }

  lemma StorableFromContents(s: seq<nat>, s2: seq<nat>, validBits: nat)
    requires (forall x :: x in s ==> x == EMPTY || Storable(x, validBits)) && Contents(s2) == Contents(s)
    ensures forall x :: x in s2 && x != EMPTY ==> Storable(x, validBits)
  {
    forall x | x in s2 && x != EMPTY
      ensures Storable(x, validBits)
    {
      assert x in Contents(s2);
    }
  }

  lemma PendingEnd(g: seq<int>, f: nat, q: nat, e: nat)
    requires Pending(g, f, q, e)
    ensures f < |g| && q < |g| && e < |g| && g[e] < 0
  {
  }

  lemma ReinsertedStep(s: seq<nat>, validBits: nat, lgSize: nat, f: nat, q: nat, e: nat, t: nat)
    requires lgSize <= validBits && Reinserting(s, validBits, lgSize, f, q, e) && s[q] != EMPTY
    requires t < |s| && s[q := EMPTY][t] == EMPTY
    requires Shr(s[q], validBits - lgSize) < |s|
    requires Run(HomesOf(s[q := EMPTY], validBits - lgSize), Shr(s[q], validBits - lgSize), t)
    ensures Reinserting(s[q := EMPTY][t := s[q]], validBits, lgSize, f, Next(|s|, q), e)
    ensures Contents(s[q := EMPTY][t := s[q]]) == Contents(s)
  {
    hide Pending, Contents, Distinct, Run, Shr, Storable, Pow2;
    var shift := validBits - lgSize;
    PendingEnd(HomesOf(s, shift), f, q, e);
    ReinsertedContents(s, q, t);
    StorableFromContents(s, s[q := EMPTY][t := s[q]], validBits);
    HomesUpdate(s, shift, q, EMPTY);
    HomesUpdate(s[q := EMPTY], shift, t, s[q]);
    StepPending(HomesOf(s, shift), f, q, e, t);
  }
}
