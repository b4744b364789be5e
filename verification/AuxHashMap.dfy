/** The exception map of an HLL_4 array: hll/src/AuxHashMap.cpp. */
module AuxHashMaps {
  import opened Words
  import opened Strides
  import opened LinearProbing

  const TWO_TO_THE_26: nat := 0x400_0000

  /** HllUtil::pair */
  function PairOf(slotNo: nat, value: nat): (pair: nat)
    requires slotNo < TWO_TO_THE_26
    ensures Low26(pair) == slotNo && ValueOf(pair) == value
  {
    value * TWO_TO_THE_26 + slotNo
  }

  /** HllUtil::getLow26 */
  function Low26(pair: nat): nat { pair % TWO_TO_THE_26 }

  /** HllUtil::getValue */
  function ValueOf(pair: nat): nat { pair / TWO_TO_THE_26 }

  lemma PairParts(pair: nat)
    ensures pair == Scale(ValueOf(pair), 26) + Low26(pair) && Low26(pair) < Pow2(26)
  {
    hide Scale, Pow2;
    Pow26();
    ScaleIsProduct(ValueOf(pair), 26);
  }

  /** Masking a whole entry with K - 1 extracts its slot number. */
  lemma SlotOfEntry(pair: nat, lgK: nat)
    requires lgK <= 26 && Low26(pair) < Pow2(lgK)
    ensures Low(pair, lgK) == Low26(pair)
  {
    hide Low, Scale, Pow2, Low26, ValueOf;
    PairParts(pair);
    LowOfSum(ValueOf(pair), Low26(pair), 26, lgK);
    LowKeeps(Low26(pair), lgK);
  }

  lemma Pow26()
    ensures Pow2(26) == TWO_TO_THE_26
  {
    assert Pow2(13) == 0x2000;
    Pow2Add(13, 13);
  }

  // ---- the probe sequence ----

  /** The stride of the probes for a slot number is odd. */
  function StrideOf(slotNo: nat, lg: nat): (stride: nat)
    ensures stride % 2 == 1
  {
    var s := Shr(slotNo, lg);
    if s % 2 == 0 then s + 1 else s
  }

  function Home(slotNo: nat, lg: nat): (h: nat)
    ensures h < Pow2(lg)
  {
    LowBound(slotNo, lg);
    Low(slotNo, lg)
  }

  /** The i-th probe for a slot number. */
  function Probe(slotNo: nat, lg: nat, i: nat): (p: nat)
    ensures p < Pow2(lg)
  {
    Spot(Home(slotNo, lg), StrideOf(slotNo, lg), Pow2(lg), i)
  }

  /** The first i probes for a slot number meet other entries only. */
  ghost predicate PassedBy(arr: seq<nat>, lg: nat, slotNo: nat, i: nat)
    requires |arr| == Pow2(lg)
  {
    forall j: nat :: j < i ==> arr[Probe(slotNo, lg, j)] != 0 && Low26(arr[Probe(slotNo, lg, j)]) != slotNo
  }

  /** An entry in cell p can be found: every probe before cell p meets an entry. */
  ghost predicate Reachable(arr: seq<nat>, lg: nat, slotNo: nat, p: nat)
    requires |arr| == Pow2(lg)
  {
    exists i: nat :: i < |arr| && Probe(slotNo, lg, i) == p && forall j: nat :: j < i ==> arr[Probe(slotNo, lg, j)] != 0
  }

  ghost predicate Entry(pair: nat, lgK: nat)
  {
    Low26(pair) < Pow2(lgK) && ValueOf(pair) > 0
  }

  /** The cells hold the entries of m, each where probing finds it. */
  ghost predicate Table(arr: seq<nat>, lg: nat, lgK: nat, m: map<nat, nat>)
  {
    |arr| == Pow2(lg) &&
    (forall p :: 0 <= p < |arr| && arr[p] != 0 ==>
      Entry(arr[p], lgK) && Reachable(arr, lg, Low26(arr[p]), p) && Low26(arr[p]) in m && m[Low26(arr[p])] == ValueOf(arr[p])) &&
    (forall p, q :: 0 <= p < q < |arr| && arr[p] != 0 && arr[q] != 0 ==> Low26(arr[p]) != Low26(arr[q])) &&
    (forall s :: s in m ==> exists p :: 0 <= p < |arr| && arr[p] != 0 && Low26(arr[p]) == s)
  }

  /** A probe sequence that passes by other entries and ends at an empty cell shows that the slot number is not there. */
  lemma ProbeAbsent(arr: seq<nat>, lg: nat, lgK: nat, m: map<nat, nat>, slotNo: nat, i: nat)
    requires Table(arr, lg, lgK, m) && PassedBy(arr, lg, slotNo, i) && arr[Probe(slotNo, lg, i)] == 0
    ensures slotNo !in m
  {
    hide Probe, Low26, Entry;
  }

  lemma EntryFound(arr: seq<nat>, lg: nat, lgK: nat, m: map<nat, nat>, p: nat)
    requires Table(arr, lg, lgK, m) && p < |arr| && arr[p] != 0
    ensures Low26(arr[p]) in m && m[Low26(arr[p])] == ValueOf(arr[p]) && Entry(arr[p], lgK)
  {
    hide Low26, ValueOf, Entry, Reachable;
  }

  /** Setting a cell to an entry keeps every other entry reachable. */
  lemma StillReachable(arr: seq<nat>, lg: nat, p: nat, pair: nat, slotNo: nat, q: nat)
    requires |arr| == Pow2(lg) && p < |arr| && pair != 0 && Reachable(arr, lg, slotNo, q)
    ensures Reachable(arr[p := pair], lg, slotNo, q)
  {
    hide Probe;
    var i: nat :| i < |arr| && Probe(slotNo, lg, i) == q && forall j: nat :: j < i ==> arr[Probe(slotNo, lg, j)] != 0;
    var arr2 := arr[p := pair];
    assert forall j: nat :: j < i ==> arr2[Probe(slotNo, lg, j)] != 0;
  }

  lemma PutEntry(arr: seq<nat>, lg: nat, lgK: nat, m: map<nat, nat>, slotNo: nat, i: nat, pair: nat)
    requires Table(arr, lg, lgK, m) && PassedBy(arr, lg, slotNo, i) && i < |arr| && arr[Probe(slotNo, lg, i)] == 0
    requires Entry(pair, lgK) && Low26(pair) == slotNo && pair != 0
    ensures slotNo !in m && Table(arr[Probe(slotNo, lg, i) := pair], lg, lgK, m[slotNo := ValueOf(pair)])
  {
    ProbeAbsent(arr, lg, lgK, m, slotNo, i);
    hide Probe, Low26, ValueOf, Entry;
    var p := Probe(slotNo, lg, i);
    var arr2, m2 := arr[p := pair], m[slotNo := ValueOf(pair)];
    forall q | 0 <= q < |arr2| && arr2[q] != 0
      ensures Entry(arr2[q], lgK) && Reachable(arr2, lg, Low26(arr2[q]), q) && Low26(arr2[q]) in m2 && m2[Low26(arr2[q])] == ValueOf(arr2[q])
    {
      if q == p {
        assert forall j: nat :: j < i ==> arr2[Probe(slotNo, lg, j)] != 0;
      } else {
        EntryFound(arr, lg, lgK, m, q);
        StillReachable(arr, lg, p, pair, Low26(arr[q]), q);
      }
    }
    PutDistinct(arr, lg, lgK, m, p, pair);
  }

  lemma PutDistinct(arr: seq<nat>, lg: nat, lgK: nat, m: map<nat, nat>, p: nat, pair: nat)
    requires Table(arr, lg, lgK, m) && p < |arr| && arr[p] == 0 && pair != 0 && Low26(pair) !in m
    ensures var arr2, m2 := arr[p := pair], m[Low26(pair) := ValueOf(pair)];
            (forall a, b :: 0 <= a < b < |arr2| && arr2[a] != 0 && arr2[b] != 0 ==> Low26(arr2[a]) != Low26(arr2[b])) &&
            (forall s :: s in m2 ==> exists q :: 0 <= q < |arr2| && arr2[q] != 0 && Low26(arr2[q]) == s)
  {
    hide Low26, ValueOf, Entry, Reachable;
    var arr2, m2 := arr[p := pair], m[Low26(pair) := ValueOf(pair)];
    forall q | 0 <= q < |arr| && arr[q] != 0
      ensures Low26(arr[q]) != Low26(pair)
    {
      EntryFound(arr, lg, lgK, m, q);
    }
    forall s | s in m2
      ensures exists q :: 0 <= q < |arr2| && arr2[q] != 0 && Low26(arr2[q]) == s
    {
      if s == Low26(pair) {
        assert Low26(arr2[p]) == s;
      } else {
        var q :| 0 <= q < |arr| && arr[q] != 0 && Low26(arr[q]) == s;
        assert Low26(arr2[q]) == s;
      }
    }
  }

  lemma ReplaceEntry(arr: seq<nat>, lg: nat, lgK: nat, m: map<nat, nat>, p: nat, pair: nat)
    requires Table(arr, lg, lgK, m) && p < |arr| && arr[p] != 0 && Entry(pair, lgK) && Low26(pair) == Low26(arr[p]) && pair != 0
    ensures Table(arr[p := pair], lg, lgK, m[Low26(pair) := ValueOf(pair)])
  {
    hide Low26, ValueOf, Entry;
    var arr2, m2 := arr[p := pair], m[Low26(pair) := ValueOf(pair)];
    forall q | 0 <= q < |arr2| && arr2[q] != 0
      ensures Entry(arr2[q], lgK) && Reachable(arr2, lg, Low26(arr2[q]), q) && Low26(arr2[q]) in m2 && m2[Low26(arr2[q])] == ValueOf(arr2[q])
    {
      EntryFound(arr, lg, lgK, m, q);
      StillReachable(arr, lg, p, pair, Low26(arr[q]), q);
    }
    ReplaceCovers(arr, lg, lgK, m, p, pair);
  }

  lemma ReplaceCovers(arr: seq<nat>, lg: nat, lgK: nat, m: map<nat, nat>, p: nat, pair: nat)
    requires Table(arr, lg, lgK, m) && p < |arr| && arr[p] != 0 && Low26(pair) == Low26(arr[p]) && pair != 0
    ensures var arr2 := arr[p := pair];
            forall s :: s in m ==> exists q :: 0 <= q < |arr2| && arr2[q] != 0 && Low26(arr2[q]) == s
    ensures Low26(pair) in m
  {
    hide Low26, ValueOf, Entry, Reachable;
    var arr2 := arr[p := pair];
    forall s | s in m
      ensures exists q :: 0 <= q < |arr2| && arr2[q] != 0 && Low26(arr2[q]) == s
    {
      var q :| 0 <= q < |arr| && arr[q] != 0 && Low26(arr[q]) == s;
      assert arr2[q] != 0 && Low26(arr2[q]) == s;
    }
  }

  class AuxHashMap {
    const lgConfigK: nat
    var lgAuxArrInts: nat
    var auxCount: nat
    var auxIntArr: array<nat>
    ghost var contents: map<nat, nat>  // the actual value of every exceptional slot

    ghost predicate Shape()
      reads this, auxIntArr
    {
      lgConfigK <= 26 && lgAuxArrInts >= 2 && auxIntArr.Length == Pow2(lgAuxArrInts) &&
      auxCount == Active(auxIntArr[..]) == |contents| && Table(auxIntArr[..], lgAuxArrInts, lgConfigK, contents)
    }

    ghost predicate Valid()
      reads this, auxIntArr
    {
      Shape() && 4 * auxCount <= 3 * Pow2(lgAuxArrInts)
    }

    constructor (lgAuxArrInts: nat, lgConfigK: nat)
      requires lgConfigK <= 26 && lgAuxArrInts >= 2
      ensures Valid() && contents == map[] && this.lgConfigK == lgConfigK && fresh(auxIntArr)
    {
      this.lgConfigK := lgConfigK;
      this.lgAuxArrInts := lgAuxArrInts;
      auxCount := 0;
      auxIntArr := new nat[Pow2(lgAuxArrInts)](_ => 0);
      contents := map[];
      new;
      EmptyTable(auxIntArr[..], lgAuxArrInts, lgConfigK);
    }

    /** find: the cell of a slot number, or the empty cell for it. The exception for a full table cannot occur. */
    method Find(slotNo: nat) returns (found: bool, index: nat, ghost i: nat)
      requires lgConfigK <= 26 && auxIntArr.Length == Pow2(lgAuxArrInts) && Table(auxIntArr[..], lgAuxArrInts, lgConfigK, contents)
      requires Active(auxIntArr[..]) < Pow2(lgAuxArrInts) && slotNo < Pow2(lgConfigK)
      ensures index < auxIntArr.Length && found == (slotNo in contents)
      ensures if found then auxIntArr[index] != 0 && Low26(auxIntArr[index]) == slotNo
              else auxIntArr[index] == 0 && i < auxIntArr.Length && index == Probe(slotNo, lgAuxArrInts, i) && PassedBy(auxIntArr[..], lgAuxArrInts, slotNo, i)
    {
      hide Spot, Home, Table, Low26, Active, Low, Pow2, Shr;
      ghost var e := SomeEmpty(auxIntArr[..]);
      ghost var ahead := StrideReaches(Home(slotNo, lgAuxArrInts), StrideOf(slotNo, lgAuxArrInts), lgAuxArrInts, e);
      StrideStart(Home(slotNo, lgAuxArrInts), StrideOf(slotNo, lgAuxArrInts), auxIntArr.Length);
      var probe := Home(slotNo, lgAuxArrInts);
      var loopIndex := probe;
      i := 0;
      while true
        invariant i <= ahead && probe == Probe(slotNo, lgAuxArrInts, i) && loopIndex == Probe(slotNo, lgAuxArrInts, 0)
        invariant PassedBy(auxIntArr[..], lgAuxArrInts, slotNo, i)
        decreases ahead - i
      {
        var arrVal := auxIntArr[probe];
        if arrVal == 0 {
          ProbeAbsent(auxIntArr[..], lgAuxArrInts, lgConfigK, contents, slotNo, i);
          return false, probe, i;
        }
        EntryFound(auxIntArr[..], lgAuxArrInts, lgConfigK, contents, probe);
        SlotOfEntry(arrVal, lgConfigK);
        if slotNo == Low(arrVal, lgConfigK) {
          return true, probe, i;
        }
        StrideNext(Home(slotNo, lgAuxArrInts), StrideOf(slotNo, lgAuxArrInts), auxIntArr.Length, i);
        probe := (probe + StrideOf(slotNo, lgAuxArrInts)) % auxIntArr.Length;
        i := i + 1;
        if probe == loopIndex {
          StrideInjective(Home(slotNo, lgAuxArrInts), StrideOf(slotNo, lgAuxArrInts), lgAuxArrInts, i, 0);
          assert false;
        }
      }
    }

    /** mustFindValueFor: false stands for the exception for a slot that is not there. */
    method MustFindValueFor(slotNo: nat) returns (ok: bool, value: nat)
      requires Valid() && slotNo < Pow2(lgConfigK)
      ensures ok == (slotNo in contents) && (ok ==> value == contents[slotNo])
    {
      hide Table, Active, Low26, ValueOf, Pow2;
      NotFull();
      var index;
      ghost var i;
      ok, index, i := Find(slotNo);
      if ok {
        EntryFound(auxIntArr[..], lgAuxArrInts, lgConfigK, contents, index);
        return true, ValueOf(auxIntArr[index]);
      }
      return false, 0;
    }

    lemma NotFull()
      requires Valid()
      ensures Active(auxIntArr[..]) < Pow2(lgAuxArrInts)
    {
      hide Table;
    }

    /** mustReplace: false stands for the exception for a slot that is not there. */
    method MustReplace(slotNo: nat, value: nat) returns (ok: bool)
      requires Valid() && slotNo < Pow2(lgConfigK) && value > 0
      modifies this`contents, auxIntArr
      ensures Valid() && ok == (slotNo in old(contents))
      ensures contents == if ok then old(contents)[slotNo := value] else old(contents)
    {
      hide Table, Active, Low26, ValueOf, Pow2;
      NotFull();
      ghost var arr := auxIntArr[..];
      var index;
      ghost var i;
      ok, index, i := Find(slotNo);
      if ok {
        SlotFits(slotNo, lgConfigK, value);
        ReplaceEntry(arr, lgAuxArrInts, lgConfigK, contents, index, PairOf(slotNo, value));
        ActiveUpdate(arr, index, PairOf(slotNo, value));
        auxIntArr[index] := PairOf(slotNo, value);
        assert auxIntArr[..] == arr[index := PairOf(slotNo, value)];
        contents := contents[slotNo := value];
      }
    }

    /** mustAdd: false stands for the exception for a slot that is already there. */
    method MustAdd(slotNo: nat, value: nat) returns (ok: bool)
      requires Valid() && slotNo < Pow2(lgConfigK) && value > 0
      modifies this, auxIntArr
      ensures Valid() && ok == (slotNo !in old(contents))
      ensures contents == if ok then old(contents)[slotNo := value] else old(contents)
      ensures auxCount == old(auxCount) + if ok then 1 else 0
      ensures lgAuxArrInts == old(lgAuxArrInts) + if ok && 4 * auxCount > 3 * Pow2(old(lgAuxArrInts)) then 1 else 0
      ensures auxIntArr == old(auxIntArr) || fresh(auxIntArr)
    {
      hide Table, Active, Low26, ValueOf, Pow2;
      NotFull();
      SlotFits(slotNo, lgConfigK, value);
      var found, index;
      ghost var i;
      found, index, i := Find(slotNo);
      if found {
        return false;
      }
      AddEntry(slotNo, index, PairOf(slotNo, value), i);
      auxCount := auxCount + 1;
      CheckGrow();
      return true;
    }

    /** Store a new entry in the empty cell found for it. */
    method AddEntry(slotNo: nat, index: nat, pair: nat, ghost i: nat)
      requires lgConfigK <= 26 && lgAuxArrInts >= 2 && auxIntArr.Length == Pow2(lgAuxArrInts)
      requires Table(auxIntArr[..], lgAuxArrInts, lgConfigK, contents) && Entry(pair, lgConfigK) && Low26(pair) == slotNo && pair != 0
      requires i < auxIntArr.Length && index == Probe(slotNo, lgAuxArrInts, i) && PassedBy(auxIntArr[..], lgAuxArrInts, slotNo, i) && auxIntArr[index] == 0
      modifies this`contents, auxIntArr
      ensures Table(auxIntArr[..], lgAuxArrInts, lgConfigK, contents) && contents == old(contents)[slotNo := ValueOf(pair)]
      ensures slotNo !in old(contents) && Active(auxIntArr[..]) == old(Active(auxIntArr[..])) + 1
    {
      hide Table, Active, Low26, ValueOf, Pow2, PassedBy, Probe;
      ghost var arr := auxIntArr[..];
      PutEntry(arr, lgAuxArrInts, lgConfigK, contents, slotNo, i, pair);
      ActiveUpdate(arr, index, pair);
      auxIntArr[index] := pair;
      assert auxIntArr[..] == arr[index := pair];
      contents := contents[slotNo := ValueOf(pair)];
    }

    /** checkGrow */
    method CheckGrow()
      requires Shape() && auxCount <= Pow2(lgAuxArrInts)
      modifies this`lgAuxArrInts, this`auxIntArr, this`contents
      ensures Valid() && contents == old(contents)
      ensures lgAuxArrInts == old(lgAuxArrInts) + if 4 * auxCount > 3 * Pow2(old(lgAuxArrInts)) then 1 else 0
      ensures auxIntArr == old(auxIntArr) || fresh(auxIntArr)
    {
      hide Table, Active;
      if 4 * auxCount > 3 * Pow2(lgAuxArrInts) {
        GrowAuxSpace();
      }
    }

    /** growAuxSpace */
    method GrowAuxSpace()
      requires Shape() && auxCount <= Pow2(lgAuxArrInts)
      modifies this`lgAuxArrInts, this`auxIntArr, this`contents
      ensures Shape() && contents == old(contents) && lgAuxArrInts == old(lgAuxArrInts) + 1 && fresh(auxIntArr)
    {
      hide Table, Active, Copied;
      ghost var m := contents;
      var oldArray, oldArrLen := auxIntArr, auxIntArr.Length;
      ghost var arr, lg := oldArray[..], lgAuxArrInts;
      lgAuxArrInts := lgAuxArrInts + 1;
      auxIntArr := new nat[Pow2(lgAuxArrInts)](_ => 0);
      contents := map[];
      EmptyTable(auxIntArr[..], lgAuxArrInts, lgConfigK);
      CopiedNone(arr, lg, lgConfigK, m);
      assert arr[..|arr|] == arr;
      for j := 0 to oldArrLen
        invariant Copied(arr, lg, lgConfigK, m, contents, j) && oldArray[..] == arr
        invariant Table(auxIntArr[..], lgAuxArrInts, lgConfigK, contents) && Active(auxIntArr[..]) == Active(arr[..j])
        invariant auxIntArr.Length == Pow2(lgAuxArrInts) && fresh(auxIntArr) && lgAuxArrInts == lg + 1
      {
        CopyEntry(oldArray[j], arr, lg, m, j);
      }
      CopiedAll(arr, lg, lgConfigK, m, contents);
    }

    /** One iteration of growAuxSpace. */
    method CopyEntry(fetched: nat, ghost arr: seq<nat>, ghost lg: nat, ghost m: map<nat, nat>, ghost j: nat)
      requires lgConfigK <= 26 && lgAuxArrInts >= 2 && lgAuxArrInts == lg + 1 && auxIntArr.Length == Pow2(lgAuxArrInts)
      requires j < |arr| == Pow2(lg) && fetched == arr[j] && Copied(arr, lg, lgConfigK, m, contents, j) && Active(arr) <= Pow2(lg)
      requires Table(auxIntArr[..], lgAuxArrInts, lgConfigK, contents) && Active(auxIntArr[..]) == Active(arr[..j])
      modifies this`contents, auxIntArr
      ensures Copied(arr, lg, lgConfigK, m, contents, j + 1)
      ensures Table(auxIntArr[..], lgAuxArrInts, lgConfigK, contents) && Active(auxIntArr[..]) == Active(arr[..j + 1])
    {
      hide Table, Active, Copied, Low26, ValueOf, PassedBy, Probe, Low, Entry;
      ActiveSnoc(arr, j);
      ActivePrefix(arr, j + 1);
      CopiedNext(arr, lg, lgConfigK, m, contents, j);
      if fetched != 0 {
        SlotOfFetched(fetched, lgConfigK);
        var found, index;
        ghost var i;
        found, index, i := Find(Low(fetched, lgConfigK));
        AddEntry(Low26(fetched), index, fetched, i);
      }
    }
  }

  lemma SlotOfFetched(pair: nat, lgK: nat)
    requires lgK <= 26 && Entry(pair, lgK)
    ensures Low(pair, lgK) == Low26(pair) < Pow2(lgK)
  {
    SlotOfEntry(pair, lgK);
  }

  lemma SlotFits(slotNo: nat, lgK: nat, value: nat)
    requires slotNo < Pow2(lgK) && lgK <= 26 && value > 0
    ensures slotNo < TWO_TO_THE_26 && Entry(PairOf(slotNo, value), lgK) && PairOf(slotNo, value) != 0
    ensures Low26(PairOf(slotNo, value)) == slotNo && ValueOf(PairOf(slotNo, value)) == value
  {
    Pow2Monotone(lgK, 26);
    Pow26();
  }

  /** part holds the entries of the first j cells of a table. */
  ghost predicate Copied(arr: seq<nat>, lg: nat, lgK: nat, m: map<nat, nat>, part: map<nat, nat>, j: nat)
  {
    Table(arr, lg, lgK, m) && j <= |arr| &&
    (forall s :: s in part ==> s in m && part[s] == m[s] && exists c :: 0 <= c < j && arr[c] != 0 && Low26(arr[c]) == s) &&
    (forall c :: 0 <= c < j && arr[c] != 0 ==> Low26(arr[c]) in part)
  }

  lemma CopiedNone(arr: seq<nat>, lg: nat, lgK: nat, m: map<nat, nat>)
    requires Table(arr, lg, lgK, m)
    ensures Copied(arr, lg, lgK, m, map[], 0) && Active(arr[..0]) == 0
  {
    ActiveNone(arr[..0]);
  }

  lemma CopiedNext(arr: seq<nat>, lg: nat, lgK: nat, m: map<nat, nat>, part: map<nat, nat>, j: nat)
    requires Copied(arr, lg, lgK, m, part, j) && j < |arr|
    ensures arr[j] != 0 ==> Entry(arr[j], lgK) && Low26(arr[j]) !in part
    ensures Copied(arr, lg, lgK, m, if arr[j] != 0 then part[Low26(arr[j]) := ValueOf(arr[j])] else part, j + 1)
  {
    hide Low26, ValueOf, Reachable, Entry;
  }

  lemma CopiedAll(arr: seq<nat>, lg: nat, lgK: nat, m: map<nat, nat>, part: map<nat, nat>)
    requires Copied(arr, lg, lgK, m, part, |arr|)
    ensures part == m
  {
    hide Low26, ValueOf, Reachable, Entry;
  }

  lemma EmptyTable(arr: seq<nat>, lg: nat, lgK: nat)
    requires |arr| == Pow2(lg) && forall j :: 0 <= j < |arr| ==> arr[j] == 0
    ensures Table(arr, lg, lgK, map[]) && Active(arr) == 0
  {
    CountEmpty(seq(|arr|, j requires 0 <= j < |arr| => if arr[j] > 0 then 1 else -1));
  }
}
