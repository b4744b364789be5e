/** The linear-probing map with a one-pass in-place purge: fi/include/reverse_purge_hash_map.hpp. */
module ReversePurge {
  import opened Words
  import opened LinearProbing

  /** The home slot of a hash value in a table of n slots, n a power of two: `hash & (n - 1)`. */
  function Home(hash: nat, n: nat): (h: nat)
    requires n > 0
    ensures h < n
  {
    hash % n
  }

  /** Home slots of the active cells. */
  ghost function HomesOf<T>(keys: seq<T>, states: seq<nat>, hash: T -> nat): (g: seq<int>)
    requires |keys| == |states| > 0
    ensures |g| == |keys| && Homes(g)
    ensures forall j :: 0 <= j < |g| ==> g[j] == if states[j] == 0 then -1 else Home(hash(keys[j]), |keys|)
  {
    seq(|keys|, j requires 0 <= j < |keys| => if states[j] == 0 then -1 else Home(hash(keys[j]), |keys|))
  }

  ghost predicate DistinctKeys<T>(keys: seq<T>, states: seq<nat>)
    requires |keys| == |states|
  {
    forall i, j :: 0 <= i < j < |keys| && states[i] > 0 && states[j] > 0 ==> keys[i] != keys[j]
  }

  /** A cell's state is one more than its distance from home. */
  ghost predicate Drifts(g: seq<int>, states: seq<nat>)
  {
    |g| == |states| && Homes(g) &&
    (forall j :: 0 <= j < |g| ==> (g[j] >= 0 <==> states[j] > 0)) &&
    forall j :: 0 <= j < |g| && g[j] >= 0 ==> states[j] == Dist(|g|, g[j], j) + 1
  }

  /** Probing and drift invariant of the cells. */
  ghost predicate CellsOk<T>(keys: seq<T>, states: seq<nat>, hash: T -> nat)
  {
    |keys| == |states| > 0 && DistinctKeys(keys, states) &&
    Reach(HomesOf(keys, states, hash)) && Drifts(HomesOf(keys, states, hash), states)
  }

  // ---- lookup ----

  /** The probe for a key stops at its cell, or at an empty cell when the key is absent. */
  lemma AbsentAtEmpty<T>(keys: seq<T>, states: seq<nat>, hash: T -> nat, key: T, t: nat)
    requires CellsOk(keys, states, hash) && t < |keys| && states[t] == 0
    requires forall p :: 0 <= p < |keys| && Dist(|keys|, Home(hash(key), |keys|), p) < Dist(|keys|, Home(hash(key), |keys|), t) ==> keys[p] != key
    ensures forall j :: 0 <= j < |keys| && states[j] > 0 ==> keys[j] != key
  {
    var g := HomesOf(keys, states, hash);
    forall j | 0 <= j < |keys| && states[j] > 0
      ensures keys[j] != key
    {
      var blocked := OnPath(g, j, t);
    }
  }

  lemma InsertedCells<T>(keys: seq<T>, states: seq<nat>, hash: T -> nat, key: T, t: nat)
    requires CellsOk(keys, states, hash) && t < |keys| && states[t] == 0
    requires Run(HomesOf(keys, states, hash), Home(hash(key), |keys|), t)
    requires forall j :: 0 <= j < |keys| && states[j] > 0 ==> keys[j] != key
    ensures CellsOk(keys[t := key], states[t := Dist(|keys|, Home(hash(key), |keys|), t) + 1], hash)
  {
    var g := HomesOf(keys, states, hash);
    var h := Home(hash(key), |keys|);
    var keys2, states2 := keys[t := key], states[t := Dist(|keys|, h, t) + 1];
    assert HomesOf(keys2, states2, hash) == g[t := h];
    InsertKeepsReach(g, h, t);
  }

  // ---- deletion by backward shift ----

  /** The cells while a deletion is at work: slot f is a hole, cells from q up to the next empty slot e may still move. */
  ghost predicate Shifting<T>(keys: seq<T>, states: seq<nat>, hash: T -> nat, f: nat, q: nat, e: nat)
  {
    |keys| == |states| > 0 && DistinctKeys(keys, states) &&
    Drifts(HomesOf(keys, states, hash), states) && Hole(HomesOf(keys, states, hash), f, q, e)
  }

  /** No empty cell lies between f and e. */
  ghost predicate NearestEmpty(states: seq<nat>, f: nat, e: nat)
    requires f < |states| && e < |states|
  {
    forall i :: 0 <= i < |states| && states[i] == 0 ==> Dist(|states|, f, e) <= Dist(|states|, f, i)
  }

  lemma StartShifting<T>(keys: seq<T>, states: seq<nat>, hash: T -> nat, f: nat) returns (e: nat)
    requires CellsOk(keys, states, hash) && f < |keys| && states[f] > 0
    requires exists i :: 0 <= i < |keys| && states[i] == 0
    ensures Shifting(keys, states[f := 0], hash, f, Next(|keys|, f), e)
    ensures states[e] == 0 && NearestEmpty(states, f, e)
  {
    var g := HomesOf(keys, states, hash);
    var i :| 0 <= i < |keys| && states[i] == 0;
    assert g[i] < 0;
    e := NextEmpty(g, f);
    StartHole(g, f, e);
    assert HomesOf(keys, states[f := 0], hash) == g[f := -1];
  }

  lemma SkipShifting<T>(keys: seq<T>, states: seq<nat>, hash: T -> nat, f: nat, q: nat, e: nat)
    requires Shifting(keys, states, hash, f, q, e) && states[q] > 0 && states[q] <= Dist(|keys|, f, q)
    ensures q != e && Shifting(keys, states, hash, f, Next(|keys|, q), e)
  {
    SkipHole(HomesOf(keys, states, hash), f, q, e);
  }

  lemma MovedDistinct<T>(keys: seq<T>, states: seq<nat>, f: nat, q: nat, d: nat)
    requires |keys| == |states| && DistinctKeys(keys, states) && f < |keys| && q < |keys|
    requires states[f] == 0 && states[q] > d
    ensures DistinctKeys(keys[f := keys[q]], states[f := states[q] - d][q := 0])
  {
  }

  lemma MovedDrifts(g: seq<int>, states: seq<nat>, f: nat, q: nat)
    requires Drifts(g, states) && f < |g| && q < |g| && f != q && states[f] == 0
    requires states[q] > Dist(|g|, f, q)
    ensures Drifts(g[f := g[q]][q := -1], states[f := states[q] - Dist(|g|, f, q)][q := 0])
  {
    MovedDrift(|g|, g[q], f, q);
  }

  lemma MoveShifting<T>(keys: seq<T>, states: seq<nat>, hash: T -> nat, f: nat, q: nat, e: nat)
    requires Shifting(keys, states, hash, f, q, e) && states[q] > Dist(|keys|, f, q)
    ensures q != e
    ensures Shifting(keys[f := keys[q]], states[f := states[q] - Dist(|keys|, f, q)][q := 0], hash, q, Next(|keys|, q), e)
  {
    var g := HomesOf(keys, states, hash);
    var keys2, states2 := keys[f := keys[q]], states[f := states[q] - Dist(|keys|, f, q)][q := 0];
    assert g[q] >= 0 && g[f] < 0;
    MovedDrift(|keys|, g[q], f, q);
    MovedDistinct(keys, states, f, q, Dist(|keys|, f, q));
    MovedDrifts(g, states, f, q);
    MoveHole(g, f, q, e);
    assert HomesOf(keys2, states2, hash) == g[f := g[q]][q := -1];
  }

  lemma MovedDrift(n: nat, h: nat, f: nat, q: nat)
    requires h < n && f < n && q < n && Dist(n, h, q) + 1 > Dist(n, f, q)
    ensures Dist(n, h, f) == Dist(n, h, q) - Dist(n, f, q)
  {
  }

  lemma DoneShifting<T>(keys: seq<T>, states: seq<nat>, hash: T -> nat, f: nat, e: nat)
    requires Shifting(keys, states, hash, f, e, e)
    ensures CellsOk(keys, states, hash)
  {
    DoneHole(HomesOf(keys, states, hash), f, e);
  }

  // ---- entries of a stretch of cells ----

  datatype Entry<T> = Entry(key: T, value: nat)

  /** All entries of the active cells. */
  ghost function AllEntries<T>(keys: seq<T>, values: seq<nat>, states: seq<nat>): set<Entry<T>>
    requires |keys| == |values| == |states|
  {
    set j | 0 <= j < |keys| && states[j] > 0 :: Entry(keys[j], values[j])
  }

  ghost function EntriesOf<T>(m: map<T, nat>): set<Entry<T>>
  {
    set x | x in m :: Entry(x, m[x])
  }

  lemma InEntries<T>(m: map<T, nat>)
    ensures forall en :: en in EntriesOf(m) <==> en.key in m && m[en.key] == en.value
  {
    forall en: Entry<T> | en.key in m && m[en.key] == en.value
      ensures en in EntriesOf(m)
    {
      assert en == Entry(en.key, m[en.key]);
    }
  }

  /** The cells hold exactly the entries of the abstract map. */
  ghost predicate Holds<T>(keys: seq<T>, values: seq<nat>, states: seq<nat>, m: map<T, nat>)
  {
    |keys| == |values| == |states| && AllEntries(keys, values, states) == EntriesOf(m)
  }

  /** The entries of the active cells less than `len` steps after slot f. */
  ghost function Stretch<T>(keys: seq<T>, values: seq<nat>, states: seq<nat>, f: nat, len: nat): set<Entry<T>>
    requires |keys| == |values| == |states| && f < |keys|
  {
    set j | 0 <= j < |keys| && states[j] > 0 && Dist(|keys|, f, j) < len :: Entry(keys[j], values[j])
  }

  /** Moving one entry to an empty slot of the same stretch keeps the entries of the stretch. */
  lemma MovedStretch<T>(keys: seq<T>, values: seq<nat>, states: seq<nat>, f0: nat, len: nat, f: nat, q: nat, d: nat)
    requires |keys| == |values| == |states| && f0 < |keys| && f < |keys| && q < |keys| && f != q
    requires Dist(|keys|, f0, f) < len && Dist(|keys|, f0, q) < len
    requires states[f] == 0 && states[q] > d
    ensures Stretch(keys[f := keys[q]], values[f := values[q]], states[f := states[q] - d][q := 0], f0, len)
            == Stretch(keys, values, states, f0, len)
  {
    var keys2, values2, states2 := keys[f := keys[q]], values[f := values[q]], states[f := states[q] - d][q := 0];
    forall en | en in Stretch(keys, values, states, f0, len)
      ensures en in Stretch(keys2, values2, states2, f0, len)
    {
      var j :| 0 <= j < |keys| && states[j] > 0 && Dist(|keys|, f0, j) < len && en == Entry(keys[j], values[j]);
      var j2 := if j == q then f else j;
      assert states2[j2] > 0 && en == Entry(keys2[j2], values2[j2]);
    }
    forall en | en in Stretch(keys2, values2, states2, f0, len)
      ensures en in Stretch(keys, values, states, f0, len)
    {
      var j :| 0 <= j < |keys| && states2[j] > 0 && Dist(|keys|, f0, j) < len && en == Entry(keys2[j], values2[j]);
      var j2 := if j == f then q else j;
      assert states[j2] > 0 && en == Entry(keys[j2], values[j2]);
    }
  }

  /** Cells that a deletion at f0 with next empty slot e must leave alone. */
  ghost predicate OutsideKept<T>(keys: seq<T>, values: seq<nat>, states: seq<nat>, keys0: seq<T>, values0: seq<nat>, states0: seq<nat>, f0: nat, e: nat)
  {
    |keys| == |values| == |states| == |keys0| == |values0| == |states0| && f0 < |keys| && e < |keys| &&
    forall j :: 0 <= j < |keys| && Dist(|keys|, f0, e) <= Dist(|keys|, f0, j) ==>
      keys[j] == keys0[j] && values[j] == values0[j] && states[j] == states0[j]
  }

  /** The loop state of hash_delete: the hole has moved from f0 to f, the probe is at q. */
  ghost predicate Deleting<T>(keys: seq<T>, values: seq<nat>, states: seq<nat>, keys0: seq<T>, values0: seq<nat>, states0: seq<nat>,
                              hash: T -> nat, f0: nat, f: nat, q: nat, e: nat)
  {
    OutsideKept(keys, values, states, keys0, values0, states0, f0, e) &&
    Shifting(keys, states, hash, f, q, e) &&
    Dist(|keys|, f0, f) + Dist(|keys|, f, q) == Dist(|keys|, f0, q) <= Dist(|keys|, f0, e) &&
    Stretch(keys, values, states, f0, Dist(|keys|, f0, e)) == Stretch(keys0, values0, states0, f0, Dist(|keys|, f0, e)) &&
    Active(states) == Active(states0)
  }

  lemma MovedActive(states: seq<nat>, f: nat, q: nat, d: nat)
    requires f < |states| && q < |states| && f != q && states[f] == 0 && states[q] > d
    ensures Active(states[f := states[q] - d][q := 0]) == Active(states)
  {
    ActiveUpdate(states, f, states[q] - d);
    ActiveUpdate(states[f := states[q] - d], q, 0);
  }

  lemma MovedOutside<T>(keys: seq<T>, values: seq<nat>, states: seq<nat>, keys0: seq<T>, values0: seq<nat>, states0: seq<nat>,
                        f0: nat, e: nat, f: nat, q: nat, d: nat)
    requires OutsideKept(keys, values, states, keys0, values0, states0, f0, e) && f < |keys| && q < |keys|
    requires Dist(|keys|, f0, f) < Dist(|keys|, f0, e) && Dist(|keys|, f0, q) < Dist(|keys|, f0, e) && states[q] > d
    ensures OutsideKept(keys[f := keys[q]], values[f := values[q]], states[f := states[q] - d][q := 0], keys0, values0, states0, f0, e)
  {
  }

  /** The distances of hole, probe and cluster end, counted from the deleted slot. */
  lemma DeletingDistances(n: nat, f0: nat, f: nat, q: nat, e: nat)
    requires f0 < n && f < n && q < n && e < n && q != e && q != f
    requires Dist(n, f0, f) + Dist(n, f, q) == Dist(n, f0, q) <= Dist(n, f0, e)
    ensures Dist(n, f0, f) < Dist(n, f0, e) && Dist(n, f0, q) < Dist(n, f0, e)
    ensures Dist(n, f0, Next(n, q)) == Dist(n, f0, q) + 1
    ensures Dist(n, f, Next(n, q)) == Dist(n, f, q) + 1
    ensures Dist(n, q, Next(n, q)) == 1
  {
  }

  lemma DeletingMove<T>(keys: seq<T>, values: seq<nat>, states: seq<nat>, keys0: seq<T>, values0: seq<nat>, states0: seq<nat>,
                        hash: T -> nat, f0: nat, f: nat, q: nat, e: nat)
    requires Deleting(keys, values, states, keys0, values0, states0, hash, f0, f, q, e)
    requires states[q] > Dist(|keys|, f, q)
    ensures Deleting(keys[f := keys[q]], values[f := values[q]], states[f := states[q] - Dist(|keys|, f, q)][q := 0],
                     keys0, values0, states0, hash, f0, q, Next(|keys|, q), e)
  {
    hide CellsOk, Active, Stretch, Drifts, DistinctKeys, Reach;
    var d := Dist(|keys|, f, q);
    assert HomesOf(keys, states, hash)[f] < 0;
    MoveShifting(keys, states, hash, f, q, e);
    DeletingDistances(|keys|, f0, f, q, e);
    MovedStretch(keys, values, states, f0, Dist(|keys|, f0, e), f, q, d);
    MovedOutside(keys, values, states, keys0, values0, states0, f0, e, f, q, d);
    MovedActive(states, f, q, d);
  }

  lemma DeletingSkip<T>(keys: seq<T>, values: seq<nat>, states: seq<nat>, keys0: seq<T>, values0: seq<nat>, states0: seq<nat>,
                        hash: T -> nat, f0: nat, f: nat, q: nat, e: nat)
    requires Deleting(keys, values, states, keys0, values0, states0, hash, f0, f, q, e)
    requires 0 < states[q] <= Dist(|keys|, f, q)
    ensures Deleting(keys, values, states, keys0, values0, states0, hash, f0, f, Next(|keys|, q), e)
  {
    SkipShifting(keys, states, hash, f, q, e);
    DeletingDistances(|keys|, f0, f, q, e);
  }

  lemma DeletingStart<T>(keys: seq<T>, values: seq<nat>, states: seq<nat>, hash: T -> nat, f: nat) returns (e: nat)
    requires |keys| == |values| && CellsOk(keys, states, hash) && f < |keys| && states[f] > 0
    requires exists i :: 0 <= i < |keys| && states[i] == 0
    ensures Deleting(keys, values, states[f := 0], keys, values, states[f := 0], hash, f, f, Next(|keys|, f), e)
    ensures OutsideKept(keys, values, states[f := 0], keys, values, states[f := 0], f, e)
    ensures e < |keys| && e != f && states[e] == 0 && NearestEmpty(states, f, e) && Active(states[f := 0]) + 1 == Active(states)
    ensures Dist(|keys|, f, Next(|keys|, f)) == 1
  {
    e := StartShifting(keys, states, hash, f);
    ActiveUpdate(states, f, 0);
    assert states[f := 0][f := 0] == states[f := 0];
  }

  lemma DeletingBounds<T>(keys: seq<T>, values: seq<nat>, states: seq<nat>, keys0: seq<T>, values0: seq<nat>, states0: seq<nat>,
                          hash: T -> nat, f0: nat, f: nat, q: nat, e: nat)
    requires Deleting(keys, values, states, keys0, values0, states0, hash, f0, f, q, e)
    ensures f0 < |keys| && f < |keys| && q < |keys| && e < |keys| && q != f && |keys| == |values| == |states|
    ensures states[q] == 0 <==> q == e
    ensures q != e ==> Dist(|keys|, f0, Next(|keys|, q)) == Dist(|keys|, f0, q) + 1 <= Dist(|keys|, f0, e)
    ensures q != e ==> Dist(|keys|, f, Next(|keys|, q)) == Dist(|keys|, f, q) + 1 && Dist(|keys|, q, Next(|keys|, q)) == 1
    ensures q != e ==> Dist(|keys|, f, q) < Dist(|keys|, f, e)
  {
    var g := HomesOf(keys, states, hash);
    assert g[e] < 0;
    if q != e {
      assert g[q] >= 0;
      DeletingDistances(|keys|, f0, f, q, e);
    }
  }

  lemma DeletingDone<T>(keys: seq<T>, values: seq<nat>, states: seq<nat>, keys0: seq<T>, values0: seq<nat>, states0: seq<nat>,
                        hash: T -> nat, f0: nat, f: nat, e: nat)
    requires Deleting(keys, values, states, keys0, values0, states0, hash, f0, f, e, e)
    ensures CellsOk(keys, states, hash) && OutsideKept(keys, values, states, keys0, values0, states0, f0, e)
    ensures Stretch(keys, values, states, f0, Dist(|keys|, f0, e)) == Stretch(keys0, values0, states0, f0, Dist(|keys|, f0, e))
    ensures Active(states) == Active(states0)
  {
    DoneShifting(keys, states, hash, f, e);
  }

  /** The three arrays are different objects, even when keys are numbers. */
  ghost predicate Separate<T>(keys: array<T>, values: array<nat>, states: array<nat>)
  {
    keys.Length == values.Length == states.Length &&
    (keys as object) != values && (keys as object) != states && values != states
  }

  const DRIFT_LIMIT: nat := 1024

  /** Where the hole is after the probe of cell q. */
  function NextHole(states: seq<nat>, f: nat, q: nat): nat
    requires f < |states| && q < |states|
  {
    if states[q] > Dist(|states|, f, q) then q else f
  }

  /** From a hole at f, with the probe at q, a deletion reaches the empty cell e without being DRIFT_LIMIT cells from its hole. */
  ghost predicate Glides(states: seq<nat>, f: nat, q: nat, e: nat)
    requires f < |states| && q < |states| && e < |states|
    decreases Dist(|states|, q, e)
  {
    q == e ||
    (Dist(|states|, NextHole(states, f, q), Next(|states|, q)) < DRIFT_LIMIT && Glides(states, NextHole(states, f, q), Next(|states|, q), e))
  }

  /** Cells that have been passed do not matter. */
  lemma {:induction false} GlidesFrame(states: seq<nat>, states2: seq<nat>, f: nat, q: nat, e: nat)
    requires |states| == |states2| && f < |states| && q < |states| && e < |states|
    requires forall p :: 0 <= p < |states| && Dist(|states|, q, p) < Dist(|states|, q, e) ==> states[p] == states2[p]
    ensures Glides(states, f, q, e) <==> Glides(states2, f, q, e)
    decreases Dist(|states|, q, e)
  {
    if q != e {
      GlidesFrame(states, states2, NextHole(states, f, q), Next(|states|, q), e);
    }
  }

  /** In a table of up to DRIFT_LIMIT cells every deletion glides. */
  lemma {:induction false} GlidesSmall(states: seq<nat>, f: nat, q: nat, e: nat)
    requires f < |states| <= DRIFT_LIMIT && q < |states| && e < |states|
    ensures Glides(states, f, q, e)
    decreases Dist(|states|, q, e)
  {
    if q != e {
      GlidesSmall(states, NextHole(states, f, q), Next(|states|, q), e);
    }
  }

  /** One iteration of the loop of hash_delete: move the probed entry into the hole if its path crosses the hole. */
  method ShiftOne<T>(keys: array<T>, values: array<nat>, states: array<nat>, f: nat, probe: nat, drift: nat,
                     ghost keys0: seq<T>, ghost values0: seq<nat>, ghost states0: seq<nat>, ghost hash: T -> nat, ghost f0: nat, ghost e: nat)
    returns (f': nat, drift': nat)
    requires Separate(keys, values, states) && f < keys.Length && probe < keys.Length
    requires Deleting(keys[..], values[..], states[..], keys0, values0, states0, hash, f0, f, probe, e)
    requires states[probe] > 0 && drift == Dist(keys.Length, f, probe)
    modifies keys, values, states
    ensures f' < keys.Length
    ensures Deleting(keys[..], values[..], states[..], keys0, values0, states0, hash, f0, f', Next(keys.Length, probe), e)
    ensures drift' == Dist(keys.Length, f', probe) && f' == NextHole(old(states[..]), f, probe)
    ensures forall p :: 0 <= p < states.Length && p != f && p != probe ==> states[p] == old(states[p])
  {
    hide Deleting, Shifting, OutsideKept, Stretch, CellsOk;
    ghost var k, v, s := keys[..], values[..], states[..];
    if states[probe] > drift {
      DeletingMove(k, v, s, keys0, values0, states0, hash, f0, f, probe, e);
      keys[f] := keys[probe];
      values[f] := values[probe];
      states[f] := states[probe] - drift;
      states[probe] := 0;
      assert keys[..] == k[f := k[probe]] && values[..] == v[f := v[probe]];
      assert states[..] == s[f := s[probe] - drift][probe := 0];
      f', drift' := probe, 0;
    } else {
      DeletingSkip(k, v, s, keys0, values0, states0, hash, f0, f, probe, e);
      f', drift' := f, drift;
    }
  }

  /** What hash_delete of cell f leaves behind: its entry is gone, and only cells up to the next empty one have changed. */
  ghost predicate Deleted<T>(keys: seq<T>, values: seq<nat>, states: seq<nat>, keys0: seq<T>, values0: seq<nat>, states0: seq<nat>,
                             hash: T -> nat, f: nat, e: nat)
    requires f < |states0| && e < |states0|
  {
    CellsOk(keys, states, hash) && e != f && states0[e] == 0 && NearestEmpty(states0, f, e) &&
    OutsideKept(keys, values, states, keys0, values0, states0[f := 0], f, e) &&
    Stretch(keys, values, states, f, Dist(|keys|, f, e)) == Stretch(keys0, values0, states0[f := 0], f, Dist(|keys|, f, e)) &&
    Active(states) + 1 == Active(states0)
  }

  lemma GlidesFirst(states: seq<nat>, f: nat, e: nat)
    requires f < |states| && e < |states| && e != f && states[e] == 0
    ensures Glides(states[f := 0], f, Next(|states|, f), e) <==> Glides(states, f, Next(|states|, f), e)
    ensures |states| <= DRIFT_LIMIT ==> Glides(states, f, Next(|states|, f), e)
    ensures NearestEmpty(states, f, e) && states[Next(|states|, f)] == 0 ==> Glides(states, f, Next(|states|, f), e)
  {
    var n := |states|;
    assert n > 1;
    forall p | 0 <= p < n && Dist(n, Next(n, f), p) < Dist(n, Next(n, f), e)
      ensures p != f
    {
    }
    GlidesFrame(states, states[f := 0], f, Next(n, f), e);
    if n <= DRIFT_LIMIT {
      GlidesSmall(states, f, Next(n, f), e);
    }
    hide Glides;
    if NearestEmpty(states, f, e) && states[Next(n, f)] == 0 {
      assert Dist(n, f, e) <= Dist(n, f, Next(n, f)) == 1;
      GlidesEnd(states, f, e);
    }
  }

  lemma GlidesEnd(states: seq<nat>, f: nat, e: nat)
    requires f < |states| && e < |states|
    ensures Glides(states, f, e, e)
  {
  }

  /** One probe of a deletion. */
  lemma GlidesNext(states: seq<nat>, states2: seq<nat>, f: nat, q: nat, e: nat)
    requires |states| == |states2| && f < |states| && q < |states| && e < |states| && q != e
    requires Dist(|states|, f, Next(|states|, q)) == Dist(|states|, f, q) + 1 && Dist(|states|, f, q) < Dist(|states|, f, e)
    requires forall p :: 0 <= p < |states| && p != f && p != q ==> states2[p] == states[p]
    ensures var f' := NextHole(states, f, q);
            Glides(states, f, q, e) <==> Dist(|states|, f', Next(|states|, q)) < DRIFT_LIMIT && Glides(states2, f', Next(|states|, q), e)
  {
    var n := |states|;
    forall p | 0 <= p < n && Dist(n, Next(n, q), p) < Dist(n, Next(n, q), e)
      ensures p != f && p != q
    {
    }
    GlidesFrame(states, states2, NextHole(states, f, q), Next(n, q), e);
  }

  /** The body of the loop of hash_delete, up to the check of the drift. */
  method DeleteProbe<T>(keys: array<T>, values: array<nat>, states: array<nat>, f: nat, probe: nat, drift: nat,
                        ghost keys0: seq<T>, ghost values0: seq<nat>, ghost states0: seq<nat>, ghost hash: T -> nat, ghost f0: nat, ghost e: nat)
    returns (f': nat, probe': nat, drift': nat)
    requires Separate(keys, values, states) && f < keys.Length && probe < keys.Length && f0 < keys.Length && e < keys.Length
    requires Deleting(keys[..], values[..], states[..], keys0, values0, states0, hash, f0, f, probe, e)
    requires states[probe] > 0 && drift == Dist(keys.Length, f, probe)
    modifies keys, values, states
    ensures f' < keys.Length && probe' < keys.Length && (states[probe'] == 0 <==> probe' == e) && drift' == Dist(keys.Length, f', probe')
    ensures Deleting(keys[..], values[..], states[..], keys0, values0, states0, hash, f0, f', probe', e)
    ensures Dist(keys.Length, f0, probe') == Dist(keys.Length, f0, probe) + 1 <= Dist(keys.Length, f0, e)
    ensures Glides(old(states[..]), f, probe, e) <==> drift' < DRIFT_LIMIT && Glides(states[..], f', probe', e)
  {
    hide Deleting, Glides, NextHole;
    DeletingBounds(keys[..], values[..], states[..], keys0, values0, states0, hash, f0, f, probe, e);
    ghost var s := states[..];
    f', drift' := ShiftOne(keys, values, states, f, probe, drift, keys0, values0, states0, hash, f0, e);
    GlidesNext(s, states[..], f, probe, e);
    drift' := drift' + 1;
    probe' := Next(keys.Length, probe);
    DeletingBounds(keys[..], values[..], states[..], keys0, values0, states0, hash, f0, f', probe', e);
  }

  /** hash_delete; false stands for the drift exception. */
  method HashDelete<T>(keys: array<T>, values: array<nat>, states: array<nat>, hash: T -> nat, deleteIndex: nat)
    returns (ok: bool, ghost e: nat)
    requires Separate(keys, values, states)
    requires deleteIndex < keys.Length && states[deleteIndex] > 0 && CellsOk(keys[..], states[..], hash)
    requires exists i :: 0 <= i < keys.Length && states[..][i] == 0
    modifies keys, values, states
    ensures e < keys.Length && old(states[e]) == 0 && NearestEmpty(old(states[..]), deleteIndex, e)
    ensures ok <==> Glides(old(states[..]), deleteIndex, Next(keys.Length, deleteIndex), e)
    ensures keys.Length <= DRIFT_LIMIT || old(states[Next(keys.Length, deleteIndex)]) == 0 ==> ok
    ensures ok ==> Deleted(keys[..], values[..], states[..], old(keys[..]), old(values[..]), old(states[..]), hash, deleteIndex, e)
  {
    hide Deleting, Shifting, OutsideKept, Stretch, CellsOk, Active, NearestEmpty, Glides, NextHole;
    ghost var keys0, values0, states0 := keys[..], values[..], states[..][deleteIndex := 0];
    var n, f: nat := keys.Length, deleteIndex;
    e := DeletingStart(keys0, values0, states[..], hash, f);
    GlidesFirst(states[..], deleteIndex, e);
    states[f] := 0;
    assert states[..] == states0;
    var drift: nat, probe: nat := 1, Next(n, f);
    DeletingBounds(keys[..], values[..], states[..], keys0, values0, states0, hash, deleteIndex, f, probe, e);
    while states[probe] > 0
      invariant probe < n && f < n && (states[probe] == 0 <==> probe == e)
      invariant Deleting(keys[..], values[..], states[..], keys0, values0, states0, hash, deleteIndex, f, probe, e)
      invariant drift == Dist(n, f, probe)
      invariant Glides(states[..], f, probe, e) <==> Glides(states0, deleteIndex, Next(n, deleteIndex), e)
      decreases Dist(n, deleteIndex, e) - Dist(n, deleteIndex, probe)
    {
      f, probe, drift := DeleteProbe(keys, values, states, f, probe, drift, keys0, values0, states0, hash, deleteIndex, e);
      if drift >= DRIFT_LIMIT {
        return false, e;
      }
    }
    DeletingDone(keys[..], values[..], states[..], keys0, values0, states0, hash, deleteIndex, f, e);
    GlidesEnd(states[..], f, e);
    return true, e;
  }

  // ---- the purge pass ----

  ghost function Reduced<T>(entries: set<Entry<T>>, amount: nat): set<Entry<T>>
  {
    set en | en in entries && en.value > amount :: Entry(en.key, en.value - amount)
  }

  /** The entries of the cells at least `from` steps after slot f. */
  ghost function Tail<T>(keys: seq<T>, values: seq<nat>, states: seq<nat>, f: nat, from: nat): set<Entry<T>>
    requires |keys| == |values| == |states| && f < |keys|
  {
    set j | 0 <= j < |keys| && states[j] > 0 && Dist(|keys|, f, j) >= from :: Entry(keys[j], values[j])
  }

  /**
   * The state of the reverse pass, with positions counted from the empty cell f: the cells before position `from`
   * are still as they were, and the entries from there on have been reduced, each exactly once.
   */
  ghost predicate Sweeping<T>(keys: seq<T>, values: seq<nat>, states: seq<nat>, keys0: seq<T>, values0: seq<nat>, states0: seq<nat>,
                              hash: T -> nat, f: nat, from: nat, amount: nat)
  {
    |keys| == |values| == |states| == |keys0| == |values0| == |states0| && f < |keys| && states[f] == 0 &&
    CellsOk(keys, states, hash) &&
    (forall j :: 0 <= j < |keys| && Dist(|keys|, f, j) < from ==>
      keys[j] == keys0[j] && values[j] == values0[j] && states[j] == states0[j]) &&
    Tail(keys, values, states, f, from) == Reduced(Tail(keys0, values0, states0, f, from), amount)
  }

  lemma SweepStart<T>(keys: seq<T>, values: seq<nat>, states: seq<nat>, hash: T -> nat, f: nat, amount: nat)
    requires |keys| == |values| && CellsOk(keys, states, hash) && f < |keys| && states[f] == 0
    ensures Sweeping(keys, values, states, keys, values, states, hash, f, |keys|, amount)
  {
  }

  lemma TailStep<T>(keys: seq<T>, values: seq<nat>, states: seq<nat>, f: nat, p: nat)
    requires |keys| == |values| == |states| && f < |keys| && p < |keys|
    ensures Tail(keys, values, states, f, Dist(|keys|, f, p))
            == Tail(keys, values, states, f, Dist(|keys|, f, p) + 1) + if states[p] > 0 then {Entry(keys[p], values[p])} else {}
  {
  }

  lemma SweepSkip<T>(keys: seq<T>, values: seq<nat>, states: seq<nat>, keys0: seq<T>, values0: seq<nat>, states0: seq<nat>,
                     hash: T -> nat, f: nat, p: nat, amount: nat)
    requires f < |keys| && p < |keys|
    requires Sweeping(keys, values, states, keys0, values0, states0, hash, f, Dist(|keys|, f, p) + 1, amount)
    requires states[p] == 0
    ensures Sweeping(keys, values, states, keys0, values0, states0, hash, f, Dist(|keys|, f, p), amount)
  {
    TailStep(keys, values, states, f, p);
    TailStep(keys0, values0, states0, f, p);
  }

  lemma ReducedInsert<T>(entries: set<Entry<T>>, en: Entry<T>, amount: nat)
    ensures Reduced(entries + {en}, amount) ==
            Reduced(entries, amount) + if en.value > amount then {Entry(en.key, en.value - amount)} else {}
  {
  }

  lemma TailAfterReduce<T>(keys: seq<T>, values: seq<nat>, states: seq<nat>, f: nat, p: nat, v: nat)
    requires |keys| == |values| == |states| && f < |keys| && p < |keys|
    ensures Tail(keys, values[p := v], states, f, Dist(|keys|, f, p) + 1) == Tail(keys, values, states, f, Dist(|keys|, f, p) + 1)
  {
    var values2 := values[p := v];
    assert forall j :: 0 <= j < |keys| && Dist(|keys|, f, j) >= Dist(|keys|, f, p) + 1 ==> values2[j] == values[j];
  }

  lemma SweepReduce<T>(keys: seq<T>, values: seq<nat>, states: seq<nat>, keys0: seq<T>, values0: seq<nat>, states0: seq<nat>,
                       hash: T -> nat, f: nat, p: nat, amount: nat)
    requires f < |keys| && p < |keys|
    requires Sweeping(keys, values, states, keys0, values0, states0, hash, f, Dist(|keys|, f, p) + 1, amount)
    requires states[p] > 0 && values[p] > amount
    ensures Sweeping(keys, values[p := values[p] - amount], states, keys0, values0, states0, hash, f, Dist(|keys|, f, p), amount)
  {
    hide CellsOk;
    var values2 := values[p := values[p] - amount];
    TailStep(keys, values2, states, f, p);
    TailAfterReduce(keys, values, states, f, p, values[p] - amount);
    TailStep(keys0, values0, states0, f, p);
    ReducedInsert(Tail(keys0, values0, states0, f, Dist(|keys|, f, p) + 1), Entry(keys0[p], values0[p]), amount);
  }

  /** Positions after p are either in the changed stretch, up to e, or past it; and f is never inside. */
  lemma DeletedPositions(n: nat, f: nat, p: nat, e: nat, j: nat)
    requires f < n && p < n && e < n && j < n && e != p && p != f
    requires Dist(n, p, e) <= Dist(n, p, f)
    ensures Dist(n, f, j) < Dist(n, f, p) ==> Dist(n, p, e) <= Dist(n, p, j)
    ensures Dist(n, p, j) < Dist(n, p, e) ==> Dist(n, f, j) >= Dist(n, f, p)
    ensures Dist(n, f, j) >= Dist(n, f, p) + 1 <==> j != p && Dist(n, f, j) >= Dist(n, f, p)
  {
  }

  lemma DeletedTail<T>(keys: seq<T>, values: seq<nat>, states: seq<nat>, keys1: seq<T>, values1: seq<nat>, states1: seq<nat>,
                       hash: T -> nat, f: nat, p: nat, e: nat)
    requires f < |keys1| == |values1| == |states1| && p < |keys1| && e < |keys1| && p != f && states1[f] == 0 && states1[p] > 0
    requires Deleted(keys, values, states, keys1, values1, states1, hash, p, e)
    ensures Tail(keys, values, states, f, Dist(|keys|, f, p)) == Tail(keys1, values1, states1, f, Dist(|keys|, f, p) + 1)
  {
    hide CellsOk, Active, Tail, Deleted;
    DeletedTailKept(keys, values, states, keys1, values1, states1, hash, f, p, e);
    DeletedTailOnly(keys, values, states, keys1, values1, states1, hash, f, p, e);
  }

  lemma DeletedDistances(n: nat, f: nat, p: nat, e: nat)
    requires f < n && p < n && e < n && e != p && p != f && Dist(n, p, e) <= Dist(n, p, f)
    ensures forall j :: 0 <= j < n && Dist(n, f, j) < Dist(n, f, p) ==> Dist(n, p, e) <= Dist(n, p, j)
    ensures forall j :: 0 <= j < n && Dist(n, p, j) < Dist(n, p, e) ==> Dist(n, f, j) >= Dist(n, f, p)
    ensures forall j :: 0 <= j < n ==> (Dist(n, f, j) >= Dist(n, f, p) + 1 <==> j != p && Dist(n, f, j) >= Dist(n, f, p))
  {
    forall j: nat | j < n
      ensures Dist(n, f, j) < Dist(n, f, p) ==> Dist(n, p, e) <= Dist(n, p, j)
      ensures Dist(n, p, j) < Dist(n, p, e) ==> Dist(n, f, j) >= Dist(n, f, p)
      ensures Dist(n, f, j) >= Dist(n, f, p) + 1 <==> j != p && Dist(n, f, j) >= Dist(n, f, p)
    {
      DeletedPositions(n, f, p, e, j);
    }
  }

  lemma DeletedTailKept<T>(keys: seq<T>, values: seq<nat>, states: seq<nat>, keys1: seq<T>, values1: seq<nat>, states1: seq<nat>,
                           hash: T -> nat, f: nat, p: nat, e: nat)
    requires f < |keys1| == |values1| == |states1| && p < |keys1| && e < |keys1| && p != f && states1[f] == 0 && states1[p] > 0
    requires Deleted(keys, values, states, keys1, values1, states1, hash, p, e)
    ensures |keys| == |values| == |states| == |keys1|
    ensures Tail(keys, values, states, f, Dist(|keys|, f, p)) <= Tail(keys1, values1, states1, f, Dist(|keys|, f, p) + 1)
  {
    hide CellsOk, Active, Dist;
    var n := |keys|;
    DeletedDistances(n, f, p, e);
    forall en | en in Tail(keys, values, states, f, Dist(n, f, p))
      ensures en in Tail(keys1, values1, states1, f, Dist(n, f, p) + 1)
    {
      var j :| 0 <= j < n && states[j] > 0 && Dist(n, f, j) >= Dist(n, f, p) && en == Entry(keys[j], values[j]);
      if Dist(n, p, j) < Dist(n, p, e) {
        assert en in Stretch(keys1, values1, states1[p := 0], p, Dist(n, p, e));
      } else {
        assert states1[p := 0][j] > 0;
      }
    }
  }

  lemma DeletedTailOnly<T>(keys: seq<T>, values: seq<nat>, states: seq<nat>, keys1: seq<T>, values1: seq<nat>, states1: seq<nat>,
                           hash: T -> nat, f: nat, p: nat, e: nat)
    requires f < |keys1| == |values1| == |states1| && p < |keys1| && e < |keys1| && p != f && states1[f] == 0 && states1[p] > 0
    requires Deleted(keys, values, states, keys1, values1, states1, hash, p, e)
    ensures |keys| == |values| == |states| == |keys1|
    ensures Tail(keys1, values1, states1, f, Dist(|keys|, f, p) + 1) <= Tail(keys, values, states, f, Dist(|keys|, f, p))
  {
    hide CellsOk, Active, Dist;
    var n := |keys|;
    DeletedDistances(n, f, p, e);
    forall en | en in Tail(keys1, values1, states1, f, Dist(n, f, p) + 1)
      ensures en in Tail(keys, values, states, f, Dist(n, f, p))
    {
      var j :| 0 <= j < n && states1[j] > 0 && Dist(n, f, j) >= Dist(n, f, p) + 1 && en == Entry(keys1[j], values1[j]);
      assert states1[p := 0][j] > 0;
      if Dist(n, p, j) < Dist(n, p, e) {
        assert en in Stretch(keys, values, states, p, Dist(n, p, e));
      }
    }
  }

  lemma DeletedBefore<T>(keys: seq<T>, values: seq<nat>, states: seq<nat>, keys1: seq<T>, values1: seq<nat>, states1: seq<nat>,
                         hash: T -> nat, f: nat, p: nat, e: nat)
    requires f < |keys1| == |values1| == |states1| && p < |keys1| && e < |keys1| && p != f && states1[f] == 0
    requires Deleted(keys, values, states, keys1, values1, states1, hash, p, e)
    ensures CellsOk(keys, states, hash) && |keys| == |values| == |states| == |keys1| && states[f] == 0
    ensures forall j :: 0 <= j < |keys| && Dist(|keys|, f, j) < Dist(|keys|, f, p) ==>
              keys[j] == keys1[j] && values[j] == values1[j] && states[j] == states1[j]
  {
    hide CellsOk, Active, Stretch;
    forall j | 0 <= j < |keys| && Dist(|keys|, f, j) < Dist(|keys|, f, p)
      ensures keys[j] == keys1[j] && values[j] == values1[j] && states[j] == states1[j]
    {
      DeletedPositions(|keys|, f, p, e, j);
    }
    DeletedPositions(|keys|, f, p, e, f);
  }

  lemma SweepDelete<T>(keys: seq<T>, values: seq<nat>, states: seq<nat>, keys1: seq<T>, values1: seq<nat>, states1: seq<nat>,
                       keys0: seq<T>, values0: seq<nat>, states0: seq<nat>, hash: T -> nat, f: nat, p: nat, e: nat, amount: nat)
    requires f < |keys1| && p < |keys1| && e < |keys1|
    requires Sweeping(keys1, values1, states1, keys0, values0, states0, hash, f, Dist(|keys1|, f, p) + 1, amount)
    requires states1[p] > 0 && values1[p] <= amount
    requires Deleted(keys, values, states, keys1, values1, states1, hash, p, e)
    ensures Sweeping(keys, values, states, keys0, values0, states0, hash, f, Dist(|keys1|, f, p), amount)
  {
    hide CellsOk, Active, Deleted, Tail, Reduced;
    DeletedTail(keys, values, states, keys1, values1, states1, hash, f, p, e);
    DeletedBefore(keys, values, states, keys1, values1, states1, hash, f, p, e);
    TailStep(keys0, values0, states0, f, p);
    ReducedInsert(Tail(keys0, values0, states0, f, Dist(|keys|, f, p) + 1), Entry(keys0[p], values0[p]), amount);
  }

  // ---- cells and abstract map ----

  /** The amount is at least the weight of every entry. */
  ghost predicate Clears(values: seq<nat>, states: seq<nat>, amount: nat)
    requires |values| == |states|
  {
    forall j :: 0 <= j < |states| && states[j] > 0 ==> values[j] <= amount
  }

  lemma InTail<T>(keys: seq<T>, values: seq<nat>, states: seq<nat>, f: nat, from: nat)
    requires |keys| == |values| == |states| && f < |keys|
    ensures forall j :: 0 <= j < |keys| && states[j] > 0 && Dist(|keys|, f, j) >= from ==> Entry(keys[j], values[j]) in Tail(keys, values, states, f, from)
  {
  }

  /** A pass that removes every entry leaves the cells behind it empty. */
  lemma ClearedBehind<T>(keys: seq<T>, values: seq<nat>, states: seq<nat>, keys0: seq<T>, values0: seq<nat>, states0: seq<nat>,
                         hash: T -> nat, f: nat, p: nat, amount: nat)
    requires f < |keys| && p < |keys|
    requires Sweeping(keys, values, states, keys0, values0, states0, hash, f, Dist(|keys|, f, p) + 1, amount)
    requires Clears(values0, states0, amount)
    ensures states[Next(|keys|, p)] == 0
  {
    InTail(keys, values, states, f, Dist(|keys|, f, p) + 1);
    assert Next(|keys|, p) == f || Dist(|keys|, f, Next(|keys|, p)) == Dist(|keys|, f, p) + 1;
  }

  lemma CellInMap<T>(keys: seq<T>, values: seq<nat>, states: seq<nat>, m: map<T, nat>, j: nat)
    requires Holds(keys, values, states, m) && j < |keys| && states[j] > 0
    ensures keys[j] in m && m[keys[j]] == values[j]
  {
    assert Entry(keys[j], values[j]) in AllEntries(keys, values, states);
  }

  lemma MapInCells<T>(keys: seq<T>, values: seq<nat>, states: seq<nat>, m: map<T, nat>, x: T) returns (j: nat)
    requires Holds(keys, values, states, m) && x in m
    ensures j < |keys| && states[j] > 0 && keys[j] == x && values[j] == m[x]
  {
    assert Entry(x, m[x]) in EntriesOf(m);
    j :| 0 <= j < |keys| && states[j] > 0 && Entry(keys[j], values[j]) == Entry(x, m[x]);
  }

  lemma InsertedHolds<T>(keys: seq<T>, values: seq<nat>, states: seq<nat>, m: map<T, nat>, t: nat, x: T, v: nat, d: nat)
    requires Holds(keys, values, states, m) && t < |keys| && states[t] == 0 && d > 0 && x !in m
    ensures Holds(keys[t := x], values[t := v], states[t := d], m[x := v])
  {
    var k2, v2, s2, m2 := keys[t := x], values[t := v], states[t := d], m[x := v];
    InEntries(m2);
    forall en | en in AllEntries(k2, v2, s2)
      ensures en in EntriesOf(m2)
    {
      var j :| 0 <= j < |k2| && s2[j] > 0 && en == Entry(k2[j], v2[j]);
      if j != t {
        CellInMap(keys, values, states, m, j);
      }
    }
    forall en | en in EntriesOf(m2)
      ensures en in AllEntries(k2, v2, s2)
    {
      if en.key == x {
        assert en == Entry(k2[t], v2[t]);
      } else {
        var j := MapInCells(keys, values, states, m, en.key);
        assert en == Entry(k2[j], v2[j]);
      }
    }
  }

  lemma AdjustedHolds<T>(keys: seq<T>, values: seq<nat>, states: seq<nat>, m: map<T, nat>, t: nat, v: nat)
    requires Holds(keys, values, states, m) && DistinctKeys(keys, states) && t < |keys| && states[t] > 0
    ensures Holds(keys, values[t := v], states, m[keys[t] := v])
  {
    var v2, m2 := values[t := v], m[keys[t] := v];
    InEntries(m2);
    forall en | en in AllEntries(keys, v2, states)
      ensures en in EntriesOf(m2)
    {
      var j :| 0 <= j < |keys| && states[j] > 0 && en == Entry(keys[j], v2[j]);
      CellInMap(keys, values, states, m, j);
    }
    forall en | en in EntriesOf(m2)
      ensures en in AllEntries(keys, v2, states)
    {
      if en.key == keys[t] {
        assert en == Entry(keys[t], v2[t]);
      } else {
        var j := MapInCells(keys, values, states, m, en.key);
        assert en == Entry(keys[j], v2[j]);
      }
    }
  }

  /** The number of active cells is the size of the abstract map. */
  lemma {:induction false} ActiveIsSize<T>(keys: seq<T>, values: seq<nat>, states: seq<nat>, m: map<T, nat>)
    requires Holds(keys, values, states, m) && DistinctKeys(keys, states)
    ensures Active(states) == |m|
    decreases |m|
  {
    if m == map[] {
      var a := seq(|states|, j requires 0 <= j < |states| => if states[j] > 0 then 1 else -1);
      forall j | 0 <= j < |states|
        ensures a[j] < 0
      {
        if states[j] > 0 {
          CellInMap(keys, values, states, m, j);
        }
      }
      CountEmpty(a);
    } else {
      var x :| x in m;
      var t := MapInCells(keys, values, states, m, x);
      ActiveUpdate(states, t, 0);
      RemovedHolds(keys, values, states, m, t);
      ActiveIsSize(keys, values, states[t := 0], m - {x});
      assert m == (m - {x})[x := m[x]];
    }
  }

  lemma RemovedHolds<T>(keys: seq<T>, values: seq<nat>, states: seq<nat>, m: map<T, nat>, t: nat)
    requires Holds(keys, values, states, m) && DistinctKeys(keys, states) && t < |keys| && states[t] > 0
    ensures Holds(keys, values, states[t := 0], m - {keys[t]})
  {
    var s2, m2 := states[t := 0], m - {keys[t]};
    InEntries(m2);
    forall en | en in AllEntries(keys, values, s2)
      ensures en in EntriesOf(m2)
    {
      var j :| 0 <= j < |keys| && s2[j] > 0 && en == Entry(keys[j], values[j]);
      CellInMap(keys, values, states, m, j);
    }
    forall en | en in EntriesOf(m2)
      ensures en in AllEntries(keys, values, s2)
    {
      var j := MapInCells(keys, values, states, m, en.key);
      assert en == Entry(keys[j], values[j]);
    }
  }

  /** What a purge by `amount` makes of the abstract map. */
  ghost function Purged<T>(m: map<T, nat>, amount: nat): map<T, nat>
  {
    map x | x in m && m[x] > amount :: m[x] - amount
  }

  lemma PurgedEntries<T>(m: map<T, nat>, amount: nat)
    ensures Reduced(EntriesOf(m), amount) == EntriesOf(Purged(m, amount))
  {
    InEntries(m);
    InEntries(Purged(m, amount));
    forall en | en in EntriesOf(Purged(m, amount))
      ensures en in Reduced(EntriesOf(m), amount)
    {
      assert Entry(en.key, m[en.key]) in EntriesOf(m);
    }
  }

  /** The pass over all positions turns the map into its purged form. */
  lemma SweepDone<T>(keys: seq<T>, values: seq<nat>, states: seq<nat>, keys0: seq<T>, values0: seq<nat>, states0: seq<nat>,
                     hash: T -> nat, f: nat, amount: nat, m: map<T, nat>)
    requires Sweeping(keys, values, states, keys0, values0, states0, hash, f, 0, amount)
    requires Holds(keys0, values0, states0, m)
    ensures CellsOk(keys, states, hash) && Holds(keys, values, states, Purged(m, amount))
  {
    PurgedEntries(m, amount);
    assert Tail(keys, values, states, f, 0) == AllEntries(keys, values, states);
    assert Tail(keys0, values0, states0, f, 0) == AllEntries(keys0, values0, states0);
  }

  // ---- how far a probe can go ----

  /** A run of occupied slots is no longer than the number of occupied slots. */
  lemma {:induction false} RunLength(g: seq<int>, h: nat, t: nat)
    requires h < |g| && t < |g| && Run(g, h, t)
    ensures Dist(|g|, h, t) <= Count(g)
    decreases Dist(|g|, h, t)
  {
    if h != t {
      var p := if t == 0 then |g| - 1 else t - 1;
      var cleared := g[p := -1];
      CountUpdate(g, p, -1);
      RunLength(cleared, h, p);
    }
  }

  lemma ProbeLength(states: seq<nat>, h: nat, t: nat)
    requires h < |states| && t < |states|
    requires forall p :: 0 <= p < |states| && Dist(|states|, h, p) < Dist(|states|, h, t) ==> states[p] > 0
    ensures Dist(|states|, h, t) <= Active(states)
  {
    RunLength(seq(|states|, j requires 0 <= j < |states| => if states[j] > 0 then 1 else -1), h, t);
  }
}
