/** The map of tracked items: class reverse_purge_hash_map of fi/include/reverse_purge_hash_map.hpp. */
module ReversePurgeMaps {
  import opened Sets
  import opened Words
  import opened LinearProbing
  import opened ReversePurge
  import opened Medians
  import opened Strides

  /** get_capacity: three quarters of the table. */
  function Capacity(lg: nat): nat { 3 * Pow2(lg) / 4 }

  lemma CapacityFits(lg: nat)
    requires lg >= 3
    ensures 6 <= Capacity(lg) && Capacity(lg) + 1 < Pow2(lg) && Capacity(lg + 1) == 2 * Capacity(lg)
    ensures 4 * Capacity(lg) == 3 * Pow2(lg)
    ensures lg <= 10 ==> Pow2(lg) <= DRIFT_LIMIT && Capacity(lg) <= 768
  {
    assert Pow2(3) == 8;
    Pow2Add(lg - 3, 3);
    Pow2Monotone(3, lg);
    if lg <= 10 {
      Pow2Monotone(lg, 10);
      assert Pow2(10) == 1024;
    }
  }

  /** The tracked weight of an item, zero when it is not tracked. */
  function WeightIn<T(==)>(m: map<T, nat>, key: T): nat
  {
    if key in m then m[key] else 0
  }

  const MAX_SAMPLE_SIZE: nat := 1024

  function SampleSize(numActive: nat): nat
  {
    if MAX_SAMPLE_SIZE < numActive then MAX_SAMPLE_SIZE else numActive
  }

  /** Distinct tracked items and their weights. */
  ghost predicate Sampled<T>(sample: seq<T>, weights: seq<nat>, m: map<T, nat>)
  {
    |sample| == |weights| &&
    (forall i :: 0 <= i < |sample| ==> sample[i] in m && m[sample[i]] == weights[i]) &&
    forall i, j :: 0 <= i < j < |sample| ==> sample[i] != sample[j]
  }

  /** The amount taken off at a purge: the median of the weights of SampleSize distinct items. */
  ghost predicate PurgeAmount<T(!new)>(m: map<T, nat>, amount: nat)
  {
    exists sample: seq<T>, weights: seq<nat> ::
      Sampled(sample, weights, m) && |weights| == SampleSize(|m|) > 0 && amount == SampleMedian(weights)
  }

  /** The loop state of a search: the cells from the home of the key up to `index` hold other keys. */
  ghost predicate Searching<T>(keys: seq<T>, states: seq<nat>, hash: T -> nat, key: T, index: nat)
  {
    |keys| == |states| > 0 && index < |keys| &&
    forall p :: 0 <= p < |keys| && Dist(|keys|, Home(hash(key), |keys|), p) < Dist(|keys|, Home(hash(key), |keys|), index) ==>
      states[p] > 0 && keys[p] != key
  }

  lemma SearchNext<T>(keys: seq<T>, states: seq<nat>, hash: T -> nat, key: T, index: nat, e: nat)
    requires Searching(keys, states, hash, key, index) && states[index] > 0 && keys[index] != key
    requires e < |keys| && states[e] == 0
    ensures Searching(keys, states, hash, key, Next(|keys|, index))
    ensures Dist(|keys|, Home(hash(key), |keys|), Next(|keys|, index)) == Dist(|keys|, Home(hash(key), |keys|), index) + 1
    ensures Dist(|keys|, Home(hash(key), |keys|), index) < Dist(|keys|, Home(hash(key), |keys|), e)
  {
    hide Home;
  }

  lemma SearchLength<T>(keys: seq<T>, states: seq<nat>, hash: T -> nat, key: T, index: nat)
    requires Searching(keys, states, hash, key, index)
    ensures Dist(|keys|, Home(hash(key), |keys|), index) <= Active(states)
  {
    hide Home;
    ProbeLength(states, Home(hash(key), |keys|), index);
  }

  /** The key or an empty cell is among the first probes for the key, before the drift limit. */
  ghost predicate Lands<T>(keys: seq<T>, states: seq<nat>, hash: T -> nat, key: T)
    requires |keys| == |states| > 0
  {
    exists p :: 0 <= p < |keys| && Dist(|keys|, Home(hash(key), |keys|), p) < DRIFT_LIMIT - 1 && (states[p] == 0 || keys[p] == key)
  }

  /** A search that is still going at the drift limit does not land; one that has ended before it does. */
  lemma SearchLands<T>(keys: seq<T>, states: seq<nat>, hash: T -> nat, key: T, index: nat)
    requires Searching(keys, states, hash, key, index)
    ensures Dist(|keys|, Home(hash(key), |keys|), index) >= DRIFT_LIMIT - 1 ==> !Lands(keys, states, hash, key)
    ensures Dist(|keys|, Home(hash(key), |keys|), index) < DRIFT_LIMIT - 1 && (states[index] == 0 || keys[index] == key) ==> Lands(keys, states, hash, key)
  {
    hide Home;
  }

  /** A search that ends at an empty cell has shown that the key is not there. */
  lemma SearchAbsent<T>(keys: seq<T>, values: seq<nat>, states: seq<nat>, hash: T -> nat, key: T, t: nat, m: map<T, nat>)
    requires CellsOk(keys, states, hash) && Holds(keys, values, states, m)
    requires Searching(keys, states, hash, key, t) && states[t] == 0
    ensures key !in m
  {
    hide Home, CellsOk;
    AbsentAtEmpty(keys, states, hash, key, t);
    if key in m {
      var j := MapInCells(keys, values, states, m, key);
    }
  }

  /** The items have different home cells in a table of n cells. */
  ghost predicate Direct<T(!new)>(items: set<T>, hash: T -> nat, n: nat)
    requires n > 0
  {
    forall x, y :: x in items && y in items && x != y ==> Home(hash(x), n) != Home(hash(y), n)
  }

  ghost predicate ActiveIn<T(!new)>(items: set<T>, keys: seq<T>, states: seq<nat>)
    requires |keys| == |states|
  {
    forall j :: 0 <= j < |keys| && states[j] > 0 ==> keys[j] in items
  }

  /** Then every tracked item is in its home cell. */
  lemma {:induction false} AtHome<T(!new)>(keys: seq<T>, states: seq<nat>, hash: T -> nat, items: set<T>, e: nat, j: nat)
    requires CellsOk(keys, states, hash) && ActiveIn(items, keys, states) && Direct(items, hash, |keys|)
    requires e < |keys| && states[e] == 0 && j < |keys| && states[j] > 0
    ensures Home(hash(keys[j]), |keys|) == j
    decreases Dist(|keys|, e, j)
  {
    var g := HomesOf(keys, states, hash);
    var h := Home(hash(keys[j]), |keys|);
    if h != j {
      assert !OnPath(g, j, e);
      assert OnPath(g, j, h);
      hide Home;
      AtHome(keys, states, hash, items, e, h);
    }
  }

  /** The search for one of these items ends in its home cell. */
  lemma DirectHit<T(!new)>(keys: seq<T>, values: seq<nat>, states: seq<nat>, hash: T -> nat, m: map<T, nat>, key: T, e: nat)
    requires MapCells(keys, values, states, hash, m) && e < |keys| && states[e] == 0
    requires Direct(m.Keys + {key}, hash, |keys|) && states[Home(hash(key), |keys|)] > 0
    ensures keys[Home(hash(key), |keys|)] == key
  {
    hide CellsOk, Home;
    var h := Home(hash(key), |keys|);
    TrackedCells(keys, values, states, m);
    AtHome(keys, states, hash, m.Keys + {key}, e, h);
  }

  lemma TrackedCells<T(!new)>(keys: seq<T>, values: seq<nat>, states: seq<nat>, m: map<T, nat>)
    requires Holds(keys, values, states, m)
    ensures ActiveIn(m.Keys, keys, states)
  {
    forall j | 0 <= j < |keys| && states[j] > 0
      ensures keys[j] in m
    {
      CellInMap(keys, values, states, m, j);
    }
  }

  lemma DirectDouble<T(!new)>(items: set<T>, hash: T -> nat, n: nat)
    requires n > 0 && Direct(items, hash, n)
    ensures Direct(items, hash, 2 * n)
  {
    forall x, y | x in items && y in items && x != y
      ensures Home(hash(x), 2 * n) != Home(hash(y), 2 * n)
    {
      HalfHome(hash(x), n);
      HalfHome(hash(y), n);
    }
  }

  lemma HalfHome(h: nat, n: nat)
    requires n > 0
    ensures Home(Home(h, 2 * n), n) == Home(h, n)
  {
    var q, r := Quotient(h, 2 * n);
    var q2, r2 := Quotient(r, n);
    HalfQuotient(h, n, q, r, q2, r2);
    DivUnique(h, n, 2 * q + q2, r2);
  }

  lemma HalfQuotient(h: nat, n: nat, q: nat, r: nat, q2: nat, r2: nat)
    requires h == (2 * n) * q + r && r == n * q2 + r2
    ensures h == n * (2 * q + q2) + r2
  {
    assert n * (2 * q + q2) == n * (2 * q) + n * q2;
    assert n * (2 * q) == (2 * n) * q;
  }

  /** The cells of a table with the abstract map they hold. */
  ghost predicate MapCells<T>(keys: seq<T>, values: seq<nat>, states: seq<nat>, hash: T -> nat, m: map<T, nat>)
  {
    CellsOk(keys, states, hash) && Holds(keys, values, states, m)
  }

  lemma PutNew<T>(keys: seq<T>, values: seq<nat>, states: seq<nat>, hash: T -> nat, m: map<T, nat>, key: T, value: nat, t: nat, drift: nat)
    requires MapCells(keys, values, states, hash, m)
    requires Searching(keys, states, hash, key, t) && states[t] == 0
    requires drift == Dist(|keys|, Home(hash(key), |keys|), t) + 1
    ensures MapCells(keys[t := key], values[t := value], states[t := drift], hash, m[key := WeightIn(m, key) + value])
    ensures key !in m && Active(states[t := drift]) == Active(states) + 1
  {
    SearchAbsent(keys, values, states, hash, key, t, m);
    AbsentCells(keys, values, states, m, key);
    PutReaches(keys, states, hash, key, t);
    hide CellsOk, Searching;
    InsertedCells(keys, states, hash, key, t);
    InsertedHolds(keys, values, states, m, t, key, value, drift);
    ActiveUpdate(states, t, drift);
  }

  lemma PutReaches<T>(keys: seq<T>, states: seq<nat>, hash: T -> nat, key: T, t: nat)
    requires CellsOk(keys, states, hash) && Searching(keys, states, hash, key, t)
    ensures Run(HomesOf(keys, states, hash), Home(hash(key), |keys|), t)
  {
    hide Home;
  }

  lemma AbsentCells<T>(keys: seq<T>, values: seq<nat>, states: seq<nat>, m: map<T, nat>, key: T)
    requires Holds(keys, values, states, m) && key !in m
    ensures forall j :: 0 <= j < |keys| && states[j] > 0 ==> keys[j] != key
  {
    forall j | 0 <= j < |keys| && states[j] > 0
      ensures keys[j] != key
    {
      CellInMap(keys, values, states, m, j);
    }
  }

  lemma PutOld<T>(keys: seq<T>, values: seq<nat>, states: seq<nat>, hash: T -> nat, m: map<T, nat>, value: nat, t: nat)
    requires MapCells(keys, values, states, hash, m) && t < |keys| && states[t] > 0
    ensures MapCells(keys, values[t := values[t] + value], states, hash, m[keys[t] := WeightIn(m, keys[t]) + value])
    ensures keys[t] in m
  {
    AdjustedHolds(keys, values, states, m, t, values[t] + value);
    CellInMap(keys, values, states, m, t);
  }

  class ReversePurgeMap<T(==,0,!new)> {
    const hash: T -> nat
    const lgMax: nat
    var lgCur: nat
    var numActive: nat
    var keys: array<T>
    var values: array<nat>
    var states: array<nat>
    ghost var weights: map<T, nat>

    ghost function Arrays(): (arrays: set<object>)
      reads this
      ensures keys in arrays && values in arrays && states in arrays
    {
      {keys as object, values as object, states as object}
    }

    /** Everything but the load bound: the cells form a probing table that holds the abstract map. */
    ghost predicate Shape()
      reads this, keys, values, states
    {
      3 <= lgCur <= lgMax && keys.Length == Pow2(lgCur) && Separate(keys, values, states) &&
      numActive == Active(states[..]) && MapCells(keys[..], values[..], states[..], hash, weights)
    }

    ghost predicate Valid()
      reads this, keys, values, states
    {
      Shape() && numActive <= Capacity(lgCur)
    }

    constructor (hash: T -> nat, lgCur: nat, lgMax: nat)
      requires 3 <= lgCur <= lgMax
      ensures Valid() && weights == map[] && this.lgMax == lgMax && this.lgCur == lgCur && this.hash == hash
      ensures fresh(keys) && fresh(values) && fresh(states)
    {
      this.hash := hash;
      this.lgCur := lgCur;
      this.lgMax := lgMax;
      numActive := 0;
      keys := new T[Pow2(lgCur)];
      values := new nat[Pow2(lgCur)];
      states := new nat[Pow2(lgCur)](_ => 0);
      weights := map[];
      new;
      EmptyCells(keys[..], values[..], states[..], hash);
    }

    /** The number of active cells is the number of tracked items. */
    lemma Size()
      requires Shape()
      ensures numActive == |weights|
    {
      ActiveIsSize(keys[..], values[..], states[..], weights);
    }

    /** get */
    method Get(key: T) returns (value: nat)
      requires Valid()
      ensures value == WeightIn(weights, key)
    {
      hide CellsOk, Holds, Home, Active;
      CapacityFits(lgCur);
      ghost var e := SomeEmpty(states[..]);
      var n := keys.Length;
      var probe: nat := Home(hash(key), n);
      while states[probe] > 0
        invariant probe < n && Searching(keys[..], states[..], hash, key, probe)
        decreases Dist(n, Home(hash(key), n), e) - Dist(n, Home(hash(key), n), probe)
      {
        if keys[probe] == key {
          CellInMap(keys[..], values[..], states[..], weights, probe);
          return values[probe];
        }
        SearchNext(keys[..], states[..], hash, key, probe, e);
        probe := Next(n, probe);
      }
      SearchAbsent(keys[..], values[..], states[..], hash, key, probe, weights);
      return 0;
    }

    /** The probing loop of internal_adjust_or_insert; false stands for the drift exception. */
    method Find(key: T) returns (ok: bool, index: nat, drift: nat)
      requires Valid()
      ensures ok <==> Lands(keys[..], states[..], hash, key)
      ensures numActive < DRIFT_LIMIT - 1 || Direct(weights.Keys + {key}, hash, keys.Length) ==> ok
      ensures ok ==> Searching(keys[..], states[..], hash, key, index)
      ensures ok ==> drift == Dist(keys.Length, Home(hash(key), keys.Length), index) + 1
      ensures ok ==> states[index] == 0 || keys[index] == key
    {
      hide CellsOk, Holds, Home, Active, Capacity, Lands;
      CapacityFits(lgCur);
      ghost var e := SomeEmpty(states[..]);
      var n := keys.Length;
      index := Home(hash(key), n);
      drift := 1;
      while states[index] > 0
        invariant Searching(keys[..], states[..], hash, key, index)
        invariant drift == Dist(n, Home(hash(key), n), index) + 1 < DRIFT_LIMIT
        invariant index == Home(hash(key), n) || !Direct(weights.Keys + {key}, hash, n)
        decreases Dist(n, Home(hash(key), n), e) - Dist(n, Home(hash(key), n), index)
      {
        if keys[index] == key {
          SearchLands(keys[..], states[..], hash, key, index);
          return true, index, drift;
        }
        Collided(key, e);
        SearchNext(keys[..], states[..], hash, key, index, e);
        index := Next(n, index);
        drift := drift + 1;
        SearchLength(keys[..], states[..], hash, key, index);
        if drift >= DRIFT_LIMIT {
          SearchLands(keys[..], states[..], hash, key, index);
          return false, index, drift;
        }
      }
      SearchLands(keys[..], states[..], hash, key, index);
      return true, index, drift;
    }

    /** Another item in the home cell of the key tells that home cells are shared. */
    lemma Collided(key: T, e: nat)
      requires Valid() && e < keys.Length && states[e] == 0
      ensures states[Home(hash(key), keys.Length)] > 0 && keys[Home(hash(key), keys.Length)] != key ==> !Direct(weights.Keys + {key}, hash, keys.Length)
    {
      hide MapCells, Active, Direct, Home;
      if Direct(weights.Keys + {key}, hash, keys.Length) && states[Home(hash(key), keys.Length)] > 0 {
        DirectHit(keys[..], values[..], states[..], hash, weights, key, e);
      }
    }

    /** internal_adjust_or_insert, with the key stored; the exception for a table over its capacity cannot occur. */
    method InternalAdjustOrInsert(key: T, value: nat) returns (ok: bool)
      requires Valid()
      modifies this`numActive, this`weights, keys, values, states
      ensures ok <==> Lands(old(keys[..]), old(states[..]), hash, key)
      ensures old(numActive) < DRIFT_LIMIT - 1 || Direct(old(weights).Keys + {key}, hash, keys.Length) ==> ok
      ensures ok ==> Shape() && weights == old(weights)[key := WeightIn(old(weights), key) + value]
      ensures ok ==> numActive == old(numActive) + if key in old(weights) then 0 else 1
    {
      hide CellsOk, Holds, MapCells, Home, Active, Capacity, Searching, Lands;
      var index, drift;
      ok, index, drift := Find(key);
      if !ok {
        return;
      }
      InFind(index, key);
      if states[index] > 0 {
        AdjustCell(index, value);
      } else {
        InsertCell(key, value, index, drift);
      }
    }

    lemma InFind(index: nat, key: T)
      requires Shape() && Searching(keys[..], states[..], hash, key, index)
      ensures index < keys.Length
    {
    }

    method AdjustCell(index: nat, value: nat)
      requires Shape() && index < keys.Length && states[index] > 0
      modifies this`weights, values
      ensures Shape() && weights == old(weights)[keys[index] := WeightIn(old(weights), keys[index]) + value]
      ensures keys[index] in old(weights)
    {
      hide CellsOk, Holds, MapCells, Home, Active, Capacity;
      ghost var v := values[..];
      PutOld(keys[..], v, states[..], hash, weights, value, index);
      values[index] := values[index] + value;
      assert values[..] == v[index := v[index] + value];
      weights := weights[keys[index] := WeightIn(weights, keys[index]) + value];
    }

    method InsertCell(key: T, value: nat, index: nat, drift: nat)
      requires Shape() && index < keys.Length && states[index] == 0
      requires Searching(keys[..], states[..], hash, key, index)
      requires drift == Dist(keys.Length, Home(hash(key), keys.Length), index) + 1
      modifies this`numActive, this`weights, keys, values, states
      ensures Shape() && weights == old(weights)[key := WeightIn(old(weights), key) + value]
      ensures key !in old(weights) && numActive == old(numActive) + 1
    {
      hide CellsOk, Holds, MapCells, Home, Active, Capacity, Searching;
      ghost var k, v, s := keys[..], values[..], states[..];
      PutNew(k, v, s, hash, weights, key, value, index, drift);
      values[index] := value;
      states[index] := drift;
      numActive := numActive + 1;
      keys[index] := key;
      assert keys[..] == k[index := key] && values[..] == v[index := value] && states[..] == s[index := drift];
      weights := weights[key := WeightIn(weights, key) + value];
    }

    // ---- purging ----

    /** The state of the reverse pass of subtract_and_keep_positive_only. */
    ghost predicate Passing(keys0: seq<T>, values0: seq<nat>, states0: seq<nat>, f: nat, from: nat, amount: nat)
      reads this, keys, values, states
    {
      Separate(keys, values, states) && f < keys.Length && numActive == Active(states[..]) &&
      Sweeping(keys[..], values[..], states[..], keys0, values0, states0, hash, f, from, amount)
    }

    /** One cell of the pass: delete the entry or reduce it. */
    method SweepCell(probe: nat, amount: nat, ghost keys0: seq<T>, ghost values0: seq<nat>, ghost states0: seq<nat>, ghost f: nat) returns (ok: bool)
      requires f < keys.Length && probe < keys.Length && Passing(keys0, values0, states0, f, Dist(keys.Length, f, probe) + 1, amount)
      modifies this`numActive, keys, values, states
      ensures keys.Length <= DRIFT_LIMIT || (|values0| == |states0| && Clears(values0, states0, amount)) ==> ok
      ensures ok ==> Passing(keys0, values0, states0, f, Dist(keys.Length, f, probe), amount)
    {
      hide Sweeping, Active, Dist, Clears;
      ok := true;
      if states[probe] > 0 {
        if values[probe] <= amount {
          ok := DeleteCell(probe, amount, keys0, values0, states0, f);
        } else {
          ghost var v := values[..];
          SweepReduce(keys[..], v, states[..], keys0, values0, states0, hash, f, probe, amount);
          values[probe] := values[probe] - amount;
          assert values[..] == v[probe := v[probe] - amount];
        }
      } else {
        SweepSkip(keys[..], values[..], states[..], keys0, values0, states0, hash, f, probe, amount);
      }
    }

    method DeleteCell(probe: nat, amount: nat, ghost keys0: seq<T>, ghost values0: seq<nat>, ghost states0: seq<nat>, ghost f: nat) returns (ok: bool)
      requires f < keys.Length && probe < keys.Length && Passing(keys0, values0, states0, f, Dist(keys.Length, f, probe) + 1, amount)
      requires states[probe] > 0 && values[probe] <= amount
      modifies this`numActive, keys, values, states
      ensures keys.Length <= DRIFT_LIMIT || (|values0| == |states0| && Clears(values0, states0, amount)) ==> ok
      ensures ok ==> Passing(keys0, values0, states0, f, Dist(keys.Length, f, probe), amount)
    {
      hide Sweeping, Active, CellsOk, Dist, Clears;
      ghost var k, v, s := keys[..], values[..], states[..];
      SweepingFacts(k, v, s, keys0, values0, states0, f, Dist(keys.Length, f, probe) + 1, amount);
      ClearedCells(k, v, s, keys0, values0, states0, f, probe, amount);
      ghost var e;
      ok, e := HashDelete(keys, values, states, hash, probe);
      if ok {
        SweepDelete(keys[..], values[..], states[..], k, v, s, keys0, values0, states0, hash, f, probe, e, amount);
        numActive := numActive - 1;
      }
    }

    lemma ClearedCells(k: seq<T>, v: seq<nat>, s: seq<nat>, keys0: seq<T>, values0: seq<nat>, states0: seq<nat>, f: nat, probe: nat, amount: nat)
      requires f < |k| && probe < |k| && Sweeping(k, v, s, keys0, values0, states0, hash, f, Dist(|k|, f, probe) + 1, amount)
      ensures Clears(values0, states0, amount) ==> s[Next(|k|, probe)] == 0
    {
      if Clears(values0, states0, amount) {
        ClearedBehind(k, v, s, keys0, values0, states0, hash, f, probe, amount);
      }
    }

    lemma SweepingFacts(k: seq<T>, v: seq<nat>, s: seq<nat>, keys0: seq<T>, values0: seq<nat>, states0: seq<nat>, f: nat, from: nat, amount: nat)
      requires Sweeping(k, v, s, keys0, values0, states0, hash, f, from, amount)
      ensures CellsOk(k, s, hash) && s[f] == 0
    {
    }

    /** The first empty cell from the back. */
    method LastEmpty() returns (f: nat)
      requires Shape() && numActive < keys.Length
      ensures f < keys.Length && states[f] == 0
    {
      hide MapCells, Active;
      ghost var e := SomeEmpty(states[..]);
      f := keys.Length - 1;
      while states[f] > 0
        invariant e <= f < keys.Length
        decreases f
      {
        f := f - 1;
      }
    }

    /** subtract_and_keep_positive_only; false stands for the drift exception. */
    method SubtractAndKeepPositiveOnly(amount: nat) returns (ok: bool)
      requires Shape() && numActive < keys.Length
      modifies this`numActive, this`weights, keys, values, states
      ensures keys.Length <= DRIFT_LIMIT || (forall x :: x in old(weights) ==> old(weights)[x] <= amount) ==> ok
      ensures ok ==> Shape() && weights == Purged(old(weights), amount)
    {
      hide Active, CellsOk, Holds, Sweeping, HomesOf, Clears;
      var n := keys.Length;
      ghost var k, v, s := keys[..], values[..], states[..];
      ClearsAll(k, v, s, weights, amount);
      var f := LastEmpty();
      SweepStart(k, v, s, hash, f, amount);
      ok := SweepDown(f, 0, amount, k, v, s, f, n);
      if ok {
        ok := SweepDown(n, f, amount, k, v, s, f, n - f);
      }
      if ok {
        SweepDone(keys[..], values[..], states[..], k, v, s, hash, f, amount, weights);
        weights := Purged(weights, amount);
      }
    }

    /** Either loop of the pass: from below `top` down to `bottom`. */
    method SweepDown(top: nat, bottom: nat, amount: nat, ghost keys0: seq<T>, ghost values0: seq<nat>, ghost states0: seq<nat>, ghost f: nat, ghost from: nat)
      returns (ok: bool)
      requires Passing(keys0, values0, states0, f, from, amount)
      requires (top == f && bottom == 0 && from == keys.Length) || (top == keys.Length && bottom == f && from == top - f)
      modifies this`numActive, keys, values, states
      ensures keys.Length <= DRIFT_LIMIT || (|values0| == |states0| && Clears(values0, states0, amount)) ==> ok
      ensures ok ==> Passing(keys0, values0, states0, f, from - (top - bottom), amount)
    {
      hide Sweeping, Active, Clears;
      var probe := top;
      while probe > bottom
        invariant bottom <= probe <= top
        invariant Passing(keys0, values0, states0, f, from - (top - probe), amount)
      {
        probe := probe - 1;
        ok := SweepCell(probe, amount, keys0, values0, states0, f);
        if !ok {
          return;
        }
      }
      return true;
    }

    /** The sampling loop of purge. */
    method CollectSamples(limit: nat) returns (samples: array<nat>, ghost cells: seq<nat>, i: nat)
      requires Shape() && limit <= numActive
      ensures fresh(samples) && samples.Length == limit && i <= keys.Length
      ensures SampledCells(cells, samples[..], values[..], states[..], i) && Active(states[..i]) == limit
    {
      hide MapCells, Active, CellsOk;
      samples := new nat[limit];
      var numSamples := 0;
      i := 0;
      cells := [];
      ActiveNone(states[..0]);
      assert states[..keys.Length] == states[..];
      while numSamples < limit
        invariant numSamples <= limit && i <= keys.Length
        invariant Active(states[..i]) == numSamples
        invariant SampledCells(cells, samples[..numSamples], values[..], states[..], i)
        decreases keys.Length - i
      {
        ActiveSnoc(states[..], i);
        if states[i] > 0 {
          samples[numSamples] := values[i];
          SampleMore(cells, samples[..], numSamples, values[..], states[..], i);
          cells := cells + [i];
          numSamples := numSamples + 1;
        }
        i := i + 1;
      }
      assert samples[..] == samples[..numSamples];
    }

    /** purge: subtract the sample median from every entry. */
    method Purge() returns (ok: bool, median: nat)
      requires Shape() && 0 < numActive < keys.Length
      modifies this`numActive, this`weights, keys, values, states
      ensures keys.Length <= DRIFT_LIMIT || (forall x :: x in old(weights) ==> old(weights)[x] <= median) ==> ok
      ensures ok ==> Shape() && weights == Purged(old(weights), median)
      ensures PurgeAmount(old(weights), median) && TablePurge(old(weights), hash, keys.Length, median)
      ensures ok ==> numActive < old(numActive)
    {
      hide MapCells, Active, PurgeAmount, SampledCells;
      Size();
      var limit := SampleSize(numActive);
      var samples, stop;
      ghost var cells;
      samples, cells, stop := CollectSamples(limit);
      median := SampleMedian(samples[..]);
      SampledWider(cells, samples[..], values[..], states[..], stop);
      PurgeAmountOf(keys[..], values[..], states[..], hash, weights, cells, samples[..]);
      assert FirstSample(keys[..], values[..], states[..], cells, samples[..], stop, hash, weights);
      PurgedSmaller(weights, median);
      ok := SubtractAndKeepPositiveOnly(median);
      if ok {
        Size();
      }
    }

    // ---- growing ----

    /** The re-insertion loop of resize; none of its insertions reaches the new capacity, so none grows or purges. */
    method Reinsert(oldKeys: array<T>, oldValues: array<nat>, oldStates: array<nat>, ghost m: map<T, nat>) returns (ok: bool)
      requires Valid() && weights == map[] && Separate(oldKeys, oldValues, oldStates)
      requires oldKeys != keys && oldValues != values && oldStates != states && oldValues != states && oldStates != values
      requires (oldKeys as object) != values && (oldKeys as object) != states && (keys as object) != oldValues && (keys as object) != oldStates
      requires Holds(oldKeys[..], oldValues[..], oldStates[..], m) && DistinctKeys(oldKeys[..], oldStates[..]) && |m| <= Capacity(lgCur)
      modifies this`numActive, this`weights, keys, values, states
      ensures |m| <= DRIFT_LIMIT - 1 || Direct(m.Keys, hash, keys.Length) ==> ok
      ensures ok ==> Valid() && weights == m
    {
      hide MapCells, Holds, DistinctKeys, Active, Home, Lands;
      ghost var k, v, s := oldKeys[..], oldValues[..], oldStates[..];
      ActiveIsSize(k, v, s, m);
      HoldsNothing(k, v, s);
      for i := 0 to oldKeys.Length
        invariant oldKeys[..] == k && oldValues[..] == v && oldStates[..] == s
        invariant Valid() && Holds(k[..i], v[..i], s[..i], weights)
      {
        if oldStates[i] > 0 {
          HoldsSnocActive(k, v, s, weights, i);
          HoldsRoom(k, v, s, weights, i);
          HoldsPart(k, v, s, weights, i, m);
          Size();
          ok := InternalAdjustOrInsert(oldKeys[i], oldValues[i]);
          if !ok {
            return;
          }
        } else {
          HoldsSnocEmpty(k, v, s, weights, i);
        }
      }
      assert k[..|k|] == k && v[..|k|] == v && s[..|k|] == s;
      HoldsUnique(k, v, s, m, weights);
      return true;
    }

    /** resize */
    method Resize(newLg: nat) returns (ok: bool)
      requires Shape() && newLg == lgCur + 1 <= lgMax && numActive <= Capacity(newLg)
      modifies this
      ensures old(numActive) <= DRIFT_LIMIT - 1 || Direct(old(weights).Keys, hash, Pow2(newLg)) ==> ok
      ensures lgCur == newLg && fresh(keys) && fresh(values) && fresh(states)
      ensures ok ==> Valid() && weights == old(weights)
    {
      hide MapCells, Active, Capacity;
      Size();
      ghost var m := weights;
      var oldKeys, oldValues, oldStates := keys, values, states;
      ResizeFacts();
      keys := new T[Pow2(newLg)];
      values := new nat[Pow2(newLg)];
      states := new nat[Pow2(newLg)](_ => 0);
      numActive := 0;
      lgCur := newLg;
      weights := map[];
      EmptyCells(keys[..], values[..], states[..], hash);
      ok := Reinsert(oldKeys, oldValues, oldStates, m);
    }

    lemma ResizeFacts()
      requires Shape()
      ensures Holds(keys[..], values[..], states[..], weights) && DistinctKeys(keys[..], states[..])
    {
    }

    /** resize_or_purge_if_needed; the exception for a purge that removes nothing cannot occur. */
    method ResizeOrPurgeIfNeeded() returns (ok: bool, offset: nat)
      requires Shape() && numActive <= Capacity(lgCur) + 1
      modifies this, keys, values, states
      ensures lgMax <= 10 || Smooth(old(weights), old(lgCur)) ==> ok
      ensures old(numActive) <= Capacity(old(lgCur)) || (old(lgCur) < lgMax && old(numActive) <= DRIFT_LIMIT - 1) ==> ok
      ensures lgCur >= old(lgCur)
      ensures ok ==> Valid() && Settled(old(weights), old(lgCur), weights, lgCur, offset)
      ensures (keys == old(keys) && values == old(values) && states == old(states)) || (fresh(keys) && fresh(values) && fresh(states))
    {
      hide MapCells, Active, Capacity, Direct, PurgeAmount, TablePurge, Purged;
      CapacityFits(lgCur);
      Size();
      if numActive > Capacity(lgCur) {
        if lgCur < lgMax {
          if Direct(weights.Keys, hash, Pow2(lgCur)) {
            DirectDouble(weights.Keys, hash, Pow2(lgCur));
          }
          ok := Resize(lgCur + 1);
          return ok, 0;
        }
        ok, offset := Purge();
      } else {
        return true, 0;
      }
    }

    /** The change of the map when it settles: it stays as it is, or, at its largest size and over capacity, it is purged. */
    ghost predicate Settled(m: map<T, nat>, lg: nat, m': map<T, nat>, lg': nat, offset: nat)
    {
      if |m| <= Capacity(lg) then m' == m && lg' == lg && offset == 0
      else if lg < lgMax then m' == m && lg' == lg + 1 && offset == 0
      else lg' == lg && |m| == Capacity(lgMax) + 1 && PurgeAmount(m, offset) && TablePurge(m, hash, Pow2(lgMax), offset) && m' == Purged(m, offset)
    }

    /** The numbers of a change: the table doubles, or is purged at its largest size, only when it is more than three quarters full. */
    lemma SettledNumbers(m: map<T, nat>, lg: nat, m': map<T, nat>, lg': nat, offset: nat)
      requires lg >= 3 && Settled(m, lg, m', lg', offset)
      ensures lg' == if 4 * |m| > 3 * Pow2(lg) && lg < lgMax then lg + 1 else lg
      ensures 4 * |m| <= 3 * Pow2(lg) || lg < lgMax ==> m' == m && offset == 0
      ensures 4 * |m| > 3 * Pow2(lg) && lg >= lgMax ==> m' == Purged(m, offset) && PurgeAmount(m, offset)
    {
      hide Capacity, PurgeAmount, TablePurge, Purged, Pow2;
      CapacityFits(lg);
    }

    /** No insertion into the table collides, and a purge that follows removes every item: then no drift exception is raised either. */
    ghost predicate Smooth(m: map<T, nat>, lg: nat)
    {
      Direct(m.Keys, hash, Pow2(lg)) &&
      (|m| > Capacity(lg) && lg >= lgMax ==> forall amount, x :: TablePurge(m, hash, Pow2(lgMax), amount) && x in m ==> m[x] <= amount)
    }

    /** The search for the key ends before the drift limit. */
    ghost predicate CanPlace(key: T)
      reads this, keys, values, states
      requires Valid()
    {
      Lands(keys[..], states[..], hash, key)
    }

    /** adjust_or_insert: false stands for the drift exception. */
    method AdjustOrInsert(key: T, value: nat) returns (ok: bool, offset: nat)
      requires Valid()
      modifies this, keys, values, states
      ensures !old(CanPlace(key)) ==> !ok
      ensures old(CanPlace(key)) && |old(weights).Keys + {key}| <= Capacity(old(lgCur)) ==> ok
      ensures lgMax <= 10 || Smooth(old(weights)[key := WeightIn(old(weights), key) + value], old(lgCur)) ==> ok
      ensures |old(weights)| < DRIFT_LIMIT - 1 && (old(lgCur) < lgMax || |old(weights)| < Capacity(lgMax)) ==> ok
      ensures ok ==> Valid() && Settled(old(weights)[key := WeightIn(old(weights), key) + value], old(lgCur), weights, lgCur, offset)
      ensures (keys == old(keys) && values == old(values) && states == old(states)) || (fresh(keys) && fresh(values) && fresh(states))
    {
      hide MapCells, Active, Capacity, PurgeAmount, TablePurge, Direct, Lands;
      CapacityFits(lgCur);
      Size();
      ghost var m := weights[key := WeightIn(weights, key) + value];
      assert m.Keys == weights.Keys + {key} && |m| == |m.Keys|;
      var numActiveBefore := numActive;
      ok := InternalAdjustOrInsert(key, value);
      offset := 0;
      if ok {
        Size();
        if numActive > numActiveBefore {
          ok, offset := ResizeOrPurgeIfNeeded();
        }
      }
    }
  }

  // ---- when the drift exception is raised ----

  /** The cells less than t steps after h. */
  ghost function NearCells(n: nat, h: nat, t: nat): set<nat>
    requires h < n
  {
    set p: nat | p < n && Dist(n, h, p) < t
  }

  lemma {:induction false} NearCellsSize(n: nat, h: nat, t: nat)
    requires h < n
    ensures |NearCells(n, h, t)| <= t
  {
    if t == 0 {
      assert NearCells(n, h, 0) == {};
    } else {
      NearCellsSize(n, h, t - 1);
      var last := if h + (t - 1) < n then h + (t - 1) else h + (t - 1) - n;
      if t <= n {
        assert NearCells(n, h, t) == NearCells(n, h, t - 1) + {last};
      } else {
        assert NearCells(n, h, t) == NearCells(n, h, t - 1);
      }
    }
  }

  /** When all items share one home cell, the active cells are the first ones from there. */
  lemma SameHomeCells<T(!new)>(keys: seq<T>, states: seq<nat>, hash: T -> nat, c: nat, p: nat)
    requires CellsOk(keys, states, hash) && (forall x :: hash(x) == c) && p < |keys|
    requires Dist(|keys|, Home(c, |keys|), p) < Active(states)
    ensures states[p] > 0
  {
    var n, h := |keys|, Home(c, |keys|);
    var t := Dist(n, h, p);
    ActiveSetSize(states, n);
    assert states[..n] == states;
    if states[p] == 0 {
      var g := HomesOf(keys, states, hash);
      forall j | j in ActiveSet(states, n)
        ensures j in NearCells(n, h, t)
      {
        assert g[j] == h && !OnPath(g, j, p);
      }
      hide Active, LinearProbing.Reach;
      SubsetSize(ActiveSet(states, n), NearCells(n, h, t));
      NearCellsSize(n, h, t);
    }
  }

  /** Then one item more than the probes before the drift limit cannot be placed. */
  lemma SameHomeFails<T(!new)>(keys: seq<T>, values: seq<nat>, states: seq<nat>, hash: T -> nat, m: map<T, nat>, c: nat, key: T)
    requires MapCells(keys, values, states, hash, m) && (forall x :: hash(x) == c)
    requires |m| >= DRIFT_LIMIT - 1 && key !in m
    ensures !Lands(keys, states, hash, key)
  {
    ActiveIsSize(keys, values, states, m);
    hide Active, CellsOk, Home;
    TrackedCells(keys, values, states, m);
    forall p | 0 <= p < |keys| && Dist(|keys|, Home(hash(key), |keys|), p) < DRIFT_LIMIT - 1
      ensures states[p] > 0 && keys[p] != key
    {
      SameHomeCells(keys, states, hash, c, p);
    }
  }

  /** A table of 2^lg cells within its capacity. */
  ghost predicate Loaded<T>(keys: seq<T>, values: seq<nat>, states: seq<nat>, hash: T -> nat, m: map<T, nat>, lg: nat)
    ensures Loaded(keys, values, states, hash, m, lg) ==> |keys| == |states| > 0
  {
    |keys| == Pow2(lg) && MapCells(keys, values, states, hash, m) && |m| <= Capacity(lg)
  }

  /** Within its capacity a table of up to 2^10 cells always has the key or an empty cell near. */
  lemma SmallLands<T(!new)>(keys: seq<T>, values: seq<nat>, states: seq<nat>, hash: T -> nat, m: map<T, nat>, lg: nat, key: T)
    requires 3 <= lg <= 10 && Loaded(keys, values, states, hash, m, lg)
    ensures Lands(keys, states, hash, key)
  {
    CapacityFits(lg);
    ActiveIsSize(keys, values, states, m);
    hide Capacity, Home, CellsOk, Holds, Active;
    var e := SomeEmpty(states);
    if !Lands(keys, states, hash, key) {
      var h := Home(hash(key), |keys|);
      assert Dist(|keys|, h, e) == DRIFT_LIMIT - 1;
      ProbeLength(states, h, e);
    }
  }

  /** A table of 2^11 cells, 1023 of them active, with all items at home in cell zero. */
  lemma CrowdedTable() returns (keys: seq<nat>, values: seq<nat>, states: seq<nat>, hash: nat -> nat, m: map<nat, nat>)
    ensures Loaded(keys, values, states, hash, m, 11) && |m| == DRIFT_LIMIT - 1 && DRIFT_LIMIT !in m
    ensures forall x :: hash(x) == 0
  {
    hash := _ => 0;
    keys, values := seq(2048, i => i), seq(2048, _ => 1);
    states := seq(2048, i requires 0 <= i => if i < DRIFT_LIMIT - 1 then i + 1 else 0);
    m := FirstKeys(DRIFT_LIMIT - 1);
    CrowdedCells(keys, states, hash);
    CrowdedEntries(keys, values, states, m);
    hide CellsOk, Holds;
    assert Pow2(11) == 2048;
  }

  lemma FirstKeys(n: nat) returns (m: map<nat, nat>)
    ensures |m| == n && (forall x: nat :: x in m <==> x < n) && forall x :: x in m ==> m[x] == 1
  {
    var cells: seq<nat> := seq(n, i => i);
    DistinctSize(cells);
    m := map x | x in Elements(cells) :: 1;
    assert m.Keys == Elements(cells);
    forall x: nat
      ensures x in m <==> x < n
    {
      assert x < |cells| ==> cells[x] == x;
    }
  }

  lemma CrowdedCells(keys: seq<nat>, states: seq<nat>, hash: nat -> nat)
    requires |keys| == |states| >= DRIFT_LIMIT && forall x :: hash(x) == 0
    requires forall j :: 0 <= j < |keys| ==> keys[j] == j && states[j] == if j < DRIFT_LIMIT - 1 then j + 1 else 0
    ensures CellsOk(keys, states, hash)
  {
    var g := HomesOf(keys, states, hash);
    SmallHome(0, |keys|);
    hide Home;
    assert forall j :: 0 <= j < |keys| ==> g[j] == if j < DRIFT_LIMIT - 1 then 0 else -1;
  }

  lemma SmallHome(x: nat, n: nat)
    requires x < n
    ensures Home(x, n) == x
  {
    DivUnique(x, n, 0, x);
  }

  lemma CrowdedEntries(keys: seq<nat>, values: seq<nat>, states: seq<nat>, m: map<nat, nat>)
    requires |keys| == |values| == |states| >= DRIFT_LIMIT
    requires forall j :: 0 <= j < |keys| ==> keys[j] == j && values[j] == 1 && (states[j] > 0 <==> j < DRIFT_LIMIT - 1)
    requires forall x: nat :: x in m <==> x < DRIFT_LIMIT - 1
    requires forall x :: x in m ==> m[x] == 1
    ensures Holds(keys, values, states, m)
  {
    InEntries(m);
    forall en | en in EntriesOf(m)
      ensures en in AllEntries(keys, values, states)
    {
      assert states[en.key] > 0 && en == Entry(keys[en.key], values[en.key]);
    }
  }

  /** No table of up to 2^lgMax cells, whatever its hash function, can raise the drift exception, if and only if lgMax <= 10. */
  lemma DriftIff(lgMax: nat)
    requires lgMax >= 3
    ensures (forall keys: seq<nat>, values, states, hash: nat -> nat, m, lg, key ::
               3 <= lg <= lgMax && Loaded(keys, values, states, hash, m, lg) ==> Lands(keys, states, hash, key)) <==> lgMax <= 10
  {
    hide Loaded, Lands;
    if lgMax <= 10 {
      forall keys: seq<nat>, values, states, hash: nat -> nat, m, lg, key | 3 <= lg <= lgMax && Loaded(keys, values, states, hash, m, lg)
        ensures Lands(keys, states, hash, key)
      {
        SmallLands(keys, values, states, hash, m, lg, key);
      }
    } else {
      var keys, values, states, hash, m := CrowdedTable();
      CrowdedFails(keys, values, states, hash, m);
    }
  }

  lemma CrowdedFails(keys: seq<nat>, values: seq<nat>, states: seq<nat>, hash: nat -> nat, m: map<nat, nat>)
    requires Loaded(keys, values, states, hash, m, 11) && |m| == DRIFT_LIMIT - 1 && DRIFT_LIMIT !in m && forall x :: hash(x) == 0
    ensures !Lands(keys, states, hash, DRIFT_LIMIT)
  {
    SameHomeFails(keys, values, states, hash, m, 0, DRIFT_LIMIT);
  }

  // ---- samples ----

  /** The samples are the values of active cells before cell i, first to last. */
  ghost predicate SampledCells(cells: seq<nat>, samples: seq<nat>, values: seq<nat>, states: seq<nat>, i: nat)
  {
    |cells| == |samples| && i <= |values| == |states| &&
    (forall j :: 0 <= j < |cells| ==> cells[j] < i && states[cells[j]] > 0 && samples[j] == values[cells[j]]) &&
    forall j, l :: 0 <= j < l < |cells| ==> cells[j] < cells[l]
  }

  lemma SampleMore(cells: seq<nat>, samples: seq<nat>, n: nat, values: seq<nat>, states: seq<nat>, i: nat)
    requires n < |samples| && i < |values| == |states| && states[i] > 0 && samples[n] == values[i]
    requires SampledCells(cells, samples[..n], values, states, i)
    ensures SampledCells(cells + [i], samples[..n + 1], values, states, i + 1)
  {
    assert samples[..n + 1] == samples[..n] + [values[i]];
  }

  lemma SampledWider(cells: seq<nat>, samples: seq<nat>, values: seq<nat>, states: seq<nat>, i: nat)
    requires SampledCells(cells, samples, values, states, i)
    ensures SampledCells(cells, samples, values, states, |values|)
  {
  }

  /** The samples are the values of the first active cells of a table that holds the map. */
  ghost predicate FirstSample<T>(keys: seq<T>, values: seq<nat>, states: seq<nat>, cells: seq<nat>, samples: seq<nat>, i: nat, hash: T -> nat, m: map<T, nat>)
  {
    MapCells(keys, values, states, hash, m) && SampledCells(cells, samples, values, states, i) &&
    |samples| == Active(states[..i]) == SampleSize(|m|) > 0
  }

  /** The amount taken off at a purge of a table of n cells: the median of the values of its first SampleSize active cells. */
  ghost predicate TablePurge<T(!new)>(m: map<T, nat>, hash: T -> nat, n: nat, amount: nat)
  {
    exists keys, values, states, cells, samples, i ::
      |keys| == n && FirstSample(keys, values, states, cells, samples, i, hash, m) && amount == SampleMedian(samples)
  }

  lemma ClearsAll<T>(keys: seq<T>, values: seq<nat>, states: seq<nat>, m: map<T, nat>, amount: nat)
    requires Holds(keys, values, states, m)
    ensures (forall x :: x in m ==> m[x] <= amount) ==> Clears(values, states, amount)
  {
    forall j | 0 <= j < |states| && states[j] > 0
      ensures keys[j] in m && m[keys[j]] == values[j]
    {
      CellInMap(keys, values, states, m, j);
    }
  }

  lemma PurgeAmountOf<T(!new)>(keys: seq<T>, values: seq<nat>, states: seq<nat>, hash: T -> nat, m: map<T, nat>, cells: seq<nat>, samples: seq<nat>)
    requires MapCells(keys, values, states, hash, m) && SampledCells(cells, samples, values, states, |keys|)
    requires |samples| == SampleSize(|m|) > 0
    ensures PurgeAmount(m, SampleMedian(samples))
    ensures exists x :: x in m && m[x] <= SampleMedian(samples)
  {
    var sample := seq(|cells|, i requires 0 <= i < |cells| => keys[cells[i]]);
    forall i | 0 <= i < |sample|
      ensures sample[i] in m && m[sample[i]] == samples[i]
    {
      CellInMap(keys, values, states, m, cells[i]);
    }
    assert Sampled(sample, samples, m);
    var i :| 0 <= i < |samples| && samples[i] == SampleMedian(samples);
    assert m[sample[i]] <= SampleMedian(samples);
  }

  /** A purge by at least the smallest tracked weight removes an item. */
  lemma PurgedSmaller<T>(m: map<T, nat>, amount: nat)
    requires exists x :: x in m && m[x] <= amount
    ensures |Purged(m, amount)| < |m|
  {
    var x :| x in m && m[x] <= amount;
    var p := Purged(m, amount);
    SubsetSize(p.Keys, m.Keys - {x});
    assert |p| == |p.Keys| && |m| == |m.Keys|;
  }

  // ---- re-insertion ----

  lemma HoldsNothing<T>(k: seq<T>, v: seq<nat>, s: seq<nat>)
    requires |k| == |v| == |s|
    ensures Holds(k[..0], v[..0], s[..0], map[])
  {
  }

  lemma HoldsSnocEmpty<T>(k: seq<T>, v: seq<nat>, s: seq<nat>, m: map<T, nat>, i: nat)
    requires i < |k| == |v| == |s| && Holds(k[..i], v[..i], s[..i], m) && s[i] == 0
    ensures Holds(k[..i + 1], v[..i + 1], s[..i + 1], m)
  {
    var k2, v2, s2 := k[..i + 1], v[..i + 1], s[..i + 1];
    forall en | en in AllEntries(k[..i], v[..i], s[..i])
      ensures en in AllEntries(k2, v2, s2)
    {
      var j :| 0 <= j < i && s[..i][j] > 0 && en == Entry(k[..i][j], v[..i][j]);
      assert s2[j] > 0 && en == Entry(k2[j], v2[j]);
    }
  }

  lemma HoldsSnocActive<T>(k: seq<T>, v: seq<nat>, s: seq<nat>, m: map<T, nat>, i: nat)
    requires i < |k| == |v| == |s| && Holds(k[..i], v[..i], s[..i], m) && s[i] > 0 && DistinctKeys(k, s)
    ensures k[i] !in m && Holds(k[..i + 1], v[..i + 1], s[..i + 1], m[k[i] := WeightIn(m, k[i]) + v[i]])
  {
    var k2, v2, s2 := k[..i + 1], v[..i + 1], s[..i + 1];
    if k[i] in m {
      var j := MapInCells(k[..i], v[..i], s[..i], m, k[i]);
    }
    var s3 := s2[i := 0];
    assert s3[..i] == s[..i] && k2[..i] == k[..i] && v2[..i] == v[..i];
    HoldsSnocEmpty(k2, v2, s3, m, i);
    assert k2[..i + 1] == k2 && v2[..i + 1] == v2 && s3[..i + 1] == s3;
    InsertedHolds(k2, v2, s3, m, i, k[i], v[i], s[i]);
    assert k2[i := k[i]] == k2 && v2[i := v[i]] == v2 && s3[i := s[i]] == s2;
  }

  /** Before cell i is re-inserted, fewer than Active(s) items have been. */
  lemma HoldsRoom<T>(k: seq<T>, v: seq<nat>, s: seq<nat>, m: map<T, nat>, i: nat)
    requires i < |k| == |v| == |s| && Holds(k[..i], v[..i], s[..i], m) && s[i] > 0 && DistinctKeys(k, s)
    ensures |m| < Active(s)
  {
    ActiveIsSize(k[..i], v[..i], s[..i], m);
    ActiveSnoc(s, i);
    ActivePrefix(s, i + 1);
  }

  /** What has been re-inserted so far is part of the map. */
  lemma HoldsPart<T>(k: seq<T>, v: seq<nat>, s: seq<nat>, part: map<T, nat>, i: nat, m: map<T, nat>)
    requires i < |k| == |v| == |s| && Holds(k[..i], v[..i], s[..i], part) && s[i] > 0 && Holds(k, v, s, m)
    ensures part.Keys + {k[i]} <= m.Keys
  {
    CellInMap(k, v, s, m, i);
    forall x | x in part
      ensures x in m
    {
      var j := MapInCells(k[..i], v[..i], s[..i], part, x);
      CellInMap(k, v, s, m, j);
    }
  }

  lemma HoldsUnique<T>(k: seq<T>, v: seq<nat>, s: seq<nat>, m: map<T, nat>, m2: map<T, nat>)
    requires Holds(k, v, s, m) && Holds(k, v, s, m2)
    ensures m == m2
  {
    InEntries(m);
    InEntries(m2);
    assert forall x :: x in m ==> Entry(x, m[x]) in EntriesOf(m);
    assert forall x :: x in m2 ==> Entry(x, m2[x]) in EntriesOf(m2);
  }

  lemma EmptyCells<T>(keys: seq<T>, values: seq<nat>, states: seq<nat>, hash: T -> nat)
    requires |keys| == |values| == |states| > 0 && forall j :: 0 <= j < |states| ==> states[j] == 0
    ensures MapCells(keys, values, states, hash, map[]) && Active(states) == 0
  {
    CountEmpty(seq(|states|, j requires 0 <= j < |states| => if states[j] > 0 then 1 else -1));
  }

  // ---- walking the active cells ----

  /** The active cells that the first h strides from cell a meet, in their order. */
  ghost function Walked(states: seq<nat>, a: nat, stride: nat, h: nat): seq<nat>
    requires states != []
  {
    if h == 0 then []
    else
      var c := Spot(a, stride, |states|, h - 1);
      Walked(states, a, stride, h - 1) + if states[c] > 0 then [c] else []
  }

  /** The lowest active cell. */
  function FirstActive(states: seq<nat>, from: nat): (a: nat)
    requires from <= |states|
    ensures from <= a <= |states| && (forall j :: from <= j < a ==> states[j] == 0) && (a < |states| ==> states[a] > 0)
    decreases |states| - from
  {
    if from == |states| || states[from] > 0 then from else FirstActive(states, from + 1)
  }

  /** The order of the iterator: from the lowest active cell on in golden-ratio strides. */
  ghost function IterationOrder(states: seq<nat>): seq<nat>
  {
    if states == [] || FirstActive(states, 0) == |states| then [] else Walked(states, FirstActive(states, 0), GoldenStride(|states|), |states|)
  }

  /** The cells visited by the first h steps of a walk from slot a: exactly the active ones, each once. */
  ghost predicate Visited(cells: seq<nat>, states: seq<nat>, a: nat, stride: nat, h: nat)
    requires states != []
  {
    (forall i, j :: 0 <= i < j < |cells| ==> cells[i] != cells[j]) &&
    (forall i :: 0 <= i < |cells| ==> cells[i] < |states| && states[cells[i]] > 0 && StepOf(cells[i], |states|, a, stride, h)) &&
    (forall g :: 0 <= g < h && states[Spot(a, stride, |states|, g)] > 0 ==> Spot(a, stride, |states|, g) in cells)
  }

  ghost predicate StepOf(c: nat, n: nat, a: nat, stride: nat, h: nat)
    requires n > 0
  {
    exists g: nat :: g < h && Spot(a, stride, n, g) == c
  }

  lemma VisitNew(cells: seq<nat>, states: seq<nat>, lg: nat, a: nat, stride: nat, h: nat)
    requires |states| == Pow2(lg) && stride % 2 == 1 && h < |states| && Visited(cells, states, a, stride, h)
    requires states[Spot(a, stride, |states|, h)] > 0
    ensures Visited(cells + [Spot(a, stride, |states|, h)], states, a, stride, h + 1)
  {
    hide Spot;
    var c := Spot(a, stride, |states|, h);
    forall i | 0 <= i < |cells|
      ensures cells[i] != c && StepOf(cells[i], |states|, a, stride, h + 1)
    {
      var g: nat :| g < h && Spot(a, stride, |states|, g) == cells[i];
      if cells[i] == c {
        StrideInjective(a, stride, lg, g, h);
      }
    }
    assert StepOf(c, |states|, a, stride, h + 1);
  }

  lemma VisitEmpty(cells: seq<nat>, states: seq<nat>, a: nat, stride: nat, h: nat)
    requires states != [] && Visited(cells, states, a, stride, h) && states[Spot(a, stride, |states|, h)] == 0
    ensures Visited(cells, states, a, stride, h + 1)
  {
    hide Spot;
    forall i | 0 <= i < |cells|
      ensures StepOf(cells[i], |states|, a, stride, h + 1)
    {
      var g: nat :| g < h && Spot(a, stride, |states|, g) == cells[i];
    }
  }

  ghost function ActiveSet(states: seq<nat>, n: nat): set<nat>
    requires n <= |states|
  {
    set j | 0 <= j < n && states[j] > 0
  }

  lemma {:induction false} ActiveSetSize(states: seq<nat>, n: nat)
    requires n <= |states|
    ensures |ActiveSet(states, n)| == Active(states[..n])
  {
    if n > 0 {
      ActiveSetSize(states, n - 1);
      ActiveSnoc(states, n - 1);
      assert ActiveSet(states, n) == ActiveSet(states, n - 1) + if states[n - 1] > 0 then {n - 1} else {};
    } else {
      assert ActiveSet(states, 0) == {};
      ActiveNone(states[..0]);
    }
  }

  ghost function Elements(cells: seq<nat>): set<nat>
  {
    set i | 0 <= i < |cells| :: cells[i]
  }

  lemma {:induction false} DistinctSize(cells: seq<nat>)
    requires forall i, j :: 0 <= i < j < |cells| ==> cells[i] != cells[j]
    ensures |Elements(cells)| == |cells|
  {
    if cells != [] {
      var n := |cells| - 1;
      DistinctSize(cells[..n]);
      var last := cells[n];
      assert last !in Elements(cells[..n]);
      assert cells == cells[..n] + [last];
      ElementsSnoc(cells[..n], last);
    }
  }

  lemma ElementsSnoc(cells: seq<nat>, last: nat)
    ensures Elements(cells + [last]) == Elements(cells) + {last}
  {
    var more := cells + [last];
    assert more[|cells|] == last;
    forall c | c in Elements(cells)
      ensures c in Elements(more)
    {
      var i :| 0 <= i < |cells| && cells[i] == c;
      assert more[i] == c;
    }
  }

  /** All active cells are visited once as many cells are visited as are active, and not before. */
  lemma VisitedCount(cells: seq<nat>, states: seq<nat>, a: nat, stride: nat, h: nat)
    requires states != [] && Visited(cells, states, a, stride, h)
    ensures |Elements(cells)| == |cells| && Elements(cells) <= ActiveSet(states, |states|) && |ActiveSet(states, |states|)| == Active(states)
  {
    hide Active, Spot, StepOf;
    ActiveSetSize(states, |states|);
    assert states[..|states|] == states;
    DistinctSize(cells);
  }

  /** Fewer visited cells than active cells leave an active cell that a later step visits. */
  lemma VisitAhead(cells: seq<nat>, states: seq<nat>, lg: nat, a: nat, stride: nat, h: nat) returns (ahead: nat)
    requires |states| == Pow2(lg) && stride % 2 == 1 && a < |states| && Visited(cells, states, a, stride, h)
    requires |cells| < Active(states)
    ensures h <= ahead < |states| && states[Spot(a, stride, |states|, ahead)] > 0
  {
    hide Spot;
    hide Active;
    VisitedCount(cells, states, a, stride, h);
    if ActiveSet(states, |states|) <= Elements(cells) {
      SubsetSize(ActiveSet(states, |states|), Elements(cells));
    }
    var c :| c in ActiveSet(states, |states|) && c !in Elements(cells);
    ahead := StrideReaches(a, stride, lg, c);
  }

  /** As many visited cells as active cells are all the active cells. */
  lemma VisitedAll(cells: seq<nat>, states: seq<nat>, a: nat, stride: nat, h: nat)
    requires states != [] && Visited(cells, states, a, stride, h) && |cells| == Active(states)
    ensures forall j :: 0 <= j < |states| && states[j] > 0 ==> j in cells
  {
    hide Active, Visited;
    VisitedCount(cells, states, a, stride, h);
    SubsetEqual(Elements(cells), ActiveSet(states, |states|));
    forall j | 0 <= j < |states| && states[j] > 0
      ensures j in cells
    {
      assert j in ActiveSet(states, |states|);
    }
  }

  /** The visited cells are active, each visited once and at an earlier step. */
  lemma VisitedCells(cells: seq<nat>, states: seq<nat>, a: nat, stride: nat, h: nat)
    requires states != [] && Visited(cells, states, a, stride, h)
    ensures forall i, j :: 0 <= i < j < |cells| ==> cells[i] != cells[j]
    ensures forall i :: 0 <= i < |cells| ==> cells[i] < |states| && states[cells[i]] > 0 && StepOf(cells[i], |states|, a, stride, h)
  {
    hide Spot, StepOf;
  }

  /** One more stride, to an active cell or an empty one. */
  lemma WalkedNext(states: seq<nat>, a: nat, stride: nat, h: nat)
    requires states != []
    ensures var c := Spot(a, stride, |states|, h); Walked(states, a, stride, h + 1) == Walked(states, a, stride, h) + if states[c] > 0 then [c] else []
    ensures Walked(states, a, stride, 0) == []
  {
    hide Spot;
  }

  /** After that the strides meet no active cell any more. */
  lemma {:induction false} WalkedRest(cells: seq<nat>, states: seq<nat>, lg: nat, a: nat, stride: nat, h: nat, n: nat)
    requires |states| == Pow2(lg) && stride % 2 == 1 && h <= n <= |states| && Visited(cells, states, a, stride, h) && |cells| == Active(states)
    requires cells == Walked(states, a, stride, h)
    ensures Walked(states, a, stride, n) == cells
    decreases n
  {
    hide Spot, Active, Visited, Walked;
    if h < n {
      WalkedRest(cells, states, lg, a, stride, h, n - 1);
      WalkedNext(states, a, stride, n - 1);
      var c := Spot(a, stride, |states|, n - 1);
      if states[c] > 0 {
        VisitedAll(cells, states, a, stride, h);
        VisitedCells(cells, states, a, stride, h);
        var i :| 0 <= i < |cells| && cells[i] == c;
        var g: nat :| g < h && Spot(a, stride, |states|, g) == c;
        StrideInjective(a, stride, lg, g, n - 1);
      }
    }
  }

  /** The inner loop of operator++ of the iterator: on to the next active cell. */
  method NextActive(states: array<nat>, index: nat, stride: nat, ghost cells: seq<nat>, ghost lg: nat, ghost a: nat, ghost h: nat)
    returns (index': nat, ghost h': nat)
    requires states.Length == Pow2(lg) && stride % 2 == 1 && a < states.Length && index == Spot(a, stride, states.Length, h)
    requires Visited(cells, states[..], a, stride, h + 1) && |cells| < Active(states[..]) && cells == Walked(states[..], a, stride, h + 1)
    ensures h' < states.Length && index' == Spot(a, stride, states.Length, h') && states[index'] > 0
    ensures Visited(cells, states[..], a, stride, h') && cells == Walked(states[..], a, stride, h')
  {
    hide Spot, Active, Visited, Walked;
    ghost var ahead := VisitAhead(cells, states[..], lg, a, stride, h + 1);
    StrideNext(a, stride, states.Length, h);
    index', h' := (index + stride) % states.Length, h + 1;
    while states[index'] == 0
      invariant h' <= ahead && index' == Spot(a, stride, states.Length, h')
      invariant Visited(cells, states[..], a, stride, h') && cells == Walked(states[..], a, stride, h')
      decreases ahead - h'
    {
      WalkedNext(states[..], a, stride, h');
      VisitEmpty(cells, states[..], a, stride, h');
      StrideNext(a, stride, states.Length, h');
      index', h' := (index' + stride) % states.Length, h' + 1;
    }
  }

  /** The cells met by a loop from begin() to end() of a map with a table of 2^lg cells: every active cell exactly once. */
  method Traverse(states: array<nat>, numActive: nat, ghost lg: nat) returns (cells: seq<nat>)
    requires states.Length == Pow2(lg) && numActive == Active(states[..])
    ensures forall i, j :: 0 <= i < j < |cells| ==> cells[i] != cells[j]
    ensures forall i :: 0 <= i < |cells| ==> cells[i] < states.Length && states[cells[i]] > 0
    ensures forall j :: 0 <= j < states.Length && states[j] > 0 ==> j in cells
    ensures cells == IterationOrder(states[..])
  {
    var a: nat := 0;
    while a < states.Length && states[a] == 0
      invariant a <= states.Length && forall j :: 0 <= j < a ==> states[j] == 0
    {
      a := a + 1;
    }
    cells := [];
    FirstIs(states[..], a);
    if a == states.Length {
      return;
    }
    var stride := GoldenStride(states.Length);
    cells := WalkActive(states, numActive, a, stride, lg);
  }

  lemma NoneVisited(states: seq<nat>, a: nat, stride: nat)
    requires states != []
    ensures Visited([], states, a, stride, 0) && Walked(states, a, stride, 0) == []
  {
    hide Spot;
  }

  lemma FirstIs(states: seq<nat>, a: nat)
    requires a <= |states| && (forall j :: 0 <= j < a ==> states[j] == 0) && (a < |states| ==> states[a] > 0)
    ensures FirstActive(states, 0) == a
  {
  }

  method WalkActive(states: array<nat>, numActive: nat, a: nat, stride: nat, ghost lg: nat) returns (cells: seq<nat>)
    requires states.Length == Pow2(lg) && numActive == Active(states[..]) && stride % 2 == 1
    requires a < states.Length && states[a] > 0
    ensures forall i, j :: 0 <= i < j < |cells| ==> cells[i] != cells[j]
    ensures forall i :: 0 <= i < |cells| ==> cells[i] < states.Length && states[cells[i]] > 0
    ensures forall j :: 0 <= j < states.Length && states[j] > 0 ==> j in cells
    ensures cells == Walked(states[..], a, stride, states.Length)
  {
    hide Spot, Active, Visited, Walked;
    cells := [];
    NoneVisited(states[..], a, stride);
    var index: nat := a;
    ghost var h: nat := 0;
    StrideStart(a, stride, states.Length);
    while |cells| < numActive
      invariant |cells| <= numActive && Visited(cells, states[..], a, stride, h) && h <= states.Length
      invariant cells == Walked(states[..], a, stride, h)
      invariant |cells| < numActive ==> h < states.Length && index == Spot(a, stride, states.Length, h) && states[index] > 0
      decreases numActive - |cells|
    {
      VisitNew(cells, states[..], lg, a, stride, h);
      WalkedNext(states[..], a, stride, h);
      cells := cells + [index];
      h := h + 1;
      if |cells| < numActive {
        index, h := NextActive(states, index, stride, cells, lg, a, h - 1);
      }
    }
    VisitedAll(cells, states[..], a, stride, h);
    VisitedCells(cells, states[..], a, stride, h);
    WalkedRest(cells, states[..], lg, a, stride, h, states.Length);
  }
}
