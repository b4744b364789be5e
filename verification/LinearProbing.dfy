/**
 * Linear probing on a circular table, seen through the home slots of its occupants.
 * A table is a sequence `g`: `g[j]` is the home slot of the occupant of slot j, or -1 when slot j is empty.
 */
module LinearProbing {

  /** How many steps forward slot p lies from slot a on a circle of n slots. */
  function Dist(n: nat, a: nat, p: nat): (d: nat)
    requires a < n && p < n
    ensures d < n
  {
    if p >= a then p - a else p - a + n
  }

  function Next(n: nat, p: nat): (q: nat)
    requires p < n
    ensures q < n
  {
    if p + 1 == n then 0 else p + 1
  }

  ghost predicate Homes(g: seq<int>)
  {
    forall j :: 0 <= j < |g| ==> -1 <= g[j] < |g|
  }

  /** Slot p lies on the probe path of the occupant of slot j, strictly before j. */
  ghost predicate OnPath(g: seq<int>, j: nat, p: nat)
    requires Homes(g) && j < |g| && p < |g|
  {
    g[j] >= 0 && Dist(|g|, g[j], p) < Dist(|g|, g[j], j)
  }

  /** Every occupant is reached from its home without meeting an empty slot. */
  ghost predicate Reach(g: seq<int>)
  {
    Homes(g) &&
    forall j, p :: 0 <= j < |g| && 0 <= p < |g| && OnPath(g, j, p) ==> g[p] >= 0
  }

  /** All slots from h up to, not including, t are occupied. */
  ghost predicate Run(g: seq<int>, h: nat, t: nat)
    requires h < |g| && t < |g|
  {
    forall p :: 0 <= p < |g| && Dist(|g|, h, p) < Dist(|g|, h, t) ==> g[p] >= 0
  }

  lemma InsertKeepsReach(g: seq<int>, h: nat, t: nat)
    requires Reach(g) && h < |g| && t < |g|
    requires g[t] < 0 && Run(g, h, t)
    ensures Reach(g[t := h])
  {
    var g2 := g[t := h];
    forall j, p | 0 <= j < |g| && 0 <= p < |g| && OnPath(g2, j, p)
      ensures g2[p] >= 0
    {
      if j != t {
        assert OnPath(g, j, p);
      }
    }
  }

  // ---- occupancy ----

  function Count(g: seq<int>): (c: nat)
    ensures c <= |g|
  {
    if g == [] then 0
    else Count(g[..|g| - 1]) + (if g[|g| - 1] >= 0 then 1 else 0)
  }

  lemma {:induction false} CountUpdate(g: seq<int>, i: nat, x: int)
    requires i < |g|
    ensures Count(g[i := x]) == Count(g) - (if g[i] >= 0 then 1 else 0) + (if x >= 0 then 1 else 0)
  {
    var n := |g| - 1;
    if i == n {
      assert g[i := x][..n] == g[..n];
    } else {
      CountUpdate(g[..n], i, x);
      assert g[i := x][..n] == g[..n][i := x];
    }
  }

  lemma {:induction false} CountFull(g: seq<int>)
    requires forall j :: 0 <= j < |g| ==> g[j] >= 0
    ensures Count(g) == |g|
  {
    if g != [] {
      CountFull(g[..|g| - 1]);
    }
  }

  lemma {:induction false} CountEmpty(g: seq<int>)
    requires forall j :: 0 <= j < |g| ==> g[j] < 0
    ensures Count(g) == 0
  {
    if g != [] {
      CountEmpty(g[..|g| - 1]);
    }
  }

  lemma {:induction false} CountPositive(g: seq<int>, j: nat)
    requires j < |g| && g[j] >= 0
    ensures Count(g) > 0
  {
    if j < |g| - 1 {
      CountPositive(g[..|g| - 1], j);
    }
  }

  lemma HasEmpty(g: seq<int>) returns (e: nat)
    requires Count(g) < |g|
    ensures e < |g| && g[e] < 0
  {
    if forall j :: 0 <= j < |g| ==> g[j] >= 0 {
      CountFull(g);
      assert false;
    }
    e :| 0 <= e < |g| && g[e] < 0;
  }

  /** How many cells are active. */
  function Active(states: seq<nat>): nat
  {
    Count(seq(|states|, j requires 0 <= j < |states| => if states[j] > 0 then 1 else -1))
  }

  lemma ActiveUpdate(states: seq<nat>, i: nat, x: nat)
    requires i < |states|
    ensures Active(states[i := x]) == Active(states) - (if states[i] > 0 then 1 else 0) + (if x > 0 then 1 else 0)
  {
    var a := seq(|states|, j requires 0 <= j < |states| => if states[j] > 0 then 1 else -1);
    var states2 := states[i := x];
    var b := seq(|states2|, j requires 0 <= j < |states2| => if states2[j] > 0 then 1 else -1);
    var y := if x > 0 then 1 else -1;
    assert b == a[i := y];
    CountUpdate(a, i, y);
  }

  lemma SomeEmpty(states: seq<nat>) returns (e: nat)
    requires Active(states) < |states|
    ensures e < |states| && states[e] == 0
  {
    e := HasEmpty(seq(|states|, j requires 0 <= j < |states| => if states[j] > 0 then 1 else -1));
  }

  lemma ActiveNone(states: seq<nat>)
    requires states == []
    ensures Active(states) == 0
  {
  }

  lemma ActiveSnoc(states: seq<nat>, i: nat)
    requires i < |states|
    ensures Active(states[..i + 1]) == Active(states[..i]) + if states[i] > 0 then 1 else 0
  {
    var a := seq(i + 1, j requires 0 <= j < i + 1 => if states[..i + 1][j] > 0 then 1 else -1);
    assert a[..i] == seq(i, j requires 0 <= j < i => if states[..i][j] > 0 then 1 else -1);
  }

  lemma {:induction false} ActivePrefix(s: seq<nat>, i: nat)
    requires i <= |s|
    ensures Active(s[..i]) <= Active(s)
    decreases |s| - i
  {
    if i == |s| {
      assert s[..i] == s;
    } else {
      ActiveSnoc(s, i);
      ActivePrefix(s, i + 1);
    }
  }

  /** The first empty slot at or after f, going round. */
  lemma NextEmpty(g: seq<int>, f: nat) returns (e: nat)
    requires f < |g|
    requires exists i :: 0 <= i < |g| && g[i] < 0
    ensures e < |g| && g[e] < 0 && Run(g, f, e)
  {
    var i: nat :| i < |g| && g[i] < 0;
    e := f;
    while g[e] >= 0
      invariant e < |g| && Run(g, f, e)
      invariant Dist(|g|, f, e) <= Dist(|g|, f, i)
      decreases Dist(|g|, f, i) - Dist(|g|, f, e)
    {
      e := Next(|g|, e);
    }
  }

  // ---- deletion by clearing a slot and re-inserting the rest of its cluster ----

  /** Slots q..e-1, counted from the freed slot f, still wait to be re-inserted; only their paths may cross f..q-1. */
  ghost predicate Pending(g: seq<int>, f: nat, q: nat, e: nat)
  {
    Homes(g) && f < |g| && q < |g| && e < |g| && e != f &&
    Dist(|g|, f, q) <= Dist(|g|, f, e) && q != f &&
    g[e] < 0 &&
    (forall j :: 0 <= j < |g| && Dist(|g|, f, q) <= Dist(|g|, f, j) < Dist(|g|, f, e) ==> g[j] >= 0) &&
    (forall j, p :: 0 <= j < |g| && 0 <= p < |g| && OnPath(g, j, p) ==>
      g[p] >= 0 ||
      (Dist(|g|, f, q) <= Dist(|g|, f, j) < Dist(|g|, f, e) && Dist(|g|, f, p) < Dist(|g|, f, q)))
  }

  lemma StartPending(g: seq<int>, f: nat, e: nat)
    requires Reach(g) && f < |g| && e < |g| && g[f] >= 0 && g[e] < 0
    requires Run(g, f, e)
    ensures Pending(g[f := -1], f, Next(|g|, f), e)
  {
    var g2 := g[f := -1];
    forall j, p | 0 <= j < |g| && 0 <= p < |g| && OnPath(g2, j, p) && g2[p] < 0
      ensures p == f && Dist(|g|, f, Next(|g|, f)) <= Dist(|g|, f, j) < Dist(|g|, f, e)
    {
      assert OnPath(g, j, p);
      assert !OnPath(g, j, e);
    }
  }

  /** Walking from h through q to j without passing e keeps j between q and e, also when counted from f. */
  lemma Between(n: nat, f: nat, q: nat, e: nat, h: nat, j: nat)
    requires f < n && q < n && e < n && h < n && j < n
    requires Dist(n, f, q) < Dist(n, f, e)
    requires Dist(n, h, q) < Dist(n, h, j) <= Dist(n, h, e)
    ensures Dist(n, f, q) < Dist(n, f, j) <= Dist(n, f, e)
    ensures Dist(n, q, j) <= Dist(n, q, e)
    ensures q != j
  {
  }

  /** The first empty slot on the path of the occupant lifted from q is q itself or a slot freed before it. */
  lemma StepTarget(g: seq<int>, f: nat, q: nat, e: nat, t: nat)
    requires Pending(g, f, q, e) && q != e && t < |g|
    requires g[q := -1][t] < 0 && Run(g[q := -1], g[q], t)
    ensures t != e && Dist(|g|, f, t) <= Dist(|g|, f, q)
    ensures t != q ==> OnPath(g, q, t)
  {
    assert !OnPath(g, q, e);
    var lifted := g[q := -1][q];
  }

  lemma StepPath(g: seq<int>, f: nat, q: nat, e: nat, t: nat, j: nat, p: nat)
    requires Pending(g, f, q, e) && q != e && t < |g|
    requires g[q := -1][t] < 0 && Run(g[q := -1], g[q], t)
    requires j < |g| && p < |g| && OnPath(g[q := -1][t := g[q]], j, p) && g[q := -1][t := g[q]][p] < 0
    ensures Dist(|g|, f, q) < Dist(|g|, f, j) < Dist(|g|, f, e)
    ensures Dist(|g|, f, p) <= Dist(|g|, f, q)
  {
    var there := g[q := -1][p];
    if j != t {
      assert OnPath(g, j, p);
      if p == q {
        assert !OnPath(g, j, e);
        Between(|g|, f, q, e, g[j], j);
      }
    }
  }

  lemma StepPending(g: seq<int>, f: nat, q: nat, e: nat, t: nat)
    requires Pending(g, f, q, e) && q != e && t < |g|
    requires g[q := -1][t] < 0 && Run(g[q := -1], g[q], t)
    ensures Pending(g[q := -1][t := g[q]], f, Next(|g|, q), e)
  {
    var g2 := g[q := -1][t := g[q]];
    StepTarget(g, f, q, e, t);
    forall j, p | 0 <= j < |g| && 0 <= p < |g| && OnPath(g2, j, p) && g2[p] < 0
      ensures Dist(|g|, f, q) < Dist(|g|, f, j) < Dist(|g|, f, e) && Dist(|g|, f, p) <= Dist(|g|, f, q)
    {
      StepPath(g, f, q, e, t, j, p);
    }
  }

  lemma DonePending(g: seq<int>, f: nat, e: nat)
    requires Pending(g, f, e, e)
    ensures Reach(g)
  {
  }

  // ---- deletion by backward shift ----

  /** Slot f is a hole; only occupants of q..e-1, counted from f, may have the hole on their path. */
  ghost predicate Hole(g: seq<int>, f: nat, q: nat, e: nat)
  {
    Homes(g) && f < |g| && q < |g| && e < |g| && e != f && q != f &&
    Dist(|g|, f, q) <= Dist(|g|, f, e) &&
    g[f] < 0 && g[e] < 0 &&
    (forall j :: 0 <= j < |g| && 0 < Dist(|g|, f, j) < Dist(|g|, f, e) ==> g[j] >= 0) &&
    (forall j, p :: 0 <= j < |g| && 0 <= p < |g| && OnPath(g, j, p) ==>
      g[p] >= 0 || (p == f && Dist(|g|, f, q) <= Dist(|g|, f, j) < Dist(|g|, f, e)))
  }

  lemma StartHole(g: seq<int>, f: nat, e: nat)
    requires Reach(g) && f < |g| && e < |g| && g[f] >= 0 && g[e] < 0
    requires Run(g, f, e)
    ensures Hole(g[f := -1], f, Next(|g|, f), e)
  {
    StartPending(g, f, e);
  }

  lemma SkipHole(g: seq<int>, f: nat, q: nat, e: nat)
    requires Hole(g, f, q, e) && q != e && !OnPath(g, q, f)
    ensures Hole(g, f, Next(|g|, q), e)
  {
  }

  lemma MovePath(g: seq<int>, f: nat, q: nat, e: nat, j: nat, p: nat)
    requires Hole(g, f, q, e) && q != e && OnPath(g, q, f)
    requires j < |g| && p < |g| && OnPath(g[f := g[q]][q := -1], j, p) && g[f := g[q]][q := -1][p] < 0
    ensures p == q && Dist(|g|, f, q) < Dist(|g|, f, j) < Dist(|g|, f, e)
  {
    if j == f {
      assert OnPath(g, q, p);
    } else {
      assert OnPath(g, j, p);
      if p == q {
        assert !OnPath(g, j, e);
        Between(|g|, f, q, e, g[j], j);
      }
    }
  }

  lemma MoveHole(g: seq<int>, f: nat, q: nat, e: nat)
    requires Hole(g, f, q, e) && q != e && OnPath(g, q, f)
    ensures Hole(g[f := g[q]][q := -1], q, Next(|g|, q), e)
  {
    hide OnPath;
    var g2 := g[f := g[q]][q := -1];
    MovedDistances(|g|, f, q, e);
    forall j, p | 0 <= j < |g| && 0 <= p < |g| && OnPath(g2, j, p) && g2[p] < 0
      ensures p == q && Dist(|g|, f, q) < Dist(|g|, f, j) < Dist(|g|, f, e)
    {
      MovePath(g, f, q, e, j, p);
    }
  }

  /** Distances from the new hole, behind the old one. */
  lemma MovedDistances(n: nat, f: nat, q: nat, e: nat)
    requires f < n && q < n && e < n && q != f && q != e && Dist(n, f, q) <= Dist(n, f, e)
    ensures Dist(n, q, Next(n, q)) == 1 <= Dist(n, q, e)
    ensures forall j :: 0 <= j < n && 0 < Dist(n, q, j) < Dist(n, q, e) ==> Dist(n, f, q) < Dist(n, f, j) < Dist(n, f, e)
    ensures forall j :: 0 <= j < n && Dist(n, f, q) < Dist(n, f, j) < Dist(n, f, e) ==> 1 <= Dist(n, q, j) < Dist(n, q, e)
  {
  }

  lemma DoneHole(g: seq<int>, f: nat, e: nat)
    requires Hole(g, f, e, e)
    ensures Reach(g)
  {
  }
}
