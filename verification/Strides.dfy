/** Walking a power-of-two table with an odd stride visits every slot exactly once. */
module Strides {
  import opened Words

  /** t is the inverse of s modulo n. */
  predicate Inverse(s: nat, t: nat, m: int, n: nat) { s * t == n * m + 1 }

  lemma {:induction false} OddInverse(s: nat, k: nat) returns (t: nat, m: int)
    requires s % 2 == 1
    ensures Inverse(s, t, m, Pow2(k))
  {
    if k == 0 {
      t, m := 1, s - 1;
    } else {
      t, m := OddInverse(s, k - 1);
      var p := Pow2(k - 1);
      if m % 2 == 0 {
        m := m / 2;
        HalfProduct(p, m);
      } else {
        OddStep(s, t, m, p);
        t, m := t + p, (m + s) / 2;
      }
    }
  }

  lemma HalfProduct(p: nat, h: int)
    ensures (2 * p) * h == p * (2 * h)
  {
  }

  lemma OddStep(s: nat, t: nat, m: int, p: nat)
    requires s * t == p * m + 1 && m % 2 == 1 && s % 2 == 1
    ensures s * (t + p) == (2 * p) * ((m + s) / 2) + 1
  {
    assert s * (t + p) == s * t + p * s;
    assert p * m + p * s == p * (m + s);
    HalfProduct(p, (m + s) / 2);
  }

  /** A multiple of n strictly between -n and n is zero. */
  lemma SmallMultiple(x: int, n: nat, z: int)
    requires n >= 1 && x == n * z && -(n as int) < x < n
    ensures x == 0
  {
    if z > 0 {
      MulStep(n, 0, z);
    } else if z < 0 {
      MulStep(n, z, 0);
    }
  }

  lemma Regroup(x: int, s: nat, t: nat, m: int, n: nat, z: int)
    requires Inverse(s, t, m, n) && x * s == n * z
    ensures x == n * (z * t - x * m)
  {
    calc {
      x * (n * m + 1);
      x * (s * t);
      (x * s) * t;
      (n * z) * t;
      n * (z * t);
    }
    assert x * (n * m + 1) == n * (x * m) + x;
    assert n * (z * t - x * m) == n * (z * t) - n * (x * m);
  }

  lemma Difference(a: nat, i: nat, j: nat, s: nat, n: nat, qi: nat, qj: nat, r: nat)
    requires a + i * s == n * qi + r && a + j * s == n * qj + r
    ensures (i - j) * s == n * (qi - qj)
  {
    assert (i - j) * s == i * s - j * s;
    assert n * (qi - qj) == n * qi - n * qj;
  }

  lemma SameResidue(a: nat, i: nat, j: nat, s: nat, n: nat, qi: nat, qj: nat, r: nat, t: nat, m: int)
    requires a + i * s == n * qi + r && a + j * s == n * qj + r
    requires Inverse(s, t, m, n) && i < n && j < n
    ensures i == j
  {
    Difference(a, i, j, s, n, qi, qj, r);
    Regroup(i - j, s, t, m, n, qi - qj);
    SmallMultiple(i - j, n, (qi - qj) * t - (i - j) * m);
  }

  /** The slot reached from slot a by i strides, on a circle of n slots. */
  function Spot(a: nat, s: nat, n: nat, i: nat): (p: nat)
    requires n > 0
    ensures p < n
  {
    (a + i * s) % n
  }

  /** No slot is visited twice. */
  lemma StrideInjective(a: nat, s: nat, k: nat, i: nat, j: nat)
    requires s % 2 == 1 && i < Pow2(k) && j < Pow2(k)
    requires Spot(a, s, Pow2(k), i) == Spot(a, s, Pow2(k), j)
    ensures i == j
  {
    hide Pow2, Inverse, Spot;
    var t, m := OddInverse(s, k);
    var qi := SpotQuotient(a, s, Pow2(k), i);
    var qj := SpotQuotient(a, s, Pow2(k), j);
    SameResidue(a, i, j, s, Pow2(k), qi, qj, Spot(a, s, Pow2(k), i), t, m);
  }

  lemma SpotQuotient(a: nat, s: nat, n: nat, i: nat) returns (q: nat)
    requires n >= 1
    ensures a + i * s == n * q + Spot(a, s, n, i)
  {
    var r;
    q, r := Quotient(a + i * s, n);
  }

  lemma Reach(p: nat, s: nat, t: nat, m: int, n: nat, q: nat, i: nat) returns (z: int)
    requires Inverse(s, t, m, n) && p * t == n * q + i
    ensures i * s == n * z + p
  {
    z := p * m - q * s;
    calc {
      i * s;
      (p * t - n * q) * s;
      (p * t) * s - (n * q) * s;
      p * (s * t) - n * (q * s);
      p * (n * m + 1) - n * (q * s);
      n * (p * m) + p - n * (q * s);
      n * (p * m - q * s) + p;
    }
  }

  lemma ReachFrom(a: nat, p: nat, n: nat, x: nat, z: int)
    requires a < n && p < n && x == n * z + (if p >= a then p - a else p - a + n)
    ensures (a + x) % n == p
  {
    if p < a {
      OneMore(n, z);
    }
    Residue(a + x, n, if p >= a then z else z + 1, p);
  }

  lemma TimesInverse(n: nat, p: nat, t: nat) returns (q: nat, i: nat)
    requires n >= 1
    ensures p * t == n * q + i && i < n
  {
    q, i := Quotient(p * t, n);
  }

  /** Every slot is visited. */
  lemma StrideReaches(a: nat, s: nat, k: nat, p: nat) returns (i: nat)
    requires s % 2 == 1 && a < Pow2(k) && p < Pow2(k)
    ensures i < Pow2(k) && Spot(a, s, Pow2(k), i) == p
  {
    var t, m := OddInverse(s, k);
    var away := if p >= a then p - a else p - a + Pow2(k);
    var q;
    q, i := TimesInverse(Pow2(k), away, t);
    var z := Reach(away, s, t, m, Pow2(k), q, i);
    ReachFrom(a, p, Pow2(k), i * s, z);
  }

  lemma OneMore(n: nat, z: int)
    ensures n * (z + 1) == n * z + n
  {
  }

  lemma Residue(x: nat, n: nat, z: int, p: nat)
    requires p < n && x == n * z + p
    ensures x % n == p
  {
    if z < 0 {
      MulStep(n, z, 0);
    }
    DivUnique(x, n, z, p);
  }

  lemma StrideStart(a: nat, s: nat, n: nat)
    requires a < n
    ensures Spot(a, s, n, 0) == a
  {
    DivUnique(a, n, 0, a);
  }

  /** One more step of the walk. */
  lemma StrideNext(a: nat, s: nat, n: nat, i: nat)
    requires n >= 1
    ensures (Spot(a, s, n, i) + s) % n == Spot(a, s, n, i + 1)
  {
    var q, r := Quotient(a + i * s, n);
    var q2, r2 := Quotient(r + s, n);
    NextStep(a, i, s, n, q, r, q2, r2);
    DivUnique(a + (i + 1) * s, n, q + q2, r2);
  }

  lemma NextStep(a: nat, i: nat, s: nat, n: nat, q: nat, r: nat, q2: nat, r2: nat)
    requires a + i * s == n * q + r && r + s == n * q2 + r2
    ensures a + (i + 1) * s == n * (q + q2) + r2
  {
    assert (i + 1) * s == i * s + s;
    assert n * (q + q2) == n * q + n * q2;
  }

  /** The golden ratio of a table size. */
  function Golden(numSlots: nat): nat
  {
    (0.6180339887498949025 * (numSlots as real)).Floor
  }

  /** The stride of a walk over a table: the golden ratio of its size, made odd. */
  function GoldenStride(numSlots: nat): (stride: nat)
    ensures stride % 2 == 1
  {
    MadeOdd(Golden(numSlots))
  }

  /** A table of at least 4 slots has a stride in range: none of the three checks of the walk can throw. */
  lemma GoldenRange(numSlots: nat)
    requires numSlots >= 4
    ensures Golden(numSlots) >= 2 && 3 <= GoldenStride(numSlots) < numSlots
  {
    var x := 0.6180339887498949025 * (numSlots as real);
    assert x >= 2.0 && x < (numSlots as real) - 1.0;
  }

  /** The stride is within one of the golden ratio of the size. */
  lemma GoldenNear(numSlots: nat)
    ensures -1.0 < GoldenStride(numSlots) as real - 0.6180339887498949025 * (numSlots as real) <= 1.0
  {
  }

  function MadeOdd(n: nat): (stride: nat)
    ensures stride % 2 == 1
  {
    if n % 2 == 0 then n + 1 else n
  }
}
