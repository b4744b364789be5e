/** The CPC union gadget: cpc/src/fm85Merging.cpp. */
module Merging {
  import opened Sets
  import opened Words
  import opened U32Tables
  import opened Coupons
  import opened Fm85Sketch
  import opened Folding
  import opened Strides
  import opened BitCounts

  // ---- OR-ing parts of a source into a matrix of at most as many rows ----

  /** One row gains the bits of `row`: the matrix gains the corresponding pairs. */
  lemma OrRow(m: seq<nat>, S: set<nat>, lgK: nat, r: nat, row: nat, more: set<nat>)
    requires MatrixOf(m, S, lgK) && r < |m|
    requires forall c :: 0 <= c ==> Bit(row, c) == (c < 64 && Pair(r, c) in more)
    requires forall rc :: rc in more ==> Row(rc) == r
    ensures MatrixOf(m[r := Or(m[r], row)], S + more, lgK)
  {
    var m2 := m[r := Or(m[r], row)];
    forall i, c: nat | 0 <= i < |m2| && 0 <= c
      ensures Bit(m2[i], c) == (c < 64 && Pair(i, c) in S + more)
    {
      BitOr(m[r], row, c);
      assert Bit(m[i], c) == (c < 64 && Pair(i, c) in S);
    }
  }

  lemma OnePairRow(rc: nat)
    ensures forall c :: 0 <= c ==> Bit(Pow2(Col(rc)), c) == (c < 64 && Pair(Row(rc), c) in {rc})
  {
    assert rc == Pair(Row(rc), Col(rc));
    forall c: nat
      ensures Bit(Pow2(Col(rc)), c) == (c == Col(rc))
    {
      BitPow2(Col(rc), c);
    }
  }

  /** orTableIntoMatrix */
  method OrTableIntoMatrix(bitMatrix: array<nat>, destLgK: nat, slots: array<nat>, ghost S: set<nat>)
    requires bitMatrix != slots && MatrixOf(bitMatrix[..], S, destLgK) && Distinct(slots[..])
    modifies bitMatrix
    ensures MatrixOf(bitMatrix[..], S + Fold(Contents(slots[..]), destLgK), destLgK)
  {
    ghost var s := slots[..];
    assert S + Fold(Contents(s[..0]), destLgK) == S;
    for i := 0 to slots.Length
      invariant slots[..] == s
      invariant MatrixOf(bitMatrix[..], S + Fold(Contents(s[..i]), destLgK), destLgK)
    {
      assert s[..i + 1][..i] == s[..i];
      ContentsSnoc(s[..i + 1]);
      var rowCol := slots[i];
      if rowCol != EMPTY {
        OrOnePair(bitMatrix, destLgK, rowCol, S + Fold(Contents(s[..i]), destLgK));
        FoldUnion(Contents(s[..i]), {rowCol}, destLgK);
        assert Fold({rowCol}, destLgK) == {FoldPair(rowCol, destLgK)};
        assert S + Fold(Contents(s[..i + 1]), destLgK) == S + Fold(Contents(s[..i]), destLgK) + {FoldPair(rowCol, destLgK)};
      }
    }
    assert s[..|s|] == s;
  }

  method OrOnePair(bitMatrix: array<nat>, destLgK: nat, rowCol: nat, ghost S: set<nat>)
    requires MatrixOf(bitMatrix[..], S, destLgK)
    modifies bitMatrix
    ensures MatrixOf(bitMatrix[..], S + {FoldPair(rowCol, destLgK)}, destLgK)
  {
    var col, row := Col(rowCol), Low(Row(rowCol), destLgK);
    LowBound(Row(rowCol), destLgK);
    FoldParts(rowCol, destLgK);
    OnePairRow(Pair(row, col));
    ghost var m := bitMatrix[..];
    OrRow(m, S, destLgK, row, Pow2(col), {Pair(row, col)});
    bitMatrix[row] := Or(bitMatrix[row], Pow2(col));
    assert bitMatrix[..] == m[row := Or(m[row], Pow2(col))];
  }

  /** The pairs of a set that lie in one row. */
  ghost function RowOf(T: set<nat>, r: nat): set<nat>
  {
    set rc | rc in T && Row(rc) == r
  }

  /** OR one source row into the destination row it folds to. */
  method OrOneRow(destMatrix: array<nat>, destLgK: nat, srcRow: nat, row: nat, ghost T: set<nat>, ghost S: set<nat>)
    requires MatrixOf(destMatrix[..], S + Fold(Above(T, srcRow), destLgK), destLgK)
    requires forall c :: 0 <= c ==> Bit(row, c) == (c < 64 && Pair(srcRow, c) in T)
    modifies destMatrix
    ensures MatrixOf(destMatrix[..], S + Fold(Above(T, srcRow + 1), destLgK), destLgK)
  {
    LowBound(srcRow, destLgK);
    var r := Low(srcRow, destLgK);
    ghost var more := Fold(RowOf(T, srcRow), destLgK);
    FoldedRow(T, srcRow, row, destLgK);
    assert Above(T, srcRow + 1) == Above(T, srcRow) + RowOf(T, srcRow);
    FoldUnion(Above(T, srcRow), RowOf(T, srcRow), destLgK);
    ghost var m := destMatrix[..];
    ghost var S0 := S + Fold(Above(T, srcRow), destLgK);
    OrRow(m, S0, destLgK, r, row, more);
    destMatrix[r] := Or(destMatrix[r], row);
    assert destMatrix[..] == m[r := Or(m[r], row)];
    assert S0 + more == S + Fold(Above(T, srcRow + 1), destLgK);
  }

  lemma FoldedRow(T: set<nat>, srcRow: nat, row: nat, destLgK: nat)
    requires forall c :: 0 <= c ==> Bit(row, c) == (c < 64 && Pair(srcRow, c) in T)
    ensures forall rc :: rc in Fold(RowOf(T, srcRow), destLgK) ==> Row(rc) == Low(srcRow, destLgK)
    ensures forall c :: 0 <= c ==> Bit(row, c) == (c < 64 && Pair(Low(srcRow, destLgK), c) in Fold(RowOf(T, srcRow), destLgK))
  {
    var r := Low(srcRow, destLgK);
    forall rc | rc in RowOf(T, srcRow)
      ensures FoldPair(rc, destLgK) == Pair(r, Col(rc))
    {
      FoldParts(rc, destLgK);
    }
    forall c: nat | c < 64
      ensures Pair(srcRow, c) in T <==> Pair(r, c) in Fold(RowOf(T, srcRow), destLgK)
    {
      if Pair(srcRow, c) in T {
        assert FoldPair(Pair(srcRow, c), destLgK) == Pair(r, c);
      }
      if Pair(r, c) in Fold(RowOf(T, srcRow), destLgK) {
        var rc :| rc in RowOf(T, srcRow) && FoldPair(rc, destLgK) == Pair(r, c);
        assert rc == Pair(srcRow, Col(rc));
      }
    }
  }

  /** orMatrixIntoMatrix */
  method OrMatrixIntoMatrix(destMatrix: array<nat>, destLgK: nat, srcMatrix: array<nat>, srcLgK: nat, ghost T: set<nat>, ghost S: set<nat>)
    requires destLgK <= srcLgK && destMatrix != srcMatrix
    requires MatrixOf(destMatrix[..], S, destLgK) && MatrixOf(srcMatrix[..], T, srcLgK)
    requires forall rc :: rc in T ==> Cell(rc, srcLgK)
    modifies destMatrix
    ensures MatrixOf(destMatrix[..], S + Fold(T, destLgK), destLgK)
  {
    assert S + Fold(Above(T, 0), destLgK) == S;
    ghost var sm := srcMatrix[..];
    for srcRow := 0 to srcMatrix.Length
      invariant srcMatrix[..] == sm
      invariant MatrixOf(destMatrix[..], S + Fold(Above(T, srcRow), destLgK), destLgK)
    {
      OrOneRow(destMatrix, destLgK, srcRow, srcMatrix[srcRow], T, S);
    }
    assert Above(T, srcMatrix.Length) == T;
  }

  /** The pairs of a set that lie in the window columns. */
  ghost function InWindow(T: set<nat>, w: nat): set<nat>
  {
    set rc | rc in T && w <= Col(rc) < w + 8
  }

  /** orWindowIntoMatrix */
  method OrWindowIntoMatrix(destMatrix: array<nat>, destLgK: nat, srcWindow: array<nat>, srcOffset: nat, srcLgK: nat, ghost T: set<nat>, ghost S: set<nat>)
    requires destLgK <= srcLgK && destMatrix != srcWindow
    requires MatrixOf(destMatrix[..], S, destLgK) && WindowOf(srcWindow[..], T, srcLgK, srcOffset)
    requires forall rc :: rc in T ==> Cell(rc, srcLgK)
    modifies destMatrix
    ensures MatrixOf(destMatrix[..], S + Fold(InWindow(T, srcOffset), destLgK), destLgK)
  {
    ghost var W := InWindow(T, srcOffset);
    assert S + Fold(Above(W, 0), destLgK) == S;
    ghost var win := srcWindow[..];
    for srcRow := 0 to srcWindow.Length
      invariant srcWindow[..] == win
      invariant MatrixOf(destMatrix[..], S + Fold(Above(W, srcRow), destLgK), destLgK)
    {
      WindowRow(win, T, srcLgK, srcOffset, srcRow);
      OrOneRow(destMatrix, destLgK, srcRow, Shl(srcWindow[srcRow], srcOffset), W, S);
    }
    assert Above(W, srcWindow.Length) == W;
  }

  lemma WindowRow(win: seq<nat>, T: set<nat>, lgK: nat, w: nat, r: nat)
    requires WindowOf(win, T, lgK, w) && r < |win|
    ensures forall c :: 0 <= c ==> Bit(Shl(win[r], w), c) == (c < 64 && Pair(r, c) in InWindow(T, w))
  {
    forall c: nat
      ensures Bit(Shl(win[r], w), c) == (c < 64 && Pair(r, c) in InWindow(T, w))
    {
      BitShl(win[r], w, c);
    }
  }

  // ---- walking a table into a sketch ----

  /** The surprise table of a sketch has room at every step from S towards all, in whatever order the coupons come. */
  ghost predicate RoomThrough(S: set<nat>, all: set<nat>, lgK: nat)
  {
    forall T: set<nat>, rc: nat :: S <= T && T <= all && rc in all ==> RoomFor(T, lgK, rc)
  }

  /** No more than 25 coupons per row always leave room. */
  lemma RoomThroughModest(S: set<nat>, all: set<nat>, lgK: nat)
    requires CouponSet(all, lgK) && |all| <= 25 * Pow2(lgK)
    ensures RoomThrough(S, all, lgK)
  {
    forall T: set<nat>, rc: nat | S <= T && T <= all && rc in all
      ensures RoomFor(T, lgK, rc)
    {
      SubsetSize(T + {rc}, all);
      RoomForModest(T, lgK, rc);
    }
  }

  /** A live sketch can hold these coupons: they are in range, and the table has room for their surprises. */
  ghost predicate Holdable(S: set<nat>, lgK: nat)
  {
    WithinRange(lgK, |S|) && Room(S, lgK, DetermineCorrectOffset(lgK, |S|))
  }

  lemma ValidHolds(sketch: Fm85)
    requires sketch.Valid()
    ensures Holdable(sketch.coupons, sketch.lgK)
  {
    hide WindowOf, Surprises, TableOk, Contents, CouponSet, Room, DetermineCorrectOffset, Pow2;
    ValidHasRoom(sketch);
  }

  /** How a walk that takes a sketch from S towards all may fail: its end is out of range, or some step on the way lacks room. */
  ghost predicate Failed(outcome: Outcome, S: set<nat>, all: set<nat>, lgK: nat)
  {
    match outcome
    case Fine => false
    case OutOfRange => !WithinRange(lgK, |all|)
    case OutOfRoom => !RoomThrough(S, all, lgK)
  }

  /** A walk fails when one of its steps does. */
  lemma StepFails(S: set<nat>, T: set<nat>, all: set<nat>, lgK: nat, rc: nat)
    requires S <= T <= all && rc in all && |T + {rc}| <= |all|
    ensures StepOutcome(T, lgK, rc) == Fine || Failed(StepOutcome(T, lgK, rc), S, all, lgK)
  {
    hide Room, DetermineCorrectOffset;
    assert StepOutcome(T, lgK, rc) == OutOfRoom ==> !RoomFor(T, lgK, rc);
  }

  /** So a walk fails only by range or by room. */
  lemma {:induction false} WalkFails(S: set<nat>, lgK: nat, stream: seq<nat>, all: set<nat>)
    requires S + Fed(stream) <= all
    ensures OutcomeFrom(S, lgK, stream) == Fine || Failed(OutcomeFrom(S, lgK, stream), S, all, lgK)
    decreases |stream|
  {
    hide StepOutcome, Failed;
    if stream != [] {
      var n := |stream| - 1;
      FedSnoc(stream);
      WalkFails(S, lgK, stream[..n], all);
      SubsetSize(S + Fed(stream[..n]) + {stream[n]}, all);
      StepFails(S, S + Fed(stream[..n]), all, lgK, stream[n]);
    }
  }

  /** The coupon that an occupied slot stands for in 2^lgK rows; an empty one stands for none. */
  ghost function Met(rowCol: nat, lgK: nat): seq<nat>
  {
    if rowCol == EMPTY then [] else [FoldPair(rowCol, lgK)]
  }

  /** The coupons that the first i strides meet. */
  ghost function Path(s: seq<nat>, stride: nat, lgK: nat, i: nat): seq<nat>
    requires s != []
  {
    if i == 0 then [] else Path(s, stride, lgK, i - 1) + Met(s[Spot(0, stride, |s|, i - 1)], lgK)
  }

  /** The coupons that a walk of a whole table feeds to a sketch of 2^lgK rows, in the order of the walk. */
  ghost function Walk(s: seq<nat>, lgK: nat): seq<nat>
  {
    if s == [] then [] else Path(s, GoldenStride(|s|), lgK, |s|)
  }

  /** A walk is over with the first update that fails. */
  lemma {:induction false} PathOver(S: set<nat>, s: seq<nat>, stride: nat, lgK: nat, i: nat, n: nat)
    requires s != [] && i <= n && OutcomeFrom(S, lgK, Path(s, stride, lgK, i)) != Fine
    ensures OutcomeFrom(S, lgK, Path(s, stride, lgK, n)) == OutcomeFrom(S, lgK, Path(s, stride, lgK, i))
    decreases n
  {
    hide OutcomeFrom, Met, Spot;
    if i < n {
      PathOver(S, s, stride, lgK, i, n - 1);
      MetNext(S, lgK, Path(s, stride, lgK, n - 1), s[Spot(0, stride, |s|, n - 1)]);
    }
  }

  /** One more slot: the coupons fed so far and the outcome. */
  lemma MetNext(S: set<nat>, lgK: nat, order: seq<nat>, rowCol: nat)
    ensures rowCol == EMPTY ==> order + Met(rowCol, lgK) == order
    ensures rowCol != EMPTY ==> Fed(order + Met(rowCol, lgK)) == Fed(order) + {FoldPair(rowCol, lgK)}
    ensures rowCol != EMPTY && OutcomeFrom(S, lgK, order) == Fine ==>
              OutcomeFrom(S, lgK, order + Met(rowCol, lgK)) == StepOutcome(S + Fed(order), lgK, FoldPair(rowCol, lgK))
    ensures OutcomeFrom(S, lgK, order) != Fine ==> OutcomeFrom(S, lgK, order + Met(rowCol, lgK)) == OutcomeFrom(S, lgK, order)
  {
    hide StepOutcome, FoldPair;
    if rowCol != EMPTY {
      var more := order + [FoldPair(rowCol, lgK)];
      assert more[..|more| - 1] == order;
      FedSnoc(more);
    }
  }

  lemma MetItem(items: set<nat>, lgK: nat, order: seq<nat>, rowCol: nat)
    requires Fed(order) <= Fold(items, lgK) && (rowCol == EMPTY || rowCol in items)
    ensures Fed(order + Met(rowCol, lgK)) <= Fold(items, lgK)
    ensures forall x :: x in order ==> x in order + Met(rowCol, lgK)
    ensures rowCol != EMPTY ==> FoldPair(rowCol, lgK) in order + Met(rowCol, lgK)
  {
    hide FoldPair;
  }

  /** What the first i strides meet comes from the table, and nothing that they pass is left out. */
  lemma {:induction false} PathItems(s: seq<nat>, stride: nat, lgK: nat, i: nat)
    requires s != []
    ensures Fed(Path(s, stride, lgK, i)) <= Fold(Contents(s), lgK)
    ensures forall h :: 0 <= h < i && s[Spot(0, stride, |s|, h)] != EMPTY ==> FoldPair(s[Spot(0, stride, |s|, h)], lgK) in Path(s, stride, lgK, i)
    decreases i
  {
    hide FoldPair, Spot;
    if i > 0 {
      PathItems(s, stride, lgK, i - 1);
      var rowCol := s[Spot(0, stride, |s|, i - 1)];
      MetItem(Contents(s), lgK, Path(s, stride, lgK, i - 1), rowCol) by {
        assert rowCol in s;
      }
    }
  }

  /** An odd stride meets the whole table. */
  lemma WalkItems(s: seq<nat>, lgSize: nat, lgK: nat)
    requires |s| == Pow2(lgSize)
    ensures Fed(Walk(s, lgK)) == Fold(Contents(s), lgK)
  {
    hide FoldPair, Pow2;
    var stride := GoldenStride(|s|);
    PathItems(s, stride, lgK, |s|);
    forall x | x in Contents(s)
      ensures FoldPair(x, lgK) in Walk(s, lgK)
    {
      var p: nat :| p < |s| && s[p] == x;
      var h := StrideReaches(0, stride, lgSize, p);
    }
  }

  /** A sketch that was given these coupons in this order: how the updates ended, and what it holds if they ended well. */
  ghost predicate Walked(dest: Fm85, S: set<nat>, order: seq<nat>, outcome: Outcome)
    reads dest, dest.table, dest.Footprint(), dest.Repr
  {
    outcome == OutcomeFrom(S, dest.lgK, order) &&
    (outcome == Fine ==> dest.Valid() && dest.coupons == S + Fed(order))
  }

  lemma PathStart(dest: Fm85, s: seq<nat>, stride: nat)
    requires s != [] && dest.Valid()
    ensures Walked(dest, dest.coupons, Path(s, stride, dest.lgK, 0), Fine)
  {
    assert dest.coupons + Fed([]) == dest.coupons;
  }

  lemma PathEnd(dest: Fm85, S: set<nat>, s: seq<nat>, stride: nat, i: nat, outcome: Outcome)
    requires s != [] && i <= |s| && outcome != Fine && Walked(dest, S, Path(s, stride, dest.lgK, i), outcome)
    ensures Walked(dest, S, Path(s, stride, dest.lgK, |s|), outcome)
  {
    PathOver(S, s, stride, dest.lgK, i, |s|);
  }

  /** One slot of the walk; nothing happens at an empty one. */
  method WalkSlot(dest: Fm85, rowCol: nat, ghost S: set<nat>, ghost order: seq<nat>) returns (outcome: Outcome)
    requires Walked(dest, S, order, Fine) && (rowCol == EMPTY || Coupon(rowCol, 26))
    modifies dest, dest.Repr
    ensures fresh(dest.Repr - old(dest.Repr)) && old(dest.Repr) <= dest.Repr
    ensures Walked(dest, S, order + Met(rowCol, dest.lgK), outcome)
  {
    hide StepOutcome, OutcomeFrom, FoldPair, Fed;
    MetNext(S, dest.lgK, order, rowCol);
    outcome := Fine;
    if rowCol != EMPTY {
      FoldCoupon(rowCol, dest.lgK);
      outcome := dest.RowColUpdate(FoldPair(rowCol, dest.lgK));
    }
  }

  method WalkStep(dest: Fm85, slots: array<nat>, stride: nat, i: nat, j: nat, ghost S: set<nat>)
    returns (outcome: Outcome, j': nat)
    requires i < slots.Length && j == Spot(0, stride, slots.Length, i) && slots !in dest.Repr
    requires Walked(dest, S, Path(slots[..], stride, dest.lgK, i), Fine)
    requires forall rc :: rc in Contents(slots[..]) ==> Coupon(rc, 26)
    modifies dest, dest.Repr
    ensures fresh(dest.Repr - old(dest.Repr)) && old(dest.Repr) <= dest.Repr
    ensures j' == Spot(0, stride, slots.Length, i + 1)
    ensures Walked(dest, S, Path(slots[..], stride, dest.lgK, i + 1), outcome)
  {
    hide Walked, Spot;
    StrideNext(0, stride, slots.Length, i);
    var rowCol := slots[j];
    assert rowCol in slots[..];
    outcome := WalkSlot(dest, rowCol, S, Path(slots[..], stride, dest.lgK, i));
    j' := (j + stride) % slots.Length;
  }

  /** The loop of walkTableUpdatingSketch. */
  method WalkSlots(dest: Fm85, slots: array<nat>, stride: nat) returns (outcome: Outcome)
    requires dest.Valid() && slots !in dest.Repr && slots.Length >= 4
    requires forall rc :: rc in Contents(slots[..]) ==> Coupon(rc, 26)
    modifies dest, dest.Repr
    ensures fresh(dest.Repr - old(dest.Repr)) && old(dest.Repr) <= dest.Repr
    ensures Walked(dest, old(dest.coupons), Path(slots[..], stride, dest.lgK, slots.Length), outcome)
  {
    hide Walked, Path, Spot, WindowOf, MatrixOf, Surprises, TableOk, Contents, Room, CouponSet, DetermineFlavor, DetermineCorrectOffset, OutcomeFrom;
    ghost var S := dest.coupons;
    var i, j := 0, 0;
    StrideStart(0, stride, slots.Length);
    PathStart(dest, slots[..], stride);
    outcome := Fine;
    while i < slots.Length && outcome == Fine
      invariant i <= slots.Length && j == Spot(0, stride, slots.Length, i)
      invariant fresh(dest.Repr - old(dest.Repr)) && old(dest.Repr) <= dest.Repr && slots[..] == old(slots[..])
      invariant Walked(dest, S, Path(slots[..], stride, dest.lgK, i), outcome)
      decreases slots.Length - i
    {
      outcome, j := WalkStep(dest, slots, stride, i, j, S);
      i := i + 1;
    }
    if outcome != Fine {
      PathEnd(dest, S, slots[..], stride, i, outcome);
    }
  }

  /** walkTableUpdatingSketch: the items are fed to the sketch in the order of the walk, up to the first update that fails. */
  method WalkTableUpdatingSketch(dest: Fm85, table: U32Table) returns (outcome: Outcome)
    requires dest.Valid() && table.Valid() && table !in dest.Repr && table.slots !in dest.Repr
    requires forall rc :: rc in table.Items() ==> Coupon(rc, 26)
    modifies dest, dest.Repr
    ensures fresh(dest.Repr - old(dest.Repr)) && old(dest.Repr) <= dest.Repr
    ensures outcome == OutcomeFrom(old(dest.coupons), dest.lgK, Walk(table.slots[..], dest.lgK))
    ensures outcome != Fine ==> Failed(outcome, old(dest.coupons), old(dest.coupons) + Fold(table.Items(), dest.lgK), dest.lgK)
    ensures outcome == Fine ==> dest.Valid() && dest.coupons == old(dest.coupons) + Fold(table.Items(), dest.lgK)
  {
    hide WindowOf, MatrixOf, Surprises, RoomThrough, Room, CouponSet, DetermineFlavor, DetermineCorrectOffset, Fold, WithinRange, OutcomeFrom, Failed;
    Pow2Monotone(2, table.lgSize);
    var stride := GoldenStride(table.slots.Length);
    GoldenRange(table.slots.Length);
    assert Golden(table.slots.Length) >= 2 && 3 <= stride < table.slots.Length; // so the stride checks cannot throw
    WalkItems(table.slots[..], table.lgSize, dest.lgK);
    WalkFails(dest.coupons, dest.lgK, Walk(table.slots[..], dest.lgK), dest.coupons + Fold(table.Items(), dest.lgK));
    outcome := WalkSlots(dest, table.slots, stride);
  }

  /** The slots of a sketch's table; no table, no slots. */
  ghost function Slots(sketch: Fm85?): seq<nat>
    reads sketch, if sketch == null then {} else {sketch.table}, if sketch == null || sketch.table == null then {} else {sketch.table.slots}
  {
    if sketch == null || sketch.table == null then [] else sketch.table.slots[..]
  }

  /** The walk of a sparse sketch meets its coupons. */
  lemma SparseWalk(sketch: Fm85, lgK: nat)
    requires sketch.Valid() && sketch.slidingWindow == null
    ensures Fed(Walk(Slots(sketch), lgK)) == Fold(sketch.coupons, lgK)
  {
    hide WindowOf, MatrixOf, Room, CouponSet, DetermineFlavor, DetermineCorrectOffset, Pow2, FoldPair;
    if sketch.table != null {
      SparseSurprises(sketch.coupons, sketch.lgK);
      WalkItems(Slots(sketch), sketch.table.lgSize, lgK);
    }
  }

  class Union85 {
    var lgK: nat
    var accumulator: Fm85?
    var bitMatrix: array?<nat>
    ghost var coupons: set<nat>  // everything merged so far, folded to 2^lgK rows
    ghost var Repr: set<object?>

    /** The gadget holds either a sketch that is still sparse or a matrix of at least sparse-limit density. */
    ghost predicate Valid()
      reads this, Repr
    {
      this in Repr && 4 <= lgK <= 26 && CouponSet(coupons, lgK) &&
      (accumulator == null <==> bitMatrix != null) &&
      (accumulator != null ==>
        accumulator in Repr && accumulator.Repr <= Repr && accumulator.table in accumulator.Repr + {null} &&
        accumulator.Footprint() <= accumulator.Repr && this !in accumulator.Repr &&
        accumulator.Valid() && accumulator.lgK == lgK && accumulator.coupons == coupons && accumulator.slidingWindow == null) &&
      (bitMatrix != null ==>
        bitMatrix in Repr && MatrixOf(bitMatrix[..], coupons, lgK) && 32 * |coupons| >= 3 * Pow2(lgK))
    }

    /** ug85Make */
    constructor (lgK: nat)
      requires 4 <= lgK <= 26
      ensures Valid() && coupons == {} && this.lgK == lgK && fresh(Repr)
    {
      this.lgK := lgK;
      var sketch := new Fm85(lgK);
      accumulator := sketch;
      bitMatrix := null;
      coupons := {};
      Repr := {this} + sketch.Repr;
    }

    /** The part of ug85ReduceK that downsamples a bit matrix. */
    method ReduceMatrix(newLgK: nat)
      requires Valid() && bitMatrix != null && 4 <= newLgK < lgK
      modifies this
      ensures Valid() && fresh(Repr - old(Repr)) && bitMatrix != null
      ensures lgK == newLgK && coupons == Fold(old(coupons), newLgK)
    {
      hide MatrixOf, Fold, Pow2;
      var newMatrix := new nat[Pow2(newLgK)](_ => 0);
      EmptyMatrix(newMatrix[..], newLgK);
      OrMatrixIntoMatrix(newMatrix, newLgK, bitMatrix, lgK, coupons, {});
      FoldDensity(coupons, newLgK, lgK);
      assert {} + Fold(coupons, newLgK) == Fold(coupons, newLgK);
      coupons := Fold(coupons, newLgK);
      bitMatrix := newMatrix;
      lgK := newLgK;
      Repr := {this, newMatrix};
    }

    /** Keep a sketch while it is sparse; once it has graduated, keep its bit matrix instead. */
    method Adopt(sketch: Fm85)
      requires sketch.Valid() && sketch.coupons != {} && this !in sketch.Repr
      modifies this
      ensures Valid() && lgK == sketch.lgK && coupons == sketch.coupons
      ensures accumulator != null <==> BelowLimit(coupons, lgK)
      ensures forall o :: o in Repr ==> o == this || o in sketch.Repr || fresh(o)
    {
      hide WindowOf, MatrixOf, Surprises, TableOk, Contents, CouponSet, DetermineFlavor, DetermineCorrectOffset, Pow2;
      SparseArithmetic(sketch.lgK, sketch.numCoupons);
      if sketch.slidingWindow == null {
        AdoptSketch(sketch);
      } else {
        AdoptMatrix(sketch);
      }
    }

    method AdoptSketch(sketch: Fm85)
      requires sketch.Valid() && this !in sketch.Repr && sketch.slidingWindow == null
      modifies this
      ensures Valid() && lgK == sketch.lgK && coupons == sketch.coupons && accumulator != null
      ensures forall o :: o in Repr ==> o == this || o in sketch.Repr || fresh(o)
    {
      hide WindowOf, MatrixOf, Surprises, TableOk, Contents, CouponSet, DetermineFlavor, DetermineCorrectOffset, Pow2;
      coupons := sketch.coupons;
      lgK := sketch.lgK;
      accumulator := sketch;
      bitMatrix := null;
      Repr := {this} + sketch.Repr;
    }

    method AdoptMatrix(sketch: Fm85)
      requires sketch.Valid() && this !in sketch.Repr && !BelowLimit(sketch.coupons, sketch.lgK)
      modifies this
      ensures Valid() && lgK == sketch.lgK && coupons == sketch.coupons && accumulator == null
      ensures forall o :: o in Repr ==> o == this || o in sketch.Repr || fresh(o)
    {
      hide WindowOf, MatrixOf, Surprises, TableOk, Contents, CouponSet, DetermineFlavor, DetermineCorrectOffset, Pow2;
      coupons := sketch.coupons;
      lgK := sketch.lgK;
      var m := sketch.BitMatrixOfSketch();
      accumulator := null;
      bitMatrix := m;
      Repr := {this, m};
    }

    /** The part of ug85ReduceK that downsamples a non-empty sketch. */
    method ReduceSketch(newLgK: nat) returns (outcome: Outcome)
      requires Valid() && accumulator != null && coupons != {} && 4 <= newLgK < lgK
      modifies this
      ensures fresh(Repr - old(Repr))
      ensures outcome == OutcomeFrom({}, newLgK, Walk(old(Slots(accumulator)), newLgK))
      ensures outcome == Fine ==> Valid() && lgK == newLgK && coupons == Fold(old(coupons), newLgK)
      ensures outcome == Fine ==> Holdable(coupons, newLgK)
      ensures outcome == Fine ==> (accumulator != null <==> 32 * |coupons| < 3 * Pow2(lgK))
    {
      SparseSurprises(coupons, lgK);
      CouponsFit(coupons, lgK);
      FoldNonempty(coupons, newLgK);
      var newSketch;
      newSketch, outcome := DownsampleTable(accumulator.table, newLgK);
      if outcome == Fine {
        ValidHolds(newSketch);
        Adopt(newSketch);
      }
    }

    /** ug85ReduceK */
    method ReduceK(newLgK: nat) returns (outcome: Outcome)
      requires Valid() && 4 <= newLgK < lgK
      modifies this
      ensures fresh(Repr - old(Repr))
      ensures outcome == if old(accumulator) == null then Fine else OutcomeFrom({}, newLgK, Walk(old(Slots(accumulator)), newLgK))
      ensures outcome == Fine ==> Valid() && lgK == newLgK && coupons == Fold(old(coupons), newLgK)
      ensures outcome == Fine && old(accumulator) != null ==> Holdable(coupons, newLgK)
      ensures outcome == Fine ==> (accumulator != null <==> old(accumulator) != null && 32 * |coupons| < 3 * Pow2(lgK))
    {
      if bitMatrix != null {
        ReduceMatrix(newLgK);
        return Fine;
      }
      if accumulator.numCoupons == 0 { // if the accumulator is EMPTY, simply change its K
        ReduceEmpty(newLgK);
        return Fine;
      }
      outcome := ReduceSketch(newLgK);
    }

    method ReduceEmpty(newLgK: nat)
      requires Valid() && accumulator != null && coupons == {} && 4 <= newLgK <= 26
      modifies this
      ensures Valid() && fresh(Repr - old(Repr)) && accumulator != null
      ensures lgK == newLgK && coupons == {} == Fold({}, newLgK) && Holdable(coupons, lgK)
    {
      var sketch := new Fm85(newLgK);
      ValidHolds(sketch);
      accumulator := sketch;
      lgK := newLgK;
      Repr := {this} + sketch.Repr;
    }

    /** Case A with an EMPTY accumulator of the same size: start from a copy of the source. */
    method MergeIntoCopy(source: Fm85)
      requires Valid() && accumulator != null && coupons == {} && lgK == source.lgK && source.Valid()
      requires source.slidingWindow == null && source.table != null
      modifies this
      ensures Valid() && fresh(Repr - old(Repr)) && lgK == old(lgK) && Holdable(coupons, lgK)
      ensures coupons == old(coupons) + Fold(source.coupons, lgK)
      ensures OutcomeFrom(old(coupons), lgK, Walk(old(Slots(source)), lgK)) == Fine
    {
      hide WindowOf, MatrixOf, Surprises, TableOk, Contents, RoomThrough, Room, CouponSet, DetermineFlavor, DetermineCorrectOffset, Pow2, Fold;
      FoldNonempty(source.coupons, lgK);
      FoldSetKeeps(source.coupons, lgK);
      SparseWalks(source);
      var dest := WalkCopy(source);
      ValidHolds(dest);
      Adopt(dest);
    }

    method MergeIntoAccumulator(source: Fm85) returns (outcome: Outcome)
      requires Valid() && accumulator != null && source.Valid() && source.Repr !! Repr
      requires source.slidingWindow == null && source.table != null
      modifies this, Repr
      ensures fresh(Repr - old(Repr))
      ensures outcome == OutcomeFrom(old(coupons), old(lgK), Walk(old(Slots(source)), old(lgK)))
      ensures outcome == Fine ==> Valid() && lgK == old(lgK) && coupons == old(coupons) + Fold(source.coupons, lgK)
      ensures outcome == Fine ==> Holdable(coupons, lgK)
    {
      hide WindowOf, MatrixOf, Surprises, TableOk, Contents, RoomThrough, Room, CouponSet, DetermineFlavor, DetermineCorrectOffset, Pow2, Fold;
      FoldNonempty(source.coupons, lgK);
      outcome := WalkSource(accumulator, source, coupons + Fold(source.coupons, lgK));
      if outcome == Fine {
        ValidHolds(accumulator);
        Adopt(accumulator);
      }
    }

    /** Case A: both sides are sparse, so walk the source's table updating the accumulator. */
    method MergeSparse(source: Fm85) returns (outcome: Outcome)
      requires Valid() && accumulator != null && source.Valid() && source.Repr !! Repr
      requires source.slidingWindow == null && source.table != null && lgK <= source.lgK
      modifies this, Repr
      ensures fresh(Repr - old(Repr))
      ensures outcome == OutcomeFrom(old(coupons), old(lgK), Walk(old(Slots(source)), old(lgK)))
      ensures outcome == Fine ==> Valid() && lgK == old(lgK) && coupons == old(coupons) + Fold(source.coupons, lgK)
      ensures outcome == Fine ==> Holdable(coupons, lgK)
    {
      if accumulator.numCoupons == 0 && lgK == source.lgK {
        MergeIntoCopy(source);
        outcome := Fine;
      } else {
        outcome := MergeIntoAccumulator(source);
      }
    }

    /** The gadget as a bit matrix; `bitMatrix` itself, or a new matrix when it still holds a sketch. */
    method MatrixForm() returns (m: array<nat>)
      requires Valid()
      ensures MatrixOf(m[..], coupons, lgK) && (m == bitMatrix || fresh(m))
    {
      if accumulator != null {
        m := accumulator.BitMatrixOfSketch();
      } else {
        m := bitMatrix;
      }
    }

    /** Cases B, C and D: OR the source into the bit matrix, which replaces a sketch if there is one. */
    method MergeMatrix(source: Fm85)
      requires Valid() && source.Valid() && source.Repr !! Repr && source.coupons != {} && lgK <= source.lgK
      requires bitMatrix != null || source.slidingWindow != null
      modifies this, Repr
      ensures Valid() && fresh(Repr - old(Repr)) && lgK == old(lgK) && bitMatrix != null
      ensures coupons == old(coupons) + Fold(source.coupons, lgK)
    {
      hide WindowOf, MatrixOf, Surprises, TableOk, Contents, RoomThrough, Room, DetermineFlavor, DetermineCorrectOffset, Pow2, Fold;
      var m := MatrixForm();
      FoldDensity(source.coupons, lgK, source.lgK);
      SparseArithmetic(source.lgK, source.numCoupons);
      SubsetSize(coupons, coupons + Fold(source.coupons, lgK));
      SubsetSize(Fold(source.coupons, lgK), coupons + Fold(source.coupons, lgK));
      OrSourceIntoMatrix(m, lgK, source, coupons);
      Install(m, coupons + Fold(source.coupons, lgK));
    }

    method Install(m: array<nat>, ghost S: set<nat>)
      requires 4 <= lgK <= 26 && MatrixOf(m[..], S, lgK) && CouponSet(S, lgK) && !BelowLimit(S, lgK)
      modifies this
      ensures Valid() && bitMatrix != null && coupons == S && lgK == old(lgK) && Repr == {this, m}
    {
      hide MatrixOf, CouponSet, Pow2;
      coupons := S;
      accumulator := null;
      bitMatrix := m;
      Repr := {this, m};
    }

    /** The part of ug85MergeInto after the row counts have been made to fit. */
    method MergeFitting(source: Fm85) returns (outcome: Outcome)
      requires Valid() && source.Valid() && source.Repr !! Repr && source.coupons != {} && lgK <= source.lgK
      modifies this, Repr
      ensures fresh(Repr - old(Repr))
      ensures outcome == if old(accumulator) != null && BelowLimit(source.coupons, source.lgK) then OutcomeFrom(old(coupons), old(lgK), Walk(old(Slots(source)), old(lgK))) else Fine
      ensures outcome == Fine ==> Valid() && lgK == old(lgK) && coupons == old(coupons) + Fold(source.coupons, lgK)
      ensures outcome == Fine && old(accumulator) != null && BelowLimit(source.coupons, source.lgK) ==> Holdable(coupons, lgK)
    {
      SparseArithmetic(source.lgK, source.numCoupons);
      if DetermineFlavor(source.lgK, source.numCoupons) == Sparse && accumulator != null {
        outcome := MergeSparse(source);
      } else {
        MergeMatrix(source);
        outcome := Fine;
      }
    }

    /** ug85MergeInto */
    method MergeInto(source: Fm85) returns (outcome: Outcome)
      requires Valid() && source.Valid() && source.Repr !! Repr
      modifies this, Repr
      ensures fresh(Repr - old(Repr))
      ensures outcome == MergeOutcome(old(coupons), old(lgK), old(Slots(accumulator)), source.coupons, source.lgK, old(Slots(source)))
      ensures outcome == OutOfRoom ==> !MergeRoom(old(coupons), old(lgK), source.coupons, source.lgK)
      ensures outcome == OutOfRange ==> !MergeInRange(old(coupons), old(lgK), source.coupons, source.lgK)
      ensures outcome == Fine ==> MergeHolds(old(coupons), old(lgK), source.coupons, source.lgK)
      ensures outcome == Fine ==> Valid() && lgK == MergedLgK(old(lgK), source.coupons, source.lgK)
      ensures outcome == Fine ==> coupons == Merged(old(coupons), old(lgK), source.coupons, source.lgK)
    {
      hide WindowOf, MatrixOf, Surprises, TableOk, Contents, RoomThrough, CouponSet, DetermineFlavor, DetermineCorrectOffset, Pow2, Fold, WithinRange, Merged, MergedLgK;
      if source.numCoupons == 0 {
        MergeNothing(coupons, lgK, source.coupons, source.lgK);
        return Fine;
      }
      outcome := MergeNonEmpty(source);
    }

    method MergeNonEmpty(source: Fm85) returns (outcome: Outcome)
      requires Valid() && source.Valid() && source.Repr !! Repr && source.coupons != {}
      modifies this, Repr
      ensures fresh(Repr - old(Repr))
      ensures outcome == MergeOutcome(old(coupons), old(lgK), old(Slots(accumulator)), source.coupons, source.lgK, old(Slots(source)))
      ensures outcome == OutOfRoom ==> !MergeRoom(old(coupons), old(lgK), source.coupons, source.lgK)
      ensures outcome == OutOfRange ==> !MergeInRange(old(coupons), old(lgK), source.coupons, source.lgK)
      ensures outcome == Fine ==> MergeHolds(old(coupons), old(lgK), source.coupons, source.lgK)
      ensures outcome == Fine ==> Valid() && lgK == MergedLgK(old(lgK), source.coupons, source.lgK)
      ensures outcome == Fine ==> coupons == Merged(old(coupons), old(lgK), source.coupons, source.lgK)
    {
      hide WindowOf, MatrixOf, Surprises, TableOk, Contents, RoomThrough, Room, CouponSet, DetermineFlavor, DetermineCorrectOffset, Pow2, Fold;
      SparseIff();
      MergeWalks(source);
      outcome := FitRows(source.lgK);
      if outcome == Fine {
        SparseIff();
        outcome := MergeFitting(source);
      }
    }

    /** Downsample the gadget when the source has fewer rows. */
    method FitRows(srcLgK: nat) returns (outcome: Outcome)
      requires Valid() && 4 <= srcLgK <= 26
      modifies this
      ensures fresh(Repr - old(Repr))
      ensures outcome == if old(accumulator) != null && srcLgK < old(lgK) then OutcomeFrom({}, srcLgK, Walk(old(Slots(accumulator)), srcLgK)) else Fine
      ensures outcome == Fine && old(accumulator) != null && srcLgK < old(lgK) ==> Holdable(coupons, lgK)
      ensures outcome == Fine ==> Valid() && lgK == (if srcLgK < old(lgK) then srcLgK else old(lgK)) && coupons == Fold(old(coupons), lgK)
      ensures outcome == Fine ==> (accumulator != null <==> old(accumulator) != null && BelowLimit(coupons, lgK))
    {
      if srcLgK < lgK {
        outcome := ReduceK(srcLgK);
      } else {
        FoldSetKeeps(coupons, lgK);
        if accumulator != null {
          SparseArithmetic(lgK, accumulator.numCoupons);
        }
        outcome := Fine;
      }
    }

    /** The gadget holds a sketch exactly while its coupons are below the sparse limit. */
    lemma SparseIff()
      requires Valid()
      ensures accumulator != null <==> BelowLimit(coupons, lgK)
    {
      hide MatrixOf, WindowOf, TableOk, Surprises, CouponSet, Contents, DetermineCorrectOffset, Pow2;
      if accumulator != null {
        SparseArithmetic(lgK, accumulator.numCoupons);
      }
    }

    lemma TableOfGadget()
      requires Valid()
      ensures TableHolds(Source(coupons, lgK), Slots(accumulator))
    {
      hide MatrixOf, WindowOf, CouponSet, DetermineCorrectOffset, Pow2;
      SparseIff();
      if accumulator != null {
        SparseSurprises(coupons, lgK);
      }
    }

    /** What the walks of a merge meet are the coupons on either side. */
    lemma MergeWalks(source: Fm85)
      requires Valid() && source.Valid()
      ensures var S, T, slots, srcSlots := coupons, source.coupons, Slots(accumulator), Slots(source);
              (MergeOutcome(S, lgK, slots, T, source.lgK, srcSlots) == OutOfRoom ==> !MergeRoom(S, lgK, T, source.lgK)) &&
              (MergeOutcome(S, lgK, slots, T, source.lgK, srcSlots) == OutOfRange ==> !MergeInRange(S, lgK, T, source.lgK))
    {
      hide WindowOf, MatrixOf, Surprises, TableOk, Contents, RoomThrough, Room, CouponSet, DetermineCorrectOffset, Pow2, Fold, MergeOutcome, MergeRoom, MergeInRange;
      SparseIff();
      var k := MergedLgK(lgK, source.coupons, source.lgK);
      if accumulator != null {
        SparseWalk(accumulator, k);
      }
      SparseArithmetic(source.lgK, source.numCoupons);
      if source.slidingWindow == null {
        SparseWalk(source, k);
      }
      MergeFails(coupons, lgK, Slots(accumulator), source.coupons, source.lgK, Slots(source));
    }

    /** ug85GetResult */
    method GetResult() returns (result: Fm85, room: bool)
      requires Valid()
      ensures fresh(result) && fresh(result.Repr) && result.lgK == lgK
      ensures room <==> Room(coupons, lgK, DetermineCorrectOffset(lgK, |coupons|))
      ensures room ==> result.Core() && result.coupons == coupons && result.windowOffset == DetermineCorrectOffset(lgK, |coupons|)
      ensures room && WithinRange(lgK, |coupons|) ==> result.Valid()
      ensures room ==> FirstMissing(coupons, lgK, result.windowOffset, result.firstInterestingColumn)
    {
      hide MatrixOf, WindowOf, TableOk, Surprises, CouponSet, Contents, DetermineCorrectOffset, Room, Pow2;
      if accumulator != null {
        ValidHasRoom(accumulator);
        room := true;
        if accumulator.numCoupons == 0 {
          result := new Fm85(lgK);
        } else {
          result := CopyOf(accumulator);
        }
      } else {
        result, room := SketchOfMatrix(bitMatrix, lgK, coupons);
      }
    }
  }

  /** The row count after merging in a source: an EMPTY source changes nothing. */
  ghost function MergedLgK(lgK: nat, T: set<nat>, srcLgK: nat): nat
  {
    if T == {} || lgK <= srcLgK then lgK else srcLgK
  }

  /** What the union denotes after merging in a source. */
  ghost function Merged(S: set<nat>, lgK: nat, T: set<nat>, srcLgK: nat): set<nat>
  {
    Fold(S, MergedLgK(lgK, T, srcLgK)) + Fold(T, MergedLgK(lgK, T, srcLgK))
  }

  lemma MergeNothing(S: set<nat>, lgK: nat, T: set<nat>, srcLgK: nat)
    requires CouponSet(S, lgK) && T == {}
    ensures Merged(S, lgK, T, srcLgK) == S && MergedLgK(lgK, T, srcLgK) == lgK
  {
    FoldSetKeeps(S, lgK);
  }

  ghost predicate BelowLimit(S: set<nat>, lgK: nat) { 32 * |S| < 3 * Pow2(lgK) }

  /** No sketch update inside the merge runs out of window positions. */
  ghost predicate MergeInRange(S: set<nat>, lgK: nat, T: set<nat>, srcLgK: nat)
  {
    T == {} || !BelowLimit(S, lgK) ||
    (var k := MergedLgK(lgK, T, srcLgK);
     (k < lgK ==> WithinRange(k, |Fold(S, k)|)) &&
     (BelowLimit(Fold(S, k), k) && BelowLimit(T, srcLgK) ==> WithinRange(k, |Merged(S, lgK, T, srcLgK)|)))
  }

  /** A sketch can hold the coupons that the merge leaves in one, before the gadget turns to a matrix. */
  ghost predicate MergeHolds(S: set<nat>, lgK: nat, T: set<nat>, srcLgK: nat)
  {
    T == {} || !BelowLimit(S, lgK) ||
    (var k := MergedLgK(lgK, T, srcLgK);
     (k < lgK ==> Holdable(Fold(S, k), k)) &&
     (BelowLimit(Fold(S, k), k) && BelowLimit(T, srcLgK) ==> Holdable(Merged(S, lgK, T, srcLgK), k)))
  }

  /**
   * How a merge ends. The slots are those of the tables of the gadget and of the source. Only sparse sketches are walked:
   * the gadget into one of fewer rows, then the source into the gadget.
   */
  ghost function MergeOutcome(S: set<nat>, lgK: nat, slots: seq<nat>, T: set<nat>, srcLgK: nat, srcSlots: seq<nat>): Outcome
  {
    if T == {} || !BelowLimit(S, lgK) then Fine
    else
      var k := MergedLgK(lgK, T, srcLgK);
      var reduced := if k < lgK then OutcomeFrom({}, k, Walk(slots, k)) else Fine;
      if reduced != Fine then reduced
      else if BelowLimit(Fold(S, k), k) && BelowLimit(T, srcLgK) then OutcomeFrom(Fold(S, k), k, Walk(srcSlots, k))
      else Fine
  }

  /** A merge fails only if it goes out of range, or lacks room, in some order of its steps. */
  lemma MergeFails(S: set<nat>, lgK: nat, slots: seq<nat>, T: set<nat>, srcLgK: nat, srcSlots: seq<nat>)
    requires var k := MergedLgK(lgK, T, srcLgK);
             (BelowLimit(S, lgK) ==> Fed(Walk(slots, k)) == Fold(S, k)) && (BelowLimit(T, srcLgK) ==> Fed(Walk(srcSlots, k)) == Fold(T, k))
    ensures MergeOutcome(S, lgK, slots, T, srcLgK, srcSlots) == OutOfRoom ==> !MergeRoom(S, lgK, T, srcLgK)
    ensures MergeOutcome(S, lgK, slots, T, srcLgK, srcSlots) == OutOfRange ==> !MergeInRange(S, lgK, T, srcLgK)
  {
    hide BelowLimit, OutcomeFrom, RoomThrough, WithinRange, Fold, Walk;
    var k := MergedLgK(lgK, T, srcLgK);
    if BelowLimit(S, lgK) {
      WalkFails({}, k, Walk(slots, k), Fold(S, k));
      if BelowLimit(T, srcLgK) {
        WalkFails(Fold(S, k), k, Walk(srcSlots, k), Merged(S, lgK, T, srcLgK));
      }
    }
  }

  /** The sketch updates inside the merge find room in the surprise table. */
  ghost predicate MergeRoom(S: set<nat>, lgK: nat, T: set<nat>, srcLgK: nat)
  {
    T == {} || !BelowLimit(S, lgK) ||
    (var k := MergedLgK(lgK, T, srcLgK);
     (k < lgK ==> RoomThrough({}, Fold(S, k), k)) &&
     (BelowLimit(Fold(S, k), k) && BelowLimit(T, srcLgK) ==> RoomThrough(Fold(S, k), Merged(S, lgK, T, srcLgK), k)))
  }

  lemma {:induction false} FoldShrinks(S: set<nat>, lgK: nat)
    ensures |Fold(S, lgK)| <= |S|
    decreases |S|
  {
    if S == {} {
      assert Fold(S, lgK) == {};
    } else {
      var rc :| rc in S;
      FoldShrinks(S - {rc}, lgK);
      assert Fold(S, lgK) == Fold(S - {rc}, lgK) + {FoldPair(rc, lgK)};
    }
  }

  lemma FoldCoupons(S: set<nat>, newLgK: nat, lgK: nat)
    requires CouponSet(S, lgK) && newLgK <= lgK <= 26
    ensures CouponSet(Fold(S, newLgK), newLgK)
  {
    FoldDensity(S, newLgK, lgK);
  }

  lemma ModestHoldable(S: set<nat>, lgK: nat)
    requires CouponSet(S, lgK) && |S| <= 25 * Pow2(lgK)
    ensures Holdable(S, lgK)
  {
    RoomWhileModest(S, lgK, DetermineCorrectOffset(lgK, |S|));
  }

  lemma UnionSize(S: set<nat>, T: set<nat>)
    ensures |S + T| <= |S| + |T|
  {
    assert S + T == S + (T - S);
    SubsetSize(T - S, T);
  }

  /** Row counts at most a factor of 2^8 apart. */
  predicate Near(lgK: nat, srcLgK: nat) { lgK <= srcLgK + 8 && srcLgK <= lgK + 8 }

  lemma NearSizes(S: set<nat>, lgK: nat, T: set<nat>, srcLgK: nat, k: nat)
    requires BelowLimit(S, lgK) && BelowLimit(T, srcLgK) && Near(lgK, srcLgK)
    requires k == if lgK <= srcLgK then lgK else srcLgK
    ensures |S| + |T| <= 25 * Pow2(k)
  {
    NearPower(lgK, k);
    NearPower(srcLgK, k);
  }

  lemma NearPower(n: nat, k: nat)
    requires k <= n <= k + 8
    ensures Pow2(n) <= 256 * Pow2(k)
  {
    Pow2Monotone(n, k + 8);
    assert Pow2(8) == 256;
    Pow2Add(8, k);
  }

  /** No merge of row counts this near can fail. */
  lemma NearMerges(S: set<nat>, lgK: nat, T: set<nat>, srcLgK: nat)
    requires lgK <= 26 && srcLgK <= 26 && CouponSet(S, lgK) && CouponSet(T, srcLgK) && Near(lgK, srcLgK)
    ensures MergeInRange(S, lgK, T, srcLgK) && MergeRoom(S, lgK, T, srcLgK) && MergeHolds(S, lgK, T, srcLgK)
  {
    hide RoomThrough, Room, Pow2, Fold, CouponSet, Holdable;
    if T != {} && BelowLimit(S, lgK) {
      var k := MergedLgK(lgK, T, srcLgK);
      FoldCoupons(S, k, lgK);
      FoldShrinks(S, k);
      NearPower(lgK, k);
      RoomThroughModest({}, Fold(S, k), k);
      ModestHoldable(Fold(S, k), k);
      if BelowLimit(Fold(S, k), k) && BelowLimit(T, srcLgK) {
        NearSizes(S, lgK, T, srcLgK, k);
        FoldCoupons(T, k, srcLgK);
        FoldShrinks(T, k);
        UnionSize(Fold(S, k), Fold(T, k));
        MergedCoupons(S, lgK, T, srcLgK, k);
        RoomThroughModest(Fold(S, k), Merged(S, lgK, T, srcLgK), k);
        ModestHoldable(Merged(S, lgK, T, srcLgK), k);
      }
    }
  }

  lemma MergedCoupons(S: set<nat>, lgK: nat, T: set<nat>, srcLgK: nat, k: nat)
    requires k == MergedLgK(lgK, T, srcLgK) && CouponSet(Fold(S, k), k) && CouponSet(Fold(T, k), k)
    ensures CouponSet(Merged(S, lgK, T, srcLgK), k)
  {
  }

  lemma NinePower(k: nat)
    ensures Pow2(k + 9) == 512 * Pow2(k)
  {
    assert Pow2(9) == 512;
    Pow2Add(9, k);
  }

  /** At 2^9 times the rows, the crowded coupons of a small sketch are still sparse. */
  lemma CrowdedIsSparse(lgK: nat, bigLgK: nat)
    requires 4 <= lgK && lgK + 9 <= bigLgK <= 26
    ensures CouponSet(Crowded(lgK), bigLgK) && BelowLimit(Crowded(lgK), bigLgK)
    ensures Fold(Crowded(lgK), lgK) == Crowded(lgK) != {} && !Holdable(Crowded(lgK), lgK)
    ensures |Crowded(lgK)| <= Pow2(bigLgK)
  {
    hide Crowded, Room, DetermineCorrectOffset, Pow2, CouponSet, Fold;
    CrowdedFacts(lgK);
    CrowdedSizes(lgK);
    FoldSetKeeps(Crowded(lgK), lgK);
    MoreRows(Crowded(lgK), lgK, bigLgK);
    Pow2Monotone(lgK + 9, bigLgK);
    NinePower(lgK);
  }

  lemma MoreRows(S: set<nat>, lgK: nat, bigLgK: nat)
    requires CouponSet(S, lgK) && lgK <= bigLgK
    ensures CouponSet(S, bigLgK)
  {
    Pow2Monotone(lgK, bigLgK);
  }

  /** What a live sketch of 2^lgK rows may have been fed. */
  ghost predicate Live(S: set<nat>, lgK: nat)
  {
    CouponSet(S, lgK) && Holdable(S, lgK)
  }

  lemma FewLive(S: set<nat>, lgK: nat)
    requires CouponSet(S, lgK) && |S| <= Pow2(lgK)
    ensures Live(S, lgK)
  {
    hide CouponSet, Holdable;
    ModestHoldable(S, lgK);
  }

  /** A gadget and a source that live sketches can be can fail to merge if and only if their row counts differ by more than a factor of 2^8. */
  lemma MergeCanFailIff(lgK: nat, srcLgK: nat)
    requires 4 <= lgK <= 26 && 4 <= srcLgK <= 26
    ensures (exists S, T :: Live(S, lgK) && Live(T, srcLgK) && !MergeHolds(S, lgK, T, srcLgK)) <==> !Near(lgK, srcLgK)
  {
    hide CouponSet, Crowded, Fold, Holdable, Pow2, MergeHolds, MergeInRange, MergeRoom;
    if Near(lgK, srcLgK) {
      forall S, T | Live(S, lgK) && Live(T, srcLgK)
        ensures MergeHolds(S, lgK, T, srcLgK)
      {
        NearMerges(S, lgK, T, srcLgK);
      }
    } else if lgK + 9 <= srcLgK {
      CrowdedFails(lgK, srcLgK);
      NoCoupons(lgK);
      assert !MergeHolds({}, lgK, Crowded(lgK), srcLgK);
    } else {
      OneCoupon(srcLgK);
      CrowdedGadgetFails(srcLgK, lgK, {0});
      assert !MergeHolds(Crowded(srcLgK), lgK, {0}, srcLgK);
    }
  }

  lemma NoCoupons(lgK: nat)
    ensures Live({}, lgK)
  {
    FewLive({}, lgK);
  }

  lemma OneCoupon(lgK: nat)
    ensures Live({0}, lgK)
  {
    FewLive({0}, lgK);
  }

  /** An empty gadget cannot take in a sparse source of 2^9 times its rows, or more, whose coupons are crowded in its own. */
  lemma CrowdedFails(lgK: nat, srcLgK: nat)
    requires 4 <= lgK && lgK + 9 <= srcLgK <= 26
    ensures Live(Crowded(lgK), srcLgK) && MergeInRange({}, lgK, Crowded(lgK), srcLgK) && !MergeHolds({}, lgK, Crowded(lgK), srcLgK)
  {
    hide CouponSet, Crowded, Room, DetermineCorrectOffset, Fold, Holdable;
    CrowdedIsSparse(lgK, srcLgK);
    FewLive(Crowded(lgK), srcLgK);
    CrowdedFacts(lgK);
    FoldSetKeeps({}, lgK) by {
      NoCoupons(lgK);
    }
    assert Merged({}, lgK, Crowded(lgK), srcLgK) == Crowded(lgK);
  }

  /** A gadget whose coupons are crowded in 2^9 times fewer rows, or fewer still, cannot take in any source of so few. */
  lemma CrowdedGadgetFails(lgK: nat, bigLgK: nat, T: set<nat>)
    requires 4 <= lgK && lgK + 9 <= bigLgK <= 26 && T != {}
    ensures Live(Crowded(lgK), bigLgK) && MergeInRange(Crowded(lgK), bigLgK, T, lgK) && !MergeHolds(Crowded(lgK), bigLgK, T, lgK)
  {
    hide CouponSet, Crowded, Room, DetermineCorrectOffset, Fold, Holdable;
    CrowdedIsSparse(lgK, bigLgK);
    FewLive(Crowded(lgK), bigLgK);
    CrowdedFacts(lgK);
    CrowdedSizes(lgK);
  }

  /** Such a source, fed from any stream of its coupons, and the merge that runs out of room. */
  method MergeOutOfRoom(lgK: nat, srcLgK: nat, stream: seq<nat>) returns (outcome: Outcome)
    requires 4 <= lgK && lgK + 9 <= srcLgK <= 26 && Fed(stream) == Crowded(lgK)
    ensures outcome == OutOfRoom
  {
    hide CouponSet, Crowded, MergeInRange, MergeHolds, MergeRoom, Merged, MergedLgK, Feedable, WithinRange, Pow2, Fold, WindowOf, MatrixOf, TableOk, Surprises, Contents, DetermineFlavor, DetermineCorrectOffset, RunOutcome, Fed;
    CrowdedFails(lgK, srcLgK);
    CrowdedFeeds(lgK, srcLgK, stream);
    var source, fed := Run(srcLgK, stream);
    var gadget := new Union85(lgK);
    outcome := gadget.MergeInto(source);
  }

  /** Such a gadget: a new one that has taken in a sketch fed any stream of those coupons. */
  method CrowdedGadget(lgK: nat, bigLgK: nat, stream: seq<nat>) returns (gadget: Union85)
    requires 4 <= lgK && lgK + 9 <= bigLgK <= 26 && Fed(stream) == Crowded(lgK)
    ensures fresh(gadget) && fresh(gadget.Repr) && gadget.Valid() && gadget.lgK == bigLgK && gadget.coupons == Crowded(lgK)
  {
    hide CouponSet, Crowded, MergeInRange, MergeHolds, MergeRoom, Merged, MergedLgK, Feedable, WithinRange, Pow2, Fold, WindowOf, MatrixOf, TableOk, Surprises, Contents, DetermineFlavor, DetermineCorrectOffset, RunOutcome, Fed;
    CrowdedFeeds(lgK, bigLgK, stream);
    CrowdedIsSparse(lgK, bigLgK);
    FirstMerge(bigLgK, Crowded(lgK));
    var source, fed := Run(bigLgK, stream);
    gadget := new Union85(bigLgK);
    var outcome := gadget.MergeInto(source);
  }

  /** Its merge with any sketch of so few rows that was fed at all. */
  method GadgetOutOfRoom(lgK: nat, bigLgK: nat, stream: seq<nat>, source: Fm85) returns (outcome: Outcome)
    requires 4 <= lgK && lgK + 9 <= bigLgK <= 26 && Fed(stream) == Crowded(lgK)
    requires source.Valid() && source.lgK == lgK && source.coupons != {}
    ensures outcome == OutOfRoom
  {
    hide CouponSet, Crowded, MergeInRange, MergeHolds, MergeRoom, WithinRange, Pow2, WindowOf, TableOk, Surprises;
    CrowdedGadgetFails(lgK, bigLgK, source.coupons);
    var gadget := CrowdedGadget(lgK, bigLgK, stream);
    outcome := gadget.MergeInto(source);
  }

  /** Merging a source into a new gadget of as many rows. */
  lemma FirstMerge(lgK: nat, T: set<nat>)
    requires lgK <= 26 && CouponSet(T, lgK)
    ensures MergeInRange({}, lgK, T, lgK) && MergeRoom({}, lgK, T, lgK)
    ensures Merged({}, lgK, T, lgK) == T && MergedLgK(lgK, T, lgK) == lgK
  {
    hide CouponSet, MergeInRange, MergeRoom, MergeHolds;
    NoCoupons(lgK);
    NearMerges({}, lgK, T, lgK);
    FoldSetKeeps({}, lgK);
    FoldSetKeeps(T, lgK);
  }

  lemma CrowdedFeeds(lgK: nat, srcLgK: nat, stream: seq<nat>)
    requires 4 <= lgK && lgK + 9 <= srcLgK <= 26 && Fed(stream) == Crowded(lgK)
    ensures (forall rc :: rc in stream ==> Coupon(rc, srcLgK)) && WithinRange(srcLgK, |Fed(stream)|) && Feedable(srcLgK, stream)
    ensures RunOutcome(srcLgK, stream) == Fine
  {
    hide Crowded, Pow2, Feedable, RunOutcome;
    RunOutcomeIff(srcLgK, stream);
    CrowdedIsSparse(lgK, srcLgK);
    forall rc | rc in stream
      ensures Coupon(rc, srcLgK)
    {
      assert rc in Fed(stream);
    }
    ModestStreams(srcLgK, stream);
  }

  lemma PinnedParts(T: set<nat>, srcLgK: nat, destLgK: nat)
    requires CouponSet(T, srcLgK)
    ensures Fold(InWindow(T, 0), destLgK) + Fold(Surprises(T, srcLgK, 0, true), destLgK) == Fold(T, destLgK)
  {
    assert InWindow(T, 0) + Surprises(T, srcLgK, 0, true) == T;
    FoldUnion(InWindow(T, 0), Surprises(T, srcLgK, 0, true), destLgK);
  }

  /** OR a source of any non-empty flavor into a matrix of at most as many rows. */
  method OrSourceIntoMatrix(m: array<nat>, destLgK: nat, source: Fm85, ghost S: set<nat>)
    requires MatrixOf(m[..], S, destLgK) && source.Valid() && m !in source.Repr
    requires source.coupons != {} && destLgK <= source.lgK
    modifies m
    ensures MatrixOf(m[..], S + Fold(source.coupons, destLgK), destLgK)
  {
    ghost var T := source.coupons;
    var flavor := DetermineFlavor(source.lgK, source.numCoupons);
    if flavor == Sparse {
      SparseSurprises(T, source.lgK);
      OrTableIntoMatrix(m, destLgK, source.table.slots, S);
    } else if flavor == Hybrid || flavor == Pinned {
      OffsetIff(source.lgK, source.numCoupons, 0);
      PinnedParts(T, source.lgK, destLgK);
      OrWindowIntoMatrix(m, destLgK, source.slidingWindow, source.windowOffset, source.lgK, T, S);
      OrTableIntoMatrix(m, destLgK, source.table.slots, S + Fold(InWindow(T, 0), destLgK));
      assert S + Fold(InWindow(T, 0), destLgK) + Fold(Surprises(T, source.lgK, 0, true), destLgK) == S + Fold(T, destLgK);
    } else { // Sliding has inverted logic, so convert it to a matrix first
      var sourceMatrix := source.BitMatrixOfSketch();
      OrMatrixIntoMatrix(m, destLgK, sourceMatrix, source.lgK, T, S);
    }
  }

  method WalkSource(dest: Fm85, source: Fm85, ghost all: set<nat>) returns (outcome: Outcome)
    requires dest.Valid() && source.Valid() && source.Repr !! dest.Repr
    requires source.slidingWindow == null && source.table != null
    requires all == dest.coupons + Fold(source.coupons, dest.lgK)
    modifies dest, dest.Repr
    ensures fresh(dest.Repr - old(dest.Repr))
    ensures outcome == OutcomeFrom(old(dest.coupons), dest.lgK, Walk(old(Slots(source)), dest.lgK))
    ensures outcome != Fine ==> Failed(outcome, old(dest.coupons), all, dest.lgK)
    ensures outcome == Fine ==> dest.Valid() && dest.coupons == all
  {
    SparseSurprises(source.coupons, source.lgK);
    CouponsFit(source.coupons, source.lgK);
    outcome := WalkTableUpdatingSketch(dest, source.table);
  }

  /** Feeding a sketch what it has already collected cannot fail. */
  lemma NothingNew(sketch: Fm85, outcome: Outcome)
    requires sketch.Valid()
    ensures !Failed(outcome, sketch.coupons, sketch.coupons, sketch.lgK)
  {
    hide WindowOf, Surprises, TableOk, Contents, CouponSet, Room, DetermineCorrectOffset, Pow2;
    ValidHasRoom(sketch);
    forall T: set<nat>, rc: nat | sketch.coupons <= T && T <= sketch.coupons && rc in sketch.coupons
      ensures RoomFor(T, sketch.lgK, rc)
    {
      assert T == sketch.coupons == T + {rc};
    }
  }

  /** Walking a source into its own copy changes nothing and cannot fail. */
  method WalkCopy(source: Fm85) returns (dest: Fm85)
    requires source.Valid() && source.slidingWindow == null && source.table != null
    ensures fresh(dest) && fresh(dest.Repr) && dest.Valid() && dest.lgK == source.lgK
    ensures dest.coupons == source.coupons
  {
    hide WindowOf, MatrixOf, Surprises, TableOk, Contents, RoomThrough, Room, CouponSet, DetermineFlavor, DetermineCorrectOffset, Pow2, Fold;
    dest := CopyOf(source);
    FoldSetKeeps(source.coupons, source.lgK);
    assert dest.coupons + Fold(source.coupons, source.lgK) == dest.coupons;
    NothingNew(dest, OutOfRange);
    NothingNew(dest, OutOfRoom);
    var outcome := WalkSource(dest, source, dest.coupons);
    assert outcome == Fine;
  }

  /** Walking a sparse source into a new sketch of as many rows cannot fail either. */
  lemma SparseWalks(source: Fm85)
    requires source.Valid() && source.slidingWindow == null
    ensures OutcomeFrom({}, source.lgK, Walk(Slots(source), source.lgK)) == Fine
  {
    hide WindowOf, MatrixOf, Surprises, TableOk, Contents, RoomThrough, Room, DetermineCorrectOffset, Pow2, Fold, WithinRange, OutcomeFrom, Walk;
    SparseArithmetic(source.lgK, source.numCoupons);
    SparseWalk(source, source.lgK);
    FoldSetKeeps(source.coupons, source.lgK);
    RoomThroughModest({}, source.coupons, source.lgK);
    WalkFails({}, source.lgK, Walk(Slots(source), source.lgK), source.coupons);
  }

  /** A new sketch of fewer rows, fed from a sparse sketch's table. */
  method DownsampleTable(table: U32Table, newLgK: nat) returns (sketch: Fm85, outcome: Outcome)
    requires table.Valid() && 4 <= newLgK <= 26
    requires forall rc :: rc in table.Items() ==> Coupon(rc, 26)
    ensures fresh(sketch) && fresh(sketch.Repr) && sketch.lgK == newLgK
    ensures outcome == OutcomeFrom({}, newLgK, Walk(table.slots[..], newLgK))
    ensures outcome == Fine ==> sketch.Valid() && sketch.coupons == Fold(table.Items(), newLgK)
  {
    hide WindowOf, MatrixOf, Surprises, TableOk, Contents, RoomThrough, Room, CouponSet, DetermineFlavor, DetermineCorrectOffset, Pow2, Fold;
    sketch := new Fm85(newLgK);
    assert {} + Fold(table.Items(), newLgK) == Fold(table.Items(), newLgK);
    outcome := WalkTableUpdatingSketch(sketch, table);
  }

  lemma EmptyMatrix(m: seq<nat>, lgK: nat)
    requires |m| == Pow2(lgK) && forall r :: 0 <= r < |m| ==> m[r] == 0
    ensures MatrixOf(m, {}, lgK)
  {
    forall c: nat ensures !Bit(0, c) { BitZero(c); }
  }

  lemma CouponsFit(S: set<nat>, lgK: nat)
    requires CouponSet(S, lgK) && lgK <= 26
    ensures forall rc :: rc in S ==> Coupon(rc, 26)
  {
    Pow2Monotone(lgK, 26);
  }

  lemma FoldNonempty(S: set<nat>, lgK: nat)
    requires S != {}
    ensures Fold(S, lgK) != {}
  {
    var rc :| rc in S;
    assert FoldPair(rc, lgK) in Fold(S, lgK);
  }

  /** Folding keeps a set of coupons at or above the sparse limit. */
  lemma FoldDensity(S: set<nat>, newLgK: nat, lgK: nat)
    requires CouponSet(S, lgK) && newLgK <= lgK <= 26
    ensures CouponSet(Fold(S, newLgK), newLgK)
    ensures 32 * |S| >= 3 * Pow2(lgK) ==> 32 * |Fold(S, newLgK)| >= 3 * Pow2(newLgK)
  {
    CouponsFit(S, lgK);
    forall rc | rc in S
      ensures Coupon(FoldPair(rc, newLgK), newLgK)
    {
      FoldCoupon(rc, newLgK);
    }
    var d := lgK - newLgK;
    FoldSize(S, newLgK, d);
    Pow2Add(newLgK, d);
    DensityArithmetic(|S|, |Fold(S, newLgK)|, Pow2(newLgK), Pow2(d));
  }

  lemma DensityArithmetic(c: nat, f: nat, k: nat, d: nat)
    requires f * d >= c && d >= 1
    ensures 32 * c >= 3 * (k * d) ==> 32 * f >= 3 * k
  {
    if 32 * f < 3 * k {
      MulStep(d, 32 * f, 3 * k);
      Factor(d, 32, f);
      Factor(d, 3, k);
    }
  }

  lemma Factor(d: nat, a: nat, f: nat)
    ensures d * (a * f) == a * (f * d)
  {
  }

  // ---- counting the coupons of a matrix ----

  lemma {:induction false} EraseCount(w: nat, c: nat)
    requires Bit(w, c)
    ensures PopCount(Xor(w, Pow2(c))) + 1 == PopCount(w)
    decreases c
  {
    hide Xor, Pow2;
    XorHalves(w, Pow2(c));
    Pow2Halves(c);
    PopHalf(w);
    PopHalf(Xor(w, Pow2(c)));
    if c > 0 {
      EraseCount(w / 2, c - 1);
    } else {
      XorZero(w / 2);
    }
  }

  lemma Pow2Halves(c: nat)
    ensures Pow2(c) / 2 == (if c == 0 then 0 else Pow2(c - 1)) && Pow2(c) % 2 == (if c == 0 then 1 else 0)
  {
  }

  /** The set bits of a row number its pairs. */
  lemma {:induction false} RowCount(R: set<nat>, r: nat, row: nat)
    requires forall rc :: rc in R ==> Row(rc) == r
    requires forall c :: 0 <= c ==> Bit(row, c) == (c < 64 && Pair(r, c) in R)
    ensures |R| == PopCount(row)
    decreases row
  {
    if row == 0 {
      forall rc | rc in R
        ensures false
      {
        assert rc == Pair(r, Col(rc));
        BitZero(Col(rc));
      }
      assert R == {};
    } else {
      var t := LowestBit(row);
      EraseBit(row, t);
      EraseCount(row, t);
      FlipBits(row, t);
      assert Pair(r, t) in R;
      RowCount(R - {Pair(r, t)}, r, Xor(row, Pow2(t)));
    }
  }

  lemma {:induction false} MatrixCount(m: seq<nat>, S: set<nat>, lgK: nat, n: nat)
    requires MatrixOf(m, S, lgK) && n <= |m|
    ensures Total(m, n) == |Above(S, n)|
    decreases n
  {
    if n == 0 {
      assert Above(S, 0) == {};
    } else {
      MatrixCount(m, S, lgK, n - 1);
      RowCount(RowOf(S, n - 1), n - 1, m[n - 1]);
      assert Above(S, n) == Above(S, n - 1) + RowOf(S, n - 1);
      assert Above(S, n - 1) !! RowOf(S, n - 1);
    }
  }

  /** The bit count of a whole matrix is the number of its coupons. */
  method CountCoupons(matrix: array<nat>, lgK: nat, ghost S: set<nat>) returns (numCoupons: nat)
    requires MatrixOf(matrix[..], S, lgK) && CouponSet(S, lgK) && lgK >= 4
    ensures numCoupons == |S|
  {
    Pow2Add(3, lgK - 3);
    assert Pow2(3) == 8;
    forall r | 0 <= r < matrix.Length
      ensures matrix[r] < TWO_TO_THE_64
    {
      assert matrix[r] == matrix[..][r];
      BoundFromBits(matrix[r], 64);
      WordSize();
    }
    numCoupons := CountBitsSetInMatrix(matrix);
    MatrixCount(matrix[..], S, lgK, matrix.Length);
    assert Above(S, matrix.Length) == S;
  }

  /** All columns before the first interesting one are full, and it is the window's own or not full itself. */
  ghost predicate FirstMissing(S: set<nat>, lgK: nat, w: nat, fic: nat)
  {
    fic <= w && (forall rc :: Cell(rc, lgK) && Col(rc) < fic ==> rc in S) &&
    (fic < w ==> exists rc :: Cell(rc, lgK) && Col(rc) == fic && rc !in S)
  }

  /** The second half of ug85GetResult: turn a bit matrix back into a sketch. */
  method SketchOfMatrix(matrix: array<nat>, lgK: nat, ghost S: set<nat>) returns (result: Fm85, room: bool)
    requires 4 <= lgK <= 26 && MatrixOf(matrix[..], S, lgK) && CouponSet(S, lgK)
    requires !BelowLimit(S, lgK)
    ensures fresh(result) && fresh(result.Repr) && result.lgK == lgK
    ensures room <==> Room(S, lgK, DetermineCorrectOffset(lgK, |S|))
    ensures room ==> result.Core() && result.coupons == S && result.windowOffset == DetermineCorrectOffset(lgK, |S|)
    ensures room && WithinRange(lgK, |S|) ==> result.Valid()
    ensures room ==> FirstMissing(S, lgK, result.windowOffset, result.firstInterestingColumn)
  {
    hide WindowOf, Surprises, CouponSet, Room, TableOk, Contents, Pow2;
    result := new Fm85(lgK);
    var numCoupons := CountCoupons(matrix, lgK, S);
    var offset := DetermineCorrectOffset(lgK, numCoupons);
    OffsetLimit(S, lgK);
    SparseArithmetic(lgK, numCoupons);
    var window := new nat[Pow2(lgK)];
    var newTableSize := if lgK - 4 < 2 then 2 else lgK - 4;
    var table := new U32Table(newTableSize, 6 + lgK);
    var ored;
    ored, room := PlaceWindow(matrix, offset, window, table, lgK, S);
    if !room {
      return;
    }
    var fic := FindInterestingColumn(ored, offset, Surprises(S, lgK, offset, true));
    FirstInteresting(ored, S, lgK, offset, fic);
    result.Fill(numCoupons, offset, window, table, fic, S);
  }

  // ---- any sequence of merges ----

  /** A source as the union sees it: its coupons and its row count. */
  datatype Source = Source(coupons: set<nat>, lgK: nat)

  /** Rows and coupons of a gadget of 2^lgK rows after merging in the sources, first to last. */
  ghost function MergeRun(lgK: nat, sources: seq<Source>): (r: Source)
  {
    if sources == [] then Source({}, lgK)
    else
      var n := |sources| - 1;
      var r := MergeRun(lgK, sources[..n]);
      Source(Merged(r.coupons, r.lgK, sources[n].coupons, sources[n].lgK), MergedLgK(r.lgK, sources[n].coupons, sources[n].lgK))
  }

  ghost function AllCoupons(sources: seq<Source>): set<nat>
  {
    set i, rc | 0 <= i < |sources| && rc in sources[i].coupons :: rc
  }

  /** k is the smallest of the gadget's own row count and those of the non-empty sources. */
  ghost predicate Smallest(k: nat, lgK: nat, sources: seq<Source>)
  {
    k <= lgK && (forall i :: 0 <= i < |sources| && sources[i].coupons != {} ==> k <= sources[i].lgK) &&
    (k == lgK || exists i :: 0 <= i < |sources| && sources[i].coupons != {} && k == sources[i].lgK)
  }

  /** The union denotes the OR of all sources folded to the smallest row count, whatever the order of the merges. */
  lemma {:induction false} MergesFoldEverything(lgK: nat, sources: seq<Source>)
    ensures Smallest(MergeRun(lgK, sources).lgK, lgK, sources)
    ensures MergeRun(lgK, sources).coupons == Fold(AllCoupons(sources), MergeRun(lgK, sources).lgK)
    decreases |sources|
  {
    if sources == [] {
      assert AllCoupons(sources) == {};
    } else {
      var n := |sources| - 1;
      var before, last := sources[..n], sources[n];
      MergesFoldEverything(lgK, before);
      var r := MergeRun(lgK, before);
      var k := MergedLgK(r.lgK, last.coupons, last.lgK);
      assert AllCoupons(sources) == AllCoupons(before) + last.coupons by {
        assert sources == before + [last];
        forall rc | rc in AllCoupons(before) + last.coupons
          ensures rc in AllCoupons(sources)
        {
          if rc in last.coupons {
            assert rc in sources[n].coupons;
          } else {
            var i :| 0 <= i < n && rc in before[i].coupons;
            assert rc in sources[i].coupons;
          }
        }
      }
      FoldSetTwice(AllCoupons(before), k, r.lgK);
      FoldUnion(AllCoupons(before), last.coupons, k);
      SmallestStep(r.lgK, lgK, sources);
    }
  }

  /** The sources as the union sees them. */
  ghost function Views(sources: seq<Fm85>): (views: seq<Source>)
    reads sources
    ensures |views| == |sources|
  {
    seq(|sources|, i requires 0 <= i < |sources| reads sources => Source(sources[i].coupons, sources[i].lgK))
  }

  lemma ViewsSnoc(sources: seq<Fm85>)
    requires sources != []
    ensures var n := |sources| - 1; Views(sources) == Views(sources[..n]) + [Source(sources[n].coupons, sources[n].lgK)]
  {
  }

  lemma RunNothing(lgK: nat, sources: seq<Source>)
    requires sources == []
    ensures MergeRun(lgK, sources) == Source({}, lgK) && RunInRange(lgK, sources) && RunRoom(lgK, sources)
  {
  }

  /** No merge of the run goes out of range. */
  ghost predicate RunInRange(lgK: nat, sources: seq<Source>)
  {
    sources == [] ||
    (var n := |sources| - 1;
     var r := MergeRun(lgK, sources[..n]);
     RunInRange(lgK, sources[..n]) && MergeInRange(r.coupons, r.lgK, sources[n].coupons, sources[n].lgK))
  }

  /** Every merge of the run finds room in the surprise table. */
  ghost predicate RunRoom(lgK: nat, sources: seq<Source>)
  {
    sources == [] ||
    (var n := |sources| - 1;
     var r := MergeRun(lgK, sources[..n]);
     RunRoom(lgK, sources[..n]) && MergeRoom(r.coupons, r.lgK, sources[n].coupons, sources[n].lgK))
  }

  /** One more merge. */
  lemma RunSnoc(lgK: nat, before: seq<Source>, last: Source)
    ensures var r := MergeRun(lgK, before);
            MergeRun(lgK, before + [last]) == Source(Merged(r.coupons, r.lgK, last.coupons, last.lgK), MergedLgK(r.lgK, last.coupons, last.lgK)) &&
            (RunInRange(lgK, before + [last]) <==> RunInRange(lgK, before) && MergeInRange(r.coupons, r.lgK, last.coupons, last.lgK)) &&
            (RunRoom(lgK, before + [last]) <==> RunRoom(lgK, before) && MergeRoom(r.coupons, r.lgK, last.coupons, last.lgK))
  {
    hide MergeInRange, MergeRoom, Merged, MergedLgK;
    assert (before + [last])[..|before|] == before;
  }

  /** How the merges end: with the first that fails. The slots are those of the gadget's tables, before every merge, and of the sources'. */
  ghost function MergesOutcome(lgK: nat, sources: seq<Source>, tables: seq<seq<nat>>, slots: seq<seq<nat>>): Outcome
    requires |tables| == |slots| == |sources|
  {
    if sources == [] then Fine
    else
      var n := |sources| - 1;
      var before := MergesOutcome(lgK, sources[..n], tables[..n], slots[..n]);
      var r := MergeRun(lgK, sources[..n]);
      if before == Fine then MergeOutcome(r.coupons, r.lgK, tables[n], sources[n].coupons, sources[n].lgK, slots[n]) else before
  }

  /** While it is below the sparse limit, a gadget's table holds its coupons. */
  ghost predicate TableHolds(r: Source, table: seq<nat>)
  {
    BelowLimit(r.coupons, r.lgK) ==> Contents(table) == r.coupons
  }

  /** Before every merge, up to the first that fails, the table noted is one that holds the coupons merged so far. */
  ghost predicate Noted(lgK: nat, sources: seq<Source>, tables: seq<seq<nat>>, slots: seq<seq<nat>>)
    requires |tables| == |slots| == |sources|
  {
    sources == [] ||
    (var n := |sources| - 1;
     Noted(lgK, sources[..n], tables[..n], slots[..n]) &&
     (MergesOutcome(lgK, sources[..n], tables[..n], slots[..n]) == Fine ==> TableHolds(MergeRun(lgK, sources[..n]), tables[n])))
  }

  lemma NoMerges(lgK: nat)
    ensures MergesOutcome(lgK, [], [], []) == Fine && Noted(lgK, [], [], [])
  {
  }

  /** One more merge, and how it ends. */
  lemma OutcomeSnoc(lgK: nat, before: seq<Source>, last: Source, tables: seq<seq<nat>>, slots: seq<seq<nat>>, t: seq<nat>, s: seq<nat>)
    requires |tables| == |slots| == |before|
    ensures var r := MergeRun(lgK, before);
            var outcome := MergesOutcome(lgK, before, tables, slots);
            MergesOutcome(lgK, before + [last], tables + [t], slots + [s]) ==
            (if outcome == Fine then MergeOutcome(r.coupons, r.lgK, t, last.coupons, last.lgK, s) else outcome) &&
            (Noted(lgK, before + [last], tables + [t], slots + [s]) <==>
             Noted(lgK, before, tables, slots) && (outcome == Fine ==> TableHolds(r, t)))
  {
    hide MergeOutcome, MergeRun, TableHolds;
    assert (before + [last])[..|before|] == before && (tables + [t])[..|tables|] == tables && (slots + [s])[..|slots|] == slots;
  }

  /** The slots of the sources' tables. */
  ghost function Tables(sources: seq<Fm85>): (tables: seq<seq<nat>>)
    reads sources, set s | s in sources :: s.table, set s | s in sources && s.table != null :: s.table.slots
    ensures |tables| == |sources|
    ensures sources != [] ==> var n := |sources| - 1; tables == Tables(sources[..n]) + [Slots(sources[n])]
  {
    if sources == [] then [] else Tables(sources[..|sources| - 1]) + [Slots(sources[|sources| - 1])]
  }

  lemma NearViews(lgK: nat, sources: seq<Fm85>)
    requires lgK <= 26 && (forall s :: s in sources ==> s.Valid()) && AllNear(lgK, Views(sources))
    ensures RunInRange(lgK, Views(sources)) && RunRoom(lgK, Views(sources))
  {
    hide AllNear, RunInRange, RunRoom, MergeRun, CouponSet, MatrixOf, WindowOf, TableOk, Surprises, Contents, DetermineFlavor, DetermineCorrectOffset, WithinRange, Pow2;
    NearRuns(lgK, Views(sources)) by {
      forall i | 0 <= i < |sources|
        ensures sources[i].lgK <= 26 && CouponSet(sources[i].coupons, sources[i].lgK)
      {
        assert sources[i].Valid();
      }
    }
  }

  /** The gadget and the non-empty sources have row counts within a factor of 2^8 of each other. */
  ghost predicate AllNear(lgK: nat, sources: seq<Source>)
  {
    (forall i :: 0 <= i < |sources| && sources[i].coupons != {} ==> Near(lgK, sources[i].lgK)) &&
    (forall i, j :: 0 <= i < |sources| && 0 <= j < |sources| && sources[i].coupons != {} && sources[j].coupons != {} ==> Near(sources[i].lgK, sources[j].lgK))
  }

  /** No sequence of merges of row counts this near can fail. */
  lemma {:induction false} NearRuns(lgK: nat, sources: seq<Source>)
    requires lgK <= 26 && AllNear(lgK, sources)
    requires forall i :: 0 <= i < |sources| ==> sources[i].lgK <= 26 && CouponSet(sources[i].coupons, sources[i].lgK)
    ensures RunInRange(lgK, sources) && RunRoom(lgK, sources)
    ensures var r := MergeRun(lgK, sources); r.lgK <= lgK && CouponSet(r.coupons, r.lgK)
    decreases |sources|
  {
    hide CouponSet, MergeInRange, MergeRoom, MergeHolds, Fold, Near;
    if sources == [] {
      NoCoupons(lgK);
    } else {
      var n := |sources| - 1;
      NearRuns(lgK, sources[..n]);
      var r, last := MergeRun(lgK, sources[..n]), sources[n];
      MergesFoldEverything(lgK, sources[..n]);
      if last.coupons == {} {
        MergeNothing(r.coupons, r.lgK, last.coupons, last.lgK);
        NearNothing(r.coupons, r.lgK, last.lgK);
      } else {
        NearMerges(r.coupons, r.lgK, last.coupons, last.lgK);
        var k := MergedLgK(r.lgK, last.coupons, last.lgK);
        FoldCoupons(r.coupons, k, r.lgK);
        FoldCoupons(last.coupons, k, last.lgK);
        MergedCoupons(r.coupons, r.lgK, last.coupons, last.lgK, k);
      }
    }
  }

  lemma NearNothing(S: set<nat>, lgK: nat, srcLgK: nat)
    ensures MergeInRange(S, lgK, {}, srcLgK) && MergeRoom(S, lgK, {}, srcLgK)
  {
  }

  /** The surprise table of the result has room. */
  ghost predicate ResultRoom(union: Source)
  {
    Room(union.coupons, union.lgK, DetermineCorrectOffset(union.lgK, |union.coupons|))
  }

  /** One more merge, noting the gadget's table before it. */
  method MergeNext(gadget: Union85, source: Fm85, ghost lgK: nat, ghost before: seq<Source>, ghost tables: seq<seq<nat>>, ghost slots: seq<seq<nat>>)
    returns (outcome: Outcome, ghost tables': seq<seq<nat>>)
    requires gadget.Valid() && source.Valid() && source.Repr !! gadget.Repr && |tables| == |slots| == |before|
    requires Source(gadget.coupons, gadget.lgK) == MergeRun(lgK, before) && RunInRange(lgK, before)
    requires MergesOutcome(lgK, before, tables, slots) == Fine && Noted(lgK, before, tables, slots)
    modifies gadget, gadget.Repr
    ensures fresh(gadget.Repr - old(gadget.Repr))
    ensures var sources := before + [Source(source.coupons, source.lgK)];
            |tables'| == |sources| && outcome == MergesOutcome(lgK, sources, tables', slots + [old(Slots(source))]) &&
            Noted(lgK, sources, tables', slots + [old(Slots(source))]) &&
            (outcome == OutOfRoom ==> !RunRoom(lgK, sources)) && (outcome == OutOfRange ==> !RunInRange(lgK, sources)) &&
            (outcome == Fine ==> gadget.Valid() && RunInRange(lgK, sources) && Source(gadget.coupons, gadget.lgK) == MergeRun(lgK, sources))
  {
    hide MergesOutcome, Noted, TableHolds, MergeOutcome, RunInRange, RunRoom, MergeRun, MergeInRange, MergeRoom, MergeHolds, Merged, MergedLgK, CouponSet, MatrixOf, WindowOf, TableOk, Surprises, Contents, DetermineFlavor, DetermineCorrectOffset, WithinRange, Pow2, Slots;
    gadget.TableOfGadget();
    RunSnoc(lgK, before, Source(source.coupons, source.lgK));
    OutcomeSnoc(lgK, before, Source(source.coupons, source.lgK), tables, slots, Slots(gadget.accumulator), Slots(source));
    HoldsInRange(gadget.coupons, gadget.lgK, source.coupons, source.lgK);
    tables' := tables + [Slots(gadget.accumulator)];
    outcome := gadget.MergeInto(source);
  }

  /** Merge any sequence of sketches into a new gadget, first to last. Before every merge the gadget's table is noted. */
  method MergeAll(lgK: nat, sources: seq<Fm85>) returns (gadget: Union85, outcome: Outcome, ghost tables: seq<seq<nat>>)
    requires 4 <= lgK <= 26 && forall s :: s in sources ==> s.Valid()
    ensures fresh(gadget) && fresh(gadget.Repr)
    ensures |tables| == |sources| && Noted(lgK, Views(sources), tables, old(Tables(sources)))
    ensures outcome == MergesOutcome(lgK, Views(sources), tables, old(Tables(sources)))
    ensures outcome == OutOfRoom ==> !RunRoom(lgK, Views(sources))
    ensures outcome == OutOfRange ==> !RunInRange(lgK, Views(sources))
    ensures outcome == Fine ==> gadget.Valid() && RunInRange(lgK, Views(sources))
    ensures outcome == Fine ==> Source(gadget.coupons, gadget.lgK) == MergeRun(lgK, Views(sources))
    decreases |sources|, 0
  {
    hide MatrixOf, WindowOf, TableOk, Surprises, CouponSet, Contents, MergesOutcome, Noted, RunInRange, RunRoom, MergeRun, Slots, Tables;
    if sources == [] {
      gadget := new Union85(lgK);
      outcome := Fine;
      tables := [];
      NoMerges(lgK);
      RunNothing(lgK, Views(sources));
    } else {
      var n := |sources| - 1;
      ViewsSnoc(sources);
      assert Tables(sources) == Tables(sources[..n]) + [Slots(sources[n])];
      gadget, outcome, tables := MergeThen(lgK, sources[..n], sources[n]);
    }
  }

  /** All merges but the last, and then that one. */
  method MergeThen(lgK: nat, front: seq<Fm85>, source: Fm85) returns (gadget: Union85, outcome: Outcome, ghost tables: seq<seq<nat>>)
    requires 4 <= lgK <= 26 && source.Valid() && forall s :: s in front ==> s.Valid()
    ensures fresh(gadget) && fresh(gadget.Repr)
    ensures var views, slots := Views(front) + [Source(source.coupons, source.lgK)], old(Tables(front)) + [old(Slots(source))];
            |tables| == |views| && Noted(lgK, views, tables, slots) && outcome == MergesOutcome(lgK, views, tables, slots) &&
            (outcome == OutOfRoom ==> !RunRoom(lgK, views)) && (outcome == OutOfRange ==> !RunInRange(lgK, views)) &&
            (outcome == Fine ==> gadget.Valid() && RunInRange(lgK, views) && Source(gadget.coupons, gadget.lgK) == MergeRun(lgK, views))
    decreases |front|, 1
  {
    hide Views, MergesOutcome, Noted, MergeOutcome, RunInRange, RunRoom, MergeRun, MergeInRange, MergeRoom, MergeHolds, Merged, MergedLgK, CouponSet, MatrixOf, WindowOf, TableOk, Surprises, Contents, DetermineFlavor, DetermineCorrectOffset, WithinRange, Pow2, Slots, Tables, BelowLimit;
    ghost var views, slots, last := Views(front), Tables(front), Slots(source);
    RunSnoc(lgK, views, Source(source.coupons, source.lgK));
    gadget, outcome, tables := MergeAll(lgK, front);
    if outcome == Fine {
      assert source.Valid() && source.Repr == old(source.Repr);
      outcome, tables := MergeNext(gadget, source, lgK, views, tables, slots);
    } else {
      OutcomeSnoc(lgK, views, Source(source.coupons, source.lgK), tables, slots, [], last);
      tables := tables + [[]];
    }
  }

  lemma HoldsInRange(S: set<nat>, lgK: nat, T: set<nat>, srcLgK: nat)
    ensures MergeHolds(S, lgK, T, srcLgK) ==> MergeInRange(S, lgK, T, srcLgK)
  {
    hide Room, DetermineCorrectOffset;
  }

  /** How the merges and the query for their result end. */
  ghost function UnionOutcome(lgK: nat, sources: seq<Source>, tables: seq<seq<nat>>, slots: seq<seq<nat>>): Outcome
    requires |tables| == |slots| == |sources|
  {
    var merged := MergesOutcome(lgK, sources, tables, slots);
    if merged != Fine || ResultRoom(MergeRun(lgK, sources)) then merged else OutOfRoom
  }

  /**
   * The result of the union of any sketches: it has the smallest row count, and its coupons are those of all sketches
   * folded to it. It fails exactly if a merge does, or the table of the result has no room. Past the range of the window
   * the result denotes the union all the same, but is no longer a sketch that takes updates.
   */
  method UnionOfAll(lgK: nat, sources: seq<Fm85>) returns (result: Fm85, outcome: Outcome, ghost tables: seq<seq<nat>>)
    requires 4 <= lgK <= 26 && forall s :: s in sources ==> s.Valid()
    ensures fresh(result)
    ensures |tables| == |sources| && Noted(lgK, Views(sources), tables, old(Tables(sources)))
    ensures outcome == UnionOutcome(lgK, Views(sources), tables, old(Tables(sources)))
    ensures outcome == Fine ==> result.Core() && Smallest(result.lgK, lgK, Views(sources))
    ensures outcome == Fine ==> result.coupons == Fold(AllCoupons(Views(sources)), result.lgK)
    ensures outcome == Fine && WithinRange(result.lgK, |result.coupons|) ==> result.Valid()
    ensures AllNear(lgK, Views(sources)) ==> outcome == if ResultRoom(MergeRun(lgK, Views(sources))) then Fine else OutOfRoom
    ensures outcome == OutOfRange ==> !RunInRange(lgK, Views(sources))
    ensures outcome == OutOfRoom ==> !RunRoom(lgK, Views(sources)) || !ResultRoom(MergeRun(lgK, Views(sources)))
  {
    hide MergeInRange, MergeRoom, RunInRange, RunRoom, Room, Fold, AllCoupons, Smallest, MatrixOf, CouponSet, AllNear, MergesOutcome, Noted, Tables, Views, MergeRun, WindowOf, TableOk, Surprises, Contents, DetermineCorrectOffset, WithinRange;
    if AllNear(lgK, Views(sources)) {
      NearViews(lgK, sources);
    }
    MergesFoldEverything(lgK, Views(sources));
    var gadget;
    gadget, outcome, tables := MergeAll(lgK, sources);
    if outcome == Fine {
      var room;
      result, room := gadget.GetResult();
      if !room {
        outcome := OutOfRoom;
      }
    } else {
      result := new Fm85(lgK);
    }
  }

  lemma SmallestStep(k: nat, lgK: nat, sources: seq<Source>)
    requires sources != [] && Smallest(k, lgK, sources[..|sources| - 1])
    ensures Smallest(MergedLgK(k, sources[|sources| - 1].coupons, sources[|sources| - 1].lgK), lgK, sources)
  {
    var n := |sources| - 1;
    var before := sources[..n];
    assert forall i :: 0 <= i < n ==> before[i] == sources[i];
    var k' := MergedLgK(k, sources[n].coupons, sources[n].lgK);
    if k' == k && k != lgK {
      var i :| 0 <= i < n && before[i].coupons != {} && k == before[i].lgK;
      assert sources[i].coupons != {} && k == sources[i].lgK;
    }
  }
}
