/** The CPC sketch itself: cpc/src/fm85.cpp. */
module Fm85Sketch {
  import opened Sets
  import opened Words
  import opened Logarithms
  import opened U32Tables
  import opened Coupons

  // ---- matrices ----

  /** Set the window bits of a matrix of default rows. */
  method OrWindow(matrix: array<nat>, window: array<nat>, offset: nat)
    requires matrix != window && matrix.Length == window.Length
    modifies matrix
    ensures forall r, c :: 0 <= r < matrix.Length && 0 <= c ==>
              Bit(matrix[r], c) == (Bit(old(matrix[r]), c) || (offset <= c < 64 && Bit(window[r], c - offset)))
  {
    for i := 0 to matrix.Length
      invariant forall r :: i <= r < matrix.Length ==> matrix[r] == old(matrix[r])
      invariant forall r, c :: 0 <= r < i && 0 <= c ==>
                  Bit(matrix[r], c) == (Bit(old(matrix[r]), c) || (offset <= c < 64 && Bit(window[r], c - offset)))
    {
      OrShiftedBits(matrix[i], window[i], offset);
      matrix[i] := Or(matrix[i], Shl(window[i], offset));
    }
  }

  lemma OrShiftedBits(row: nat, byte: nat, offset: nat)
    ensures forall c :: 0 <= c ==> Bit(Or(row, Shl(byte, offset)), c) == (Bit(row, c) || (offset <= c < 64 && Bit(byte, c - offset)))
  {
    forall c: nat
      ensures Bit(Or(row, Shl(byte, offset)), c) == (Bit(row, c) || (offset <= c < 64 && Bit(byte, c - offset)))
    {
      BitOr(row, Shl(byte, offset), c);
      BitShl(byte, offset, c);
    }
  }

  lemma FlipBits(row: nat, col: nat)
    ensures forall c :: 0 <= c ==> Bit(Xor(row, Pow2(col)), c) == (Bit(row, c) != (c == col))
  {
    forall c: nat
      ensures Bit(Xor(row, Pow2(col)), c) == (Bit(row, c) != (c == col))
    {
      BitXor(row, Pow2(col), c);
      BitPow2(col, c);
    }
  }

  /** Bits of the matrix after the pairs in `flipped` have been flipped. */
  ghost predicate Flipped(m: seq<nat>, m0: seq<nat>, flipped: set<nat>)
  {
    |m| == |m0| &&
    forall r, c :: 0 <= r < |m| && 0 <= c ==> Bit(m[r], c) == (Bit(m0[r], c) != (c < 64 && Pair(r, c) in flipped))
  }

  lemma FlipOne(m: seq<nat>, m0: seq<nat>, flipped: set<nat>, rowCol: nat)
    requires Flipped(m, m0, flipped) && Row(rowCol) < |m| && rowCol !in flipped
    ensures Flipped(m[Row(rowCol) := Xor(m[Row(rowCol)], Pow2(Col(rowCol)))], m0, flipped + {rowCol})
  {
    FlipBits(m[Row(rowCol)], Col(rowCol));
    assert rowCol == Pair(Row(rowCol), Col(rowCol));
  }

  /** Flip the matrix bits named by the table from their default values. */
  method FlipSurprises(matrix: array<nat>, slots: array<nat>)
    requires matrix != slots && Distinct(slots[..])
    requires forall x :: x in slots[..] && x != EMPTY ==> Row(x) < matrix.Length
    modifies matrix
    ensures Flipped(matrix[..], old(matrix[..]), Contents(slots[..]))
  {
    ghost var m0, s := matrix[..], slots[..];
    for i := 0 to slots.Length
      invariant Flipped(matrix[..], m0, Contents(s[..i]))
    {
      var rowCol := slots[i];
      ghost var m := matrix[..];
      assert s[..i + 1][..i] == s[..i];
      ContentsSnoc(s[..i + 1]);
      if rowCol != EMPTY {
        assert rowCol in s;
        FlipOne(m, m0, Contents(s[..i]), rowCol);
        matrix[Row(rowCol)] := Xor(matrix[Row(rowCol)], Pow2(Col(rowCol)));
        assert matrix[..] == m[Row(rowCol) := Xor(m[Row(rowCol)], Pow2(Col(rowCol)))];
      }
    }
    assert s[..|s|] == s;
  }

  // ---- placing the window ----

  /** The surprises of the rows before i, and of row i those whose pattern bit has been erased already. */
  ghost function Placed(all: set<nat>, i: nat, pattern: nat): set<nat>
  {
    set rc | rc in all && (Row(rc) < i || (Row(rc) == i && !Bit(pattern, Col(rc))))
  }

  ghost function Above(all: set<nat>, i: nat): set<nat>
  {
    set rc | rc in all && Row(rc) < i
  }

  /** The pattern of row i marks exactly the pairs of that row. */
  ghost predicate RowPattern(row: nat, i: nat, all: set<nat>)
  {
    forall c :: 0 <= c ==> (Bit(row, c) <==> c < 64 && Pair(i, c) in all)
  }

  lemma PlacedEnds(all: set<nat>, i: nat, row: nat)
    requires RowPattern(row, i, all)
    ensures Placed(all, i, row) == Above(all, i)
    ensures Placed(all, i, 0) == Above(all, i + 1)
  {
    forall rc | rc in all && Row(rc) == i
      ensures Bit(row, Col(rc)) && !Bit(0, Col(rc))
    {
      assert rc == Pair(i, Col(rc));
      BitZero(Col(rc));
    }
  }

  /** Insert the pairs of row i marked by the pattern, lowest column first; false when the table runs out of room. */
  method InsertRow(table: U32Table, i: nat, row: nat, ghost all: set<nat>) returns (room: bool)
    requires table.Valid() && (forall rc :: rc in all ==> Storable(rc, table.validBits))
    requires RowPattern(row, i, all)
    requires table.Items() == Above(all, i)
    modifies table, table.slots
    ensures table.slots == old(table.slots) || fresh(table.slots)
    ensures room ==> table.Valid() && table.Items() == Above(all, i + 1)
    ensures !room ==> 4 * |all| > 3 * Pow2(table.validBits)
  {
    hide Pow2, Bit, Xor;
    var pattern := row;
    PlacedEnds(all, i, row);
    while pattern != 0
      invariant table.Valid() && (table.slots == old(table.slots) || fresh(table.slots))
      invariant forall c :: 0 <= c && Bit(pattern, c) ==> c < 64 && Pair(i, c) in all
      invariant table.Items() == Placed(all, i, pattern)
      decreases pattern
    {
      var col := LowestBit(pattern);
      PlaceOne(all, i, pattern, col);
      EraseBit(pattern, col);
      pattern := Xor(pattern, Pow2(col));
      var rowCol := Pair(i, col);
      var isNovel;
      isNovel, room := table.MaybeInsert(rowCol);
      assert isNovel;
      if !room {
        return;
      }
    }
    room := true;
  }

  lemma PlaceOne(all: set<nat>, i: nat, pattern: nat, col: nat)
    requires Bit(pattern, col) && (forall c :: 0 <= c && Bit(pattern, c) ==> c < 64 && Pair(i, c) in all)
    ensures Pair(i, col) in all && Pair(i, col) !in Placed(all, i, pattern)
    ensures Placed(all, i, Xor(pattern, Pow2(col))) == Placed(all, i, pattern) + {Pair(i, col)}
    ensures forall c :: 0 <= c && Bit(Xor(pattern, Pow2(col)), c) ==> c < 64 && Pair(i, c) in all
    ensures |Placed(all, i, pattern)| + 1 <= |all|
  {
    FlipBits(pattern, col);
    var more := Placed(all, i, Xor(pattern, Pow2(col)));
    forall rc | rc in more && rc !in Placed(all, i, pattern)
      ensures rc == Pair(i, col)
    {
      assert rc == Pair(Row(rc), Col(rc));
    }
    SubsetSize(more, all);
  }

  lemma PatternOfRow(row: nat, i: nat, offset: nat, lgK: nat, S: set<nat>)
    requires i < Pow2(lgK) && offset <= 63
    requires forall c :: 0 <= c ==> Bit(row, c) == (c < 64 && Pair(i, c) in S)
    ensures RowPattern(Pattern(row, offset), i, Surprises(S, lgK, offset, true))
    ensures forall b :: 0 <= b ==> Bit(And(Shr(row, offset), 255), b) == (b < 8 && offset + b < 64 && Pair(i, offset + b) in S)
  {
    hide Pattern, And, Shr, Xor;
    forall c: nat
      ensures Bit(Pattern(row, offset), c) <==> c < 64 && Pair(i, c) in Surprises(S, lgK, offset, true)
    {
      PatternBits(row, offset, c);
    }
    forall b: nat
      ensures Bit(And(Shr(row, offset), 255), b) == (b < 8 && Bit(row, offset + b))
    {
      WindowByteBits(row, offset, b);
    }
  }

  /** The columns of a set of pairs, as the bits of a word. */
  ghost predicate ColumnsOf(word: nat, pairs: set<nat>)
  {
    forall c :: 0 <= c ==> (Bit(word, c) <==> exists rc :: rc in pairs && Col(rc) == c)
  }

  lemma OrColumns(word: nat, row: nat, i: nat, all: set<nat>)
    requires ColumnsOf(word, Above(all, i)) && RowPattern(row, i, all)
    ensures ColumnsOf(Or(word, row), Above(all, i + 1))
  {
    forall c: nat
      ensures Bit(Or(word, row), c) <==> exists rc :: rc in Above(all, i + 1) && Col(rc) == c
    {
      BitOr(word, row, c);
      if Bit(word, c) {
        var rc :| rc in Above(all, i) && Col(rc) == c;
        assert rc in Above(all, i + 1);
      }
      if Bit(row, c) {
        assert Pair(i, c) in Above(all, i + 1);
      }
      if rc :| rc in Above(all, i + 1) && Col(rc) == c {
        if Row(rc) == i {
          assert rc == Pair(i, c);
        } else {
          assert rc in Above(all, i);
        }
      }
    }
  }

  /** The window bytes of the rows before i. */
  ghost predicate WindowRows(window: seq<nat>, i: nat, offset: nat, S: set<nat>)
  {
    i <= |window| &&
    forall r, b :: 0 <= r < i && 0 <= b ==> Bit(window[r], b) == (b < 8 && offset + b < 64 && Pair(r, offset + b) in S)
  }

  /** One row of PlaceWindow. */
  method PlaceRow(row: nat, i: nat, offset: nat, window: array<nat>, table: U32Table, ored: nat, lgK: nat, ghost S: set<nat>)
    returns (ored': nat, room: bool)
    requires i < window.Length && i < Pow2(lgK) && offset <= 63 && window != table.slots
    requires forall c :: 0 <= c ==> Bit(row, c) == (c < 64 && Pair(i, c) in S)
    requires forall rc :: rc in Surprises(S, lgK, offset, true) ==> Storable(rc, table.validBits)
    requires table.Valid() && table.Items() == Above(Surprises(S, lgK, offset, true), i)
    requires ColumnsOf(ored, Above(Surprises(S, lgK, offset, true), i))
    requires WindowRows(window[..], i, offset, S)
    modifies window, table, table.slots
    ensures table.slots == old(table.slots) || fresh(table.slots)
    ensures room ==> table.Valid() && table.Items() == Above(Surprises(S, lgK, offset, true), i + 1)
    ensures !room ==> 4 * |Surprises(S, lgK, offset, true)| > 3 * Pow2(table.validBits)
    ensures ColumnsOf(ored', Above(Surprises(S, lgK, offset, true), i + 1))
    ensures WindowRows(window[..], i + 1, offset, S)
  {
    PatternOfRow(row, i, offset, lgK, S);
    window[i] := And(Shr(row, offset), 255);
    var pattern := Pattern(row, offset);
    OrColumns(ored, pattern, i, Surprises(S, lgK, offset, true));
    ored' := Or(ored, pattern);
    room := InsertRow(table, i, pattern, Surprises(S, lgK, offset, true));
  }

  /** Cut the window out of a full matrix and collect the surprises around it, if there is room for them; returns the OR of all row patterns. */
  method PlaceWindow(matrix: array<nat>, offset: nat, window: array<nat>, table: U32Table, lgK: nat, ghost S: set<nat>)
    returns (allSurprisesORed: nat, room: bool)
    requires CouponSet(S, lgK) && MatrixOf(matrix[..], S, lgK) && offset <= 63
    requires window.Length == matrix.Length && window != matrix && window != table.slots && matrix != table.slots
    requires table.Valid() && table.Items() == {} && table.validBits == 6 + lgK
    requires lgK <= 26
    modifies window, table, table.slots
    ensures room <==> Room(S, lgK, offset)
    ensures table.slots == old(table.slots) || fresh(table.slots)
    ensures room ==> WindowOf(window[..], S, lgK, offset) && table.Valid() && table.Items() == Surprises(S, lgK, offset, true)
    ensures room ==> ColumnsOf(allSurprisesORed, Surprises(S, lgK, offset, true))
  {
    ghost var all := Surprises(S, lgK, offset, true);
    SurprisesStorable(S, lgK, offset);
    allSurprisesORed, room := 0, true;
    forall c: nat ensures !Bit(0, c) { BitZero(c); }
    ghost var m := matrix[..];
    for i := 0 to matrix.Length
      invariant matrix[..] == m
      invariant table.Valid() && (table.slots == old(table.slots) || fresh(table.slots))
      invariant table.Items() == Above(all, i)
      invariant ColumnsOf(allSurprisesORed, Above(all, i))
      invariant WindowRows(window[..], i, offset, S)
    {
      allSurprisesORed, room := PlaceRow(matrix[i], i, offset, window, table, allSurprisesORed, lgK, S);
      if !room {
        return;
      }
    }
    assert Above(all, matrix.Length) == all;
    FilledHasRoom(table, S, lgK, offset);
  }

  /** A valid table that holds the surprises has room for them. */
  lemma FilledHasRoom(table: U32Table, S: set<nat>, lgK: nat, w: nat)
    requires table.Valid() && table.validBits == 6 + lgK && table.Items() == Surprises(S, lgK, w, true)
    ensures Room(S, lgK, w)
  {
    Pow2Monotone(table.lgSize, table.validBits);
    CellBits(lgK);
  }

  /** A coupon in the window columns needs no room. */
  lemma InsideRoom(S: set<nat>, lgK: nat, w: nat, rowCol: nat)
    requires Cell(rowCol, lgK) && w <= Col(rowCol) < w + 8 && Room(S, lgK, w)
    ensures Room(S + {rowCol}, lgK, w)
  {
    hide Surprises, Pow2;
    AddCoupon(S, lgK, w, true, rowCol);
  }

  lemma OneMoreCoupon(S: set<nat>, lgK: nat, rowCol: nat)
    requires CouponSet(S, lgK) && Coupon(rowCol, lgK)
    ensures CouponSet(S + {rowCol}, lgK)
  {
  }

  lemma SurprisesStorable(S: set<nat>, lgK: nat, w: nat)
    requires CouponSet(S, lgK) && lgK <= 26 && w <= 63
    ensures forall rc :: rc in Surprises(S, lgK, w, true) ==> Storable(rc, 6 + lgK)
    ensures Pow2(6 + lgK) == 64 * Pow2(lgK)
  {
    CellBits(lgK);
  }

  /** Default row plus window bits plus flipped surprises is the matrix of the coupon set. */
  lemma AssembledMatrix(m: seq<nat>, m0: seq<nat>, S: set<nat>, lgK: nat, w: nat, windowed: bool)
    requires CouponSet(S, lgK) && |m0| == Pow2(lgK) && w <= 63
    requires forall r, c :: 0 <= r < |m0| && 0 <= c ==>
               Bit(m0[r], c) == (c < w || (windowed && c < 64 && c < w + 8 && Pair(r, c) in S))
    requires Flipped(m, m0, Surprises(S, lgK, w, windowed))
    ensures MatrixOf(m, S, lgK)
  {
    forall r, c: nat | 0 <= r < |m| && 0 <= c
      ensures Bit(m[r], c) == (c < 64 && Pair(r, c) in S)
    {
      if c < 64 {
        var rc := Pair(r, c);
        assert Surprising(S, rc, w, windowed) == (rc in Surprises(S, lgK, w, windowed));
      }
    }
  }

  lemma SurpriseRows(s: seq<nat>, lgSize: nat, lgK: nat)
    requires TableOk(s, 6 + lgK, lgSize)
    ensures Distinct(s) && forall x :: x in s && x != EMPTY ==> Row(x) < Pow2(lgK)
  {
    CellBits(lgK);
  }

  /** The sketch has processed a coupon count that its 56 window positions can follow. */
  predicate WithinRange(lgK: nat, c: nat) { 8 * c < 475 * Pow2(lgK) }

  /**
   * How an update ends: as it should, with the exception raised when the window would leave the 64 columns, or with a
   * surprise table that would have to grow past its key bits, whose shift would be negative.
   */
  datatype Outcome = Fine | OutOfRange | OutOfRoom

  /** What an update does to a sketch that holds the coupons S: a new coupon is stored first, then the window moves if it has to. */
  ghost function StepOutcome(S: set<nat>, lgK: nat, rowCol: nat): Outcome
  {
    var S' := S + {rowCol};
    if !Room(S', lgK, DetermineCorrectOffset(lgK, |S|)) then OutOfRoom
    else if !WithinRange(lgK, |S'|) then OutOfRange
    else if !Room(S', lgK, DetermineCorrectOffset(lgK, |S'|)) then OutOfRoom
    else Fine
  }

  class Fm85 {
    const lgK: nat
    var numCoupons: nat
    var slidingWindow: array?<nat>
    var windowOffset: nat
    var table: U32Table?  // surprisingValueTable
    var firstInterestingColumn: nat
    ghost var coupons: set<nat>  // every coupon collected so far
    ghost var Repr: set<object?>  // the objects this sketch may change

    ghost function Footprint(): set<object?>
      reads this, table
    {
      {this} + (if table == null then {} else {table, table.slots})
             + (if slidingWindow == null then {} else {slidingWindow})
    }

    /** The low-level data structures denote `coupons`, whatever flavor and offset are. */
    ghost predicate Core()
      reads this, table, Footprint()
    {
      4 <= lgK <= 26 && CouponSet(coupons, lgK) && numCoupons == |coupons| && windowOffset <= 63 &&
      (slidingWindow == null ==> windowOffset == 0) && (numCoupons == 0 ==> slidingWindow == null) &&
      (table == null ==> numCoupons == 0 && slidingWindow == null) &&
      (table != null ==>
        table.Valid() && table.validBits == 6 + lgK && table.slots != slidingWindow &&
        table.Items() == Surprises(coupons, lgK, windowOffset, slidingWindow != null)) &&
      (slidingWindow != null ==> WindowOf(slidingWindow[..], coupons, lgK, windowOffset))
    }

    /** All coupons in the columns before the first interesting one have been collected. */
    ghost predicate FullBefore(fic: nat)
      reads this
    {
      forall rc :: Cell(rc, lgK) && Col(rc) < fic ==> rc in coupons
    }

    /** The invariant of a live sketch: representation, flavor and offset all follow from the coupon count. */
    ghost predicate Valid()
      reads this, table, Footprint(), Repr
    {
      Consistent() && Footprint() <= Repr
    }

    ghost predicate Consistent()
      reads this, table, Footprint()
    {
      Core() &&
      (table == null <==> numCoupons == 0) &&
      (slidingWindow == null <==> DetermineFlavor(lgK, numCoupons) in {Empty, Sparse}) &&
      windowOffset == DetermineCorrectOffset(lgK, numCoupons) &&
      WithinRange(lgK, numCoupons) &&
      firstInterestingColumn <= windowOffset && FullBefore(firstInterestingColumn)
    }

    /** fm85Make */
    constructor (lgK: nat)
      requires 4 <= lgK <= 26
      ensures Valid() && coupons == {} && this.lgK == lgK && fresh(Repr)
    {
      this.lgK := lgK;
      numCoupons := 0;
      windowOffset := 0;
      slidingWindow := null;
      table := null;
      firstInterestingColumn := 0;
      coupons := {};
      Repr := {this};
    }

    /** bitMatrixOfSketch */
    method BitMatrixOfSketch() returns (matrix: array<nat>)
      requires Core()
      ensures fresh(matrix) && MatrixOf(matrix[..], coupons, lgK)
    {
      hide TableOk, CouponSet, Contents, Storable, Surprises, Pow2;
      var defaultRow := Pow2(windowOffset) - 1;
      matrix := new nat[Pow2(lgK)](_ => defaultRow);
      ghost var w := windowOffset;
      forall c: nat ensures Bit(defaultRow, c) == (c < w) { BitMask(w, c); }
      if numCoupons == 0 {
        return;
      }
      if slidingWindow != null {
        OrWindow(matrix, slidingWindow, windowOffset);
      }
      ghost var m0 := matrix[..];
      SurpriseRows(table.slots[..], table.lgSize, lgK);
      FlipSurprises(matrix, table.slots);
      AssembledMatrix(matrix[..], m0, coupons, lgK, windowOffset, slidingWindow != null);
    }

    /** promoteEmptyToSparse */
    method PromoteEmptyToSparse()
      requires Core() && numCoupons == 0 && table == null
      modifies this`table
      ensures Core() && table != null && fresh(table) && fresh(table.slots)
    {
      table := new U32Table(2, 6 + lgK);
      SparseSurprises(coupons, lgK);
    }

    /** promoteSparseToWindowed */
    method PromoteSparseToWindowed()
      requires Core() && table != null && slidingWindow == null && numCoupons > 0
      requires 32 * numCoupons == 3 * Pow2(lgK) || (lgK == 4 && 32 * numCoupons > 3 * Pow2(lgK))
      requires numCoupons <= Pow2(lgK)
      modifies this`table, this`slidingWindow
      ensures Core() && slidingWindow != null && table != null
      ensures fresh(table) && fresh(table.slots) && fresh(slidingWindow)
    {
      var window := new nat[Pow2(lgK)](_ => 0);
      var newTable := new U32Table(2, 6 + lgK);
      SparseSurprises(coupons, lgK);
      SplitTable(table.slots, window, newTable, lgK);
      slidingWindow := window;
      table := newTable;
    }

    /** modifyOffset */
    method ModifyOffset(newOffset: nat) returns (outcome: Outcome)
      requires Core() && slidingWindow != null && table != null && numCoupons > 0
      requires newOffset == windowOffset + 1 && newOffset == DetermineCorrectOffset(lgK, numCoupons)
      modifies this`windowOffset, this`firstInterestingColumn, slidingWindow, table, table.slots
      ensures outcome == if newOffset > 56 then OutOfRange else if Room(coupons, lgK, newOffset) then Fine else OutOfRoom
      ensures table.slots == old(table.slots) || fresh(table.slots)
      ensures outcome == Fine ==> Core() && windowOffset == newOffset
      ensures outcome == Fine ==> firstInterestingColumn <= newOffset && FullBefore(firstInterestingColumn)
      ensures outcome == Fine && firstInterestingColumn < newOffset ==>
                exists rc :: Cell(rc, lgK) && Col(rc) == firstInterestingColumn && rc !in coupons
    {
      if newOffset > 56 {
        return OutOfRange;
      }
      var bitMatrix := BitMatrixOfSketch();
      table.Clear();
      var ored, room := PlaceWindow(bitMatrix, newOffset, slidingWindow, table, lgK, coupons);
      if !room {
        return OutOfRoom;
      }
      windowOffset := newOffset;
      firstInterestingColumn := FindInterestingColumn(ored, newOffset, Surprises(coupons, lgK, newOffset, true));
      FirstInteresting(ored, coupons, lgK, newOffset, firstInterestingColumn);
      return Fine;
    }

    /** The last lines of ug85GetResult: install what was cut out of a matrix in a new sketch. */
    method Fill(numCoupons: nat, offset: nat, window: array<nat>, newTable: U32Table, fic: nat, ghost S: set<nat>)
      requires 4 <= lgK <= 26 && CouponSet(S, lgK) && numCoupons == |S|
      requires DetermineFlavor(lgK, numCoupons) !in {Empty, Sparse}
      requires offset == DetermineCorrectOffset(lgK, numCoupons) <= 63
      requires newTable.Valid() && newTable.validBits == 6 + lgK && newTable.slots != window
      requires newTable.Items() == Surprises(S, lgK, offset, true) && WindowOf(window[..], S, lgK, offset)
      requires fic <= offset && forall rc :: Cell(rc, lgK) && Col(rc) < fic ==> rc in S
      modifies this
      ensures Core() && coupons == S && (WithinRange(lgK, numCoupons) ==> Valid())
      ensures this.numCoupons == numCoupons && windowOffset == offset && firstInterestingColumn == fic
      ensures forall o :: o in Repr ==> o == this || o == window || o == newTable || o == newTable.slots
    {
      this.numCoupons := numCoupons;
      windowOffset := offset;
      slidingWindow := window;
      table := newTable;
      firstInterestingColumn := fic;
      coupons := S;
      Repr := {this, window, newTable, newTable.slots};
    }

    /** Install a table in a sketch that is sparse. */
    method FillSparse(numCoupons: nat, newTable: U32Table, ghost S: set<nat>)
      requires 4 <= lgK <= 26 && CouponSet(S, lgK) && numCoupons == |S| && DetermineFlavor(lgK, numCoupons) == Sparse
      requires newTable.Valid() && newTable.validBits == 6 + lgK && newTable.Items() == S
      modifies this
      ensures Valid() && coupons == S
      ensures this.numCoupons == numCoupons && windowOffset == 0 && firstInterestingColumn == 0
      ensures forall o :: o in Repr ==> o == this || o == newTable || o == newTable.slots
    {
      SparseSurprises(S, lgK);
      SparseArithmetic(lgK, numCoupons);
      hide WindowOf, TableOk, Surprises, Contents, DetermineCorrectOffset, Pow2;
      this.numCoupons := numCoupons;
      windowOffset := 0;
      slidingWindow := null;
      table := newTable;
      firstInterestingColumn := 0;
      coupons := S;
      Repr := {this, newTable, newTable.slots};
    }

    /** The counting part of updateSparse. */
    method CollectSparse(rowCol: nat) returns (isNovel: bool)
      requires Core() && table != null && slidingWindow == null && Coupon(rowCol, lgK)
      requires numCoupons + 1 <= Pow2(lgK)
      modifies this`numCoupons, this`coupons, table, table.slots
      ensures Core() && (table.slots == old(table.slots) || fresh(table.slots))
      ensures coupons == old(coupons) + {rowCol}
      ensures isNovel == (rowCol !in old(coupons)) && numCoupons == old(numCoupons) + if isNovel then 1 else 0
    {
      hide WindowOf, TableOk, Contents;
      SparseSurprises(coupons, lgK);
      SparseSurprises(coupons + {rowCol}, lgK);
      CellBits(lgK);
      var room;
      isNovel, room := table.MaybeInsert(rowCol);
      assert room; // K keys of 64K at most
      if isNovel {
        numCoupons := numCoupons + 1;
      } else {
        assert coupons + {rowCol} == coupons;
      }
      coupons := coupons + {rowCol};
    }

    /** updateSparse */
    method UpdateSparse(rowCol: nat) returns (isNovel: bool)
      requires Core() && table != null && slidingWindow == null && Coupon(rowCol, lgK)
      requires 32 * numCoupons < 3 * Pow2(lgK)
      modifies this`table, this`slidingWindow, this`numCoupons, this`coupons, table, table.slots
      ensures Core() && table != null && windowOffset == old(windowOffset)
      ensures coupons == old(coupons) + {rowCol}
      ensures isNovel == (rowCol !in old(coupons))
      ensures slidingWindow == null <==> 32 * numCoupons < 3 * Pow2(lgK)
      ensures table == old(table) || fresh(table)
      ensures table.slots == old(table.slots) || fresh(table.slots)
      ensures slidingWindow != null ==> fresh(slidingWindow)
    {
      hide WindowOf, Surprises, TableOk, Contents, CouponSet;
      SparseLimit(lgK, numCoupons);
      isNovel := CollectSparse(rowCol);
      if isNovel {
        if 32 * numCoupons >= 3 * Pow2(lgK) {
          PromoteSparseToWindowed();
        }
      }
    }

    /** One more coupon crosses the sparse limit 3K/32 exactly, except when K is 16. */
    lemma SparseLimit(lgK: nat, c: nat)
      requires lgK >= 4 && 32 * c < 3 * Pow2(lgK)
      ensures c + 1 <= Pow2(lgK)
      ensures 32 * (c + 1) >= 3 * Pow2(lgK) ==> 32 * (c + 1) == 3 * Pow2(lgK) || lgK == 4
      ensures 32 * (c + 1) >= 3 * Pow2(lgK) && lgK == 4 ==> 32 * (c + 1) > 3 * Pow2(lgK)
    {
      assert Pow2(4) == 16 && Pow2(5) == 32;
      Pow2Monotone(4, lgK);
      if lgK >= 5 {
        assert Pow2(lgK) == 2 * Pow2(lgK - 1) == 4 * Pow2(lgK - 2);
        assert Pow2(lgK - 2) == 2 * Pow2(lgK - 3) == 4 * Pow2(lgK - 4) == 8 * Pow2(lgK - 5);
      }
    }

    /** The part of updateWindowed before the window moves. */
    method CollectWindowed(rowCol: nat) returns (isNovel: bool, room: bool)
      requires Core() && table != null && slidingWindow != null && Coupon(rowCol, lgK)
      modifies this`numCoupons, this`coupons, slidingWindow, table, table.slots
      ensures room <==> Room(old(coupons) + {rowCol}, lgK, windowOffset)
      ensures table.slots == old(table.slots) || fresh(table.slots)
      ensures room ==> Core() && coupons == old(coupons) + {rowCol}
      ensures isNovel == (rowCol !in old(coupons)) && (room ==> numCoupons == old(numCoupons) + if isNovel then 1 else 0)
    {
      hide WindowOf, Surprises, TableOk, Contents, Room, CouponSet, Pow2;
      FilledHasRoom(table, coupons, lgK, windowOffset);
      OneMoreCoupon(coupons, lgK, rowCol);
      var col := Col(rowCol);
      if windowOffset <= col < windowOffset + 8 { // track the 8 bits inside the window
        AddCoupon(coupons, lgK, windowOffset, true, rowCol);
        InsideRoom(coupons, lgK, windowOffset, rowCol);
        isNovel := SetWindowBit(Row(rowCol), col - windowOffset, rowCol);
        room := true;
      } else {
        OutsideWindow(slidingWindow[..], coupons, lgK, windowOffset, rowCol);
        isNovel, room := CollectOutside(table, rowCol, lgK, windowOffset, coupons);
        if !room {
          return;
        }
      }
      NoteCoupon(rowCol, isNovel);
    }

    /** Window and table have taken in the coupon: count it. */
    method NoteCoupon(ghost rowCol: nat, isNovel: bool)
      requires 4 <= lgK <= 26 && CouponSet(coupons + {rowCol}, lgK) && numCoupons == |coupons| && windowOffset <= 63
      requires isNovel == (rowCol !in coupons) && table != null && slidingWindow != null
      requires table.Valid() && table.validBits == 6 + lgK && table.slots != slidingWindow
      requires table.Items() == Surprises(coupons + {rowCol}, lgK, windowOffset, true)
      requires WindowOf(slidingWindow[..], coupons + {rowCol}, lgK, windowOffset)
      modifies this`numCoupons, this`coupons
      ensures Core() && coupons == old(coupons) + {rowCol} && numCoupons == old(numCoupons) + if isNovel then 1 else 0
    {
      hide WindowOf, Surprises, TableOk, Contents, CouponSet, Pow2;
      if isNovel {
        numCoupons := numCoupons + 1;
      } else {
        assert coupons + {rowCol} == coupons;
      }
      coupons := coupons + {rowCol};
    }

    method SetWindowBit(row: nat, b: nat, ghost rowCol: nat) returns (isNovel: bool)
      requires slidingWindow != null && WindowOf(slidingWindow[..], coupons, lgK, windowOffset)
      requires b < 8 && Cell(rowCol, lgK) && row == Row(rowCol) && Col(rowCol) == windowOffset + b
      modifies slidingWindow
      ensures WindowOf(slidingWindow[..], coupons + {rowCol}, lgK, windowOffset)
      ensures isNovel == (rowCol !in coupons)
    {
      assert rowCol == Pair(row, windowOffset + b);
      ghost var win := slidingWindow[..];
      var oldBits := slidingWindow[row];
      var newBits := Or(oldBits, Pow2(b));
      SetBits(oldBits, b);
      if newBits != oldBits {
        slidingWindow[row] := newBits;
        assert slidingWindow[..] == win[row := newBits];
        isNovel := true;
        if Bit(oldBits, b) {
          OrSetBit(oldBits, b);
        }
      } else {
        isNovel := false;
        assert Bit(newBits, b);
        assert coupons + {rowCol} == coupons;
      }
    }

    /** updateWindowed: the flavor is Hybrid, Pinned or Sliding. */
    method UpdateWindowed(rowCol: nat) returns (outcome: Outcome)
      requires Consistent() && slidingWindow != null && table != null && Coupon(rowCol, lgK)
      modifies this`numCoupons, this`coupons, this`windowOffset, this`firstInterestingColumn, slidingWindow, table, table.slots
      ensures outcome == StepOutcome(old(coupons), lgK, rowCol)
      ensures outcome == Fine ==> Core() && windowOffset == DetermineCorrectOffset(lgK, numCoupons)
      ensures outcome == Fine ==> firstInterestingColumn <= windowOffset && FullBefore(firstInterestingColumn)
      ensures outcome == Fine ==> coupons == old(coupons) + {rowCol} && numCoupons == |coupons| >= old(numCoupons) && WithinRange(lgK, numCoupons)
      ensures table.slots == old(table.slots) || fresh(table.slots)
    {
      hide WindowOf, Surprises, TableOk, Contents, CouponSet, Room;
      var w8pre := 8 * windowOffset;
      RangeOffset(lgK, numCoupons);
      OffsetIff(lgK, numCoupons, windowOffset);
      ghost var c, w := numCoupons, windowOffset;
      var isNovel, room := CollectWindowed(rowCol);
      if !room {
        return OutOfRoom;
      }
      assert forall x :: x in old(coupons) ==> x in coupons;
      outcome := Fine;
      WindowStep(lgK, c, w);
      if isNovel {
        var c8post := 8 * numCoupons;
        if c8post >= (27 + w8pre) * Pow2(lgK) {
          outcome := ModifyOffset(windowOffset + 1);
        }
      } else {
        assert old(coupons) + {rowCol} == old(coupons);
      }
    }

    /** The sparse half of fm85RowColUpdate. */
    method UpdateFromSparse(rowCol: nat)
      requires Core() && table != null && slidingWindow == null && Coupon(rowCol, lgK)
      requires 32 * numCoupons < 3 * Pow2(lgK) && firstInterestingColumn == 0
      modifies this`table, this`slidingWindow, this`numCoupons, this`coupons, table, table.slots
      ensures Consistent() && coupons == old(coupons) + {rowCol}
      ensures table == old(table) || fresh(table)
      ensures table.slots == old(table.slots) || fresh(table.slots)
      ensures slidingWindow != null ==> fresh(slidingWindow)
    {
      SparseLimit(lgK, numCoupons);
      ghost var c := numCoupons;
      var isNovel := UpdateSparse(rowCol);
      assert rowCol in coupons;
      SparseArithmetic(lgK, numCoupons);
    }

    /** fm85RowColUpdate past the column test. */
    method UpdateByFlavor(rowCol: nat) returns (outcome: Outcome)
      requires Consistent() && Coupon(rowCol, lgK)
      modifies this`numCoupons, this`slidingWindow, this`windowOffset, this`table, this`firstInterestingColumn, this`coupons, Footprint() - {this}
      ensures outcome == StepOutcome(old(coupons), lgK, rowCol)
      ensures outcome == Fine ==> Consistent() && coupons == old(coupons) + {rowCol}
      ensures fresh(Footprint() - old(Footprint()))
    {
      hide WindowOf, Surprises, CouponSet, Room, TableOk, Contents, StepOutcome, DetermineCorrectOffset, WithinRange, Pow2;
      if 32 * numCoupons < 3 * Pow2(lgK) {
        SparseStep(coupons, lgK, rowCol);
        if numCoupons == 0 {
          PromoteEmptyToSparse();
        }
        UpdateFromSparse(rowCol);
        outcome := Fine;
      } else {
        outcome := UpdateWindowed(rowCol);
        SparseArithmetic(lgK, numCoupons);
      }
    }

    /** fm85RowColUpdate */
    method RowColUpdate(rowCol: nat) returns (outcome: Outcome)
      requires Valid() && Coupon(rowCol, lgK)
      modifies this, Repr
      ensures outcome == StepOutcome(old(coupons), lgK, rowCol)
      ensures outcome == Fine ==> Valid() && coupons == old(coupons) + {rowCol}
      ensures fresh(Repr - old(Repr)) && old(Repr) <= Repr
    {
      hide WindowOf, Surprises, TableOk, Contents, CouponSet, Room, DetermineFlavor, DetermineCorrectOffset, Pow2, Shr;
      var col := Col(rowCol);
      if col < firstInterestingColumn { // important speed optimization
        assert coupons == coupons + {rowCol};
        ValidHasRoom(this);
        return Fine;
      }
      outcome := UpdateByFlavor(rowCol);
      Own();
    }

    /** Record the objects in use. */
    ghost method Own()
      modifies this`Repr
      ensures Repr == old(Repr) + Footprint()
      ensures old(Consistent()) ==> Valid()
    {
      hide TableOk, WindowOf, Surprises, CouponSet, Contents;
      Repr := Repr + Footprint();
    }
  }

  lemma RangeOffset(lgK: nat, c: nat)
    requires WithinRange(lgK, c)
    ensures DetermineCorrectOffset(lgK, c) <= 56
  {
    hide DetermineCorrectOffset, Scale, Pow2;
    var w := DetermineCorrectOffset(lgK, c);
    OffsetIff(lgK, c, w);
    Threshold(19, lgK, w);
    Threshold(27, lgK, 56);
    if w > 56 {
      ScaleNext(56, lgK);
      ScaleMonotone(57, w, lgK);
    }
  }

  /** However many of the cells are collected, the window starts at one of the 64 columns. */
  lemma OffsetLimit(S: set<nat>, lgK: nat)
    requires CouponSet(S, lgK)
    ensures DetermineCorrectOffset(lgK, |S|) <= 63
  {
    hide DetermineCorrectOffset, Scale, Pow2;
    var w := DetermineCorrectOffset(lgK, |S|);
    EarlySize(lgK, 64);
    SubsetSize(S, EarlyCells(lgK, 64));
    OffsetIff(lgK, |S|, w);
    Threshold(19, lgK, w);
    if w > 63 {
      ScaleMonotone(64, w, lgK);
    }
  }

  /** At most K coupons keep the window at column zero and every count check satisfied. */
  lemma SparseArithmetic(lgK: nat, c: nat)
    ensures c <= Pow2(lgK) ==> WithinRange(lgK, c) && DetermineCorrectOffset(lgK, c) == 0
    ensures 0 < c && 32 * c < 3 * Pow2(lgK) ==> DetermineFlavor(lgK, c) == Sparse
    ensures 32 * c >= 3 * Pow2(lgK) ==> DetermineFlavor(lgK, c) !in {Empty, Sparse}
  {
    OffsetIff(lgK, c, 0);
  }

  lemma SparseRoom(S: set<nat>, lgK: nat)
    requires |S| <= Pow2(lgK)
    ensures Room(S, lgK, 0) && DetermineCorrectOffset(lgK, |S|) == 0 && WithinRange(lgK, |S|)
  {
    SparseArithmetic(lgK, |S|);
    assert Surprises(S, lgK, 0, true) <= S;
    SubsetSize(Surprises(S, lgK, 0, true), S);
  }

  /** An update of a sketch below the sparse limit never fails. */
  lemma SparseStep(S: set<nat>, lgK: nat, rowCol: nat)
    requires lgK >= 4 && 32 * |S| < 3 * Pow2(lgK)
    ensures StepOutcome(S, lgK, rowCol) == Fine
  {
    hide Room, DetermineCorrectOffset, Pow2, WithinRange;
    Pow2Monotone(4, lgK);
    Sixteen();
    SparseRoom(S + {rowCol}, lgK);
    SparseRoom(S, lgK);
  }

  lemma Sixteen()
    ensures Pow2(4) == 16
  {
  }

  /** Every live sketch has room for its surprises: 48 in a row on the average, of any 64. */
  lemma ValidHasRoom(s: Fm85)
    requires s.Valid()
    ensures Room(s.coupons, s.lgK, DetermineCorrectOffset(s.lgK, |s.coupons|))
  {
    hide WindowOf, Surprises, TableOk, Contents, CouponSet, Room, DetermineCorrectOffset, Pow2;
    if s.slidingWindow != null {
      FilledHasRoom(s.table, s.coupons, s.lgK, s.windowOffset);
    } else {
      SparseRoom(s.coupons, s.lgK);
    }
  }

  method CopyWindow(window: array<nat>) returns (copy: array<nat>)
    ensures fresh(copy) && copy[..] == window[..]
  {
    copy := new nat[window.Length](i requires 0 <= i < window.Length reads window => window[i]);
  }

  /** fm85Copy: the copy shares no object with its source. */
  method CopyOf(source: Fm85) returns (copy: Fm85)
    requires source.Valid()
    ensures fresh(copy) && fresh(copy.Repr) && copy.Valid()
    ensures copy.coupons == source.coupons && copy.lgK == source.lgK
    ensures copy.firstInterestingColumn == source.firstInterestingColumn
  {
    hide WindowOf, TableOk, Surprises, CouponSet, Contents, DetermineCorrectOffset, WithinRange, Pow2;
    copy := new Fm85(source.lgK);
    if source.table != null {
      var table := new U32Table.Copy(source.table);
      if source.slidingWindow != null {
        RangeOffset(source.lgK, source.numCoupons);
        var window := CopyWindow(source.slidingWindow);
        copy.Fill(source.numCoupons, source.windowOffset, window, table, source.firstInterestingColumn, source.coupons);
      } else {
        SparseSurprises(source.coupons, source.lgK);
        copy.FillSparse(source.numCoupons, table, source.coupons);
      }
    }
  }

  /** countTrailingZerosInUnsignedLong of the ORed surprises, clipped to the window offset. */
  function InterestingColumn(ored: nat, offset: nat): (fic: nat)
    ensures fic <= offset && (forall c :: 0 <= c < fic ==> !Bit(ored, c)) && (fic < offset ==> ored == 0 || Bit(ored, fic))
    ensures ored == 0 ==> fic == if offset < 64 then offset else 64
  {
    if ored == 0 then
      assert forall c: nat :: !Bit(0, c) by { forall c: nat ensures !Bit(0, c) { BitZero(c); } }
      if 64 > offset then offset else 64
    else
      var tz := LowestBit(ored);
      if tz > offset then offset else tz
  }

  method FindInterestingColumn(ored: nat, offset: nat, ghost pairs: set<nat>) returns (fic: nat)
    requires ColumnsOf(ored, pairs)
    ensures fic == InterestingColumn(ored, offset)
  {
    hide ColumnsOf;
    ColumnsFit(ored, pairs);
    fic := CountTrailingZerosInUnsignedLong(ored);
    if fic > offset {
      fic := offset;
    }
  }

  lemma ColumnsFit(ored: nat, pairs: set<nat>)
    requires ColumnsOf(ored, pairs)
    ensures ored < Pow2(64)
  {
    hide Bit, Pow2;
    BoundFromBits(ored, 64);
  }

  lemma FirstInteresting(ored: nat, S: set<nat>, lgK: nat, w: nat, fic: nat)
    requires ColumnsOf(ored, Surprises(S, lgK, w, true)) && fic <= w <= 63 && fic == InterestingColumn(ored, w)
    ensures forall rc :: Cell(rc, lgK) && Col(rc) < fic ==> rc in S
    ensures fic < w ==> exists rc :: Cell(rc, lgK) && Col(rc) == fic && rc !in S
  {
    forall rc | Cell(rc, lgK) && Col(rc) < fic
      ensures rc in S
    {
      assert rc in Surprises(S, lgK, w, true) ==> Bit(ored, Col(rc));
    }
  }

  /** There is room for the surprises of the next state, at the old window position and at the new one. */
  ghost predicate RoomFor(S: set<nat>, lgK: nat, rowCol: nat)
  {
    Room(S + {rowCol}, lgK, DetermineCorrectOffset(lgK, |S|)) &&
    Room(S + {rowCol}, lgK, DetermineCorrectOffset(lgK, |S + {rowCol}|))
  }

  /** One more coupon keeps the window where it is or moves it by one column. */
  lemma WindowStep(lgK: nat, c: nat, w: nat)
    requires DetermineCorrectOffset(lgK, c) == w <= 56
    ensures WithinRange(lgK, c)
    ensures 8 * (c + 1) >= (27 + 8 * w) * Pow2(lgK) ==>
              DetermineCorrectOffset(lgK, c + 1) == w + 1 && (w + 1 <= 56 <==> WithinRange(lgK, c + 1))
    ensures 8 * (c + 1) < (27 + 8 * w) * Pow2(lgK) ==>
              DetermineCorrectOffset(lgK, c + 1) == w && WithinRange(lgK, c + 1)
  {
    hide DetermineCorrectOffset, Scale, Pow2;
    OffsetIff(lgK, c, w);
    OffsetIff(lgK, c + 1, w);
    OffsetIff(lgK, c + 1, w + 1);
    Threshold(27, lgK, w);
    Threshold(27, lgK, w + 1);
    Threshold(19, lgK, w);
    Threshold(19, lgK, w + 1);
    Threshold(27, lgK, 56);
    ScaleNext(w, lgK);
    ScaleMonotone(w, 56, lgK);
    if w < 56 {
      ScaleMonotone(w + 1, 56, lgK);
    }
  }

  /** The table part of updateWindowed: a surprising 0 before the window is deleted, a surprising 1 after it inserted. */
  method CollectOutside(table: U32Table, rowCol: nat, lgK: nat, windowOffset: nat, ghost S: set<nat>) returns (isNovel: bool, room: bool)
    requires table.Valid() && table.validBits == 6 + lgK && Coupon(rowCol, lgK)
    requires table.Items() == Surprises(S, lgK, windowOffset, true)
    requires Col(rowCol) < windowOffset || windowOffset + 8 <= Col(rowCol)
    modifies table, table.slots
    ensures room <==> Room(S + {rowCol}, lgK, windowOffset)
    ensures table.slots == old(table.slots) || fresh(table.slots)
    ensures room ==> table.Valid() && table.Items() == Surprises(S + {rowCol}, lgK, windowOffset, true)
    ensures isNovel == (rowCol !in S)
  {
    CellBits(lgK);
    FilledHasRoom(table, S, lgK, windowOffset);
    AddCoupon(S, lgK, windowOffset, true, rowCol);
    if Col(rowCol) < windowOffset {
      SubsetSize(table.Items() - {rowCol}, table.Items());
      isNovel := table.MaybeDelete(rowCol);
      room := true;
    } else {
      assert rowCol !in S ==> |Surprises(S + {rowCol}, lgK, windowOffset, true)| == |table.Items()| + 1;
      isNovel, room := table.MaybeInsert(rowCol);
    }
  }

  lemma OutsideWindow(win: seq<nat>, S: set<nat>, lgK: nat, w: nat, rowCol: nat)
    requires WindowOf(win, S, lgK, w) && (Col(rowCol) < w || w + 8 <= Col(rowCol))
    ensures WindowOf(win, S + {rowCol}, lgK, w)
  {
  }

  /** One entry of a sparse table moves to the window byte of its row, or to the new table. */
  lemma SplitEntry(win: seq<nat>, lgK: nat, done: set<nat>, rowCol: nat)
    requires WindowOf(win, done, lgK, 0) && rowCol !in done && Cell(rowCol, lgK)
    ensures Col(rowCol) < 8 ==>
              WindowOf(win[Row(rowCol) := Or(win[Row(rowCol)], Pow2(Col(rowCol)))], done + {rowCol}, lgK, 0)
    ensures Col(rowCol) >= 8 ==> WindowOf(win, done + {rowCol}, lgK, 0)
  {
    assert rowCol == Pair(Row(rowCol), Col(rowCol));
    if Col(rowCol) < 8 {
      SetBits(win[Row(rowCol)], Col(rowCol));
    }
  }

  method SplitOne(rowCol: nat, window: array<nat>, newTable: U32Table, lgK: nat, ghost done: set<nat>)
    requires lgK <= 26 && Coupon(rowCol, lgK) && rowCol !in done && |done| + 1 <= Pow2(lgK)
    requires window != newTable.slots && newTable.Valid() && newTable.validBits == 6 + lgK
    requires CouponSet(done, lgK)
    requires WindowOf(window[..], done, lgK, 0) && newTable.Items() == Surprises(done, lgK, 0, true)
    modifies window, newTable, newTable.slots
    ensures newTable.Valid() && (newTable.slots == old(newTable.slots) || fresh(newTable.slots))
    ensures WindowOf(window[..], done + {rowCol}, lgK, 0)
    ensures newTable.Items() == Surprises(done + {rowCol}, lgK, 0, true)
  {
    CellBits(lgK);
    SplitEntry(window[..], lgK, done, rowCol);
    AddCoupon(done, lgK, 0, true, rowCol);
    var col, row := Col(rowCol), Row(rowCol);
    if col < 8 {
      ghost var w0 := window[..];
      window[row] := Or(window[row], Pow2(col));
      assert window[..] == w0[row := Or(w0[row], Pow2(col))];
    } else {
      SubsetSize(newTable.Items(), done);
      var isNovel, room := newTable.MaybeInsert(rowCol);
      assert isNovel && room;
    }
  }

  lemma EmptyWindow(win: seq<nat>, lgK: nat)
    requires |win| == Pow2(lgK) && forall r :: 0 <= r < |win| ==> win[r] == 0
    ensures WindowOf(win, {}, lgK, 0) && Surprises({}, lgK, 0, true) == {}
  {
    forall b: nat ensures !Bit(0, b) { BitZero(b); }
  }

  lemma ContentsNone()
    ensures Contents([]) == {}
  {
  }

  lemma SplitReady(s: seq<nat>, i: nat, lgK: nat)
    requires i < |s| && s[i] != EMPTY && Distinct(s) && CouponSet(Contents(s), lgK)
    ensures s[i] !in Contents(s[..i]) && Coupon(s[i], lgK) && CouponSet(Contents(s[..i]), lgK)
    ensures |Contents(s[..i])| + 1 <= |Contents(s)|
  {
    assert s[i] in Contents(s);
    SubsetSize(Contents(s[..i]) + {s[i]}, Contents(s));
  }

  /** The loop of promoteSparseToWindowed. */
  method SplitTable(slots: array<nat>, window: array<nat>, newTable: U32Table, lgK: nat)
    requires lgK <= 26 && Distinct(slots[..]) && CouponSet(Contents(slots[..]), lgK) && |Contents(slots[..])| <= Pow2(lgK)
    requires window.Length == Pow2(lgK) && forall r :: 0 <= r < window.Length ==> window[r] == 0
    requires newTable.Valid() && newTable.validBits == 6 + lgK && newTable.Items() == {}
    requires window != newTable.slots && slots != window && slots != newTable.slots
    modifies window, newTable, newTable.slots
    ensures newTable.Valid() && (newTable.slots == old(newTable.slots) || fresh(newTable.slots))
    ensures WindowOf(window[..], Contents(slots[..]), lgK, 0)
    ensures newTable.Items() == Surprises(Contents(slots[..]), lgK, 0, true)
  {
    hide WindowOf, Surprises, Contents, CouponSet, TableOk, Storable, Pow2;
    EmptyWindow(window[..], lgK);
    ghost var s := slots[..];
    ContentsNone();
    for i := 0 to slots.Length
      invariant newTable.Valid() && (newTable.slots == old(newTable.slots) || fresh(newTable.slots))
      invariant slots[..] == s
      invariant WindowOf(window[..], Contents(s[..i]), lgK, 0)
      invariant newTable.Items() == Surprises(Contents(s[..i]), lgK, 0, true)
    {
      var rowCol := slots[i];
      assert s[..i + 1][..i] == s[..i];
      ContentsSnoc(s[..i + 1]);
      if rowCol != EMPTY {
        SplitReady(s, i, lgK);
        SplitOne(rowCol, window, newTable, lgK, Contents(s[..i]));
      }
    }
    assert s[..|s|] == s;
  }

  lemma SetBits(row: nat, col: nat)
    ensures forall c :: 0 <= c ==> Bit(Or(row, Pow2(col)), c) == (Bit(row, c) || c == col)
  {
    forall c: nat
      ensures Bit(Or(row, Pow2(col)), c) == (Bit(row, c) || c == col)
    {
      BitOr(row, Pow2(col), c);
      BitPow2(col, c);
    }
  }

  // ---- whole runs ----

  ghost function Fed(stream: seq<nat>): set<nat>
  {
    set rc | rc in stream
  }

  /** The surprise table has room at every step. */
  ghost predicate Feedable(lgK: nat, stream: seq<nat>)
  {
    stream == [] ||
    (var n := |stream| - 1;
     Feedable(lgK, stream[..n]) && RoomFor(Fed(stream[..n]), lgK, stream[n]))
  }

  /** How the updates of a sketch that holds the coupons S end: with the first that fails, if there is one. */
  ghost function OutcomeFrom(S: set<nat>, lgK: nat, stream: seq<nat>): Outcome
  {
    if stream == [] then Fine
    else
      var n := |stream| - 1;
      var before := OutcomeFrom(S, lgK, stream[..n]);
      if before == Fine then StepOutcome(S + Fed(stream[..n]), lgK, stream[n]) else before
  }

  /** How a run ends. */
  ghost function RunOutcome(lgK: nat, stream: seq<nat>): Outcome
  {
    OutcomeFrom({}, lgK, stream)
  }

  /** A run ends well exactly when its coupons are in range and the table has room at every step. */
  lemma {:induction false} RunOutcomeIff(lgK: nat, stream: seq<nat>)
    ensures RunOutcome(lgK, stream) == Fine <==> WithinRange(lgK, |Fed(stream)|) && Feedable(lgK, stream)
    ensures RunOutcome(lgK, stream) == OutOfRoom ==> !Feedable(lgK, stream)
    ensures RunOutcome(lgK, stream) == OutOfRange ==> !WithinRange(lgK, |Fed(stream)|)
    decreases |stream|
  {
    hide Room, DetermineCorrectOffset;
    if stream == [] {
      assert Fed(stream) == {};
    } else {
      var n := |stream| - 1;
      FedSnoc(stream);
      assert {} + Fed(stream[..n]) == Fed(stream[..n]);
      RunOutcomeIff(lgK, stream[..n]);
    }
  }

  lemma FedSnoc(stream: seq<nat>)
    requires stream != []
    ensures Fed(stream) == Fed(stream[..|stream| - 1]) + {stream[|stream| - 1]}
    ensures |Fed(stream[..|stream| - 1])| <= |Fed(stream)|
  {
    assert stream == stream[..|stream| - 1] + [stream[|stream| - 1]];
    SubsetSize(Fed(stream[..|stream| - 1]), Fed(stream));
  }

  /**
   * A sketch fed any stream of coupons holds exactly these, unless the run fails: it does exactly when the stream holds
   * 475K/8 or more distinct coupons, or there is a step without room in the surprise table.
   */
  method Run(lgK: nat, stream: seq<nat>) returns (sketch: Fm85, outcome: Outcome)
    requires 4 <= lgK <= 26 && forall rc :: rc in stream ==> Coupon(rc, lgK)
    ensures fresh(sketch.Repr) && outcome == RunOutcome(lgK, stream)
    ensures outcome == Fine <==> 8 * |Fed(stream)| < 475 * Pow2(lgK) && Feedable(lgK, stream)
    ensures outcome == Fine ==> sketch.Valid() && sketch.lgK == lgK && sketch.coupons == Fed(stream)
    decreases |stream|
  {
    hide StepOutcome, Feedable;
    RunOutcomeIff(lgK, stream);
    if stream == [] {
      sketch := new Fm85(lgK);
      outcome := Fine;
      assert Fed(stream) == {};
    } else {
      var n := |stream| - 1;
      FedSnoc(stream);
      assert {} + Fed(stream[..n]) == Fed(stream[..n]);
      sketch, outcome := Run(lgK, stream[..n]);
      if outcome == Fine {
        outcome := sketch.RowColUpdate(stream[n]);
      }
    }
  }

  lemma OffsetMonotone(lgK: nat, c: nat, d: nat)
    requires c <= d
    ensures DetermineCorrectOffset(lgK, c) <= DetermineCorrectOffset(lgK, d)
  {
    var v, w := DetermineCorrectOffset(lgK, c), DetermineCorrectOffset(lgK, d);
    OffsetIff(lgK, c, v);
    OffsetIff(lgK, d, w);
    Threshold(27, lgK, w);
    Threshold(19, lgK, v);
    if v > w {
      ScaleNext(w, lgK);
      ScaleMonotone(w + 1, v, lgK);
    }
  }

  lemma RoomForModest(S: set<nat>, lgK: nat, rowCol: nat)
    requires CouponSet(S + {rowCol}, lgK) && |S + {rowCol}| <= 25 * Pow2(lgK)
    ensures RoomFor(S, lgK, rowCol)
  {
    SubsetSize(S, S + {rowCol});
    OffsetMonotone(lgK, |S|, |S + {rowCol}|);
    RoomWhileModest(S + {rowCol}, lgK, DetermineCorrectOffset(lgK, |S|));
    RoomWhileModest(S + {rowCol}, lgK, DetermineCorrectOffset(lgK, |S + {rowCol}|));
  }

  /** Every stream of at most 25 distinct coupons per row can be fed, whatever its coupons and their order. */
  lemma {:induction false} ModestStreams(lgK: nat, stream: seq<nat>)
    requires (forall rc :: rc in stream ==> Coupon(rc, lgK)) && |Fed(stream)| <= 25 * Pow2(lgK)
    ensures Feedable(lgK, stream)
    decreases |stream|
  {
    if stream != [] {
      var n := |stream| - 1;
      FedSnoc(stream);
      ModestStreams(lgK, stream[..n]);
      RoomForModest(Fed(stream[..n]), lgK, stream[n]);
    }
  }

  /** All cells of the columns from `from` up to, not including, `to`. */
  ghost function Band(lgK: nat, from: nat, to: nat): set<nat>
  {
    set rc: nat | rc < 64 * Pow2(lgK) && from <= Col(rc) < to
  }

  lemma BandSize(lgK: nat, from: nat, to: nat)
    requires from <= to <= 64
    ensures |Band(lgK, from, to)| == Scale(to - from, lgK)
  {
    EarlySize(lgK, from);
    EarlySize(lgK, to);
    assert EarlyCells(lgK, to) == EarlyCells(lgK, from) + Band(lgK, from, to);
    assert EarlyCells(lgK, from) !! Band(lgK, from, to);
    ScaleSum(from, to - from, lgK);
  }

  /** 31 coupons per row, well within the range of the window, whose 56 surprises per row have no room. */
  ghost function Crowded(lgK: nat): set<nat>
  {
    Band(lgK, 28, 31) + Band(lgK, 36, 64) - {EMPTY}
  }

  lemma CrowdedFacts(lgK: nat)
    requires 4 <= lgK <= 26
    ensures CouponSet(Crowded(lgK), lgK) && Crowded(lgK) != {}
    ensures WithinRange(lgK, |Crowded(lgK)|) && DetermineCorrectOffset(lgK, |Crowded(lgK)|) == 28
    ensures !Room(Crowded(lgK), lgK, 28)
  {
    hide Band, Surprises, DetermineCorrectOffset, Pow2, Scale, Crowded;
    Pow2Monotone(4, lgK);
    Sixteen();
    CrowdedSizes(lgK);
    OffsetIff(lgK, |Crowded(lgK)|, 28);
    CrowdedSurprises(lgK);
  }

  /** No live sketch stands for these coupons. */
  lemma NoCrowdedSketch(s: Fm85)
    requires s.Valid()
    ensures s.coupons != Crowded(s.lgK)
  {
    hide Room, Crowded, DetermineCorrectOffset, WithinRange;
    CrowdedFacts(s.lgK);
    ValidHasRoom(s);
  }

  /** Whatever the order, a stream of these coupons runs out of room before it runs out of range. */
  lemma CrowdedStreams(lgK: nat, stream: seq<nat>)
    requires 4 <= lgK <= 26 && Fed(stream) == Crowded(lgK)
    ensures (forall rc :: rc in stream ==> Coupon(rc, lgK)) && !Feedable(lgK, stream) && RunOutcome(lgK, stream) == OutOfRoom
  {
    hide Room, Crowded, DetermineCorrectOffset, WithinRange, RunOutcome;
    CrowdedFacts(lgK);
    RunOutcomeIff(lgK, stream);
    forall rc | rc in stream
      ensures Coupon(rc, lgK)
    {
      assert rc in Fed(stream);
    }
    var rc :| rc in Crowded(lgK);
    assert rc in Fed(stream);
    FedSnoc(stream);
  }

  lemma {:induction false} OrderOf(S: set<nat>) returns (stream: seq<nat>)
    ensures Fed(stream) == S
    decreases |S|
  {
    if S == {} {
      stream := [];
    } else {
      var rc :| rc in S;
      var others := OrderOf(S - {rc});
      stream := others + [rc];
      assert stream[..|stream| - 1] == others;
      FedSnoc(stream);
    }
  }

  /** So for every K there are streams within the range of the window on which the surprise table runs out of room. */
  lemma RoomRunsOut(lgK: nat) returns (stream: seq<nat>)
    requires 4 <= lgK <= 26
    ensures (forall rc :: rc in stream ==> Coupon(rc, lgK)) && WithinRange(lgK, |Fed(stream)|)
    ensures RunOutcome(lgK, stream) == OutOfRoom
  {
    hide Crowded, RunOutcome, WithinRange;
    CrowdedFacts(lgK);
    stream := OrderOf(Crowded(lgK));
    CrowdedStreams(lgK, stream);
  }

  lemma CrowdedSizes(lgK: nat)
    ensures 31 * Pow2(lgK) - 1 <= |Crowded(lgK)| <= 31 * Pow2(lgK)
    ensures 56 * Pow2(lgK) - 1 <= |Band(lgK, 0, 28) + Band(lgK, 36, 64) - {EMPTY}|
  {
    hide Band, Pow2, Scale;
    BandSize(lgK, 28, 31);
    BandSize(lgK, 36, 64);
    BandSize(lgK, 0, 28);
    ScaleIsProduct(3, lgK);
    ScaleIsProduct(28, lgK);
    DisjointBands(lgK);
    OneLess(Band(lgK, 28, 31) + Band(lgK, 36, 64), EMPTY);
    OneLess(Band(lgK, 0, 28) + Band(lgK, 36, 64), EMPTY);
  }

  lemma OneLess(S: set<nat>, x: nat)
    ensures |S| - 1 <= |S - {x}| <= |S|
  {
    if x in S {
      assert S == (S - {x}) + {x};
    } else {
      assert S == S - {x};
    }
  }

  lemma DisjointBands(lgK: nat)
    ensures Band(lgK, 28, 31) !! Band(lgK, 36, 64) && Band(lgK, 0, 28) !! Band(lgK, 36, 64)
  {
  }

  lemma CrowdedSurprises(lgK: nat)
    requires lgK <= 26
    ensures CouponSet(Crowded(lgK), lgK)
    ensures Surprises(Crowded(lgK), lgK, 28, true) == Band(lgK, 0, 28) + (Band(lgK, 36, 64) - {EMPTY})
    ensures Band(lgK, 0, 28) + (Band(lgK, 36, 64) - {EMPTY}) >= Band(lgK, 0, 28) + Band(lgK, 36, 64) - {EMPTY}
    ensures |Surprises(Crowded(lgK), lgK, 28, true)| >= |Band(lgK, 0, 28) + Band(lgK, 36, 64) - {EMPTY}|
  {
    var all := Band(lgK, 0, 28) + Band(lgK, 36, 64) - {EMPTY};
    assert all <= Surprises(Crowded(lgK), lgK, 28, true);
    SubsetSize(all, Surprises(Crowded(lgK), lgK, 28, true));
  }
}
