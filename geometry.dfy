/**
 * Board geometry (engine/src/board.rs:121-141, 222-247): cell indices
 * 0..59 laid out row by row, even rows of 7 cells and odd rows of 8.
 */
module BoardGeometry {
  import opened Hex
  import opened Constants

  function RowLen(row: int): nat
  {
    if row % 2 == 0 then EvenRowLen else OddRowLen
  }

  /** `Board::evenr_to_index`; the `as usize` casts are of non-negative values. */
  function EvenRToIndex(c: EvenR): nat
    requires c.row >= 0 && c.col >= 0
  {
    (EvenRowLen + OddRowLen) * (c.row / 2) + (if c.row % 2 == 1 then EvenRowLen else 0) + c.col
  }

  /** `Board::in_column_bounds` */
  predicate InColumnBounds(c: EvenR)
  {
    if c.col < 0 then false
    else if c.row % 2 == 0 then c.col < EvenRowLen
    else c.col < OddRowLen
  }

  /** `Board::in_bounds` (`&&` short-circuits before the index is formed) */
  predicate InBounds(c: EvenR)
  {
    c.row >= 0 && InColumnBounds(c) && EvenRToIndex(c) < NumCells
  }

  /** The loop of `Board::index_to_evenr`, from row `row` with `idx` cells to go. */
  function Locate(idx: nat, row: nat): EvenR
    decreases idx
  {
    if idx < RowLen(row) then EvenR(idx % RowLen(row), row)
    else Locate(idx - RowLen(row), row + 1)
  }

  /** What `Board::index_to_evenr` returns. */
  function CellAt(idx: nat): EvenR
  {
    Locate(idx, 0)
  }

  /** `Board::index_to_evenr`: subtract row lengths until the index fits in a
      row.  Every iteration subtracts at least 7, so it stops for every index;
      indices of 60 and beyond land on rows 8 and below. */
  method IndexToEvenR(idx0: nat) returns (c: EvenR)
    ensures c == CellAt(idx0)
  {
    var idx: nat := idx0;
    var row: nat := 0;
    while true
      invariant Locate(idx, row) == CellAt(idx0)
      decreases idx
    {
      var rowLen := if row % 2 == 0 then EvenRowLen else OddRowLen;
      if idx < rowLen {
        return EvenR(idx % rowLen, row);
      } else {
        idx := idx - rowLen;
        row := row + 1;
      }
    }
  }

  /** The index of the first cell of a row. */
  function RowStart(row: nat): nat
  {
    if row == 0 then 0 else RowStart(row - 1) + RowLen(row - 1)
  }

  lemma {:induction false} RowStartFormula(row: nat)
    ensures RowStart(row) == 15 * (row / 2) + (if row % 2 == 1 then 7 else 0)
  {
    if row > 0 {
      RowStartFormula(row - 1);
      if row % 2 == 1 {
        assert (row - 1) / 2 == row / 2;
      } else {
        assert (row - 1) / 2 + 1 == row / 2;
      }
    }
  }

  lemma {:induction false} RowStartMonotone(r1: nat, r2: nat)
    requires r1 <= r2
    ensures RowStart(r1) + 7 * (r2 - r1) <= RowStart(r2)
    decreases r2
  {
    if r1 < r2 {
      RowStartMonotone(r1, r2 - 1);
    }
  }

  /** Rows 8 and beyond start at index 60 or later. */
  lemma LastRowStart(row: nat)
    ensures row >= NumRows ==> RowStart(row) >= NumCells
  {
    if row >= NumRows {
      RowStartMonotone(NumRows, row);
      assert RowStart(NumRows) == 60;
    }
  }

  lemma EvenRToIndexIsRowStart(c: EvenR)
    requires c.row >= 0 && c.col >= 0
    ensures EvenRToIndex(c) == RowStart(c.row) + c.col
  {
    RowStartFormula(c.row);
  }

  lemma {:induction false} LocateSpec(idx: nat, row: nat)
    ensures Locate(idx, row).row >= row
    ensures 0 <= Locate(idx, row).col < RowLen(Locate(idx, row).row)
    ensures RowStart(Locate(idx, row).row) + Locate(idx, row).col == RowStart(row) + idx
    decreases idx
  {
    if idx >= RowLen(row) {
      LocateSpec(idx - RowLen(row), row + 1);
    }
  }

  lemma {:induction false} LocateUnique(idx: nat, row: nat, c: EvenR)
    requires row <= c.row && 0 <= c.col < RowLen(c.row)
    requires RowStart(c.row) + c.col == RowStart(row) + idx
    ensures Locate(idx, row) == c
    decreases idx
  {
    if row < c.row {
      RowStartMonotone(row + 1, c.row);
      LocateUnique(idx - RowLen(row), row + 1, c);
    }
  }

  /** Every index maps to a cell of non-negative row and column. */
  lemma CellAtNonNegative(idx: nat)
    ensures CellAt(idx).row >= 0 && CellAt(idx).col >= 0
  {
    LocateSpec(idx, 0);
  }

  /** `evenr_to_index(index_to_evenr(i)) == i` for every board index, and the cell is in bounds. */
  lemma IndexRoundTrip(idx: nat)
    requires idx < NumCells
    ensures InBounds(CellAt(idx))
    ensures EvenRToIndex(CellAt(idx)) == idx
  {
    var c := CellAt(idx);
    LocateSpec(idx, 0);
    EvenRToIndexIsRowStart(c);
    LastRowStart(c.row);
  }

  /** `index_to_evenr(evenr_to_index(c)) == c` for every in-bounds cell. */
  lemma CellRoundTrip(c: EvenR)
    requires InBounds(c)
    ensures EvenRToIndex(c) < NumCells && CellAt(EvenRToIndex(c)) == c
  {
    EvenRToIndexIsRowStart(c);
    LocateUnique(EvenRToIndex(c), 0, c);
  }

  /** In-bounds cells have rows 0..7. */
  lemma InBoundsRows(c: EvenR)
    requires InBounds(c)
    ensures c.row < NumRows
  {
    EvenRToIndexIsRowStart(c);
    LastRowStart(c.row);
  }

  /**
   * Twice the horizontal position of a cell's centre, plus one: 2 * col + 1 on
   * even rows (shifted right by half a cell), 2 * col on odd rows.  In cube
   * coordinates it is 2x + z + 1, which changes linearly along every line.
   */
  function Pos(c: EvenR): int
  {
    2 * FromEvenR(c).x + c.row + 1
  }

  lemma PosColumn(c: EvenR)
    ensures Pos(c) == 2 * c.col + (if c.row % 2 == 0 then 1 else 0)
  {
    HalfUpAsWritten(c.row);
  }

  /** A cell is on the board iff its row is 0..7 and its doubled position 0..14. */
  lemma InBoundsIff(c: EvenR)
    ensures InBounds(c) <==> 0 <= c.row < NumRows && 0 <= Pos(c) <= 14
  {
    PosColumn(c);
    if InBounds(c) {
      InBoundsRows(c);
    }
    if 0 <= c.row < NumRows && 0 <= Pos(c) <= 14 {
      assert c.col >= 0;
      EvenRToIndexIsRowStart(c);
      RowStartMonotone(c.row, 7);
      assert RowStart(7) == 52;
    }
  }

  // ---------------------------------------------------------------------
  // Neighbours

  /** The in-bounds cells of `cells`, as indices, in order. */
  function InBoundIndices(cells: seq<EvenR>): (r: seq<nat>)
    ensures forall i :: 0 <= i < |r| ==> r[i] < NumCells
  {
    if cells == [] then []
    else
      var rest := InBoundIndices(cells[1..]);
      if InBounds(cells[0]) then [EvenRToIndex(cells[0])] + rest else rest
  }

  /** An index is listed exactly when some in-bounds cell of the list has it. */
  lemma {:induction false} InBoundIndicesMembers(cells: seq<EvenR>, n: nat)
    ensures n in InBoundIndices(cells) <==> exists c :: c in cells && InBounds(c) && EvenRToIndex(c) == n
  {
    if cells != [] {
      InBoundIndicesMembers(cells[1..], n);
      assert forall c :: c in cells <==> c == cells[0] || c in cells[1..];
    }
  }

  /** `Board::neighbors`: the in-bounds neighbours of a cell, as indices. */
  function Neighbors(idx: nat): (r: seq<nat>)
    ensures forall i :: 0 <= i < |r| ==> r[i] < NumCells
  {
    InBoundIndices(Hex.Neighbors(CellAt(idx)))
  }

  /** The board neighbours of a cell are exactly the indices of its in-bounds hex neighbours. */
  lemma NeighborsSpec(idx: nat, n: nat)
    requires idx < NumCells
    ensures n in Neighbors(idx) <==> n < NumCells && CellAt(n) in Hex.Neighbors(CellAt(idx))
  {
    InBoundIndicesMembers(Hex.Neighbors(CellAt(idx)), n);
    if n in Neighbors(idx) {
      var c :| c in Hex.Neighbors(CellAt(idx)) && InBounds(c) && EvenRToIndex(c) == n;
      CellRoundTrip(c);
    }
    if n < NumCells && CellAt(n) in Hex.Neighbors(CellAt(idx)) {
      IndexRoundTrip(n);
    }
  }

  /** Adjacency on the board is symmetric and irreflexive. */
  lemma NeighborsSymmetric(a: nat, b: nat)
    requires a < NumCells && b < NumCells
    ensures b in Neighbors(a) <==> a in Neighbors(b)
    ensures a !in Neighbors(a)
  {
    NeighborsSpec(a, b);
    NeighborsSpec(b, a);
    NeighborsSpec(a, a);
    NeighborsDistinct(CellAt(a));
    if CellAt(b) in Hex.Neighbors(CellAt(a)) {
      var i :| 0 <= i < 6 && Hex.Neighbors(CellAt(a))[i] == CellAt(b);
      NeighborSymmetric(CellAt(a), i);
    }
    if CellAt(a) in Hex.Neighbors(CellAt(b)) {
      var i :| 0 <= i < 6 && Hex.Neighbors(CellAt(b))[i] == CellAt(a);
      NeighborSymmetric(CellAt(b), i);
    }
  }

  /** The cell to the left of a cell is its neighbour 3. */
  lemma LeftNeighbor(c: EvenR)
    ensures Hex.Neighbors(c)[3] == EvenR(c.col - 1, c.row)
  {
    CubeRoundTrip(CubeNeighbors(FromEvenR(c))[3]);
  }

  /** The first cell of the row below a cell of column 0 is its neighbour 1
      (odd rows) or 2 (even rows). */
  lemma LowerNeighbor(c: EvenR)
    requires c.col == 0
    ensures Hex.Neighbors(c)[if c.row % 2 == 1 then 1 else 2] == EvenR(0, c.row - 1)
  {
    HalfUpStep(c.row - 1);
    var k := if c.row % 2 == 1 then 1 else 2;
    CubeRoundTrip(CubeNeighbors(FromEvenR(c))[k]);
  }

  /** The cell to the left is a neighbour with a smaller index. */
  lemma SmallerLeft(c: EvenR) returns (d: EvenR)
    requires InBounds(c) && c.col > 0
    ensures d in Hex.Neighbors(c) && InBounds(d) && EvenRToIndex(d) < EvenRToIndex(c)
  {
    InBoundsRows(c);
    EvenRToIndexIsRowStart(c);
    d := EvenR(c.col - 1, c.row);
    LeftNeighbor(c);
    assert d in Hex.Neighbors(c);
    InBoundsIff(d);
    EvenRToIndexIsRowStart(d);
  }

  /** For a cell of column 0 past the first row, the first cell of the row
      below is a neighbour with a smaller index. */
  lemma SmallerBelow(c: EvenR) returns (d: EvenR)
    requires InBounds(c) && c.col == 0 && c.row > 0
    ensures d in Hex.Neighbors(c) && InBounds(d) && EvenRToIndex(d) < EvenRToIndex(c)
  {
    InBoundsRows(c);
    EvenRToIndexIsRowStart(c);
    d := EvenR(0, c.row - 1);
    LowerNeighbor(c);
    assert d in Hex.Neighbors(c);
    assert RowStart(c.row) == RowStart(c.row - 1) + RowLen(c.row - 1);
    InBoundsIff(d);
    EvenRToIndexIsRowStart(d);
  }

  /** Every cell but the first has a neighbour with a smaller index, so the
      empty board is connected. */
  lemma SmallerNeighbor(idx: nat) returns (m: nat)
    requires 0 < idx < NumCells
    ensures m < idx && m in Neighbors(idx)
  {
    var c := CellAt(idx);
    IndexRoundTrip(idx);
    var d;
    if c.col > 0 {
      d := SmallerLeft(c);
    } else {
      EvenRToIndexIsRowStart(c);
      d := SmallerBelow(c);
    }
    m := EvenRToIndex(d);
    CellRoundTrip(d);
    NeighborsSpec(idx, m);
  }
}
