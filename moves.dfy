/**
 * Moves along lines (engine/src/board.rs:100-119, 179-220): a penguin slides
 * any number of cells along one of the six directions, over unclaimed cells
 * only, and stops before the first claimed or off-board cell.
 */
module BoardMoves {
  import opened Wrappers
  import opened Constants
  import opened CellSets
  import opened Hex
  import opened BoardGeometry
  import opened BoardLines
  import opened Boards

  /** Membership with the `BitSet` reading of `contains`: false beyond the set's range. */
  predicate Holds(s: CellSet, v: nat)
  {
    v < 64 && s.Contains(v)
  }

  lemma HoldsMembers(s: CellSet, v: nat)
    ensures Holds(s, v) <==> v in s.Members()
  {
  }

  /** A cell a penguin may slide over or stop on: on the board and unclaimed. */
  predicate Open(b: Board, c: EvenR)
    requires Shaped(b)
  {
    InBounds(c) && !IsClaimed(b, EvenRToIndex(c))
  }

  /** The leading open cells of a list: the `take_while` of `legal_moves_in_line`. */
  function TakeOpen(b: Board, cells: seq<EvenR>): (r: seq<EvenR>)
    requires Shaped(b)
    ensures forall j :: 0 <= j < |r| ==> InBounds(r[j])
  {
    if cells != [] && Open(b, cells[0]) then [cells[0]] + TakeOpen(b, cells[1..]) else []
  }

  /** What `take_while` promises: a prefix of open cells, followed by a cell
      that is not open unless the list is used up. */
  lemma {:induction false} TakeOpenSpec(b: Board, cells: seq<EvenR>)
    requires Shaped(b)
    ensures |TakeOpen(b, cells)| <= |cells|
    ensures forall i :: 0 <= i < |TakeOpen(b, cells)| ==> TakeOpen(b, cells)[i] == cells[i] && Open(b, cells[i])
    ensures |TakeOpen(b, cells)| < |cells| ==> !Open(b, cells[|TakeOpen(b, cells)|])
  {
    if cells != [] && Open(b, cells[0]) {
      var rest := cells[1..];
      TakeOpenSpec(b, rest);
      var r := TakeOpen(b, rest);
      forall i | 1 <= i < 1 + |r|
        ensures TakeOpen(b, cells)[i] == cells[i] && Open(b, cells[i])
      {
        assert TakeOpen(b, cells)[i] == r[i - 1] && rest[i - 1] == cells[i];
      }
      if 1 + |r| < |cells| {
        assert cells[1 + |r|] == rest[|r|];
      }
    }
  }

  /** Cells k .. k + n - 1 of the ray from src through dst. */
  function RayFrom(src: EvenR, dst: EvenR, k: nat, n: nat): (r: seq<EvenR>)
    ensures |r| == n
    ensures forall j :: 0 <= j < n ==> r[j] == LineAt(src, dst, k + j)
    decreases n
  {
    if n == 0 then [] else [LineAt(src, dst, k)] + RayFrom(src, dst, k + 1, n - 1)
  }

  /** Cells 1..7 of the ray `line(src, dst).skip(1)`.  The source's ray is
      unbounded; from a board cell the eighth step is off the board (lemma
      `RayLeavesBoard`), so `take_while` never looks further. */
  function Ray(src: EvenR, dst: EvenR): seq<EvenR>
  {
    RayFrom(src, dst, 1, 7)
  }

  /** `Board::legal_moves_in_line`.  `line` panics on cells out of line;
      `moves` calls it only with a cell and one of its neighbours, which are
      in line (lemma `NeighborInLine`), so no precondition is needed here. */
  function LegalMovesInLine(b: Board, src: EvenR, dst: EvenR): (r: seq<EvenR>)
    requires Shaped(b)
    ensures forall j :: 0 <= j < |r| ==> InBounds(r[j])
  {
    if src == dst then [] else TakeOpen(b, Ray(src, dst))
  }

  /** The moves along a line are the open cells of the ray, in order... */
  lemma LegalMovesInLineCells(b: Board, src: EvenR, dst: EvenR)
    requires Shaped(b) && LineDefined(src, dst)
    ensures forall i :: 0 <= i < |LegalMovesInLine(b, src, dst)| ==>
      LegalMovesInLine(b, src, dst)[i] == LineAt(src, dst, i + 1) && Open(b, LineAt(src, dst, i + 1))
  {
    var ray := Ray(src, dst);
    assert LegalMovesInLine(b, src, dst) == TakeOpen(b, ray);
    RayOpen(b, src, dst, ray);
  }

  /** The open prefix of any seven-cell ray prefix. */
  lemma RayOpen(b: Board, src: EvenR, dst: EvenR, ray: seq<EvenR>)
    requires Shaped(b)
    requires |ray| == 7 && forall j :: 0 <= j < 7 ==> ray[j] == LineAt(src, dst, 1 + j)
    ensures forall i :: 0 <= i < |TakeOpen(b, ray)| ==>
      TakeOpen(b, ray)[i] == LineAt(src, dst, i + 1) && Open(b, LineAt(src, dst, i + 1))
  {
    var r := TakeOpen(b, ray);
    TakeOpenSpec(b, ray);
    forall i | 0 <= i < |r|
      ensures r[i] == LineAt(src, dst, i + 1) && Open(b, LineAt(src, dst, i + 1))
    {
      assert r[i] == ray[i];
    }
  }

  /** ... and the cell after the last of them is not open. */
  lemma LegalMovesInLineStop(b: Board, src: EvenR, dst: EvenR)
    requires Shaped(b) && InBounds(src) && LineDefined(src, dst)
    ensures !Open(b, LineAt(src, dst, |LegalMovesInLine(b, src, dst)| + 1))
  {
    RayStop(b, src, dst, Ray(src, dst));
  }

  /** The stop condition on any seven-cell ray prefix. */
  lemma RayStop(b: Board, src: EvenR, dst: EvenR, ray: seq<EvenR>)
    requires Shaped(b) && InBounds(src) && LineDefined(src, dst)
    requires |ray| == 7 && forall j :: 0 <= j < 7 ==> ray[j] == LineAt(src, dst, 1 + j)
    ensures !Open(b, LineAt(src, dst, |TakeOpen(b, ray)| + 1))
  {
    var n := |TakeOpen(b, ray)|;
    TakeOpenStop(b, ray);
    if n == 7 {
      RayLeavesBoard(src, dst, 8);
    } else {
      assert ray[n] == LineAt(src, dst, n + 1);
    }
  }

  /** The cell `take_while` stops at is not open. */
  lemma TakeOpenStop(b: Board, cells: seq<EvenR>)
    requires Shaped(b)
    ensures |TakeOpen(b, cells)| <= |cells|
    ensures |TakeOpen(b, cells)| < |cells| ==> !Open(b, cells[|TakeOpen(b, cells)|])
  {
    TakeOpenSpec(b, cells);
  }

  /** `evenr_to_index` of an on-board cell. */
  function BoardIndex(c: EvenR): (r: nat)
    requires InBounds(c)
    ensures r < NumCells
  {
    EvenRToIndex(c)
  }

  /** `.map(evenr_to_index)` over on-board cells. */
  function ToIndices(cells: seq<EvenR>): (r: seq<nat>)
    requires forall i :: 0 <= i < |cells| ==> InBounds(cells[i])
    ensures |r| == |cells|
    ensures forall i :: 0 <= i < |cells| ==> r[i] == BoardIndex(cells[i])
  {
    if cells == [] then []
    else
      assert forall i :: 0 <= i < |cells| - 1 ==> cells[1..][i] == cells[i + 1];
      [BoardIndex(cells[0])] + ToIndices(cells[1..])
  }

  /** The moves along the ray through the i-th neighbour. */
  function RayMoves(b: Board, cell: EvenR, i: nat): seq<nat>
    requires Shaped(b) && i < 6
  {
    ToIndices(LegalMovesInLine(b, cell, Hex.Neighbors(cell)[i]))
  }

  /** The rays through the first n neighbours, in the neighbours' order
      (`flat_map`). */
  function MovesUpTo(b: Board, cell: EvenR, n: nat): seq<nat>
    requires Shaped(b) && n <= 6
  {
    if n == 0 then [] else MovesUpTo(b, cell, n - 1) + RayMoves(b, cell, n - 1)
  }

  /** `Board::moves`: the rays through each of the cell's six neighbours. */
  function Moves(b: Board, idx: nat): seq<nat>
    requires Shaped(b) && idx < NumCells
  {
    var cell := CellAt(idx);
    MovesUpTo(b, cell, |Hex.Neighbors(cell)|)
  }

  lemma {:induction false} MovesUpToSpec(b: Board, cell: EvenR, n: nat, m: nat)
    requires Shaped(b) && n <= 6
    ensures m in MovesUpTo(b, cell, n) <==> exists j :: 0 <= j < n && m in RayMoves(b, cell, j)
  {
    if n > 0 {
      MovesUpToSpec(b, cell, n - 1, m);
      assert MovesUpTo(b, cell, n) == MovesUpTo(b, cell, n - 1) + RayMoves(b, cell, n - 1);
      if exists j :: 0 <= j < n && m in RayMoves(b, cell, j) {
        var j :| 0 <= j < n && m in RayMoves(b, cell, j);
        if j < n - 1 {
          assert m in MovesUpTo(b, cell, n - 1);
        }
      }
    }
  }

  /** Every cell from step 1 up to dst along the line from src is open. */
  predicate ClearTo(b: Board, src: EvenR, dst: EvenR)
    requires Shaped(b)
  {
    forall k: nat :: 1 <= k <= LineDistance(src, dst) ==> Open(b, LineAt(src, dst, k))
  }

  /** The path to the m-th cell of a list of open ray cells is that list's prefix. */
  lemma PrefixClear(b: Board, src: EvenR, dst: EvenR, r: seq<EvenR>, m: nat)
    requires Shaped(b) && LineDefined(src, dst) && m < |r|
    requires forall i :: 0 <= i < |r| ==> r[i] == LineAt(src, dst, i + 1) && Open(b, LineAt(src, dst, i + 1))
    ensures LineDefined(src, r[m]) && ClearTo(b, src, r[m])
  {
    var c := r[m];
    RayThroughPoint(src, dst, m + 1);
    forall k: nat | 1 <= k <= LineDistance(src, c)
      ensures Open(b, LineAt(src, c, k))
    {
      assert r[k - 1] == LineAt(src, dst, k - 1 + 1);
      OpenThroughPoint(b, src, dst, m + 1, k);
    }
  }

  /** An open cell of a ray is an open cell of the ray through any later cell. */
  lemma OpenThroughPoint(b: Board, src: EvenR, dst: EvenR, j: nat, k: nat)
    requires Shaped(b) && LineDefined(src, dst) && j >= 1 && Open(b, LineAt(src, dst, k))
    ensures LineDefined(src, LineAt(src, dst, j)) && Open(b, LineAt(src, LineAt(src, dst, j), k))
  {
    RayThroughPoint(src, dst, j);
  }

  /** A ray move is the index of the m-th scanned cell of its ray. */
  lemma RayMoveCell(b: Board, cell: EvenR, i: nat, n: nat) returns (m: nat, c: EvenR)
    requires Shaped(b) && i < 6 && n in RayMoves(b, cell, i)
    ensures m < |LegalMovesInLine(b, cell, Hex.Neighbors(cell)[i])|
    ensures c == LegalMovesInLine(b, cell, Hex.Neighbors(cell)[i])[m]
    ensures InBounds(c) && n == EvenRToIndex(c)
  {
    var r := LegalMovesInLine(b, cell, Hex.Neighbors(cell)[i]);
    var idxs := ToIndices(r);
    assert idxs == RayMoves(b, cell, i);
    m :| 0 <= m < |idxs| && idxs[m] == n;
    c := r[m];
  }

  /** A ray move reaches an open cell in line, over open cells only. */
  lemma RayMoveSound(b: Board, cell: EvenR, i: nat, n: nat)
    requires Shaped(b) && InBounds(cell) && i < 6 && n in RayMoves(b, cell, i)
    ensures n < NumCells && LineDefined(cell, CellAt(n)) && ClearTo(b, cell, CellAt(n))
  {
    var m, c := RayMoveCell(b, cell, i, n);
    RayCellClear(b, cell, i, m);
    CellRoundTrip(c);
  }

  /** The m-th cell a ray reaches is in line and reached over open cells. */
  lemma RayCellClear(b: Board, cell: EvenR, i: nat, m: nat)
    requires Shaped(b) && i < 6 && m < |LegalMovesInLine(b, cell, Hex.Neighbors(cell)[i])|
    ensures LineDefined(cell, LegalMovesInLine(b, cell, Hex.Neighbors(cell)[i])[m])
    ensures ClearTo(b, cell, LegalMovesInLine(b, cell, Hex.Neighbors(cell)[i])[m])
  {
    var nb := Hex.Neighbors(cell)[i];
    LineToNeighbor(cell, i);
    LegalMovesInLineCells(b, cell, nb);
    PrefixClear(b, cell, nb, LegalMovesInLine(b, cell, nb), m);
  }

  /** Every open cell in line and reached over open cells is a ray move. */
  lemma RayMoveComplete(b: Board, cell: EvenR, n: nat) returns (i: nat)
    requires Shaped(b) && InBounds(cell)
    requires n < NumCells && LineDefined(cell, CellAt(n)) && ClearTo(b, cell, CellAt(n))
    ensures i < 6 && n in RayMoves(b, cell, i)
  {
    var d := CellAt(n);
    i := LineThroughNeighbor(cell, d);
    var nb := Hex.Neighbors(cell)[i];
    LineToNeighbor(cell, i);
    LineReachesDst(cell, d);
    var dist := LineDistance(cell, d);
    LegalMovesInLineCells(b, cell, nb);
    LegalMovesInLineStop(b, cell, nb);
    var r := LegalMovesInLine(b, cell, nb);
    assert |r| >= dist;
    assert r[dist - 1] == LineAt(cell, nb, (dist - 1) + 1);
    assert r[dist - 1] == d;
    IndexRoundTrip(n);
    assert ToIndices(r)[dist - 1] == n;
  }

  /**
   * The moves of a cell are exactly the board cells in line with it whose
   * path, the destination included, is on the board and unclaimed.
   */
  lemma MovesSpec(b: Board, idx: nat, n: nat)
    requires Shaped(b) && idx < NumCells
    ensures n in Moves(b, idx) <==> n < NumCells && LineDefined(CellAt(idx), CellAt(n)) && ClearTo(b, CellAt(idx), CellAt(n))
  {
    var cell := CellAt(idx);
    IndexRoundTrip(idx);
    MovesUpToSpec(b, cell, 6, n);
    if n in Moves(b, idx) {
      var j :| 0 <= j < 6 && n in RayMoves(b, cell, j);
      RayMoveSound(b, cell, j, n);
    }
    if n < NumCells && LineDefined(cell, CellAt(n)) && ClearTo(b, cell, CellAt(n)) {
      var j := RayMoveComplete(b, cell, n);
    }
  }

  /** A move's destination is an unclaimed board cell other than the source. */
  lemma MovesUnclaimed(b: Board, idx: nat, n: nat)
    requires Shaped(b) && idx < NumCells && n in Moves(b, idx)
    ensures n < NumCells && n != idx && !IsClaimed(b, n)
  {
    MovesSpec(b, idx, n);
    LineReachesDst(CellAt(idx), CellAt(n));
    IndexRoundTrip(n);
    assert Open(b, LineAt(CellAt(idx), CellAt(n), LineDistance(CellAt(idx), CellAt(n))));
  }

  /** Moves are board cells. */
  lemma MovesUnclaimedBound(b: Board, idx: nat, n: nat)
    requires Shaped(b) && idx < NumCells && n >= NumCells
    ensures n !in Moves(b, idx)
  {
    MovesSpec(b, idx, n);
  }

  /** Every cell adjacent to a cell and unclaimed is one of its moves: the
      first cell of the ray through it. */
  lemma NeighborIsMove(b: Board, idx: nat, n: nat)
    requires Shaped(b) && idx < NumCells && n in BoardGeometry.Neighbors(idx) && !IsClaimed(b, n)
    ensures n in Moves(b, idx)
  {
    var cell := CellAt(idx);
    NeighborsSpec(idx, n);
    var i :| 0 <= i < 6 && Hex.Neighbors(cell)[i] == CellAt(n);
    var nb := CellAt(n);
    LineToNeighbor(cell, i);
    IndexRoundTrip(n);
    assert Open(b, LineAt(cell, nb, 1));
    forall k: nat | 1 <= k <= LineDistance(cell, nb)
      ensures Open(b, LineAt(cell, nb, k))
    {
      assert k == 1;
    }
    MovesSpec(b, idx, n);
  }

  // ---------------------------------------------------------------------
  // Legality of a move request

  /** The cells strictly between src and dst on their line: the
      `take_while(hex != dst)` of `is_clear_path`. */
  function Between(src: EvenR, dst: EvenR): (r: seq<EvenR>)
    requires LineDefined(src, dst)
  {
    LineReachesDst(src, dst);
    RayFrom(src, dst, 1, LineDistance(src, dst) - 1)
  }

  /** Between two cells of non-negative coordinates, coordinates stay non-negative. */
  lemma BetweenNonNegative(src: EvenR, dst: EvenR)
    requires LineDefined(src, dst)
    requires src.row >= 0 && src.col >= 0 && dst.row >= 0 && dst.col >= 0
    ensures forall i :: 0 <= i < |Between(src, dst)| ==> Between(src, dst)[i].row >= 0 && Between(src, dst)[i].col >= 0
  {
    LineReachesDst(src, dst);
    forall i | 0 <= i < |Between(src, dst)|
      ensures Between(src, dst)[i].row >= 0 && Between(src, dst)[i].col >= 0
    {
      LineNonNegative(src, dst, i + 1, LineDistance(src, dst));
    }
  }

  /** `.map(evenr_to_index).all(|idx| !is_claimed(idx))` */
  function AllUnclaimed(b: Board, cells: seq<EvenR>): (r: bool)
    requires Shaped(b)
    requires forall i :: 0 <= i < |cells| ==> cells[i].row >= 0 && cells[i].col >= 0
    ensures r <==> forall i :: 0 <= i < |cells| ==> !IsClaimed(b, EvenRToIndex(cells[i]))
  {
    if cells == [] then true
    else
      assert forall i :: 0 <= i < |cells| - 1 ==> cells[1..][i] == cells[i + 1];
      !IsClaimed(b, EvenRToIndex(cells[0])) && AllUnclaimed(b, cells[1..])
  }

  /** `Board::is_clear_path`; `line` panics unless the cells are distinct and in line. */
  function IsClearPath(b: Board, src: EvenR, dst: EvenR): bool
    requires Shaped(b) && LineDefined(src, dst)
    requires src.row >= 0 && src.col >= 0 && dst.row >= 0 && dst.col >= 0
  {
    BetweenNonNegative(src, dst);
    !IsClaimed(b, EvenRToIndex(dst)) && AllUnclaimed(b, Between(src, dst))
  }

  /** Between two board cells every cell of the path is on the board. */
  lemma PathInBounds(src: EvenR, dst: EvenR)
    requires LineDefined(src, dst) && InBounds(src) && InBounds(dst)
    ensures forall k: nat :: k <= LineDistance(src, dst) ==> InBounds(LineAt(src, dst, k))
  {
    LineReachesDst(src, dst);
    forall k: nat | k <= LineDistance(src, dst)
      ensures InBounds(LineAt(src, dst, k))
    {
      LineConvex(src, dst, k, LineDistance(src, dst));
    }
  }

  /** Between two board cells, a clear path is exactly an open one. */
  lemma ClearPathIsClearTo(b: Board, src: EvenR, dst: EvenR)
    requires Shaped(b) && LineDefined(src, dst) && InBounds(src) && InBounds(dst)
    ensures IsClearPath(b, src, dst) <==> ClearTo(b, src, dst)
  {
    if IsClearPath(b, src, dst) {
      ClearPathOpen(b, src, dst);
    }
    if ClearTo(b, src, dst) {
      OpenClearPath(b, src, dst);
    }
  }

  /** A clear path is open all the way to dst. */
  lemma ClearPathOpen(b: Board, src: EvenR, dst: EvenR)
    requires Shaped(b) && LineDefined(src, dst) && InBounds(src) && InBounds(dst)
    requires IsClearPath(b, src, dst)
    ensures ClearTo(b, src, dst)
  {
    LineReachesDst(src, dst);
    PathInBounds(src, dst);
    var dist := LineDistance(src, dst);
    var cells := Between(src, dst);
    forall k: nat | 1 <= k <= dist
      ensures Open(b, LineAt(src, dst, k))
    {
      if k < dist {
        assert cells[k - 1] == LineAt(src, dst, k);
      }
    }
  }

  /** A path open all the way to dst is clear. */
  lemma OpenClearPath(b: Board, src: EvenR, dst: EvenR)
    requires Shaped(b) && LineDefined(src, dst) && InBounds(src) && InBounds(dst)
    requires ClearTo(b, src, dst)
    ensures IsClearPath(b, src, dst)
  {
    LineReachesDst(src, dst);
    BetweenNonNegative(src, dst);
    var dist := LineDistance(src, dst);
    var cells := Between(src, dst);
    assert Open(b, LineAt(src, dst, dist));
    forall i | 0 <= i < |cells|
      ensures !IsClaimed(b, EvenRToIndex(cells[i]))
    {
      assert cells[i] == LineAt(src, dst, i + 1);
      assert Open(b, LineAt(src, dst, i + 1));
    }
  }

  /**
   * When `is_legal_move` as written reaches `line`, which panics for cells out
   * of line: a penguin on src and dst unclaimed.
   */
  predicate ReachesLine(b: Board, p: Player, src: nat, dst: nat)
    requires Shaped(b) && p.id < 4
  {
    Holds(b.penguins[p.id], src) && !IsClaimed(b, dst)
  }

  /** `Board::is_legal_move` as written: no check that dst is on the board,
      and the line is not checked before `line` is called. */
  function IsLegalMoveAsWritten(b: Board, p: Player, src: nat, dst: nat): (r: bool)
    requires Shaped(b) && p.id < 4
    requires ReachesLine(b, p, src, dst) ==> LineDefined(CellAt(src), CellAt(dst))
    ensures r ==> src in b.penguins[p.id].Members() && !IsClaimed(b, dst)
  {
    CellAtNonNegative(src);
    CellAtNonNegative(dst);
    Holds(b.penguins[p.id], src) && !IsClaimed(b, dst) && IsClearPath(b, CellAt(src), CellAt(dst))
  }

  /** `is_legal_move` with the two missing guards: dst is a board cell in line with src. */
  function IsLegalMove(b: Board, p: Player, src: nat, dst: nat): bool
    requires Shaped(b) && p.id < 4
  {
    CellAtNonNegative(src);
    CellAtNonNegative(dst);
    Holds(b.penguins[p.id], src) && dst < NumCells && !IsClaimed(b, dst) &&
    LineDefined(CellAt(src), CellAt(dst)) && IsClearPath(b, CellAt(src), CellAt(dst))
  }

  /** A move request is legal exactly when the player has a penguin on src and
      dst is one of that penguin's moves. */
  lemma LegalIffMove(b: Board, p: Player, src: nat, dst: nat)
    requires Valid(b) && p.id < 4
    ensures IsLegalMove(b, p, src, dst) <==> src in b.penguins[p.id].Members() && src < NumCells && dst in Moves(b, src)
  {
    if src in b.penguins[p.id].Members() {
      assert src < NumCells;
      MovesSpec(b, src, dst);
      IndexRoundTrip(src);
      if dst < NumCells && LineDefined(CellAt(src), CellAt(dst)) {
        IndexRoundTrip(dst);
        ClearPathIsClearTo(b, CellAt(src), CellAt(dst));
        LineReachesDst(CellAt(src), CellAt(dst));
        if ClearTo(b, CellAt(src), CellAt(dst)) {
          assert Open(b, LineAt(CellAt(src), CellAt(dst), LineDistance(CellAt(src), CellAt(dst))));
        }
      }
    }
  }

  /** Where the source does not panic and dst is a board cell, the two agree. */
  lemma AsWrittenAgrees(b: Board, p: Player, src: nat, dst: nat)
    requires Shaped(b) && p.id < 4 && dst < NumCells
    requires ReachesLine(b, p, src, dst) ==> LineDefined(CellAt(src), CellAt(dst))
    ensures IsLegalMoveAsWritten(b, p, src, dst) == IsLegalMove(b, p, src, dst)
  {
  }

  /**
   * Finding: cells 0 = (0, 0) and 17 = (2, 2) are not in line, yet
   * `is_legal_move(p, 0, 17)` reaches `line` whenever the player has a
   * penguin on 0 and 17 is unclaimed, and there it panics.  The corrected
   * check answers false.
   */
  lemma AsWrittenPanicsOutOfLine(b: Board, p: Player)
    requires Shaped(b) && p.id < 4 && Holds(b.penguins[p.id], 0) && !IsClaimed(b, 17)
    ensures ReachesLine(b, p, 0, 17) && !LineDefined(CellAt(0), CellAt(17))
    ensures !IsLegalMove(b, p, 0, 17)
  {
    LocateUnique(0, 0, EvenR(0, 0));
    RowStartFormula(2);
    LocateUnique(17, 0, EvenR(2, 2));
    assert FromEvenR(EvenR(2, 2)) == Cube(1, -3, 2) by { HalfUpAsWritten(2); }
  }

  /**
   * Finding: from cell 52 = (0, 7), the first cell of the last row,
   * `is_legal_move(p, 52, 60)` accepts (0, 8), one row below the board,
   * whose index is 60: it is in line, adjacent, and unclaimed because
   * nothing is ever claimed there.  60 is not among the moves of 52, and a
   * valid board has no fish tier holding it, so the score of the board
   * after such a move panics in `num_fish`.
   */
  lemma AsWrittenAcceptsOffBoard(b: Board, p: Player)
    requires Valid(b) && p.id < 4 && Holds(b.penguins[p.id], 52)
    ensures CellAt(52) == EvenR(0, 7) && CellAt(60) == EvenR(0, 8) && LineDefined(CellAt(52), CellAt(60))
    ensures IsLegalMoveAsWritten(b, p, 52, 60)
    ensures !IsLegalMove(b, p, 52, 60) && 60 !in Moves(b, 52) && !HasFish(b, 60)
  {
    OffBoardStep();
    OffBoardEmpty(b);
    assert IsClearPath(b, EvenR(0, 7), EvenR(0, 8));
    MovesUnclaimedBound(b, 52, 60);
  }

  /** On a valid board, cell 60 is neither claimed nor in a fish tier. */
  lemma OffBoardEmpty(b: Board)
    requires Valid(b)
    ensures !IsClaimed(b, 60) && !HasFish(b, 60)
  {
    forall q | 0 <= q < 4 ensures 60 !in b.claimed[q].Members() {
      assert OnBoard(b.claimed[q]);
    }
    assert OnBoard(b.fish[0]) && OnBoard(b.fish[1]) && OnBoard(b.fish[2]);
  }

  /** The geometry of the step from 52 to 60. */
  lemma OffBoardStep()
    ensures CellAt(52) == EvenR(0, 7) && CellAt(60) == EvenR(0, 8)
    ensures LineDefined(EvenR(0, 7), EvenR(0, 8)) && Between(EvenR(0, 7), EvenR(0, 8)) == []
    ensures EvenRToIndex(EvenR(0, 8)) == 60
  {
    RowStartFormula(7);
    LocateUnique(52, 0, EvenR(0, 7));
    RowStartFormula(8);
    LocateUnique(60, 0, EvenR(0, 8));
    assert FromEvenR(EvenR(0, 7)) == Cube(-4, -3, 7) by { HalfUpAsWritten(7); }
    assert FromEvenR(EvenR(0, 8)) == Cube(-4, -4, 8) by { HalfUpAsWritten(8); }
    assert LineDistance(EvenR(0, 7), EvenR(0, 8)) == 1;
  }

  /** `Board::move_penguin` over the corrected legality check. */
  function MovePenguin(b: Board, p: Player, src: nat, dst: nat): (r: Result<Board, IllegalMoveError>)
    requires Shaped(b) && p.id < 4
    ensures r.Err? <==> !IsLegalMove(b, p, src, dst)
    ensures r.Err? ==> r.error == IllegalMoveError(p, CannotMoveMessage(p, src, dst))
    ensures r.Ok? ==> Shaped(r.value) && r.value.fish == b.fish
    ensures r.Ok? ==> forall q :: 0 <= q < 4 ==>
      r.value.claimed[q].Members() == b.claimed[q].Members() + (if q == p.id then {dst} else {}) &&
      r.value.penguins[q].Members() == (if q == p.id then b.penguins[q].Members() - {src} + {dst} else b.penguins[q].Members())
  {
    if !IsLegalMove(b, p, src, dst) then
      Err(IllegalMoveError(p, CannotMoveMessage(p, src, dst)))
    else
      var claimed := b.claimed[p.id := b.claimed[p.id].Insert(dst)];
      var penguins := b.penguins[p.id := b.penguins[p.id].Remove(src).Insert(dst)];
      Ok(b.(claimed := claimed, penguins := penguins))
  }

  /** Swapping a member for a non-member keeps a set's size. */
  lemma SwapCard(m: set<nat>, x: nat, y: nat)
    requires x in m && y !in m
    ensures |m - {x} + {y}| == |m|
  {
  }

  /** A legal move keeps the board valid. */
  lemma MovePenguinValid(b: Board, p: Player, src: nat, dst: nat)
    requires Valid(b) && p.id < 4
    ensures MovePenguin(b, p, src, dst).Ok? ==> Valid(MovePenguin(b, p, src, dst).value)
  {
    var r := MovePenguin(b, p, src, dst);
    if r.Ok? {
      assert src in b.penguins[p.id].Members() && dst < NumCells && !IsClaimed(b, dst);
      StepKeepsValid(b, r.value, p.id, src, dst);
    }
  }

  /** Moving one of p's penguins from src to an unclaimed board cell dst,
      which p then claims, keeps a board valid. */
  lemma StepKeepsValid(b: Board, b': Board, p: nat, src: nat, dst: nat)
    requires Valid(b) && Shaped(b') && p < 4 && b'.fish == b.fish
    requires src in b.penguins[p].Members() && dst < NumCells && !IsClaimed(b, dst)
    requires forall q :: 0 <= q < 4 ==>
      b'.claimed[q].Members() == b.claimed[q].Members() + (if q == p then {dst} else {}) &&
      b'.penguins[q].Members() == (if q == p then b.penguins[q].Members() - {src} + {dst} else b.penguins[q].Members())
    ensures Valid(b')
  {
    forall c: nat | c < NumCells ensures HasFish(b', c) {
      assert HasFish(b, c);
    }
    assert TiersPartition(b');
    forall q | 0 <= q < 4 ensures OnBoard(b'.claimed[q]) {
      assert OnBoard(b.claimed[q]);
    }
  }

  /** A legal move keeps the number of the player's penguins. */
  lemma MovePenguinKeepsCount(b: Board, p: Player, src: nat, dst: nat)
    requires Valid(b) && p.id < 4
    ensures MovePenguin(b, p, src, dst).Ok? ==>
      |MovePenguin(b, p, src, dst).value.penguins[p.id].Members()| == |b.penguins[p.id].Members()|
  {
    if MovePenguin(b, p, src, dst).Ok? {
      assert dst !in b.claimed[p.id].Members();
      SwapCard(b.penguins[p.id].Members(), src, dst);
    }
  }
}
