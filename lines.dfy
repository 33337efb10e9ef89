/**
 * Lines on the board: along `line(src, dst)` the row and the doubled
 * horizontal position `Pos` change by a fixed amount per step.  Hence a ray
 * leaves the board within eight steps, and the cells between two in-bounds
 * cells of a line are in bounds.
 */
module BoardLines {
  import opened Hex
  import opened BoardGeometry

  /** Change of row per step along the line. */
  function DRow(src: EvenR, dst: EvenR): int
  {
    var s := FromEvenR(src);
    var d := FromEvenR(dst);
    var axis := LineAxis(s, d);
    var sign := if Ascending(axis, s, d) then 1 else -1;
    if axis == AxisZ then 0 else -sign
  }

  /** Change of `Pos` per step along the line. */
  function DPos(src: EvenR, dst: EvenR): int
  {
    var s := FromEvenR(src);
    var d := FromEvenR(dst);
    var axis := LineAxis(s, d);
    var sign := if Ascending(axis, s, d) then 1 else -1;
    match axis
    case AxisX => -sign
    case AxisY => sign
    case AxisZ => 2 * sign
  }

  /** d * k for the step sizes that occur, written without multiplication. */
  function Scale(d: int, k: nat): int
  {
    var n: int := k;
    if d == 1 then n else if d == -1 then -n
    else if d == 2 then n + n else if d == -2 then -(n + n)
    else 0
  }

  lemma StepSizes(src: EvenR, dst: EvenR)
    ensures -1 <= DRow(src, dst) <= 1
    ensures DPos(src, dst) in {-2, -1, 1, 2}
    ensures DRow(src, dst) == 0 <==> DPos(src, dst) in {-2, 2}
  {
  }

  /** The k-th cell of a line, in closed form. */
  lemma LineClosedForm(src: EvenR, dst: EvenR, k: nat)
    ensures LineAt(src, dst, k).row == src.row + Scale(DRow(src, dst), k)
    ensures Pos(LineAt(src, dst, k)) == Pos(src) + Scale(DPos(src, dst), k)
  {
    var c := LineCube(src, dst, k);
    CubeRoundTrip(c);
    var s := FromEvenR(src);
    var d := FromEvenR(dst);
    var axis := LineAxis(s, d);
    if Ascending(axis, s, d) {
      match axis
      case AxisX =>
        assert c == Cube(s.x, s.y + k, s.z - k);
      case AxisY =>
        assert c == Cube(s.x + k, s.y, s.z - k);
      case AxisZ =>
        assert c == Cube(s.x + k, s.y - k, s.z);
    } else {
      match axis
      case AxisX =>
        assert c == Cube(s.x, s.y - k, s.z + k);
      case AxisY =>
        assert c == Cube(s.x - k, s.y, s.z + k);
      case AxisZ =>
        assert c == Cube(s.x - k, s.y + k, s.z);
    }
  }

  /** From an in-bounds cell, the eighth cell of any ray and every later one is off the board. */
  lemma RayLeavesBoard(src: EvenR, dst: EvenR, k: nat)
    requires InBounds(src) && k >= 8
    ensures !InBounds(LineAt(src, dst, k))
  {
    InBoundsIff(src);
    InBoundsIff(LineAt(src, dst, k));
    LineClosedForm(src, dst, k);
    StepSizes(src, dst);
  }

  /** x lies between a and b (in either order). */
  predicate Between(a: int, x: int, b: int)
  {
    (a <= x <= b) || (b <= x <= a)
  }

  /** Rows and positions of the cells between two cells of a line lie between theirs. */
  lemma LineBetween(src: EvenR, dst: EvenR, j: nat, m: nat)
    requires j <= m
    ensures Between(src.row, LineAt(src, dst, j).row, LineAt(src, dst, m).row)
    ensures Between(Pos(src), Pos(LineAt(src, dst, j)), Pos(LineAt(src, dst, m)))
  {
    LineClosedForm(src, dst, j);
    LineClosedForm(src, dst, m);
    StepSizes(src, dst);
  }

  /** The board is convex along lines: what lies between two in-bounds cells is in bounds. */
  lemma LineConvex(src: EvenR, dst: EvenR, j: nat, m: nat)
    requires j <= m
    requires InBounds(src) && InBounds(LineAt(src, dst, m))
    ensures InBounds(LineAt(src, dst, j))
  {
    LineBetween(src, dst, j, m);
    InBoundsIff(src);
    InBoundsIff(LineAt(src, dst, m));
    InBoundsIff(LineAt(src, dst, j));
  }

  /** Between two cells of non-negative row and column, rows and columns stay non-negative. */
  lemma LineNonNegative(src: EvenR, dst: EvenR, j: nat, m: nat)
    requires j <= m
    requires src.row >= 0 && src.col >= 0
    requires LineAt(src, dst, m).row >= 0 && LineAt(src, dst, m).col >= 0
    ensures LineAt(src, dst, j).row >= 0 && LineAt(src, dst, j).col >= 0
  {
    LineBetween(src, dst, j, m);
    PosColumn(src);
    PosColumn(LineAt(src, dst, m));
    PosColumn(LineAt(src, dst, j));
  }

  /** The ray from src through any later cell of a ray is that same ray, and
      the cell lies at the expected distance. */
  lemma RayThroughPoint(src: EvenR, dst: EvenR, j: nat)
    requires LineDefined(src, dst) && j >= 1
    ensures LineDefined(src, LineAt(src, dst, j))
    ensures LineDistance(src, LineAt(src, dst, j)) == j
    ensures forall k: nat :: LineAt(src, LineAt(src, dst, j), k) == LineAt(src, dst, k)
  {
    var p := LineAt(src, dst, j);
    var s := FromEvenR(src);
    var d := FromEvenR(dst);
    var c := LineCube(src, dst, j);
    CubeRoundTrip(c);
    EvenRRoundTrip(src);
    assert FromEvenR(p) == c;
    var axis := LineAxis(s, d);
    assert LineAxis(s, c) == axis;
    assert Ascending(axis, s, c) == Ascending(axis, s, d);
    LineInjective(src, dst, 0, j);
    LineStart(src, dst);
    LineInLine(src, dst, j);
    forall k: nat
      ensures LineCube(src, p, k) == LineCube(src, dst, k)
    {
    }
  }
}
