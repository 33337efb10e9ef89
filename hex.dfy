/**
 * Hex-grid coordinates (engine/src/hex.rs): the "even-r" offset layout the
 * board is drawn in, cube coordinates for neighbourhood and line
 * arithmetic, and the ray iterator `line`.
 *
 * Rust's `z & 1` on an `i64` is the two's-complement low bit, which is
 * Dafny's Euclidean `z % 2`; `z + z % 2` is always even, so Rust's
 * truncating `/ 2` and Dafny's agree on it.
 */
module Hex {

  /** Offset coordinates: every even row is shifted half a cell right. */
  datatype EvenR = EvenR(col: int, row: int)

  /** Cube coordinates; cells of the plane are the cubes with x + y + z == 0. */
  datatype Cube = Cube(x: int, y: int, z: int)

  predicate OnPlane(c: Cube)
  {
    c.x + c.y + c.z == 0
  }

  /**
   * Half of r, rounded up: what the source writes `(r + (r & 1)) / 2`
   * (lemma `HalfUpAsWritten`).  It is written by recursion so that the
   * solver unfolds it only where a proof asks for it.
   */
  function HalfUp(r: int): int
    decreases if r < 0 then -2 * r else r
  {
    if r == 0 then 0
    else if r == 1 then 1
    else if r > 1 then 1 + HalfUp(r - 2)
    else HalfUp(r + 2) - 1
  }

  /** `HalfUp` is the source's `(r + (r & 1)) / 2`: `r & 1` of a two's-complement
      integer is r's Euclidean remainder mod 2, the sum is even, and so Rust's
      truncating division is exact. */
  lemma {:induction false} HalfUpAsWritten(r: int)
    ensures (r + r % 2) % 2 == 0
    ensures HalfUp(r) == (r + r % 2) / 2
    ensures 2 * HalfUp(r) == r + r % 2
    decreases if r < 0 then -2 * r else r
  {
    if r > 1 {
      HalfUpAsWritten(r - 2);
    } else if r < 0 {
      HalfUpAsWritten(r + 2);
    }
  }

  /** Going up one row raises HalfUp exactly when the new row is odd. */
  lemma HalfUpStep(r: int)
    ensures HalfUp(r + 1) == HalfUp(r) + (if r % 2 == 0 then 1 else 0)
  {
    HalfUpAsWritten(r);
    HalfUpAsWritten(r + 1);
  }

  /** `EvenR::from_cube` */
  function FromCube(c: Cube): EvenR
  {
    EvenR(c.x + HalfUp(c.z), c.z)
  }

  /** `Cube::from_evenr` */
  function FromEvenR(h: EvenR): Cube
  {
    Cube(h.col - HalfUp(h.row), -(h.col - HalfUp(h.row) + h.row), h.row)
  }

  /** Offset cells map onto the plane x + y + z == 0. */
  lemma FromEvenROnPlane(h: EvenR)
    ensures OnPlane(FromEvenR(h))
  {
  }

  /** Converting to cube coordinates and back loses nothing. */
  lemma EvenRRoundTrip(h: EvenR)
    ensures FromCube(FromEvenR(h)) == h
  {
  }

  /** Every cube of the plane is the image of its offset cell. */
  lemma CubeRoundTrip(c: Cube)
    requires OnPlane(c)
    ensures FromEvenR(FromCube(c)) == c
  {
  }

  /** `Cube::in_line`: the two cubes share a coordinate. */
  predicate CubeInLine(a: Cube, b: Cube)
  {
    a.x == b.x || a.y == b.y || a.z == b.z
  }

  /** `EvenR::in_line` */
  predicate InLine(a: EvenR, b: EvenR)
  {
    CubeInLine(FromEvenR(a), FromEvenR(b))
  }

  /** `Cube::neighbors`, in the source's order. */
  function CubeNeighbors(c: Cube): (r: seq<Cube>)
    ensures |r| == 6
    ensures OnPlane(c) ==> forall i :: 0 <= i < 6 ==> OnPlane(r[i])
  {
    [ Cube(c.x + 1, c.y - 1, c.z),
      Cube(c.x + 1, c.y, c.z - 1),
      Cube(c.x, c.y + 1, c.z - 1),
      Cube(c.x - 1, c.y + 1, c.z),
      Cube(c.x - 1, c.y, c.z + 1),
      Cube(c.x, c.y - 1, c.z + 1) ]
  }

  /** `EvenR::neighbors` */
  function Neighbors(h: EvenR): (r: seq<EvenR>)
    ensures |r| == 6
  {
    var n := CubeNeighbors(FromEvenR(h));
    [FromCube(n[0]), FromCube(n[1]), FromCube(n[2]),
     FromCube(n[3]), FromCube(n[4]), FromCube(n[5])]
  }

  /** The six neighbours are pairwise distinct, none is the cell itself, and
      each lies in line with it. */
  lemma NeighborsDistinct(h: EvenR)
    ensures forall i :: 0 <= i < 6 ==> Neighbors(h)[i] != h && InLine(h, Neighbors(h)[i])
    ensures forall i, j :: 0 <= i < j < 6 ==> Neighbors(h)[i] != Neighbors(h)[j]
  {
    var c := FromEvenR(h);
    var n := CubeNeighbors(c);
    forall i | 0 <= i < 6
      ensures FromEvenR(Neighbors(h)[i]) == n[i]
    {
      CubeRoundTrip(n[i]);
    }
    EvenRRoundTrip(h);
  }

  /** Adjacency is symmetric: h is among the neighbours of each of its neighbours. */
  lemma NeighborSymmetric(h: EvenR, i: nat)
    requires i < 6
    ensures h == Neighbors(Neighbors(h)[i])[(i + 3) % 6]
  {
    var c := FromEvenR(h);
    var n := CubeNeighbors(c)[i];
    CubeRoundTrip(n);
    EvenRRoundTrip(h);
    assert CubeNeighbors(n)[(i + 3) % 6] == c;
  }

  /** The six directions go round the cell in order: the neighbour in each
      direction is adjacent to the neighbour in the next, and the last
      direction is followed by the first. */
  lemma NeighborRing(h: EvenR, i: nat)
    requires i < 6
    ensures Neighbors(h)[if i == 5 then 0 else i + 1] == Neighbors(Neighbors(h)[i])[(i + 2) % 6]
  {
    var n := CubeNeighbors(FromEvenR(h));
    CubeRoundTrip(n[i]);
    assert CubeNeighbors(n[i])[(i + 2) % 6] == n[if i == 5 then 0 else i + 1];
  }

  // ---------------------------------------------------------------------
  // Lines

  /** The coordinate that stays constant along a line, chosen as `line` does:
      x first, then y, then z. */
  datatype Axis = AxisX | AxisY | AxisZ

  /** What `line` demands: distinct cells in line (otherwise it panics). */
  predicate LineDefined(src: EvenR, dst: EvenR)
  {
    src != dst && InLine(src, dst)
  }

  function LineAxis(a: Cube, b: Cube): Axis
  {
    if a.x == b.x then AxisX else if a.y == b.y then AxisY else AxisZ
  }

  /** `get_y` for the x-constant line, `get_x` otherwise. */
  function Other(axis: Axis, c: Cube): int
  {
    if axis == AxisX then c.y else c.x
  }

  function Constant(axis: Axis, c: Cube): int
  {
    match axis
    case AxisX => c.x
    case AxisY => c.y
    case AxisZ => c.z
  }

  /** `make_xy`, `make_yx` and `make_zx`. */
  function Make(axis: Axis, constant: int, other: int): (c: Cube)
    ensures OnPlane(c)
  {
    match axis
    case AxisX => Cube(constant, other, -(constant + other))
    case AxisY => Cube(other, constant, -(other + constant))
    case AxisZ => Cube(other, -(other + constant), constant)
  }

  /** Whether the other coordinate grows from s to d (the iterator then adds
      one per step, else it subtracts one). */
  predicate Ascending(axis: Axis, s: Cube, d: Cube)
  {
    Other(axis, s) < Other(axis, d)
  }

  /** The k-th cube of the ray `line(src, dst)` (the 0-th is src). */
  function LineCube(src: EvenR, dst: EvenR, k: nat): Cube
  {
    var s := FromEvenR(src);
    var d := FromEvenR(dst);
    var axis := LineAxis(s, d);
    var other := if Ascending(axis, s, d) then Other(axis, s) + k else Other(axis, s) - k;
    Make(axis, Constant(axis, s), other)
  }

  /** The neighbour index of one step along `axis` in the given sense. */
  function Direction(axis: Axis, up: bool): (i: nat)
    ensures i < 6
  {
    match axis
    case AxisX => if up then 2 else 5
    case AxisY => if up then 1 else 4
    case AxisZ => if up then 0 else 3
  }

  /** The cube of a neighbour is the corresponding cube neighbour. */
  lemma NeighborCube(h: EvenR, i: nat)
    requires i < 6
    ensures FromEvenR(Neighbors(h)[i]) == CubeNeighbors(FromEvenR(h))[i]
  {
    CubeRoundTrip(CubeNeighbors(FromEvenR(h))[i]);
  }

  /** One more step along the ray moves to the neighbour in the ray's direction. */
  lemma LineCubeStep(src: EvenR, dst: EvenR, k: nat)
    ensures LineCube(src, dst, k + 1) ==
      CubeNeighbors(LineCube(src, dst, k))[Direction(LineAxis(FromEvenR(src), FromEvenR(dst)),
                                                     Ascending(LineAxis(FromEvenR(src), FromEvenR(dst)), FromEvenR(src), FromEvenR(dst)))]
  {
  }

  /** The k-th cell of the ray: what the (k+1)-th call of `next` returns. */
  function LineAt(src: EvenR, dst: EvenR, k: nat): EvenR
  {
    FromCube(LineCube(src, dst, k))
  }

  /** The number of steps from src to dst along their line. */
  function LineDistance(src: EvenR, dst: EvenR): int
  {
    var s := FromEvenR(src);
    var d := FromEvenR(dst);
    var axis := LineAxis(s, d);
    if Other(axis, s) < Other(axis, d) then Other(axis, d) - Other(axis, s)
    else Other(axis, s) - Other(axis, d)
  }

  /** The ray starts at src. */
  lemma LineStart(src: EvenR, dst: EvenR)
    ensures LineAt(src, dst, 0) == src
  {
    EvenRRoundTrip(src);
  }

  /** The ray reaches dst after `LineDistance` steps, and not before. */
  lemma LineReachesDst(src: EvenR, dst: EvenR)
    requires LineDefined(src, dst)
    ensures LineDistance(src, dst) >= 1
    ensures LineAt(src, dst, LineDistance(src, dst)) == dst
    ensures forall k: nat :: k < LineDistance(src, dst) ==> LineAt(src, dst, k) != dst
  {
    var s := FromEvenR(src);
    var d := FromEvenR(dst);
    EvenRRoundTrip(src);
    EvenRRoundTrip(dst);
    assert s != d;
    assert LineCube(src, dst, LineDistance(src, dst)) == d;
    forall k: nat | k < LineDistance(src, dst)
      ensures LineAt(src, dst, k) != dst
    {
      CubeRoundTrip(LineCube(src, dst, k));
    }
  }

  /** The ray never revisits a cell (the `line_is_distinct` property). */
  lemma LineInjective(src: EvenR, dst: EvenR, i: nat, j: nat)
    requires i != j
    ensures LineAt(src, dst, i) != LineAt(src, dst, j)
  {
    CubeRoundTrip(LineCube(src, dst, i));
    CubeRoundTrip(LineCube(src, dst, j));
  }

  /** Every cell of the ray lies in line with src. */
  lemma LineInLine(src: EvenR, dst: EvenR, k: nat)
    ensures InLine(src, LineAt(src, dst, k))
  {
    CubeRoundTrip(LineCube(src, dst, k));
  }

  /** Consecutive cells of the ray are neighbours. */
  lemma LineSteps(src: EvenR, dst: EvenR, k: nat)
    ensures LineAt(src, dst, k + 1) in Neighbors(LineAt(src, dst, k))
  {
    var c := LineCube(src, dst, k);
    CubeRoundTrip(c);
    var s := FromEvenR(src);
    var d := FromEvenR(dst);
    var i := Direction(LineAxis(s, d), Ascending(LineAxis(s, d), s, d));
    LineCubeStep(src, dst, k);
    assert Neighbors(LineAt(src, dst, k))[i] == LineAt(src, dst, k + 1);
  }

  /**
   * Every cell in line with src lies on the ray through exactly one of its
   * neighbours: that ray and the ray through the cell coincide.
   */
  lemma LineThroughNeighbor(src: EvenR, dst: EvenR) returns (i: nat)
    requires LineDefined(src, dst)
    ensures i < 6
    ensures forall k: nat :: LineAt(src, dst, k) == LineAt(src, Neighbors(src)[i], k)
  {
    var s := FromEvenR(src);
    var d := FromEvenR(dst);
    EvenRRoundTrip(src);
    EvenRRoundTrip(dst);
    var axis := LineAxis(s, d);
    i := Direction(axis, Ascending(axis, s, d));
    var n := CubeNeighbors(s)[i];
    NeighborCube(src, i);
    assert LineAxis(s, n) == axis;
    assert Ascending(axis, s, n) == Ascending(axis, s, d);
    forall k: nat
      ensures LineCube(src, dst, k) == LineCube(src, Neighbors(src)[i], k)
    {
    }
  }

  /** The ray through a neighbour: its first step is that neighbour. */
  lemma LineToNeighbor(src: EvenR, i: nat)
    requires i < 6
    ensures LineDefined(src, Neighbors(src)[i])
    ensures LineAt(src, Neighbors(src)[i], 1) == Neighbors(src)[i]
    ensures LineDistance(src, Neighbors(src)[i]) == 1
  {
    NeighborsDistinct(src);
    NeighborCube(src, i);
    EvenRRoundTrip(src);
    var n := Neighbors(src)[i];
    CubeRoundTrip(LineCube(src, n, 1));
    EvenRRoundTrip(n);
    LineReachesDst(src, n);
  }

  lemma NeighborInLine(src: EvenR, i: nat)
    requires i < 6
    ensures InLine(src, Neighbors(src)[i])
  {
    LineToNeighbor(src, i);
  }

  /**
   * `hex::Iterator`: the state `line` returns.  The source stores two
   * function pointers chosen by the constant axis; here the axis itself is
   * stored and `Other`/`Make` dispatch on it.
   */
  class LineIter {
    const constant: int
    const axis: Axis
    const src: Cube
    var cur: Cube
    const dst: Cube
    ghost const srcCell: EvenR
    ghost const dstCell: EvenR
    ghost var steps: nat

    ghost predicate Valid()
      reads this
    {
      src == FromEvenR(srcCell) && dst == FromEvenR(dstCell) &&
      axis == LineAxis(src, dst) && constant == Constant(axis, src) &&
      cur == LineCube(srcCell, dstCell, steps)
    }

    /** `line(src, dst)`; the source panics unless `LineDefined(s, d)`. */
    constructor (s: EvenR, d: EvenR)
      requires LineDefined(s, d)
      ensures Valid() && srcCell == s && dstCell == d && steps == 0
    {
      var sc := FromEvenR(s);
      var dc := FromEvenR(d);
      var ax := LineAxis(sc, dc);
      constant := Constant(ax, sc);
      axis := ax;
      src := sc;
      cur := sc;
      dst := dc;
      srcCell := s;
      dstCell := d;
      steps := 0;
    }

    /** `Iterator::next`: the ray never ends, so the result is always `Some`. */
    method Next() returns (r: EvenR)
      requires Valid()
      modifies this
      ensures Valid() && steps == old(steps) + 1
      ensures r == LineAt(srcCell, dstCell, old(steps))
    {
      var srcOther := Other(axis, src);
      var curOther := Other(axis, cur);
      var dstOther := Other(axis, dst);
      var nextOther := if srcOther < dstOther then curOther + 1 else curOther - 1;
      var ret := cur;
      cur := Make(axis, constant, nextOther);
      steps := steps + 1;
      r := FromCube(ret);
    }
  }
}
