/**
 * `Board::is_cut_cell` (engine/src/board.rs:159-177): a cheap test of
 * whether leaving a cell could split an iceberg.  Walking the cell's board
 * neighbours in order, it counts the places where an unclaimed neighbour is
 * directly followed by a claimed one, and answers true once there are two.
 *
 * The six directions go round the cell (`Hex.NeighborRing`), but the loop
 * never compares the last neighbour with the first, so it misses a pair of
 * unclaimed neighbours fenced off from each other across that seam
 * (`AsWrittenMissesWrap`).  `IsCutCellRing` counts around the ring, with
 * off-board directions counted as blocked, and answers true exactly when
 * two unclaimed neighbours are cut apart on both sides (`Separated`); when
 * it answers false, the cell's unclaimed neighbours share one iceberg
 * without it (`NotCutNeighborsJoined`).
 */
module CutCells {
  import opened Constants
  import opened Boards
  import opened BoardGeometry
  import Hex
  import Components

  /** Whether each cell of the list is claimed. */
  function ClaimedFlags(b: Board, cells: seq<nat>): (r: seq<bool>)
    requires Shaped(b)
    ensures |r| == |cells|
    ensures forall i :: 0 <= i < |cells| ==> r[i] == IsClaimed(b, cells[i])
  {
    if cells == [] then [] else [IsClaimed(b, cells[0])] + ClaimedFlags(b, cells[1..])
  }

  /** The number of positions where an unclaimed cell is directly followed by
      a claimed one. */
  function Crossings(flags: seq<bool>): nat
  {
    if |flags| < 2 then 0
    else Crossings(flags[..|flags| - 1]) + (if !flags[|flags| - 2] && flags[|flags| - 1] then 1 else 0)
  }

  /** One more cell adds a crossing exactly when it is claimed and follows an unclaimed one. */
  lemma CrossingsStep(flags: seq<bool>, i: nat)
    requires i < |flags|
    ensures Crossings(flags[..i + 1]) == Crossings(flags[..i]) + (if i >= 1 && !flags[i - 1] && flags[i] then 1 else 0)
  {
    var t := flags[..i + 1];
    assert t[..i] == flags[..i];
  }

  /** A longer list never has fewer crossings than its prefix. */
  lemma {:induction false} CrossingsMonotone(flags: seq<bool>, i: nat)
    requires i <= |flags|
    ensures Crossings(flags[..i]) <= Crossings(flags)
    decreases |flags| - i
  {
    if i < |flags| {
      CrossingsMonotone(flags, i + 1);
      CrossingsStep(flags, i);
    } else {
      assert flags[..i] == flags;
    }
  }

  /** Without claimed cells there is no crossing. */
  lemma {:induction false} CrossingsNoneClaimed(flags: seq<bool>)
    requires forall i :: 0 <= i < |flags| ==> !flags[i]
    ensures Crossings(flags) == 0
  {
    if |flags| >= 2 {
      CrossingsNoneClaimed(flags[..|flags| - 1]);
    }
  }

  /** Two crossings need at least four cells: each one is an unclaimed cell
      followed by a claimed one. */
  lemma {:induction false} CrossingsBound(flags: seq<bool>)
    ensures 2 * Crossings(flags) <= |flags|
  {
    if |flags| >= 2 {
      var s := flags[..|flags| - 1];
      CrossingsBound(s);
      if !flags[|flags| - 2] && flags[|flags| - 1] && |flags| >= 3 {
        CrossingsBound(s[..|s| - 1]);
        assert s[..|s| - 1] == flags[..|flags| - 2];
        assert Crossings(s) == Crossings(s[..|s| - 1]) by {
          assert s[|s| - 1] == flags[|flags| - 2];
        }
      }
    }
  }

  /** `Board::is_cut_cell`: the loop keeps `saw_live` (the previous neighbour
      was unclaimed) and the running count, and stops early at two. */
  method IsCutCell(b: Board, cellIdx: nat) returns (r: bool)
    requires Shaped(b)
    ensures r <==> Crossings(ClaimedFlags(b, BoardGeometry.Neighbors(cellIdx))) >= 2
  {
    var neighbors := BoardGeometry.Neighbors(cellIdx);
    ghost var flags := ClaimedFlags(b, neighbors);
    var sawLive := false;
    var crossings := 0;
    for i := 0 to |neighbors|
      invariant crossings == Crossings(flags[..i]) && crossings < 2
      invariant sawLive <==> i > 0 && !flags[i - 1]
    {
      CrossingsStep(flags, i);
      if !IsClaimed(b, neighbors[i]) {
        sawLive := true;
      } else {
        if sawLive {
          crossings := crossings + 1;
        }
        sawLive := false;
      }
      if crossings >= 2 {
        CrossingsMonotone(flags, i + 1);
        return true;
      }
    }
    assert flags[..|neighbors|] == flags;
    return false;
  }

  /** A cell none of whose board neighbours is claimed is never a cut cell. */
  lemma OpenCellNotCut(b: Board, cellIdx: nat)
    requires Shaped(b)
    requires forall i :: 0 <= i < |BoardGeometry.Neighbors(cellIdx)| ==> !IsClaimed(b, BoardGeometry.Neighbors(cellIdx)[i])
    ensures Crossings(ClaimedFlags(b, BoardGeometry.Neighbors(cellIdx))) < 2
  {
    CrossingsNoneClaimed(ClaimedFlags(b, BoardGeometry.Neighbors(cellIdx)));
  }

  // ---------------------------------------------------------------------
  // Around the ring

  /** The position after i on a ring of n positions. */
  function Next(n: nat, i: nat): (r: nat)
    requires i < n
    ensures r < n
  {
    if i + 1 == n then 0 else i + 1
  }

  /** The position before i on a ring of n positions. */
  function Prev(n: nat, i: nat): (r: nat)
    requires i < n
    ensures r < n && Next(n, r) == i
  {
    if i == 0 then n - 1 else i - 1
  }

  /** The position k steps after i on a ring of n positions. */
  function Around(n: nat, i: nat, k: nat): (r: nat)
    requires i < n && k < n
    ensures r < n
  {
    if i + k < n then i + k else i + k - n
  }

  /** The number of steps forward from i to j. */
  function Gap(n: nat, i: nat, j: nat): (r: nat)
    requires i < n && j < n
    ensures r < n && Around(n, i, r) == j
  {
    if i <= j then j - i else j + n - i
  }

  /** Position i is blocked and the position before it is open. */
  predicate Falls(f: seq<bool>, i: nat)
    requires i < |f|
  {
    f[i] && !f[Prev(|f|, i)]
  }

  /** The number of falls below position n. */
  function FallsBelow(f: seq<bool>, n: nat): nat
    requires n <= |f|
  {
    if n == 0 then 0 else FallsBelow(f, n - 1) + (if Falls(f, n - 1) then 1 else 0)
  }

  /** The number of places round the ring where an open position is
      followed by a blocked one. */
  function RingCrossings(f: seq<bool>): nat
  {
    FallsBelow(f, |f|)
  }

  /** The positions from i up to k steps on are all open. */
  predicate OpenRun(f: seq<bool>, i: nat, k: nat)
    requires i < |f| && k < |f|
  {
    forall m :: 0 <= m <= k ==> !f[Around(|f|, i, m)]
  }

  /** Open positions i and j are linked by open positions along one side of
      the ring or the other. */
  predicate Joined(f: seq<bool>, i: nat, j: nat)
    requires i < |f| && j < |f|
  {
    OpenRun(f, i, Gap(|f|, i, j)) || OpenRun(f, j, Gap(|f|, j, i))
  }

  /** Two open positions are fenced off from each other on both sides. */
  predicate Separated(f: seq<bool>)
  {
    exists i, j :: 0 <= i < |f| && 0 <= j < |f| && !f[i] && !f[j] && !Joined(f, i, j)
  }

  /** A run from an open position that meets a blocked one falls somewhere
      in its first k steps. */
  lemma {:induction false} FirstFall(f: seq<bool>, i: nat, k: nat) returns (m: nat)
    requires i < |f| && k < |f| && !f[i] && !OpenRun(f, i, k)
    ensures 1 <= m <= k && Falls(f, Around(|f|, i, m))
    decreases k
  {
    var n := |f|;
    var blocked :| 0 <= blocked <= k && f[Around(n, i, blocked)];
    assert Prev(n, Around(n, i, blocked)) == Around(n, i, blocked - 1);
    if f[Around(n, i, blocked - 1)] {
      m := FirstFall(f, i, blocked - 1);
    } else {
      m := blocked;
    }
  }

  /** Two different falls are both counted. */
  lemma {:induction false} TwoFallsCount(f: seq<bool>, s: nat, t: nat, n: nat)
    requires n <= |f| && s < |f| && t < |f| && s != t && Falls(f, s) && Falls(f, t)
    ensures FallsBelow(f, n) >= (if s < n then 1 else 0) + (if t < n then 1 else 0)
  {
    if n > 0 {
      TwoFallsCount(f, s, t, n - 1);
    }
  }

  /** A count of one or more has a fall. */
  lemma {:induction false} OneFall(f: seq<bool>, n: nat) returns (s: nat)
    requires n <= |f| && FallsBelow(f, n) >= 1
    ensures s < n && Falls(f, s)
  {
    if Falls(f, n - 1) {
      s := n - 1;
    } else {
      s := OneFall(f, n - 1);
    }
  }

  /** A count of two or more has two different falls. */
  lemma {:induction false} TwoFalls(f: seq<bool>, n: nat) returns (s: nat, t: nat)
    requires n <= |f| && FallsBelow(f, n) >= 2
    ensures s < t < n && Falls(f, s) && Falls(f, t)
  {
    if FallsBelow(f, n - 1) >= 2 {
      s, t := TwoFalls(f, n - 1);
    } else {
      s := OneFall(f, n - 1);
      t := n - 1;
    }
  }

  /** The count below n never exceeds the whole count. */
  lemma {:induction false} FallsMonotone(f: seq<bool>, n: nat)
    requires n <= |f|
    ensures FallsBelow(f, n) <= RingCrossings(f)
    decreases |f| - n
  {
    if n < |f| {
      FallsMonotone(f, n + 1);
    }
  }

  /** What the doc comment of `is_cut_cell` asks for, counted round the
      ring: two crossings or more exactly when two open positions are
      fenced off from each other on both sides. */
  lemma RingSeparation(f: seq<bool>)
    ensures RingCrossings(f) >= 2 <==> Separated(f)
  {
    var n := |f|;
    if RingCrossings(f) >= 2 {
      var s, t := TwoFalls(f, n);
      var i, j := Prev(n, s), Prev(n, t);
      assert Around(n, i, 1) == s && Around(n, j, 1) == t;
      assert !OpenRun(f, i, Gap(n, i, j));
      assert !OpenRun(f, j, Gap(n, j, i));
      assert !f[i] && !f[j] && !Joined(f, i, j);
    }
    if Separated(f) {
      var i, j :| 0 <= i < n && 0 <= j < n && !f[i] && !f[j] && !Joined(f, i, j);
      var a := FirstFall(f, i, Gap(n, i, j));
      var c := FirstFall(f, j, Gap(n, j, i));
      TwoFallsCount(f, Around(n, i, a), Around(n, j, c), n);
    }
  }

  // ---------------------------------------------------------------------
  // The ring round a cell

  /** Whether the cell's neighbour in each of the six directions is off the
      board or claimed. */
  function RingBlocked(b: Board, cellIdx: nat): (r: seq<bool>)
    requires Shaped(b)
    ensures |r| == 6
    ensures forall i :: 0 <= i < 6 ==>
      (r[i] <==> !InBounds(Hex.Neighbors(CellAt(cellIdx))[i]) || IsClaimed(b, EvenRToIndex(Hex.Neighbors(CellAt(cellIdx))[i])))
  {
    var h := Hex.Neighbors(CellAt(cellIdx));
    seq(6, i requires 0 <= i < 6 => !InBounds(h[i]) || IsClaimed(b, EvenRToIndex(h[i])))
  }

  /** `is_cut_cell` corrected to count round the ring: `saw_live` starts
      from the last direction, so the seam between the last direction and
      the first is counted like the others. */
  method IsCutCellRing(b: Board, cellIdx: nat) returns (r: bool)
    requires Shaped(b)
    ensures r <==> Separated(RingBlocked(b, cellIdx))
  {
    var blocked := RingBlocked(b, cellIdx);
    var sawLive := !blocked[5];
    var crossings := 0;
    for i := 0 to 6
      invariant crossings == FallsBelow(blocked, i) && crossings < 2
      invariant i < 6 ==> (sawLive <==> !blocked[Prev(6, i)])
    {
      if !blocked[i] {
        sawLive := true;
      } else {
        if sawLive {
          crossings := crossings + 1;
        }
        sawLive := false;
      }
      if crossings >= 2 {
        FallsMonotone(blocked, i + 1);
        RingSeparation(blocked);
        return true;
      }
    }
    RingSeparation(blocked);
    return false;
  }

  /** The board cell in direction d, when it is on the board. */
  lemma DirectionCell(cellIdx: nat, d: nat) returns (n: nat)
    requires d < 6 && InBounds(Hex.Neighbors(CellAt(cellIdx))[d])
    ensures n == EvenRToIndex(Hex.Neighbors(CellAt(cellIdx))[d]) && n < NumCells
    ensures CellAt(n) == Hex.Neighbors(CellAt(cellIdx))[d]
  {
    CellRoundTrip(Hex.Neighbors(CellAt(cellIdx))[d]);
    n := EvenRToIndex(Hex.Neighbors(CellAt(cellIdx))[d]);
  }

  /** Open directions next to each other round the cell are adjacent board
      cells. */
  lemma RingStep(b: Board, cellIdx: nat, d: nat)
    requires Shaped(b) && d < 6 && !RingBlocked(b, cellIdx)[d] && !RingBlocked(b, cellIdx)[Next(6, d)]
    ensures EvenRToIndex(Hex.Neighbors(CellAt(cellIdx))[Next(6, d)]) in
      BoardGeometry.Neighbors(EvenRToIndex(Hex.Neighbors(CellAt(cellIdx))[d]))
  {
    var h := Hex.Neighbors(CellAt(cellIdx));
    var x := DirectionCell(cellIdx, d);
    var y := DirectionCell(cellIdx, Next(6, d));
    Hex.NeighborRing(CellAt(cellIdx), d);
    assert h[Next(6, d)] in Hex.Neighbors(h[d]);
    NeighborsSpec(x, y);
  }

  /** The cells of an open run round the cell lie in the iceberg of its
      first cell. */
  lemma {:induction false} RunInIceberg(b: Board, cellIdx: nat, i: nat, k: nat)
    requires Shaped(b) && i < 6 && k < 6 && OpenRun(RingBlocked(b, cellIdx), i, k)
    ensures InBounds(Hex.Neighbors(CellAt(cellIdx))[i]) && InBounds(Hex.Neighbors(CellAt(cellIdx))[Around(6, i, k)])
    ensures EvenRToIndex(Hex.Neighbors(CellAt(cellIdx))[Around(6, i, k)]) in
      Components.Iceberg(b, EvenRToIndex(Hex.Neighbors(CellAt(cellIdx))[i]))
  {
    var f := RingBlocked(b, cellIdx);
    var h := Hex.Neighbors(CellAt(cellIdx));
    assert !f[Around(6, i, 0)] && !f[Around(6, i, k)];
    var start := DirectionCell(cellIdx, i);
    Components.AdjacencyFacts();
    var adj := Components.Adjacency();
    var live := Components.Unclaimed(b);
    if k > 0 {
      RunInIceberg(b, cellIdx, i, k - 1);
      var d := Around(6, i, k - 1);
      assert Next(6, d) == Around(6, i, k);
      RingStep(b, cellIdx, d);
      var x := DirectionCell(cellIdx, d);
      var y := DirectionCell(cellIdx, Next(6, d));
      assert adj[x] == BoardGeometry.Neighbors(x);
      assert !IsClaimed(b, y);
      Components.GrowClosed(adj, live, {start});
    }
  }

  /** The direction of a board neighbour of the cell. */
  lemma NeighborDirection(b: Board, cellIdx: nat, u: nat) returns (d: nat)
    requires Shaped(b) && u in BoardGeometry.Neighbors(cellIdx) && !IsClaimed(b, u)
    ensures d < 6 && InBounds(Hex.Neighbors(CellAt(cellIdx))[d])
    ensures EvenRToIndex(Hex.Neighbors(CellAt(cellIdx))[d]) == u && !RingBlocked(b, cellIdx)[d]
  {
    var h := Hex.Neighbors(CellAt(cellIdx));
    InBoundIndicesMembers(h, u);
    var c :| c in h && InBounds(c) && EvenRToIndex(c) == u;
    d :| 0 <= d < 6 && h[d] == c;
  }

  /** What `is_cut_cell` is for: when the ring count says the cell is no
      cut cell, its unclaimed neighbours lie in one iceberg of a board on
      which the cell itself is claimed, so taking the cell out of the open
      cells does not split them apart. */
  lemma NotCutNeighborsJoined(b: Board, cellIdx: nat, u: nat, v: nat)
    requires Shaped(b) && IsClaimed(b, cellIdx) && !Separated(RingBlocked(b, cellIdx))
    requires u in BoardGeometry.Neighbors(cellIdx) && !IsClaimed(b, u)
    requires v in BoardGeometry.Neighbors(cellIdx) && !IsClaimed(b, v)
    ensures u < NumCells && v in Components.Iceberg(b, u)
  {
    var f := RingBlocked(b, cellIdx);
    var i := NeighborDirection(b, cellIdx, u);
    var j := NeighborDirection(b, cellIdx, v);
    assert Joined(f, i, j);
    if OpenRun(f, i, Gap(6, i, j)) {
      RunInIceberg(b, cellIdx, i, Gap(6, i, j));
    } else {
      RunInIceberg(b, cellIdx, j, Gap(6, j, i));
      Components.AdjacencyFacts();
      assert v in Components.Unclaimed(b);
      Components.GrowFromMember(Components.Adjacency(), Components.Unclaimed(b), v, u);
    }
  }

  /** Cell 18 is (3, 2). */
  lemma Cell18At()
    ensures CellAt(18) == Hex.EvenR(3, 2)
  {
    RowStartFormula(2);
    LocateUnique(18, 0, Hex.EvenR(3, 2));
  }

  /** The neighbours of (3, 2) in direction order. */
  lemma Cell18Ring()
    ensures CellAt(18) == Hex.EvenR(3, 2)
    ensures Hex.Neighbors(Hex.EvenR(3, 2)) ==
      [Hex.EvenR(4, 2), Hex.EvenR(4, 1), Hex.EvenR(3, 1), Hex.EvenR(2, 2), Hex.EvenR(3, 3), Hex.EvenR(4, 3)]
  {
    Cell18At();
    assert Hex.HalfUp(1) == 1 && Hex.HalfUp(2) == 1 && Hex.HalfUp(3) == 2;
    assert Hex.FromEvenR(Hex.EvenR(3, 2)) == Hex.Cube(2, -4, 2);
  }

  /** The neighbours of (3, 2) are on the board, with these indices. */
  lemma Cell18Indices()
    ensures InBounds(Hex.EvenR(4, 2)) && EvenRToIndex(Hex.EvenR(4, 2)) == 19
    ensures InBounds(Hex.EvenR(4, 1)) && EvenRToIndex(Hex.EvenR(4, 1)) == 11
    ensures InBounds(Hex.EvenR(3, 1)) && EvenRToIndex(Hex.EvenR(3, 1)) == 10
    ensures InBounds(Hex.EvenR(2, 2)) && EvenRToIndex(Hex.EvenR(2, 2)) == 17
    ensures InBounds(Hex.EvenR(3, 3)) && EvenRToIndex(Hex.EvenR(3, 3)) == 25
    ensures InBounds(Hex.EvenR(4, 3)) && EvenRToIndex(Hex.EvenR(4, 3)) == 26
  {
  }

  /** The board neighbours of cell 18, in direction order. */
  lemma Cell18Neighbors()
    ensures BoardGeometry.Neighbors(18) == [19, 11, 10, 17, 25, 26]
  {
    Cell18Ring();
    Cell18Indices();
    var h := Hex.Neighbors(Hex.EvenR(3, 2));
    assert InBoundIndices(h[5..]) == [26];
    assert InBoundIndices(h[4..]) == [25, 26] by { assert h[4..][1..] == h[5..]; }
    assert InBoundIndices(h[3..]) == [17, 25, 26] by { assert h[3..][1..] == h[4..]; }
    assert InBoundIndices(h[2..]) == [10, 17, 25, 26] by { assert h[2..][1..] == h[3..]; }
    assert InBoundIndices(h[1..]) == [11, 10, 17, 25, 26] by { assert h[1..][1..] == h[2..]; }
  }

  /** The loop as written counts one crossing on claimed, open, claimed,
      open, open, open. */
  lemma OneCrossing(flags: seq<bool>)
    requires flags == [true, false, true, false, false, false]
    ensures Crossings(flags) == 1
  {
    CrossingsStep(flags, 0);
    CrossingsStep(flags, 1);
    CrossingsStep(flags, 2);
    CrossingsStep(flags, 3);
    CrossingsStep(flags, 4);
    CrossingsStep(flags, 5);
    assert flags[..0] == [] && flags[..6] == flags;
  }

  /** On claimed, open, claimed, open, open, open, positions 1 and 3 are
      fenced off from each other on both sides. */
  lemma FencedOff(f: seq<bool>)
    requires f == [true, false, true, false, false, false]
    ensures !Joined(f, 1, 3) && Separated(f)
  {
    assert f[Around(6, 1, 1)] && f[Around(6, 3, 3)];
  }

  /** The ring round cell 18 when 19 and 10 are claimed and 11, 17, 25 and
      26 are not. */
  lemma Cell18Blocked(b: Board)
    requires Shaped(b) && IsClaimed(b, 19) && IsClaimed(b, 10)
    requires !IsClaimed(b, 11) && !IsClaimed(b, 17) && !IsClaimed(b, 25) && !IsClaimed(b, 26)
    ensures RingBlocked(b, 18) == [true, false, true, false, false, false]
  {
    Cell18Ring();
    Cell18Indices();
    var f := RingBlocked(b, 18);
    assert f[0] && !f[1] && f[2] && !f[3] && !f[4] && !f[5];
  }

  /** The flags the loop as written reads, given which cells are claimed. */
  lemma SixFlags(b: Board, cells: seq<nat>)
    requires Shaped(b) && |cells| == 6
    requires IsClaimed(b, cells[0]) && !IsClaimed(b, cells[1]) && IsClaimed(b, cells[2])
    requires !IsClaimed(b, cells[3]) && !IsClaimed(b, cells[4]) && !IsClaimed(b, cells[5])
    ensures ClaimedFlags(b, cells) == [true, false, true, false, false, false]
  {
  }

  /**
   * Finding: cell 18 is (3, 2), and its neighbours in direction order are
   * 19, 11, 10, 17, 25 and 26.  With 19 and 10 claimed and the other four
   * unclaimed, the loop as written sees one crossing (11 then 10) and
   * answers false.  Yet 11 is fenced off from 17 both ways round the cell:
   * by 10 on one side and by 19 on the other, across the seam the loop
   * never looks at.  The ring count answers true.
   */
  lemma AsWrittenMissesWrap(b: Board)
    requires Shaped(b) && IsClaimed(b, 19) && IsClaimed(b, 10)
    requires !IsClaimed(b, 11) && !IsClaimed(b, 17) && !IsClaimed(b, 25) && !IsClaimed(b, 26)
    ensures BoardGeometry.Neighbors(18) == [19, 11, 10, 17, 25, 26]
    ensures Crossings(ClaimedFlags(b, BoardGeometry.Neighbors(18))) < 2
    ensures RingBlocked(b, 18) == [true, false, true, false, false, false]
    ensures !Joined(RingBlocked(b, 18), 1, 3) && Separated(RingBlocked(b, 18))
  {
    Cell18Neighbors();
    Cell18Blocked(b);
    SixFlags(b, BoardGeometry.Neighbors(18));
    FencedOff(RingBlocked(b, 18));
    OneCrossing(ClaimedFlags(b, BoardGeometry.Neighbors(18)));
  }
}
