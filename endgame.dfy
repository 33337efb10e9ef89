/**
 * The end-game operations of `Board`: `reap` retires the penguins that can
 * no longer move, `fill` walks a penguin along a path of moves, and `prune`
 * fills an iceberg that a single penguin has to itself.
 *
 * `optimal_path`, the depth-first search that chooses the path, is not part
 * of this model: it is a parameter, a `PathFinder`, of which `FinderSound`
 * assumes only what `fill` relies on.
 */
module Endgame {
  import opened Wrappers
  import opened Constants
  import opened CellSets
  import opened Boards
  import opened BoardMoves
  import BoardGeometry
  import opened Components

  // ---------------------------------------------------------------------
  // `reap`

  /** Whether one of `cells` is unclaimed. */
  function AnyUnclaimed(b: Board, cells: seq<nat>): (r: bool)
    requires Shaped(b)
    ensures r <==> exists n :: n in cells && !IsClaimed(b, n)
  {
    if cells == [] then false else !IsClaimed(b, cells[0]) || AnyUnclaimed(b, cells[1..])
  }

  /** Every neighbour of the cell is claimed. */
  predicate Stuck(b: Board, idx: nat)
    requires Shaped(b)
  {
    !AnyUnclaimed(b, BoardGeometry.Neighbors(idx))
  }

  /** A penguin has no move exactly when every neighbour is claimed: the
      first step of any move is onto an unclaimed neighbour. */
  lemma StuckIffNoMoves(b: Board, idx: nat)
    requires Shaped(b) && idx < NumCells
    ensures Stuck(b, idx) <==> Moves(b, idx) == []
  {
    if !Stuck(b, idx) {
      var n :| n in BoardGeometry.Neighbors(idx) && !IsClaimed(b, n);
      NeighborIsMove(b, idx, n);
    }
    if Moves(b, idx) != [] {
      FirstStepOpen(b, idx, Moves(b, idx)[0]);
    }
  }

  /** The first cell on the way to a move's destination is an unclaimed
      neighbour. */
  lemma FirstStepOpen(b: Board, idx: nat, n: nat)
    requires Shaped(b) && idx < NumCells && n in Moves(b, idx)
    ensures !Stuck(b, idx)
  {
    MovesSpec(b, idx, n);
    var src, dst := BoardGeometry.CellAt(idx), BoardGeometry.CellAt(n);
    Hex.LineReachesDst(src, dst);
    var first := Hex.LineAt(src, dst, 1);
    assert Open(b, first);
    Hex.LineSteps(src, dst, 0);
    Hex.LineStart(src, dst);
    BoardGeometry.CellRoundTrip(first);
    var m := BoardGeometry.EvenRToIndex(first);
    BoardGeometry.NeighborsSpec(idx, m);
    assert m in BoardGeometry.Neighbors(idx) && !IsClaimed(b, m);
  }

  /** The cells of `cells` that still have a move, in order. */
  function Movable(b: Board, cells: seq<nat>): (r: seq<nat>)
    requires Shaped(b) && forall c :: c in cells ==> c < NumCells
    ensures forall c :: c in r <==> c in cells && !Stuck(b, c)
  {
    if cells == [] then []
    else
      assert cells[0] in cells;
      assert forall c :: c in cells <==> c == cells[0] || c in cells[1..];
      var rest := Movable(b, cells[1..]);
      StuckIffNoMoves(b, cells[0]);
      if Moves(b, cells[0]) != [] then [cells[0]] + rest else rest
  }

  /** One player's penguins, keeping those that still have a move. */
  function KeepMovable(b: Board, s: CellSet): (r: CellSet)
    requires Shaped(b) && OnBoard(s)
    ensures r.Members() <= s.Members()
    ensures r.Members() == set c | c in s.Members() && !Stuck(b, c)
  {
    ElementsSpec(s);
    var m := Movable(b, s.Elements());
    MovableMembers(b, s, m);
    Collect(m)
  }

  lemma MovableMembers(b: Board, s: CellSet, m: seq<nat>)
    requires Shaped(b)
    requires forall c :: c in m <==> c in s.Elements() && !Stuck(b, c)
    requires forall c :: c in s.Elements() <==> c in s.Members()
    ensures forall c :: c in m ==> c < 64
    ensures (set v | v in m) == set c | c in s.Members() && !Stuck(b, c)
  {
    forall c | c in m ensures c < 64 {
      assert c in s.Members();
    }
  }

  /** Removing penguins keeps a board valid. */
  lemma FewerPenguinsValid(b: Board, r: Board)
    requires Valid(b) && Shaped(r) && r.fish == b.fish && r.claimed == b.claimed
    requires forall p :: 0 <= p < 4 ==> r.penguins[p].Members() <= b.penguins[p].Members()
    ensures Valid(r)
  {
    assert forall c: nat :: HasFish(r, c) == HasFish(b, c);
  }

  /** `Board::reap`: every penguin that cannot move leaves the board; its
      cells stay claimed.  A penguin cannot move exactly when it is `Stuck`
      (`ReapKeepsMovers`). */
  function Reap(b: Board): (r: Board)
    requires Valid(b)
    ensures Valid(r) && r.claimed == b.claimed && r.fish == b.fish
    ensures forall p, c :: 0 <= p < 4 ==>
      (c in r.penguins[p].Members() <==> c in b.penguins[p].Members() && !Stuck(b, c))
  {
    assert forall p :: 0 <= p < 4 ==> OnBoard(b.penguins[p]);
    var r := b.(penguins := seq(4, p requires 0 <= p < 4 => KeepMovable(b, b.penguins[p])));
    assert forall p :: 0 <= p < 4 ==> r.penguins[p] == KeepMovable(b, b.penguins[p]);
    FewerPenguinsValid(b, r);
    r
  }

  /** A penguin survives `reap` exactly when it has a move. */
  lemma ReapKeepsMovers(b: Board, p: nat, c: nat)
    requires Valid(b) && p < 4 && c in b.penguins[p].Members()
    ensures c in Reap(b).penguins[p].Members() <==> Moves(b, c) != []
  {
    StuckIffNoMoves(b, c);
  }

  /** `reap` only removes penguins. */
  lemma ReapShrinks(b: Board)
    requires Valid(b)
    ensures Reap(b).claimed == b.claimed
    ensures forall p :: 0 <= p < 4 ==> Reap(b).penguins[p].Members() <= b.penguins[p].Members()
  {
  }

  /** Being stuck depends on the claimed cells alone. */
  lemma StuckSameClaims(b: Board, b': Board, c: nat)
    requires Shaped(b) && Shaped(b') && b.claimed == b'.claimed
    ensures Stuck(b, c) == Stuck(b', c)
  {
    var ns := BoardGeometry.Neighbors(c);
    assert forall n :: IsClaimed(b, n) == IsClaimed(b', n);
    assert AnyUnclaimed(b, ns) == AnyUnclaimed(b', ns);
  }

  /** Reaping twice leaves each player the penguins reaping once left. */
  lemma ReapTwiceAt(b: Board, p: nat)
    requires Valid(b) && p < 4
    ensures Reap(Reap(b)).penguins[p] == Reap(b).penguins[p]
  {
    var r := Reap(b);
    var rr := Reap(r);
    forall c ensures c in rr.penguins[p].Members() <==> c in r.penguins[p].Members()
    {
      StuckSameClaims(b, r, c);
    }
    ExtensionalityPointwise(rr.penguins[p], r.penguins[p]);
  }

  /** Reaping twice retires no more penguins than reaping once. */
  lemma ReapIdempotent(b: Board)
    requires Valid(b)
    ensures Reap(Reap(b)) == Reap(b)
  {
    forall p | 0 <= p < 4 ensures Reap(Reap(b)).penguins[p] == Reap(b).penguins[p]
    {
      ReapTwiceAt(b, p);
    }
    assert Reap(Reap(b)).penguins == Reap(b).penguins;
  }

  // ---------------------------------------------------------------------
  // `fill`

  /** `path` is a walk of p's penguin standing on path[0]: every step is a
      legal move on the board the steps before it left behind. */
  predicate Walkable(b: Board, p: Player, path: seq<nat>)
    requires Shaped(b) && p.id < 4
    decreases |path|
  {
    |path| >= 1 &&
    (|path| >= 2 ==>
      IsLegalMove(b, p, path[0], path[1]) &&
      Walkable(MovePenguin(b, p, path[0], path[1]).value, p, path[1..]))
  }

  /** The board once p's penguin has walked `path`. */
  function Walk(b: Board, p: Player, path: seq<nat>): (r: Board)
    requires Shaped(b) && p.id < 4 && Walkable(b, p, path)
    ensures Shaped(r) && r.fish == b.fish
    decreases |path|
  {
    if |path| < 2 then b
    else Walk(MovePenguin(b, p, path[0], path[1]).value, p, path[1..])
  }

  /** The cells claimed by anyone. */
  function ClaimedSet(b: Board): (r: set<nat>)
    requires Shaped(b)
    ensures forall c :: c in r <==> IsClaimed(b, c)
  {
    b.claimed[0].Members() + b.claimed[1].Members() + b.claimed[2].Members() + b.claimed[3].Members()
  }

  /** The cells a walk enters. */
  function Entered(path: seq<nat>): set<nat>
  {
    set k | 1 <= k < |path| :: path[k]
  }

  lemma EnteredStep(path: seq<nat>)
    requires |path| >= 2
    ensures Entered(path) == {path[1]} + Entered(path[1..])
  {
    var tail := Entered(path[1..]);
    forall x | x in Entered(path) ensures x in {path[1]} + tail
    {
      var k :| 1 <= k < |path| && path[k] == x;
      if k >= 2 { assert path[1..][k - 1] == x; }
    }
    forall x | x in tail ensures x in Entered(path)
    {
      var k :| 1 <= k < |path[1..]| && path[1..][k] == x;
      assert path[k + 1] == x;
    }
  }

  /** A walk keeps the board valid. */
  lemma {:induction false} WalkValid(b: Board, p: Player, path: seq<nat>)
    requires Valid(b) && p.id < 4 && Walkable(b, p, path)
    ensures Valid(Walk(b, p, path))
    decreases |path|
  {
    if |path| >= 2 {
      MovePenguinValid(b, p, path[0], path[1]);
      WalkValid(MovePenguin(b, p, path[0], path[1]).value, p, path[1..]);
    }
  }

  /** Every cell a walk enters was unclaimed before it started. */
  lemma {:induction false} WalkEntersUnclaimed(b: Board, p: Player, path: seq<nat>)
    requires Shaped(b) && p.id < 4 && Walkable(b, p, path)
    ensures forall k :: 1 <= k < |path| ==> !IsClaimed(b, path[k])
    decreases |path|
  {
    if |path| >= 2 {
      var b1 := MovePenguin(b, p, path[0], path[1]).value;
      WalkEntersUnclaimed(b1, p, path[1..]);
      forall k | 2 <= k < |path| ensures !IsClaimed(b, path[k])
      {
        assert path[1..][k - 1] == path[k];
        assert !IsClaimed(b1, path[k]);
      }
    }
  }

  /** A walk claims exactly the cells it enters, all for p, and leaves the
      other players' penguins where they are. */
  lemma {:induction false} WalkClaims(b: Board, p: Player, path: seq<nat>)
    requires Shaped(b) && p.id < 4 && Walkable(b, p, path)
    ensures forall q :: 0 <= q < 4 ==>
      Walk(b, p, path).claimed[q].Members() == b.claimed[q].Members() + (if q == p.id then Entered(path) else {})
    ensures forall q :: 0 <= q < 4 && q != p.id ==> Walk(b, p, path).penguins[q] == b.penguins[q]
    decreases |path|
  {
    if |path| >= 2 {
      var b1 := MovePenguin(b, p, path[0], path[1]).value;
      WalkClaims(b1, p, path[1..]);
      EnteredStep(path);
      forall q | 0 <= q < 4 && q != p.id ensures b1.penguins[q] == b.penguins[q]
      {
        Extensionality(b1.penguins[q], b.penguins[q]);
      }
    }
  }

  /** A walk moves the penguin from the first cell of the path to the last. */
  lemma {:induction false} WalkMovesPenguin(b: Board, p: Player, path: seq<nat>)
    requires Valid(b) && p.id < 4 && Walkable(b, p, path) && |path| >= 2
    ensures Walk(b, p, path).penguins[p.id].Members() == b.penguins[p.id].Members() - {path[0]} + {path[|path| - 1]}
    decreases |path|
  {
    var b1 := MovePenguin(b, p, path[0], path[1]).value;
    if |path| >= 3 {
      MovePenguinValid(b, p, path[0], path[1]);
      assert !IsClaimed(b, path[1]);
      assert path[1] !in b.penguins[p.id].Members();
      WalkMovesPenguin(b1, p, path[1..]);
      assert path[1..][0] == path[1];
      assert path[1..][|path[1..]| - 1] == path[|path| - 1];
    }
  }

  /** A walk that makes at least one move claims at least one more cell. */
  lemma WalkProgress(b: Board, p: Player, path: seq<nat>)
    requires Valid(b) && p.id < 4 && Walkable(b, p, path) && |path| >= 2
    ensures ClaimedSet(b) < ClaimedSet(Walk(b, p, path))
    ensures CountOut(ClaimedSet(Walk(b, p, path)), NumCells) < CountOut(ClaimedSet(b), NumCells)
  {
    WalkClaims(b, p, path);
    var w := Walk(b, p, path);
    assert path[1] in ClaimedSet(w) by {
      assert path[1] in w.claimed[p.id].Members();
    }
    assert path[1] !in ClaimedSet(b);
    CountOutStrict(ClaimedSet(b), ClaimedSet(w), NumCells, path[1]);
  }

  /** `Board::fill`: walk the penguin along the path `optimal_path` chose,
      if it chose one, and report whether it did. */
  method Fill(b: Board, p: Player, penguin: nat, path: Option<seq<nat>>) returns (r: Board, filled: bool)
    requires Shaped(b) && p.id < 4
    requires path.Some? ==> Walkable(b, p, path.value) && path.value[0] == penguin
    ensures filled <==> path.Some?
    ensures r == if path.Some? then Walk(b, p, path.value) else b
  {
    if path.None? {
      return b, false;
    }
    var cells := path.value;
    r := b;
    var current := penguin;
    for k := 1 to |cells|
      invariant Shaped(r) && current == cells[k - 1]
      invariant Walkable(r, p, cells[k - 1..])
      invariant Walk(r, p, cells[k - 1..]) == Walk(b, p, cells)
    {
      assert cells[k - 1..][1] == cells[k];
      assert cells[k - 1..][1..] == cells[k..];
      var moved := MovePenguin(r, p, current, cells[k]);
      r := moved.value;
      current := cells[k];
    }
    filled := true;
  }

  // ---------------------------------------------------------------------
  // `prune`

  /** The shape of `optimal_path`: the cells of the chosen path, if any. */
  type PathFinder = (Board, Player, nat) -> Option<seq<nat>>

  /** What the model assumes of `optimal_path`: a path it returns for one of
      p's penguins starts on that penguin and each of its moves is legal.
      The depth-first search stops at the first node whose penguin has no
      move left, so the path makes at least one move when the penguin is
      not `Stuck`; for a stuck penguin it may be the start cell alone. */
  ghost predicate FinderSound(finder: PathFinder)
  {
    forall b: Board, p: Player, c: nat ::
      Valid(b) && p.id < 4 && c in b.penguins[p.id].Members() && finder(b, p, c).Some? ==>
        Walkable(b, p, finder(b, p, c).value) && finder(b, p, c).value[0] == c &&
        (!Stuck(b, c) ==> |finder(b, p, c).value| >= 2)
  }

  /** The search's answer for a stuck penguin, the start cell alone, is
      admitted: a finder that returns only such paths is sound. */
  lemma StartOnlyPathSound(finder: PathFinder)
    requires forall b: Board, p: Player, c: nat ::
      Valid(b) && p.id < 4 && c in b.penguins[p.id].Members() && finder(b, p, c).Some? ==>
        Stuck(b, c) && finder(b, p, c).value == [c]
    ensures FinderSound(finder)
  {
  }

  /** Every cell of every iceberg is unclaimed, as for the icebergs
      `connected_components` returns. */
  predicate UnclaimedIcebergs(b: Board, icebergs: seq<CellSet>)
    requires Shaped(b)
  {
    forall k, n :: 0 <= k < |icebergs| && n in icebergs[k].Members() ==> !IsClaimed(b, n)
  }

  /** A penguin next to an iceberg is not stuck: its neighbour in the
      iceberg is unclaimed. */
  lemma TouchingNotStuck(b: Board, iceberg: CellSet, c: nat)
    requires Shaped(b) && TouchesIceberg(BoardGeometry.Neighbors(c), iceberg)
    requires forall n :: n in iceberg.Members() ==> !IsClaimed(b, n)
    ensures !Stuck(b, c)
  {
    var n :| n in BoardGeometry.Neighbors(c) && n in iceberg.Members();
    assert !IsClaimed(b, n);
  }

  /** Whether one of `cells` lies in the iceberg. */
  function TouchesIceberg(cells: seq<nat>, iceberg: CellSet): (r: bool)
    ensures r <==> exists n :: n in cells && n in iceberg.Members()
  {
    if cells == [] then false
    else (cells[0] < 64 && iceberg.Contains(cells[0])) || TouchesIceberg(cells[1..], iceberg)
  }

  /** p's penguins among `cells` that have a neighbour in the iceberg. */
  function TouchingCells(p: Player, cells: seq<nat>, iceberg: CellSet): (r: seq<(Player, nat)>)
    ensures forall e :: e in r <==> e.0 == p && e.1 in cells && TouchesIceberg(BoardGeometry.Neighbors(e.1), iceberg)
  {
    if cells == [] then []
    else
      var rest := TouchingCells(p, cells[1..], iceberg);
      assert forall c :: c in cells <==> c == cells[0] || c in cells[1..];
      if TouchesIceberg(BoardGeometry.Neighbors(cells[0]), iceberg) then [(p, cells[0])] + rest else rest
  }

  /** The penguins of players 0 .. n - 1 touching the iceberg. */
  function TouchingUpTo(b: Board, iceberg: CellSet, n: nat): (r: seq<(Player, nat)>)
    requires Shaped(b) && n <= 4
  {
    if n == 0 then []
    else TouchingUpTo(b, iceberg, n - 1) + TouchingCells(Player(n - 1), b.penguins[n - 1].Elements(), iceberg)
  }

  /** Exactly the penguins of players below n that touch the iceberg. */
  lemma {:induction false} TouchingUpToSpec(b: Board, iceberg: CellSet, n: nat)
    requires Shaped(b) && n <= 4
    ensures forall e :: e in TouchingUpTo(b, iceberg, n) <==>
      e.0.id < n && e.1 in b.penguins[e.0.id].Elements() && TouchesIceberg(BoardGeometry.Neighbors(e.1), iceberg)
  {
    if n > 0 {
      TouchingUpToSpec(b, iceberg, n - 1);
      var earlier := TouchingUpTo(b, iceberg, n - 1);
      var last := TouchingCells(Player(n - 1), b.penguins[n - 1].Elements(), iceberg);
      assert TouchingUpTo(b, iceberg, n) == earlier + last;
      forall e: (Player, nat)
        ensures e in earlier + last <==>
          e.0.id < n && e.1 in b.penguins[e.0.id].Elements() && TouchesIceberg(BoardGeometry.Neighbors(e.1), iceberg)
      {
        assert e in earlier + last <==> e in earlier || e in last;
        if e.0.id == n - 1 {
          assert e.0 == Player(n - 1);
        }
      }
    }
  }

  /** The penguins touching the iceberg, player by player, cells ascending.
      The source stops after two of them: it only asks whether there is
      exactly one. */
  function Touching(b: Board, iceberg: CellSet): (r: seq<(Player, nat)>)
    requires Shaped(b)
  {
    TouchingUpTo(b, iceberg, |b.penguins|)
  }

  /** Who touches the iceberg: a penguin with a neighbour inside it. */
  lemma TouchingSpec(b: Board, iceberg: CellSet)
    requires Valid(b)
    ensures forall e :: e in Touching(b, iceberg) ==>
      e.0.id < 4 && e.1 in b.penguins[e.0.id].Members() && e.1 < NumCells
    ensures forall p: nat, c :: 0 <= p < 4 && c in b.penguins[p].Members() ==>
      ((Player(p), c) in Touching(b, iceberg) <==> exists n :: n in BoardGeometry.Neighbors(c) && n in iceberg.Members())
  {
    TouchingUpToSpec(b, iceberg, 4);
    forall p | 0 <= p < 4 ensures forall c :: c in b.penguins[p].Elements() <==> c in b.penguins[p].Members()
    {
      ValidPenguinsOnBoard(b, p);
      ElementsSpec(b.penguins[p]);
    }
  }

  /** Whether the penguin has an unclaimed neighbour outside the iceberg. */
  function CanLeave(b: Board, iceberg: CellSet, cells: seq<nat>): (r: bool)
    requires Shaped(b)
    ensures r <==> exists n :: n in cells && n !in iceberg.Members() && !IsClaimed(b, n)
  {
    if cells == [] then false
    else (!(cells[0] < 64 && iceberg.Contains(cells[0])) && !IsClaimed(b, cells[0])) || CanLeave(b, iceberg, cells[1..])
  }

  /** Whether `prune` fills the iceberg: one penguin touches it, that penguin
      cannot leave it, and `optimal_path` finds a path. */
  predicate Fills(b: Board, finder: PathFinder, iceberg: CellSet)
    requires Shaped(b)
  {
    var t := Touching(b, iceberg);
    |t| == 1 && !CanLeave(b, iceberg, BoardGeometry.Neighbors(t[0].1)) && finder(b, t[0].0, t[0].1).Some?
  }

  /** The first iceberg `prune` fills, if any, and the board it leaves. */
  function PruneScan(b: Board, finder: PathFinder, icebergs: seq<CellSet>): (r: (Board, bool))
    requires Valid(b) && FinderSound(finder)
    ensures Shaped(r.0) && r.0.fish == b.fish
  {
    if icebergs == [] then (b, false)
    else if Fills(b, finder, icebergs[0]) then
      TouchingSpec(b, icebergs[0]);
      var (p, c) := Touching(b, icebergs[0])[0];
      (Walk(b, p, finder(b, p, c).value), true)
    else PruneScan(b, finder, icebergs[1..])
  }

  /** The cell set holding the members of `s` below n, in order. */
  function Below(s: set<nat>, n: nat): (r: seq<nat>)
    ensures forall v :: v in r <==> v in s && v < n
  {
    if n == 0 then [] else Below(s, n - 1) + (if n - 1 in s then [n - 1] else [])
  }

  /** The icebergs as cell sets. */
  function AsCellSets(icebergs: seq<set<nat>>): (r: seq<CellSet>)
    requires forall k :: 0 <= k < |icebergs| ==> InRange(icebergs[k])
    ensures MembersOf(r) == icebergs
  {
    if icebergs == [] then []
    else
      var s := icebergs[0];
      assert InRange(s);
      var rest := AsCellSets(icebergs[1..]);
      var c := Collect(Below(s, NumCells));
      assert forall v :: v in Below(s, NumCells) <==> v in s;
      assert c.Members() == s;
      assert MembersOf([c] + rest) == [c.Members()] + MembersOf(rest);
      [c] + rest
  }

  /** The icebergs `connected_components` returns. */
  function IcebergSets(b: Board): (r: seq<CellSet>)
    requires Shaped(b)
    ensures MembersOf(r) == Icebergs(b)
  {
    IcebergsPartition(b);
    AsCellSets(IcebergList(b))
  }

  /** The board and flag `prune` returns. */
  function PruneSpec(b: Board, finder: PathFinder): (r: (Board, bool))
    requires Valid(b) && FinderSound(finder)
    ensures Shaped(r.0) && r.0.fish == b.fish
  {
    PruneScan(b, finder, IcebergSets(b))
  }

  /** Cell-set lists with the same members are equal. */
  lemma {:induction false} SameMembers(xs: seq<CellSet>, ys: seq<CellSet>)
    requires MembersOf(xs) == MembersOf(ys)
    ensures xs == ys
  {
    forall k | 0 <= k < |xs| ensures xs[k] == ys[k]
    {
      Extensionality(xs[k], ys[k]);
    }
  }

  /** `Board::prune`.  After the first fill that succeeds no other fill is
      tried (`has_done_anything || self.fill(..)`). */
  method Prune(b: Board, finder: PathFinder) returns (r: Board, changed: bool)
    requires Valid(b) && FinderSound(finder)
    ensures (r, changed) == PruneSpec(b, finder)
  {
    var components := ConnectedComponents(b);
    ghost var sets := IcebergSets(b);
    SameMembers(components, sets);
    r, changed := b, false;
    for i := 0 to |components|
      invariant Shaped(r)
      invariant !changed ==> r == b && PruneScan(b, finder, sets) == PruneScan(b, finder, sets[i..])
      invariant changed ==> PruneScan(b, finder, sets) == (r, true)
    {
      assert sets[i..][1..] == sets[i + 1..];
      var iceberg := components[i];
      var touching := Touching(r, iceberg);
      if |touching| != 1 {
        continue;
      }
      var (player, penguin) := touching[0];
      var canLeave := CanLeave(r, iceberg, BoardGeometry.Neighbors(penguin));
      if canLeave {
        continue;
      }
      if !changed {
        TouchingSpec(b, iceberg);
        r, changed := Fill(r, player, penguin, finder(r, player, penguin));
      }
    }
  }

  /** `prune` keeps the board valid; when it reports no change the board is
      the same, and when it reports a change it has claimed at least one
      more cell. */
  lemma {:induction false} PruneScanSpec(b: Board, finder: PathFinder, icebergs: seq<CellSet>)
    requires Valid(b) && FinderSound(finder) && UnclaimedIcebergs(b, icebergs)
    ensures Valid(PruneScan(b, finder, icebergs).0)
    ensures !PruneScan(b, finder, icebergs).1 ==> PruneScan(b, finder, icebergs).0 == b
    ensures PruneScan(b, finder, icebergs).1 ==>
      CountOut(ClaimedSet(PruneScan(b, finder, icebergs).0), NumCells) < CountOut(ClaimedSet(b), NumCells)
  {
    if icebergs != [] {
      if Fills(b, finder, icebergs[0]) {
        TouchingSpec(b, icebergs[0]);
        var (p, c) := Touching(b, icebergs[0])[0];
        TouchingNotStuck(b, icebergs[0], c);
        WalkValid(b, p, finder(b, p, c).value);
        WalkProgress(b, p, finder(b, p, c).value);
      } else {
        PruneScanSpec(b, finder, icebergs[1..]);
      }
    }
  }

  lemma PruneSpecFacts(b: Board, finder: PathFinder)
    requires Valid(b) && FinderSound(finder)
    ensures Valid(PruneSpec(b, finder).0)
    ensures !PruneSpec(b, finder).1 ==> PruneSpec(b, finder).0 == b
    ensures PruneSpec(b, finder).1 ==>
      CountOut(ClaimedSet(PruneSpec(b, finder).0), NumCells) < CountOut(ClaimedSet(b), NumCells)
  {
    IcebergSetsUnclaimed(b);
    PruneScanSpec(b, finder, IcebergSets(b));
  }

  /** The icebergs hold unclaimed cells only. */
  lemma IcebergSetsUnclaimed(b: Board)
    requires Shaped(b)
    ensures UnclaimedIcebergs(b, IcebergSets(b))
  {
    var sets := IcebergSets(b);
    IcebergsPartition(b);
    forall k, n | 0 <= k < |sets| && n in sets[k].Members() ensures !IsClaimed(b, n)
    {
      assert sets[k].Members() == Icebergs(b)[k];
      assert n in Unclaimed(b);
    }
  }

  /** c is p's penguin, the only penguin on the board with a neighbour in
      the iceberg. */
  predicate LonePenguin(b: Board, iceberg: CellSet, p: nat, c: nat)
    requires Shaped(b) && p < 4
  {
    c in b.penguins[p].Members() && TouchesIceberg(BoardGeometry.Neighbors(c), iceberg) &&
    forall q: nat, d :: (q < 4 && d in b.penguins[q].Members() && TouchesIceberg(BoardGeometry.Neighbors(d), iceberg)) ==>
      q == p && d == c
  }

  /** A walk of p's penguin claims nothing for the other players and leaves
      their penguins in place. */
  lemma WalkOthersClaims(b: Board, p: Player, path: seq<nat>)
    requires Shaped(b) && p.id < 4 && Walkable(b, p, path)
    ensures forall q :: 0 <= q < 4 && q != p.id ==> Walk(b, p, path).claimed[q] == b.claimed[q]
    ensures forall q :: 0 <= q < 4 && q != p.id ==> Walk(b, p, path).penguins[q] == b.penguins[q]
  {
    WalkClaims(b, p, path);
    forall q | 0 <= q < 4 && q != p.id ensures Walk(b, p, path).claimed[q] == b.claimed[q]
    {
      Extensionality(Walk(b, p, path).claimed[q], b.claimed[q]);
    }
  }

  /** When a single penguin touches the iceberg, it is p's penguin c and no
      other penguin of any player touches it. */
  lemma TouchedOnce(b: Board, iceberg: CellSet) returns (p: nat, c: nat)
    requires Valid(b) && |Touching(b, iceberg)| == 1
    ensures p < 4 && Touching(b, iceberg)[0] == (Player(p), c)
    ensures LonePenguin(b, iceberg, p, c)
  {
    TouchingSpec(b, iceberg);
    var t := Touching(b, iceberg);
    assert t == [t[0]];
    assert t[0] in t;
    c := t[0].1;
    p := t[0].0.id;
    assert t[0] == (Player(p), c);
    assert c in b.penguins[p].Members();
    assert TouchesIceberg(BoardGeometry.Neighbors(c), iceberg);
    forall q: nat, d | q < 4 && d in b.penguins[q].Members() && TouchesIceberg(BoardGeometry.Neighbors(d), iceberg)
      ensures q == p && d == c
    {
      assert (Player(q), d) in t;
    }
  }

  /** Only player p's claims and penguins differ between the two boards. */
  predicate OthersKept(b: Board, r: Board, p: nat)
    requires Shaped(b) && Shaped(r)
  {
    forall q :: 0 <= q < 4 && q != p ==> r.claimed[q] == b.claimed[q] && r.penguins[q] == b.penguins[q]
  }

  /** Iceberg k holds a lone penguin c of player p that cannot leave it. */
  predicate Trapped(b: Board, icebergs: seq<CellSet>, k: nat, p: nat, c: nat)
    requires Shaped(b)
  {
    k < |icebergs| && p < 4 && LonePenguin(b, icebergs[k], p, c) &&
    !CanLeave(b, icebergs[k], BoardGeometry.Neighbors(c))
  }

  /** When `prune` can fill the first iceberg it fills that one: a lone
      penguin c of player p, unable to leave it, walks its path. */
  lemma PruneScanHead(b: Board, finder: PathFinder, icebergs: seq<CellSet>) returns (p: nat, c: nat)
    requires Valid(b) && FinderSound(finder)
    requires icebergs != [] && Fills(b, finder, icebergs[0])
    ensures p < 4 && LonePenguin(b, icebergs[0], p, c)
    ensures !CanLeave(b, icebergs[0], BoardGeometry.Neighbors(c))
    ensures finder(b, Player(p), c).Some? && Walkable(b, Player(p), finder(b, Player(p), c).value)
    ensures PruneScan(b, finder, icebergs) == (Walk(b, Player(p), finder(b, Player(p), c).value), true)
    ensures OthersKept(b, PruneScan(b, finder, icebergs).0, p)
  {
    p, c := TouchedOnce(b, icebergs[0]);
    WalkOthersClaims(b, Player(p), finder(b, Player(p), c).value);
  }

  /** `prune` fills only an iceberg k with a lone penguin c of player p
      that cannot leave it; only p claims cells and only p's penguins move. */
  lemma PruneScanFillsLone(b: Board, finder: PathFinder, icebergs: seq<CellSet>)
    returns (k: nat, p: nat, c: nat)
    requires Valid(b) && FinderSound(finder)
    requires PruneScan(b, finder, icebergs).1
    ensures Trapped(b, icebergs, k, p, c)
    ensures OthersKept(b, PruneScan(b, finder, icebergs).0, p)
  {
    k := PruneScanFillAt(b, finder, icebergs);
    p, c := PruneScanHead(b, finder, icebergs[k..]);
    assert icebergs[k..][0] == icebergs[k];
  }

  /** `prune` passes over an iceberg it cannot fill. */
  lemma PruneScanSkips(b: Board, finder: PathFinder, icebergs: seq<CellSet>)
    requires Valid(b) && FinderSound(finder)
    requires icebergs != [] && !Fills(b, finder, icebergs[0])
    ensures PruneScan(b, finder, icebergs) == PruneScan(b, finder, icebergs[1..])
  {
  }

  /** When `prune` reports a change, it filled some iceberg k, and its
      board is the one it leaves on the icebergs from k on. */
  lemma {:induction false} PruneScanFillAt(b: Board, finder: PathFinder, icebergs: seq<CellSet>) returns (k: nat)
    requires Valid(b) && FinderSound(finder)
    requires PruneScan(b, finder, icebergs).1
    ensures k < |icebergs| && Fills(b, finder, icebergs[k])
    ensures PruneScan(b, finder, icebergs) == PruneScan(b, finder, icebergs[k..])
  {
    if Fills(b, finder, icebergs[0]) {
      k := 0;
      assert icebergs[0..] == icebergs;
    } else {
      PruneScanSkips(b, finder, icebergs);
      var rest := icebergs[1..];
      var j := PruneScanFillAt(b, finder, rest);
      k := j + 1;
      assert rest[j..] == icebergs[k..];
      assert rest[j] == icebergs[k];
    }
  }

  /** When no iceberg is touched by exactly one penguin (as when two
      penguins share every iceberg), `prune` changes nothing. */
  lemma {:induction false} PruneScanContested(b: Board, finder: PathFinder, icebergs: seq<CellSet>)
    requires Valid(b) && FinderSound(finder)
    requires forall k :: 0 <= k < |icebergs| ==> |Touching(b, icebergs[k])| != 1
    ensures PruneScan(b, finder, icebergs) == (b, false)
  {
    if icebergs != [] {
      assert |Touching(b, icebergs[0])| != 1;
      PruneScanContested(b, finder, icebergs[1..]);
    }
  }
}
