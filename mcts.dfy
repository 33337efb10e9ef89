/**
 * The deterministic bookkeeping of the Monte Carlo tree search bot
 * (bots/src/mctsbot.rs): the per-node tallies of visits and rewards, the
 * moves a node offers, the cheap move the playouts make, the terminal
 * reward, back-propagation of a playout's rewards, and keeping the tree
 * across turns.  The UCB1 choice, the random rollout and the pondering
 * thread are not modelled; where the source chooses, the choice is a
 * parameter.
 */
module Mcts {
  import opened Wrappers
  import opened Constants
  import opened CellSets
  import opened Boards
  import BoardMoves
  import Endgame
  import Games

  /** `mctsbot::Move`: the edges between game nodes. */
  datatype Move = Place(cell: nat) | Move(src: nat, dst: nat)

  /** How often an edge was tried and the sum of the rewards it brought
      (`(u64, f64)`). */
  datatype Visit = Visit(count: nat, reward: real)

  type Visits = map<Move, Visit>

  // ---------------------------------------------------------------------
  // `Tally`

  /** `Tally::get_visit` on the map: an edge never tried has no visits. */
  function VisitOf(visits: Visits, edge: Move): (r: Visit)
    ensures edge !in visits ==> r == Visit(0, 0.0)
    ensures edge in visits ==> r == visits[edge]
  {
    if edge in visits then visits[edge] else Visit(0, 0.0)
  }

  function AddVisits(a: Visit, b: Visit): Visit
  {
    Visit(a.count + b.count, a.reward + b.reward)
  }

  /** `Tally::mark_visit` on the map: the first visit of an edge stores
      one visit and the reward, a later one adds to what is there. */
  function MarkedVisit(visits: Visits, edge: Move, reward: real): (r: Visits)
    ensures r.Keys == visits.Keys + {edge}
    ensures forall m :: m in visits && m != edge ==> r[m] == visits[m]
  {
    if edge in visits then
      visits[edge := Visit(visits[edge].count + 1, visits[edge].reward + reward)]
    else
      visits[edge := Visit(1, reward)]
  }

  /** Seen or not, marking an edge adds one visit and the reward to what
      `get_visit` reports for it, and nothing to any other edge. */
  lemma MarkThenGet(visits: Visits, edge: Move, reward: real, other: Move)
    ensures VisitOf(MarkedVisit(visits, edge, reward), edge) ==
      Visit(VisitOf(visits, edge).count + 1, VisitOf(visits, edge).reward + reward)
    ensures other != edge ==> VisitOf(MarkedVisit(visits, edge, reward), other) == VisitOf(visits, other)
  {
  }

  /** `Tally::merge` on the maps: every edge of either tally, with the two
      entries added. */
  function MergedVisits(mine: Visits, theirs: Visits): (r: Visits)
    ensures r.Keys == mine.Keys + theirs.Keys
    ensures forall m :: m in r ==> r[m] == AddVisits(VisitOf(mine, m), VisitOf(theirs, m))
  {
    map m | m in mine.Keys + theirs.Keys :: AddVisits(VisitOf(mine, m), VisitOf(theirs, m))
  }

  /** After a merge, `get_visit` reports the sum of both tallies' entries;
      an edge only in `mine` keeps its entry. */
  lemma MergeThenGet(mine: Visits, theirs: Visits, edge: Move)
    ensures VisitOf(MergedVisits(mine, theirs), edge) == AddVisits(VisitOf(mine, edge), VisitOf(theirs, edge))
    ensures edge in mine && edge !in theirs ==> MergedVisits(mine, theirs)[edge] == mine[edge]
  {
  }

  /** Marking a visit is merging a tally that saw that one visit. */
  lemma MarkIsMerge(visits: Visits, edge: Move, reward: real)
    ensures MarkedVisit(visits, edge, reward) == MergedVisits(visits, map[edge := Visit(1, reward)])
  {
    var a, b := MarkedVisit(visits, edge, reward), MergedVisits(visits, map[edge := Visit(1, reward)]);
    assert a.Keys == b.Keys;
    forall m | m in a ensures a[m] == b[m] {
      if m == edge {
        assert b[m] == AddVisits(VisitOf(visits, edge), Visit(1, reward));
      }
    }
  }

  /** Merging tallies is commutative. */
  lemma MergeCommutes(a: Visits, b: Visits)
    ensures MergedVisits(a, b) == MergedVisits(b, a)
  {
    var x, y := MergedVisits(a, b), MergedVisits(b, a);
    assert x.Keys == y.Keys;
    forall m | m in x ensures x[m] == y[m] {
      assert x[m] == AddVisits(VisitOf(a, m), VisitOf(b, m));
      assert y[m] == AddVisits(VisitOf(b, m), VisitOf(a, m));
    }
  }

  /** One step of the merge loop: adding one more of `theirs`' entries. */
  lemma MergeStep(mine: Visits, done: Visits, m: Move, v: Visit)
    requires m !in done
    ensures MergedVisits(mine, done)[m := AddVisits(VisitOf(MergedVisits(mine, done), m), v)] ==
            MergedVisits(mine, done[m := v])
  {
    var x := MergedVisits(mine, done)[m := AddVisits(VisitOf(MergedVisits(mine, done), m), v)];
    var y := MergedVisits(mine, done[m := v]);
    assert x.Keys == y.Keys;
    forall k | k in x ensures x[k] == y[k] {
      if k == m {
        assert VisitOf(MergedVisits(mine, done), m) == AddVisits(VisitOf(mine, m), Visit(0, 0.0));
      }
    }
  }

  /** `mctsbot::Tally`, the statistics of one node of the search tree. */
  class Tally {
    var visits: Visits
    var untriedMoves: seq<Move>

    /** `Tally::new`: no visits yet; every move of the node is untried. */
    constructor (game: Games.GameState)
      requires Games.WellFormed(game)
      ensures visits == map[] && untriedMoves == AvailableMovesOf(game)
    {
      var moves := AvailableMoves(game);
      visits, untriedMoves := map[], moves;
    }

    /** `Tally::mark_visit` */
    method MarkVisit(edge: Move, reward: real)
      modifies this
      ensures visits == MarkedVisit(old(visits), edge, reward) && untriedMoves == old(untriedMoves)
    {
      if edge in visits {
        var v := visits[edge];
        visits := visits[edge := Visit(v.count + 1, v.reward + reward)];
      } else {
        visits := visits[edge := Visit(1, reward)];
      }
    }

    /** `Tally::get_visit` */
    function GetVisit(edge: Move): (r: Visit)
      reads this
      ensures r == VisitOf(visits, edge)
    {
      if edge in visits then visits[edge] else Visit(0, 0.0)
    }

    /** `Tally::merge`: each of the other tally's entries is added to this
        one's, an absent entry counting as no visits. */
    method Merge(other: Tally)
      modifies this
      ensures visits == MergedVisits(old(visits), old(other.visits)) && untriedMoves == old(untriedMoves)
    {
      var theirs := other.visits;
      var rest := theirs.Keys;
      ghost var mine := visits;
      ghost var done: Visits := map[];
      while rest != {}
        invariant rest <= theirs.Keys && done.Keys == theirs.Keys - rest
        invariant forall m :: m in done ==> done[m] == theirs[m]
        invariant visits == MergedVisits(mine, done) && untriedMoves == old(untriedMoves)
        decreases rest
      {
        var m :| m in rest;
        var mineEntry := if m in visits then visits[m] else Visit(0, 0.0);
        visits := visits[m := AddVisits(mineEntry, theirs[m])];
        MergeStep(mine, done, m, theirs[m]);
        done := done[m := theirs[m]];
        rest := rest - {m};
      }
      assert done == theirs;
    }
  }

  // ---------------------------------------------------------------------
  // The moves of a node

  /** `Board::all_claimed_cells`: the union of the players' claims. */
  function AllClaimedCells(b: Board): (r: CellSet)
    requires Shaped(b)
    ensures forall c :: c in r.Members() <==> IsClaimed(b, c)
  {
    b.claimed[0].Union(b.claimed[1]).Union(b.claimed[2]).Union(b.claimed[3])
  }

  /** The cells a player may draft: one fish and nobody's claim. */
  function DraftableCells(b: Board): (r: CellSet)
    requires Shaped(b)
    ensures forall c :: c in r.Members() <==> c in b.fish[0].Members() && !IsClaimed(b, c)
  {
    b.fish[0].Exclude(AllClaimedCells(b))
  }

  /** One `Place` per cell, in order. */
  function Places(cells: seq<nat>): (r: seq<Move>)
    ensures |r| == |cells| && forall i :: 0 <= i < |r| ==> r[i] == Place(cells[i])
  {
    if cells == [] then [] else Places(cells[..|cells| - 1]) + [Place(cells[|cells| - 1])]
  }

  /** The placements of the draft: the draftable cells, ascending. */
  function DraftMoves(b: Board): seq<Move>
    requires Shaped(b)
  {
    Places(DraftableCells(b).Elements())
  }

  /** A placement is listed exactly for a one-fish board cell nobody has
      claimed. */
  lemma DraftMovesSpec(b: Board, m: Move)
    requires Valid(b)
    ensures m in DraftMoves(b) <==> m.Place? && m.cell < NumCells && m.cell in b.fish[0].Members() && !IsClaimed(b, m.cell)
  {
    var cells := DraftableCells(b);
    assert OnBoard(cells) by { assert OnBoard(b.fish[0]); }
    ElementsSpec(cells);
    var listed := cells.Elements();
    if m in Places(listed) {
      var i :| 0 <= i < |listed| && Places(listed)[i] == m;
      assert listed[i] in listed;
    }
    if m.Place? && m.cell in cells.Members() {
      var i :| 0 <= i < |listed| && listed[i] == m.cell;
      assert Places(listed)[i] == m;
    }
  }

  /** The moves of one penguin, in the order `moves` lists them. */
  function StepsFrom(src: nat, dsts: seq<nat>): (r: seq<Move>)
    ensures |r| == |dsts| && forall i :: 0 <= i < |r| ==> r[i] == Move(src, dsts[i])
  {
    if dsts == [] then [] else StepsFrom(src, dsts[..|dsts| - 1]) + [Move(src, dsts[|dsts| - 1])]
  }

  /** The moves of a list of penguins, penguin by penguin. */
  function Steps(b: Board, srcs: seq<nat>): seq<Move>
    requires Shaped(b) && AllCells(srcs)
  {
    if srcs == [] then []
    else
      var last := srcs[|srcs| - 1];
      Steps(b, srcs[..|srcs| - 1]) + StepsFrom(last, BoardMoves.Moves(b, last))
  }

  /** A step is listed exactly when it leaves one of the penguins along one
      of that penguin's moves. */
  lemma {:induction false} StepsSpec(b: Board, srcs: seq<nat>, m: Move)
    requires Shaped(b) && AllCells(srcs)
    ensures m in Steps(b, srcs) <==> m.Move? && m.src in srcs && m.src < NumCells && m.dst in BoardMoves.Moves(b, m.src)
  {
    if srcs != [] {
      var init, last := srcs[..|srcs| - 1], srcs[|srcs| - 1];
      assert srcs == init + [last];
      StepsSpec(b, init, m);
      var own := StepsFrom(last, BoardMoves.Moves(b, last));
      assert Steps(b, srcs) == Steps(b, init) + own;
      if m in own {
        var i :| 0 <= i < |own| && own[i] == m;
      }
      if m.Move? && m.src == last && m.dst in BoardMoves.Moves(b, last) {
        var i :| 0 <= i < |BoardMoves.Moves(b, last)| && BoardMoves.Moves(b, last)[i] == m.dst;
        assert own[i] == m;
      }
    }
  }

  /** The steps of the play phase: each of the player's penguins, ascending,
      along each of its moves. */
  function PlayMoves(b: Board, p: Player): seq<Move>
    requires Valid(b) && p.id < 4
  {
    ElementsAreCells(b.penguins[p.id]);
    Steps(b, b.penguins[p.id].Elements())
  }

  /** A step is listed exactly when `is_legal_move` accepts it. */
  lemma PlayMovesSpec(b: Board, p: Player, m: Move)
    requires Valid(b) && p.id < 4
    ensures m in PlayMoves(b, p) <==> m.Move? && BoardMoves.IsLegalMove(b, p, m.src, m.dst)
  {
    ElementsAreCells(b.penguins[p.id]);
    ElementsSpec(b.penguins[p.id]);
    ValidPenguinsOnBoard(b, p.id);
    StepsSpec(b, b.penguins[p.id].Elements(), m);
    if m.Move? {
      BoardMoves.LegalIffMove(b, p, m.src, m.dst);
    }
  }

  /** The player whose turn it is (`current_player` unwraps it). */
  function CurrentPlayer(g: Games.GameState): (r: Player)
    requires Games.WellFormed(g) && !Games.GameOver(g)
    ensures r.id < g.nplayers && Some(r) == Games.ActivePlayerOf(g)
  {
    Games.ActivePlayerOf(g).value
  }

  /** `Game::available_moves` as a value: nothing once the game is over;
      in the draft every one-fish unclaimed cell, ascending; afterwards each
      penguin's moves, penguin by penguin. */
  function AvailableMovesOf(g: Games.GameState): seq<Move>
    requires Games.WellFormed(g)
  {
    if Games.GameOver(g) then []
    else if Games.FinishedDrafting(g) then PlayMoves(g.board, CurrentPlayer(g))
    else DraftMoves(g.board)
  }

  /** The listed moves are exactly the legal ones: none once the game is
      over; in the draft the placements `place_penguin` accepts; afterwards
      the steps of the current player's penguins `is_legal_move` accepts. */
  lemma AvailableMovesSpec(g: Games.GameState, m: Move)
    requires Games.WellFormed(g)
    ensures m in AvailableMovesOf(g) <==>
      !Games.GameOver(g) &&
      ((m.Place? && m.cell < NumCells && Games.Placed(g, m.cell).Ok?) ||
       (m.Move? && Games.FinishedDrafting(g) && BoardMoves.IsLegalMove(g.board, CurrentPlayer(g), m.src, m.dst)))
  {
    if !Games.GameOver(g) {
      if Games.FinishedDrafting(g) {
        PlayListed(g, m);
      } else {
        DraftListed(g, m);
      }
    }
  }

  /** During the draft the listed placements are the ones `place_penguin`
      accepts. */
  lemma DraftListed(g: Games.GameState, m: Move)
    requires Games.WellFormed(g) && !Games.GameOver(g) && !Games.FinishedDrafting(g)
    ensures m in DraftMoves(g.board) <==> m.Place? && m.cell < NumCells && Games.Placed(g, m.cell).Ok?
  {
    DraftMovesSpec(g.board, m);
  }

  /** After the draft the listed steps are the legal ones, and no placement
      is accepted. */
  lemma PlayListed(g: Games.GameState, m: Move)
    requires Games.WellFormed(g) && !Games.GameOver(g) && Games.FinishedDrafting(g)
    ensures m in PlayMoves(g.board, CurrentPlayer(g)) <==>
      (m.Place? && m.cell < NumCells && Games.Placed(g, m.cell).Ok?) ||
      (m.Move? && BoardMoves.IsLegalMove(g.board, CurrentPlayer(g), m.src, m.dst))
  {
    PlayMovesSpec(g.board, CurrentPlayer(g), m);
  }

  /** Every listed move is one the engine's `apply_action` accepts, and
      every move it accepts is listed. */
  lemma AvailableIffAccepted(g: Games.GameState, m: Move, finder: Endgame.PathFinder)
    requires Games.WellFormed(g) && Endgame.FinderSound(finder)
    ensures m in AvailableMovesOf(g) <==>
      !Games.GameOver(g) &&
      ((m.Place? && m.cell < NumCells && Games.Placed(g, m.cell).Ok?) ||
       (m.Move? && Games.Moved(g, m.src, m.dst, finder).Ok?))
  {
    AvailableMovesSpec(g, m);
  }

  lemma StepsSnoc(b: Board, srcs: seq<nat>, i: nat)
    requires Shaped(b) && AllCells(srcs) && i < |srcs|
    ensures Steps(b, srcs[..i + 1]) == Steps(b, srcs[..i]) + StepsFrom(srcs[i], BoardMoves.Moves(b, srcs[i]))
  {
    assert srcs[..i + 1][..i] == srcs[..i];
  }

  lemma StepsFromSnoc(src: nat, dsts: seq<nat>, j: nat)
    requires j < |dsts|
    ensures StepsFrom(src, dsts[..j + 1]) == StepsFrom(src, dsts[..j]) + [Move(src, dsts[j])]
  {
    assert dsts[..j + 1][..j] == dsts[..j];
  }

  lemma ConcatAssoc(a: seq<Move>, b: seq<Move>, c: seq<Move>)
    ensures a + b + c == a + (b + c)
  {
  }

  /** The inner loop of `available_moves`: one step per move of src. */
  method PushSteps(moves: seq<Move>, src: nat, dsts: seq<nat>) returns (r: seq<Move>)
    ensures r == moves + StepsFrom(src, dsts)
  {
    r := moves;
    assert StepsFrom(src, dsts[..0]) == [] by { assert dsts[..0] == []; }
    for j := 0 to |dsts|
      invariant r == moves + StepsFrom(src, dsts[..j])
    {
      StepsFromSnoc(src, dsts, j);
      ConcatAssoc(moves, StepsFrom(src, dsts[..j]), [Move(src, dsts[j])]);
      r := r + [Move(src, dsts[j])];
    }
    assert dsts[..|dsts|] == dsts;
  }

  /** The nested loops of `available_moves` over the player's penguins and
      their moves. */
  method CollectSteps(b: Board, p: Player) returns (moves: seq<Move>)
    requires Valid(b) && p.id < 4
    ensures moves == PlayMoves(b, p)
  {
    var srcs := b.penguins[p.id].Elements();
    ElementsAreCells(b.penguins[p.id]);
    moves := [];
    for i := 0 to |srcs|
      invariant moves == Steps(b, srcs[..i])
    {
      var src := srcs[i];
      var dsts := BoardMoves.Moves(b, src);
      moves := PushSteps(moves, src, dsts);
      StepsSnoc(b, srcs, i);
    }
    assert srcs[..|srcs|] == srcs;
  }

  /** `Game::available_moves` */
  method AvailableMoves(g: Games.GameState) returns (moves: seq<Move>)
    requires Games.WellFormed(g)
    ensures moves == AvailableMovesOf(g)
  {
    if Games.GameOver(g) {
      return [];
    }
    if Games.FinishedDrafting(g) {
      moves := CollectSteps(g.board, CurrentPlayer(g));
    } else {
      moves := DraftMoves(g.board);
    }
  }

  // ---------------------------------------------------------------------
  // `Game::make_move`

  /** The board updates of a step: the mover claims dst and the penguin
      moves from src to dst. */
  function StepBoard(b: Board, p: Player, src: nat, dst: nat): (r: Board)
    requires Shaped(b) && p.id < 4 && src < 64 && dst < 64
    ensures Shaped(r) && r.fish == b.fish
    ensures forall q :: 0 <= q < 4 ==>
      r.claimed[q].Members() == b.claimed[q].Members() + (if q == p.id then {dst} else {}) &&
      r.penguins[q].Members() == (if q == p.id then b.penguins[q].Members() - {src} + {dst} else b.penguins[q].Members())
  {
    var claimed := b.claimed[p.id := b.claimed[p.id].Insert(dst)];
    var penguins := b.penguins[p.id := b.penguins[p.id].Remove(src).Insert(dst)];
    b.(claimed := claimed, penguins := penguins)
  }

  /** On a legal move, the three updates are the engine's `move_penguin`. */
  lemma StepIsBoardMove(b: Board, p: Player, src: nat, dst: nat)
    requires Valid(b) && p.id < 4 && BoardMoves.IsLegalMove(b, p, src, dst)
    ensures src < NumCells && dst < NumCells
    ensures BoardMoves.MovePenguin(b, p, src, dst) == Ok(StepBoard(b, p, src, dst))
    ensures Valid(StepBoard(b, p, src, dst))
  {
    assert src in b.claimed[p.id].Members();
    BoardMoves.MovePenguinValid(b, p, src, dst);
  }

  /** The board after a legal step. */
  function LegalStep(b: Board, p: Player, src: nat, dst: nat): (r: Board)
    requires Valid(b) && p.id < 4 && BoardMoves.IsLegalMove(b, p, src, dst)
    ensures src < NumCells && dst < NumCells && Valid(r) && r == StepBoard(b, p, src, dst)
  {
    StepIsBoardMove(b, p, src, dst);
    StepBoard(b, p, src, dst)
  }

  /** A legal step followed by `reap`. */
  function StepAndReap(b: Board, p: Player, src: nat, dst: nat): (r: Board)
    requires Valid(b) && p.id < 4 && BoardMoves.IsLegalMove(b, p, src, dst)
    ensures Valid(r) && r.fish == b.fish
  {
    Endgame.Reap(LegalStep(b, p, src, dst))
  }

  /** After a step and `reap`, the mover's claims have grown by dst and
      nobody else's have changed; every penguin left stood there after the
      step; empty seats stay empty. */
  lemma StepAndReapSpec(b: Board, p: Player, src: nat, dst: nat)
    requires Valid(b) && p.id < 4 && BoardMoves.IsLegalMove(b, p, src, dst)
    ensures forall q :: 0 <= q < 4 ==>
      StepAndReap(b, p, src, dst).claimed[q].Members() == b.claimed[q].Members() + (if q == p.id then {dst} else {})
    ensures forall q :: 0 <= q < 4 ==>
      StepAndReap(b, p, src, dst).penguins[q].Members() <=
        (if q == p.id then b.penguins[q].Members() - {src} + {dst} else b.penguins[q].Members())
    ensures forall n: nat :: p.id < n && Games.SeatsEmptyFrom(b, n) ==> Games.SeatsEmptyFrom(StepAndReap(b, p, src, dst), n)
  {
    var s := LegalStep(b, p, src, dst);
    Endgame.ReapShrinks(s);
    ReapedStep(b, p, src, dst, s, Endgame.Reap(s));
  }

  /** `reap` after a step only removes penguins, so the step's claims stay
      and no penguin appears. */
  lemma ReapedStep(b: Board, p: Player, src: nat, dst: nat, s: Board, r: Board)
    requires Shaped(b) && p.id < 4 && src < 64 && dst < 64 && s == StepBoard(b, p, src, dst)
    requires Shaped(r) && r.claimed == s.claimed
    requires forall q :: 0 <= q < 4 ==> r.penguins[q].Members() <= s.penguins[q].Members()
    ensures forall q :: 0 <= q < 4 ==>
      r.claimed[q].Members() == b.claimed[q].Members() + (if q == p.id then {dst} else {})
    ensures forall q :: 0 <= q < 4 ==>
      r.penguins[q].Members() <= (if q == p.id then b.penguins[q].Members() - {src} + {dst} else b.penguins[q].Members())
    ensures forall n: nat :: p.id < n && Games.SeatsEmptyFrom(b, n) ==> Games.SeatsEmptyFrom(r, n)
  {
    forall n: nat | p.id < n && Games.SeatsEmptyFrom(b, n)
      ensures Games.SeatsEmptyFrom(r, n)
    {
      forall q | n <= q < 4
        ensures r.penguins[q].Members() == {} && r.claimed[q].Members() == {}
      {
        assert s.penguins[q].Members() == {};
      }
    }
  }

  /** `Game::make_move` on a listed move: a placement is the engine's;
      a step claims dst for the mover, moves the penguin and reaps the
      stuck penguins, without the checks, the pruning and the score update
      of `move_penguin`; the turn advances by one. */
  function MadeMove(g: Games.GameState, mov: Move): (r: Games.GameState)
    requires Games.WellFormed(g) && mov in AvailableMovesOf(g)
    ensures Games.WellFormed(r) && r.nplayers == g.nplayers && r.turn == g.turn + 1
    ensures mov.Place? ==> mov.cell < NumCells && Games.Placed(g, mov.cell).Ok? && r == Games.Placed(g, mov.cell).value
    ensures mov.Move? ==>
      Games.FinishedDrafting(g) && BoardMoves.IsLegalMove(g.board, CurrentPlayer(g), mov.src, mov.dst) &&
      r.scores == g.scores && r.board == StepAndReap(g.board, CurrentPlayer(g), mov.src, mov.dst)
  {
    AvailableMovesSpec(g, mov);
    match mov
    case Place(c) => Games.Placed(g, c).value
    case Move(src, dst) =>
      StepAndReapSpec(g.board, CurrentPlayer(g), src, dst);
      Games.GameState(g.nplayers, g.scores, g.turn + 1, StepAndReap(g.board, CurrentPlayer(g), src, dst))
  }

  /** A board `prune` does not change is settled. */
  lemma SettleStable(b: Board, finder: Endgame.PathFinder)
    requires Valid(b) && Endgame.FinderSound(finder) && !Endgame.PruneSpec(b, finder).1
    ensures Games.Settle(b, finder) == b
  {
  }

  /** When `prune` has nothing to do after the step, the playout's step
      leaves the board the engine's `move_penguin` leaves. */
  lemma StepAndReapAsEngine(b: Board, p: Player, src: nat, dst: nat, finder: Endgame.PathFinder)
    requires Valid(b) && p.id < 4 && BoardMoves.IsLegalMove(b, p, src, dst) && Endgame.FinderSound(finder)
    requires !Endgame.PruneSpec(LegalStep(b, p, src, dst), finder).1
    ensures Games.AfterMove(b, p, src, dst, finder) == StepAndReap(b, p, src, dst)
  {
    StepIsBoardMove(b, p, src, dst);
    var moved := LegalStep(b, p, src, dst);
    Games.AfterMoveSteps(b, p, src, dst, finder);
    SettleStable(moved, finder);
  }

  // ---------------------------------------------------------------------
  // `get_reward`

  function MaxScore(scores: seq<nat>): (r: nat)
    requires |scores| > 0
    ensures r in scores && forall i :: 0 <= i < |scores| ==> scores[i] <= r
  {
    if |scores| == 1 then scores[0]
    else
      var rest := MaxScore(scores[1..]);
      assert forall i :: 1 <= i < |scores| ==> scores[i] == scores[1..][i - 1];
      if scores[0] >= rest then scores[0] else rest
  }

  /** How many scores reach w (`filter(..).count()`). */
  function CountAtLeast(scores: seq<nat>, w: nat): nat
  {
    if scores == [] then 0 else (if scores[0] >= w then 1 else 0) + CountAtLeast(scores[1..], w)
  }

  lemma {:induction false} CountAtLeastAppend(a: seq<nat>, b: seq<nat>, w: nat)
    ensures CountAtLeast(a + b, w) == CountAtLeast(a, w) + CountAtLeast(b, w)
  {
    if a == [] {
      assert a + b == b;
    } else {
      assert (a + b)[1..] == a[1..] + b;
      CountAtLeastAppend(a[1..], b, w);
    }
  }

  lemma {:induction false} CountAtLeastZero(a: seq<nat>, w: nat)
    ensures CountAtLeast(a, w) == 0 <==> forall i :: 0 <= i < |a| ==> a[i] < w
  {
    if a != [] {
      CountAtLeastZero(a[1..], w);
      assert forall i :: 1 <= i < |a| ==> a[i] == a[1..][i - 1];
    }
  }

  /** Another score reaches a player's exactly when the count of scores
      reaching it exceeds one. */
  lemma SharedTop(scores: seq<nat>, p: nat)
    requires p < |scores|
    ensures CountAtLeast(scores, scores[p]) > 1 <==>
      exists q :: 0 <= q < |scores| && q != p && scores[q] >= scores[p]
  {
    var w := scores[p];
    var a, b := scores[..p], scores[p + 1..];
    assert scores == a + [w] + b;
    CountAtLeastAppend(a + [w], b, w);
    CountAtLeastAppend(a, [w], w);
    CountAtLeastZero(a, w);
    CountAtLeastZero(b, w);
    if exists q :: 0 <= q < |scores| && q != p && scores[q] >= w {
      var q :| 0 <= q < |scores| && q != p && scores[q] >= w;
      if q < p { assert a[q] == scores[q]; } else { assert b[q - p - 1] == scores[q]; }
    }
    if CountAtLeast(a, w) > 0 {
      var i :| 0 <= i < |a| && a[i] >= w;
      assert scores[i] == a[i];
    }
    if CountAtLeast(b, w) > 0 {
      var i :| 0 <= i < |b| && b[i] >= w;
      assert scores[p + 1 + i] == b[i];
    }
  }

  /** `get_reward`: nothing for a player below the winning score, half for
      a shared win, one for an outright win. */
  function GetReward(scores: seq<nat>, p: nat): (r: real)
    requires p < |scores|
    ensures r == 0.0 <==> exists q :: 0 <= q < |scores| && scores[q] > scores[p]
    ensures r == 1.0 <==> forall q :: 0 <= q < |scores| && q != p ==> scores[q] < scores[p]
    ensures r == 0.5 <==>
      (forall q :: 0 <= q < |scores| ==> scores[q] <= scores[p]) &&
      (exists q :: 0 <= q < |scores| && q != p && scores[q] == scores[p])
  {
    var winning := MaxScore(scores);
    SharedTop(scores, p);
    if scores[p] < winning then 0.0
    else if CountAtLeast(scores, winning) > 1 then 0.5
    else 1.0
  }

  /** The rewards of a finished playout, one per seat at the root. */
  function Rewards(scores: seq<nat>, n: nat): (r: seq<real>)
    requires n <= |scores|
    ensures |r| == n && forall p :: 0 <= p < n ==> r[p] == GetReward(scores, p)
  {
    seq(n, p requires 0 <= p < n => GetReward(scores, p))
  }

  /** An outright winner leaves everybody else with nothing. */
  lemma OutrightWin(scores: seq<nat>, p: nat, q: nat)
    requires p < |scores| && q < |scores| && p != q && GetReward(scores, p) == 1.0
    ensures GetReward(scores, q) == 0.0
  {
    assert scores[p] > scores[q];
  }

  /** With scores 5, 5 and 3 the first two share the win and the third has
      nothing. */
  lemma SharedWinExample()
    ensures GetReward([5, 5, 3], 0) == 0.5 && GetReward([5, 5, 3], 1) == 0.5 && GetReward([5, 5, 3], 2) == 0.0
  {
    var s: seq<nat> := [5, 5, 3];
    assert s[1] == s[0] && s[2] < s[0];
  }

  // ---------------------------------------------------------------------
  // Back-propagation

  /** Every node of the path has a player to move and a reward for them. */
  predicate Playable(path: seq<(Games.GameState, Move)>, rewards: seq<real>)
  {
    forall i :: 0 <= i < |path| ==>
      Games.WellFormed(path[i].0) && !Games.GameOver(path[i].0) && CurrentPlayer(path[i].0).id < |rewards|
  }

  /** The reward each node of the path records: that of the player to move
      there (`rewards[p.id]`). */
  function PathRewards(path: seq<(Games.GameState, Move)>, rewards: seq<real>): (r: seq<real>)
    requires Playable(path, rewards)
    ensures |r| == |path| && forall i :: 0 <= i < |path| ==> r[i] == rewards[CurrentPlayer(path[i].0).id]
  {
    seq(|path|, i requires 0 <= i < |path| && Playable(path, rewards) => rewards[CurrentPlayer(path[i].0).id])
  }

  /** The tallies after back-propagation: walking the path, each node in
      the tree records its edge with its reward; the walk stops at the
      first node the tree lacks. */
  function Backpropagated(stats: map<Games.GameState, Visits>, path: seq<(Games.GameState, Move)>, gains: seq<real>): (r: map<Games.GameState, Visits>)
    requires |gains| == |path|
    ensures r.Keys == stats.Keys
  {
    if path == [] || path[0].0 !in stats then stats
    else
      var (node, edge) := path[0];
      Backpropagated(stats[node := MarkedVisit(stats[node], edge, gains[0])], path[1..], gains[1..])
  }

  /** A tally of a node the path does not reach is left alone. */
  lemma {:induction false} BackpropUntouched(stats: map<Games.GameState, Visits>, path: seq<(Games.GameState, Move)>, gains: seq<real>, g: Games.GameState)
    requires |gains| == |path| && g in stats
    requires forall k :: 0 <= k < |path| ==> path[k].0 != g
    ensures Backpropagated(stats, path, gains)[g] == stats[g]
  {
    if path != [] && path[0].0 in stats {
      var (node, edge) := path[0];
      var next := stats[node := MarkedVisit(stats[node], edge, gains[0])];
      assert forall k :: 0 <= k < |path| - 1 ==> path[1..][k] == path[k + 1];
      BackpropUntouched(next, path[1..], gains[1..], g);
    }
  }

  /** Nothing past the first node missing from the tree is recorded. */
  lemma {:induction false} BackpropStops(stats: map<Games.GameState, Visits>, path: seq<(Games.GameState, Move)>, gains: seq<real>, k: nat)
    requires |gains| == |path| && k < |path| && path[k].0 !in stats
    ensures Backpropagated(stats, path, gains) == Backpropagated(stats, path[..k], gains[..k])
  {
    if k > 0 && path[0].0 in stats {
      var (node, edge) := path[0];
      var next := stats[node := MarkedVisit(stats[node], edge, gains[0])];
      BackpropStops(next, path[1..], gains[1..], k - 1);
      assert path[..k][1..] == path[1..][..k - 1];
      assert gains[..k][1..] == gains[1..][..k - 1];
    }
  }

  /** When every node of the path is in the tree, once, each records one
      more visit of its edge and its reward. */
  lemma {:induction false} BackpropCounts(stats: map<Games.GameState, Visits>, path: seq<(Games.GameState, Move)>, gains: seq<real>, i: nat)
    requires |gains| == |path| && i < |path|
    requires forall k :: 0 <= k < |path| ==> path[k].0 in stats
    requires forall k, l :: 0 <= k < l < |path| ==> path[k].0 != path[l].0
    ensures
      var (node, edge) := path[i];
      var before := VisitOf(stats[node], edge);
      VisitOf(Backpropagated(stats, path, gains)[node], edge) == Visit(before.count + 1, before.reward + gains[i])
  {
    var (node, edge) := path[0];
    var next := stats[node := MarkedVisit(stats[node], edge, gains[0])];
    var rest := path[1..];
    assert forall k :: 0 <= k < |rest| ==> rest[k] == path[k + 1];
    assert Backpropagated(stats, path, gains) == Backpropagated(next, rest, gains[1..]);
    if i == 0 {
      assert forall k :: 0 <= k < |rest| ==> rest[k].0 != node by {
        forall k | 0 <= k < |rest| ensures rest[k].0 != node {
          assert path[0].0 != path[k + 1].0;
        }
      }
      BackpropUntouched(next, rest, gains[1..], node);
      MarkThenGet(stats[node], edge, gains[0], edge);
    } else {
      assert forall k, l :: 0 <= k < l < |rest| ==> rest[k].0 != rest[l].0 by {
        forall k, l | 0 <= k < l < |rest| ensures rest[k].0 != rest[l].0 {
          assert path[k + 1].0 != path[l + 1].0;
        }
      }
      assert path[i].0 != node by { assert path[0].0 != path[i].0; }
      BackpropCounts(next, rest, gains[1..], i - 1);
    }
  }

  /** The visits of every tally of the tree. */
  ghost function Stats(tree: map<Games.GameState, Tally>): (r: map<Games.GameState, Visits>)
    reads tree.Values
    ensures r.Keys == tree.Keys
  {
    map g | g in tree :: tree[g].visits
  }

  /** Each node of the tree owns its tally. */
  predicate OwnTallies(tree: map<Games.GameState, Tally>)
  {
    forall g, h :: g in tree && h in tree && g != h ==> tree[g] != tree[h]
  }

  /** `tree.get_mut(node).mark_visit(edge, reward)`: only that node's
      tally changes. */
  method MarkNode(tree: map<Games.GameState, Tally>, node: Games.GameState, edge: Move, reward: real)
    requires OwnTallies(tree) && node in tree
    modifies tree[node]
    ensures Stats(tree) == old(Stats(tree))[node := MarkedVisit(old(Stats(tree))[node], edge, reward)]
    ensures forall g :: g in tree ==> tree[g].untriedMoves == old(tree[g].untriedMoves)
  {
    ghost var before := Stats(tree);
    var tally := tree[node];
    tally.MarkVisit(edge, reward);
    forall g | g in tree
      ensures tree[g].visits == if g == node then MarkedVisit(before[node], edge, reward) else before[g]
    {
      assert g != node ==> tree[g] != tally;
    }
  }

  /** The back-propagation loop of `playout`: each node of the path records
      its edge with the reward of the player to move there, until a node is
      missing from the tree. */
  method Backprop(tree: map<Games.GameState, Tally>, path: seq<(Games.GameState, Move)>, rewards: seq<real>)
    requires OwnTallies(tree) && Playable(path, rewards)
    modifies tree.Values
    ensures Stats(tree) == Backpropagated(old(Stats(tree)), path, PathRewards(path, rewards))
    ensures forall g :: g in tree ==> tree[g].untriedMoves == old(tree[g].untriedMoves)
  {
    ghost var gains := PathRewards(path, rewards);
    for i := 0 to |path|
      invariant Backpropagated(old(Stats(tree)), path, gains) == Backpropagated(Stats(tree), path[i..], gains[i..])
      invariant forall g :: g in tree ==> tree[g].untriedMoves == old(tree[g].untriedMoves)
    {
      var (node, edge) := path[i];
      var p := CurrentPlayer(node);
      assert path[i..][0] == path[i] && path[i..][1..] == path[i + 1..];
      assert gains[i..][0] == rewards[p.id] && gains[i..][1..] == gains[i + 1..];
      if node in tree {
        MarkNode(tree, node, edge, rewards[p.id]);
      } else {
        break;
      }
    }
  }

  // ---------------------------------------------------------------------
  // The bot

  /** The engine action for a chosen edge. */
  function ActionOf(m: Move): (a: Games.Action)
    ensures a.Place? <==> m.Place?
    ensures m.Place? ==> a.cell == m.cell
    ensures m.Move? ==> a.Move? && a.src == m.src && a.dst == m.dst
  {
    match m
    case Place(c) => Games.Place(c)
    case Move(src, dst) => Games.Move(src, dst)
  }

  /** The action of a listed move is accepted by `apply_action`. */
  lemma ChosenActionAccepted(g: Games.GameState, m: Move, finder: Endgame.PathFinder)
    requires Games.WellFormed(g) && m in AvailableMovesOf(g) && Endgame.FinderSound(finder)
    ensures !Games.GameOver(g)
    ensures ActionOf(m).Move? || ActionOf(m).cell < NumCells
    ensures Games.Applied(g, ActionOf(m), finder).Ok?
  {
    AvailableIffAccepted(g, m, finder);
  }

  /** `mctsbot::MCTSBot` without its random generator and pondering
      thread. */
  class MctsBot {
    var root: Games.GameState
    var me: Player
    var tree: map<Games.GameState, Tally>

    /** `MCTSBot::new`: an empty tree rooted at the game. */
    constructor (game: Games.GameState, me: Player)
      ensures root == game && this.me == me && tree == map[]
    {
      root, this.me, tree := game, me, map[];
    }

    /** `MCTSBot::update`: drop the nodes of turns already played and
        re-root at the new state. */
    method Update(game: Games.GameState)
      modifies this
      ensures forall g :: g in tree <==> g in old(tree) && g.turn >= game.turn
      ensures forall g :: g in tree ==> tree[g] == old(tree)[g]
      ensures root == game && me == old(me)
    {
      tree := map g | g in tree && g.turn >= game.turn :: tree[g];
      root := game;
    }

    /** `MCTSBot::take_action` once the search has chosen an edge out of
        the root: it must be the bot's turn, and the edge becomes the
        action, a step after the draft and a placement during it. */
    method TakeAction(chosen: Move) returns (a: Games.Action)
      requires Games.WellFormed(root) && Games.ActivePlayerOf(root) == Some(me)
      requires chosen in AvailableMovesOf(root)
      ensures a == ActionOf(chosen)
      ensures a.Move? <==> Games.FinishedDrafting(root)
    {
      AvailableMovesSpec(root, chosen);
      match chosen
      case Move(src, dst) =>
        a := Games.Move(src, dst);
      case Place(c) =>
        a := Games.Place(c);
    }
  }
}
