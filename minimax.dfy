/**
 * The integer negamax search of bots/src/minimaxbot.rs: the score of a
 * position for one player, the moves of a player, and the mutual recursion
 * of `best_move` and `score_move` over a ply budget.  The search clones the
 * game, so it works on `GameState` values; the bot object keeps the game
 * it was last told about.
 */
module Minimax {
  import opened Wrappers
  import opened Constants
  import opened CellSets
  import opened Boards
  import BoardMoves
  import Endgame
  import Games

  // ---------------------------------------------------------------------
  // `negamax_score`

  /** The best score among the players other than p, 0 when there is none
      (`filter(i != p).max().unwrap_or(0)` over the first k scores). */
  function BestOtherScore(scores: seq<nat>, p: nat, k: nat): nat
    requires k <= |scores|
  {
    if k == 0 then 0
    else
      var best := BestOtherScore(scores, p, k - 1);
      if k - 1 != p && scores[k - 1] > best then scores[k - 1] else best
  }

  /** It bounds every other score and is one of them, or 0. */
  lemma {:induction false} BestOtherScoreSpec(scores: seq<nat>, p: nat, k: nat)
    requires k <= |scores|
    ensures forall i :: 0 <= i < k && i != p ==> scores[i] <= BestOtherScore(scores, p, k)
    ensures BestOtherScore(scores, p, k) == 0 || exists i :: 0 <= i < k && i != p && scores[i] == BestOtherScore(scores, p, k)
  {
    if k > 0 {
      BestOtherScoreSpec(scores, p, k - 1);
    }
  }

  /** `negamax_score`: p's score less the best other score. */
  function NegamaxScore(scores: seq<nat>, p: Player): (r: int)
    requires p.id < |scores|
    ensures r <= scores[p.id]
  {
    scores[p.id] - BestOtherScore(scores, p.id, |scores|)
  }

  /** The sign of the negamax score says where p stands: positive exactly
      when p has scored and leads outright, non-negative exactly when nobody
      is ahead. */
  lemma NegamaxSign(scores: seq<nat>, p: Player)
    requires p.id < |scores|
    ensures NegamaxScore(scores, p) >= 0 <==> forall i :: 0 <= i < |scores| && i != p.id ==> scores[i] <= scores[p.id]
    ensures NegamaxScore(scores, p) > 0 <==>
      scores[p.id] > 0 && forall i :: 0 <= i < |scores| && i != p.id ==> scores[i] < scores[p.id]
  {
    var best := BestOtherScore(scores, p.id, |scores|);
    BestOtherScoreSpec(scores, p.id, |scores|);
    if best != 0 {
      var i :| 0 <= i < |scores| && i != p.id && scores[i] == best;
    }
  }

  /** Alone at the table, a player's negamax score is their score. */
  lemma NegamaxAlone(s: nat)
    ensures NegamaxScore([s], Player(0)) == s
  {
    assert BestOtherScore([s], 0, 1) == BestOtherScore([s], 0, 0) == 0;
  }

  /** With two players it is the difference of the two scores. */
  lemma NegamaxTwoPlayers(scores: seq<nat>, p: Player)
    requires |scores| == 2 && p.id < 2
    ensures NegamaxScore(scores, p) == scores[p.id] as int - scores[if p.id == 0 then 1 else 0] as int
  {
    assert BestOtherScore(scores, p.id, 1) == if p.id == 0 then 0 else scores[0];
    assert BestOtherScore(scores, p.id, 2) == scores[if p.id == 0 then 1 else 0];
  }

  // ---------------------------------------------------------------------
  // `all_moves`

  /** The pairs (src, dst) for one penguin, in the order `moves` lists dst. */
  function PairsFrom(src: nat, dsts: seq<nat>): (r: seq<(nat, nat)>)
    ensures |r| == |dsts| && forall i :: 0 <= i < |r| ==> r[i] == (src, dsts[i])
  {
    if dsts == [] then [] else [(src, dsts[0])] + PairsFrom(src, dsts[1..])
  }

  /** The pairs for a list of penguins (`flat_map`), given where each
      penguin can go. */
  function Pairs(srcs: seq<nat>, dests: nat -> seq<nat>): seq<(nat, nat)>
  {
    if srcs == [] then [] else PairsFrom(srcs[0], dests(srcs[0])) + Pairs(srcs[1..], dests)
  }

  lemma PairsFromSpec(src: nat, dsts: seq<nat>, x: nat, y: nat)
    ensures (x, y) in PairsFrom(src, dsts) <==> x == src && y in dsts
  {
    var own := PairsFrom(src, dsts);
    if (x, y) in own {
      var i :| 0 <= i < |own| && own[i] == (x, y);
    }
    if x == src && y in dsts {
      var i :| 0 <= i < |dsts| && dsts[i] == y;
      assert own[i] == (x, y);
    }
  }

  /** The pairs for a list of penguins are the moves of those penguins. */
  lemma {:induction false} PairsSpec(srcs: seq<nat>, dests: nat -> seq<nat>, src: nat, dst: nat)
    ensures (src, dst) in Pairs(srcs, dests) <==> src in srcs && dst in dests(src)
  {
    if srcs != [] {
      PairsSpec(srcs[1..], dests, src, dst);
      PairsFromSpec(srcs[0], dests(srcs[0]), src, dst);
      assert srcs == [srcs[0]] + srcs[1..];
    }
  }

  /** Where a penguin on cell c can go. */
  function Destinations(b: Board): nat -> seq<nat>
    requires Shaped(b)
  {
    (c: nat) => if c < NumCells then BoardMoves.Moves(b, c) else []
  }

  /** `all_moves`: each of p's penguins, ascending, with each of its moves. */
  function AllMoves(g: Games.GameState, p: Player): seq<(nat, nat)>
    requires Valid(g.board) && p.id < 4
  {
    Pairs(g.board.penguins[p.id].Elements(), Destinations(g.board))
  }

  /** `all_moves` lists exactly the moves `is_legal_move` accepts. */
  lemma AllMovesSpec(g: Games.GameState, p: Player, src: nat, dst: nat)
    requires Valid(g.board) && p.id < 4
    ensures (src, dst) in AllMoves(g, p) <==> BoardMoves.IsLegalMove(g.board, p, src, dst)
  {
    var b := g.board;
    ElementsSpec(b.penguins[p.id]);
    ValidPenguinsOnBoard(b, p.id);
    PairsSpec(b.penguins[p.id].Elements(), Destinations(b), src, dst);
    BoardMoves.LegalIffMove(b, p, src, dst);
  }

  /** A penguin with a move gives its player a move. */
  lemma SomeMove(g: Games.GameState, p: Player, c: nat)
    requires Valid(g.board) && p.id < 4 && c in g.board.penguins[p.id].Members()
    requires c < NumCells && BoardMoves.Moves(g.board, c) != []
    ensures AllMoves(g, p) != []
  {
    var d := BoardMoves.Moves(g.board, c)[0];
    AllMovesSpec(g, p, c, d);
    BoardMoves.LegalIffMove(g.board, p, c, d);
  }

  // ---------------------------------------------------------------------
  // After a move, whoever is to play can move

  /** After `reap` every penguin left has a move. */
  lemma ReapedCanMove(b: Board, q: nat, c: nat)
    requires Valid(b) && q < 4 && c in Endgame.Reap(b).penguins[q].Members()
    ensures c < NumCells && BoardMoves.Moves(Endgame.Reap(b), c) != []
  {
    var r := Endgame.Reap(b);
    ValidPenguinsOnBoard(r, q);
    Endgame.StuckSameClaims(b, r, c);
    Endgame.StuckIffNoMoves(r, c);
  }

  /** The same for the board `move_penguin` leaves. */
  lemma AfterMoveCanMove(b: Board, p: Player, src: nat, dst: nat, finder: Endgame.PathFinder, q: nat, c: nat)
    requires Valid(b) && p.id < 4 && BoardMoves.IsLegalMove(b, p, src, dst) && Endgame.FinderSound(finder)
    requires q < 4 && c in Games.AfterMove(b, p, src, dst, finder).penguins[q].Members()
    ensures c < NumCells && BoardMoves.Moves(Games.AfterMove(b, p, src, dst, finder), c) != []
  {
    BoardMoves.MovePenguinValid(b, p, src, dst);
    Games.AfterMoveSteps(b, p, src, dst, finder);
    ReapedCanMove(Games.Settle(BoardMoves.MovePenguin(b, p, src, dst).value, finder), q, c);
  }

  /** A seat still occupied on the board after a move can move. */
  lemma OccupiedAfterMoveCanMove(b: Board, p: Player, src: nat, dst: nat, finder: Endgame.PathFinder, g: Games.GameState, q: Player)
    requires Valid(b) && p.id < 4 && BoardMoves.IsLegalMove(b, p, src, dst) && Endgame.FinderSound(finder)
    requires g.board == Games.AfterMove(b, p, src, dst, finder) && q.id < 4 && Games.Occupied(g.board, q.id)
    ensures AllMoves(g, q) != []
  {
    var c :| c in g.board.penguins[q.id].Members();
    AfterMoveCanMove(b, p, src, dst, finder, q.id, c);
    SomeMove(g, q, c);
  }

  /** After a move, the player the turn passes to has a move, so the
      recursive `best_move` of `score_move` has something to choose. */
  lemma NextPlayerCanMove(g: Games.GameState, src: nat, dst: nat, finder: Endgame.PathFinder)
    requires Games.WellFormed(g) && !Games.GameOver(g) && Endgame.FinderSound(finder)
    requires Games.Moved(g, src, dst, finder).Ok?
    ensures
      var next := Games.Moved(g, src, dst, finder).value;
      !Games.GameOver(next) ==>
        Games.FinishedDrafting(next) && AllMoves(next, Games.ActivePlayerOf(next).value) != []
  {
    var next := Games.Moved(g, src, dst, finder).value;
    if !Games.GameOver(next) {
      OccupiedAfterMoveCanMove(g.board, Games.ActivePlayerOf(g).value, src, dst, finder, next, Games.ActivePlayerOf(next).value);
    }
  }

  // ---------------------------------------------------------------------
  // `score_move` and `best_move`

  /** A position the search may start from: after the draft, the game on,
      and p to move. */
  predicate Searchable(g: Games.GameState, p: Player)
  {
    Games.WellFormed(g) && !Games.GameOver(g) && Games.FinishedDrafting(g) &&
    Games.ActivePlayerOf(g) == Some(p)
  }

  /** The clone of the game that `score_move` moves on: `move_penguin`
      succeeds (its `unwrap` never panics on a move `all_moves` listed), and
      whoever is to play next has a move of their own. */
  function Successor(g: Games.GameState, p: Player, mv: (nat, nat), finder: Endgame.PathFinder): (next: Games.GameState)
    requires Searchable(g, p) && Endgame.FinderSound(finder) && mv in AllMoves(g, p)
    ensures Games.Moved(g, mv.0, mv.1, finder) == Ok(next)
    ensures Games.WellFormed(next) && (!Games.GameOver(next) ==>
      Games.FinishedDrafting(next) && AllMoves(next, Games.ActivePlayerOf(next).value) != [])
  {
    AllMovesSpec(g, p, mv.0, mv.1);
    NextPlayerCanMove(g, mv.0, mv.1, finder);
    Games.Moved(g, mv.0, mv.1, finder).value
  }

  /** `score_move`: with no ply left, the scores as they stand; otherwise
      the scores `best_move` finds one ply deeper for whoever is to play
      after the move, or the final scores if the game ended.  The measure
      counts the plies left, as `ply <= 0` stops the search. */
  function ScoreMove(g: Games.GameState, p: Player, mv: (nat, nat), ply: int, finder: Endgame.PathFinder): (r: seq<nat>)
    requires Searchable(g, p) && Endgame.FinderSound(finder) && mv in AllMoves(g, p)
    ensures |r| == g.nplayers
    ensures ply <= 0 ==> r == g.scores
    decreases if ply > 0 then ply else 0, 0
  {
    if ply <= 0 then g.scores
    else
      var next := Successor(g, p, mv, finder);
      match Games.ActivePlayerOf(next)
      case Some(q) =>
        BestMove(next, q, ply - 1, finder).0
      case None => next.scores
  }

  /** `max_by_key` on a list of keys: the index of the last greatest key. */
  function LastMaxIndex(keys: seq<int>): (r: nat)
    requires keys != []
    ensures r < |keys|
    ensures forall i :: 0 <= i < |keys| ==> keys[i] <= keys[r]
    ensures forall i :: r < i < |keys| ==> keys[i] < keys[r]
  {
    if |keys| == 1 then 0
    else
      var best := LastMaxIndex(keys[..|keys| - 1]);
      if keys[|keys| - 1] >= keys[best] then |keys| - 1 else best
  }

  /** The index of the last score vector whose negamax score for p is the
      greatest. */
  function BestIndex(scored: seq<seq<nat>>, p: Player): (r: nat)
    requires scored != [] && forall i :: 0 <= i < |scored| ==> p.id < |scored[i]|
    ensures r < |scored|
    ensures forall i :: 0 <= i < |scored| ==> NegamaxScore(scored[i], p) <= NegamaxScore(scored[r], p)
  {
    var keys := seq(|scored|, i requires 0 <= i < |scored| && p.id < |scored[i]| => NegamaxScore(scored[i], p));
    var r := LastMaxIndex(keys);
    assert forall i :: 0 <= i < |scored| ==> keys[i] == NegamaxScore(scored[i], p);
    r
  }

  /** `best_move`: p's moves are scored by `score_move` and the one whose
      scores give p the greatest negamax score is kept, with those scores.
      `unwrap` panics when p has no move. */
  function BestMove(g: Games.GameState, p: Player, ply: int, finder: Endgame.PathFinder): (r: (seq<nat>, (nat, nat)))
    requires Searchable(g, p) && Endgame.FinderSound(finder) && AllMoves(g, p) != []
    ensures r.1 in AllMoves(g, p) && r.0 == ScoreMove(g, p, r.1, ply, finder)
    decreases if ply > 0 then ply else 0, 1
  {
    var moves := AllMoves(g, p);
    var scored := seq(|moves|, i requires 0 <= i < |moves| => ScoreMove(g, p, moves[i], ply, finder));
    var best := BestIndex(scored, p);
    assert scored[best] == ScoreMove(g, p, moves[best], ply, finder);
    (scored[best], moves[best])
  }

  /** No move of p scores better for p than the one `best_move` picks. */
  lemma BestMoveMaximal(g: Games.GameState, p: Player, ply: int, finder: Endgame.PathFinder, i: nat)
    requires Searchable(g, p) && Endgame.FinderSound(finder) && i < |AllMoves(g, p)|
    ensures NegamaxScore(ScoreMove(g, p, AllMoves(g, p)[i], ply, finder), p) <= NegamaxScore(BestMove(g, p, ply, finder).0, p)
  {
    var moves := AllMoves(g, p);
    var scored := seq(|moves|, i requires 0 <= i < |moves| => ScoreMove(g, p, moves[i], ply, finder));
    var best := BestIndex(scored, p);
    assert BestMove(g, p, ply, finder).0 == scored[best];
    assert scored[i] == ScoreMove(g, p, moves[i], ply, finder);
    assert NegamaxScore(scored[i], p) <= NegamaxScore(scored[best], p);
  }

  /** At ply 0 the search looks no further: every move scores the current
      scores. */
  lemma PlyZeroKeepsScores(g: Games.GameState, p: Player, finder: Endgame.PathFinder, mv: (nat, nat))
    requires Searchable(g, p) && Endgame.FinderSound(finder) && mv in AllMoves(g, p)
    ensures ScoreMove(g, p, mv, 0, finder) == g.scores
    ensures BestMove(g, p, 0, finder).0 == g.scores
  {
  }

  /** The move `best_move` picks is one `apply_action` accepts. */
  lemma BestMoveAccepted(g: Games.GameState, p: Player, ply: int, finder: Endgame.PathFinder)
    requires Searchable(g, p) && Endgame.FinderSound(finder) && AllMoves(g, p) != []
    ensures
      var (_, mv) := BestMove(g, p, ply, finder);
      Games.Applied(g, Games.Move(mv.0, mv.1), finder).Ok?
  {
    var (_, mv) := BestMove(g, p, ply, finder);
    AllMovesSpec(g, p, mv.0, mv.1);
  }

  // ---------------------------------------------------------------------
  // The bot

  /** `minimaxbot::MinimaxBot` without its random generator. */
  class MinimaxBot {
    var me: Player
    var game: Games.GameState
    var ply: int

    /** `MinimaxBot::new`: searches two plies deep. */
    constructor (game: Games.GameState, me: Player)
      ensures this.game == game && this.me == me && ply == 2
    {
      this.game, this.me, ply := game, me, 2;
    }

    /** `MinimaxBot::new_with_ply` */
    constructor WithPly(game: Games.GameState, me: Player, ply: int)
      ensures this.game == game && this.me == me && this.ply == ply
    {
      this.game, this.me, this.ply := game, me, ply;
    }

    /** `MinimaxBot::update` */
    method Update(game: Games.GameState)
      modifies this
      ensures this.game == game && me == old(me) && ply == old(ply)
    {
      this.game := game;
    }

    /** `MinimaxBot::take_action`: it must be the bot's turn.  After the
        draft it plays the move `best_move` picks; during the draft it places
        on `pick`, the cell the random sample drew among the unclaimed
        one-fish cells (the sample panics when there is none).  Either way
        `apply_action` accepts the action. */
    method TakeAction(finder: Endgame.PathFinder, pick: nat) returns (a: Games.Action)
      requires Games.WellFormed(game) && Games.ActivePlayerOf(game) == Some(me) && Endgame.FinderSound(finder)
      requires Games.FinishedDrafting(game) ==> AllMoves(game, me) != []
      requires !Games.FinishedDrafting(game) ==> pick < NumCells && Games.Placed(game, pick).Ok?
      ensures Games.FinishedDrafting(game) ==>
        a.Move? && (a.src, a.dst) == BestMove(game, me, ply, finder).1
      ensures !Games.FinishedDrafting(game) ==> a == Games.Place(pick)
      ensures (a.Move? || a.cell < NumCells) && Games.Applied(game, a, finder).Ok?
    {
      if Games.FinishedDrafting(game) {
        var (_, mv) := BestMove(game, me, ply, finder);
        BestMoveAccepted(game, me, ply, finder);
        a := Games.Move(mv.0, mv.1);
      } else {
        a := Games.Place(pick);
      }
    }
  }
}
