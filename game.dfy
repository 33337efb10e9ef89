/**
 * The turn machine of engine/src/game.rs: who is to play, placing a penguin
 * during the draft and moving one afterwards.
 *
 * `GameState` is the value the bots clone, compare and use as a map key;
 * `Game` is the object whose `place_penguin`, `move_penguin` and
 * `apply_action` update it in place.  Each method is proved against the
 * function on values (`Placed`, `Moved`, `Applied`) that the bots use.
 */
module Games {
  import opened Wrappers
  import opened Constants
  import opened CellSets
  import opened Boards
  import BoardMoves
  import Endgame
  import Components

  /** `game::GameState` as a value. */
  datatype GameState = GameState(nplayers: nat, scores: seq<nat>, turn: nat, board: Board)

  /** `game::Action`; only `Move` and `Place` are implemented. */
  datatype Action = Move(src: nat, dst: nat) | Place(cell: nat) | Selection(cell: nat) | Setup(state: GameState)

  const DraftingOverMessage: string := "Drafting phase is over"
  const OneFishMessage: string := "You must place on a cell containing one fish!"
  const DraftingNotOverMessage: string := "Drafting phase is not over"

  /** The seats from n on hold neither penguins nor claims. */
  predicate SeatsEmptyFrom(b: Board, n: nat)
    requires Shaped(b)
  {
    forall q :: n <= q < 4 ==> b.penguins[q].Members() == {} && b.claimed[q].Members() == {}
  }

  /** The states the engine reaches: two to four players, a score per player,
      a valid board, and nothing on the board for a seat nobody sits in. */
  predicate WellFormed(g: GameState)
  {
    2 <= g.nplayers <= 4 && |g.scores| == g.nplayers &&
    Boards.Valid(g.board) && SeatsEmptyFrom(g.board, g.nplayers)
  }

  /** The number of placements in the draft: every player places 6 - n
      penguins (`finished_drafting` panics for other player counts). */
  function DraftLength(nplayers: nat): (r: nat)
    requires 2 <= nplayers <= 4
    ensures r % nplayers == 0 && r / nplayers == 6 - nplayers
  {
    if nplayers == 3 then 9 else 8
  }

  /** `GameState::finished_drafting` */
  predicate FinishedDrafting(g: GameState)
    requires 2 <= g.nplayers <= 4
  {
    g.turn >= DraftLength(g.nplayers)
  }

  /** Whether player q still has a penguin on the board. */
  predicate Occupied(b: Board, q: nat)
    requires Shaped(b) && q < 4
  {
    !b.penguins[q].IsEmpty()
  }

  /** `GameState::game_over`: the draft is over and no seat, of the four,
      has a penguin left. */
  predicate GameOver(g: GameState)
    requires 2 <= g.nplayers <= 4 && Shaped(g.board)
  {
    FinishedDrafting(g) && forall q :: 0 <= q < 4 ==> !Occupied(g.board, q)
  }

  // ---------------------------------------------------------------------
  // Arithmetic of the turn order

  lemma MulAtLeast(d: int, n: int)
    requires d >= 1 && n > 0
    ensures d * n >= n
  {
    assert d * n == (d - 1) * n + n;
    assert (d - 1) * n >= 0;
  }

  /** Quotient and remainder are unique. */
  lemma DivModUnique(a: int, n: int, q: int, s: int)
    requires n > 0 && 0 <= s < n && a == q * n + s
    ensures a % n == s && a / n == q
  {
    var q', s' := a / n, a % n;
    assert a == q' * n + s';
    var d := q - q';
    assert d * n == q * n - q' * n;
    assert d * n == s' - s;
    if d >= 1 {
      MulAtLeast(d, n);
    } else if d <= -1 {
      assert (-d) * n == -(d * n);
      MulAtLeast(-d, n);
    }
  }

  /** The seat i places after `start`, going round the table. */
  function Cyc(start: nat, i: nat, n: nat): (r: nat)
    requires start < n && i < n
    ensures r < n && (r - start) % n == i % n
  {
    if start + i < n then
      DivModUnique(i, n, 0, i);
      start + i
    else
      DivModUnique(i, n, 0, i);
      DivModUnique(start + i - n - start, n, -1, i);
      start + i - n
  }

  /** The seat after p, as `p += 1; p %= nplayers` computes it. */
  lemma CycStep(start: nat, i: nat, n: nat)
    requires start < n && i + 1 < n
    ensures (Cyc(start, i, n) + 1) % n == Cyc(start, i + 1, n)
  {
    var p := Cyc(start, i, n);
    if p + 1 < n {
      DivModUnique(p + 1, n, 0, p + 1);
    } else {
      DivModUnique(p + 1, n, 1, 0);
    }
  }

  /** Rust's `%` on signed integers: the remainder takes the dividend's sign. */
  function TruncRem(a: int, m: int): (r: int)
    requires m > 0
    ensures a >= 0 ==> r == a % m
    ensures a < 0 ==> r == -((-a) % m)
  {
    if a >= 0 then a % m else -((-a) % m)
  }

  /** The seat of an odd draft round as the source computes it: `-turn - 1`,
      reduced with the signed `%`, then lifted into 0 .. n - 1. */
  function ReverseSeat(turn: nat, n: nat): int
    requires n > 0
  {
    var t := TruncRem(-(turn as int) - 1, n);
    if t < 0 then t + n else t
  }

  /** An odd draft round runs the seats backwards. */
  lemma ReverseSeatSpec(turn: nat, n: nat)
    requires n > 0
    ensures ReverseSeat(turn, n) == n - 1 - turn % n
  {
    var q, r := turn / n, turn % n;
    assert turn == q * n + r;
    if r == n - 1 {
      DivModUnique(turn + 1, n, q + 1, 0);
    } else {
      DivModUnique(turn + 1, n, q, r + 1);
    }
  }

  // ---------------------------------------------------------------------
  // `active_player`

  /** The first offset below k, going round the table from `start`, whose
      seat still has a penguin. */
  function FirstOccupied(b: Board, n: nat, start: nat, k: nat): (r: Option<nat>)
    requires Shaped(b) && n <= 4 && start < n && k <= n
    ensures r.Some? ==> r.value < k && Occupied(b, Cyc(start, r.value, n))
    ensures r.Some? ==> forall i :: 0 <= i < r.value ==> !Occupied(b, Cyc(start, i, n))
    ensures r.None? ==> forall i :: 0 <= i < k ==> !Occupied(b, Cyc(start, i, n))
  {
    if k == 0 then None
    else
      match FirstOccupied(b, n, start, k - 1)
      case Some(i) => Some(i)
      case None => if Occupied(b, Cyc(start, k - 1, n)) then Some(k - 1) else None
  }

  /** While the game is on after the draft, some seat at the table has a
      penguin, so the search of `active_player` finds one. */
  lemma SomeSeatOccupied(g: GameState)
    requires WellFormed(g) && !GameOver(g) && FinishedDrafting(g)
    ensures FirstOccupied(g.board, g.nplayers, g.turn % g.nplayers, g.nplayers).Some?
  {
    var n, start := g.nplayers, g.turn % g.nplayers;
    var q :| 0 <= q < 4 && Occupied(g.board, q);
    assert q < n;
    var i := if q >= start then q - start else q + n - start;
    assert Cyc(start, i, n) == q;
  }

  /** `GameState::active_player`: nobody once the game is over; after the
      draft, the first seat at or after `turn % nplayers` with a penguin;
      in the draft, seat `turn % nplayers`, backwards in odd rounds. */
  function ActivePlayerOf(g: GameState): (r: Option<Player>)
    requires WellFormed(g)
    ensures r.None? <==> GameOver(g)
    ensures r.Some? ==> r.value.id < g.nplayers
    ensures r.Some? && FinishedDrafting(g) ==> Occupied(g.board, r.value.id)
  {
    if GameOver(g) then None
    else if FinishedDrafting(g) then
      var start := g.turn % g.nplayers;
      SomeSeatOccupied(g);
      Some(Player(Cyc(start, FirstOccupied(g.board, g.nplayers, start, g.nplayers).value, g.nplayers)))
    else if g.turn / g.nplayers % 2 == 1 then
      ReverseSeatSpec(g.turn, g.nplayers);
      Some(Player(ReverseSeat(g.turn, g.nplayers) as nat))
    else
      Some(Player(g.turn % g.nplayers))
  }

  /** After the draft the turn passes round the table, skipping every seat
      whose penguins are all gone. */
  lemma ActivePlayerInPlay(g: GameState) returns (i: nat)
    requires WellFormed(g) && FinishedDrafting(g) && !GameOver(g)
    ensures i < g.nplayers && ActivePlayerOf(g) == Some(Player(Cyc(g.turn % g.nplayers, i, g.nplayers)))
    ensures Occupied(g.board, Cyc(g.turn % g.nplayers, i, g.nplayers))
    ensures forall j :: 0 <= j < i ==> !Occupied(g.board, Cyc(g.turn % g.nplayers, j, g.nplayers))
  {
    SomeSeatOccupied(g);
    i := FirstOccupied(g.board, g.nplayers, g.turn % g.nplayers, g.nplayers).value;
  }

  /** The draft is a snake: even rounds go up the seats, odd rounds down. */
  lemma DraftOrder(g: GameState)
    requires WellFormed(g) && !FinishedDrafting(g)
    ensures ActivePlayerOf(g) ==
      Some(Player(if g.turn / g.nplayers % 2 == 1 then g.nplayers - 1 - g.turn % g.nplayers else g.turn % g.nplayers))
  {
    ReverseSeatSpec(g.turn, g.nplayers);
  }

  /** With two players the eight placements go to 0, 1, 1, 0, 0, 1, 1, 0. */
  lemma TwoPlayerDraftOrder(g: GameState)
    requires WellFormed(g) && g.nplayers == 2 && g.turn < 8
    ensures ActivePlayerOf(g) == Some(Player([0, 1, 1, 0, 0, 1, 1, 0][g.turn]))
  {
    DraftOrder(g);
  }

  // ---------------------------------------------------------------------
  // `place_penguin`

  /** `GameState::place_penguin` on values: the draft must be on, the cell
      must hold one fish and be unclaimed; the placing player scores one. */
  function Placed(g: GameState, c: nat): (r: Result<GameState, IllegalMoveError>)
    requires WellFormed(g) && !GameOver(g) && c < NumCells
    ensures r.Err? <==> FinishedDrafting(g) || Boards.NumFish(g.board, c) != 1 || IsClaimed(g.board, c)
    ensures r.Err? ==> r.error.player == ActivePlayerOf(g).value
    ensures r.Err? && FinishedDrafting(g) ==> r.error.message == DraftingOverMessage
    ensures r.Err? && !FinishedDrafting(g) && Boards.NumFish(g.board, c) != 1 ==> r.error.message == OneFishMessage
    ensures r.Ok? ==>
      var p := ActivePlayerOf(g).value.id;
      WellFormed(r.value) && r.value.nplayers == g.nplayers && r.value.turn == g.turn + 1 &&
      r.value.scores == g.scores[p := g.scores[p] + 1] && r.value.board.fish == g.board.fish &&
      forall q :: 0 <= q < 4 ==>
        r.value.board.claimed[q].Members() == g.board.claimed[q].Members() + (if q == p then {c} else {}) &&
        r.value.board.penguins[q].Members() == g.board.penguins[q].Members() + (if q == p then {c} else {})
  {
    var p := ActivePlayerOf(g).value;
    if FinishedDrafting(g) then Err(IllegalMoveError(p, DraftingOverMessage))
    else if Boards.NumFish(g.board, c) != 1 then Err(IllegalMoveError(p, OneFishMessage))
    else
      match ClaimCell(g.board, p, c)
      case Err(e) => Err(e)
      case Ok(b) =>
        ClaimCellValid(g.board, p, c);
        Ok(GameState(g.nplayers, g.scores[p.id := g.scores[p.id] + 1], g.turn + 1, b))
  }

  // ---------------------------------------------------------------------
  // `move_penguin`

  /** The board once `prune` has been repeated until it reports no change. */
  function Settle(b: Board, finder: Endgame.PathFinder): (r: Board)
    requires Boards.Valid(b) && Endgame.FinderSound(finder)
    ensures Boards.Valid(r) && r.fish == b.fish
    ensures Endgame.PruneSpec(r, finder) == (r, false)
    decreases Components.CountOut(Endgame.ClaimedSet(b), NumCells)
  {
    Endgame.PruneSpecFacts(b, finder);
    var (next, changed) := Endgame.PruneSpec(b, finder);
    if changed then Settle(next, finder) else b
  }

  /** `prune` leaves the empty seats empty: the penguin it walks has a
      player at the table, and nobody else's cells change. */
  lemma PruneKeepsSeats(b: Board, finder: Endgame.PathFinder, n: nat)
    requires Boards.Valid(b) && Endgame.FinderSound(finder) && SeatsEmptyFrom(b, n)
    ensures SeatsEmptyFrom(Endgame.PruneSpec(b, finder).0, n)
  {
    var icebergs := Endgame.IcebergSets(b);
    var (r, changed) := Endgame.PruneScan(b, finder, icebergs);
    assert Endgame.PruneSpec(b, finder) == (r, changed);
    if changed {
      var k, p, c := Endgame.PruneScanFillsLone(b, finder, icebergs);
      assert c in b.penguins[p].Members();
      forall q | n <= q < 4 ensures r.penguins[q] == b.penguins[q] && r.claimed[q] == b.claimed[q]
      {
        assert q != p;
      }
    } else {
      Endgame.PruneSpecFacts(b, finder);
    }
  }

  lemma {:induction false} SettleKeepsSeats(b: Board, finder: Endgame.PathFinder, n: nat)
    requires Boards.Valid(b) && Endgame.FinderSound(finder) && SeatsEmptyFrom(b, n)
    ensures SeatsEmptyFrom(Settle(b, finder), n)
    decreases Components.CountOut(Endgame.ClaimedSet(b), NumCells)
  {
    Endgame.PruneSpecFacts(b, finder);
    var (next, changed) := Endgame.PruneSpec(b, finder);
    if changed {
      PruneKeepsSeats(b, finder, n);
      SettleKeepsSeats(next, finder, n);
    }
  }

  /** The board after the board steps of `move_penguin`: the move itself,
      `prune` until it reports no change, then `reap`. */
  function AfterMove(b: Board, p: Player, src: nat, dst: nat, finder: Endgame.PathFinder): (r: Board)
    requires Boards.Valid(b) && p.id < 4 && BoardMoves.IsLegalMove(b, p, src, dst) && Endgame.FinderSound(finder)
    ensures Boards.Valid(r) && r.fish == b.fish
    ensures forall q :: 0 <= q < 4 ==> Scorable(r, q)
    ensures forall n: nat :: p.id < n && SeatsEmptyFrom(b, n) ==> SeatsEmptyFrom(r, n)
  {
    BoardMoves.MovePenguinValid(b, p, src, dst);
    var moved := BoardMoves.MovePenguin(b, p, src, dst).value;
    var r := Endgame.Reap(Settle(moved, finder));
    assert forall q | 0 <= q < 4 :: Scorable(r, q) by {
      forall q | 0 <= q < 4 ensures Scorable(r, q) {
        ValidScorable(r, q);
      }
    }
    assert forall n: nat :: p.id < n && SeatsEmptyFrom(b, n) ==> SeatsEmptyFrom(r, n) by {
      forall n: nat | p.id < n && SeatsEmptyFrom(b, n) ensures SeatsEmptyFrom(r, n) {
        assert SeatsEmptyFrom(moved, n);
        SettleKeepsSeats(moved, finder, n);
      }
    }
    r
  }

  /** `GameState::move_penguin` on values: after the draft, the board steps
      of `AfterMove`, then the mover's score is recounted and the turn
      advances. */
  function Moved(g: GameState, src: nat, dst: nat, finder: Endgame.PathFinder): (r: Result<GameState, IllegalMoveError>)
    requires WellFormed(g) && !GameOver(g) && Endgame.FinderSound(finder)
    ensures r.Err? <==> !FinishedDrafting(g) || !BoardMoves.IsLegalMove(g.board, ActivePlayerOf(g).value, src, dst)
    ensures r.Err? && !FinishedDrafting(g) ==> r.error == IllegalMoveError(ActivePlayerOf(g).value, DraftingNotOverMessage)
    ensures r.Ok? ==>
      var p := ActivePlayerOf(g).value;
      WellFormed(r.value) && r.value.nplayers == g.nplayers && r.value.turn == g.turn + 1 &&
      r.value.board == AfterMove(g.board, p, src, dst, finder) &&
      r.value.scores == g.scores[p.id := GetScore(r.value.board, p)]
  {
    var p := ActivePlayerOf(g).value;
    if !FinishedDrafting(g) then Err(IllegalMoveError(p, DraftingNotOverMessage))
    else
      match BoardMoves.MovePenguin(g.board, p, src, dst)
      case Err(e) => Err(e)
      case Ok(_) =>
        var b := AfterMove(g.board, p, src, dst, finder);
        Ok(GameState(g.nplayers, g.scores[p.id := GetScore(b, p)], g.turn + 1, b))
  }

  /** The loop of `move_penguin` that repeats `prune` until it reports no
      change. */
  method PruneUntilStable(b: Board, finder: Endgame.PathFinder) returns (r: Board)
    requires Boards.Valid(b) && Endgame.FinderSound(finder)
    ensures r == Settle(b, finder)
  {
    var hasPruned;
    Endgame.PruneSpecFacts(b, finder);
    r, hasPruned := Endgame.Prune(b, finder);
    while hasPruned
      invariant Boards.Valid(r)
      invariant Settle(b, finder) == if hasPruned then Settle(r, finder) else r
      decreases Components.CountOut(Endgame.ClaimedSet(r), NumCells) + (if hasPruned then 1 else 0)
    {
      Endgame.PruneSpecFacts(r, finder);
      r, hasPruned := Endgame.Prune(r, finder);
    }
  }

  /** The board steps of `move_penguin` after a legal move. */
  method MoveBoard(b: Board, p: Player, src: nat, dst: nat, finder: Endgame.PathFinder) returns (r: Board)
    requires Boards.Valid(b) && p.id < 4 && BoardMoves.IsLegalMove(b, p, src, dst) && Endgame.FinderSound(finder)
    ensures r == AfterMove(b, p, src, dst, finder)
  {
    BoardMoves.MovePenguinValid(b, p, src, dst);
    var moved := BoardMoves.MovePenguin(b, p, src, dst);
    r := PruneUntilStable(moved.value, finder);
    r := Endgame.Reap(r);
    AfterMoveSteps(b, p, src, dst, finder);
  }

  /** A legal move after the draft succeeds with the state it computes. */
  lemma MovedOk(g: GameState, src: nat, dst: nat, finder: Endgame.PathFinder)
    requires WellFormed(g) && !GameOver(g) && Endgame.FinderSound(finder) && FinishedDrafting(g)
    requires BoardMoves.IsLegalMove(g.board, ActivePlayerOf(g).value, src, dst)
    ensures
      var p := ActivePlayerOf(g).value;
      var b := AfterMove(g.board, p, src, dst, finder);
      Moved(g, src, dst, finder) == Ok(GameState(g.nplayers, g.scores[p.id := GetScore(b, p)], g.turn + 1, b))
  {
  }

  lemma AfterMoveSteps(b: Board, p: Player, src: nat, dst: nat, finder: Endgame.PathFinder)
    requires Boards.Valid(b) && p.id < 4 && BoardMoves.IsLegalMove(b, p, src, dst) && Endgame.FinderSound(finder)
    requires Boards.Valid(BoardMoves.MovePenguin(b, p, src, dst).value)
    ensures AfterMove(b, p, src, dst, finder) == Endgame.Reap(Settle(BoardMoves.MovePenguin(b, p, src, dst).value, finder))
  {
  }

  /** `GameState::apply_action` on values. */
  function Applied(g: GameState, action: Action, finder: Endgame.PathFinder): (r: Result<GameState, IllegalMoveError>)
    requires WellFormed(g) && !GameOver(g) && Endgame.FinderSound(finder)
    requires action.Move? || (action.Place? && action.cell < NumCells)
    ensures action.Move? ==> r == Moved(g, action.src, action.dst, finder)
    ensures action.Place? ==> r == Placed(g, action.cell)
  {
    match action
    case Move(src, dst) => Moved(g, src, dst, finder)
    case Place(c) => Placed(g, c)
  }

  /** Every action either fails or leaves a well-formed state one turn on. */
  lemma AppliedAdvances(g: GameState, action: Action, finder: Endgame.PathFinder)
    requires WellFormed(g) && !GameOver(g) && Endgame.FinderSound(finder)
    requires action.Move? || (action.Place? && action.cell < NumCells)
    ensures Applied(g, action, finder).Ok? ==>
      WellFormed(Applied(g, action, finder).value) && Applied(g, action, finder).value.turn == g.turn + 1 &&
      Applied(g, action, finder).value.nplayers == g.nplayers
  {
  }

  // ---------------------------------------------------------------------
  // The object

  /** `game::GameState` as the engine holds it, updated in place. */
  class Game {
    var nplayers: nat
    var scores: seq<nat>
    var turn: nat
    var board: Board

    function State(): GameState
      reads this
    {
      GameState(nplayers, scores, turn, board)
    }

    predicate Valid()
      reads this
    {
      WellFormed(State())
    }

    /** `GameState::new_two_player`, given the board `Board::new` deals:
        fish tiers set, nothing claimed and no penguins. */
    constructor NewTwoPlayer(b: Board)
      requires Boards.Valid(b) && SeatsEmptyFrom(b, 0)
      ensures Valid() && State() == GameState(2, [0, 0], 0, b)
    {
      nplayers, scores, turn, board := 2, [0, 0], 0, b;
    }

    /** Overwrites the whole state. */
    method Assign(g: GameState)
      modifies this
      ensures State() == g
    {
      nplayers, scores, turn, board := g.nplayers, g.scores, g.turn, g.board;
    }

    /** `GameState::active_player` */
    method ActivePlayer() returns (r: Option<Player>)
      requires Valid()
      ensures r == ActivePlayerOf(State())
    {
      if GameOver(State()) {
        return None;
      }
      if FinishedDrafting(State()) {
        var start := turn % nplayers;
        var p := start;
        ghost var i := 0;
        SomeSeatOccupied(State());
        ghost var target := FirstOccupied(board, nplayers, start, nplayers).value;
        while board.penguins[p].IsEmpty()
          invariant i <= target && p == Cyc(start, i, nplayers)
          decreases target - i
        {
          CycStep(start, i, nplayers);
          p := p + 1;
          p := p % nplayers;
          i := i + 1;
        }
        assert i == target;
        return Some(Player(p));
      } else if turn / nplayers % 2 == 1 {
        var t := -(turn as int) - 1;
        t := TruncRem(t, nplayers);
        if t < 0 {
          t := t + nplayers;
        }
        ReverseSeatSpec(turn, nplayers);
        assert t == ReverseSeat(turn, nplayers);
        return Some(Player(t as nat));
      } else {
        return Some(Player(turn % nplayers));
      }
    }

    /** `GameState::place_penguin`: on an error nothing changes. */
    method PlacePenguin(c: nat) returns (r: Result<(), IllegalMoveError>)
      requires Valid() && !GameOver(State()) && c < NumCells
      modifies this
      ensures Valid()
      ensures r.Ok? <==> Placed(old(State()), c).Ok?
      ensures r.Ok? ==> State() == Placed(old(State()), c).value
      ensures r.Err? ==> r.error == Placed(old(State()), c).error && State() == old(State())
    {
      if FinishedDrafting(State()) {
        var p := ActivePlayer();
        return Err(IllegalMoveError(p.value, DraftingOverMessage));
      }
      if Boards.NumFish(board, c) != 1 {
        var p := ActivePlayer();
        return Err(IllegalMoveError(p.value, OneFishMessage));
      }
      var active := ActivePlayer();
      var claimed := ClaimCell(board, active.value, c);
      if claimed.Err? {
        return Err(claimed.error);
      }
      ClaimCellValid(board, active.value, c);
      board := claimed.value;
      scores := scores[active.value.id := scores[active.value.id] + 1];
      turn := turn + 1;
      return Ok(());
    }

    /** `GameState::move_penguin`: on an error nothing changes. */
    method MovePenguin(src: nat, dst: nat, finder: Endgame.PathFinder) returns (r: Result<(), IllegalMoveError>)
      requires Valid() && !GameOver(State()) && Endgame.FinderSound(finder)
      modifies this
      ensures Valid()
      ensures r.Ok? <==> Moved(old(State()), src, dst, finder).Ok?
      ensures r.Ok? ==> State() == Moved(old(State()), src, dst, finder).value
      ensures r.Err? ==> r.error == Moved(old(State()), src, dst, finder).error && State() == old(State())
    {
      ghost var g := State();
      ghost var expected := Moved(g, src, dst, finder);
      if !FinishedDrafting(State()) {
        var p := ActivePlayer();
        return Err(IllegalMoveError(p.value, DraftingNotOverMessage));
      }
      var active := ActivePlayer();
      var p := active.value;
      var moved := BoardMoves.MovePenguin(board, p, src, dst);
      if moved.Err? {
        assert expected == Err(moved.error);
        return Err(moved.error);
      }
      var reaped := MoveBoard(board, p, src, dst, finder);
      MovedOk(g, src, dst, finder);
      var next := GameState(nplayers, scores[p.id := GetScore(reaped, p)], turn + 1, reaped);
      assert expected == Ok(next);
      Assign(next);
      return Ok(());
    }

    /** `GameState::apply_action`; `Selection` and `Setup` are
        unimplemented there and so excluded here. */
    method ApplyAction(action: Action, finder: Endgame.PathFinder) returns (r: Result<(), IllegalMoveError>)
      requires Valid() && !GameOver(State()) && Endgame.FinderSound(finder)
      requires action.Move? || (action.Place? && action.cell < NumCells)
      modifies this
      ensures Valid()
      ensures r.Ok? <==> Applied(old(State()), action, finder).Ok?
      ensures r.Ok? ==> State() == Applied(old(State()), action, finder).value
      ensures r.Err? ==> State() == old(State())
    {
      match action
      case Move(src, dst) =>
        r := MovePenguin(src, dst, finder);
      case Place(c) =>
        r := PlacePenguin(c);
    }
  }
}
