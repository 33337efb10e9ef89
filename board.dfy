/**
 * The board record and its bookkeeping (engine/src/board.rs:25-98,
 * engine/src/errors.rs:3-13): four penguin sets, three fish tiers and four
 * claimed sets, claiming a cell and scoring a player.
 *
 * `Board` is a value: each `&mut self` operation of the source is a function
 * that returns the updated board (or the error, in which case the caller
 * keeps the board it had).
 */
module Boards {
  import opened Wrappers
  import opened Constants
  import opened CellSets
  import BoardGeometry

  /** `board::Player` */
  datatype Player = Player(id: nat)

  /** `errors::IllegalMoveError`: the player at fault and a message. */
  datatype IllegalMoveError = IllegalMoveError(player: Player, message: string)

  /** Decimal rendering of a number, as `format!("{}", n)` writes it. */
  function NatString(n: nat): (s: string)
    ensures |s| >= 1
    ensures forall i :: 0 <= i < |s| ==> '0' <= s[i] <= '9'
  {
    var digit := ['0', '1', '2', '3', '4', '5', '6', '7', '8', '9'][n % 10];
    if n < 10 then [digit] else NatString(n / 10) + [digit]
  }

  /** `format!("{:?}", p)` of the derived `Debug`. */
  function PlayerDebug(p: Player): string
  {
    "Player { id: " + NatString(p.id) + " }"
  }

  function AlreadyClaimedMessage(idx: nat): string
  {
    "Cell at " + NatString(idx) + " already claimed"
  }

  function CannotMoveMessage(p: Player, src: nat, dst: nat): string
  {
    "Player " + PlayerDebug(p) + " cannot move penguin from " + NatString(src) + " to " + NatString(dst)
  }

  /** `board::Board` */
  datatype Board = Board(penguins: seq<CellSet>, fish: seq<CellSet>, claimed: seq<CellSet>)

  /** The `ArrayVec` capacities: four players, three fish tiers. */
  predicate Shaped(b: Board)
  {
    |b.penguins| == 4 && |b.fish| == 3 && |b.claimed| == 4
  }

  /** Every cell of the 60 lies in exactly one fish tier (what `Board::new` builds). */
  predicate TiersPartition(b: Board)
    requires Shaped(b)
  {
    OnBoard(b.fish[0]) && OnBoard(b.fish[1]) && OnBoard(b.fish[2]) &&
    (forall c: nat :: c < NumCells ==> HasFish(b, c)) &&
    b.fish[0].Members() !! b.fish[1].Members() &&
    b.fish[0].Members() !! b.fish[2].Members() &&
    b.fish[1].Members() !! b.fish[2].Members()
  }

  /**
   * The invariant every reachable board keeps: cells are on the board, each
   * penguin stands on a cell its player claimed, and no cell is claimed twice.
   */
  predicate Valid(b: Board)
  {
    Shaped(b) && TiersPartition(b) &&
    (forall p :: 0 <= p < 4 ==> OnBoard(b.claimed[p])) &&
    (forall p :: 0 <= p < 4 ==> b.penguins[p].Members() <= b.claimed[p].Members()) &&
    (forall p, q :: 0 <= p < q < 4 ==> b.claimed[p].Members() !! b.claimed[q].Members())
  }

  lemma ValidPenguinsOnBoard(b: Board, p: nat)
    requires Valid(b) && p < 4
    ensures OnBoard(b.penguins[p])
  {
  }

  /** Whether some set of the list holds `idx` (`iter().any(contains)`). */
  function AnyContains(sets: seq<CellSet>, idx: nat): (r: bool)
    requires idx < 64
    ensures r <==> exists i :: 0 <= i < |sets| && idx in sets[i].Members()
  {
    if sets == [] then false
    else sets[0].Contains(idx) || AnyContains(sets[1..], idx)
  }

  /** `Board::is_claimed`.  Cells beyond the 64-bit word are never members. */
  function IsClaimed(b: Board, idx: nat): (r: bool)
    requires Shaped(b)
    ensures r <==> exists p :: 0 <= p < 4 && idx in b.claimed[p].Members()
  {
    if idx < 64 then AnyContains(b.claimed, idx)
    else
      assert forall p :: 0 <= p < 4 ==> idx !in b.claimed[p].Members();
      false
  }

  /** Whether the cell lies in some tier, so that `num_fish` does not panic. */
  predicate HasFish(b: Board, idx: nat)
    requires Shaped(b)
  {
    idx in b.fish[0].Members() || idx in b.fish[1].Members() || idx in b.fish[2].Members()
  }

  /** `Board::num_fish`: one more than the index of the first tier holding the
      cell (the `unwrap` panics when there is none). */
  function NumFish(b: Board, idx: nat): (r: nat)
    requires Shaped(b) && HasFish(b, idx)
    ensures 1 <= r <= 3 && idx in b.fish[r - 1].Members()
    ensures forall t :: 0 <= t < r - 1 ==> idx !in b.fish[t].Members()
  {
    if idx in b.fish[0].Members() then 1
    else if idx in b.fish[1].Members() then 2
    else 3
  }

  /** On a valid board a cell's fish count names the one tier holding it. */
  lemma NumFishTier(b: Board, idx: nat, t: nat)
    requires Valid(b) && t < 3 && idx in b.fish[t].Members()
    ensures NumFish(b, idx) == t + 1
  {
  }

  /** `Board::claim_cell` */
  function ClaimCell(b: Board, p: Player, idx: nat): (r: Result<Board, IllegalMoveError>)
    requires Shaped(b) && p.id < 4 && idx < 64
    ensures r.Err? <==> IsClaimed(b, idx)
    ensures r.Err? ==> r.error == IllegalMoveError(p, AlreadyClaimedMessage(idx))
    ensures r.Ok? ==> Shaped(r.value) && r.value.fish == b.fish
    ensures r.Ok? ==> forall q :: 0 <= q < 4 ==>
      r.value.claimed[q].Members() == b.claimed[q].Members() + (if q == p.id then {idx} else {}) &&
      r.value.penguins[q].Members() == b.penguins[q].Members() + (if q == p.id then {idx} else {})
  {
    if IsClaimed(b, idx) then
      Err(IllegalMoveError(p, AlreadyClaimedMessage(idx)))
    else
      Ok(b.(claimed := b.claimed[p.id := b.claimed[p.id].Insert(idx)],
            penguins := b.penguins[p.id := b.penguins[p.id].Insert(idx)]))
  }

  /** Claiming an unclaimed board cell keeps the board valid. */
  lemma ClaimCellValid(b: Board, p: Player, idx: nat)
    requires Valid(b) && p.id < 4 && idx < NumCells
    ensures ClaimCell(b, p, idx).Ok? ==> Valid(ClaimCell(b, p, idx).value)
  {
    var r := ClaimCell(b, p, idx);
    if r.Ok? {
      forall c: nat | c < NumCells ensures HasFish(r.value, c) {
        assert HasFish(b, c);
      }
    }
  }

  /** The cells of a claimed set that have a fish count. */
  predicate Scorable(b: Board, p: nat)
    requires Shaped(b) && p < 4
  {
    forall c :: c in b.claimed[p].Elements() ==> HasFish(b, c)
  }

  function SumFish(b: Board, cells: seq<nat>): nat
    requires Shaped(b) && forall c :: c in cells ==> HasFish(b, c)
  {
    if cells == [] then 0 else NumFish(b, cells[0]) + SumFish(b, cells[1..])
  }

  /** `Board::get_score`: the fish on the player's claimed cells. */
  function GetScore(b: Board, p: Player): nat
    requires Shaped(b) && p.id < 4 && Scorable(b, p.id)
  {
    SumFish(b, b.claimed[p.id].Elements())
  }

  lemma ValidScorable(b: Board, p: nat)
    requires Valid(b) && p < 4
    ensures Scorable(b, p)
  {
    ElementsSpec(b.claimed[p]);
  }

  function TierCount(b: Board, cells: set<nat>, t: nat): nat
    requires Shaped(b) && t < 3
  {
    |cells * b.fish[t].Members()|
  }

  /** The fish of one cell, tier by tier. */
  lemma NumFishSplit(b: Board, x: nat)
    requires Shaped(b) && TiersPartition(b) && x < NumCells
    ensures HasFish(b, x)
    ensures NumFish(b, x) == (if x in b.fish[0].Members() then 1 else 0)
                           + 2 * (if x in b.fish[1].Members() then 1 else 0)
                           + 3 * (if x in b.fish[2].Members() then 1 else 0)
  {
  }

  function ToSet(cells: seq<nat>): (r: set<nat>)
    ensures forall c :: c in r <==> c in cells
  {
    if cells == [] then {} else {cells[0]} + ToSet(cells[1..])
  }

  lemma AllHaveFish(b: Board, cells: seq<nat>)
    requires Shaped(b) && TiersPartition(b)
    requires forall c :: c in cells ==> c < NumCells
    ensures forall c :: c in cells ==> HasFish(b, c)
  {
  }

  /** How many entries of the list lie in the set. */
  function CountIn(cells: seq<nat>, f: set<nat>): nat
  {
    if cells == [] then 0 else (if cells[0] in f then 1 else 0) + CountIn(cells[1..], f)
  }

  lemma {:induction false} SumFishByCounts(b: Board, cells: seq<nat>)
    requires Shaped(b) && TiersPartition(b)
    requires forall c :: c in cells ==> c < NumCells
    ensures forall c :: c in cells ==> HasFish(b, c)
    ensures SumFish(b, cells) == CountIn(cells, b.fish[0].Members()) + 2 * CountIn(cells, b.fish[1].Members()) + 3 * CountIn(cells, b.fish[2].Members())
  {
    AllHaveFish(b, cells);
    if cells != [] {
      assert cells[0] in cells;
      assert forall c :: c in cells[1..] ==> c in cells;
      SumFishByCounts(b, cells[1..]);
      NumFishSplit(b, cells[0]);
    }
  }

  predicate NoDup(cells: seq<nat>)
  {
    cells == [] || (cells[0] !in cells[1..] && NoDup(cells[1..]))
  }

  lemma {:induction false} IncreasingNoDup(cells: seq<nat>)
    requires StrictlyIncreasing(cells)
    ensures NoDup(cells)
  {
    if cells != [] {
      var rest := cells[1..];
      assert StrictlyIncreasing(rest) by {
        forall i, j | 0 <= i < j < |rest| ensures rest[i] < rest[j] {
          assert rest[i] == cells[i + 1] && rest[j] == cells[j + 1];
        }
      }
      IncreasingNoDup(rest);
    }
  }

  lemma {:induction false} CountInCard(cells: seq<nat>, f: set<nat>)
    requires NoDup(cells)
    ensures CountIn(cells, f) == |ToSet(cells) * f|
  {
    if cells != [] {
      var rest := cells[1..];
      CountInCard(rest, f);
      assert ToSet(cells) == {cells[0]} + ToSet(rest);
      assert cells[0] !in ToSet(rest);
      CardStep(cells[0], ToSet(rest), f);
    }
  }

  /** Adding a new element x to t adds one to |t * f| exactly when x is in f. */
  lemma CardStep(x: nat, t: set<nat>, f: set<nat>)
    requires x !in t
    ensures |({x} + t) * f| == |t * f| + (if x in f then 1 else 0)
  {
    if x in f {
      assert ({x} + t) * f == {x} + (t * f);
    } else {
      assert ({x} + t) * f == t * f;
    }
  }

  /** A player's score counts 1, 2 and 3 for each claimed cell of the one-,
      two- and three-fish tiers. */
  lemma ScoreByTiers(b: Board, p: Player)
    requires Valid(b) && p.id < 4
    ensures Scorable(b, p.id)
    ensures GetScore(b, p) == TierCount(b, b.claimed[p.id].Members(), 0)
                            + 2 * TierCount(b, b.claimed[p.id].Members(), 1)
                            + 3 * TierCount(b, b.claimed[p.id].Members(), 2)
  {
    var s := b.claimed[p.id];
    var xs := s.Elements();
    assert OnBoard(s);
    ElementsSpec(s);
    ValidScorable(b, p.id);
    SumFishByCounts(b, xs);
    IncreasingNoDup(xs);
    CountInCard(xs, b.fish[0].Members());
    CountInCard(xs, b.fish[1].Members());
    CountInCard(xs, b.fish[2].Members());
    assert ToSet(xs) == s.Members();
  }

  /** The cells of a list of sets, set by set (`iter().flat_map(iter)`). */
  function FlatElements(sets: seq<CellSet>): (r: seq<nat>)
    ensures forall c :: c in r <==> c < NumCells && exists i :: 0 <= i < |sets| && c in sets[i].Members()
  {
    if sets == [] then []
    else
      FromMembers(sets[0], 0);
      var rest := FlatElements(sets[1..]);
      assert forall i :: 1 <= i < |sets| ==> sets[i] == sets[1..][i - 1];
      sets[0].Elements() + rest
  }

  /** `Board::claimed_cells`: every player's claimed cells, player by player. */
  function ClaimedCells(b: Board): (r: seq<nat>)
    requires Shaped(b)
    ensures forall c: nat :: c in r <==> c < NumCells && IsClaimed(b, c)
  {
    FlatElements(b.claimed)
  }
}
