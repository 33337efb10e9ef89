/**
 * The JSON records of the engine and the conversions between them and the
 * board and game state (engine/src/json.rs:11-147).
 *
 * The records are values; the serde text form is not modelled, only the
 * field-by-field mapping.  The encoders are iterator chains and become
 * functions; the board decoder fills fixed-size arrays in `for` loops and
 * becomes a method proved equal to the function `BoardOf`.
 */
module Json {
  import opened Wrappers
  import opened Constants
  import opened CellSets
  import opened Boards
  import Games

  /** `NUM_PLAYERS`: the JSON form always describes a two-player game. */
  const NumPlayers: nat := 2

  /** `GameModeType` */
  datatype GameModeType = Drafting | Playing

  /** `BoardJSON`: a fish count per cell, and per seat the cells of its
      penguins and of its claims. */
  datatype BoardJson = BoardJson(fish: seq<nat>, penguins: seq<seq<nat>>, claimed: seq<seq<nat>>,
                                 possibleMoves: Option<seq<nat>>)

  /** `GameStateJSON` */
  datatype GameStateJson = GameStateJson(lastMoveValid: bool, modeType: GameModeType, nplayers: nat,
                                         activePlayer: Option<nat>, scores: seq<nat>, turn: nat,
                                         board: BoardJson)

  // ---------------------------------------------------------------------
  // Encoding

  /** `(0..NUM_CELLS).map(|c| b.num_fish(c))` */
  function FishCounts(b: Board): (r: seq<nat>)
    requires Valid(b)
    ensures |r| == NumCells
    ensures forall c :: 0 <= c < NumCells ==> 1 <= r[c] <= 3 && c in b.fish[r[c] - 1].Members()
  {
    seq(NumCells, c requires 0 <= c < NumCells => Boards.NumFish(b, c))
  }

  /** Every set of the list, as the ascending list of its cells. */
  function CellLists(sets: seq<CellSet>): (r: seq<seq<nat>>)
    ensures |r| == |sets|
    ensures forall i :: 0 <= i < |sets| ==> StrictlyIncreasing(r[i])
    ensures forall i :: 0 <= i < |sets| && OnBoard(sets[i]) ==>
      forall v :: v in r[i] <==> v in sets[i].Members()
  {
    var r := seq(|sets|, i requires 0 <= i < |sets| => sets[i].Elements());
    assert forall i :: 0 <= i < |sets| ==>
      StrictlyIncreasing(r[i]) && (OnBoard(sets[i]) ==> forall v :: v in r[i] <==> v in sets[i].Members()) by {
      forall i | 0 <= i < |sets|
        ensures StrictlyIncreasing(r[i]) && (OnBoard(sets[i]) ==> forall v :: v in r[i] <==> v in sets[i].Members())
      {
        ElementsSpec(sets[i]);
      }
    }
    r
  }

  /** `BoardJSON::from(&Board)`: the fish count of every cell, the penguins
      and claims of every seat in ascending order, and no move list. */
  function BoardToJson(b: Board): (r: BoardJson)
    requires Valid(b)
    ensures |r.fish| == NumCells
    ensures forall c :: 0 <= c < NumCells ==> r.fish[c] == Boards.NumFish(b, c)
    ensures |r.penguins| == 4 && |r.claimed| == 4
    ensures forall p :: 0 <= p < 4 ==>
      StrictlyIncreasing(r.penguins[p]) && (forall v :: v in r.penguins[p] <==> v in b.penguins[p].Members())
    ensures forall p :: 0 <= p < 4 ==>
      StrictlyIncreasing(r.claimed[p]) && (forall v :: v in r.claimed[p] <==> v in b.claimed[p].Members())
    ensures r.possibleMoves == None
  {
    assert forall p :: 0 <= p < 4 ==> OnBoard(b.penguins[p]) by {
      forall p | 0 <= p < 4 ensures OnBoard(b.penguins[p]) {
        ValidPenguinsOnBoard(b, p);
      }
    }
    BoardJson(FishCounts(b), CellLists(b.penguins), CellLists(b.claimed), None)
  }

  /** `GameStateJSON::from(&GameState)` */
  function GameStateToJson(g: Games.GameState): (r: GameStateJson)
    requires Games.WellFormed(g)
    ensures r.modeType == Playing <==> Games.FinishedDrafting(g)
    ensures r.nplayers == 2 && r.lastMoveValid
    ensures r.activePlayer.None? <==> Games.GameOver(g)
    ensures r.activePlayer.Some? ==> Games.ActivePlayerOf(g) == Some(Player(r.activePlayer.value))
    ensures r.scores == g.scores && r.turn == g.turn
    ensures r.board == BoardToJson(g.board)
  {
    var active := Games.ActivePlayerOf(g);
    GameStateJson(
      true,
      if Games.FinishedDrafting(g) then Playing else Drafting,
      NumPlayers,
      if active.Some? then Some(active.value.id) else None,
      g.scores,
      g.turn,
      BoardToJson(g.board))
  }

  /** `GameStateJSON::from(&Board)`: a fresh game on the given board. */
  function BoardToGameStateJson(b: Board): (r: GameStateJson)
    requires Valid(b)
    ensures r.modeType == Drafting && r.turn == 0
    ensures r.activePlayer == Some(0) && r.scores == [0, 0] && r.nplayers == 2
    ensures r.board == BoardToJson(b)
  {
    GameStateJson(true, Drafting, NumPlayers, Some(0), [0, 0], 0, BoardToJson(b))
  }

  // ---------------------------------------------------------------------
  // Decoding

  /** The indices holding k, in ascending order:
      `fish.iter().enumerate().filter(|(_, f)| f == k).map(|(i, _)| i)`. */
  function CellsWith(fish: seq<nat>, k: nat): (r: seq<nat>)
    ensures forall i: nat :: i in r <==> i < |fish| && fish[i] == k
  {
    if fish == [] then []
    else
      var init := fish[..|fish| - 1];
      assert forall i: nat :: i < |init| ==> init[i] == fish[i];
      CellsWith(init, k) + (if fish[|fish| - 1] == k then [|fish| - 1] else [])
  }

  /** The fish list never names a tier cell that a 64-bit set cannot hold
      (`insert` shifts a word by the cell number). */
  predicate FishDecodable(fish: seq<nat>)
  {
    forall i :: 0 <= i < |fish| && 1 <= fish[i] <= 3 ==> i < 64
  }

  /** A cell list `insert` can take. */
  predicate Insertable(cells: seq<nat>)
  {
    forall v :: v in cells ==> v < 64
  }

  /** The list of seat p, or the empty list when there is none
      (`b.penguins.get(player)`). */
  function ListOrEmpty(lists: seq<seq<nat>>, p: nat): (r: seq<nat>)
    ensures p < |lists| ==> r == lists[p]
    ensures p >= |lists| ==> r == []
  {
    if p < |lists| then lists[p] else []
  }

  /** What the board decoder needs of its record: fish tiers that fit the
      set word, penguin and claim cells that fit it, and claim lists for
      seats 0 and 1, which it indexes without a check. */
  predicate Decodable(j: BoardJson)
  {
    FishDecodable(j.fish) && |j.claimed| >= 2 &&
    forall p :: 0 <= p < 2 ==> Insertable(ListOrEmpty(j.penguins, p)) && Insertable(j.claimed[p])
  }

  /** The cells of the record's tier with k fish, collected into a set. */
  function Tier(fish: seq<nat>, k: nat): (r: CellSet)
    requires FishDecodable(fish) && 1 <= k <= 3
    ensures r.Members() == set i | 0 <= i < |fish| && fish[i] == k
  {
    var cells := CellsWith(fish, k);
    Collect(cells)
  }

  /** The board a record describes: tier t holds the cells of count t + 1,
      seats 0 and 1 take their lists, and the two further seats of the
      four-seat board stay empty. */
  function BoardOf(j: BoardJson): (r: Board)
    requires Decodable(j)
    ensures Shaped(r)
    ensures r.fish[0].Members() == set i | 0 <= i < |j.fish| && j.fish[i] == 1
    ensures r.fish[1].Members() == set i | 0 <= i < |j.fish| && j.fish[i] == 2
    ensures r.fish[2].Members() == set i | 0 <= i < |j.fish| && j.fish[i] == 3
    ensures r.penguins[0].Members() == set v | v in ListOrEmpty(j.penguins, 0)
    ensures r.penguins[1].Members() == set v | v in ListOrEmpty(j.penguins, 1)
    ensures r.claimed[0].Members() == set v | v in j.claimed[0]
    ensures r.claimed[1].Members() == set v | v in j.claimed[1]
    ensures r.penguins[2].Members() == {} && r.penguins[3].Members() == {}
    ensures r.claimed[2].Members() == {} && r.claimed[3].Members() == {}
  {
    Board([Collect(ListOrEmpty(j.penguins, 0)), Collect(ListOrEmpty(j.penguins, 1)), Empty(), Empty()],
          [Tier(j.fish, 1), Tier(j.fish, 2), Tier(j.fish, 3)],
          [Collect(j.claimed[0]), Collect(j.claimed[1]), Empty(), Empty()])
  }

  /**
   * The fish loop of `Board::from(&BoardJSON)` as written: it stores the
   * tier of count `num_fish` at index `num_fish` of a three-element array,
   * for `num_fish` in 1..=3.  Index 3 is out of bounds, so every call
   * panics (None) before a board is built.
   */
  method FishTiersAsWritten(fish: seq<nat>) returns (r: Option<seq<CellSet>>)
    requires FishDecodable(fish)
    ensures r == None
  {
    var tiers := new CellSet[3](_ => Empty());
    var numFish := 1;
    while numFish <= 3
      invariant 1 <= numFish <= 3
    {
      if numFish >= tiers.Length {
        return None;
      }
      tiers[numFish] := Tier(fish, numFish);
      numFish := numFish + 1;
    }
    assert false;
    r := None;
  }

  /** The fish loop with the evident intent: the tier of count `num_fish`
      goes to index `num_fish - 1`. */
  method FishTiers(fish: seq<nat>) returns (r: seq<CellSet>)
    requires FishDecodable(fish)
    ensures r == [Tier(fish, 1), Tier(fish, 2), Tier(fish, 3)]
  {
    var tiers := new CellSet[3](_ => Empty());
    for numFish := 1 to 4
      invariant forall t :: 0 <= t < numFish - 1 ==> tiers[t] == Tier(fish, t + 1)
    {
      tiers[numFish - 1] := Tier(fish, numFish);
    }
    r := tiers[..];
    SeqOfThree(r);
  }

  /** The penguin loop: for seats 0 and 1, insert every listed cell, if the
      seat has a list. */
  method SeatPenguins(lists: seq<seq<nat>>) returns (r: seq<CellSet>)
    requires Insertable(ListOrEmpty(lists, 0)) && Insertable(ListOrEmpty(lists, 1))
    ensures r == [Collect(ListOrEmpty(lists, 0)), Collect(ListOrEmpty(lists, 1))]
  {
    var penguins := new CellSet[2](_ => Empty());
    for player := 0 to 2
      invariant penguins[0] == if player > 0 then Collect(ListOrEmpty(lists, 0)) else Empty()
      invariant penguins[1] == if player > 1 then Collect(ListOrEmpty(lists, 1)) else Empty()
    {
      assert player == 0 || player == 1;
      if player < |lists| {
        penguins[player] := FromIter(lists[player]);
      }
    }
    r := penguins[..];
    SeqOfTwo(r);
  }

  /** The claim loop: seats 0 and 1 collect their lists, which must exist. */
  method SeatClaims(lists: seq<seq<nat>>) returns (r: seq<CellSet>)
    requires |lists| >= 2 && Insertable(lists[0]) && Insertable(lists[1])
    ensures r == [Collect(lists[0]), Collect(lists[1])]
  {
    var claimed := new CellSet[2](_ => Empty());
    for player := 0 to 2
      invariant player > 0 ==> claimed[0] == Collect(lists[0])
      invariant player > 1 ==> claimed[1] == Collect(lists[1])
    {
      assert player == 0 || player == 1;
      claimed[player] := FromIter(lists[player]);
    }
    r := claimed[..];
    SeqOfTwo(r);
  }

  /** `Board::from(&BoardJSON)` with the fish index corrected. */
  method DecodeBoard(j: BoardJson) returns (b: Board)
    requires Decodable(j)
    ensures b == BoardOf(j)
  {
    var fish := FishTiers(j.fish);
    var penguins := SeatPenguins(j.penguins);
    var claimed := SeatClaims(j.claimed);
    b := Board([penguins[0], penguins[1], Empty(), Empty()], fish, [claimed[0], claimed[1], Empty(), Empty()]);
  }

  /** `GameState::from(&GameStateJSON)`: the turn and the board come from the
      record, the seat count is the record's fixed two, and the scores are
      the record's. */
  function GameStateOf(j: GameStateJson): (r: Games.GameState)
    requires Decodable(j.board)
    ensures r.nplayers == NumPlayers && r.turn == j.turn && r.scores == j.scores
    ensures r.board == BoardOf(j.board)
  {
    Games.GameState(NumPlayers, j.scores, j.turn, BoardOf(j.board))
  }

  // ---------------------------------------------------------------------
  // Round trips

  /** A board set rebuilt from its own ascending list is the same set. */
  lemma CollectElements(s: CellSet)
    requires OnBoard(s)
    ensures Insertable(s.Elements())
    ensures Collect(s.Elements()) == s
  {
    ElementsSpec(s);
    Extensionality(Collect(s.Elements()), s);
  }

  /** An empty set is the empty set value. */
  lemma EmptyIsEmpty(s: CellSet)
    requires s.Members() == {}
    ensures s == Empty()
  {
    Extensionality(s, Empty());
  }

  /** Decoding the fish counts of a valid board gives back its tiers. */
  lemma {:induction false} TiersRoundTrip(b: Board, k: nat)
    requires Valid(b) && 1 <= k <= 3
    ensures FishDecodable(FishCounts(b))
    ensures Tier(FishCounts(b), k) == b.fish[k - 1]
  {
    var fish := FishCounts(b);
    var tier := Tier(fish, k);
    forall c ensures c in tier.Members() <==> c in b.fish[k - 1].Members() {
      if c in b.fish[k - 1].Members() {
        assert c < NumCells;
        NumFishTier(b, c, k - 1);
      }
    }
    Extensionality(tier, b.fish[k - 1]);
  }

  lemma SeqOfTwo<T>(s: seq<T>)
    requires |s| == 2
    ensures s == [s[0], s[1]]
  {
  }

  lemma SeqOfThree<T>(s: seq<T>)
    requires |s| == 3
    ensures s == [s[0], s[1], s[2]]
  {
  }

  lemma SeqOfFour<T>(s: seq<T>)
    requires |s| == 4
    ensures s == [s[0], s[1], s[2], s[3]]
  {
  }

  /** The three tiers decoded from a valid board's fish counts are its tiers. */
  lemma FishRoundTrip(b: Board)
    requires Valid(b)
    ensures FishDecodable(FishCounts(b))
    ensures [Tier(FishCounts(b), 1), Tier(FishCounts(b), 2), Tier(FishCounts(b), 3)] == b.fish
  {
    TiersRoundTrip(b, 1);
    TiersRoundTrip(b, 2);
    TiersRoundTrip(b, 3);
    SeqOfThree(b.fish);
  }

  /** The four seats listed and read back: seats 0 and 1 come back from
      their lists, and seats 2 and 3, which hold nothing, come back empty. */
  lemma SeatsRoundTrip(sets: seq<CellSet>)
    requires |sets| == 4 && OnBoard(sets[0]) && OnBoard(sets[1])
    requires sets[2].Members() == {} && sets[3].Members() == {}
    ensures Insertable(CellLists(sets)[0]) && Insertable(CellLists(sets)[1])
    ensures [Collect(CellLists(sets)[0]), Collect(CellLists(sets)[1]), Empty(), Empty()] == sets
  {
    var lists := CellLists(sets);
    assert lists[0] == sets[0].Elements() && lists[1] == sets[1].Elements();
    CollectElements(sets[0]);
    CollectElements(sets[1]);
    EmptyIsEmpty(sets[2]);
    EmptyIsEmpty(sets[3]);
    SeqOfFour(sets);
  }

  /** Board → BoardJSON → Board is the identity on a valid two-player board. */
  lemma {:induction false} BoardRoundTrip(b: Board)
    requires Valid(b) && Games.SeatsEmptyFrom(b, 2)
    ensures Decodable(BoardToJson(b))
    ensures BoardOf(BoardToJson(b)) == b
  {
    var j := BoardToJson(b);
    assert j == BoardJson(FishCounts(b), CellLists(b.penguins), CellLists(b.claimed), None);
    ValidPenguinsOnBoard(b, 0);
    ValidPenguinsOnBoard(b, 1);
    FishRoundTrip(b);
    SeatsRoundTrip(b.penguins);
    SeatsRoundTrip(b.claimed);
    assert ListOrEmpty(j.penguins, 0) == j.penguins[0] && ListOrEmpty(j.penguins, 1) == j.penguins[1];
    assert BoardOf(j) == Board([Collect(j.penguins[0]), Collect(j.penguins[1]), Empty(), Empty()],
                               [Tier(j.fish, 1), Tier(j.fish, 2), Tier(j.fish, 3)],
                               [Collect(j.claimed[0]), Collect(j.claimed[1]), Empty(), Empty()]);
  }

  /** GameState → GameStateJSON → GameState is the identity on every
      well-formed two-player state: at the start, after a placement, and
      at every later turn. */
  lemma {:induction false} GameStateRoundTrip(g: Games.GameState)
    requires Games.WellFormed(g) && g.nplayers == 2
    ensures Decodable(GameStateToJson(g).board)
    ensures GameStateOf(GameStateToJson(g)) == g
  {
    BoardRoundTrip(g.board);
  }

  /** The record of a fresh game decodes to the game at turn 0 with no
      scores on the same board. */
  lemma {:induction false} FreshGameRoundTrip(b: Board)
    requires Valid(b) && Games.SeatsEmptyFrom(b, 2)
    ensures Decodable(BoardToGameStateJson(b).board)
    ensures GameStateOf(BoardToGameStateJson(b)) == Games.GameState(2, [0, 0], 0, b)
  {
    BoardRoundTrip(b);
  }
}
