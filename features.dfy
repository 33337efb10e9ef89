/**
 * The input the neural-network bot feeds its models (bots/src/neuralnet.rs):
 * eight planes of one entry per board cell, each entry 0.0 or 1.0, written
 * into a zeroed buffer by one loop per plane.  The `f32` entries are modelled
 * as reals; only 0.0 and 1.0 ever occur, so nothing is rounded.
 */
module Features {
  import opened Constants
  import opened CellSets
  import opened Boards
  import Games

  /** `NUM_FEATURES`: 8 planes of `NUM_CELLS` entries. */
  const NumFeatures: nat := 8 * NumCells

  lemma PlaneSize()
    ensures NumCells == 60 && NumFeatures == 480
  {
  }

  /** Where cell c of plane k sits in the buffer. */
  function Slot(k: nat, c: nat): (r: nat)
    ensures k < 8 && c < NumCells ==> r < NumFeatures
  {
    PlaneSize();
    k * NumCells + c
  }

  /** Each entry of the buffer is the slot of exactly one plane and cell. */
  lemma SlotOf(j: nat)
    requires j < NumFeatures
    ensures j / NumCells < 8 && j % NumCells < NumCells && Slot(j / NumCells, j % NumCells) == j
  {
    PlaneSize();
  }

  /** Plane and cell can be read back from a slot. */
  lemma SlotParts(k: nat, c: nat)
    requires c < NumCells
    ensures Slot(k, c) / NumCells == k && Slot(k, c) % NumCells == c
  {
    PlaneSize();
  }

  lemma SlotInjective(k: nat, c: nat, k': nat, c': nat)
    requires c < NumCells && c' < NumCells && Slot(k, c) == Slot(k', c')
    ensures k == k' && c == c'
  {
    PlaneSize();
  }

  function Indicator(b: bool): real
  {
    if b then 1.0 else 0.0
  }

  /** What plane k holds for cell c, seen by player `me`: the three fish
      tiers, then `me`'s penguins, the opponent's penguins, `me`'s claimed
      cells, the opponent's claimed cells, and whether the draft is on. */
  function Feature(g: Games.GameState, me: nat, k: nat, c: nat): real
    requires Games.WellFormed(g) && me <= 1 && k < 8
  {
    var b := g.board;
    var opponent := 1 - me;
    if k < 3 then Indicator(c in b.fish[k].Members())
    else if k == 3 then Indicator(c in b.penguins[me].Members())
    else if k == 4 then Indicator(c in b.penguins[opponent].Members())
    else if k == 5 then Indicator(c in b.claimed[me].Members())
    else if k == 6 then Indicator(c in b.claimed[opponent].Members())
    else Indicator(!Games.FinishedDrafting(g))
  }

  /** The feature vector as a value. */
  function FeatureVector(g: Games.GameState, me: nat): (r: seq<real>)
    requires Games.WellFormed(g) && me <= 1
    ensures |r| == NumFeatures
  {
    seq(NumFeatures, j requires 0 <= j < NumFeatures => Feature(g, me, j / NumCells, j % NumCells))
  }

  /** Slot (k, c) of the vector holds cell c of plane k. */
  lemma FeatureAt(g: Games.GameState, me: nat, k: nat, c: nat)
    requires Games.WellFormed(g) && me <= 1 && k < 8 && c < NumCells
    ensures Slot(k, c) < NumFeatures && FeatureVector(g, me)[Slot(k, c)] == Feature(g, me, k, c)
  {
    SlotParts(k, c);
  }

  // ---------------------------------------------------------------------
  // What the planes say

  /** Every entry is 0.0 or 1.0. */
  lemma FeaturesBinary(g: Games.GameState, me: nat, j: nat)
    requires Games.WellFormed(g) && me <= 1 && j < NumFeatures
    ensures FeatureVector(g, me)[j] == 0.0 || FeatureVector(g, me)[j] == 1.0
  {
    SlotOf(j);
  }

  /** Plane k < 3 is set exactly on the cells with k + 1 fish. */
  lemma TierPlane(g: Games.GameState, me: nat, k: nat, c: nat)
    requires Games.WellFormed(g) && me <= 1 && k < 3 && c < NumCells
    ensures FeatureVector(g, me)[Slot(k, c)] == 1.0 <==> Boards.NumFish(g.board, c) == k + 1
  {
    FeatureAt(g, me, k, c);
    var b := g.board;
    assert HasFish(b, c);
    if c in b.fish[k].Members() {
      NumFishTier(b, c, k);
    }
  }

  /** Every penguin stands on a cell its owner claimed, so plane 3 lies
      inside plane 5 and plane 4 inside plane 6. */
  lemma PenguinsOnClaims(g: Games.GameState, me: nat, c: nat)
    requires Games.WellFormed(g) && me <= 1 && c < NumCells
    ensures FeatureVector(g, me)[Slot(3, c)] == 1.0 ==> FeatureVector(g, me)[Slot(5, c)] == 1.0
    ensures FeatureVector(g, me)[Slot(4, c)] == 1.0 ==> FeatureVector(g, me)[Slot(6, c)] == 1.0
  {
    FeatureAt(g, me, 3, c);
    FeatureAt(g, me, 4, c);
    FeatureAt(g, me, 5, c);
    FeatureAt(g, me, 6, c);
  }

  /** Seen by the other player, the two penguin planes trade places, and so
      do the two claim planes; the rest stays. */
  lemma PerspectiveSwap(g: Games.GameState, me: nat, c: nat)
    requires Games.WellFormed(g) && me <= 1 && c < NumCells
    ensures
      var mine := FeatureVector(g, me);
      var theirs := FeatureVector(g, 1 - me);
      mine[Slot(3, c)] == theirs[Slot(4, c)] && mine[Slot(4, c)] == theirs[Slot(3, c)] &&
      mine[Slot(5, c)] == theirs[Slot(6, c)] && mine[Slot(6, c)] == theirs[Slot(5, c)] &&
      forall k :: 0 <= k < 3 || k == 7 ==> mine[Slot(k, c)] == theirs[Slot(k, c)]
  {
    forall k | 0 <= k < 8
      ensures FeatureVector(g, me)[Slot(k, c)] == Feature(g, me, k, c)
      ensures FeatureVector(g, 1 - me)[Slot(k, c)] == Feature(g, 1 - me, k, c)
    {
      FeatureAt(g, me, k, c);
      FeatureAt(g, 1 - me, k, c);
    }
  }

  /** Plane 7 is all ones during the draft and all zeros after it. */
  lemma DraftPlane(g: Games.GameState, me: nat, c: nat)
    requires Games.WellFormed(g) && me <= 1 && c < NumCells
    ensures FeatureVector(g, me)[Slot(7, c)] == 1.0 <==> !Games.FinishedDrafting(g)
  {
    FeatureAt(g, me, 7, c);
  }

  // ---------------------------------------------------------------------
  // `extract_features`

  /** One of the loops over a cell set: sets cell c of `plane` for every c
      the list yields, and leaves every other entry as it was. */
  method MarkPlane(f: array<real>, plane: nat, cells: seq<nat>)
    requires f.Length == NumFeatures && plane < 8
    requires forall i :: 0 <= i < |cells| ==> cells[i] < NumCells
    modifies f
    ensures forall k, c :: 0 <= k < 8 && 0 <= c < NumCells ==>
      f[Slot(k, c)] == if k == plane && c in cells then 1.0 else old(f[Slot(k, c)])
  {
    for i := 0 to |cells|
      invariant forall k, c :: 0 <= k < 8 && 0 <= c < NumCells ==>
        f[Slot(k, c)] == if k == plane && c in cells[..i] then 1.0 else old(f[Slot(k, c)])
    {
      forall k, c | 0 <= k < 8 && 0 <= c < NumCells && Slot(k, c) == Slot(plane, cells[i])
        ensures k == plane && c == cells[i]
      {
        SlotInjective(k, c, plane, cells[i]);
      }
      f[Slot(plane, cells[i])] := 1.0;
      assert cells[..i + 1] == cells[..i] + [cells[i]];
    }
    assert cells[..|cells|] == cells;
  }

  /** One `if` of the first loop: cell `cell` of plane k < 3 is set when
      the cell lies in fish tier k. */
  method MarkTierCell(f: array<real>, b: Board, k: nat, cell: nat)
    requires f.Length == NumFeatures && Shaped(b) && k < 3 && cell < NumCells
    modifies f
    ensures forall k', c :: 0 <= k' < 8 && 0 <= c < NumCells ==>
      f[Slot(k', c)] == if k' == k && c == cell && cell in b.fish[k].Members() then 1.0 else old(f[Slot(k', c)])
  {
    if b.fish[k].Contains(cell) {
      forall k', c | 0 <= k' < 8 && 0 <= c < NumCells && Slot(k', c) == Slot(k, cell)
        ensures k' == k && c == cell
      {
        SlotInjective(k', c, k, cell);
      }
      f[Slot(k, cell)] := 1.0;
    }
  }

  /** The first loop: the three fish tiers, cell by cell. */
  method MarkTiers(f: array<real>, b: Board)
    requires f.Length == NumFeatures && Shaped(b)
    requires forall k, c :: 0 <= k < 8 && 0 <= c < NumCells ==> f[Slot(k, c)] == 0.0
    modifies f
    ensures forall k, c :: 0 <= k < 8 && 0 <= c < NumCells ==>
      f[Slot(k, c)] == if k < 3 then Indicator(c in b.fish[k].Members()) else 0.0
  {
    for cell := 0 to NumCells
      invariant forall k, c :: 0 <= k < 8 && 0 <= c < NumCells ==>
        f[Slot(k, c)] == if k < 3 && c < cell then Indicator(c in b.fish[k].Members()) else 0.0
    {
      MarkTierCell(f, b, 0, cell);
      MarkTierCell(f, b, 1, cell);
      MarkTierCell(f, b, 2, cell);
    }
  }

  /** `extract_features`: a zeroed buffer of `NUM_FEATURES` entries, the
      fish tiers, the penguins and claimed cells of `me` and of the
      opponent `1 - me`, and plane 7 filled during the draft.  `me` above 1
      would underflow `1 - me`. */
  method ExtractFeatures(g: Games.GameState, me: nat) returns (f: array<real>)
    requires Games.WellFormed(g) && me <= 1
    ensures fresh(f) && f[..] == FeatureVector(g, me)
  {
    var b := g.board;
    var opponent := 1 - me;
    var isDrafting := !Games.FinishedDrafting(g);
    f := new real[NumFeatures](_ => 0.0);
    MarkTiers(f, b);
    ValidPenguinsOnBoard(b, me);
    ValidPenguinsOnBoard(b, opponent);
    MarkCells(f, 3, b.penguins[me]);
    MarkCells(f, 4, b.penguins[opponent]);
    MarkCells(f, 5, b.claimed[me]);
    MarkCells(f, 6, b.claimed[opponent]);
    if isDrafting {
      MarkAll(f, 7);
    }
    forall j | 0 <= j < NumFeatures ensures f[j] == FeatureVector(g, me)[j] {
      SlotOf(j);
    }
  }

  /** The last loop: every cell of `plane`. */
  method MarkAll(f: array<real>, plane: nat)
    requires f.Length == NumFeatures && plane < 8
    modifies f
    ensures forall k, c :: 0 <= k < 8 && 0 <= c < NumCells ==>
      f[Slot(k, c)] == if k == plane then 1.0 else old(f[Slot(k, c)])
  {
    for i := 0 to NumCells
      invariant forall k, c :: 0 <= k < 8 && 0 <= c < NumCells ==>
        f[Slot(k, c)] == if k == plane && c < i then 1.0 else old(f[Slot(k, c)])
    {
      forall k, c | 0 <= k < 8 && 0 <= c < NumCells && Slot(k, c) == Slot(plane, i)
        ensures k == plane && c == i
      {
        SlotInjective(k, c, plane, i);
      }
      f[Slot(plane, i)] := 1.0;
    }
  }

  /** A loop over the members of a cell set on the board. */
  method MarkCells(f: array<real>, plane: nat, s: CellSet)
    requires f.Length == NumFeatures && plane < 8 && OnBoard(s)
    modifies f
    ensures forall k, c :: 0 <= k < 8 && 0 <= c < NumCells ==>
      f[Slot(k, c)] == if k == plane && c in s.Members() then 1.0 else old(f[Slot(k, c)])
  {
    var cells := s.Elements();
    ElementsAreCells(s);
    ElementsSpec(s);
    MarkPlane(f, plane, cells);
  }
}
