/**
 * Icebergs: the connected components of the unclaimed cells
 * (engine/src/board.rs:371-405).  `component` flood-fills from a cell with
 * a stack that may hold duplicates; `connected_components` repeatedly
 * fills from the first unclaimed cell not yet covered.
 *
 * The specification of a flood fill is `Grow`, stated over any adjacency
 * list on the 60 cells and any set of cells that may be entered: the least
 * set holding the start and every enterable neighbour of each of its
 * members.  `Adjacency()` and `Unclaimed(b)` are the board's instances.
 */
module Components {
  import opened Wrappers
  import opened Constants
  import opened CellSets
  import opened BoardGeometry
  import opened Boards

  // ---------------------------------------------------------------------
  // Flood fill over an adjacency list

  /** `adj[x]` lists the neighbours of cell x, all of them board cells. */
  predicate IsGraph(adj: seq<seq<nat>>)
  {
    |adj| == NumCells && forall x, k :: 0 <= x < NumCells && 0 <= k < |adj[x]| ==> adj[x][k] < NumCells
  }

  /** Adjacency goes both ways. */
  predicate Undirected(adj: seq<seq<nat>>)
    requires IsGraph(adj)
  {
    forall x, y :: 0 <= x < NumCells && 0 <= y < NumCells && y in adj[x] ==> x in adj[y]
  }

  /** Every member is a board cell. */
  predicate InRange(s: set<nat>)
  {
    forall x :: x in s ==> x < NumCells
  }

  /** The set holds every enterable neighbour of each of its members. */
  predicate Closed(adj: seq<seq<nat>>, live: set<nat>, s: set<nat>)
  {
    forall x, y :: x in s && x < |adj| && y in adj[x] && y in live ==> y in s
  }

  /** One flood step: add the enterable neighbours of the members. */
  function Expand(adj: seq<seq<nat>>, live: set<nat>, s: set<nat>): (r: set<nat>)
    requires IsGraph(adj) && InRange(s)
    ensures s <= r && InRange(r)
  {
    s + set x, y | x in s && y in adj[x] && y in live :: y
  }

  /** The number of cells below n outside a set. */
  function CountOut(s: set<nat>, n: nat): nat
  {
    if n == 0 then 0 else CountOut(s, n - 1) + (if n - 1 in s then 0 else 1)
  }

  lemma {:induction false} CountOutSubset(s: set<nat>, t: set<nat>, n: nat)
    requires s <= t
    ensures CountOut(t, n) <= CountOut(s, n)
  {
    if n > 0 {
      CountOutSubset(s, t, n - 1);
    }
  }

  lemma {:induction false} CountOutStrict(s: set<nat>, t: set<nat>, n: nat, x: nat)
    requires s <= t && x in t && x !in s && x < n
    ensures CountOut(t, n) < CountOut(s, n)
  {
    if x < n - 1 {
      CountOutStrict(s, t, n - 1, x);
    } else {
      CountOutSubset(s, t, n - 1);
    }
  }

  /** Growing a set of board cells lowers the count of cells outside it. */
  lemma GrowthCounts(s: set<nat>, t: set<nat>)
    requires s < t && InRange(t)
    ensures CountOut(t, NumCells) < CountOut(s, NumCells)
  {
    var x :| x in t && x !in s;
    CountOutStrict(s, t, NumCells, x);
  }

  /** Flood steps until nothing changes. */
  function Grow(adj: seq<seq<nat>>, live: set<nat>, s: set<nat>): (r: set<nat>)
    requires IsGraph(adj) && InRange(s)
    ensures s <= r && InRange(r)
    decreases CountOut(s, NumCells)
  {
    var e := Expand(adj, live, s);
    if e == s then s
    else
      GrowthCounts(s, e);
      Grow(adj, live, e)
  }

  /** What a flood fill reaches is closed... */
  lemma {:induction false} GrowClosed(adj: seq<seq<nat>>, live: set<nat>, s: set<nat>)
    requires IsGraph(adj) && InRange(s)
    ensures Closed(adj, live, Grow(adj, live, s))
    decreases CountOut(s, NumCells)
  {
    var e := Expand(adj, live, s);
    if e == s {
      forall x, y | x in s && x < |adj| && y in adj[x] && y in live
        ensures y in s
      {
        assert y in e;
      }
    } else {
      GrowthCounts(s, e);
      GrowClosed(adj, live, e);
    }
  }

  /** ... and lies inside every closed set containing where it started. */
  lemma {:induction false} GrowLeast(adj: seq<seq<nat>>, live: set<nat>, s: set<nat>, t: set<nat>)
    requires IsGraph(adj) && InRange(s) && s <= t && Closed(adj, live, t)
    ensures Grow(adj, live, s) <= t
    decreases CountOut(s, NumCells)
  {
    var e := Expand(adj, live, s);
    if e != s {
      GrowthCounts(s, e);
      GrowLeast(adj, live, e, t);
    }
  }

  /** Flooding from enterable cells reaches enterable cells only. */
  lemma {:induction false} GrowLive(adj: seq<seq<nat>>, live: set<nat>, s: set<nat>)
    requires IsGraph(adj) && InRange(s) && s <= live
    ensures Grow(adj, live, s) <= live
    decreases CountOut(s, NumCells)
  {
    var e := Expand(adj, live, s);
    if e != s {
      GrowthCounts(s, e);
      GrowLive(adj, live, e);
    }
  }

  /** One instance of `Undirected`. */
  lemma UndirectedAt(adj: seq<seq<nat>>, x: nat, y: nat)
    requires IsGraph(adj) && Undirected(adj) && x < NumCells && y in adj[x]
    ensures y < NumCells && x in adj[y]
  {
  }

  /** With adjacency both ways, a flood from a cell outside a closed set of
      enterable cells never enters that set. */
  lemma GrowAvoidsClosed(adj: seq<seq<nat>>, live: set<nat>, m: set<nat>, i: nat)
    requires IsGraph(adj) && Undirected(adj)
    requires InRange(m) && m <= live && Closed(adj, live, m)
    requires i < NumCells && i in live && i !in m
    ensures Grow(adj, live, {i}) !! m
  {
    var g := Grow(adj, live, {i});
    GrowLive(adj, live, {i});
    GrowClosed(adj, live, {i});
    var d := g - m;
    forall x, y | x in d && x < |adj| && y in adj[x] && y in live
      ensures y in d
    {
      assert y in g;
      UndirectedAt(adj, x, y);
    }
    GrowLeast(adj, live, {i}, d);
  }

  /** A flood fill is the same from any cell it reaches. */
  lemma GrowFromMember(adj: seq<seq<nat>>, live: set<nat>, i: nat, x: nat)
    requires IsGraph(adj) && Undirected(adj)
    requires i < NumCells && i in live && x in Grow(adj, live, {i})
    ensures Grow(adj, live, {x}) == Grow(adj, live, {i})
  {
    var c := Grow(adj, live, {i});
    GrowClosed(adj, live, {i});
    GrowLive(adj, live, {i});
    GrowLeast(adj, live, {x}, c);
    var g := Grow(adj, live, {x});
    GrowClosed(adj, live, {x});
    // The part of `c` the fill from x misses is closed as well, so it
    // cannot hold i; hence i, and with it all of `c`, is reached from x.
    var d := c - g;
    forall u, y | u in d && u < |adj| && y in adj[u] && y in live
      ensures y in d
    {
      assert y in c;
      UndirectedAt(adj, u, y);
    }
    if i !in g {
      GrowLeast(adj, live, {i}, d);
    }
    GrowLeast(adj, live, {i}, g);
  }

  // ---------------------------------------------------------------------
  // Successive components

  /** The first cell at or after i that is enterable and not yet covered. */
  function FirstIn(live: set<nat>, marked: set<nat>, i: nat): (r: Option<nat>)
    ensures r.Some? ==> i <= r.value < NumCells && r.value in live && r.value !in marked
    ensures r.None? ==> forall x :: i <= x < NumCells && x in live ==> x in marked
    decreases NumCells - i
  {
    if i >= NumCells then None
    else if i in live && i !in marked then Some(i)
    else FirstIn(live, marked, i + 1)
  }

  /** The components not yet covered by `marked`, in order of their first cell. */
  function ComponentsFrom(adj: seq<seq<nat>>, live: set<nat>, marked: set<nat>): seq<set<nat>>
    requires IsGraph(adj) && InRange(marked)
    decreases CountOut(marked, NumCells)
  {
    match FirstIn(live, marked, 0)
    case None => []
    case Some(idx) =>
      var c := Grow(adj, live, {idx});
      GrowthCounts(marked, marked + c);
      [c] + ComponentsFrom(adj, live, marked + c)
  }

  /** The union of a list of sets. */
  function UnionAll(cs: seq<set<nat>>): set<nat>
  {
    if cs == [] then {} else cs[0] + UnionAll(cs[1..])
  }

  /** The members of `s` below n. */
  function Upto(s: set<nat>, n: nat): set<nat>
  {
    set x | x in s && x < n
  }

  /** A component still to come: disjoint from what is covered, non-empty,
      closed, and the flood from one of its cells. */
  ghost predicate Uncovered(adj: seq<seq<nat>>, live: set<nat>, m: set<nat>, s: set<nat>)
    requires IsGraph(adj)
  {
    s !! m && s != {} && s <= live && Closed(adj, live, s) &&
    exists i :: i < NumCells && i in live && s == Grow(adj, live, {i})
  }

  /** Pairwise disjoint sets. */
  predicate Disjoint(cs: seq<set<nat>>)
  {
    forall k, l :: 0 <= k < l < |cs| ==> cs[k] !! cs[l]
  }

  /** Putting a component in front of those that avoid it keeps the list
      uncovered and pairwise disjoint. */
  lemma ConsComponent(adj: seq<seq<nat>>, live: set<nat>, m: set<nat>, c: set<nat>, rest: seq<set<nat>>)
    requires IsGraph(adj) && Uncovered(adj, live, m, c)
    requires forall k :: 0 <= k < |rest| ==> Uncovered(adj, live, m + c, rest[k])
    requires Disjoint(rest)
    ensures forall k :: 0 <= k < |[c] + rest| ==> Uncovered(adj, live, m, ([c] + rest)[k])
    ensures Disjoint([c] + rest)
  {
    var cs := [c] + rest;
    forall k | 0 <= k < |cs|
      ensures Uncovered(adj, live, m, cs[k])
    {
      if k > 0 {
        assert cs[k] == rest[k - 1];
        assert Uncovered(adj, live, m + c, rest[k - 1]);
      }
    }
    forall k, l | 0 <= k < l < |cs|
      ensures cs[k] !! cs[l]
    {
      assert cs[l] == rest[l - 1];
      assert Uncovered(adj, live, m + c, rest[l - 1]);
      if k > 0 {
        assert cs[k] == rest[k - 1];
      }
    }
  }

  /** The components still to come are pairwise disjoint, disjoint from what
      is covered, non-empty, closed, and are floods from one of their cells;
      with what is covered they hold every enterable board cell. */
  lemma {:induction false} ComponentsFromSpec(adj: seq<seq<nat>>, live: set<nat>, m: set<nat>)
    requires IsGraph(adj) && Undirected(adj)
    requires InRange(m) && m <= live && Closed(adj, live, m)
    ensures forall k :: 0 <= k < |ComponentsFrom(adj, live, m)| ==>
      Uncovered(adj, live, m, ComponentsFrom(adj, live, m)[k])
    ensures Disjoint(ComponentsFrom(adj, live, m))
    ensures m + UnionAll(ComponentsFrom(adj, live, m)) == Upto(live, NumCells)
    decreases CountOut(m, NumCells)
  {
    match FirstIn(live, m, 0)
    case None =>
      assert forall x :: x in Upto(live, NumCells) ==> x in m;
    case Some(idx) =>
      var c := Grow(adj, live, {idx});
      GrowthCounts(m, m + c);
      GrowAvoidsClosed(adj, live, m, idx);
      GrowLive(adj, live, {idx});
      GrowClosed(adj, live, {idx});
      var m' := m + c;
      assert Closed(adj, live, m');
      ComponentsFromSpec(adj, live, m');
      var rest := ComponentsFrom(adj, live, m');
      var cs := ComponentsFrom(adj, live, m);
      assert cs == [c] + rest;
      assert UnionAll(cs) == c + UnionAll(rest) by {
        assert cs[1..] == rest;
      }
      assert idx in c;
      ConsComponent(adj, live, m, c, rest);
  }

  // ---------------------------------------------------------------------
  // The board's graph

  /** `adj` lists `Board::neighbors` for every cell.  The trigger keeps the
      geometry behind a neighbour list out of sight until a proof names
      `Board::neighbors` of a particular cell. */
  predicate BoardAdjacency(adj: seq<seq<nat>>)
  {
    |adj| == NumCells &&
    forall x {:trigger BoardGeometry.Neighbors(x)} :: 0 <= x < NumCells ==> adj[x] == BoardGeometry.Neighbors(x)
  }

  /** The board's adjacency lists. */
  ghost function Adjacency(): (r: seq<seq<nat>>)
    ensures BoardAdjacency(r)
  {
    var table := seq(NumCells, i requires 0 <= i < NumCells => BoardGeometry.Neighbors(i));
    assert BoardAdjacency(table);
    var adj :| BoardAdjacency(adj);
    adj
  }

  /** The board's adjacency lists are a graph whose adjacency goes both ways. */
  lemma AdjacencyFacts()
    ensures IsGraph(Adjacency()) && Undirected(Adjacency())
  {
    var adj := Adjacency();
    forall x, k | 0 <= x < NumCells && 0 <= k < |adj[x]|
      ensures adj[x][k] < NumCells
    {
      assert adj[x] == BoardGeometry.Neighbors(x);
    }
    forall x, y | 0 <= x < NumCells && 0 <= y < NumCells && y in adj[x]
      ensures x in adj[y]
    {
      assert adj[x] == BoardGeometry.Neighbors(x);
      assert adj[y] == BoardGeometry.Neighbors(y);
      NeighborsSymmetric(x, y);
    }
  }

  /** `s` holds exactly the unclaimed board cells.  As with `BoardAdjacency`,
      the trigger keeps `is_claimed` out of sight until a proof asks about a
      particular cell. */
  predicate IsUnclaimedSet(b: Board, s: set<nat>)
    requires Shaped(b)
  {
    InRange(s) && forall x: nat {:trigger IsClaimed(b, x)} :: x < NumCells ==> (x in s <==> !IsClaimed(b, x))
  }

  /** The unclaimed board cells. */
  ghost function Unclaimed(b: Board): (r: set<nat>)
    requires Shaped(b)
    ensures IsUnclaimedSet(b, r)
  {
    var cells := set x: nat | x < NumCells && !IsClaimed(b, x);
    assert IsUnclaimedSet(b, cells);
    var r :| IsUnclaimedSet(b, r);
    r
  }

  /** The unclaimed cells flood-filled from `start`: an iceberg. */
  ghost function Iceberg(b: Board, start: nat): set<nat>
    requires Shaped(b) && start < NumCells
  {
    AdjacencyFacts();
    Grow(Adjacency(), Unclaimed(b), {start})
  }

  /** What `connected_components` returns, as member sets in order. */
  ghost function Icebergs(b: Board): seq<set<nat>>
    requires Shaped(b)
  {
    AdjacencyFacts();
    ComponentsFrom(Adjacency(), Unclaimed(b), {})
  }

  /** Two sets that both hold exactly the unclaimed cells are equal. */
  lemma UnclaimedUnique(b: Board, s: set<nat>)
    requires Shaped(b) && IsUnclaimedSet(b, s)
    ensures s == Unclaimed(b)
  {
    var u := Unclaimed(b);
    forall x | x in s ensures x in u { assert !IsClaimed(b, x); }
    forall x | x in u ensures x in s { assert !IsClaimed(b, x); }
  }

  /** A table listing every cell's neighbours is the adjacency. */
  lemma AdjacencyUnique(table: seq<seq<nat>>)
    requires BoardAdjacency(table)
    ensures table == Adjacency()
  {
    var adj := Adjacency();
    forall x | 0 <= x < NumCells ensures table[x] == adj[x]
    {
      assert table[x] == BoardGeometry.Neighbors(x);
    }
  }

  /** `Icebergs` computed: the same flood fill over the neighbour table and
      the unclaimed cells, spelled out. */
  function IcebergList(b: Board): (r: seq<set<nat>>)
    requires Shaped(b)
    ensures r == Icebergs(b)
  {
    var table := seq(NumCells, i requires 0 <= i < NumCells => BoardGeometry.Neighbors(i));
    var live := set x: nat | x < NumCells && !IsClaimed(b, x);
    assert BoardAdjacency(table);
    assert IsUnclaimedSet(b, live);
    AdjacencyUnique(table);
    UnclaimedUnique(b, live);
    AdjacencyFacts();
    ComponentsFrom(table, live, {})
  }

  // ---------------------------------------------------------------------
  // `component`

  /** The neighbours `component` pushes: unclaimed and not yet marked. */
  function NewMembers(b: Board, cells: seq<nat>, marked: CellSet): (r: seq<nat>)
    requires Shaped(b)
    ensures forall y :: y in r <==> y in cells && !IsClaimed(b, y) && y !in marked.Members()
  {
    if cells == [] then []
    else
      var rest := NewMembers(b, cells[1..], marked);
      assert forall y :: y in cells <==> y == cells[0] || y in cells[1..];
      if !IsClaimed(b, cells[0]) && !(cells[0] < 64 && marked.Contains(cells[0])) then [cells[0]] + rest else rest
  }

  /** The cells `component` pushes after popping `idx`, in graph terms. */
  lemma NewNeighbors(b: Board, idx: nat, marked: CellSet)
    requires Shaped(b) && idx < NumCells
    ensures forall y :: y in NewMembers(b, BoardGeometry.Neighbors(idx), marked) <==>
      y in Adjacency()[idx] && y in Unclaimed(b) && y !in marked.Members()
  {
    assert Adjacency()[idx] == BoardGeometry.Neighbors(idx);
  }

  /** How many entries of the stack are already marked. */
  function MarkedEntries(queue: seq<nat>, s: set<nat>): nat
  {
    if queue == [] then 0
    else MarkedEntries(queue[..|queue| - 1], s) + (if queue[|queue| - 1] in s then 1 else 0)
  }

  lemma {:induction false} MarkedEntriesAppend(a: seq<nat>, c: seq<nat>, s: set<nat>)
    requires forall y :: y in c ==> y !in s
    ensures MarkedEntries(a + c, s) == MarkedEntries(a, s)
  {
    if c != [] {
      var c' := c[..|c| - 1];
      assert (a + c)[..|a + c| - 1] == a + c';
      MarkedEntriesAppend(a, c', s);
    } else {
      assert a + c == a;
    }
  }

  /** What `component` keeps: every marked or stacked cell lies in the fill
      `g`, the start is marked or stacked, and every enterable neighbour of a
      marked cell is marked or stacked. */
  predicate StackInv(adj: seq<seq<nat>>, live: set<nat>, g: set<nat>, start: nat, seen: set<nat>, queue: seq<nat>)
  {
    seen <= g && (forall j :: 0 <= j < |queue| ==> queue[j] in g) && (start in seen || start in queue) &&
    forall x, y :: x in seen && x < |adj| && y in adj[x] && y in live ==> y in seen || y in queue
  }

  /** One pop of `component` keeps `StackInv` and lowers the measure: a new
      cell is marked, or a marked entry is dropped and only unmarked ones pushed. */
  lemma StackStep(adj: seq<seq<nat>>, live: set<nat>, g: set<nat>, start: nat, seen: set<nat>, queue: seq<nat>, pushed: seq<nat>)
    requires IsGraph(adj) && InRange(g) && Closed(adj, live, g)
    requires StackInv(adj, live, g, start, seen, queue) && queue != []
    requires forall y :: y in pushed <==>
      y in adj[queue[|queue| - 1]] && y in live && y !in seen + {queue[|queue| - 1]}
    ensures StackInv(adj, live, g, start, seen + {queue[|queue| - 1]}, queue[..|queue| - 1] + pushed)
    ensures CountOut(seen + {queue[|queue| - 1]}, NumCells) < CountOut(seen, NumCells) ||
      (CountOut(seen + {queue[|queue| - 1]}, NumCells) == CountOut(seen, NumCells) &&
       MarkedEntries(queue[..|queue| - 1] + pushed, seen + {queue[|queue| - 1]}) < MarkedEntries(queue, seen))
  {
    var idx := queue[|queue| - 1];
    var rest := queue[..|queue| - 1];
    var seen' := seen + {idx};
    var queue' := rest + pushed;
    assert forall y :: y in queue <==> y == idx || y in rest;
    assert forall y :: y in queue' <==> y in rest || y in pushed;
    forall j | 0 <= j < |queue'|
      ensures queue'[j] in g
    {
      if j >= |rest| {
        assert queue'[j] in pushed;
      }
    }
    if idx in seen {
      MarkedEntriesAppend(rest, pushed, seen);
      assert seen' == seen;
    } else {
      GrowthCounts(seen, seen');
    }
  }

  /**
   * `Board::component`: pop a cell, mark it, push its unclaimed unmarked
   * neighbours.  The stack may hold a cell several times; every pop either
   * marks a new cell or removes a marked entry and pushes only unmarked
   * ones, which is the termination measure.
   */
  method Component(b: Board, start: nat) returns (marked: CellSet)
    requires Shaped(b) && start < NumCells
    ensures marked.Members() == Iceberg(b, start)
  {
    ghost var adj := Adjacency();
    ghost var live := Unclaimed(b);
    AdjacencyFacts();
    ghost var g := Grow(adj, live, {start});
    GrowClosed(adj, live, {start});
    marked := Empty();
    ghost var seen: set<nat> := {};
    var queue := [start];
    while queue != []
      invariant seen == marked.Members() && StackInv(adj, live, g, start, seen, queue)
      decreases CountOut(seen, NumCells), MarkedEntries(queue, seen)
    {
      var idx := queue[|queue| - 1];
      marked := marked.Insert(idx);
      var pushed := NewMembers(b, BoardGeometry.Neighbors(idx), marked);
      NewNeighbors(b, idx, marked);
      StackStep(adj, live, g, start, seen, queue, pushed);
      seen := seen + {idx};
      queue := queue[..|queue| - 1] + pushed;
    }
    GrowLeast(adj, live, {start}, seen);
  }

  // ---------------------------------------------------------------------
  // `connected_components`

  /** `(0..NUM_CELLS).filter(|&idx| !self.is_claimed(idx)).count()`, over the first n cells. */
  function CountUnclaimed(b: Board, n: nat): nat
    requires Shaped(b)
  {
    if n == 0 then 0 else CountUnclaimed(b, n - 1) + (if IsClaimed(b, n - 1) then 0 else 1)
  }

  /** The number of members of `s` below n. */
  function CountIn(s: set<nat>, n: nat): nat
  {
    if n == 0 then 0 else CountIn(s, n - 1) + (if n - 1 in s then 1 else 0)
  }

  /** Counting the members below n one cell at a time gives the size of
      that part of the set. */
  lemma {:induction false} CountInSize(s: set<nat>, n: nat)
    ensures CountIn(s, n) == |Upto(s, n)|
  {
    if n > 0 {
      CountInSize(s, n - 1);
      var p := Upto(s, n - 1);
      assert n - 1 !in p;
      if n - 1 in s {
        assert Upto(s, n) == p + {n - 1};
      } else {
        assert Upto(s, n) == p;
      }
    }
  }

  /** The count is the number of unclaimed cells below n. */
  lemma {:induction false} CountUnclaimedSize(b: Board, n: nat)
    requires Shaped(b) && n <= NumCells
    ensures CountUnclaimed(b, n) == |Upto(Unclaimed(b), n)|
  {
    CountUnclaimedIn(b, n);
    CountInSize(Unclaimed(b), n);
  }

  lemma {:induction false} CountUnclaimedIn(b: Board, n: nat)
    requires Shaped(b) && n <= NumCells
    ensures CountUnclaimed(b, n) == CountIn(Unclaimed(b), n)
  {
    if n > 0 {
      CountUnclaimedIn(b, n - 1);
      assert n - 1 in Unclaimed(b) <==> !IsClaimed(b, n - 1);
    }
  }

  /** The first unclaimed unmarked cell at or after i (`filter(..).nth(0)`). */
  function FirstFree(b: Board, marked: CellSet, i: nat): (r: Option<nat>)
    requires Shaped(b)
    ensures r == FirstIn(Unclaimed(b), marked.Members(), i)
    decreases NumCells - i
  {
    if i >= NumCells then None
    else if !marked.Contains(i) && !IsClaimed(b, i) then Some(i)
    else FirstFree(b, marked, i + 1)
  }

  lemma SubsetCard(s: set<nat>, u: set<nat>)
    requires s <= u
    ensures |s| <= |u|
  {
    assert u == s + (u - s);
  }

  /** A subset at least as large as its superset is all of it. */
  lemma FullSubset(s: set<nat>, u: set<nat>)
    requires s <= u && |s| >= |u|
    ensures s == u
  {
    var d := u - s;
    assert u == d + s;
    assert d * s == {};
  }

  /** One round of `connected_components` on sets: the next component comes
      off the front of the list of those still to come, and the covered set
      stays closed and grows. */
  lemma ComponentsStep(adj: seq<seq<nat>>, live: set<nat>, m: set<nat>, idx: nat)
    requires IsGraph(adj) && InRange(m) && m <= live && Closed(adj, live, m)
    requires FirstIn(live, m, 0) == Some(idx)
    ensures ComponentsFrom(adj, live, m) == [Grow(adj, live, {idx})] + ComponentsFrom(adj, live, m + Grow(adj, live, {idx}))
    ensures m + Grow(adj, live, {idx}) <= live && Closed(adj, live, m + Grow(adj, live, {idx}))
    ensures CountOut(m + Grow(adj, live, {idx}), NumCells) < CountOut(m, NumCells)
  {
    var c := Grow(adj, live, {idx});
    GrowClosed(adj, live, {idx});
    GrowLive(adj, live, {idx});
    GrowthCounts(m, m + c);
  }

  /** What `connected_components` keeps: the covered cells are unclaimed and
      closed, and the components found so far followed by those still to
      come are all the icebergs. */
  ghost predicate RoundInv(b: Board, components: seq<CellSet>, covered: set<nat>)
    requires Shaped(b)
  {
    AdjacencyFacts();
    InRange(covered) && covered <= Unclaimed(b) && Closed(Adjacency(), Unclaimed(b), covered) &&
    Icebergs(b) == MembersOf(components) + ComponentsFrom(Adjacency(), Unclaimed(b), covered)
  }

  lemma RoundStart(b: Board)
    requires Shaped(b)
    ensures RoundInv(b, [], {})
  {
    assert MembersOf([]) + Icebergs(b) == Icebergs(b);
  }

  /** A round floods from the first uncovered unclaimed cell, adds the fill
      to the list, and covers it. */
  lemma RoundStep(b: Board, components: seq<CellSet>, covered: set<nat>, idx: nat, c: CellSet)
    requires Shaped(b) && RoundInv(b, components, covered)
    requires FirstIn(Unclaimed(b), covered, 0) == Some(idx)
    requires c.Members() == Iceberg(b, idx)
    ensures OnBoard(c)
    ensures RoundInv(b, components + [c], covered + c.Members())
    ensures CountOut(covered + c.Members(), NumCells) < CountOut(covered, NumCells)
  {
    AdjacencyFacts();
    var adj, live := Adjacency(), Unclaimed(b);
    var g := Grow(adj, live, {idx});
    assert c.Members() == g;
    assert InRange(g);
    var ms := MembersOf(components);
    assert MembersOf(components + [c]) == ms + [g];
    ConsStep(Icebergs(b), ms, adj, live, covered, idx);
  }

  /** `RoundStep` on the list alone. */
  lemma ConsStep(all: seq<set<nat>>, ms: seq<set<nat>>, adj: seq<seq<nat>>, live: set<nat>, covered: set<nat>, idx: nat)
    requires IsGraph(adj) && InRange(covered) && covered <= live && Closed(adj, live, covered)
    requires FirstIn(live, covered, 0) == Some(idx)
    requires all == ms + ComponentsFrom(adj, live, covered)
    ensures all == (ms + [Grow(adj, live, {idx})]) + ComponentsFrom(adj, live, covered + Grow(adj, live, {idx}))
    ensures covered + Grow(adj, live, {idx}) <= live && Closed(adj, live, covered + Grow(adj, live, {idx}))
    ensures CountOut(covered + Grow(adj, live, {idx}), NumCells) < CountOut(covered, NumCells)
  {
    ComponentsStep(adj, live, covered, idx);
  }

  /** Once nothing unclaimed is left uncovered, the list is complete: it
      happens exactly when as many cells are covered as are unclaimed. */
  lemma RoundDone(b: Board, components: seq<CellSet>, covered: set<nat>)
    requires Shaped(b) && RoundInv(b, components, covered)
    ensures FirstIn(Unclaimed(b), covered, 0).None? <==> |covered| >= |Unclaimed(b)|
    ensures |covered| >= |Unclaimed(b)| ==> MembersOf(components) == Icebergs(b)
  {
    if |covered| >= |Unclaimed(b)| {
      FullSubset(covered, Unclaimed(b));
      assert FirstIn(Unclaimed(b), covered, 0).None?;
      assert MembersOf(components) + [] == MembersOf(components);
    }
    if FirstIn(Unclaimed(b), covered, 0).None? {
      assert Unclaimed(b) <= covered;
      SubsetCard(Unclaimed(b), covered);
    }
  }

  /** The count `connected_components` starts from is the number of unclaimed cells. */
  lemma UnclaimedCount(b: Board)
    requires Shaped(b)
    ensures CountUnclaimed(b, NumCells) == |Unclaimed(b)|
  {
    CountUnclaimedSize(b, NumCells);
    assert Upto(Unclaimed(b), NumCells) == Unclaimed(b);
  }

  /**
   * `Board::connected_components`: while fewer cells are marked than are
   * unclaimed, flood from the first unclaimed unmarked cell and mark the
   * result.
   */
  method ConnectedComponents(b: Board) returns (components: seq<CellSet>)
    requires Shaped(b)
    ensures MembersOf(components) == Icebergs(b)
  {
    var numUnclaimed := CountUnclaimed(b, NumCells);
    UnclaimedCount(b);
    var marked := Empty();
    components := [];
    RoundStart(b);
    while marked.Len() < numUnclaimed
      invariant RoundInv(b, components, marked.Members())
      decreases CountOut(marked.Members(), NumCells)
    {
      var next := FirstFree(b, marked, 0);
      RoundDone(b, components, marked.Members());
      var idx := next.value;
      var c := Component(b, idx);
      RoundStep(b, components, marked.Members(), idx, c);
      marked := InsertAll(marked, c);
      components := components + [c];
    }
    RoundDone(b, components, marked.Members());
  }

  /** `for x in new_component.iter() { marked.insert(x); }` */
  method InsertAll(marked: CellSet, c: CellSet) returns (r: CellSet)
    requires OnBoard(c)
    ensures r.Members() == marked.Members() + c.Members()
  {
    var xs := c.Elements();
    ElementsSpec(c);
    r := marked;
    for k := 0 to |xs|
      invariant r.Members() == marked.Members() + Prefix(xs, k)
    {
      assert xs[k] in xs;
      r := r.Insert(xs[k]);
      PrefixStep(xs, k);
    }
    PrefixAll(xs);
  }

  /** The first k entries of a list, as a set. */
  function Prefix(xs: seq<nat>, k: nat): set<nat>
    requires k <= |xs|
  {
    set j | 0 <= j < k :: xs[j]
  }

  lemma PrefixStep(xs: seq<nat>, k: nat)
    requires k < |xs|
    ensures Prefix(xs, k + 1) == Prefix(xs, k) + {xs[k]}
  {
  }

  lemma PrefixAll(xs: seq<nat>)
    ensures forall v :: v in Prefix(xs, |xs|) <==> v in xs
  {
    forall v | v in xs ensures v in Prefix(xs, |xs|) {
      var j :| 0 <= j < |xs| && xs[j] == v;
    }
  }

  /** The member sets of a list of cell sets. */
  function MembersOf(cs: seq<CellSet>): (r: seq<set<nat>>)
    ensures |r| == |cs| && forall k :: 0 <= k < |cs| ==> r[k] == cs[k].Members()
  {
    if cs == [] then [] else [cs[0].Members()] + MembersOf(cs[1..])
  }

  // ---------------------------------------------------------------------
  // Properties of the icebergs

  /** The icebergs partition the unclaimed cells; each is non-empty and holds
      every unclaimed neighbour of its cells. */
  lemma IcebergsPartition(b: Board)
    requires Shaped(b)
    ensures forall k, l :: 0 <= k < l < |Icebergs(b)| ==> Icebergs(b)[k] !! Icebergs(b)[l]
    ensures forall k :: 0 <= k < |Icebergs(b)| ==>
      Icebergs(b)[k] != {} && Icebergs(b)[k] <= Unclaimed(b) && Closed(Adjacency(), Unclaimed(b), Icebergs(b)[k])
    ensures UnionAll(Icebergs(b)) == Unclaimed(b)
  {
    AdjacencyFacts();
    ComponentsFromSpec(Adjacency(), Unclaimed(b), {});
    assert Upto(Unclaimed(b), NumCells) == Unclaimed(b);
  }

  /** Each iceberg is the flood fill from any of its cells. */
  lemma IcebergFromAnyCell(b: Board, k: nat, x: nat)
    requires Shaped(b) && k < |Icebergs(b)| && x in Icebergs(b)[k]
    ensures x < NumCells && Iceberg(b, x) == Icebergs(b)[k]
  {
    AdjacencyFacts();
    var adj := Adjacency();
    var live := Unclaimed(b);
    ComponentsFromSpec(adj, live, {});
    var c := Icebergs(b)[k];
    var i :| i < NumCells && i in live && c == Grow(adj, live, {i});
    GrowFromMember(adj, live, i, x);
  }

  // ---------------------------------------------------------------------
  // The board with nothing claimed

  /** With nothing claimed, every cell floods in from cell 0. */
  lemma {:induction false} EmptyBoardReach(b: Board, idx: nat)
    requires Shaped(b) && idx < NumCells
    requires forall x :: 0 <= x < NumCells ==> !IsClaimed(b, x)
    ensures idx in Iceberg(b, 0)
    decreases idx
  {
    AdjacencyFacts();
    if idx > 0 {
      var m := SmallerNeighbor(idx);
      EmptyBoardReach(b, m);
      NeighborsSymmetric(idx, m);
      GrowClosed(Adjacency(), Unclaimed(b), {0});
      assert !IsClaimed(b, idx);
      assert Adjacency()[m] == BoardGeometry.Neighbors(m);
    }
  }

  /** With nothing claimed there is one iceberg, holding all 60 cells. */
  lemma EmptyBoardOneIceberg(b: Board)
    requires Shaped(b)
    requires forall x :: 0 <= x < NumCells ==> !IsClaimed(b, x)
    ensures Icebergs(b) == [Unclaimed(b)]
    ensures |Unclaimed(b)| == NumCells
  {
    AdjacencyFacts();
    var adj := Adjacency();
    var live := Unclaimed(b);
    var g := Grow(adj, live, {0});
    forall x | x in live ensures x in g {
      EmptyBoardReach(b, x);
    }
    assert !IsClaimed(b, 0);
    GrowLive(adj, live, {0});
    assert g == live;
    assert FirstIn(live, {}, 0) == Some(0);
    assert FirstIn(live, {} + g, 0).None?;
    assert Icebergs(b) == [g] + ComponentsFrom(adj, live, {} + g);
    CountAllLive(b, NumCells);
    CountUnclaimedSize(b, NumCells);
    assert Upto(live, NumCells) == live;
  }

  lemma {:induction false} CountAllLive(b: Board, n: nat)
    requires Shaped(b)
    requires forall x :: 0 <= x < n ==> !IsClaimed(b, x)
    ensures CountUnclaimed(b, n) == n
  {
    if n > 0 {
      CountAllLive(b, n - 1);
    }
  }
}
