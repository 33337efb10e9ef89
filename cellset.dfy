/**
 * `CellSet`: a set of board cells packed into the bits of a u64 word
 * (engine/src/cellset.rs).  The Rust type is `Copy`; its `&mut self`
 * operations are modelled as functions returning the updated value, so
 * `s.insert(v)` becomes `s := s.Insert(v)`.
 */
module CellSets {
  import opened Bits
  import opened Wrappers
  import opened Constants

  datatype CellSet = CellSet(data: Word) {

    /** The abstract set of values whose bit is set. */
    function Members(): set<nat>
    {
      set v: nat | v < 64 && Bit(data, v)
    }

    /** `contains`; `1 << value` overflows (and panics) beyond bit 63. */
    function Contains(v: nat): (r: bool)
      requires v < 64
      ensures r <==> v in Members()
    {
      AndPow2(data, v);
      And(data, Pow2(v)) != 0
    }

    /** `insert`: `data |= 1 << value` */
    function Insert(v: nat): (r: CellSet)
      requires v < 64
      ensures r.Members() == Members() + {v}
    {
      Pow2Strict(v, 64);
      OrBound(data, Pow2(v), 64);
      var d := Or(data, Pow2(v));
      forall i | 0 <= i < 64
        ensures Bit(d, i) <==> Bit(data, i) || i == v
      {
        OrBit(data, Pow2(v), i);
        Pow2Bit(v, i);
      }
      CellSet(d)
    }

    /** `remove`: `data &= !(1 << value)` */
    function Remove(v: nat): (r: CellSet)
      requires v < 64
      ensures r.Members() == Members() - {v}
    {
      Pow2Strict(v, 64);
      AndBound(data, Not(Pow2(v)));
      var d := And(data, Not(Pow2(v)));
      forall i | 0 <= i < 64
        ensures Bit(d, i) <==> Bit(data, i) && i != v
      {
        AndBit(data, Not(Pow2(v)), i);
        NotBit(Pow2(v), i);
        Pow2Bit(v, i);
      }
      CellSet(d)
    }

    /** `intersect`: `data &= other.data` */
    function Intersect(other: CellSet): (r: CellSet)
      ensures r.Members() == Members() * other.Members()
    {
      AndBound(data, other.data);
      var d := And(data, other.data);
      forall i | 0 <= i < 64
        ensures Bit(d, i) <==> Bit(data, i) && Bit(other.data, i)
      {
        AndBit(data, other.data, i);
      }
      CellSet(d)
    }

    /** `exclude`: `data &= !other.data` */
    function Exclude(other: CellSet): (r: CellSet)
      ensures r.Members() == Members() - other.Members()
    {
      AndBound(data, Not(other.data));
      var d := And(data, Not(other.data));
      forall i | 0 <= i < 64
        ensures Bit(d, i) <==> Bit(data, i) && !Bit(other.data, i)
      {
        AndBit(data, Not(other.data), i);
        NotBit(other.data, i);
      }
      CellSet(d)
    }

    /** `union`: `data |= other.data` */
    function Union(other: CellSet): (r: CellSet)
      ensures r.Members() == Members() + other.Members()
    {
      OrBound(data, other.data, 64);
      var d := Or(data, other.data);
      forall i | 0 <= i < 64
        ensures Bit(d, i) <==> Bit(data, i) || Bit(other.data, i)
      {
        OrBit(data, other.data, i);
      }
      CellSet(d)
    }

    /** `is_empty`: `data == 0` */
    function IsEmpty(): (r: bool)
      ensures r <==> Members() == {}
    {
      EmptyIffZero(this);
      data == 0
    }

    /** `len`: `count_ones` */
    function Len(): (r: nat)
      ensures r == |Members()|
    {
      CountOnesIsCountBelow(data, 64);
      CountBelowCard(data, 64);
      assert Members() == BitsBelow(data, 64);
      CountOnes(data)
    }

    /** The members at or above `i` and below 60, ascending: what an iterator
        positioned at `i` still yields. */
    function From(i: nat): seq<nat>
      decreases NumCells - i
    {
      if i >= NumCells then []
      else (if Bit(data, i) then [i] else []) + From(i + 1)
    }

    /** Everything iteration yields: `s.iter().collect()`. */
    function Elements(): seq<nat>
    {
      From(0)
    }
  }

  /** `CellSet::new` */
  function Empty(): (r: CellSet)
    ensures r.Members() == {}
  {
    forall i: nat ensures !Bit(0, i) { ZeroBit(i); }
    CellSet(0)
  }

  /** `CellSet::full`: `!0 >> 4`, i.e. the 60 low bits. */
  function Full(): (r: CellSet)
    ensures forall v: nat :: v in r.Members() <==> v < NumCells
  {
    ShrBound(Not(0), 4);
    var d := Shr(Not(0), 4);
    forall i: nat | i < 64
      ensures Bit(d, i) <==> i < 60
    {
      FullBit(i);
    }
    FullMembers(d);
    CellSet(d)
  }

  /** Bit i of `!0 >> 4` is set exactly for the 60 low bits. */
  lemma FullBit(i: nat)
    requires i < 64
    ensures Bit(Shr(Not(0), 4), i) <==> i < 60
  {
    ShrBit(Not(0), 4, i);
    if i + 4 < 64 {
      NotBit(0, i + 4);
      ZeroBit(i + 4);
    } else {
      HighBitClear(Not(0), 64, i + 4);
    }
  }

  lemma FullMembers(d: Word)
    requires forall i: nat | i < 64 :: Bit(d, i) <==> i < NumCells
    ensures forall v: nat :: v in CellSet(d).Members() <==> v < NumCells
  {
    forall v: nat ensures v in CellSet(d).Members() <==> v < NumCells
    {
      if v < 64 {
        assert Bit(d, v) <==> v < NumCells;
      }
    }
  }

  /** The set of cells, bounded below 60, that an ordinary board set holds. */
  predicate OnBoard(s: CellSet)
  {
    forall v :: v in s.Members() ==> v < NumCells
  }

  // ---------------------------------------------------------------------
  // Bit helpers specific to sets

  function BitsBelow(x: nat, n: nat): set<nat>
  {
    set v: nat | v < n && Bit(x, v)
  }

  lemma {:induction false} CountBelowCard(x: nat, n: nat)
    ensures CountBelow(x, n) == |BitsBelow(x, n)|
  {
    if n > 0 {
      CountBelowCard(x, n - 1);
      BitsBelowStep(x, n);
      if Bit(x, n - 1) {
        assert n - 1 !in BitsBelow(x, n - 1);
      }
    }
  }

  lemma BitsBelowStep(x: nat, n: nat)
    requires n > 0
    ensures BitsBelow(x, n) == BitsBelow(x, n - 1) + (if Bit(x, n - 1) then {n - 1} else {})
  {
    var r := BitsBelow(x, n - 1) + (if Bit(x, n - 1) then {n - 1} else {});
    forall v: nat ensures v in BitsBelow(x, n) <==> v in r {
    }
  }

  lemma EmptyIffZero(s: CellSet)
    ensures s.data == 0 <==> s.Members() == {}
  {
    ZeroIffNoBit(s.data);
    if s.data != 0 {
      var i :| 0 <= i < 64 && Bit(s.data, i);
      assert i in s.Members();
    }
  }

  lemma AndPow2(x: Word, v: nat)
    requires v < 64
    ensures And(x, Pow2(v)) != 0 <==> Bit(x, v)
  {
    Pow2Strict(v, 64);
    AndBound(x, Pow2(v));
    var a := And(x, Pow2(v));
    AndBit(x, Pow2(v), v);
    Pow2Bit(v, v);
    if a != 0 {
      ZeroIffNoBit(a);
      var i :| 0 <= i < 64 && Bit(a, i);
      AndBit(x, Pow2(v), i);
      Pow2Bit(v, i);
    } else {
      ZeroBit(v);
    }
  }

  // ---------------------------------------------------------------------
  // Properties

  /** The derived `Eq`: two sets with the same members are the same value. */
  lemma Extensionality(a: CellSet, b: CellSet)
    requires a.Members() == b.Members()
    ensures a == b
  {
    forall i | 0 <= i < 64
      ensures Bit(a.data, i) <==> Bit(b.data, i)
    {
      assert Bit(a.data, i) <==> i in a.Members();
    }
    BitsExtensional(a.data, b.data, 64);
  }

  /** The same, stated value by value. */
  lemma ExtensionalityPointwise(a: CellSet, b: CellSet)
    requires forall v :: v in a.Members() <==> v in b.Members()
    ensures a == b
  {
    Extensionality(a, b);
  }

  predicate StrictlyIncreasing(xs: seq<nat>)
  {
    forall i, j :: 0 <= i < j < |xs| ==> xs[i] < xs[j]
  }

  /** Every value of the list is a board cell. */
  predicate AllCells(cells: seq<nat>)
  {
    forall i :: 0 <= i < |cells| ==> cells[i] < NumCells
  }

  /** Iteration yields board cells only. */
  lemma ElementsAreCells(s: CellSet)
    ensures AllCells(s.Elements())
  {
    FromMembers(s, 0);
    var xs := s.Elements();
    forall i | 0 <= i < |xs| ensures xs[i] < NumCells {
      assert xs[i] in xs;
    }
  }

  /** What an iterator positioned at `i` yields: every member in [i, 60), ascending. */
  lemma {:induction false} FromSpec(s: CellSet, i: nat)
    ensures StrictlyIncreasing(s.From(i))
    ensures forall v :: v in s.From(i) <==> i <= v < NumCells && Bit(s.data, v)
    decreases NumCells - i
  {
    if i < NumCells {
      FromSpec(s, i + 1);
      var rest := s.From(i + 1);
      if Bit(s.data, i) {
        assert s.From(i) == [i] + rest;
        ConsIncreasing(i, rest);
      } else {
        assert s.From(i) == rest;
      }
    }
  }

  /** The same, in terms of the set's members. */
  lemma FromMembers(s: CellSet, i: nat)
    ensures StrictlyIncreasing(s.From(i))
    ensures forall v :: v in s.From(i) <==> i <= v < NumCells && v in s.Members()
  {
    FromSpec(s, i);
  }

  /** A value below every element of an ascending sequence extends it. */
  lemma ConsIncreasing(x: nat, rest: seq<nat>)
    requires StrictlyIncreasing(rest) && forall v :: v in rest ==> x < v
    ensures StrictlyIncreasing([x] + rest)
  {
    var xs := [x] + rest;
    forall i, j | 0 <= i < j < |xs| ensures xs[i] < xs[j]
    {
      assert xs[j] == rest[j - 1];
      assert rest[j - 1] in rest;
      if i > 0 {
        assert xs[i] == rest[i - 1];
      }
    }
  }

  /** Iteration yields the members of a board set in ascending order. */
  lemma ElementsSpec(s: CellSet)
    ensures StrictlyIncreasing(s.Elements())
    ensures OnBoard(s) ==> forall v :: v in s.Elements() <==> v in s.Members()
  {
    FromMembers(s, 0);
  }

  /** Iteration from a board cell v yields v first exactly when v is a member. */
  lemma FromHead(s: CellSet, v: nat)
    requires v < NumCells
    ensures s.Contains(v) ==> s.From(v) != [] && s.From(v)[0] == v && s.From(v)[1..] == s.From(v + 1)
    ensures !s.Contains(v) ==> s.From(v) == s.From(v + 1)
  {
    if s.Contains(v) {
      assert Bit(s.data, v);
      assert s.From(v) == [v] + s.From(v + 1);
    }
  }

  /** Members absent from [i, m) may be skipped. */
  lemma {:induction false} FromSkip(s: CellSet, i: nat, m: nat)
    requires i <= m <= NumCells
    requires forall j :: i <= j < m ==> !Bit(s.data, j)
    ensures s.From(i) == s.From(m)
    decreases m - i
  {
    if i < m {
      FromSkip(s, i + 1, m);
    }
  }

  /** A strictly increasing sequence is determined by its elements. */
  lemma {:induction false} SortedUnique(xs: seq<nat>, ys: seq<nat>)
    requires StrictlyIncreasing(xs) && StrictlyIncreasing(ys)
    requires forall v :: v in xs <==> v in ys
    ensures xs == ys
  {
    assert xs == [] <==> ys == [] by {
      if xs != [] { assert xs[0] in ys; }
      if ys != [] { assert ys[0] in xs; }
    }
    if xs != [] {
      assert xs[0] == ys[0] by {
        assert xs[0] in ys;
        assert ys[0] in xs;
      }
      forall v ensures v in xs[1..] <==> v in ys[1..]
      {
        if v in xs[1..] {
          assert v in ys;
          assert v != ys[0];
        }
        if v in ys[1..] {
          assert v in xs;
          assert v != xs[0];
        }
      }
      SortedUnique(xs[1..], ys[1..]);
      assert xs == [xs[0]] + xs[1..];
      assert ys == [ys[0]] + ys[1..];
    }
  }

  /** The set `from_iter` builds: the values inserted one after another. */
  function Collect(values: seq<nat>): (r: CellSet)
    requires forall v :: v in values ==> v < 64
    ensures r.Members() == set v | v in values
  {
    if values == [] then Empty()
    else
      var init, last := values[..|values| - 1], values[|values| - 1];
      assert values == init + [last];
      assert last in values && forall v :: v in init ==> v in values;
      Collect(init).Insert(last)
  }

  /** `CellSet::from_iter`: insert every value in turn. */
  method FromIter(values: seq<nat>) returns (r: CellSet)
    requires forall v :: v in values ==> v < 64
    ensures r.Members() == set v | v in values
    ensures r == Collect(values)
  {
    r := Empty();
    var k := 0;
    while k < |values|
      invariant k <= |values|
      invariant r.Members() == set v | v in values[..k]
    {
      assert values[..k + 1] == values[..k] + [values[k]];
      assert values[k] in values;
      r := r.Insert(values[k]);
      k := k + 1;
    }
    assert values[..k] == values;
    Extensionality(r, Collect(values));
  }

  /** Collecting a board set and rebuilding it gives the same set back. */
  method CollectRebuild(s: CellSet) returns (r: CellSet)
    requires OnBoard(s)
    ensures r == s
  {
    var xs := s.Elements();
    ElementsSpec(s);
    r := FromIter(xs);
    SameValues(r, s, xs);
  }

  /** Two sets whose members are the values of one sequence are equal. */
  lemma SameValues(r: CellSet, s: CellSet, xs: seq<nat>)
    requires r.Members() == set v | v in xs
    requires forall v :: v in xs <==> v in s.Members()
    ensures r == s
  {
    assert r.Members() == s.Members();
    Extensionality(r, s);
  }

  /**
   * `cellset::Iter`: walks the bits upward from `value`, skipping runs of
   * clear bits with `trailing_zeros`.
   */
  class Iter {
    const cellSet: CellSet
    var value: nat

    /** `CellSet::iter` */
    constructor (s: CellSet)
      ensures cellSet == s && value == 0
    {
      cellSet := s;
      value := 0;
    }

    predicate Valid()
      reads this
    {
      value <= NumCells
    }

    /** The values this iterator has yet to yield. */
    function Remaining(): seq<nat>
      reads this
    {
      cellSet.From(value)
    }

    /** `Iterator::next`: the next member in ascending order, or `None` past the last. */
    method Next() returns (r: Option<nat>)
      requires Valid()
      modifies this
      ensures Valid()
      ensures old(Remaining()) == [] ==> r == None && Remaining() == []
      ensures old(Remaining()) != [] ==>
        r == Some(old(Remaining())[0]) && Remaining() == old(Remaining())[1..]
    {
      ghost var init := Remaining();
      while value < NumCells
        invariant value <= NumCells
        invariant cellSet.From(value) == init
        decreases NumCells - value
      {
        var v := value;
        value := value + 1;
        ShrBound(cellSet.data, value);
        var remainder: Word := Shr(cellSet.data, value);
        SkipClear(cellSet, value);
        value := value + TrailingZeros(remainder);
        value := if value < NumCells then value else NumCells;
        NextTurn(cellSet, init, v, value);
        if cellSet.Contains(v) {
          return Some(v);
        }
      }
      return None;
    }
  }

  /** One turn of `next`'s loop: past v the iterator skips to m over clear
      bits; it yields v when v is a member, and otherwise still has all of
      `init` to yield. */
  lemma NextTurn(s: CellSet, init: seq<nat>, v: nat, m: nat)
    requires v < m <= NumCells && s.From(v) == init
    requires forall j :: v < j < m ==> !Bit(s.data, j)
    ensures s.Contains(v) ==> init != [] && init[0] == v && s.From(m) == init[1..]
    ensures !s.Contains(v) ==> s.From(m) == init
  {
    FromSkip(s, v + 1, m);
    FromHead(s, v);
  }

  /** `trailing_zeros` of `data >> k` counts clear bits starting at k. */
  lemma SkipClear(s: CellSet, k: nat)
    ensures Shr(s.data, k) < Pow2(64)
    ensures forall j :: k <= j < k + TrailingZeros(Shr(s.data, k)) && j < 64 ==> !Bit(s.data, j)
  {
    ShrBound(s.data, k);
    var x := Shr(s.data, k);
    forall j | k <= j < k + TrailingZeros(x) && j < 64
      ensures !Bit(s.data, j)
    {
      ShrBit(s.data, k, j - k);
      if x == 0 {
        ZeroBit(j - k);
      } else {
        LowestBitIsSet(x);
      }
    }
  }

  /** A board set iterates as the one ascending sequence of its members. */
  lemma ElementsUnique(s: CellSet, xs: seq<nat>)
    requires OnBoard(s)
    requires forall v :: v in s.Members() <==> v in xs
    requires StrictlyIncreasing(xs)
    ensures s.Elements() == xs
  {
    ElementsSpec(s);
    SortedUnique(s.Elements(), xs);
  }

  /** Three ascending values inserted into an empty set are counted and
      iterated in order (the {0, 30, 46} example is one instance). */
  lemma ThreeInserted(a: nat, b: nat, c: nat)
    requires a < b < c < NumCells
    ensures Empty().Insert(a).Insert(b).Insert(c).Len() == 3
    ensures Empty().Insert(a).Insert(b).Insert(c).Elements() == [a, b, c]
  {
    var s := Empty().Insert(a).Insert(b).Insert(c);
    assert s.Members() == {a, b, c};
    ElementsUnique(s, [a, b, c]);
  }
}
