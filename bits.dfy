/**
 * Semantics of the Rust `u64` word that backs a cell set: a natural number
 * below 2^64 together with the bit operations `|`, `&`, `!`, `<<`, `>>`,
 * `count_ones` and `trailing_zeros`, each defined bit by bit.
 */
module Bits {

  /** 2^i, the value of `1 << i`. */
  function Pow2(i: nat): (r: nat)
    ensures r >= 1
  {
    if i == 0 then 1 else 2 * Pow2(i - 1)
  }

  /** The Rust `u64` type. */
  type Word = x: nat | x < Pow2(64)

  /** Bit i of x. */
  predicate Bit(x: nat, i: nat)
  {
    if i == 0 then x % 2 == 1 else Bit(x / 2, i - 1)
  }

  /** `a | b` */
  function Or(a: nat, b: nat): nat
    decreases a + b
  {
    if a == 0 then b
    else if b == 0 then a
    else 2 * Or(a / 2, b / 2) + (if a % 2 == 1 || b % 2 == 1 then 1 else 0)
  }

  /** `a & b` */
  function And(a: nat, b: nat): nat
    decreases a + b
  {
    if a == 0 || b == 0 then 0
    else 2 * And(a / 2, b / 2) + (if a % 2 == 1 && b % 2 == 1 then 1 else 0)
  }

  /** `!x` on a u64 */
  function Not(x: Word): Word
  {
    Pow2(64) - 1 - x
  }

  /** `x >> k` */
  function Shr(x: nat, k: nat): nat
  {
    if k == 0 then x else Shr(x / 2, k - 1)
  }

  /** `x.count_ones()` */
  function CountOnes(x: nat): nat
  {
    if x == 0 then 0 else x % 2 + CountOnes(x / 2)
  }

  /** `x.trailing_zeros()`: 64 for zero, else the position of the lowest set bit. */
  function TrailingZeros(x: Word): nat
  {
    if x == 0 then 64 else LowestBit(x)
  }

  function LowestBit(x: nat): nat
    requires x != 0
  {
    if x % 2 == 1 then 0 else 1 + LowestBit(x / 2)
  }

  // ---------------------------------------------------------------------
  // Bit-level characterisations

  lemma {:induction false} ZeroBit(i: nat)
    ensures !Bit(0, i)
  {
    if i > 0 { ZeroBit(i - 1); }
  }

  lemma {:induction false} Pow2Bit(v: nat, i: nat)
    ensures Bit(Pow2(v), i) <==> i == v
  {
    if v == 0 {
      if i > 0 { ZeroBit(i - 1); }
    } else if i > 0 {
      Pow2Bit(v - 1, i - 1);
    }
  }

  lemma {:induction false} Pow2Monotone(i: nat, j: nat)
    requires i <= j
    ensures Pow2(i) <= Pow2(j)
  {
    if i < j { Pow2Monotone(i, j - 1); }
  }

  lemma {:induction false} Pow2Strict(i: nat, j: nat)
    requires i < j
    ensures Pow2(i) < Pow2(j)
  {
    Pow2Monotone(i, j - 1);
  }

  lemma {:induction false} OrBit(a: nat, b: nat, i: nat)
    ensures Bit(Or(a, b), i) <==> Bit(a, i) || Bit(b, i)
    decreases a + b
  {
    if a == 0 {
      ZeroBit(i);
    } else if b == 0 {
      ZeroBit(i);
    } else if i > 0 {
      OrBit(a / 2, b / 2, i - 1);
    }
  }

  lemma {:induction false} AndBit(a: nat, b: nat, i: nat)
    ensures Bit(And(a, b), i) <==> Bit(a, i) && Bit(b, i)
    decreases a + b
  {
    if a == 0 || b == 0 {
      ZeroBit(i);
      if i > 0 {
        if a == 0 { ZeroBit(i - 1); } else { ZeroBit(i - 1); }
      }
    } else if i > 0 {
      AndBit(a / 2, b / 2, i - 1);
    }
  }

  lemma {:induction false} OrBound(a: nat, b: nat, n: nat)
    requires a < Pow2(n) && b < Pow2(n)
    ensures Or(a, b) < Pow2(n)
    decreases a + b
  {
    if a != 0 && b != 0 {
      OrBound(a / 2, b / 2, n - 1);
    }
  }

  lemma {:induction false} AndBound(a: nat, b: nat)
    ensures And(a, b) <= a && And(a, b) <= b
    decreases a + b
  {
    if a != 0 && b != 0 {
      AndBound(a / 2, b / 2);
    }
  }

  lemma {:induction false} NotBitN(n: nat, x: nat, i: nat)
    requires x < Pow2(n) && i < n
    ensures Bit(Pow2(n) - 1 - x, i) <==> !Bit(x, i)
  {
    if i > 0 {
      assert (Pow2(n) - 1 - x) / 2 == Pow2(n - 1) - 1 - x / 2;
      NotBitN(n - 1, x / 2, i - 1);
    }
  }

  lemma NotBit(x: Word, i: nat)
    requires i < 64
    ensures Bit(Not(x), i) <==> !Bit(x, i)
  {
    NotBitN(64, x, i);
  }

  lemma {:induction false} ShrBit(x: nat, k: nat, i: nat)
    ensures Bit(Shr(x, k), i) <==> Bit(x, i + k)
  {
    if k > 0 {
      ShrBit(x / 2, k - 1, i);
      assert Bit(x, i + k) == Bit(x / 2, i + k - 1);
    }
  }

  lemma {:induction false} ShrBound(x: nat, k: nat)
    ensures Shr(x, k) <= x
  {
    if k > 0 { ShrBound(x / 2, k - 1); }
  }

  /** Bits at or above n of a number below 2^n are clear. */
  lemma {:induction false} HighBitClear(x: nat, n: nat, i: nat)
    requires x < Pow2(n) && n <= i
    ensures !Bit(x, i)
  {
    if n == 0 {
      ZeroBit(i);
    } else {
      HighBitClear(x / 2, n - 1, i - 1);
    }
  }

  lemma {:induction false} LowestBitIsSet(x: nat)
    requires x != 0
    ensures Bit(x, LowestBit(x))
    ensures forall j :: 0 <= j < LowestBit(x) ==> !Bit(x, j)
  {
    if x % 2 == 0 {
      LowestBitIsSet(x / 2);
      forall j | 0 <= j < LowestBit(x)
        ensures !Bit(x, j)
      {
        if j > 0 { assert Bit(x, j) == Bit(x / 2, j - 1); }
      }
    }
  }

  lemma {:induction false} LowestBitBound(x: nat, n: nat)
    requires x != 0 && x < Pow2(n)
    ensures LowestBit(x) < n
  {
    LowestBitIsSet(x);
    if LowestBit(x) >= n {
      HighBitClear(x, n, LowestBit(x));
    }
  }

  /** A word is zero exactly when none of its 64 bits is set. */
  lemma ZeroIffNoBit(x: Word)
    ensures x == 0 ==> forall i :: 0 <= i < 64 ==> !Bit(x, i)
    ensures x != 0 ==> exists i :: 0 <= i < 64 && Bit(x, i)
  {
    if x == 0 {
      forall i | 0 <= i < 64 ensures !Bit(x, i) { ZeroBit(i); }
    } else {
      LowestBitIsSet(x);
      LowestBitBound(x, 64);
    }
  }

  /** Two numbers below 2^n with the same n low bits are equal. */
  lemma {:induction false} BitsExtensional(x: nat, y: nat, n: nat)
    requires x < Pow2(n) && y < Pow2(n)
    requires forall i :: 0 <= i < n ==> (Bit(x, i) <==> Bit(y, i))
    ensures x == y
  {
    if n > 0 {
      forall i | 0 <= i < n - 1
        ensures Bit(x / 2, i) <==> Bit(y / 2, i)
      {
        assert Bit(x, i + 1) <==> Bit(y, i + 1);
      }
      BitsExtensional(x / 2, y / 2, n - 1);
      assert Bit(x, 0) <==> Bit(y, 0);
    }
  }

  /** The number of set bits below position n. */
  function CountBelow(x: nat, n: nat): nat
  {
    if n == 0 then 0 else CountBelow(x, n - 1) + (if Bit(x, n - 1) then 1 else 0)
  }

  lemma {:induction false} CountBelowShift(x: nat, n: nat)
    ensures CountBelow(x, n + 1) == x % 2 + CountBelow(x / 2, n)
  {
    if n > 0 {
      CountBelowShift(x, n - 1);
      assert Bit(x, n) == Bit(x / 2, n - 1);
    }
  }

  /** `count_ones` counts exactly the set bits. */
  lemma {:induction false} CountOnesIsCountBelow(x: nat, n: nat)
    requires x < Pow2(n)
    ensures CountOnes(x) == CountBelow(x, n)
  {
    if n == 0 {
    } else if x == 0 {
      ZeroCountBelow(n);
    } else {
      CountOnesIsCountBelow(x / 2, n - 1);
      CountBelowShift(x, n - 1);
    }
  }

  lemma {:induction false} ZeroCountBelow(n: nat)
    ensures CountBelow(0, n) == 0
  {
    if n > 0 { ZeroCountBelow(n - 1); ZeroBit(n - 1); }
  }
}
