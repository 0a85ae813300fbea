/**
 * Python's unbounded integers as two's-complement bit strings: `~`, `&`, `|`,
 * `<<` and `>>` on `int`, and the bit view `Bit(x, i)` (bit i of the infinite
 * two's-complement expansion of x, so every bit of -1 is set).
 */
module PyInts {

  function Pow2(n: nat): (r: int)
    ensures r >= 1
  {
    if n == 0 then 1 else 2 * Pow2(n - 1)
  }

  lemma Pow2Monotone(m: nat, n: nat)
    requires m <= n
    ensures Pow2(m) <= Pow2(n)
  {
  }

  /** Bit i of x; Dafny's `/` and `%` by 2 floor, as Python's do. */
  function Bit(x: int, i: nat): bool
    decreases i
  {
    if i == 0 then x % 2 == 1 else Bit(x / 2, i - 1)
  }

  /** Distance from the two fixed points 0 and -1 of halving. */
  function Size(x: int): nat
  {
    if x < 0 then -x - 1 else x
  }

  lemma HalfSmaller(x: int)
    ensures Size(x / 2) <= Size(x)
    ensures x != 0 && x != -1 ==> Size(x / 2) < Size(x)
  {
  }

  /** Python's `~x`. */
  function Not(x: int): int
  {
    -x - 1
  }

  /** Python's `x & y`, bit by bit from the least significant end. */
  function And(x: int, y: int): int
    decreases Size(x) + Size(y)
  {
    if (x == 0 || x == -1) && (y == 0 || y == -1) then
      (if x == -1 && y == -1 then -1 else 0)
    else
      HalfSmaller(x);
      HalfSmaller(y);
      2 * And(x / 2, y / 2) + (if x % 2 == 1 && y % 2 == 1 then 1 else 0)
  }

  /** Python's `x | y`, by De Morgan. */
  function Or(x: int, y: int): int
  {
    Not(And(Not(x), Not(y)))
  }

  /** Python's `x << n`. */
  function ShiftLeft(x: int, n: nat): int
  {
    if n == 0 then x else 2 * ShiftLeft(x, n - 1)
  }

  /** Python's `x >> n`: repeated floor halving. */
  function ShiftRight(x: int, n: nat): int
    decreases n
  {
    if n == 0 then x else ShiftRight(x / 2, n - 1)
  }

  lemma ZeroBits(i: nat)
    ensures !Bit(0, i)
  {
  }

  lemma MinusOneBits(i: nat)
    ensures Bit(-1, i)
  {
  }

  /** Two integers with the same bits are equal. */
  lemma {:induction false} BitExt(x: int, y: int)
    requires forall i: nat :: Bit(x, i) == Bit(y, i)
    ensures x == y
    decreases Size(x) + Size(y)
  {
    assert Bit(x, 0) == Bit(y, 0);
    if (x == 0 || x == -1) && (y == 0 || y == -1) {
    } else {
      forall i: nat ensures Bit(x / 2, i) == Bit(y / 2, i) {
        assert Bit(x, i + 1) == Bit(y, i + 1);
      }
      HalfSmaller(x);
      HalfSmaller(y);
      BitExt(x / 2, y / 2);
    }
  }

  lemma {:induction false} NotBit(x: int, i: nat)
    ensures Bit(Not(x), i) == !Bit(x, i)
    decreases i
  {
    if i > 0 {
      assert Not(x) / 2 == Not(x / 2);
      NotBit(x / 2, i - 1);
    }
  }

  lemma {:induction false} AndBit(x: int, y: int, i: nat)
    ensures Bit(And(x, y), i) == (Bit(x, i) && Bit(y, i))
    decreases Size(x) + Size(y)
  {
    if (x == 0 || x == -1) && (y == 0 || y == -1) {
      if x == 0 { ZeroBits(i); } else { MinusOneBits(i); }
      if y == 0 { ZeroBits(i); } else { MinusOneBits(i); }
      if x == -1 && y == -1 { MinusOneBits(i); } else { ZeroBits(i); }
    } else {
      HalfSmaller(x);
      HalfSmaller(y);
      var low := if x % 2 == 1 && y % 2 == 1 then 1 else 0;
      assert And(x, y) == 2 * And(x / 2, y / 2) + low;
      if i > 0 {
        assert (2 * And(x / 2, y / 2) + low) / 2 == And(x / 2, y / 2);
        AndBit(x / 2, y / 2, i - 1);
      }
    }
  }

  lemma OrBit(x: int, y: int, i: nat)
    ensures Bit(Or(x, y), i) == (Bit(x, i) || Bit(y, i))
  {
    NotBit(x, i);
    NotBit(y, i);
    AndBit(Not(x), Not(y), i);
    NotBit(And(Not(x), Not(y)), i);
  }

  lemma {:induction false} ShiftLeftBit(x: int, n: nat, i: nat)
    ensures Bit(ShiftLeft(x, n), i) == (i >= n && Bit(x, i - n))
  {
    if n > 0 {
      if i > 0 {
        assert (2 * ShiftLeft(x, n - 1)) / 2 == ShiftLeft(x, n - 1);
        ShiftLeftBit(x, n - 1, i - 1);
      }
    }
  }

  lemma {:induction false} ShiftRightBit(x: int, n: nat, i: nat)
    ensures Bit(ShiftRight(x, n), i) == Bit(x, i + n)
    decreases n
  {
    if n > 0 {
      ShiftRightBit(x / 2, n - 1, i);
    }
  }

  /** Above bit k, a value in the signed range of k + 1 bits repeats its sign. */
  lemma {:induction false} SignExtension(x: int, k: nat, i: nat)
    requires -Pow2(k) <= x < Pow2(k) && i >= k
    ensures Bit(x, i) == (x < 0)
    decreases k
  {
    if k == 0 {
      if x == 0 { ZeroBits(i); } else { MinusOneBits(i); }
    } else if i > 0 {
      SignExtension(x / 2, k - 1, i - 1);
    } else {
      assert false;
    }
  }

  /** Shifting a small non-negative value far enough right leaves 0. */
  lemma {:induction false} ShiftRightSmall(x: int, k: nat, n: nat)
    requires 0 <= x < Pow2(k) && k <= n
    ensures ShiftRight(x, n) == 0
    decreases n
  {
    if n > 0 {
      if k > 0 {
        ShiftRightSmall(x / 2, k - 1, n - 1);
      } else {
        ShiftRightSmall(x / 2, 0, n - 1);
      }
    }
  }

  /** `x & y` keeps only bits of y, so with y >= 0 it lies in [0, y]. */
  lemma {:induction false} AndBounded(x: int, y: int)
    requires y >= 0
    ensures 0 <= And(x, y) <= y
    decreases Size(x) + Size(y)
  {
    if (x == 0 || x == -1) && (y == 0 || y == -1) {
    } else {
      HalfSmaller(x);
      HalfSmaller(y);
      AndBounded(x / 2, y / 2);
    }
  }

  /** The bits of 2^k - 1 are exactly those below k. */
  lemma {:induction false} LowMaskBit(k: nat, i: nat)
    ensures Bit(Pow2(k) - 1, i) == (i < k)
  {
    if k == 0 {
      ZeroBits(i);
    } else if i > 0 {
      assert (Pow2(k) - 1) / 2 == Pow2(k - 1) - 1;
      LowMaskBit(k - 1, i - 1);
    }
  }
}
