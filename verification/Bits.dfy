/** Unsigned machine words as naturals, and the two contiguity checks of the program.

    A register is a natural below 2^64; a shift right is a division, a shift left a
    multiplication, and `&` is defined bit by bit.
 */
module Bits {

  const WORD_LIMIT: nat := 0x1_0000_0000_0000_0000
  type Word = w: nat | w < WORD_LIMIT

  const UINT_LIMIT: nat := 0x1_0000_0000
  type UInt = w: nat | w < UINT_LIMIT

  function Pow2(n: nat): (r: nat)
    ensures r >= 1
  {
    if n == 0 then 1 else 2 * Pow2(n - 1)
  }

  /** Bitwise and. */
  function And(x: nat, y: nat): nat {
    if x == 0 || y == 0 then 0 else x % 2 * (y % 2) + 2 * And(x / 2, y / 2)
  }

  /** Bitwise or. */
  function Or(x: nat, y: nat): nat {
    if x == 0 then y else if y == 0 then x
    else (if x % 2 == 1 || y % 2 == 1 then 1 else 0) + 2 * Or(x / 2, y / 2)
  }

  /** Number of set bits. */
  function BitCount(x: nat): nat {
    if x == 0 then 0 else x % 2 + BitCount(x / 2)
  }

  /** The mask with the `n` lowest bits set. */
  function Ones(n: nat): nat {
    Pow2(n) - 1
  }

  /** Shift left. */
  function Shl(x: nat, n: nat): nat {
    if n == 0 then x else 2 * Shl(x, n - 1)
  }

  /** One non-empty run of ones: `len` ones above `lo` zeros. */
  ghost predicate IsRun(x: nat) {
    exists lo: nat, len: nat :: len >= 1 && x == Shl(Ones(len), lo)
  }

  lemma Pow2Monotone(a: nat, b: nat)
    requires a <= b
    ensures Pow2(a) <= Pow2(b)
  {
    if a < b {
      Pow2Monotone(a, b - 1);
    }
  }

  /** Pow2(64) is the word limit, and Pow2(32) the limit of an `unsigned`. */
  lemma Pow2Limits()
    ensures Pow2(32) == UINT_LIMIT
    ensures Pow2(64) == WORD_LIMIT
  {
    Pow2Byte(0);
    Pow2Byte(8);
    Pow2Byte(16);
    Pow2Byte(24);
    Pow2Byte(32);
    Pow2Byte(40);
    Pow2Byte(48);
    Pow2Byte(56);
  }

  lemma Pow2Byte(n: nat)
    ensures Pow2(n + 8) == 256 * Pow2(n)
  {
    assert Pow2(n + 8) == 2 * Pow2(n + 7) && Pow2(n + 7) == 2 * Pow2(n + 6) && Pow2(n + 6) == 2 * Pow2(n + 5);
    assert Pow2(n + 5) == 2 * Pow2(n + 4) && Pow2(n + 4) == 2 * Pow2(n + 3) && Pow2(n + 3) == 2 * Pow2(n + 2);
    assert Pow2(n + 2) == 2 * Pow2(n + 1) && Pow2(n + 1) == 2 * Pow2(n);
  }

  /** Shift right. */
  function Shr(x: nat, n: nat): nat {
    if n == 0 then x else Shr(x / 2, n - 1)
  }

  lemma {:induction false} ShrOneMore(x: nat, n: nat)
    ensures Shr(x, n + 1) == Shr(x, n) / 2
  {
    if n > 0 {
      ShrOneMore(x / 2, n - 1);
    }
  }

  lemma {:induction false} ShrAll(x: nat, n: nat)
    requires x < Pow2(n)
    ensures Shr(x, n) == 0
  {
    if n > 0 {
      ShrAll(x / 2, n - 1);
    }
  }

  /** Testing bit `i` with a shifted one, as the program does. */
  lemma {:induction false} AndWithBit(i: nat, x: nat)
    ensures And(Pow2(i), x) != 0 <==> Shr(x, i) % 2 == 1
  {
    if i == 0 {
      assert And(1, x) == if x == 0 then 0 else x % 2;
    } else {
      AndWithBit(i - 1, x / 2);
      if x == 0 {
        ShrAll(0, i);
      }
    }
  }

  // ----- shifting out zeros and ones -----

  /** What is left after shifting out the low zeros. */
  function DropZeros(x: nat): (r: nat)
    requires x > 0
    ensures r % 2 == 1
  {
    if x % 2 == 0 then DropZeros(x / 2) else x
  }

  /** What is left after shifting out the low ones. */
  function DropOnes(x: nat): (r: nat)
    ensures r % 2 == 0
  {
    if x % 2 == 1 then DropOnes(x / 2) else x
  }

  lemma {:induction false} DropOnesIsZero(x: nat)
    ensures DropOnes(x) == 0 <==> exists len: nat :: x == Ones(len)
  {
    if x == 0 {
      assert x == Ones(0);
    } else if x % 2 == 0 {
      forall len: nat ensures x != Ones(len) {
        if len > 0 {
          assert Ones(len) == 2 * Ones(len - 1) + 1;
        }
      }
    } else {
      DropOnesIsZero(x / 2);
      if len: nat :| x / 2 == Ones(len) {
        assert x == Ones(len + 1);
      }
      if len: nat :| x == Ones(len) {
        assert len > 0;
        assert Ones(len) == 2 * Ones(len - 1) + 1;
        assert x / 2 == Ones(len - 1);
      }
    }
  }

  lemma OddRun(x: nat)
    requires x % 2 == 1
    ensures IsRun(x) <==> exists len: nat :: x == Ones(len)
  {
    if len: nat :| x == Ones(len) {
      assert x == Shl(Ones(len), 0);
    }
    if lo: nat, len: nat :| len >= 1 && x == Shl(Ones(len), lo) {
      if lo > 0 {
        assert x == 2 * Shl(Ones(len), lo - 1);
      }
    }
  }

  lemma EvenRun(x: nat)
    requires x > 0 && x % 2 == 0
    ensures IsRun(x) <==> IsRun(x / 2)
  {
    if lo: nat, len: nat :| len >= 1 && x / 2 == Shl(Ones(len), lo) {
      assert x == Shl(Ones(len), lo + 1);
    }
    if lo: nat, len: nat :| len >= 1 && x == Shl(Ones(len), lo) {
      if lo == 0 {
        assert Ones(len) == 2 * Ones(len - 1) + 1;
      } else {
        assert x / 2 == Shl(Ones(len), lo - 1);
      }
    }
  }

  /** A word is one run exactly when nothing is left after its first run. */
  lemma {:induction false} RunByShifting(x: nat)
    requires x > 0
    ensures IsRun(x) <==> DropOnes(DropZeros(x)) == 0
  {
    if x % 2 == 1 {
      OddRun(x);
      DropOnesIsZero(x);
    } else {
      EvenRun(x);
      RunByShifting(x / 2);
    }
  }

  lemma ZeroIsNoRun()
    ensures !IsRun(0)
  {
    forall lo: nat, len: nat | len >= 1 ensures 0 != Shl(Ones(len), lo) {
      assert Ones(len) == 2 * Ones(len - 1) + 1;
      ShlPositive(Ones(len), lo);
    }
  }

  lemma ShlPositive(x: nat, n: nat)
    requires x > 0
    ensures Shl(x, n) > 0
  {
  }

  lemma OnesIsRun(n: nat)
    requires n >= 1
    ensures IsRun(Ones(n))
  {
    assert Ones(n) == Shl(Ones(n), 0);
  }

  lemma {:induction false} OnesCount(n: nat)
    ensures BitCount(Ones(n)) == n
  {
    if n > 0 {
      OnesCount(n - 1);
      assert Ones(n) == 2 * Ones(n - 1) + 1;
    }
  }

  lemma OnesFitWord(n: nat)
    requires n <= 64
    ensures Ones(n) < WORD_LIMIT
  {
    Pow2Limits();
    Pow2Monotone(n, 64);
  }

  // ----- the library's check -----

  /** `is_contiguous` of the library: shift out the zeros, then the ones, and look at the rest. */
  method IsContiguous(mask: Word) returns (ok: bool)
    ensures ok <==> IsRun(mask)
  {
    if mask == 0 {
      ZeroIsNoRun();
      return false;
    }
    RunByShifting(mask);
    var bitmask: nat := mask;
    while bitmask % 2 == 0
      invariant bitmask > 0
      invariant DropZeros(bitmask) == DropZeros(mask)
      decreases bitmask
    {
      bitmask := bitmask / 2;
    }
    while bitmask % 2 != 0
      invariant DropOnes(bitmask) == DropOnes(DropZeros(mask))
      decreases bitmask
    {
      bitmask := bitmask / 2;
    }
    ok := bitmask == 0;
  }

  // ----- the configurator's check -----

  /** Clearing the lowest set bit, as `x & (x - 1)` does. */
  lemma {:induction false} AndPredecessor(x: nat)
    requires x > 0
    ensures And(x, x - 1) < x
    ensures BitCount(And(x, x - 1)) == BitCount(x) - 1
  {
    if x % 2 == 1 {
      AndSame(x / 2);
      assert And(x, x - 1) == x - 1;
    } else {
      AndPredecessor(x / 2);
      var h := x / 2;
      assert x == 2 * h && (x - 1) / 2 == h - 1;
      assert And(x, x - 1) == 2 * And(h, h - 1);
      BitCountDouble(And(h, h - 1));
      BitCountDouble(h);
    }
  }

  lemma BitCountDouble(y: nat)
    ensures BitCount(2 * y) == BitCount(y)
  {
  }

  lemma {:induction false} AndSame(x: nat)
    ensures And(x, x) == x
  {
    if x > 0 {
      AndSame(x / 2);
    }
  }

  method BitsCount(mask: Word) returns (count: nat)
    ensures count == BitCount(mask)
  {
    var bitmask: nat := mask;
    count := 0;
    while bitmask != 0
      invariant count + BitCount(bitmask) == BitCount(mask)
    {
      AndPredecessor(bitmask);
      bitmask := And(bitmask, bitmask - 1);
      count := count + 1;
    }
  }

  /** `is_contiguous` of rdtset: the length of the first run against the number of set bits. */
  method IsContiguousByCount(mask: Word) returns (ok: bool)
    ensures ok <==> IsRun(mask)
  {
    if mask == 0 {
      ZeroIsNoRun();
      return false;
    }
    RunByShifting(mask);
    var i, j := 0, 0;
    ghost var rest: nat := mask;
    while i < 64
      invariant 0 <= i <= 64 && 0 <= j <= i
      invariant rest == Shr(mask, i)
      invariant j == 0 ==> rest > 0 && DropZeros(rest) == DropZeros(mask)
      invariant j > 0 ==> DropOnes(rest) == DropOnes(DropZeros(mask))
      invariant BitCount(mask) == j + BitCount(rest)
    {
      AndWithBit(i, mask);
      ShrOneMore(mask, i);
      if And(Pow2(i), mask) != 0 {
        j := j + 1;
      } else if j > 0 {
        break;
      }
      i := i + 1;
      rest := rest / 2;
    }
    Pow2Limits();
    ShrAll(mask, 64);
    var count := BitsCount(mask);
    assert BitCount(rest) == 0 <==> rest == 0 by { NoBits(rest); }
    ok := count == j;
  }

  lemma {:induction false} NoBits(x: nat)
    ensures BitCount(x) == 0 <==> x == 0
  {
    if x > 0 {
      NoBits(x / 2);
    }
  }

  /** A mask that fits `n` ways has no bit in common with `UINT64_MAX << n`, and conversely. */
  lemma {:induction false} AndAbove(x: nat, n: nat, top: nat)
    requires n <= top && x < Pow2(top)
    ensures Pow2(n) <= Pow2(top)
    ensures And(x, Pow2(top) - Pow2(n)) == 0 <==> x < Pow2(n)
  {
    Pow2Monotone(n, top);
    if x != 0 && n != top {
      if n == 0 {
        AndWithOnes(x, top);
      } else {
        AndAbove(x / 2, n - 1, top - 1);
        var y := Pow2(top - 1) - Pow2(n - 1);
        assert Pow2(top) - Pow2(n) == 2 * y;
        assert And(x, 2 * y) == if y == 0 then 0 else 2 * And(x / 2, y);
      }
    }
  }

  lemma {:induction false} AndWithOnes(x: nat, n: nat)
    requires x < Pow2(n)
    ensures And(x, Ones(n)) == x
  {
    if n > 0 && x > 0 {
      AndWithOnes(x / 2, n - 1);
      assert Ones(n) == 2 * Ones(n - 1) + 1;
    }
  }

  lemma {:induction false} OrBelow(x: nat, y: nat, n: nat)
    ensures Or(x, y) < Pow2(n) <==> x < Pow2(n) && y < Pow2(n)
  {
    if x != 0 && y != 0 {
      if n == 0 {
        OrPositive(x, y);
      } else {
        OrBelow(x / 2, y / 2, n - 1);
      }
    }
  }

  lemma OrPositive(x: nat, y: nat)
    requires x > 0
    ensures Or(x, y) > 0
  {
  }
}
