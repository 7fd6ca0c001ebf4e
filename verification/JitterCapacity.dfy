/**
 The jitter-buffer capacity of `_aiortc_media_patches.py`: the configured value is
 used if `x & (x - 1)` finds nothing wrong with it, and video buffers are widened to it.
 */
module JitterCapacity {

  /** Python's `&` on integers of any size, negative ones in two's complement. */
  function And(x: int, y: int): int
    decreases Magnitude(x) + Magnitude(y)
  {
    if x == 0 || y == 0 then 0
    else if x == -1 then y
    else if y == -1 then x
    else 2 * And(x / 2, y / 2) + if x % 2 == 1 && y % 2 == 1 then 1 else 0
  }

  function Magnitude(x: int): nat {
    if x < 0 then -x else x
  }

  function Pow2(n: nat): nat {
    if n == 0 then 1 else 2 * Pow2(n - 1)
  }

  const FALLBACK := 2048

  /** The value `JITTER_CAPACITY` ends up with. */
  function Accepted(configured: int): int {
    if And(configured, configured - 1) != 0 then FALLBACK else configured
  }

  /** `_patched_jb_init`: the capacity a buffer is created with. */
  function Patched(capacity: int, isVideo: bool, jitterCapacity: int): int {
    if isVideo && capacity < jitterCapacity then jitterCapacity else capacity
  }

  ghost predicate IsPow2(x: int) {
    exists n: nat :: x == Pow2(n)
  }

  lemma Pow2Doubles(y: int)
    requires y > 0
    ensures IsPow2(2 * y) <==> IsPow2(y)
  {
    if n: nat :| y == Pow2(n) {
      assert 2 * y == Pow2(n + 1);
    }
    if n: nat :| 2 * y == Pow2(n) {
      assert n > 0 && y == Pow2(n - 1);
    }
  }

  lemma OddIsNotPow2(y: int)
    requires y > 0
    ensures !IsPow2(2 * y + 1)
  {
    forall n: nat ensures 2 * y + 1 != Pow2(n) {
    }
  }

  lemma AndOfEven(y: int)
    requires y > 0
    ensures And(2 * y, 2 * y - 1) == 2 * And(y, y - 1)
  {
    assert (2 * y) / 2 == y && (2 * y - 1) / 2 == y - 1 && (2 * y) % 2 == 0;
  }

  lemma AndOfOdd(y: int)
    requires y > 0
    ensures And(2 * y + 1, 2 * y) == 2 * y
  {
    assert (2 * y + 1) / 2 == y && (2 * y) / 2 == y && (2 * y) % 2 == 0;
    AndSelf(y);
  }

  /** For positive numbers the bit trick tells powers of two from the rest. */
  lemma {:induction false} AndIsZeroIff(x: int)
    requires x > 0
    ensures And(x, x - 1) == 0 <==> IsPow2(x)
    decreases x
  {
    var y := x / 2;
    if x == 1 {
      assert x == Pow2(0);
    } else if x % 2 == 0 {
      AndIsZeroIff(y);
      AndOfEven(y);
      Pow2Doubles(y);
    } else {
      AndOfOdd(y);
      OddIsNotPow2(y);
    }
  }

  lemma {:induction false} AndSelf(x: int)
    requires x >= 0
    ensures And(x, x) == x
    decreases x
  {
    if x > 0 {
      AndSelf(x / 2);
    }
  }

  /** No negative number passes. */
  lemma {:induction false} AndOfNegative(x: int)
    requires x < 0
    ensures And(x, x - 1) < 0
    decreases -x
  {
    if x < -1 {
      if x % 2 == 0 {
        AndOfNegative(x / 2);
        assert (x - 1) / 2 == x / 2 - 1;
      } else {
        assert (x - 1) / 2 == x / 2;
        AndSelfNegative(x / 2);
      }
    }
  }

  lemma {:induction false} AndSelfNegative(x: int)
    requires x < 0
    ensures And(x, x) == x
    decreases -x
  {
    if x < -1 {
      AndSelfNegative(x / 2);
    }
  }

  /**
   Every capacity configured leads to a power of two, except zero, which the check lets pass:
   it widens nothing.
   */
  lemma AcceptedCapacity(configured: int)
    ensures if configured == 0 then Accepted(configured) == 0 else IsPow2(Accepted(configured))
    ensures Accepted(configured) == configured <==> configured == 0 || IsPow2(configured)
    ensures Accepted(configured) != configured ==> Accepted(configured) == 2048
  {
    if configured > 0 {
      AndIsZeroIff(configured);
    } else if configured < 0 {
      AndOfNegative(configured);
    }
    FallbackIsPow2();
  }

  lemma FallbackIsPow2()
    ensures IsPow2(FALLBACK)
  {
    assert Pow2(4) == 16;
    assert Pow2(8) == 256;
    assert FALLBACK == Pow2(11);
  }

  /** A video buffer is as wide as configured and asked, and no wider; a power of two stays one; audio is left alone. */
  lemma PatchedCapacity(capacity: int, isVideo: bool, configured: int)
    requires IsPow2(capacity)
    ensures var r := Patched(capacity, isVideo, Accepted(configured));
            && IsPow2(r) && r >= capacity
            && (isVideo ==> r >= Accepted(configured))
            && r in {capacity, Accepted(configured)}
            && (!isVideo ==> r == capacity)
  {
    AcceptedCapacity(configured);
    var n: nat :| capacity == Pow2(n);
    Pow2Positive(n);
  }

  lemma {:induction false} Pow2Positive(n: nat)
    ensures Pow2(n) > 0
  {
    if n > 0 {
      Pow2Positive(n - 1);
    }
  }
}
