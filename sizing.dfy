/** The hash-table sizing loop `for (x=2; (uint32_t)1<<x < n; x++);
    size = 1<<x;` that both the TURN module (allocation table) and the
    credential database (account table) use. */
module Sizing {
  import opened Net

  lemma {:induction false} Pow2Monotonic(a: nat, b: nat)
    ensures a <= b ==> Pow2(a) <= Pow2(b)
    decreases if a <= b then b - a else 0
  {
    if a < b {
      Pow2Monotonic(a, b - 1);
    }
  }

  /** The table size the loop picks: the least power of two that is at least
      `n` and at least 4.  `n` is a configured `uint32_t`; for values above
      2^31 the shift `1<<32` is undefined in C, so the model asks for
      `n <= 2^31`. */
  method BucketCount(n: u32) returns (x: nat, size: nat)
    requires n <= 0x8000_0000
    ensures 2 <= x <= 31 && size == Pow2(x)
    ensures size >= 4 && size >= n
    ensures forall y: nat :: 2 <= y < x ==> Pow2(y) < n
  {
    x := 2;
    while Pow2(x) < n
      invariant 2 <= x <= 31
      invariant forall y: nat :: 2 <= y < x ==> Pow2(y) < n
      decreases 31 - x
    {
      Pow2At31();
      Pow2Monotonic(31, x);
      x := x + 1;
    }
    size := Pow2(x);
    assert Pow2(2) == 4;
    Pow2Monotonic(2, x);
  }

  lemma Pow2At31()
    ensures Pow2(31) == 0x8000_0000
  {
    assert Pow2(4) == 16;
    assert Pow2(8) == 256;
    assert Pow2(16) == 0x1_0000;
    assert Pow2(24) == 0x100_0000;
  }

  /** The size chosen is the least one: any power of two of at least 4 that
      holds `n` entries is at least as large. */
  lemma {:induction false} BucketCountLeast(n: u32, x: nat, y: nat)
    requires 2 <= x && forall z: nat :: 2 <= z < x ==> Pow2(z) < n
    requires 2 <= y && Pow2(y) >= n
    ensures Pow2(x) <= Pow2(y)
  {
    Pow2Monotonic(x, y);
  }
}
