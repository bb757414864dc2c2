/** Address blocks: the arithmetic behind prefixes. */
module Blocks {

  const TWO_32 := 0x1_0000_0000

  function Pow2(n: nat): (p: nat)
    ensures p >= 1
  {
    if n == 0 then 1 else 2 * Pow2(n - 1)
  }

  /** `a` with its host bits cleared, for blocks of `size` addresses. */
  function Masked(a: nat, size: nat): (m: nat)
    requires size > 0
    ensures m <= a < m + size
  {
    a - a % size
  }

  lemma {:induction false} PowerSplit(a: nat, b: nat)
    ensures Pow2(a + b) == Pow2(a) * Pow2(b)
    decreases a
  {
    if a > 0 {
      PowerSplit(a - 1, b);
      assert Pow2(a + b) == 2 * Pow2(a - 1 + b);
    }
  }

  lemma MulMonotone(a: nat, b: nat, s: nat)
    ensures a <= b ==> a * s <= b * s
  {
  }

  lemma DivideBlock(q: nat, s: nat, r: nat)
    requires r < s
    ensures (q * s + r) / s == q && (q * s + r) % s == r
  {
    var d := (q * s + r) / s;
    assert q * s + r == d * s + (q * s + r) % s;
    MulMonotone(d + 1, q, s);
    MulMonotone(q + 1, d, s);
    assert (d + 1) * s == d * s + s && (q + 1) * s == q * s + s;
  }

  /** A block of addresses contains exactly the sums of its first address and an index below its size. */
  lemma BlockMembers(addr: nat, s: nat, a: nat)
    requires s > 0
    ensures Masked(a, s) == Masked(addr, s) <==> Masked(addr, s) <= a < Masked(addr, s) + s
  {
    var q := addr / s;
    assert addr == q * s + addr % s;
    if Masked(addr, s) <= a < Masked(addr, s) + s {
      DivideBlock(q, s, a - q * s);
    }
  }

  /** A block inside a space of `n` blocks ends inside it. */
  lemma BlockFits(addr: nat, s: nat, n: nat)
    requires s > 0 && addr < n * s
    ensures Masked(addr, s) + s <= n * s
  {
    var q := addr / s;
    assert addr == q * s + addr % s;
    MulMonotone(n, q, s);
    MulMonotone(q + 1, n, s);
    assert (q + 1) * s == q * s + s;
  }

  lemma PowerOf32()
    ensures Pow2(32) == TWO_32
  {
    assert Pow2(8) == 256;
    PowerSplit(8, 8);
    PowerSplit(16, 16);
  }
}
