/** Fixed-width integers of the source as unbounded ones. */
module Integers {
  const TWO31: int := 0x8000_0000
  const TWO32: int := 0x1_0000_0000
  const TWO64: int := 0x1_0000_0000_0000_0000

  type Byte = x: nat | x < 256
  type Uint32 = x: nat | x < TWO32

  /** A wider value converted to a 32-bit `int`: the one that differs by a multiple of 2^32. */
  function AsInt32(n: int): (r: int)
    ensures -TWO31 <= r < TWO31
    ensures exists k :: n == r + k * TWO32
  {
    assert n == (n + TWO31) % TWO32 - TWO31 + (n + TWO31) / TWO32 * TWO32;
    (n + TWO31) % TWO32 - TWO31
  }

  lemma AsInt32Fits(n: int)
    requires -TWO31 <= n < TWO31
    ensures AsInt32(n) == n
  {
  }

  /** The conversion keeps the sign exactly for the lower half of every 2^32 values. */
  lemma AsInt32NonNegativeIff(n: int)
    ensures AsInt32(n) >= 0 <==> n % TWO32 < TWO31
    ensures AsInt32(n) >= 0 ==> AsInt32(n) == n % TWO32
  {
    var q, r := n / TWO32, n % TWO32;
    assert n == q * TWO32 + r;
    if r < TWO31 {
      Residue(n + TWO31, q, r + TWO31);
    } else {
      Residue(n + TWO31, q + 1, r - TWO31);
    }
  }

  lemma Residue(n: int, q: int, r: int)
    requires n == q * TWO32 + r && 0 <= r < TWO32
    ensures n % TWO32 == r && n / TWO32 == q
  {
    assert n == (n / TWO32) * TWO32 + n % TWO32;
  }

  lemma NoWrap(n: nat)
    requires n < TWO32
    ensures n % TWO32 == n
  {
  }
}
