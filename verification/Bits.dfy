/** Bit vectors as numbers. */
module Bits {
  lemma OrOfShifts(a: bv8, b: bv8, c: bv8, d: bv8)
    ensures ((d as bv32) | ((c as bv32) << 8) | ((b as bv32) << 16) | ((a as bv32) << 24)) as nat ==
            (a as nat) * 0x100_0000 + (b as nat) * 0x1_0000 + (c as nat) * 0x100 + (d as nat)
  {
  }

  lemma ByteFits(n: nat)
    requires n < 256
    ensures (n as bv8) as nat == n
  {
  }

  lemma WordFits(x: bv32, n: nat)
    requires x as nat == n
    ensures n < 0x1_0000_0000 && x == n as bv32
  {
  }

  lemma JoinedBits(a: bv8, b: bv8, c: bv8, d: bv8, n: nat, x: bv32)
    requires n == (a as nat) * 0x100_0000 + (b as nat) * 0x1_0000 + (c as nat) * 0x100 + (d as nat)
    requires x == ((d as bv32) | ((c as bv32) << 8) | ((b as bv32) << 16) | ((a as bv32) << 24))
    ensures n < 0x1_0000_0000 && x == n as bv32
  {
    OrOfShifts(a, b, c, d);
    WordFits(x, n);
  }

  /** Four bytes, most significant first, joined by shifts, are their number. */
  lemma JoinedBytes(a: nat, b: nat, c: nat, d: nat, n: nat, x: bv32)
    requires a < 256 && b < 256 && c < 256 && d < 256
    requires n == a * 0x100_0000 + b * 0x1_0000 + c * 0x100 + d
    requires x == (((d as bv8) as bv32) | (((c as bv8) as bv32) << 8) |
                   (((b as bv8) as bv32) << 16) | (((a as bv8) as bv32) << 24))
    ensures n < 0x1_0000_0000 && x == n as bv32
  {
    ByteFits(a);
    ByteFits(b);
    ByteFits(c);
    ByteFits(d);
    JoinedBits(a as bv8, b as bv8, c as bv8, d as bv8, n, x);
  }

  /** A word made of four bytes is their number. */
  lemma CutBytes(x: bv32, a: bv8, b: bv8, c: bv8, d: bv8)
    requires x == ((d as bv32) | ((c as bv32) << 8) | ((b as bv32) << 16) | ((a as bv32) << 24))
    ensures x as nat == (a as nat) * 0x100_0000 + (b as nat) * 0x1_0000 + (c as nat) * 0x100 + (d as nat)
  {
    OrOfShifts(a, b, c, d);
  }

  /** Bit by bit, where `x` and `y` agree, so does the majority. */
  lemma PairWins(x: bv32, y: bv32, z: bv32)
    ensures ((x & y) ^ (x & z) ^ (y & z)) & !(x ^ y) == x & !(x ^ y)
  {
  }

  lemma MajorityRotates(x: bv32, y: bv32, z: bv32)
    ensures (x & y) ^ (x & z) ^ (y & z) == (y & z) ^ (y & x) ^ (z & x)
  {
  }
}
