/** The tables of sha256.cpp, and where FIPS 180-4 says their words come from. */
module Sha256Constants {
  import opened Integers
  import opened Primes

  /** The entries of `sha256_k` as numbers. */
  function K(t: nat): Uint32
    requires t < 64
  {
    KWord(t) as nat
  }

  /** The table `sha256_k`. */
  function KWord(t: nat): bv32
    requires t < 64
  {
    if t < 8 then [0x428a2f98, 0x71374491, 0xb5c0fbcf, 0xe9b5dba5, 0x3956c25b, 0x59f111f1, 0x923f82a4, 0xab1c5ed5][t]
    else if t < 16 then [0xd807aa98, 0x12835b01, 0x243185be, 0x550c7dc3, 0x72be5d74, 0x80deb1fe, 0x9bdc06a7, 0xc19bf174][t - 8]
    else if t < 24 then [0xe49b69c1, 0xefbe4786, 0x0fc19dc6, 0x240ca1cc, 0x2de92c6f, 0x4a7484aa, 0x5cb0a9dc, 0x76f988da][t - 16]
    else if t < 32 then [0x983e5152, 0xa831c66d, 0xb00327c8, 0xbf597fc7, 0xc6e00bf3, 0xd5a79147, 0x06ca6351, 0x14292967][t - 24]
    else if t < 40 then [0x27b70a85, 0x2e1b2138, 0x4d2c6dfc, 0x53380d13, 0x650a7354, 0x766a0abb, 0x81c2c92e, 0x92722c85][t - 32]
    else if t < 48 then [0xa2bfe8a1, 0xa81a664b, 0xc24b8b70, 0xc76c51a3, 0xd192e819, 0xd6990624, 0xf40e3585, 0x106aa070][t - 40]
    else if t < 56 then [0x19a4c116, 0x1e376c08, 0x2748774c, 0x34b0bcb5, 0x391c0cb3, 0x4ed8aa4a, 0x5b9cca4f, 0x682e6ff3][t - 48]
    else [0x748f82ee, 0x78a5636f, 0x84c87814, 0x8cc70208, 0x90befffa, 0xa4506ceb, 0xbef9a3f7, 0xc67178f2][t - 56]
  }

  /** The words of the hash value that `init` stores as numbers. */
  function H(t: nat): Uint32
    requires t < 8
  {
    HWord(t) as nat
  }

  /** The hash value that `init` stores. */
  function HWord(t: nat): bv32
    requires t < 8
  {
    [0x6a09e667, 0xbb67ae85, 0x3c6ef372, 0xa54ff53a, 0x510e527f, 0x9b05688c, 0x1f83d9ab, 0x5be0cd19][t]
  }

  /** `n` and the fraction `k` / 2^32 are the cube root of `p`, to 32 bits after the point. */
  predicate IsCubeRoot(p: nat, n: nat, k: Uint32) {
    var c := n * 0x1_0000_0000 + k;
    c * c * c <= p * 0x1_0000_0000_0000_0000_0000_0000 < (c + 1) * (c + 1) * (c + 1)
  }

  /** `n` and the fraction `k` / 2^32 are the square root of `p`, to 32 bits after the point. */
  predicate IsSquareRoot(p: nat, n: nat, k: Uint32) {
    var c := n * 0x1_0000_0000 + k;
    c * c <= p * 0x1_0000_0000_0000_0000 < (c + 1) * (c + 1)
  }

  lemma CubesIncrease(c: nat, d: nat)
    requires c < d
    ensures (c + 1) * (c + 1) * (c + 1) <= d * d * d
  {
    var e := c + 1;
    ProductsIncrease(e, d, e, d);
    ProductsIncrease(e * e, d * d, e, d);
  }

  lemma ProductsIncrease(a: nat, b: nat, c: nat, d: nat)
    requires a <= b && c <= d
    ensures a * c <= b * d
  {
    assert a * c <= b * c <= b * d;
  }

  /** A number has only one cube root to 32 bits, so that the words are all that section 4.2.2 allows. */
  lemma CubeRootIsUnique(p: nat, m: nat, j: Uint32, n: nat, k: Uint32)
    requires IsCubeRoot(p, m, j) && IsCubeRoot(p, n, k)
    ensures m == n && j == k
  {
    var c, d := m * 0x1_0000_0000 + j, n * 0x1_0000_0000 + k;
    if c < d {
      CubesIncrease(c, d);
    } else if d < c {
      CubesIncrease(d, c);
    }
  }

  /** And only one square root. */
  lemma SquareRootIsUnique(p: nat, m: nat, j: Uint32, n: nat, k: Uint32)
    requires IsSquareRoot(p, m, j) && IsSquareRoot(p, n, k)
    ensures m == n && j == k
  {
    var c, d := m * 0x1_0000_0000 + j, n * 0x1_0000_0000 + k;
    if c < d {
      SquaresIncrease(c, d);
    } else if d < c {
      SquaresIncrease(d, c);
    }
  }

  lemma SquaresIncrease(c: nat, d: nat)
    requires c < d
    ensures (c + 1) * (c + 1) <= d * d
  {
    ProductsIncrease(c + 1, d, c + 1, d);
  }

  lemma SameCubeRoot(t: nat, n: nat, p: nat, m: nat, k: Uint32)
    requires t < 64 && Prime(t) == p && n == m && K(t) == k && IsCubeRoot(p, m, k)
    ensures IsCubeRoot(Prime(t), n, K(t))
  {
  }

  lemma SameSquareRoot(t: nat, n: nat, p: nat, m: nat, k: Uint32)
    requires t < 8 && Prime(t) == p && n == m && H(t) == k && IsSquareRoot(p, m, k)
    ensures IsSquareRoot(Prime(t), n, H(t))
  {
  }

  /** Section 4.2.2: the round constants are the fractional cube roots of the first sixty-four primes. */
  lemma RoundConstantsAreCubeRoots(t: nat) returns (n: nat)
    requires t < 64
    ensures IsCubeRoot(Prime(t), n, K(t))
  {
    if t < 4 { n := CubeRootsFrom0(t); }
    else if t < 8 { n := CubeRootsFrom4(t); }
    else if t < 12 { n := CubeRootsFrom8(t); }
    else if t < 16 { n := CubeRootsFrom12(t); }
    else if t < 20 { n := CubeRootsFrom16(t); }
    else if t < 24 { n := CubeRootsFrom20(t); }
    else if t < 28 { n := CubeRootsFrom24(t); }
    else if t < 32 { n := CubeRootsFrom28(t); }
    else if t < 36 { n := CubeRootsFrom32(t); }
    else if t < 40 { n := CubeRootsFrom36(t); }
    else if t < 44 { n := CubeRootsFrom40(t); }
    else if t < 48 { n := CubeRootsFrom44(t); }
    else if t < 52 { n := CubeRootsFrom48(t); }
    else if t < 56 { n := CubeRootsFrom52(t); }
    else if t < 60 { n := CubeRootsFrom56(t); }
    else { n := CubeRootsFrom60(t); }
  }

  /** Section 5.3.3: the initial hash value holds the fractional square roots of the first eight primes. */
  lemma InitialHashIsSquareRoots(t: nat) returns (n: nat)
    requires t < 8
    ensures IsSquareRoot(Prime(t), n, H(t))
  {
    if t < 4 { n := SquareRootsFrom0(t); } else { n := SquareRootsFrom4(t); }
  }

  lemma SquareRootsFrom0(t: nat) returns (n: nat)
    requires t < 4
    ensures IsSquareRoot(Prime(t), n, H(t))
  {
    n := [1, 1, 2, 2][t];
    if t == 0 { SameSquareRoot(t, n, 2, 1, 0x6a09e667); }
    if t == 1 { SameSquareRoot(t, n, 3, 1, 0xbb67ae85); }
    if t == 2 { SameSquareRoot(t, n, 5, 2, 0x3c6ef372); }
    if t == 3 { SameSquareRoot(t, n, 7, 2, 0xa54ff53a); }
  }

  lemma SquareRootsFrom4(t: nat) returns (n: nat)
    requires 4 <= t < 8
    ensures IsSquareRoot(Prime(t), n, H(t))
  {
    n := [3, 3, 4, 4][t - 4];
    if t == 4 { SameSquareRoot(t, n, 11, 3, 0x510e527f); }
    if t == 5 { SameSquareRoot(t, n, 13, 3, 0x9b05688c); }
    if t == 6 { SameSquareRoot(t, n, 17, 4, 0x1f83d9ab); }
    if t == 7 { SameSquareRoot(t, n, 19, 4, 0x5be0cd19); }
  }

  lemma CubeRootsFrom0(t: nat) returns (n: nat)
    requires 0 <= t < 4
    ensures IsCubeRoot(Prime(t), n, K(t))
  {
    n := [1, 1, 1, 1][t - 0];
    if t == 0 { SameCubeRoot(t, n, 2, 1, 0x428a2f98); }
    if t == 1 { SameCubeRoot(t, n, 3, 1, 0x71374491); }
    if t == 2 { SameCubeRoot(t, n, 5, 1, 0xb5c0fbcf); }
    if t == 3 { SameCubeRoot(t, n, 7, 1, 0xe9b5dba5); }
  }

  lemma CubeRootsFrom4(t: nat) returns (n: nat)
    requires 4 <= t < 8
    ensures IsCubeRoot(Prime(t), n, K(t))
  {
    n := [2, 2, 2, 2][t - 4];
    if t == 4 { SameCubeRoot(t, n, 11, 2, 0x3956c25b); }
    if t == 5 { SameCubeRoot(t, n, 13, 2, 0x59f111f1); }
    if t == 6 { SameCubeRoot(t, n, 17, 2, 0x923f82a4); }
    if t == 7 { SameCubeRoot(t, n, 19, 2, 0xab1c5ed5); }
  }

  lemma CubeRootsFrom8(t: nat) returns (n: nat)
    requires 8 <= t < 12
    ensures IsCubeRoot(Prime(t), n, K(t))
  {
    n := [2, 3, 3, 3][t - 8];
    if t == 8 { SameCubeRoot(t, n, 23, 2, 0xd807aa98); }
    if t == 9 { SameCubeRoot(t, n, 29, 3, 0x12835b01); }
    if t == 10 { SameCubeRoot(t, n, 31, 3, 0x243185be); }
    if t == 11 { SameCubeRoot(t, n, 37, 3, 0x550c7dc3); }
  }

  lemma CubeRootsFrom12(t: nat) returns (n: nat)
    requires 12 <= t < 16
    ensures IsCubeRoot(Prime(t), n, K(t))
  {
    n := [3, 3, 3, 3][t - 12];
    if t == 12 { SameCubeRoot(t, n, 41, 3, 0x72be5d74); }
    if t == 13 { SameCubeRoot(t, n, 43, 3, 0x80deb1fe); }
    if t == 14 { SameCubeRoot(t, n, 47, 3, 0x9bdc06a7); }
    if t == 15 { SameCubeRoot(t, n, 53, 3, 0xc19bf174); }
  }

  lemma CubeRootsFrom16(t: nat) returns (n: nat)
    requires 16 <= t < 20
    ensures IsCubeRoot(Prime(t), n, K(t))
  {
    n := [3, 3, 4, 4][t - 16];
    if t == 16 { SameCubeRoot(t, n, 59, 3, 0xe49b69c1); }
    if t == 17 { SameCubeRoot(t, n, 61, 3, 0xefbe4786); }
    if t == 18 { SameCubeRoot(t, n, 67, 4, 0x0fc19dc6); }
    if t == 19 { SameCubeRoot(t, n, 71, 4, 0x240ca1cc); }
  }

  lemma CubeRootsFrom20(t: nat) returns (n: nat)
    requires 20 <= t < 24
    ensures IsCubeRoot(Prime(t), n, K(t))
  {
    n := [4, 4, 4, 4][t - 20];
    if t == 20 { SameCubeRoot(t, n, 73, 4, 0x2de92c6f); }
    if t == 21 { SameCubeRoot(t, n, 79, 4, 0x4a7484aa); }
    if t == 22 { SameCubeRoot(t, n, 83, 4, 0x5cb0a9dc); }
    if t == 23 { SameCubeRoot(t, n, 89, 4, 0x76f988da); }
  }

  lemma CubeRootsFrom24(t: nat) returns (n: nat)
    requires 24 <= t < 28
    ensures IsCubeRoot(Prime(t), n, K(t))
  {
    n := [4, 4, 4, 4][t - 24];
    if t == 24 { SameCubeRoot(t, n, 97, 4, 0x983e5152); }
    if t == 25 { SameCubeRoot(t, n, 101, 4, 0xa831c66d); }
    if t == 26 { SameCubeRoot(t, n, 103, 4, 0xb00327c8); }
    if t == 27 { SameCubeRoot(t, n, 107, 4, 0xbf597fc7); }
  }

  lemma CubeRootsFrom28(t: nat) returns (n: nat)
    requires 28 <= t < 32
    ensures IsCubeRoot(Prime(t), n, K(t))
  {
    n := [4, 4, 5, 5][t - 28];
    if t == 28 { SameCubeRoot(t, n, 109, 4, 0xc6e00bf3); }
    if t == 29 { SameCubeRoot(t, n, 113, 4, 0xd5a79147); }
    if t == 30 { SameCubeRoot(t, n, 127, 5, 0x06ca6351); }
    if t == 31 { SameCubeRoot(t, n, 131, 5, 0x14292967); }
  }

  lemma CubeRootsFrom32(t: nat) returns (n: nat)
    requires 32 <= t < 36
    ensures IsCubeRoot(Prime(t), n, K(t))
  {
    n := [5, 5, 5, 5][t - 32];
    if t == 32 { SameCubeRoot(t, n, 137, 5, 0x27b70a85); }
    if t == 33 { SameCubeRoot(t, n, 139, 5, 0x2e1b2138); }
    if t == 34 { SameCubeRoot(t, n, 149, 5, 0x4d2c6dfc); }
    if t == 35 { SameCubeRoot(t, n, 151, 5, 0x53380d13); }
  }

  lemma CubeRootsFrom36(t: nat) returns (n: nat)
    requires 36 <= t < 40
    ensures IsCubeRoot(Prime(t), n, K(t))
  {
    n := [5, 5, 5, 5][t - 36];
    if t == 36 { SameCubeRoot(t, n, 157, 5, 0x650a7354); }
    if t == 37 { SameCubeRoot(t, n, 163, 5, 0x766a0abb); }
    if t == 38 { SameCubeRoot(t, n, 167, 5, 0x81c2c92e); }
    if t == 39 { SameCubeRoot(t, n, 173, 5, 0x92722c85); }
  }

  lemma CubeRootsFrom40(t: nat) returns (n: nat)
    requires 40 <= t < 44
    ensures IsCubeRoot(Prime(t), n, K(t))
  {
    n := [5, 5, 5, 5][t - 40];
    if t == 40 { SameCubeRoot(t, n, 179, 5, 0xa2bfe8a1); }
    if t == 41 { SameCubeRoot(t, n, 181, 5, 0xa81a664b); }
    if t == 42 { SameCubeRoot(t, n, 191, 5, 0xc24b8b70); }
    if t == 43 { SameCubeRoot(t, n, 193, 5, 0xc76c51a3); }
  }

  lemma CubeRootsFrom44(t: nat) returns (n: nat)
    requires 44 <= t < 48
    ensures IsCubeRoot(Prime(t), n, K(t))
  {
    n := [5, 5, 5, 6][t - 44];
    if t == 44 { SameCubeRoot(t, n, 197, 5, 0xd192e819); }
    if t == 45 { SameCubeRoot(t, n, 199, 5, 0xd6990624); }
    if t == 46 { SameCubeRoot(t, n, 211, 5, 0xf40e3585); }
    if t == 47 { SameCubeRoot(t, n, 223, 6, 0x106aa070); }
  }

  lemma CubeRootsFrom48(t: nat) returns (n: nat)
    requires 48 <= t < 52
    ensures IsCubeRoot(Prime(t), n, K(t))
  {
    n := [6, 6, 6, 6][t - 48];
    if t == 48 { SameCubeRoot(t, n, 227, 6, 0x19a4c116); }
    if t == 49 { SameCubeRoot(t, n, 229, 6, 0x1e376c08); }
    if t == 50 { SameCubeRoot(t, n, 233, 6, 0x2748774c); }
    if t == 51 { SameCubeRoot(t, n, 239, 6, 0x34b0bcb5); }
  }

  lemma CubeRootsFrom52(t: nat) returns (n: nat)
    requires 52 <= t < 56
    ensures IsCubeRoot(Prime(t), n, K(t))
  {
    n := [6, 6, 6, 6][t - 52];
    if t == 52 { SameCubeRoot(t, n, 241, 6, 0x391c0cb3); }
    if t == 53 { SameCubeRoot(t, n, 251, 6, 0x4ed8aa4a); }
    if t == 54 { SameCubeRoot(t, n, 257, 6, 0x5b9cca4f); }
    if t == 55 { SameCubeRoot(t, n, 263, 6, 0x682e6ff3); }
  }

  lemma CubeRootsFrom56(t: nat) returns (n: nat)
    requires 56 <= t < 60
    ensures IsCubeRoot(Prime(t), n, K(t))
  {
    n := [6, 6, 6, 6][t - 56];
    if t == 56 { SameCubeRoot(t, n, 269, 6, 0x748f82ee); }
    if t == 57 { SameCubeRoot(t, n, 271, 6, 0x78a5636f); }
    if t == 58 { SameCubeRoot(t, n, 277, 6, 0x84c87814); }
    if t == 59 { SameCubeRoot(t, n, 281, 6, 0x8cc70208); }
  }

  lemma CubeRootsFrom60(t: nat) returns (n: nat)
    requires 60 <= t < 64
    ensures IsCubeRoot(Prime(t), n, K(t))
  {
    n := [6, 6, 6, 6][t - 60];
    if t == 60 { SameCubeRoot(t, n, 283, 6, 0x90befffa); }
    if t == 61 { SameCubeRoot(t, n, 293, 6, 0xa4506ceb); }
    if t == 62 { SameCubeRoot(t, n, 307, 6, 0xbef9a3f7); }
    if t == 63 { SameCubeRoot(t, n, 311, 6, 0xc67178f2); }
  }
}
