/**
  The words of SHA-256: 32-bit vectors, the macros of sha256.h, the constants of sha256.cpp,
  and the two entry points on them.
 */
module Sha256Words {
  import opened Bits
  import opened Integers
  import opened Sha256Spec
  import opened Sha256
  import opened Sha256Constants

  type Word = bv32

  // ---------- the functions of section 4.1.2 of FIPS 180-4 ----------

  /** Addition modulo 2^32. */
  function Add(x: Word, y: Word): Word { x + y }

  function Ch(x: Word, y: Word, z: Word): Word { (x & y) ^ (!x & z) }

  function Maj(x: Word, y: Word, z: Word): Word { (x & y) ^ (x & z) ^ (y & z) }

  function BigSigma0(x: Word): Word { x.RotateRight(2) ^ x.RotateRight(13) ^ x.RotateRight(22) }

  function BigSigma1(x: Word): Word { x.RotateRight(6) ^ x.RotateRight(11) ^ x.RotateRight(25) }

  function SmallSigma0(x: Word): Word { x.RotateRight(7) ^ x.RotateRight(18) ^ (x >> 3) }

  function SmallSigma1(x: Word): Word { x.RotateRight(17) ^ x.RotateRight(19) ^ (x >> 10) }

  /** Where a bit of `x` is set, the choice is that of `y`, and elsewhere that of `z`. */
  lemma ChChooses(x: Word, y: Word, z: Word)
    ensures Ch(x, y, z) & x == y & x && Ch(x, y, z) & !x == z & !x
  {
  }

  /** Where two of the three agree, the majority is theirs. */
  lemma MajVotes(x: Word, y: Word, z: Word)
    ensures Maj(x, y, z) & !(x ^ y) == x & !(x ^ y)
  {
    PairWins(x, y, z);
  }

  /** Which two makes no difference. */
  lemma MajRotates(x: Word, y: Word, z: Word)
    ensures Maj(x, y, z) == Maj(y, z, x)
  {
    MajorityRotates(x, y, z);
  }

  // ---------- the macros of sha256.h, with shift-and-or rotations ----------

  function F1(x: Word): (r: Word)
    ensures r == BigSigma0(x)
  {
    ((x >> 2) | (x << 30)) ^ ((x >> 13) | (x << 19)) ^ ((x >> 22) | (x << 10))
  }

  function F2(x: Word): (r: Word)
    ensures r == BigSigma1(x)
  {
    ((x >> 6) | (x << 26)) ^ ((x >> 11) | (x << 21)) ^ ((x >> 25) | (x << 7))
  }

  function F3(x: Word): (r: Word)
    ensures r == SmallSigma0(x)
  {
    ((x >> 7) | (x << 25)) ^ ((x >> 18) | (x << 14)) ^ (x >> 3)
  }

  function F4(x: Word): (r: Word)
    ensures r == SmallSigma1(x)
  {
    ((x >> 17) | (x << 15)) ^ ((x >> 19) | (x << 13)) ^ (x >> 10)
  }

  /** `SHA2_PACK32`: the big-endian word made of four bytes. */
  function Pack(q: Quad): Word {
    PackBytes(q[0], q[1], q[2], q[3])
  }

  function PackBytes(a: Byte, b: Byte, c: Byte, d: Byte): Word { PackBits(a as bv8, b as bv8, c as bv8, d as bv8) }

  function PackBits(a: bv8, b: bv8, c: bv8, d: bv8): Word {
    (d as Word) | ((c as Word) << 8) | ((b as Word) << 16) | ((a as Word) << 24)
  }

  /** `SHA2_UNPACK32`: the four bytes of a word, most significant first. */
  function Unpack(x: Word): Quad {
    var (a, b, c, d) := UnpackBits(x);
    [a as Byte, b as Byte, c as Byte, d as Byte]
  }

  function UnpackBits(x: Word): (bv8, bv8, bv8, bv8) {
    (((x >> 24) & 0xff) as bv8, ((x >> 16) & 0xff) as bv8, ((x >> 8) & 0xff) as bv8, (x & 0xff) as bv8)
  }

  /** Writing four bytes as a word and reading them back changes nothing. */
  lemma UnpackOfPack(a: bv8, b: bv8, c: bv8, d: bv8)
    ensures UnpackBits(PackBits(a, b, c, d)) == (a, b, c, d)
  {
  }

  /** Nor does the other way round. */
  lemma PackOfUnpack(x: Word)
    ensures var (a, b, c, d) := UnpackBits(x); PackBits(a, b, c, d) == x
  {
  }

  /** The word that four bytes write, most significant first (section 3.1 of FIPS 180-4). */
  function WordOfBytes(q: Quad): Word { Number(q[0], q[1], q[2], q[3]) as Word }

  function Number(a: Byte, b: Byte, c: Byte, d: Byte): Uint32 {
    (a as int) * 0x100_0000 + (b as int) * 0x1_0000 + (c as int) * 0x100 + d as int
  }

  function BytesOfWord(x: Word): Quad { BigEndian(x as nat, 4) }

  lemma PackNumbers(a: Byte, b: Byte, c: Byte, d: Byte)
    ensures PackBytes(a, b, c, d) == Number(a, b, c, d) as Word
  {
    JoinedBytes(a, b, c, d, Number(a, b, c, d), PackBits(a as bv8, b as bv8, c as bv8, d as bv8));
  }

  /** The macro makes the word that the standard reads from four bytes. */
  lemma PackIsStandard(q: Quad)
    ensures Pack(q) == WordOfBytes(q)
  {
    PackNumbers(q[0], q[1], q[2], q[3]);
  }

  lemma DigitsOf(n: nat, a: Byte, b: Byte, c: Byte, d: Byte)
    requires n == (a as int) * 0x100_0000 + (b as int) * 0x1_0000 + (c as int) * 0x100 + d as int
    ensures BigEndian(n, 4) == [a, b, c, d]
  {
    var n1 := (a as int) * 0x1_0000 + (b as int) * 0x100 + c as int;
    var n2 := (a as int) * 0x100 + b as int;
    LastDigit(n, n1, d, 3);
    LastDigit(n1, n2, c, 2);
    LastDigit(n2, a, b, 1);
    LastDigit(a, 0, a, 0);
  }

  lemma LastDigit(n: nat, m: nat, d: Byte, width: nat)
    requires n == m * 256 + d as int
    ensures BigEndian(n, width + 1) == BigEndian(m, width) + [d]
  {
    BigEndianStep(n, width);
    assert n / 256 == m && n % 256 == d as int;
  }

  lemma ValueOfBytes(x: Word, a: bv8, b: bv8, c: bv8, d: bv8)
    requires PackBits(a, b, c, d) == x
    ensures BytesOfWord(x) == [a as nat, b as nat, c as nat, d as nat]
  {
    CutBytes(x, a, b, c, d);
    DigitsOf(x as nat, a as nat, b as nat, c as nat, d as nat);
  }

  /** And writes the four bytes that the standard writes for a word. */
  lemma UnpackIsStandard(x: Word)
    ensures Unpack(x) == BytesOfWord(x)
  {
    var (a, b, c, d) := UnpackBits(x);
    PackOfUnpack(x);
    ValueOfBytes(x, a, b, c, d);
  }

  // ---------- the algebra of the standard and that of the source ----------

  const STANDARD: WordOps<Word> := WordOps(
    Add, Ch, Maj, BigSigma0, BigSigma1, SmallSigma0, SmallSigma1,
    WordOfBytes, BytesOfWord, RoundConstant, InitialWord)

  const MACROS: WordOps<Word> := WordOps(
    Add, Ch, Maj, F1, F2, F3, F4,
    Pack, Unpack, RoundConstant, InitialWord)

  function RoundConstant(t: nat): Word { if t < 64 then KWord(t) else 0 }

  function InitialWord(t: nat): Word { if t < 8 then HWord(t) else 0 }

  /** The macros hash every message as the functions of the standard do. */
  lemma MacrosHashAsStandard(m: seq<Byte>)
    ensures Hash(MACROS, m) == Hash(STANDARD, m)
  {
    forall q: Quad
      ensures Pack(q) == WordOfBytes(q)
    {
      PackIsStandard(q);
    }
    forall x: Word
      ensures Unpack(x) == BytesOfWord(x)
    {
      UnpackIsStandard(x);
    }
    AgreeHash(MACROS, STANDARD, m);
  }

  /** The hash of the source, with its own words, in chunks: SHA-256 of the whole for less than 2^29 bytes. */
  method HashChunksAsStandard(chunks: seq<seq<Byte>>) returns (digest: seq<Byte>)
    requires forall i :: 0 <= i < |chunks| ==> |chunks[i]| < TWO31
    ensures |Concat(chunks)| < LENGTH_LIMIT ==> digest == Hash(STANDARD, Concat(chunks))
  {
    digest := HashChunks(MACROS, chunks);
    MacrosHashAsStandard(Concat(chunks));
  }

  /** And `sha256` prints it. */
  method Sha256AsStandard(input: seq<Byte>) returns (s: string)
    requires |input| % TWO32 < TWO31
    ensures |input| < LENGTH_LIMIT ==> s == Hex(Hash(STANDARD, input))
  {
    s := Sha256Hex(MACROS, input);
    MacrosHashAsStandard(input);
  }
}
