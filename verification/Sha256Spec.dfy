/**
  SHA-256 as FIPS 180-4 defines it: the message schedule, the compression of one block, the padding of a
  whole message and the digest. The algorithm is stated over an algebra of word operations, so that what
  it does with words and what the words are can be reasoned about separately.
 */
module Sha256Spec {
  import opened Integers

  type Block = s: seq<Byte> | |s| == BLOCK_SIZE witness seq(BLOCK_SIZE, _ => 0)
  type Quad = s: seq<Byte> | |s| == 4 witness [0, 0, 0, 0]

  const BLOCK_SIZE: nat := 64
  const ROUNDS: nat := 64

  /** The operations on words: sections 4.1.2, 4.2.2 and 5.3.3 and the byte order of section 3.1. */
  datatype WordOps<!W> = WordOps(
    add: (W, W) -> W,
    ch: (W, W, W) -> W,
    maj: (W, W, W) -> W,
    bigSigma0: W -> W,
    bigSigma1: W -> W,
    smallSigma0: W -> W,
    smallSigma1: W -> W,
    pack: Quad -> W,
    unpack: W -> Quad,
    roundConstant: nat -> W,
    initialHash: nat -> W)

  /** The eight working variables of section 6.2.2, and also a hash value H0 to H7. */
  datatype Registers<W> = Registers(a: W, b: W, c: W, d: W, e: W, f: W, g: W, h: W)

  function Load<W>(s: seq<W>): Registers<W>
    requires |s| == 8
  {
    Registers(s[0], s[1], s[2], s[3], s[4], s[5], s[6], s[7])
  }

  /** The bytes of word `t` of a block. */
  function QuadAt(block: Block, t: nat): Quad
    requires t < 16
  {
    block[4 * t..4 * t + 4]
  }

  /** Word `t` of the schedule of a block (section 6.2.2, step 1). */
  ghost function Schedule<W>(ops: WordOps<W>, block: Block, t: nat): W
    requires t < ROUNDS
  {
    if t < 16 then
      ops.pack(QuadAt(block, t))
    else
      ops.add(ops.add(ops.add(
                        ops.smallSigma1(Schedule(ops, block, t - 2)),
                        Schedule(ops, block, t - 7)),
                      ops.smallSigma0(Schedule(ops, block, t - 15))),
              Schedule(ops, block, t - 16))
  }

  /** The 64 schedule words of a block. */
  ghost function MessageSchedule<W>(ops: WordOps<W>, block: Block): (ws: seq<W>)
    ensures |ws| == ROUNDS
  {
    seq(ROUNDS, t requires 0 <= t < ROUNDS => Schedule(ops, block, t))
  }

  /** One round (section 6.2.2, step 3). */
  function Round<W>(ops: WordOps<W>, r: Registers<W>, k: W, w: W): Registers<W> {
    var t1 := ops.add(ops.add(ops.add(ops.add(r.h, ops.bigSigma1(r.e)), ops.ch(r.e, r.f, r.g)), k), w);
    var t2 := ops.add(ops.bigSigma0(r.a), ops.maj(r.a, r.b, r.c));
    Registers(ops.add(t1, t2), r.a, r.b, r.c, ops.add(r.d, t1), r.e, r.f, r.g)
  }

  /** The working variables after one round for each of `ws`, the first words of the schedule. */
  ghost function Rounds<W>(ops: WordOps<W>, r: Registers<W>, ws: seq<W>): Registers<W>
    decreases |ws|
  {
    if ws == [] then r
    else
      var t := |ws| - 1;
      Round(ops, Rounds(ops, r, ws[..t]), ops.roundConstant(t), ws[t])
  }

  /** The hash value after one more block (section 6.2.2, steps 2 to 4). */
  ghost function Compress<W>(ops: WordOps<W>, h: Registers<W>, block: Block): Registers<W> {
    var v := Rounds(ops, h, MessageSchedule(ops, block));
    Registers(
      ops.add(h.a, v.a), ops.add(h.b, v.b), ops.add(h.c, v.c), ops.add(h.d, v.d),
      ops.add(h.e, v.e), ops.add(h.f, v.f), ops.add(h.g, v.g), ops.add(h.h, v.h))
  }

  /** The hash value after every whole block of `s`. */
  ghost function HashBlocks<W>(ops: WordOps<W>, h: Registers<W>, s: seq<Byte>): Registers<W>
    decreases |s|
  {
    if |s| < BLOCK_SIZE then h
    else HashBlocks(ops, Compress(ops, h, s[..BLOCK_SIZE]), s[BLOCK_SIZE..])
  }

  function InitialHash<W>(ops: WordOps<W>): Registers<W> {
    Registers(
      ops.initialHash(0), ops.initialHash(1), ops.initialHash(2), ops.initialHash(3),
      ops.initialHash(4), ops.initialHash(5), ops.initialHash(6), ops.initialHash(7))
  }

  function Zeros(n: nat): seq<Byte> { seq(n, _ => 0) }

  /** The `width` low-order bytes of `n`, most significant first. */
  function BigEndian(n: nat, width: nat): (s: seq<Byte>)
    ensures |s| == width
  {
    if width == 0 then [] else BigEndian(n / 256, width - 1) + [n % 256]
  }

  /** The number of zero bytes between the 0x80 marker and the length field: the least that fills a block. */
  function ZeroCount(n: nat): (k: nat)
    ensures k < BLOCK_SIZE && (n + 1 + k + 8) % BLOCK_SIZE == 0
  {
    (119 - n % BLOCK_SIZE) % BLOCK_SIZE
  }

  /** Section 5.1.1: a one bit, zero bits, and the bit length in 64 bits. */
  function Pad(m: seq<Byte>): seq<Byte> {
    m + [0x80] + Zeros(ZeroCount(|m|)) + BigEndian(8 * |m|, 8)
  }

  /** The bytes of some words, in order. */
  function UnpackAll<W>(ops: WordOps<W>, ws: seq<W>): (d: seq<Byte>)
    ensures |d| == 4 * |ws|
  {
    if ws == [] then [] else UnpackAll(ops, ws[..|ws| - 1]) + ops.unpack(ws[|ws| - 1])
  }

  function Store<W>(h: Registers<W>): (s: seq<W>)
    ensures |s| == 8 && Load(s) == h
  {
    [h.a, h.b, h.c, h.d, h.e, h.f, h.g, h.h]
  }

  /** The bytes of a hash value. */
  function Digest<W>(ops: WordOps<W>, h: Registers<W>): (d: seq<Byte>)
    ensures |d| == 32
  {
    UnpackAll(ops, Store(h))
  }

  /** The digest of a message (section 6.2). */
  ghost function Hash<W>(ops: WordOps<W>, m: seq<Byte>): (d: seq<Byte>)
    ensures |d| == 32
  {
    Digest(ops, HashBlocks(ops, InitialHash(ops), Pad(m)))
  }

  /** Hashing `a`, which is `n` whole blocks, and then `b` hashes `a + b`. */
  lemma {:induction false} HashBlocksConcat<W>(
      ops: WordOps<W>, h: Registers<W>, a: seq<Byte>, n: nat, b: seq<Byte>)
    requires |a| == BLOCK_SIZE * n
    ensures HashBlocks(ops, h, a + b) == HashBlocks(ops, HashBlocks(ops, h, a), b)
    decreases n
  {
    if n == 0 {
      assert a + b == b;
    } else {
      assert (a + b)[..BLOCK_SIZE] == a[..BLOCK_SIZE];
      assert (a + b)[BLOCK_SIZE..] == a[BLOCK_SIZE..] + b;
      HashBlocksConcat(ops, Compress(ops, h, a[..BLOCK_SIZE]), a[BLOCK_SIZE..], n - 1, b);
    }
  }

  lemma HashBlocksSnoc<W>(ops: WordOps<W>, h: Registers<W>, a: seq<Byte>, n: nat, sub: Block)
    requires |a| == BLOCK_SIZE * n
    ensures HashBlocks(ops, h, a + sub) == Compress(ops, HashBlocks(ops, h, a), sub)
  {
    HashBlocksConcat(ops, h, a, n, sub);
    var g := HashBlocks(ops, h, a);
    assert sub[..BLOCK_SIZE] == sub && sub[BLOCK_SIZE..] == [];
    assert HashBlocks(ops, g, sub) == HashBlocks(ops, Compress(ops, g, sub), []);
  }

  // ---------- algebras that agree operation by operation give the same hash ----------

  ghost predicate Agree<W(!new)>(o: WordOps<W>, p: WordOps<W>) {
    && (forall x, y :: o.add(x, y) == p.add(x, y))
    && (forall x, y, z :: o.ch(x, y, z) == p.ch(x, y, z))
    && (forall x, y, z :: o.maj(x, y, z) == p.maj(x, y, z))
    && (forall x :: o.bigSigma0(x) == p.bigSigma0(x))
    && (forall x :: o.bigSigma1(x) == p.bigSigma1(x))
    && (forall x :: o.smallSigma0(x) == p.smallSigma0(x))
    && (forall x :: o.smallSigma1(x) == p.smallSigma1(x))
    && (forall q :: o.pack(q) == p.pack(q))
    && (forall x :: o.unpack(x) == p.unpack(x))
    && (forall t :: 0 <= t < ROUNDS ==> o.roundConstant(t) == p.roundConstant(t))
    && (forall t :: 0 <= t < 8 ==> o.initialHash(t) == p.initialHash(t))
  }

  lemma {:induction false} AgreeSchedule<W(!new)>(o: WordOps<W>, p: WordOps<W>, block: Block, t: nat)
    requires Agree(o, p) && t < ROUNDS
    ensures Schedule(o, block, t) == Schedule(p, block, t)
  {
    if 16 <= t {
      AgreeSchedule(o, p, block, t - 2);
      AgreeSchedule(o, p, block, t - 7);
      AgreeSchedule(o, p, block, t - 15);
      AgreeSchedule(o, p, block, t - 16);
    }
  }

  lemma {:induction false} AgreeRounds<W(!new)>(o: WordOps<W>, p: WordOps<W>, r: Registers<W>, ws: seq<W>)
    requires Agree(o, p) && |ws| <= ROUNDS
    ensures Rounds(o, r, ws) == Rounds(p, r, ws)
    decreases |ws|
  {
    if ws != [] {
      AgreeRounds(o, p, r, ws[..|ws| - 1]);
    }
  }

  lemma AgreeCompress<W(!new)>(o: WordOps<W>, p: WordOps<W>, h: Registers<W>, block: Block)
    requires Agree(o, p)
    ensures Compress(o, h, block) == Compress(p, h, block)
  {
    forall t | 0 <= t < ROUNDS
      ensures MessageSchedule(o, block)[t] == MessageSchedule(p, block)[t]
    {
      AgreeSchedule(o, p, block, t);
    }
    assert MessageSchedule(o, block) == MessageSchedule(p, block);
    AgreeRounds(o, p, h, MessageSchedule(o, block));
  }

  lemma {:induction false} AgreeHashBlocks<W(!new)>(o: WordOps<W>, p: WordOps<W>, h: Registers<W>, s: seq<Byte>)
    requires Agree(o, p)
    ensures HashBlocks(o, h, s) == HashBlocks(p, h, s)
    decreases |s|
  {
    if BLOCK_SIZE <= |s| {
      AgreeCompress(o, p, h, s[..BLOCK_SIZE]);
      AgreeHashBlocks(o, p, Compress(o, h, s[..BLOCK_SIZE]), s[BLOCK_SIZE..]);
    }
  }

  lemma {:induction false} AgreeUnpackAll<W(!new)>(o: WordOps<W>, p: WordOps<W>, ws: seq<W>)
    requires Agree(o, p)
    ensures UnpackAll(o, ws) == UnpackAll(p, ws)
  {
    if ws != [] {
      AgreeUnpackAll(o, p, ws[..|ws| - 1]);
    }
  }

  lemma AgreeHash<W(!new)>(o: WordOps<W>, p: WordOps<W>, m: seq<Byte>)
    requires Agree(o, p)
    ensures Hash(o, m) == Hash(p, m)
  {
    var h := HashBlocks(o, InitialHash(o), Pad(m));
    AgreeHashBlocks(o, p, InitialHash(o), Pad(m));
    AgreeUnpackAll(o, p, Store(h));
  }
}
