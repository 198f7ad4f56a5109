/**
  The streaming hash of sha256.cpp: `Init`, any number of `Update`s, then `Final`.
  The 32-bit counters are natural numbers below 2^32; every place where they wrap is written out.
 */
module Sha256 {
  import opened Integers
  import opened Sha256Spec

  class SHA256<W(0)> {
    const ops: WordOps<W>
    var totLen: Uint32
    var len: Uint32
    const block: array<Byte>
    const h: array<W>

    /** Everything passed to `Update` since `Init`. */
    ghost var absorbed: seq<Byte>

    /** How many whole blocks that makes, and how often their byte count has wrapped around in `totLen`. */
    ghost var blocks: nat
    ghost var wraps: nat

    ghost predicate Shape()
      reads this
    {
      block.Length == 2 * BLOCK_SIZE && h.Length == 8
    }

    /** The streaming invariant: `h` has hashed the whole blocks and `block` holds the tail. */
    ghost predicate Streaming()
      reads this, block, h
    {
      && Shape()
      && len < BLOCK_SIZE
      && Tracks(ops, absorbed, blocks, wraps, totLen, block[..len], Load(h[..]))
    }

    constructor (ops: WordOps<W>)
      ensures Shape() && fresh(block) && fresh(h) && this.ops == ops
    {
      this.ops := ops;
      totLen, len := 0, 0;
      block := new Byte[2 * BLOCK_SIZE];
      h := new W[8];
      absorbed, blocks, wraps := [], 0, 0;
    }

    method Init()
      requires Shape()
      modifies this, h
      ensures Streaming() && absorbed == []
    {
      for j := 0 to 8
        invariant forall t :: 0 <= t < j ==> h[t] == ops.initialHash(t)
      {
        h[j] := ops.initialHash(j);
      }
      len, totLen := 0, 0;
      absorbed, blocks, wraps := [], 0, 0;
    }

    /** The schedule of one block, expanded in place. */
    method Expand(sub: Block) returns (w: array<W>)
      ensures fresh(w) && w[..] == MessageSchedule(ops, sub)
    {
      w := new W[ROUNDS];
      for j := 0 to 16
        invariant forall t :: 0 <= t < j ==> w[t] == ops.pack(QuadAt(sub, t))
      {
        w[j] := ops.pack(QuadAt(sub, j));
      }
      ExpandRest(sub, w);
    }

    method ExpandRest(sub: Block, w: array<W>)
      requires w.Length == ROUNDS && forall t :: 0 <= t < 16 ==> w[t] == ops.pack(QuadAt(sub, t))
      modifies w
      ensures w[..] == MessageSchedule(ops, sub)
    {
      for j := 16 to ROUNDS
        invariant forall t :: 0 <= t < j ==> w[t] == Schedule(ops, sub, t)
      {
        w[j] := ops.add(ops.add(ops.add(ops.smallSigma1(w[j - 2]), w[j - 7]),
                                ops.smallSigma0(w[j - 15])), w[j - 16]);
      }
    }

    /** One step of the register loop: the eight words of `wv` move down by one. */
    method Shift(wv: array<W>, k: W, w: W)
      requires wv.Length == 8
      modifies wv
      ensures Load(wv[..]) == Round(ops, old(Load(wv[..])), k, w)
    {
      var t1 := ops.add(ops.add(ops.add(ops.add(wv[7], ops.bigSigma1(wv[4])),
                                        ops.ch(wv[4], wv[5], wv[6])), k), w);
      var t2 := ops.add(ops.bigSigma0(wv[0]), ops.maj(wv[0], wv[1], wv[2]));
      wv[7] := wv[6];
      wv[6] := wv[5];
      wv[5] := wv[4];
      wv[4] := ops.add(wv[3], t1);
      wv[3] := wv[2];
      wv[2] := wv[1];
      wv[1] := wv[0];
      wv[0] := ops.add(t1, t2);
    }

    /** The register loop over the whole schedule. */
    method RunRounds(w: array<W>, wv: array<W>)
      requires w.Length == ROUNDS && wv.Length == 8 && w != wv
      modifies wv
      ensures Load(wv[..]) == Rounds(ops, old(Load(wv[..])), w[..])
    {
      for j := 0 to ROUNDS
        invariant Load(wv[..]) == Rounds(ops, old(Load(wv[..])), w[..j])
      {
        Shift(wv, ops.roundConstant(j), w[j]);
        assert w[..j + 1][..j] == w[..j];
      }
      assert w[..ROUNDS] == w[..];
    }

    method TransformBlock(sub: Block)
      requires Shape()
      modifies h
      ensures Load(h[..]) == Compress(ops, old(Load(h[..])), sub)
    {
      var w := Expand(sub);
      var wv := new W[8];
      for j := 0 to 8
        invariant wv[..j] == h[..j]
        invariant h[..] == old(h[..]) && w[..] == MessageSchedule(ops, sub)
      {
        wv[j] := h[j];
      }
      assert wv[..] == h[..];
      RunRounds(w, wv);
      AddBack(wv);
    }

    method AddBack(wv: array<W>)
      requires Shape() && wv.Length == 8 && wv != h
      modifies h
      ensures forall t :: 0 <= t < 8 ==> h[t] == ops.add(old(h[t]), wv[t])
    {
      for j := 0 to 8
        invariant forall t :: 0 <= t < j ==> h[t] == ops.add(old(h[t]), wv[t])
        invariant forall t :: j <= t < 8 ==> h[t] == old(h[t])
      {
        h[j] := ops.add(h[j], wv[j]);
      }
    }

    /** `transform`: hashes `blockNb` consecutive blocks. The offset of a block is a signed `int`. */
    method Transform(message: seq<Byte>, blockNb: nat)
      requires Shape() && BLOCK_SIZE * blockNb <= |message| && BLOCK_SIZE * blockNb <= TWO31
      modifies h
      ensures Load(h[..]) == HashBlocks(ops, old(Load(h[..])), message[..BLOCK_SIZE * blockNb])
    {
      for i := 0 to blockNb
        invariant Load(h[..]) == HashBlocks(ops, old(Load(h[..])), message[..BLOCK_SIZE * i])
      {
        NextBlock(ops, old(Load(h[..])), message, i);
        TransformBlock(message[BLOCK_SIZE * i..BLOCK_SIZE * i + BLOCK_SIZE]);
      }
    }

    /** `memcpy` into `block`. */
    method Copy(at: nat, data: seq<Byte>)
      requires Shape() && at + |data| <= block.Length
      modifies block
      ensures block[..at + |data|] == old(block[..at]) + data
    {
      for i := 0 to |data|
        invariant block[..at + i] == old(block[..at]) + data[..i]
      {
        block[at + i] := data[i];
      }
    }

    /**
      The sum that tells whether a block is complete has 32 bits. A message so long that it wraps is not absorbed:
      the stream forgets bytes instead. Between the two bounds the block offsets do not fit an `int`.
     */
    method Update(message: seq<Byte>)
      requires Streaming() && |message| < TWO32
      requires len + |message| < TWO31 + 2 * BLOCK_SIZE || TWO32 <= len + |message|
      modifies this, block, h
      ensures Streaming()
      ensures absorbed == if old(len) + |message| < TWO32 then old(absorbed) + message
                          else old(absorbed)[..|old(absorbed)| + |message| - TWO32]
    {
      ghost var tail := block[..len];
      var tmpLen := BLOCK_SIZE - len;
      var remLen := if |message| < tmpLen then |message| else tmpLen;
      Copy(len, message[..remLen]);
      if len + |message| >= TWO32 {
        Forget(len + |message| - TWO32, tail);
      } else if len + |message| < BLOCK_SIZE {
        assert message[..remLen] == message;
        TracksWithinBlock(ops, absorbed, blocks, wraps, totLen, tail, Load(h[..]), message);
        len := len + |message|;
        absorbed := absorbed + message;
      } else {
        Absorb(message, remLen, tail);
      }
    }

    /** The early return of `update` after the sum has wrapped to `rest`. */
    method Forget(rest: nat, ghost tail: seq<Byte>)
      requires Shape() && Tracks(ops, absorbed, blocks, wraps, totLen, tail, Load(h[..]))
      requires rest < len == |tail| < BLOCK_SIZE && block[..len] == tail
      modifies this
      ensures Streaming() && absorbed == old(absorbed)[..|old(absorbed)| - (|tail| - rest)]
    {
      ghost var n := |absorbed| - (|tail| - rest);
      TracksShorter(ops, absorbed, blocks, wraps, totLen, tail, Load(h[..]), rest, n);
      assert block[..rest] == tail[..rest];
      absorbed, len := absorbed[..n], rest;
    }

    /** The part of `update` that runs when the buffered block is complete. */
    method Absorb(message: seq<Byte>, remLen: nat, ghost tail: seq<Byte>)
      requires Shape() && Tracks(ops, absorbed, blocks, wraps, totLen, tail, Load(h[..]))
      requires |tail| < BLOCK_SIZE && remLen == BLOCK_SIZE - |tail| <= |message|
      requires |tail| + |message| < TWO31 + 2 * BLOCK_SIZE
      requires block[..BLOCK_SIZE] == tail + message[..remLen]
      modifies this, block, h
      ensures Streaming() && absorbed == old(absorbed) + message
    {
      var newLen := |message| - remLen;
      var blockNb, rest := newLen / BLOCK_SIZE, newLen % BLOCK_SIZE;
      var count := (totLen + BLOCK_SIZE * (blockNb + 1)) % TWO32;
      ghost var extra := (totLen + BLOCK_SIZE * (blockNb + 1)) / TWO32;
      AbsorbCounters(newLen, totLen, blockNb, rest, extra, count);
      var shifted := message[remLen..];
      var last := shifted[BLOCK_SIZE * blockNb..BLOCK_SIZE * blockNb + rest];
      AbsorbTracks(ops, absorbed, blocks, wraps, totLen, tail, Load(h[..]), message, remLen, shifted, blockNb, rest, extra, count);
      Commit(shifted, blockNb, last, count, absorbed + message, blocks + blockNb + 1, wraps + extra);
    }

    method Commit(shifted: seq<Byte>, blockNb: nat, last: seq<Byte>, count: Uint32, ghost m: seq<Byte>, ghost n: nat, ghost w: nat)
      requires Shape() && BLOCK_SIZE * blockNb <= |shifted| && BLOCK_SIZE * blockNb <= TWO31 && |last| < BLOCK_SIZE
      requires Tracks(ops, m, n, w, count, last,
                      HashBlocks(ops, HashBlocks(ops, Load(h[..]), block[..BLOCK_SIZE]), shifted[..BLOCK_SIZE * blockNb]))
      modifies this, block, h
      ensures Streaming() && absorbed == m
    {
      TransformBuffered(shifted, blockNb);
      Keep(last);
      totLen := count;
      absorbed, blocks, wraps := m, n, w;
    }

    /** The completed block in `block`, then `blockNb` blocks straight from the input. */
    method TransformBuffered(shifted: seq<Byte>, blockNb: nat)
      requires Shape() && BLOCK_SIZE * blockNb <= |shifted| && BLOCK_SIZE * blockNb <= TWO31
      modifies h
      ensures Load(h[..]) == HashBlocks(ops, HashBlocks(ops, old(Load(h[..])), block[..BLOCK_SIZE]),
                                        shifted[..BLOCK_SIZE * blockNb])
    {
      assert block[..][..BLOCK_SIZE * 1] == block[..BLOCK_SIZE];
      Transform(block[..], 1);
      Transform(shifted, blockNb);
    }

    method Keep(last: seq<Byte>)
      requires Shape() && |last| < BLOCK_SIZE
      modifies this`len, block
      ensures len == |last| && block[..len] == last
    {
      Copy(0, last);
      assert old(block[..0]) + last == last;
      len := |last|;
    }

    /** The end of the message in `block`: the marker, zeros, and the low 32 bits of the bit count. */
    method Finish(pmLen: nat, lenB: Uint32)
      requires Shape() && len + 5 <= pmLen <= block.Length
      modifies block
      ensures block[..pmLen] == old(block[..len]) + ([0x80] + Zeros(pmLen - len - 5) + BigEndian(lenB, 4))
    {
      for i := len to pmLen
        invariant block[..i] == old(block[..len]) + Zeros(i - len)
      {
        block[i] := 0;
      }
      block[len] := 0x80;
      assert block[..pmLen - 4] == old(block[..len]) + ([0x80] + Zeros(pmLen - len - 5));
      StoreLength(pmLen - 4, lenB);
    }

    /** `SHA2_UNPACK32` of the bit count. */
    method StoreLength(at: nat, lenB: Uint32)
      requires Shape() && at + 4 <= block.Length
      modifies block
      ensures block[..at + 4] == old(block[..at]) + BigEndian(lenB, 4)
    {
      BigEndian4(lenB);
      block[at + 3] := lenB % 256;
      block[at + 2] := lenB / 0x100 % 256;
      block[at + 1] := lenB / 0x1_0000 % 256;
      block[at] := lenB / 0x100_0000 % 256;
    }

    method Final() returns (digest: seq<Byte>)
      requires Streaming()
      modifies block, h
      ensures digest == Digest(ops, HashBlocks(ops, InitialHash(ops), WrappedPad(absorbed)))
    {
      HashEnd();
      digest := Output();
    }

    /** Pads the tail, which is `n` bytes into the message, and says how many blocks it fills. */
    method PadTail(ghost n: nat, ghost blocks: nat, ghost wraps: nat) returns (blockNb: nat)
      requires Shape() && len < BLOCK_SIZE
      requires n == BLOCK_SIZE * blocks + len && BLOCK_SIZE * blocks == TWO32 * wraps + totLen
      modifies block
      ensures 1 <= blockNb <= 2 && block[..BLOCK_SIZE * blockNb] == old(block[..len]) + Trailer(n)
    {
      LastBlocksFit(len);
      TrailerFromCounters(n, blocks, wraps, totLen, len);
      blockNb := if BLOCK_SIZE - 9 < len % BLOCK_SIZE then 2 else 1;
      var lenB := 8 * ((totLen + len) % TWO32) % TWO32;
      Finish(BLOCK_SIZE * blockNb, lenB);
    }

    /** Hashes the one or two blocks that the padded tail fills. */
    method HashEnd()
      requires Streaming()
      modifies block, h
      ensures Load(h[..]) == HashBlocks(ops, InitialHash(ops), WrappedPad(absorbed))
    {
      PadLastBlocks(ops, absorbed, blocks, wraps, totLen, block[..len], Load(h[..]));
      var blockNb := PadTail(|absorbed|, blocks, wraps);
      TransformLast(blockNb);
    }

    method TransformLast(blockNb: nat)
      requires Shape() && 1 <= blockNb <= 2
      modifies h
      ensures Load(h[..]) == HashBlocks(ops, old(Load(h[..])), block[..BLOCK_SIZE * blockNb])
    {
      assert block[..][..BLOCK_SIZE * blockNb] == block[..BLOCK_SIZE * blockNb];
      Transform(block[..], blockNb);
    }

    method Output() returns (digest: seq<Byte>)
      requires Shape()
      ensures digest == Digest(ops, Load(h[..]))
    {
      digest := [];
      for i := 0 to 8
        invariant digest == UnpackAll(ops, h[..i])
      {
        digest := digest + ops.unpack(h[i]);
        assert h[..i + 1][..i] == h[..i];
      }
      assert h[..8] == h[..] == Store(Load(h[..]));
    }
  }

  // ---------- the padding that `Final` builds ----------

  /** The total input, in bytes, from which the 32-bit bit count of `Final` wraps: 2^29. */
  const LENGTH_LIMIT: nat := 0x2000_0000

  /** How many blocks hold a tail of `rest` bytes and the padding. */
  function LastBlocks(rest: nat): nat { if BLOCK_SIZE - 9 < rest then 2 else 1 }

  /** The padding `Final` appends to a message of `n` bytes. */
  function Trailer(n: nat): seq<Byte> {
    var rest := n % BLOCK_SIZE;
    [0x80] + Zeros(BLOCK_SIZE * LastBlocks(rest) - rest - 5) + BigEndian(8 * n % TWO32, 4)
  }

  function WrappedPad(m: seq<Byte>): seq<Byte> { m + Trailer(|m|) }

  lemma LastBlocksFit(n: nat)
    requires n < BLOCK_SIZE
    ensures n % BLOCK_SIZE == n && n + 9 <= BLOCK_SIZE * LastBlocks(n) <= 2 * BLOCK_SIZE
  {
  }

  lemma BigEndianStep(n: nat, w: nat)
    ensures BigEndian(n, w + 1) == BigEndian(n / 256, w) + [n % 256]
  {
  }

  lemma Divide256(n: nat)
    ensures n / 256 / 256 == n / 0x1_0000 && n / 256 / 256 / 256 == n / 0x100_0000
  {
  }

  lemma BigEndian4(n: nat)
    ensures BigEndian(n, 4) == [n / 0x100_0000 % 256, n / 0x1_0000 % 256, n / 0x100 % 256, n % 256]
  {
    Divide256(n);
    BigEndianStep(n, 3);
    BigEndianStep(n / 256, 2);
    BigEndianStep(n / 256 / 256, 1);
    BigEndianStep(n / 256 / 256 / 256, 0);
  }

  lemma BitCount(n: nat, wraps: nat, low: nat)
    requires n == TWO32 * wraps + low
    ensures 8 * (low % TWO32) % TWO32 == 8 * n % TWO32
  {
    WrapAround(low);
    var q, r := low / TWO32, low % TWO32;
    assert 8 * n == 8 * r + TWO32 * (8 * (wraps + q));
    AddMultiple(8 * r, 8 * (wraps + q));
  }

  lemma AddMultiple(r: nat, k: nat)
    ensures (r + TWO32 * k) % TWO32 == r % TWO32
  {
  }

  lemma BlockRemainder(n: nat, blocks: nat, rest: nat)
    requires n == BLOCK_SIZE * blocks + rest && rest < BLOCK_SIZE
    ensures n % BLOCK_SIZE == rest
  {
  }

  /** The padding of `m` in terms of the counters that `Final` reads. */
  lemma TrailerFromCounters(n: nat, blocks: nat, wraps: nat, totLen: nat, rest: nat)
    requires n == BLOCK_SIZE * blocks + rest && BLOCK_SIZE * blocks == TWO32 * wraps + totLen && rest < BLOCK_SIZE
    ensures Trailer(n) == [0x80] + Zeros(BLOCK_SIZE * LastBlocks(rest) - rest - 5) +
                          BigEndian(8 * ((totLen + rest) % TWO32) % TWO32, 4)
  {
    BitCount(n, wraps, totLen + rest);
    BlockRemainder(n, blocks, rest);
  }

  lemma PadLastBlocks<W>(
      ops: WordOps<W>, m: seq<Byte>, blocks: nat, wraps: nat,
      totLen: nat, tail: seq<Byte>, hash: Registers<W>)
    requires Tracks(ops, m, blocks, wraps, totLen, tail, hash)
    ensures HashBlocks(ops, hash, tail + Trailer(|m|)) == HashBlocks(ops, InitialHash(ops), WrappedPad(m))
  {
    ExtendTail(m, BLOCK_SIZE * blocks, Trailer(|m|));
    Rejoin(WrappedPad(m), BLOCK_SIZE * blocks);
    HashBlocksConcat(ops, InitialHash(ops), m[..BLOCK_SIZE * blocks], blocks, tail + Trailer(|m|));
  }

  lemma Rejoin<T>(s: seq<T>, cut: nat)
    requires cut <= |s|
    ensures s == s[..cut] + s[cut..]
  {
  }

  function Pow256(w: nat): nat { if w == 0 then 1 else 256 * Pow256(w - 1) }

  /** Only the low `w` bytes of a number show in its `w` big-endian bytes. */
  lemma {:induction false} BigEndianLow(n: nat, q: nat, w: nat)
    ensures BigEndian(n + Pow256(w) * q, w) == BigEndian(n, w)
  {
    if w != 0 {
      var k := Pow256(w - 1) * q;
      assert n + Pow256(w) * q == n + 256 * k;
      assert (n + 256 * k) / 256 == n / 256 + k && (n + 256 * k) % 256 == n % 256;
      BigEndianLow(n / 256, q, w - 1);
    }
  }

  /** The first `a` of `a + b` big-endian bytes are those of the number without its last `b` bytes. */
  lemma {:induction false} BigEndianHigh(n: nat, a: nat, b: nat)
    ensures BigEndian(n, a + b) == BigEndian(DropBytes(n, b), a) + BigEndian(n, b)
  {
    if b != 0 {
      BigEndianHigh(n / 256, a, b - 1);
    }
  }

  function DropBytes(n: nat, b: nat): nat { if b == 0 then n else DropBytes(n / 256, b - 1) }

  lemma SplitBigEndian(n: nat, a: nat, b: nat, hi: nat, lo: nat)
    requires hi == DropBytes(n, b) && n == lo + Pow256(b) * hi
    ensures BigEndian(n, a + b) == BigEndian(hi, a) + BigEndian(lo, b)
  {
    BigEndianHigh(n, a, b);
    BigEndianLow(lo, hi, b);
  }

  lemma DropFourBytes(n: nat)
    ensures DropBytes(n, 4) == n / TWO32 && Pow256(4) == TWO32
  {
    assert DropBytes(n, 4) == DropBytes(n / 256, 3) == DropBytes(n / 256 / 256, 2);
    assert DropBytes(n / 256 / 256, 2) == DropBytes(n / 256 / 256 / 256, 1) == n / 256 / 256 / 256 / 256;
  }

  /** The 64-bit length field is the upper 32 bits and then the 32 bits that `Final` writes. */
  lemma LengthField(n: nat)
    ensures BigEndian(n, 8) == BigEndian(n / TWO32, 4) + BigEndian(n % TWO32, 4)
  {
    DropFourBytes(n);
    WrapAround(n);
    SplitBigEndian(n, 4, 4, n / TWO32, n % TWO32);
  }

  lemma UpperLengthIsZero(n: nat)
    requires n < TWO32
    ensures BigEndian(n, 4) == Zeros(4) <==> n == 0
  {
    BigEndian4(n);
    assert Zeros(4) == [0, 0, 0, 0];
    if BigEndian(n, 4) == Zeros(4) {
      assert BigEndian(n, 4)[0] == 0 && BigEndian(n, 4)[1] == 0 && BigEndian(n, 4)[2] == 0 && BigEndian(n, 4)[3] == 0;
      BytesOfZero(n);
    }
  }

  lemma BytesOfZero(n: nat)
    requires n < TWO32
    requires n % 256 == 0 && n / 0x100 % 256 == 0 && n / 0x1_0000 % 256 == 0 && n / 0x100_0000 % 256 == 0
    ensures n == 0
  {
  }

  lemma ZeroCounts(n: nat)
    ensures BLOCK_SIZE * LastBlocks(n % BLOCK_SIZE) - n % BLOCK_SIZE - 5 == ZeroCount(n) + 4
  {
  }

  lemma TrailerLayout(n: nat, k: nat, low: seq<Byte>)
    requires k == ZeroCount(n) && low == BigEndian(8 * n % TWO32, 4)
    ensures Trailer(n) == [0x80] + Zeros(k) + (Zeros(4) + low)
  {
    ZeroCounts(n);
    assert Zeros(k + 4) == Zeros(k) + Zeros(4);
  }

  /** The padding of the standard and that of `Final` differ at most in four bytes. */
  lemma PadLayouts(m: seq<Byte>, k: nat, high: seq<Byte>, low: seq<Byte>)
    requires k == ZeroCount(|m|)
    requires high == BigEndian(8 * |m| / TWO32, 4) && low == BigEndian(8 * |m| % TWO32, 4)
    ensures Pad(m) == m + [0x80] + Zeros(k) + high + low
    ensures WrappedPad(m) == m + [0x80] + Zeros(k) + Zeros(4) + low
  {
    LengthField(8 * |m|);
    TrailerLayout(|m|, k, low);
    Reassociate(m, [0x80], Zeros(k), Zeros(4), low);
    Reassociate(m, [0x80], Zeros(k), high, low);
  }

  lemma Reassociate<T>(a: seq<T>, b: seq<T>, c: seq<T>, d: seq<T>, e: seq<T>)
    ensures a + (b + c + (d + e)) == a + b + c + d + e == a + b + c + (d + e)
  {
  }

  /**
    On the messages the standard covers (fewer than 2^64 bits), `Final` pads as section 5.1.1 of FIPS 180-4
    does exactly when the message is shorter than 2^29 bytes.
   */
  lemma PaddingIsStandardIffShort(m: seq<Byte>)
    requires 8 * |m| < TWO32 * TWO32
    ensures WrappedPad(m) == Pad(m) <==> |m| < LENGTH_LIMIT
  {
    var q, k := 8 * |m| / TWO32, ZeroCount(|m|);
    var high, low := BigEndian(q, 4), BigEndian(8 * |m| % TWO32, 4);
    PadLayouts(m, k, high, low);
    UpperLengthIsZero(q);
    SameMiddle(m + [0x80] + Zeros(k), high, Zeros(4), low);
  }

  lemma SameMiddle<T>(a: seq<T>, b: seq<T>, c: seq<T>, d: seq<T>)
    requires |b| == |c|
    ensures a + b + d == a + c + d <==> b == c
  {
    assert (a + b + d)[|a|..|a| + |b|] == b && (a + c + d)[|a|..|a| + |c|] == c;
  }

  /** `Final` always ends on a block boundary, one or two blocks after the last whole block of the message. */
  lemma PaddingFillsBlocks(m: seq<Byte>)
    ensures |WrappedPad(m)| == BLOCK_SIZE * (|m| / BLOCK_SIZE + LastBlocks(|m| % BLOCK_SIZE))
  {
  }

  /** The padding loses nothing, whatever the length: equal padded messages are equal messages. */
  lemma PaddingIsInjective(a: seq<Byte>, b: seq<Byte>)
    requires WrappedPad(a) == WrappedPad(b)
    ensures a == b
  {
    if |a| == |b| {
      assert a == WrappedPad(a)[..|a|];
      assert b == WrappedPad(b)[..|b|];
    } else if |a| < |b| {
      MarkerIsLast(a, |b|);
      MarkerIsLast(b, |b|);
    } else {
      MarkerIsLast(b, |a|);
      MarkerIsLast(a, |a|);
    }
  }

  /** Between the end of the message and the length field, only the marker is not zero. */
  lemma MarkerIsLast(m: seq<Byte>, i: nat)
    requires |m| <= i < |WrappedPad(m)| - 4
    ensures WrappedPad(m)[i] == if i == |m| then 0x80 else 0
  {
  }

  lemma NextBlock<W>(ops: WordOps<W>, h: Registers<W>, message: seq<Byte>, i: nat)
    requires BLOCK_SIZE * (i + 1) <= |message|
    ensures HashBlocks(ops, h, message[..BLOCK_SIZE * (i + 1)]) ==
            Compress(ops, HashBlocks(ops, h, message[..BLOCK_SIZE * i]), message[BLOCK_SIZE * i..BLOCK_SIZE * i + BLOCK_SIZE])
  {
    SliceJoin(message, BLOCK_SIZE * i, BLOCK_SIZE);
    HashBlocksSnoc(ops, h, message[..BLOCK_SIZE * i], i, message[BLOCK_SIZE * i..BLOCK_SIZE * i + BLOCK_SIZE]);
  }

  lemma SliceJoin<T>(s: seq<T>, at: nat, n: nat)
    requires at + n <= |s|
    ensures s[..at + n] == s[..at] + s[at..at + n]
  {
  }

  /** What the fields of a stream must hold once it has absorbed `m`. */
  ghost predicate Tracks<W>(
      ops: WordOps<W>, m: seq<Byte>, blocks: nat, wraps: nat,
      totLen: nat, tail: seq<Byte>, hash: Registers<W>)
  {
    && |m| == BLOCK_SIZE * blocks + |tail|
    && BLOCK_SIZE * blocks == TWO32 * wraps + totLen
    && tail == m[BLOCK_SIZE * blocks..]
    && hash == HashBlocks(ops, InitialHash(ops), m[..BLOCK_SIZE * blocks])
  }

  lemma TracksWithinBlock<W>(
      ops: WordOps<W>, m: seq<Byte>, blocks: nat, wraps: nat,
      totLen: nat, tail: seq<Byte>, hash: Registers<W>, message: seq<Byte>)
    requires Tracks(ops, m, blocks, wraps, totLen, tail, hash)
    ensures Tracks(ops, m + message, blocks, wraps, totLen, tail + message, hash)
  {
    ExtendTail(m, BLOCK_SIZE * blocks, message);
  }

  /** The last bytes of the tail are forgotten. */
  lemma TracksShorter<W>(
      ops: WordOps<W>, m: seq<Byte>, blocks: nat, wraps: nat,
      totLen: nat, tail: seq<Byte>, hash: Registers<W>, rest: nat, n: nat)
    requires Tracks(ops, m, blocks, wraps, totLen, tail, hash) && rest <= |tail|
    requires n == BLOCK_SIZE * blocks + rest && n <= |m|
    ensures Tracks(ops, m[..n], blocks, wraps, totLen, tail[..rest], hash)
  {
    ShorterTail(m, BLOCK_SIZE * blocks, rest, n);
  }

  lemma ShorterTail<T>(m: seq<T>, cut: nat, rest: nat, n: nat)
    requires n == cut + rest <= |m|
    ensures m[..n][..cut] == m[..cut] && m[..n][cut..] == m[cut..][..rest]
  {
  }

  /** More input that completes the tail to `n` whole blocks. */
  lemma TracksFill<W>(
      ops: WordOps<W>, m: seq<Byte>, blocks: nat, wraps: nat,
      totLen: nat, tail: seq<Byte>, hash: Registers<W>, x: seq<Byte>, n: nat)
    requires Tracks(ops, m, blocks, wraps, totLen, tail, hash) && |tail| + |x| == BLOCK_SIZE * n
    ensures Tracks(ops, m + x, blocks + n, wraps, totLen + BLOCK_SIZE * n, [], HashBlocks(ops, hash, tail + x))
  {
    ExtendTail(m, BLOCK_SIZE * blocks, x);
    Rejoin(m + x, BLOCK_SIZE * blocks);
    TakeAll(m + x, BLOCK_SIZE * (blocks + n));
    HashBlocksConcat(ops, InitialHash(ops), m[..BLOCK_SIZE * blocks], blocks, tail + x);
  }

  lemma TakeAll<T>(s: seq<T>, n: nat)
    requires n == |s|
    ensures s[..n] == s && s[n..] == []
  {
  }

  /** The whole of `update` when it completes a block: `first`, then `middle`, then the new tail `last`. */
  lemma TracksAcrossBlocks<W>(
      ops: WordOps<W>, m: seq<Byte>, blocks: nat, wraps: nat,
      totLen: nat, tail: seq<Byte>, hash: Registers<W>, message: seq<Byte>, k: nat,
      middle: seq<Byte>, n: nat, last: seq<Byte>, extra: nat, count: nat)
    requires Tracks(ops, m, blocks, wraps, totLen, tail, hash)
    requires totLen + BLOCK_SIZE * (n + 1) == TWO32 * extra + count
    requires k <= |message| && |tail| + k == BLOCK_SIZE
    requires message[k..] == middle + last && |middle| == BLOCK_SIZE * n
    ensures Tracks(ops, m + message, blocks + n + 1, wraps + extra, count, last,
                   HashBlocks(ops, HashBlocks(ops, hash, tail + message[..k]), middle))
  {
    var m1, h1 := m + message[..k], HashBlocks(ops, hash, tail + message[..k]);
    var m2, h2 := m1 + middle, HashBlocks(ops, h1, middle);
    TracksFill(ops, m, blocks, wraps, totLen, tail, hash, message[..k], 1);
    assert [] + middle == middle;
    TracksFill(ops, m1, blocks + 1, wraps, totLen + BLOCK_SIZE, [], h1, middle, n);
    TracksWithinBlock(ops, m2, blocks + 1 + n, wraps, totLen + BLOCK_SIZE + BLOCK_SIZE * n, [], h2, last);
    assert [] + last == last;
    Pieces(m, message, k, middle, last);
  }

  /** What `Absorb` computes, in the terms of the lemma above. */
  lemma AbsorbTracks<W>(
      ops: WordOps<W>, m: seq<Byte>, blocks: nat, wraps: nat,
      totLen: nat, tail: seq<Byte>, hash: Registers<W>, message: seq<Byte>, k: nat,
      shifted: seq<Byte>, n: nat, rest: nat, extra: nat, count: nat)
    requires Tracks(ops, m, blocks, wraps, totLen, tail, hash)
    requires totLen + BLOCK_SIZE * (n + 1) == TWO32 * extra + count
    requires k <= |message| && |tail| + k == BLOCK_SIZE && shifted == message[k..] && |shifted| == BLOCK_SIZE * n + rest
    ensures Tracks(ops, m + message, blocks + n + 1, wraps + extra, count, shifted[BLOCK_SIZE * n..BLOCK_SIZE * n + rest],
                   HashBlocks(ops, HashBlocks(ops, hash, tail + message[..k]), shifted[..BLOCK_SIZE * n]))
  {
    var middle, last := shifted[..BLOCK_SIZE * n], shifted[BLOCK_SIZE * n..BLOCK_SIZE * n + rest];
    SliceJoin(shifted, BLOCK_SIZE * n, rest);
    TakeAll(shifted, BLOCK_SIZE * n + rest);
    TracksAcrossBlocks(ops, m, blocks, wraps, totLen, tail, hash, message, k, middle, n, last, extra, count);
  }

  lemma Pieces<T>(m: seq<T>, x: seq<T>, k: nat, middle: seq<T>, last: seq<T>)
    requires k <= |x| && x[k..] == middle + last
    ensures m + x == m + x[..k] + middle + last
  {
    assert x == x[..k] + x[k..];
  }

  lemma AbsorbCounters(newLen: nat, totLen: nat, blockNb: nat, rest: nat, extra: nat, count: nat)
    requires blockNb == newLen / BLOCK_SIZE && rest == newLen % BLOCK_SIZE
    requires extra == (totLen + BLOCK_SIZE * (blockNb + 1)) / TWO32
    requires count == (totLen + BLOCK_SIZE * (blockNb + 1)) % TWO32
    ensures newLen == BLOCK_SIZE * blockNb + rest && rest < BLOCK_SIZE
    ensures newLen < TWO31 + BLOCK_SIZE ==> BLOCK_SIZE * blockNb <= TWO31
    ensures totLen + BLOCK_SIZE * (blockNb + 1) == TWO32 * extra + count
  {
    WrapAround(totLen + BLOCK_SIZE * (blockNb + 1));
  }

  lemma WrapAround(n: nat)
    ensures n == TWO32 * (n / TWO32) + n % TWO32
  {
  }

  lemma ExtendTail<T>(m: seq<T>, cut: nat, x: seq<T>)
    requires cut <= |m|
    ensures (m + x)[..cut] == m[..cut] && (m + x)[cut..] == m[cut..] + x
  {
  }

  // ---------- whole messages ----------

  function Concat(chunks: seq<seq<Byte>>): seq<Byte> {
    if chunks == [] then [] else Concat(chunks[..|chunks| - 1]) + chunks[|chunks| - 1]
  }

  /**
    `Init`, one `Update` for each chunk, `Final`: the digest depends on the concatenation alone, and below
    2^29 bytes it is the SHA-256 of the concatenation.
   */
  method HashChunks<W(0)>(ops: WordOps<W>, chunks: seq<seq<Byte>>) returns (digest: seq<Byte>)
    requires forall i :: 0 <= i < |chunks| ==> |chunks[i]| < TWO31
    ensures digest == Digest(ops, HashBlocks(ops, InitialHash(ops), WrappedPad(Concat(chunks))))
    ensures |Concat(chunks)| < LENGTH_LIMIT ==> digest == Hash(ops, Concat(chunks))
  {
    var context := new SHA256(ops);
    context.Init();
    for i := 0 to |chunks|
      invariant fresh(context) && fresh(context.block) && fresh(context.h)
      invariant context.ops == ops && context.Streaming() && context.absorbed == Concat(chunks[..i])
    {
      context.Update(chunks[i]);
      assert chunks[..i + 1][..i] == chunks[..i];
    }
    assert chunks[..|chunks|] == chunks;
    digest := context.Final();
    if |Concat(chunks)| < LENGTH_LIMIT {
      PaddingIsStandardIffShort(Concat(chunks));
    }
  }

  function HexDigit(n: nat): char
    requires n < 16
  {
    "0123456789abcdef"[n]
  }

  /** Two lower-case digits a byte, as `%02x` prints them. */
  function Hex(d: seq<Byte>): (s: string)
    ensures |s| == 2 * |d|
  {
    if d == [] then ""
    else var b := d[|d| - 1]; Hex(d[..|d| - 1]) + [HexDigit(b / 16), HexDigit(b % 16)]
  }

  /** What a lower-case hexadecimal digit stands for. */
  function DigitValue(c: char): int {
    if '0' <= c <= '9' then c as int - '0' as int
    else if 'a' <= c <= 'f' then c as int - 'a' as int + 10
    else -1
  }

  /** Read as lower-case hexadecimal, most significant digit first, the string gives the bytes back. */
  lemma {:induction false} HexReadsBack(d: seq<Byte>, i: nat)
    requires i < |d|
    ensures var hi, lo := DigitValue(Hex(d)[2 * i]), DigitValue(Hex(d)[2 * i + 1]);
            0 <= hi < 16 && 0 <= lo < 16 && hi * 16 + lo == d[i]
  {
    var n := |d| - 1;
    DigitReadsBack(d[n] / 16);
    DigitReadsBack(d[n] % 16);
    if i < n {
      HexReadsBack(d[..n], i);
      assert Hex(d)[..2 * n] == Hex(d[..n]);
    }
  }

  lemma DigitReadsBack(n: nat)
    requires n < 16
    ensures DigitValue(HexDigit(n)) == n
  {
  }

  lemma HexIsInjective(d: seq<Byte>, e: seq<Byte>)
    requires Hex(d) == Hex(e)
    ensures d == e
  {
    assert |d| == |e|;
    forall i | 0 <= i < |d|
      ensures d[i] == e[i]
    {
      HexReadsBack(d, i);
      HexReadsBack(e, i);
    }
  }

  method ToHex(digest: seq<Byte>) returns (s: string)
    ensures s == Hex(digest)
  {
    s := "";
    for i := 0 to |digest|
      invariant s == Hex(digest[..i])
    {
      s := s + [HexDigit(digest[i] / 16), HexDigit(digest[i] % 16)];
      assert digest[..i + 1][..i] == digest[..i];
    }
    assert digest[..|digest|] == digest;
  }

  /** `sha256`: the length of the string is cut to an `unsigned int` on its way to `update`. */
  method Sha256Hex<W(0)>(ops: WordOps<W>, input: seq<Byte>) returns (s: string)
    requires |input| % TWO32 < TWO31
    ensures s == Hex(Digest(ops, HashBlocks(ops, InitialHash(ops), WrappedPad(input[..|input| % TWO32]))))
    ensures |input| < LENGTH_LIMIT ==> s == Hex(Hash(ops, input))
  {
    var len := |input| % TWO32;
    if |input| < LENGTH_LIMIT {
      AddMultiple(|input|, 0);
      assert input[..len] == input;
    }
    var digest := HashOne(ops, input[..len]);
    s := ToHex(digest);
  }

  method HashOne<W(0)>(ops: WordOps<W>, message: seq<Byte>) returns (digest: seq<Byte>)
    requires |message| < TWO31
    ensures digest == Digest(ops, HashBlocks(ops, InitialHash(ops), WrappedPad(message)))
    ensures |message| < LENGTH_LIMIT ==> digest == Hash(ops, message)
  {
    var chunks := [message];
    assert chunks[..0] == [] && Concat(chunks) == Concat(chunks[..0]) + message == message;
    digest := HashChunks(ops, chunks);
  }
}
