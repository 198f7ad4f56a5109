/**
  SHA-256 of the three bytes "abc", worked out word by word from the definition of the hash. The result is the one
  in the example that the standard's publisher gives with it, so that no part of the definition can be another.
 */
module Sha256Abc {
  import opened Integers
  import opened Bits
  import opened Sha256Spec
  import opened Sha256Words
  import opened Sha256

  const ABC: seq<Byte> := [0x61, 0x62, 0x63]

  const DIGEST: seq<Byte> :=
    [0xba, 0x78, 0x16, 0xbf] + [0x8f, 0x01, 0xcf, 0xea] + [0x41, 0x41, 0x40, 0xde] + [0x5d, 0xae, 0x22, 0x23] +
    [0xb0, 0x03, 0x61, 0xa3] + [0x96, 0x17, 0x7a, 0x9c] + [0xb4, 0x10, 0xff, 0x61] + [0xf2, 0x00, 0x15, 0xad]

  // ---------- words and rounds on numbers ----------

  function NextWord(w2: Word, w7: Word, w15: Word, w16: Word): Word {
    Add(Add(Add(SmallSigma1(w2), w7), SmallSigma0(w15)), w16)
  }

  function T1(e: Word, f: Word, g: Word, h: Word, k: Word, w: Word): Word {
    Add(Add(Add(Add(h, BigSigma1(e)), Ch(e, f, g)), k), w)
  }

  function T2(a: Word, b: Word, c: Word): Word { Add(BigSigma0(a), Maj(a, b, c)) }

  /** What the operations of the standard do with numbers. */
  ghost predicate Counts(ops: WordOps<Word>) {
    && (forall x, y :: ops.add(x, y) == Add(x, y))
    && (forall x, y, z :: ops.ch(x, y, z) == Ch(x, y, z))
    && (forall x, y, z :: ops.maj(x, y, z) == Maj(x, y, z))
    && (forall x :: ops.bigSigma0(x) == BigSigma0(x))
    && (forall x :: ops.bigSigma1(x) == BigSigma1(x))
    && (forall x :: ops.smallSigma0(x) == SmallSigma0(x))
    && (forall x :: ops.smallSigma1(x) == SmallSigma1(x))
    && (forall t :: ops.roundConstant(t) == RoundConstant(t))
    && (forall t :: ops.initialHash(t) == InitialWord(t))
  }

  /** The words of the block, as the operations read them. */
  ghost predicate ReadsAbc(ops: WordOps<Word>, block: Block) {
    && ops.pack(QuadAt(block, 0)) == 0x61626380
    && (forall t :: 1 <= t < 15 ==> ops.pack(QuadAt(block, t)) == 0)
    && ops.pack(QuadAt(block, 15)) == 0x18
  }

  lemma WordStep(ops: WordOps<Word>, block: Block, t: nat)
    requires Counts(ops) && 16 <= t < 64
    ensures Schedule(ops, block, t) ==
            NextWord(Schedule(ops, block, t - 2), Schedule(ops, block, t - 7),
                     Schedule(ops, block, t - 15), Schedule(ops, block, t - 16))
  {
  }

  /** The working variables after `t` rounds. */
  ghost function V(ops: WordOps<Word>, block: Block, t: nat): Registers<Word>
    requires t <= 64
  {
    Rounds(ops, InitialHash(ops), MessageSchedule(ops, block)[..t])
  }

  lemma RoundStep(ops: WordOps<Word>, block: Block, t: nat)
    requires t < 64
    ensures V(ops, block, t + 1) == Round(ops, V(ops, block, t), ops.roundConstant(t), Schedule(ops, block, t))
  {
    var ws := MessageSchedule(ops, block);
    assert ws[..t + 1][..t] == ws[..t] && ws[..t + 1][t] == Schedule(ops, block, t);
  }

  lemma RoundOf(ops: WordOps<Word>, v: Registers<Word>, k: Word, w: Word, t1: Word, a: Word, e: Word)
    requires Counts(ops)
    requires T1(v.e, v.f, v.g, v.h, k, w) == t1 && Add(t1, T2(v.a, v.b, v.c)) == a && Add(v.d, t1) == e
    ensures Round(ops, v, k, w) == Registers(a, v.a, v.b, v.c, e, v.e, v.f, v.g)
  {
  }

  /** One round with known numbers. */
  lemma KnownRound(
      ops: WordOps<Word>, block: Block, t: nat, v: Registers<Word>, k: Word, w: Word, t1: Word, a: Word, e: Word)
    requires Counts(ops) && t < 64 && V(ops, block, t) == v && RoundConstant(t) == k && Schedule(ops, block, t) == w
    requires T1(v.e, v.f, v.g, v.h, k, w) == t1 && Add(t1, T2(v.a, v.b, v.c)) == a && Add(v.d, t1) == e
    ensures V(ops, block, t + 1) == Registers(a, v.a, v.b, v.c, e, v.e, v.f, v.g)
  {
    RoundStep(ops, block, t);
    RoundOf(ops, v, k, w, t1, a, e);
  }

  // ---------- the padded message ----------

  /** One block: the message, the marker, zeros and the length of 24 bits. */
  predicate IsAbcBlock(block: Block) {
    && block[0] == 0x61 && block[1] == 0x62 && block[2] == 0x63 && block[3] == 0x80
    && (forall i :: 4 <= i < 63 ==> block[i] == 0) && block[63] == 0x18
  }

  lemma LengthBytes()
    ensures BigEndian(24, 8) == Zeros(7) + [24]
  {
    LastDigit(24, 0, 24, 7);
    ZeroBytes(7);
  }

  lemma {:induction false} ZeroBytes(n: nat)
    ensures BigEndian(0, n) == Zeros(n)
  {
    if n != 0 {
      ZeroBytes(n - 1);
    }
  }

  lemma PadAbc()
    ensures |Pad(ABC)| == BLOCK_SIZE && IsAbcBlock(Pad(ABC))
  {
    LengthBytes();
    assert |ABC| == 3 && ZeroCount(3) == 52;
  }

  lemma WordOf(q: Quad, a: Byte, b: Byte, c: Byte, d: Byte, x: Word)
    requires q[0] == a && q[1] == b && q[2] == c && q[3] == d && x as nat == Number(a, b, c, d)
    ensures WordOfBytes(q) == x
  {
    WordFits(x, Number(a, b, c, d));
  }

  lemma FirstWord(block: Block)
    requires IsAbcBlock(block)
    ensures WordOfBytes(QuadAt(block, 0)) == 0x61626380
  {
    WordOf(QuadAt(block, 0), 0x61, 0x62, 0x63, 0x80, 0x61626380);
  }

  lemma MiddleWord(block: Block, t: nat)
    requires IsAbcBlock(block) && 1 <= t < 15
    ensures WordOfBytes(QuadAt(block, t)) == 0
  {
    WordOf(QuadAt(block, t), 0, 0, 0, 0, 0);
  }

  lemma LastWord(block: Block)
    requires IsAbcBlock(block)
    ensures WordOfBytes(QuadAt(block, 15)) == 0x18
  {
    WordOf(QuadAt(block, 15), 0, 0, 0, 0x18, 0x18);
  }

  lemma StandardReadsAbc(block: Block)
    requires IsAbcBlock(block)
    ensures ReadsAbc(STANDARD, block)
  {
    FirstWord(block);
    LastWord(block);
    forall t | 1 <= t < 15
      ensures STANDARD.pack(QuadAt(block, t)) == 0
    {
      MiddleWord(block, t);
    }
  }

  lemma StandardCounts()
    ensures Counts(STANDARD)
  {
  }

  // ---------- the schedule ----------

  lemma WordsFrom0(ops: WordOps<Word>, block: Block)
    requires Counts(ops) && ReadsAbc(ops, block)
    ensures Schedule(ops, block, 0) == 0x61626380 && Schedule(ops, block, 1) == 0x00000000
    ensures Schedule(ops, block, 2) == 0x00000000 && Schedule(ops, block, 3) == 0x00000000
  {
  }

  lemma WordsFrom4(ops: WordOps<Word>, block: Block)
    requires Counts(ops) && ReadsAbc(ops, block)
    ensures Schedule(ops, block, 4) == 0x00000000 && Schedule(ops, block, 5) == 0x00000000
    ensures Schedule(ops, block, 6) == 0x00000000 && Schedule(ops, block, 7) == 0x00000000
  {
  }

  lemma WordsFrom8(ops: WordOps<Word>, block: Block)
    requires Counts(ops) && ReadsAbc(ops, block)
    ensures Schedule(ops, block, 8) == 0x00000000 && Schedule(ops, block, 9) == 0x00000000
    ensures Schedule(ops, block, 10) == 0x00000000 && Schedule(ops, block, 11) == 0x00000000
  {
  }

  lemma WordsFrom12(ops: WordOps<Word>, block: Block)
    requires Counts(ops) && ReadsAbc(ops, block)
    ensures Schedule(ops, block, 12) == 0x00000000 && Schedule(ops, block, 13) == 0x00000000
    ensures Schedule(ops, block, 14) == 0x00000000 && Schedule(ops, block, 15) == 0x00000018
  {
  }

  lemma WordsFrom16(ops: WordOps<Word>, block: Block)
    requires Counts(ops) && ReadsAbc(ops, block)
    ensures Schedule(ops, block, 16) == 0x61626380 && Schedule(ops, block, 17) == 0x000f0000
    ensures Schedule(ops, block, 18) == 0x7da86405 && Schedule(ops, block, 19) == 0x600003c6
  {
    WordsFrom0(ops, block);
    WordsFrom4(ops, block);
    WordsFrom8(ops, block);
    WordsFrom12(ops, block);
    WordStep(ops, block, 16);
    assert NextWord(0x00000000, 0x00000000, 0x00000000, 0x61626380) == 0x61626380;
    WordStep(ops, block, 17);
    assert NextWord(0x00000018, 0x00000000, 0x00000000, 0x00000000) == 0x000f0000;
    WordStep(ops, block, 18);
    assert NextWord(0x61626380, 0x00000000, 0x00000000, 0x00000000) == 0x7da86405;
    WordStep(ops, block, 19);
    assert NextWord(0x000f0000, 0x00000000, 0x00000000, 0x00000000) == 0x600003c6;
  }

  lemma WordsFrom20(ops: WordOps<Word>, block: Block)
    requires Counts(ops) && ReadsAbc(ops, block)
    ensures Schedule(ops, block, 20) == 0x3e9d7b78 && Schedule(ops, block, 21) == 0x0183fc00
    ensures Schedule(ops, block, 22) == 0x12dcbfdb && Schedule(ops, block, 23) == 0xe2e2c38e
  {
    WordsFrom4(ops, block);
    WordsFrom8(ops, block);
    WordsFrom12(ops, block);
    WordsFrom16(ops, block);
    WordStep(ops, block, 20);
    assert NextWord(0x7da86405, 0x00000000, 0x00000000, 0x00000000) == 0x3e9d7b78;
    WordStep(ops, block, 21);
    assert NextWord(0x600003c6, 0x00000000, 0x00000000, 0x00000000) == 0x0183fc00;
    WordStep(ops, block, 22);
    assert NextWord(0x3e9d7b78, 0x00000018, 0x00000000, 0x00000000) == 0x12dcbfdb;
    WordStep(ops, block, 23);
    assert NextWord(0x0183fc00, 0x61626380, 0x00000000, 0x00000000) == 0xe2e2c38e;
  }

  lemma WordsFrom24(ops: WordOps<Word>, block: Block)
    requires Counts(ops) && ReadsAbc(ops, block)
    ensures Schedule(ops, block, 24) == 0xc8215c1a && Schedule(ops, block, 25) == 0xb73679a2
    ensures Schedule(ops, block, 26) == 0xe5bc3909 && Schedule(ops, block, 27) == 0x32663c5b
  {
    WordsFrom8(ops, block);
    WordsFrom12(ops, block);
    WordsFrom16(ops, block);
    WordsFrom20(ops, block);
    WordStep(ops, block, 24);
    assert NextWord(0x12dcbfdb, 0x000f0000, 0x00000000, 0x00000000) == 0xc8215c1a;
    WordStep(ops, block, 25);
    assert NextWord(0xe2e2c38e, 0x7da86405, 0x00000000, 0x00000000) == 0xb73679a2;
    WordStep(ops, block, 26);
    assert NextWord(0xc8215c1a, 0x600003c6, 0x00000000, 0x00000000) == 0xe5bc3909;
    WordStep(ops, block, 27);
    assert NextWord(0xb73679a2, 0x3e9d7b78, 0x00000000, 0x00000000) == 0x32663c5b;
  }

  lemma WordsFrom28(ops: WordOps<Word>, block: Block)
    requires Counts(ops) && ReadsAbc(ops, block)
    ensures Schedule(ops, block, 28) == 0x9d209d67 && Schedule(ops, block, 29) == 0xec8726cb
    ensures Schedule(ops, block, 30) == 0x702138a4 && Schedule(ops, block, 31) == 0xd3b7973b
  {
    WordsFrom12(ops, block);
    WordsFrom16(ops, block);
    WordsFrom20(ops, block);
    WordsFrom24(ops, block);
    WordStep(ops, block, 28);
    assert NextWord(0xe5bc3909, 0x0183fc00, 0x00000000, 0x00000000) == 0x9d209d67;
    WordStep(ops, block, 29);
    assert NextWord(0x32663c5b, 0x12dcbfdb, 0x00000000, 0x00000000) == 0xec8726cb;
    WordStep(ops, block, 30);
    assert NextWord(0x9d209d67, 0xe2e2c38e, 0x00000018, 0x00000000) == 0x702138a4;
    WordStep(ops, block, 31);
    assert NextWord(0xec8726cb, 0xc8215c1a, 0x61626380, 0x00000018) == 0xd3b7973b;
  }

  lemma WordsFrom32(ops: WordOps<Word>, block: Block)
    requires Counts(ops) && ReadsAbc(ops, block)
    ensures Schedule(ops, block, 32) == 0x93f5997f && Schedule(ops, block, 33) == 0x3b68ba73
    ensures Schedule(ops, block, 34) == 0xaff4ffc1 && Schedule(ops, block, 35) == 0xf10a5c62
  {
    WordsFrom16(ops, block);
    WordsFrom20(ops, block);
    WordsFrom24(ops, block);
    WordsFrom28(ops, block);
    WordStep(ops, block, 32);
    assert NextWord(0x702138a4, 0xb73679a2, 0x000f0000, 0x61626380) == 0x93f5997f;
    WordStep(ops, block, 33);
    assert NextWord(0xd3b7973b, 0xe5bc3909, 0x7da86405, 0x000f0000) == 0x3b68ba73;
    WordStep(ops, block, 34);
    assert NextWord(0x93f5997f, 0x32663c5b, 0x600003c6, 0x7da86405) == 0xaff4ffc1;
    WordStep(ops, block, 35);
    assert NextWord(0x3b68ba73, 0x9d209d67, 0x3e9d7b78, 0x600003c6) == 0xf10a5c62;
  }

  lemma WordsFrom36(ops: WordOps<Word>, block: Block)
    requires Counts(ops) && ReadsAbc(ops, block)
    ensures Schedule(ops, block, 36) == 0x0a8b3996 && Schedule(ops, block, 37) == 0x72af830a
    ensures Schedule(ops, block, 38) == 0x9409e33e && Schedule(ops, block, 39) == 0x24641522
  {
    WordsFrom20(ops, block);
    WordsFrom24(ops, block);
    WordsFrom28(ops, block);
    WordsFrom32(ops, block);
    WordStep(ops, block, 36);
    assert NextWord(0xaff4ffc1, 0xec8726cb, 0x0183fc00, 0x3e9d7b78) == 0x0a8b3996;
    WordStep(ops, block, 37);
    assert NextWord(0xf10a5c62, 0x702138a4, 0x12dcbfdb, 0x0183fc00) == 0x72af830a;
    WordStep(ops, block, 38);
    assert NextWord(0x0a8b3996, 0xd3b7973b, 0xe2e2c38e, 0x12dcbfdb) == 0x9409e33e;
    WordStep(ops, block, 39);
    assert NextWord(0x72af830a, 0x93f5997f, 0xc8215c1a, 0xe2e2c38e) == 0x24641522;
  }

  lemma WordsFrom40(ops: WordOps<Word>, block: Block)
    requires Counts(ops) && ReadsAbc(ops, block)
    ensures Schedule(ops, block, 40) == 0x9f47bf94 && Schedule(ops, block, 41) == 0xf0a64f5a
    ensures Schedule(ops, block, 42) == 0x3e246a79 && Schedule(ops, block, 43) == 0x27333ba3
  {
    WordsFrom24(ops, block);
    WordsFrom28(ops, block);
    WordsFrom32(ops, block);
    WordsFrom36(ops, block);
    WordStep(ops, block, 40);
    assert NextWord(0x9409e33e, 0x3b68ba73, 0xb73679a2, 0xc8215c1a) == 0x9f47bf94;
    WordStep(ops, block, 41);
    assert NextWord(0x24641522, 0xaff4ffc1, 0xe5bc3909, 0xb73679a2) == 0xf0a64f5a;
    WordStep(ops, block, 42);
    assert NextWord(0x9f47bf94, 0xf10a5c62, 0x32663c5b, 0xe5bc3909) == 0x3e246a79;
    WordStep(ops, block, 43);
    assert NextWord(0xf0a64f5a, 0x0a8b3996, 0x9d209d67, 0x32663c5b) == 0x27333ba3;
  }

  lemma WordsFrom44(ops: WordOps<Word>, block: Block)
    requires Counts(ops) && ReadsAbc(ops, block)
    ensures Schedule(ops, block, 44) == 0x0c4763f2 && Schedule(ops, block, 45) == 0x840abf27
    ensures Schedule(ops, block, 46) == 0x7a290d5d && Schedule(ops, block, 47) == 0x065c43da
  {
    WordsFrom28(ops, block);
    WordsFrom32(ops, block);
    WordsFrom36(ops, block);
    WordsFrom40(ops, block);
    WordStep(ops, block, 44);
    assert NextWord(0x3e246a79, 0x72af830a, 0xec8726cb, 0x9d209d67) == 0x0c4763f2;
    WordStep(ops, block, 45);
    assert NextWord(0x27333ba3, 0x9409e33e, 0x702138a4, 0xec8726cb) == 0x840abf27;
    WordStep(ops, block, 46);
    assert NextWord(0x0c4763f2, 0x24641522, 0xd3b7973b, 0x702138a4) == 0x7a290d5d;
    WordStep(ops, block, 47);
    assert NextWord(0x840abf27, 0x9f47bf94, 0x93f5997f, 0xd3b7973b) == 0x065c43da;
  }

  lemma WordsFrom48(ops: WordOps<Word>, block: Block)
    requires Counts(ops) && ReadsAbc(ops, block)
    ensures Schedule(ops, block, 48) == 0xfb3e89cb && Schedule(ops, block, 49) == 0xcc7617db
    ensures Schedule(ops, block, 50) == 0xb9e66c34 && Schedule(ops, block, 51) == 0xa9993667
  {
    WordsFrom32(ops, block);
    WordsFrom36(ops, block);
    WordsFrom40(ops, block);
    WordsFrom44(ops, block);
    WordStep(ops, block, 48);
    assert NextWord(0x7a290d5d, 0xf0a64f5a, 0x3b68ba73, 0x93f5997f) == 0xfb3e89cb;
    WordStep(ops, block, 49);
    assert NextWord(0x065c43da, 0x3e246a79, 0xaff4ffc1, 0x3b68ba73) == 0xcc7617db;
    WordStep(ops, block, 50);
    assert NextWord(0xfb3e89cb, 0x27333ba3, 0xf10a5c62, 0xaff4ffc1) == 0xb9e66c34;
    WordStep(ops, block, 51);
    assert NextWord(0xcc7617db, 0x0c4763f2, 0x0a8b3996, 0xf10a5c62) == 0xa9993667;
  }

  lemma WordsFrom52(ops: WordOps<Word>, block: Block)
    requires Counts(ops) && ReadsAbc(ops, block)
    ensures Schedule(ops, block, 52) == 0x84badedd && Schedule(ops, block, 53) == 0xc21462bc
    ensures Schedule(ops, block, 54) == 0x1487472c && Schedule(ops, block, 55) == 0xb20f7a99
  {
    WordsFrom36(ops, block);
    WordsFrom40(ops, block);
    WordsFrom44(ops, block);
    WordsFrom48(ops, block);
    WordStep(ops, block, 52);
    assert NextWord(0xb9e66c34, 0x840abf27, 0x72af830a, 0x0a8b3996) == 0x84badedd;
    WordStep(ops, block, 53);
    assert NextWord(0xa9993667, 0x7a290d5d, 0x9409e33e, 0x72af830a) == 0xc21462bc;
    WordStep(ops, block, 54);
    assert NextWord(0x84badedd, 0x065c43da, 0x24641522, 0x9409e33e) == 0x1487472c;
    WordStep(ops, block, 55);
    assert NextWord(0xc21462bc, 0xfb3e89cb, 0x9f47bf94, 0x24641522) == 0xb20f7a99;
  }

  lemma WordsFrom56(ops: WordOps<Word>, block: Block)
    requires Counts(ops) && ReadsAbc(ops, block)
    ensures Schedule(ops, block, 56) == 0xef57b9cd && Schedule(ops, block, 57) == 0xebe6b238
    ensures Schedule(ops, block, 58) == 0x9fe3095e && Schedule(ops, block, 59) == 0x78bc8d4b
  {
    WordsFrom40(ops, block);
    WordsFrom44(ops, block);
    WordsFrom48(ops, block);
    WordsFrom52(ops, block);
    WordStep(ops, block, 56);
    assert NextWord(0x1487472c, 0xcc7617db, 0xf0a64f5a, 0x9f47bf94) == 0xef57b9cd;
    WordStep(ops, block, 57);
    assert NextWord(0xb20f7a99, 0xb9e66c34, 0x3e246a79, 0xf0a64f5a) == 0xebe6b238;
    WordStep(ops, block, 58);
    assert NextWord(0xef57b9cd, 0xa9993667, 0x27333ba3, 0x3e246a79) == 0x9fe3095e;
    WordStep(ops, block, 59);
    assert NextWord(0xebe6b238, 0x84badedd, 0x0c4763f2, 0x27333ba3) == 0x78bc8d4b;
  }

  lemma WordsFrom60(ops: WordOps<Word>, block: Block)
    requires Counts(ops) && ReadsAbc(ops, block)
    ensures Schedule(ops, block, 60) == 0xa43fcf15 && Schedule(ops, block, 61) == 0x668b2ff8
    ensures Schedule(ops, block, 62) == 0xeeaba2cc && Schedule(ops, block, 63) == 0x12b1edeb
  {
    WordsFrom44(ops, block);
    WordsFrom48(ops, block);
    WordsFrom52(ops, block);
    WordsFrom56(ops, block);
    WordStep(ops, block, 60);
    assert NextWord(0x9fe3095e, 0xc21462bc, 0x840abf27, 0x0c4763f2) == 0xa43fcf15;
    WordStep(ops, block, 61);
    assert NextWord(0x78bc8d4b, 0x1487472c, 0x7a290d5d, 0x840abf27) == 0x668b2ff8;
    WordStep(ops, block, 62);
    assert NextWord(0xa43fcf15, 0xb20f7a99, 0x065c43da, 0x7a290d5d) == 0xeeaba2cc;
    WordStep(ops, block, 63);
    assert NextWord(0x668b2ff8, 0xef57b9cd, 0xfb3e89cb, 0x065c43da) == 0x12b1edeb;
  }

  // ---------- the rounds ----------

  lemma RoundsFrom0(ops: WordOps<Word>, block: Block)
    requires Counts(ops) && ReadsAbc(ops, block)
    requires V(ops, block, 0) ==
             Registers(0x6a09e667, 0xbb67ae85, 0x3c6ef372, 0xa54ff53a, 0x510e527f, 0x9b05688c, 0x1f83d9ab, 0x5be0cd19)
    ensures V(ops, block, 4) ==
            Registers(0xd550f666, 0xc8c347a7, 0x5a6ad9ad, 0x5d6aebcd, 0x24e00850, 0xf92939eb, 0x78ce7989, 0xfa2a4622)
  {
    WordsFrom0(ops, block);
    assert T1(0x510e527f, 0x9b05688c, 0x1f83d9ab, 0x5be0cd19, 0x428a2f98, 0x61626380) == 0x54da50e8;
    assert T2(0x6a09e667, 0xbb67ae85, 0x3c6ef372) == 0x08909ae5;
    KnownRound(ops, block, 0, V(ops, block, 0), 0x428a2f98, 0x61626380, 0x54da50e8, 0x5d6aebcd, 0xfa2a4622);
    assert T1(0xfa2a4622, 0x510e527f, 0x9b05688c, 0x1f83d9ab, 0x71374491, 0x00000000) == 0x3c5f8617;
    assert T2(0x5d6aebcd, 0x6a09e667, 0xbb67ae85) == 0x1e0b5396;
    KnownRound(ops, block, 1, V(ops, block, 1), 0x71374491, 0x00000000, 0x3c5f8617, 0x5a6ad9ad, 0x78ce7989);
    assert T1(0x78ce7989, 0xfa2a4622, 0x510e527f, 0x9b05688c, 0xb5c0fbcf, 0x00000000) == 0x3dc18b66;
    assert T2(0x5a6ad9ad, 0x5d6aebcd, 0x6a09e667) == 0x8b01bc41;
    KnownRound(ops, block, 2, V(ops, block, 2), 0xb5c0fbcf, 0x00000000, 0x3dc18b66, 0xc8c347a7, 0xf92939eb);
    assert T1(0xf92939eb, 0x78ce7989, 0xfa2a4622, 0x510e527f, 0xe9b5dba5, 0x00000000) == 0xbad621e9;
    assert T2(0xc8c347a7, 0x5a6ad9ad, 0x5d6aebcd) == 0x1a7ad47d;
    KnownRound(ops, block, 3, V(ops, block, 3), 0xe9b5dba5, 0x00000000, 0xbad621e9, 0xd550f666, 0x24e00850);
  }

  lemma RoundsFrom4(ops: WordOps<Word>, block: Block)
    requires Counts(ops) && ReadsAbc(ops, block)
    requires V(ops, block, 4) ==
             Registers(0xd550f666, 0xc8c347a7, 0x5a6ad9ad, 0x5d6aebcd, 0x24e00850, 0xf92939eb, 0x78ce7989, 0xfa2a4622)
    ensures V(ops, block, 8) ==
            Registers(0x85a07b5f, 0xe5030380, 0x2b4209f5, 0x04409a6a, 0x0c657a79, 0x9b27a401, 0x714260ad, 0x43ada245)
  {
    WordsFrom4(ops, block);
    assert T1(0x24e00850, 0xf92939eb, 0x78ce7989, 0xfa2a4622, 0x3956c25b, 0x00000000) == 0xe642b678;
    assert T2(0xd550f666, 0xc8c347a7, 0x5a6ad9ad) == 0x1dfde3f2;
    KnownRound(ops, block, 4, V(ops, block, 4), 0x3956c25b, 0x00000000, 0xe642b678, 0x04409a6a, 0x43ada245);
    assert T1(0x43ada245, 0x24e00850, 0xf92939eb, 0x78ce7989, 0x59f111f1, 0x00000000) == 0x16d78700;
    assert T2(0x04409a6a, 0xd550f666, 0xc8c347a7) == 0x146a82f5;
    KnownRound(ops, block, 5, V(ops, block, 5), 0x59f111f1, 0x00000000, 0x16d78700, 0x2b4209f5, 0x714260ad);
    assert T1(0x714260ad, 0x43ada245, 0x24e00850, 0xf92939eb, 0x923f82a4, 0x00000000) == 0xd2645c5a;
    assert T2(0x2b4209f5, 0x04409a6a, 0xd550f666) == 0x129ea726;
    KnownRound(ops, block, 6, V(ops, block, 6), 0x923f82a4, 0x00000000, 0xd2645c5a, 0xe5030380, 0x9b27a401);
    assert T1(0x9b27a401, 0x714260ad, 0x43ada245, 0x24e00850, 0xab1c5ed5, 0x00000000) == 0x37148413;
    assert T2(0xe5030380, 0x2b4209f5, 0x04409a6a) == 0x4e8bf74c;
    KnownRound(ops, block, 7, V(ops, block, 7), 0xab1c5ed5, 0x00000000, 0x37148413, 0x85a07b5f, 0x0c657a79);
  }

  lemma RoundsFrom8(ops: WordOps<Word>, block: Block)
    requires Counts(ops) && ReadsAbc(ops, block)
    requires V(ops, block, 8) ==
             Registers(0x85a07b5f, 0xe5030380, 0x2b4209f5, 0x04409a6a, 0x0c657a79, 0x9b27a401, 0x714260ad, 0x43ada245)
    ensures V(ops, block, 12) ==
            Registers(0xf71fc5a9, 0x4798a3f4, 0x8c87346b, 0x8e04ecb9, 0x816fd6e9, 0x436b23e8, 0x1cc92596, 0x32ca2d8c)
  {
    WordsFrom8(ops, block);
    assert T1(0x0c657a79, 0x9b27a401, 0x714260ad, 0x43ada245, 0xd807aa98, 0x00000000) == 0x2e899322;
    assert T2(0x85a07b5f, 0xe5030380, 0x2b4209f5) == 0x5f7b5997;
    KnownRound(ops, block, 8, V(ops, block, 8), 0xd807aa98, 0x00000000, 0x2e899322, 0x8e04ecb9, 0x32ca2d8c);
    assert T1(0x32ca2d8c, 0x0c657a79, 0x9b27a401, 0x714260ad, 0x12835b01, 0x00000000) == 0xf1871ba1;
    assert T2(0x8e04ecb9, 0x85a07b5f, 0xe5030380) == 0x9b0018ca;
    KnownRound(ops, block, 9, V(ops, block, 9), 0x12835b01, 0x00000000, 0xf1871ba1, 0x8c87346b, 0x1cc92596);
    assert T1(0x1cc92596, 0x32ca2d8c, 0x0c657a79, 0x9b27a401, 0x243185be, 0x00000000) == 0x5e682068;
    assert T2(0x8c87346b, 0x8e04ecb9, 0x85a07b5f) == 0xe930838c;
    KnownRound(ops, block, 10, V(ops, block, 10), 0x243185be, 0x00000000, 0x5e682068, 0x4798a3f4, 0x436b23e8);
    assert T1(0x436b23e8, 0x1cc92596, 0x32ca2d8c, 0x0c657a79, 0x550c7dc3, 0x00000000) == 0xfbcf5b8a;
    assert T2(0x4798a3f4, 0x8c87346b, 0x8e04ecb9) == 0xfb506a1f;
    KnownRound(ops, block, 11, V(ops, block, 11), 0x550c7dc3, 0x00000000, 0xfbcf5b8a, 0xf71fc5a9, 0x816fd6e9);
  }

  lemma RoundsFrom12(ops: WordOps<Word>, block: Block)
    requires Counts(ops) && ReadsAbc(ops, block)
    requires V(ops, block, 12) ==
             Registers(0xf71fc5a9, 0x4798a3f4, 0x8c87346b, 0x8e04ecb9, 0x816fd6e9, 0x436b23e8, 0x1cc92596, 0x32ca2d8c)
    ensures V(ops, block, 16) ==
            Registers(0xb0fa238e, 0xc0645fde, 0xd932eb16, 0x87912990, 0x07590dcd, 0x0b92f20c, 0x745a48de, 0x1e578218)
  {
    WordsFrom12(ops, block);
    assert T1(0x816fd6e9, 0x436b23e8, 0x1cc92596, 0x32ca2d8c, 0x72be5d74, 0x00000000) == 0x9052955f;
    assert T2(0xf71fc5a9, 0x4798a3f4, 0x8c87346b) == 0xf73e9431;
    KnownRound(ops, block, 12, V(ops, block, 12), 0x72be5d74, 0x00000000, 0x9052955f, 0x87912990, 0x1e578218);
    assert T1(0x1e578218, 0x816fd6e9, 0x436b23e8, 0x1cc92596, 0x80deb1fe, 0x00000000) == 0xe7d31473;
    assert T2(0x87912990, 0xf71fc5a9, 0x4798a3f4) == 0xf15fd6a3;
    KnownRound(ops, block, 13, V(ops, block, 13), 0x80deb1fe, 0x00000000, 0xe7d31473, 0xd932eb16, 0x745a48de);
    assert T1(0x745a48de, 0x1e578218, 0x816fd6e9, 0x436b23e8, 0x9bdc06a7, 0x00000000) == 0xc3fa4e18;
    assert T2(0xd932eb16, 0x87912990, 0xf71fc5a9) == 0xfc6a11c6;
    KnownRound(ops, block, 14, V(ops, block, 14), 0x9bdc06a7, 0x00000000, 0xc3fa4e18, 0xc0645fde, 0x0b92f20c);
    assert T1(0x0b92f20c, 0x745a48de, 0x1e578218, 0x816fd6e9, 0xc19bf174, 0x00000018) == 0x10394824;
    assert T2(0xc0645fde, 0xd932eb16, 0x87912990) == 0xa0c0db6a;
    KnownRound(ops, block, 15, V(ops, block, 15), 0xc19bf174, 0x00000018, 0x10394824, 0xb0fa238e, 0x07590dcd);
  }

  lemma RoundsFrom16(ops: WordOps<Word>, block: Block)
    requires Counts(ops) && ReadsAbc(ops, block)
    requires V(ops, block, 16) ==
             Registers(0xb0fa238e, 0xc0645fde, 0xd932eb16, 0x87912990, 0x07590dcd, 0x0b92f20c, 0x745a48de, 0x1e578218)
    ensures V(ops, block, 20) ==
            Registers(0xe1f20c33, 0xfe777bbf, 0xc2fbd9d1, 0x21da9a9b, 0xb0638179, 0xcc899961, 0x846ee454, 0x8034229c)
  {
    WordsFrom16(ops, block);
    assert T1(0x07590dcd, 0x0b92f20c, 0x745a48de, 0x1e578218, 0xe49b69c1, 0x61626380) == 0xf8a2f90c;
    assert T2(0xb0fa238e, 0xc0645fde, 0xd932eb16) == 0x2937a18f;
    KnownRound(ops, block, 16, V(ops, block, 16), 0xe49b69c1, 0x61626380, 0xf8a2f90c, 0x21da9a9b, 0x8034229c);
    assert T1(0x8034229c, 0x07590dcd, 0x0b92f20c, 0x745a48de, 0xefbe4786, 0x000f0000) == 0xab3bf93e;
    assert T2(0x21da9a9b, 0xb0fa238e, 0xc0645fde) == 0x17bfe093;
    KnownRound(ops, block, 17, V(ops, block, 17), 0xefbe4786, 0x000f0000, 0xab3bf93e, 0xc2fbd9d1, 0x846ee454);
    assert T1(0x846ee454, 0x8034229c, 0x07590dcd, 0x0b92f20c, 0x0fc19dc6, 0x7da86405) == 0x0c253983;
    assert T2(0xc2fbd9d1, 0x21da9a9b, 0xb0fa238e) == 0xf252423c;
    KnownRound(ops, block, 18, V(ops, block, 18), 0x0fc19dc6, 0x7da86405, 0x0c253983, 0xfe777bbf, 0xcc899961);
    assert T1(0xcc899961, 0x846ee454, 0x8034229c, 0x07590dcd, 0x240ca1cc, 0x600003c6) == 0xff695deb;
    assert T2(0xfe777bbf, 0xc2fbd9d1, 0x21da9a9b) == 0xe288ae48;
    KnownRound(ops, block, 19, V(ops, block, 19), 0x240ca1cc, 0x600003c6, 0xff695deb, 0xe1f20c33, 0xb0638179);
  }

  lemma RoundsFrom20(ops: WordOps<Word>, block: Block)
    requires Counts(ops) && ReadsAbc(ops, block)
    requires V(ops, block, 20) ==
             Registers(0xe1f20c33, 0xfe777bbf, 0xc2fbd9d1, 0x21da9a9b, 0xb0638179, 0xcc899961, 0x846ee454, 0x8034229c)
    ensures V(ops, block, 24) ==
            Registers(0xc5d53d8d, 0xa7a3623f, 0xc2606d6d, 0x9dc68b63, 0xaa47c347, 0x49f5114a, 0xe1257970, 0x8ada8930)
  {
    WordsFrom20(ops, block);
    assert T1(0xb0638179, 0xcc899961, 0x846ee454, 0x8034229c, 0x2de92c6f, 0x3e9d7b78) == 0x68ffee95;
    assert T2(0xe1f20c33, 0xfe777bbf, 0xc2fbd9d1) == 0x34c69cce;
    KnownRound(ops, block, 20, V(ops, block, 20), 0x2de92c6f, 0x3e9d7b78, 0x68ffee95, 0x9dc68b63, 0x8ada8930);
    assert T1(0x8ada8930, 0xb0638179, 0xcc899961, 0x846ee454, 0x4a7484aa, 0x0183fc00) == 0x1e299f9f;
    assert T2(0x9dc68b63, 0xe1f20c33, 0xfe777bbf) == 0xa436cdce;
    KnownRound(ops, block, 21, V(ops, block, 21), 0x4a7484aa, 0x0183fc00, 0x1e299f9f, 0xc2606d6d, 0xe1257970);
    assert T1(0xe1257970, 0x8ada8930, 0xb0638179, 0xcc899961, 0x5cb0a9dc, 0x12dcbfdb) == 0x4b7d958b;
    assert T2(0xc2606d6d, 0x9dc68b63, 0xe1f20c33) == 0x5c25ccb4;
    KnownRound(ops, block, 22, V(ops, block, 22), 0x5cb0a9dc, 0x12dcbfdb, 0x4b7d958b, 0xa7a3623f, 0x49f5114a);
    assert T1(0x49f5114a, 0xe1257970, 0x8ada8930, 0xb0638179, 0x76f988da, 0xe2e2c38e) == 0xc855b714;
    assert T2(0xa7a3623f, 0xc2606d6d, 0x9dc68b63) == 0xfd7f8679;
    KnownRound(ops, block, 23, V(ops, block, 23), 0x76f988da, 0xe2e2c38e, 0xc855b714, 0xc5d53d8d, 0xaa47c347);
  }

  lemma RoundsFrom24(ops: WordOps<Word>, block: Block)
    requires Counts(ops) && ReadsAbc(ops, block)
    requires V(ops, block, 24) ==
             Registers(0xc5d53d8d, 0xa7a3623f, 0xc2606d6d, 0x9dc68b63, 0xaa47c347, 0x49f5114a, 0xe1257970, 0x8ada8930)
    ensures V(ops, block, 28) ==
            Registers(0x77d37528, 0xb62ec4bc, 0xcde8037d, 0x1c2c2838, 0xedffbff8, 0xc74c6516, 0x14383d8e, 0x2823ef91)
  {
    WordsFrom24(ops, block);
    assert T1(0xaa47c347, 0x49f5114a, 0xe1257970, 0x8ada8930, 0x983e5152, 0xc8215c1a) == 0x8a5d642e;
    assert T2(0xc5d53d8d, 0xa7a3623f, 0xc2606d6d) == 0x91cec40a;
    KnownRound(ops, block, 24, V(ops, block, 24), 0x983e5152, 0xc8215c1a, 0x8a5d642e, 0x1c2c2838, 0x2823ef91);
    assert T1(0x2823ef91, 0xaa47c347, 0x49f5114a, 0xe1257970, 0xa831c66d, 0xb73679a2) == 0x51d7d021;
    assert T2(0x1c2c2838, 0xc5d53d8d, 0xa7a3623f) == 0x7c10335c;
    KnownRound(ops, block, 25, V(ops, block, 25), 0xa831c66d, 0xb73679a2, 0x51d7d021, 0xcde8037d, 0x14383d8e);
    assert T1(0x14383d8e, 0x2823ef91, 0xaa47c347, 0x49f5114a, 0xb00327c8, 0xe5bc3909) == 0x1fa902d7;
    assert T2(0xcde8037d, 0x1c2c2838, 0xc5d53d8d) == 0x9685c1e5;
    KnownRound(ops, block, 26, V(ops, block, 26), 0xb00327c8, 0xe5bc3909, 0x1fa902d7, 0xb62ec4bc, 0xc74c6516);
    assert T1(0xc74c6516, 0x14383d8e, 0x2823ef91, 0xaa47c347, 0xbf597fc7, 0x32663c5b) == 0x282a826b;
    assert T2(0xb62ec4bc, 0xcde8037d, 0x1c2c2838) == 0x4fa8f2bd;
    KnownRound(ops, block, 27, V(ops, block, 27), 0xbf597fc7, 0x32663c5b, 0x282a826b, 0x77d37528, 0xedffbff8);
  }

  lemma RoundsFrom28(ops: WordOps<Word>, block: Block)
    requires Counts(ops) && ReadsAbc(ops, block)
    requires V(ops, block, 28) ==
             Registers(0x77d37528, 0xb62ec4bc, 0xcde8037d, 0x1c2c2838, 0xedffbff8, 0xc74c6516, 0x14383d8e, 0x2823ef91)
    ensures V(ops, block, 32) ==
            Registers(0x73b33bf5, 0xea992a22, 0xa0060b30, 0x363482c9, 0xba591112, 0x0109ab3a, 0xade79437, 0x6112a3b7)
  {
    WordsFrom28(ops, block);
    assert T1(0xedffbff8, 0xc74c6516, 0x14383d8e, 0x2823ef91, 0xc6e00bf3, 0x9d209d67) == 0x44e67b7f;
    assert T2(0x77d37528, 0xb62ec4bc, 0xcde8037d) == 0xf14e074a;
    KnownRound(ops, block, 28, V(ops, block, 28), 0xc6e00bf3, 0x9d209d67, 0x44e67b7f, 0x363482c9, 0x6112a3b7);
    assert T1(0x6112a3b7, 0xedffbff8, 0xc74c6516, 0x14383d8e, 0xd5a79147, 0xec8726cb) == 0xdfff90ba;
    assert T2(0x363482c9, 0x77d37528, 0xb62ec4bc) == 0xc0067a76;
    KnownRound(ops, block, 29, V(ops, block, 29), 0xd5a79147, 0xec8726cb, 0xdfff90ba, 0xa0060b30, 0xade79437);
    assert T1(0xade79437, 0x6112a3b7, 0xedffbff8, 0xc74c6516, 0x06ca6351, 0x702138a4) == 0x4adae67e;
    assert T2(0xa0060b30, 0x363482c9, 0x77d37528) == 0x9fbe43a4;
    KnownRound(ops, block, 30, V(ops, block, 30), 0x06ca6351, 0x702138a4, 0x4adae67e, 0xea992a22, 0x0109ab3a);
    assert T1(0x0109ab3a, 0xade79437, 0x6112a3b7, 0xedffbff8, 0x14292967, 0xd3b7973b) == 0x42859bea;
    assert T2(0xea992a22, 0xa0060b30, 0x363482c9) == 0x312da00b;
    KnownRound(ops, block, 31, V(ops, block, 31), 0x14292967, 0xd3b7973b, 0x42859bea, 0x73b33bf5, 0xba591112);
  }

  lemma RoundsFrom32(ops: WordOps<Word>, block: Block)
    requires Counts(ops) && ReadsAbc(ops, block)
    requires V(ops, block, 32) ==
             Registers(0x73b33bf5, 0xea992a22, 0xa0060b30, 0x363482c9, 0xba591112, 0x0109ab3a, 0xade79437, 0x6112a3b7)
    ensures V(ops, block, 36) ==
            Registers(0x65a0cfe4, 0xa9a7738c, 0xfe604df5, 0x98e12507, 0xf4b002d6, 0x085f3833, 0x59249dd3, 0x9cd9f5f6)
  {
    WordsFrom32(ops, block);
    assert T1(0xba591112, 0x0109ab3a, 0xade79437, 0x6112a3b7, 0x27b70a85, 0x93f5997f) == 0x66a5732d;
    assert T2(0x73b33bf5, 0xea992a22, 0xa0060b30) == 0x323bb1da;
    KnownRound(ops, block, 32, V(ops, block, 32), 0x27b70a85, 0x93f5997f, 0x66a5732d, 0x98e12507, 0x9cd9f5f6);
    assert T1(0x9cd9f5f6, 0xba591112, 0x0109ab3a, 0xade79437, 0x2e1b2138, 0x3b68ba73) == 0xb91e92a3;
    assert T2(0x98e12507, 0x73b33bf5, 0xea992a22) == 0x4541bb52;
    KnownRound(ops, block, 33, V(ops, block, 33), 0x2e1b2138, 0x3b68ba73, 0xb91e92a3, 0xfe604df5, 0x59249dd3);
    assert T1(0x59249dd3, 0x9cd9f5f6, 0xba591112, 0x0109ab3a, 0x4d2c6dfc, 0xaff4ffc1) == 0x1dc60e11;
    assert T2(0xfe604df5, 0x98e12507, 0x73b33bf5) == 0x8be1657b;
    KnownRound(ops, block, 34, V(ops, block, 34), 0x4d2c6dfc, 0xaff4ffc1, 0x1dc60e11, 0xa9a7738c, 0x085f3833);
    assert T1(0x085f3833, 0x59249dd3, 0x9cd9f5f6, 0xba591112, 0x53380d13, 0xf10a5c62) == 0x80fcc6e1;
    assert T2(0xa9a7738c, 0xfe604df5, 0x98e12507) == 0xe4a40903;
    KnownRound(ops, block, 35, V(ops, block, 35), 0x53380d13, 0xf10a5c62, 0x80fcc6e1, 0x65a0cfe4, 0xf4b002d6);
  }

  lemma RoundsFrom36(ops: WordOps<Word>, block: Block)
    requires Counts(ops) && ReadsAbc(ops, block)
    requires V(ops, block, 36) ==
             Registers(0x65a0cfe4, 0xa9a7738c, 0xfe604df5, 0x98e12507, 0xf4b002d6, 0x085f3833, 0x59249dd3, 0x9cd9f5f6)
    ensures V(ops, block, 40) ==
            Registers(0x79ea687a, 0x6dc57a8a, 0x34df1604, 0x41a65cb1, 0x1efbc0a0, 0xf0781bc8, 0xa507a53d, 0x0772a26b)
  {
    WordsFrom36(ops, block);
    assert T1(0xf4b002d6, 0x085f3833, 0x59249dd3, 0x9cd9f5f6, 0x650a7354, 0x0a8b3996) == 0x6e917d64;
    assert T2(0x65a0cfe4, 0xa9a7738c, 0xfe604df5) == 0xd314df4d;
    KnownRound(ops, block, 36, V(ops, block, 36), 0x650a7354, 0x0a8b3996, 0x6e917d64, 0x41a65cb1, 0x0772a26b);
    assert T1(0x0772a26b, 0xf4b002d6, 0x085f3833, 0x59249dd3, 0x766a0abb, 0x72af830a) == 0xa6a75748;
    assert T2(0x41a65cb1, 0x65a0cfe4, 0xa9a7738c) == 0x8e37bebc;
    KnownRound(ops, block, 37, V(ops, block, 37), 0x766a0abb, 0x72af830a, 0xa6a75748, 0x34df1604, 0xa507a53d);
    assert T1(0xa507a53d, 0x0772a26b, 0xf4b002d6, 0x085f3833, 0x81c2c92e, 0x9409e33e) == 0x46d0a83c;
    assert T2(0x34df1604, 0x41a65cb1, 0x65a0cfe4) == 0x26f4d24e;
    KnownRound(ops, block, 38, V(ops, block, 38), 0x81c2c92e, 0x9409e33e, 0x46d0a83c, 0x6dc57a8a, 0xf0781bc8);
    assert T1(0xf0781bc8, 0xa507a53d, 0x0772a26b, 0xf4b002d6, 0x92722c85, 0x24641522) == 0xb95af0bc;
    assert T2(0x6dc57a8a, 0x34df1604, 0x41a65cb1) == 0xc08f77be;
    KnownRound(ops, block, 39, V(ops, block, 39), 0x92722c85, 0x24641522, 0xb95af0bc, 0x79ea687a, 0x1efbc0a0);
  }

  lemma RoundsFrom40(ops: WordOps<Word>, block: Block)
    requires Counts(ops) && ReadsAbc(ops, block)
    requires V(ops, block, 40) ==
             Registers(0x79ea687a, 0x6dc57a8a, 0x34df1604, 0x41a65cb1, 0x1efbc0a0, 0xf0781bc8, 0xa507a53d, 0x0772a26b)
    ensures V(ops, block, 44) ==
            Registers(0x9d4baf93, 0x17aa0dfe, 0xdf46652f, 0xd6670766, 0xfda24c2e, 0xdecd4715, 0x838b2711, 0x26352d63)
  {
    WordsFrom40(ops, block);
    assert T1(0x1efbc0a0, 0xf0781bc8, 0xa507a53d, 0x0772a26b, 0xa2bfe8a1, 0x9f47bf94) == 0xe48ed0b2;
    assert T2(0x79ea687a, 0x6dc57a8a, 0x34df1604) == 0xf1d836b4;
    KnownRound(ops, block, 40, V(ops, block, 40), 0xa2bfe8a1, 0x9f47bf94, 0xe48ed0b2, 0xd6670766, 0x26352d63);
    assert T1(0x26352d63, 0x1efbc0a0, 0xf0781bc8, 0xa507a53d, 0xa81a664b, 0xf0a64f5a) == 0x4eac110d;
    assert T2(0xd6670766, 0x79ea687a, 0x6dc57a8a) == 0x909a5422;
    KnownRound(ops, block, 41, V(ops, block, 41), 0xa81a664b, 0xf0a64f5a, 0x4eac110d, 0xdf46652f, 0x838b2711);
    assert T1(0x838b2711, 0x26352d63, 0x1efbc0a0, 0xf0781bc8, 0xc24b8b70, 0x3e246a79) == 0x7107cc8b;
    assert T2(0xdf46652f, 0xd6670766, 0x79ea687a) == 0xa6a24173;
    KnownRound(ops, block, 42, V(ops, block, 42), 0xc24b8b70, 0x3e246a79, 0x7107cc8b, 0x17aa0dfe, 0xdecd4715);
    assert T1(0xdecd4715, 0x838b2711, 0x26352d63, 0x1efbc0a0, 0xc76c51a3, 0x27333ba3) == 0x83b7e3b4;
    assert T2(0x17aa0dfe, 0xdf46652f, 0xd6670766) == 0x1993cbdf;
    KnownRound(ops, block, 43, V(ops, block, 43), 0xc76c51a3, 0x27333ba3, 0x83b7e3b4, 0x9d4baf93, 0xfda24c2e);
  }

  lemma RoundsFrom44(ops: WordOps<Word>, block: Block)
    requires Counts(ops) && ReadsAbc(ops, block)
    requires V(ops, block, 44) ==
             Registers(0x9d4baf93, 0x17aa0dfe, 0xdf46652f, 0xd6670766, 0xfda24c2e, 0xdecd4715, 0x838b2711, 0x26352d63)
    ensures V(ops, block, 48) ==
            Registers(0x4172328d, 0xa14c14b0, 0x72ab4b91, 0x26628815, 0xfecf0bc6, 0xd57b94a9, 0xb7755da1, 0xa80f11f0)
  {
    WordsFrom44(ops, block);
    assert T1(0xfda24c2e, 0xdecd4715, 0x838b2711, 0x26352d63, 0xd192e819, 0x0c4763f2) == 0xd1a80a8a;
    assert T2(0x9d4baf93, 0x17aa0dfe, 0xdf46652f) == 0x54ba7d8b;
    KnownRound(ops, block, 44, V(ops, block, 44), 0xd192e819, 0x0c4763f2, 0xd1a80a8a, 0x26628815, 0xa80f11f0);
    assert T1(0xa80f11f0, 0xfda24c2e, 0xdecd4715, 0x838b2711, 0xd6990624, 0x840abf27) == 0xd82ef872;
    assert T2(0x26628815, 0x9d4baf93, 0x17aa0dfe) == 0x9a7c531f;
    KnownRound(ops, block, 45, V(ops, block, 45), 0xd6990624, 0x840abf27, 0xd82ef872, 0x72ab4b91, 0xb7755da1);
    assert T1(0xb7755da1, 0xa80f11f0, 0xfda24c2e, 0xdecd4715, 0xf40e3585, 0x7a290d5d) == 0xbdd186ab;
    assert T2(0x72ab4b91, 0x26628815, 0x9d4baf93) == 0xe37a8e05;
    KnownRound(ops, block, 46, V(ops, block, 46), 0xf40e3585, 0x7a290d5d, 0xbdd186ab, 0xa14c14b0, 0xd57b94a9);
    assert T1(0xd57b94a9, 0xb7755da1, 0xa80f11f0, 0xfda24c2e, 0x106aa070, 0x065c43da) == 0x61835c33;
    assert T2(0xa14c14b0, 0x72ab4b91, 0x26628815) == 0xdfeed65a;
    KnownRound(ops, block, 47, V(ops, block, 47), 0x106aa070, 0x065c43da, 0x61835c33, 0x4172328d, 0xfecf0bc6);
  }

  lemma RoundsFrom48(ops: WordOps<Word>, block: Block)
    requires Counts(ops) && ReadsAbc(ops, block)
    requires V(ops, block, 48) ==
             Registers(0x4172328d, 0xa14c14b0, 0x72ab4b91, 0x26628815, 0xfecf0bc6, 0xd57b94a9, 0xb7755da1, 0xa80f11f0)
    ensures V(ops, block, 52) ==
            Registers(0x886e7a22, 0x7a0508a1, 0xf11bfaa8, 0x05757ceb, 0x49231c1e, 0x52f1ccf7, 0x6e5c390c, 0xbd714038)
  {
    WordsFrom48(ops, block);
    assert T1(0xfecf0bc6, 0xd57b94a9, 0xb7755da1, 0xa80f11f0, 0x19a4c116, 0xfb3e89cb) == 0x970eb823;
    assert T2(0x4172328d, 0xa14c14b0, 0x72ab4b91) == 0x6e66c4c8;
    KnownRound(ops, block, 48, V(ops, block, 48), 0x19a4c116, 0xfb3e89cb, 0x970eb823, 0x05757ceb, 0xbd714038);
    assert T1(0xbd714038, 0xfecf0bc6, 0xd57b94a9, 0xb7755da1, 0x1e376c08, 0xcc7617db) == 0xfbb0ed7b;
    assert T2(0x05757ceb, 0x4172328d, 0xa14c14b0) == 0xf56b0d2d;
    KnownRound(ops, block, 49, V(ops, block, 49), 0x1e376c08, 0xcc7617db, 0xfbb0ed7b, 0xf11bfaa8, 0x6e5c390c);
    assert T1(0x6e5c390c, 0xbd714038, 0xfecf0bc6, 0xd57b94a9, 0x2748774c, 0xb9e66c34) == 0xb1a5b847;
    assert T2(0xf11bfaa8, 0x05757ceb, 0x4172328d) == 0xc85f505a;
    KnownRound(ops, block, 50, V(ops, block, 50), 0x2748774c, 0xb9e66c34, 0xb1a5b847, 0x7a0508a1, 0x52f1ccf7);
    assert T1(0x52f1ccf7, 0x6e5c390c, 0xbd714038, 0xfecf0bc6, 0x34b0bcb5, 0xa9993667) == 0x07b0e991;
    assert T2(0x7a0508a1, 0xf11bfaa8, 0x05757ceb) == 0x80bd9091;
    KnownRound(ops, block, 51, V(ops, block, 51), 0x34b0bcb5, 0xa9993667, 0x07b0e991, 0x886e7a22, 0x49231c1e);
  }

  lemma RoundsFrom52(ops: WordOps<Word>, block: Block)
    requires Counts(ops) && ReadsAbc(ops, block)
    requires V(ops, block, 52) ==
             Registers(0x886e7a22, 0x7a0508a1, 0xf11bfaa8, 0x05757ceb, 0x49231c1e, 0x52f1ccf7, 0x6e5c390c, 0xbd714038)
    ensures V(ops, block, 56) ==
            Registers(0x38cc9913, 0x3ec45cdb, 0xf5702fdb, 0x101fd28f, 0x54cb266b, 0xe50e1b4f, 0x9f4787c3, 0x529e7d00)
  {
    WordsFrom52(ops, block);
    assert T1(0x49231c1e, 0x52f1ccf7, 0x6e5c390c, 0xbd714038, 0x391c0cb3, 0x84badedd) == 0x4d290015;
    assert T2(0x886e7a22, 0x7a0508a1, 0xf11bfaa8) == 0xc2f6d27a;
    KnownRound(ops, block, 52, V(ops, block, 52), 0x391c0cb3, 0x84badedd, 0x4d290015, 0x101fd28f, 0x529e7d00);
    assert T1(0x529e7d00, 0x49231c1e, 0x52f1ccf7, 0x6e5c390c, 0x4ed8aa4a, 0xc21462bc) == 0xae2b8d1b;
    assert T2(0x101fd28f, 0x886e7a22, 0x7a0508a1) == 0x4744a2c0;
    KnownRound(ops, block, 53, V(ops, block, 53), 0x4ed8aa4a, 0xc21462bc, 0xae2b8d1b, 0xf5702fdb, 0x9f4787c3);
    assert T1(0x9f4787c3, 0x529e7d00, 0x49231c1e, 0x52f1ccf7, 0x5b9cca4f, 0x1487472c) == 0x6b0912ae;
    assert T2(0xf5702fdb, 0x101fd28f, 0x886e7a22) == 0xd3bb4a2d;
    KnownRound(ops, block, 54, V(ops, block, 54), 0x5b9cca4f, 0x1487472c, 0x6b0912ae, 0x3ec45cdb, 0xe50e1b4f);
    assert T1(0xe50e1b4f, 0x9f4787c3, 0x529e7d00, 0x49231c1e, 0x682e6ff3, 0xb20f7a99) == 0xcc5cac49;
    assert T2(0x3ec45cdb, 0xf5702fdb, 0x101fd28f) == 0x6c6fecca;
    KnownRound(ops, block, 55, V(ops, block, 55), 0x682e6ff3, 0xb20f7a99, 0xcc5cac49, 0x38cc9913, 0x54cb266b);
  }

  lemma RoundsFrom56(ops: WordOps<Word>, block: Block)
    requires Counts(ops) && ReadsAbc(ops, block)
    requires V(ops, block, 56) ==
             Registers(0x38cc9913, 0x3ec45cdb, 0xf5702fdb, 0x101fd28f, 0x54cb266b, 0xe50e1b4f, 0x9f4787c3, 0x529e7d00)
    ensures V(ops, block, 60) ==
            Registers(0xb6ae8fff, 0xffb70472, 0xc062d46f, 0xfcd1887b, 0xb21bad3d, 0x6d83bfc6, 0x7e44008e, 0x9b5e906c)
  {
    WordsFrom56(ops, block);
    assert T1(0x54cb266b, 0xe50e1b4f, 0x9f4787c3, 0x529e7d00, 0x748f82ee, 0xef57b9cd) == 0x8b3ebddd;
    assert T2(0x38cc9913, 0x3ec45cdb, 0xf5702fdb) == 0x7192ca9e;
    KnownRound(ops, block, 56, V(ops, block, 56), 0x748f82ee, 0xef57b9cd, 0x8b3ebddd, 0xfcd1887b, 0x9b5e906c);
    assert T1(0x9b5e906c, 0x54cb266b, 0xe50e1b4f, 0x9f4787c3, 0x78a5636f, 0xebe6b238) == 0x88d3d0b3;
    assert T2(0xfcd1887b, 0x38cc9913, 0x3ec45cdb) == 0x378f03bc;
    KnownRound(ops, block, 57, V(ops, block, 57), 0x78a5636f, 0xebe6b238, 0x88d3d0b3, 0xc062d46f, 0x7e44008e);
    assert T1(0x7e44008e, 0x9b5e906c, 0x54cb266b, 0xe50e1b4f, 0x84c87814, 0x9fe3095e) == 0x2ebf62eb;
    assert T2(0xc062d46f, 0xfcd1887b, 0x38cc9913) == 0xd0f7a187;
    KnownRound(ops, block, 58, V(ops, block, 58), 0x84c87814, 0x9fe3095e, 0x2ebf62eb, 0xffb70472, 0x6d83bfc6);
    assert T1(0x6d83bfc6, 0x7e44008e, 0x9b5e906c, 0x54cb266b, 0x8cc70208, 0x78bc8d4b) == 0x794f142a;
    assert T2(0xffb70472, 0xc062d46f, 0xfcd1887b) == 0x3d5f7bd5;
    KnownRound(ops, block, 59, V(ops, block, 59), 0x8cc70208, 0x78bc8d4b, 0x794f142a, 0xb6ae8fff, 0xb21bad3d);
  }

  lemma RoundsFrom60(ops: WordOps<Word>, block: Block)
    requires Counts(ops) && ReadsAbc(ops, block)
    requires V(ops, block, 60) ==
             Registers(0xb6ae8fff, 0xffb70472, 0xc062d46f, 0xfcd1887b, 0xb21bad3d, 0x6d83bfc6, 0x7e44008e, 0x9b5e906c)
    ensures V(ops, block, 64) ==
            Registers(0x506e3058, 0xd39a2165, 0x04d24d6c, 0xb85e2ce9, 0x5ef50f24, 0xfb121210, 0x948d25b6, 0x961f4894)
  {
    WordsFrom60(ops, block);
    assert T1(0xb21bad3d, 0x6d83bfc6, 0x7e44008e, 0x9b5e906c, 0x90befffa, 0xa43fcf15) == 0x994dc019;
    assert T2(0xb6ae8fff, 0xffb70472, 0xc062d46f) == 0x1f106cd0;
    KnownRound(ops, block, 60, V(ops, block, 60), 0x90befffa, 0xa43fcf15, 0x994dc019, 0xb85e2ce9, 0x961f4894);
    assert T1(0x961f4894, 0xb21bad3d, 0x6d83bfc6, 0x7e44008e, 0xa4506ceb, 0x668b2ff8) == 0xd42a5147;
    assert T2(0xb85e2ce9, 0xb6ae8fff, 0xffb70472) == 0x30a7fc25;
    KnownRound(ops, block, 61, V(ops, block, 61), 0xa4506ceb, 0x668b2ff8, 0xd42a5147, 0x04d24d6c, 0x948d25b6);
    assert T1(0x948d25b6, 0x961f4894, 0xb21bad3d, 0x6d83bfc6, 0xbef9a3f7, 0xeeaba2cc) == 0xfb5b0d9e;
    assert T2(0x04d24d6c, 0xb85e2ce9, 0xb6ae8fff) == 0xd83f13c7;
    KnownRound(ops, block, 62, V(ops, block, 62), 0xbef9a3f7, 0xeeaba2cc, 0xfb5b0d9e, 0xd39a2165, 0xfb121210);
    assert T1(0xfb121210, 0x948d25b6, 0x961f4894, 0xb21bad3d, 0xc67178f2, 0x12b1edeb) == 0xa8467f25;
    assert T2(0xd39a2165, 0x04d24d6c, 0xb85e2ce9) == 0xa827b133;
    KnownRound(ops, block, 63, V(ops, block, 63), 0xc67178f2, 0x12b1edeb, 0xa8467f25, 0x506e3058, 0x5ef50f24);
  }

  lemma AllRounds(ops: WordOps<Word>, block: Block)
    requires Counts(ops) && ReadsAbc(ops, block)
    ensures V(ops, block, 64) ==
            Registers(0x506e3058, 0xd39a2165, 0x04d24d6c, 0xb85e2ce9, 0x5ef50f24, 0xfb121210, 0x948d25b6, 0x961f4894)
  {
    StartsAtInitialHash(ops, block);
    RoundsFrom0(ops, block);
    RoundsFrom4(ops, block);
    RoundsFrom8(ops, block);
    RoundsFrom12(ops, block);
    RoundsFrom16(ops, block);
    RoundsFrom20(ops, block);
    RoundsFrom24(ops, block);
    RoundsFrom28(ops, block);
    RoundsFrom32(ops, block);
    RoundsFrom36(ops, block);
    RoundsFrom40(ops, block);
    RoundsFrom44(ops, block);
    RoundsFrom48(ops, block);
    RoundsFrom52(ops, block);
    RoundsFrom56(ops, block);
    RoundsFrom60(ops, block);
  }

  lemma StartsAtInitialHash(ops: WordOps<Word>, block: Block)
    requires Counts(ops)
    ensures V(ops, block, 0) == InitialHash(ops) ==
            Registers(0x6a09e667, 0xbb67ae85, 0x3c6ef372, 0xa54ff53a, 0x510e527f, 0x9b05688c, 0x1f83d9ab, 0x5be0cd19)
  {
  }

  lemma CompressAbc(ops: WordOps<Word>, block: Block)
    requires Counts(ops) && ReadsAbc(ops, block)
    ensures Compress(ops, InitialHash(ops), block) ==
            Registers(0xba7816bf, 0x8f01cfea, 0x414140de, 0x5dae2223, 0xb00361a3, 0x96177a9c, 0xb410ff61, 0xf20015ad)
  {
    AllRounds(ops, block);
    StartsAtInitialHash(ops, block);
    assert MessageSchedule(ops, block)[..64] == MessageSchedule(ops, block);
  }

  // ---------- the digest ----------

  lemma BytesOf(x: Word, a: Byte, b: Byte, c: Byte, d: Byte)
    requires x as nat == Number(a, b, c, d)
    ensures BytesOfWord(x) == [a, b, c, d]
  {
    DigitsOf(x as nat, a, b, c, d);
  }

  lemma UnpackSnoc<T>(ops: WordOps<T>, ws: seq<T>, w: T)
    ensures UnpackAll(ops, ws + [w]) == UnpackAll(ops, ws) + ops.unpack(w)
  {
    assert (ws + [w])[..|ws|] == ws;
  }

  lemma DigestInOrder<T>(ops: WordOps<T>, h: Registers<T>)
    ensures Digest(ops, h) ==
            ops.unpack(h.a) + ops.unpack(h.b) + ops.unpack(h.c) + ops.unpack(h.d) +
            ops.unpack(h.e) + ops.unpack(h.f) + ops.unpack(h.g) + ops.unpack(h.h)
  {
    var s4 := [h.a] + [h.b] + [h.c] + [h.d];
    assert UnpackAll(ops, []) == [] && [] + [h.a] == [h.a] && [] + ops.unpack(h.a) == ops.unpack(h.a);
    UnpackSnoc(ops, [], h.a);
    UnpackSnoc(ops, [h.a], h.b);
    UnpackSnoc(ops, [h.a] + [h.b], h.c);
    UnpackSnoc(ops, [h.a] + [h.b] + [h.c], h.d);
    UnpackSnoc(ops, s4, h.e);
    UnpackSnoc(ops, s4 + [h.e], h.f);
    UnpackSnoc(ops, s4 + [h.e] + [h.f], h.g);
    UnpackSnoc(ops, s4 + [h.e] + [h.f] + [h.g], h.h);
    assert Store(h) == s4 + [h.e] + [h.f] + [h.g] + [h.h];
  }

  lemma OneBlock<T>(ops: WordOps<T>, h: Registers<T>, block: Block)
    ensures HashBlocks(ops, h, block) == Compress(ops, h, block)
  {
    assert block[..BLOCK_SIZE] == block && block[BLOCK_SIZE..] == [];
  }

  /** The hash value of the message. */
  lemma HashValueAbc()
    ensures HashBlocks(STANDARD, InitialHash(STANDARD), Pad(ABC)) ==
            Registers(0xba7816bf, 0x8f01cfea, 0x414140de, 0x5dae2223, 0xb00361a3, 0x96177a9c, 0xb410ff61, 0xf20015ad)
  {
    PadAbc();
    StandardCounts();
    StandardReadsAbc(Pad(ABC));
    CompressAbc(STANDARD, Pad(ABC));
    OneBlock(STANDARD, InitialHash(STANDARD), Pad(ABC));
  }

  lemma DigestBytes(h: Registers<Word>)
    requires h ==
             Registers(0xba7816bf, 0x8f01cfea, 0x414140de, 0x5dae2223, 0xb00361a3, 0x96177a9c, 0xb410ff61, 0xf20015ad)
    ensures STANDARD.unpack(h.a) == [0xba, 0x78, 0x16, 0xbf]
    ensures STANDARD.unpack(h.b) == [0x8f, 0x01, 0xcf, 0xea]
    ensures STANDARD.unpack(h.c) == [0x41, 0x41, 0x40, 0xde]
    ensures STANDARD.unpack(h.d) == [0x5d, 0xae, 0x22, 0x23]
    ensures STANDARD.unpack(h.e) == [0xb0, 0x03, 0x61, 0xa3]
    ensures STANDARD.unpack(h.f) == [0x96, 0x17, 0x7a, 0x9c]
    ensures STANDARD.unpack(h.g) == [0xb4, 0x10, 0xff, 0x61]
    ensures STANDARD.unpack(h.h) == [0xf2, 0x00, 0x15, 0xad]
  {
    BytesOf(0xba7816bf, 0xba, 0x78, 0x16, 0xbf);
    BytesOf(0x8f01cfea, 0x8f, 0x01, 0xcf, 0xea);
    BytesOf(0x414140de, 0x41, 0x41, 0x40, 0xde);
    BytesOf(0x5dae2223, 0x5d, 0xae, 0x22, 0x23);
    BytesOf(0xb00361a3, 0xb0, 0x03, 0x61, 0xa3);
    BytesOf(0x96177a9c, 0x96, 0x17, 0x7a, 0x9c);
    BytesOf(0xb410ff61, 0xb4, 0x10, 0xff, 0x61);
    BytesOf(0xf20015ad, 0xf2, 0x00, 0x15, 0xad);
  }

  /** The known answer: SHA-256 of "abc". */
  lemma HashAbc()
    ensures Hash(STANDARD, ABC) == DIGEST
  {
    HashValueAbc();
    var h := HashBlocks(STANDARD, InitialHash(STANDARD), Pad(ABC));
    DigestInOrder(STANDARD, h);
    DigestBytes(h);
  }

  /** So the source's own `sha256` prints it. */
  method Sha256OfAbc() returns (s: string)
    ensures s == Hex(DIGEST)
  {
    HashAbc();
    s := Sha256AsStandard(ABC);
  }
}
