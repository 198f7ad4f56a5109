/** `NextOfTwoSize` of message.cpp: the bits of a 32-bit number smeared to the right. */
module PowerOfTwo {

  import opened Integers

  function Pow2(k: nat): (p: nat)
    ensures p >= 1
  {
    if k == 0 then 1 else 2 * Pow2(k - 1)
  }

  predicate Bit(n: nat, i: nat) { if i == 0 then n % 2 == 1 else Bit(n / 2, i - 1) }

  /** `n >> k` */
  function ShiftRight(n: nat, k: nat): nat { if k == 0 then n else ShiftRight(n / 2, k - 1) }

  /** `m | n` */
  function Or(m: nat, n: nat): nat {
    if m == 0 then n
    else if n == 0 then m
    else 2 * Or(m / 2, n / 2) + if m % 2 == 1 || n % 2 == 1 then 1 else 0
  }

  lemma {:induction false} ShiftBit(n: nat, k: nat, i: nat)
    ensures Bit(ShiftRight(n, k), i) == Bit(n, i + k)
    decreases k
  {
    if k != 0 {
      ShiftBit(n / 2, k - 1, i);
    }
  }

  lemma {:induction false} ZeroBit(i: nat)
    ensures !Bit(0, i)
  {
    if i != 0 {
      ZeroBit(i - 1);
    }
  }

  lemma {:induction false} OrBit(m: nat, n: nat, i: nat)
    ensures Bit(Or(m, n), i) == (Bit(m, i) || Bit(n, i))
    decreases i
  {
    ZeroBit(i);
    if m != 0 && n != 0 && i != 0 {
      OrBit(m / 2, n / 2, i - 1);
    }
  }

  /** `p` is the highest bit of `n`. */
  ghost predicate Highest(n: nat, p: nat) {
    Bit(n, p) && forall i :: p < i ==> !Bit(n, i)
  }

  /** The `m` bits from the highest one down are all set. */
  ghost predicate TopOnes(n: nat, p: nat, m: nat) {
    Highest(n, p) && forall i :: 0 <= i <= p && p < i + m ==> Bit(n, i)
  }

  /** One step of the smear doubles the run of ones. */
  lemma SmearStep(n: nat, p: nat, m: nat)
    requires TopOnes(n, p, m)
    ensures TopOnes(Or(n, ShiftRight(n, m)), p, 2 * m)
  {
    var r := Or(n, ShiftRight(n, m));
    SmearBit(n, m, p);
    forall i | p < i
      ensures !Bit(r, i)
    {
      SmearBit(n, m, i);
    }
    forall i | 0 <= i <= p && p < i + 2 * m
      ensures Bit(r, i)
    {
      SmearBit(n, m, i);
    }
  }

  lemma SmearBit(n: nat, m: nat, i: nat)
    ensures Bit(Or(n, ShiftRight(n, m)), i) == (Bit(n, i) || Bit(n, i + m))
  {
    OrBit(n, ShiftRight(n, m), i);
    ShiftBit(n, m, i);
  }

  lemma {:induction false} HighestBit(n: nat) returns (p: nat)
    requires n != 0
    ensures Highest(n, p) && Pow2(p) <= n < Pow2(p + 1)
  {
    if n == 1 {
      p := 0;
      forall i: nat | 0 < i
        ensures !Bit(1, i)
      {
        ZeroBit(i - 1);
      }
    } else {
      var h := HighestBit(n / 2);
      p := h + 1;
      forall i: nat | p < i
        ensures !Bit(n, i)
      {
        assert !Bit(n / 2, i - 1);
      }
    }
  }

  lemma {:induction false} NoBits(n: nat)
    requires forall i: nat :: !Bit(n, i)
    ensures n == 0
  {
    if n != 0 {
      assert !Bit(n, 0);
      forall i: nat
        ensures !Bit(n / 2, i)
      {
        assert !Bit(n, i + 1);
      }
      NoBits(n / 2);
    }
  }

  /** A number whose bits are all set up to the highest one is one less than a power of two. */
  lemma {:induction false} AllOnes(n: nat, p: nat)
    requires Highest(n, p) && forall i :: 0 <= i <= p ==> Bit(n, i)
    ensures n == Pow2(p + 1) - 1
  {
    assert Bit(n, 0);
    if p == 0 {
      forall i: nat
        ensures !Bit(n / 2, i)
      {
        assert !Bit(n, i + 1);
      }
      NoBits(n / 2);
    } else {
      forall i: nat
        ensures Bit(n / 2, i) == Bit(n, i + 1)
      {
      }
      AllOnes(n / 2, p - 1);
    }
  }

  function Smear(x: nat): nat {
    var x := Or(x, ShiftRight(x, 1));
    var x := Or(x, ShiftRight(x, 2));
    var x := Or(x, ShiftRight(x, 4));
    var x := Or(x, ShiftRight(x, 8));
    Or(x, ShiftRight(x, 16))
  }

  lemma SmearFills(x: nat, p: nat)
    requires Highest(x, p) && p < 32
    ensures Smear(x) == Pow2(p + 1) - 1
  {
    var x1 := Or(x, ShiftRight(x, 1));
    var x2 := Or(x1, ShiftRight(x1, 2));
    var x4 := Or(x2, ShiftRight(x2, 4));
    var x8 := Or(x4, ShiftRight(x4, 8));
    SmearStep(x, p, 1);
    SmearStep(x1, p, 2);
    SmearStep(x2, p, 4);
    SmearStep(x4, p, 8);
    SmearStep(x8, p, 16);
    AllOnes(Smear(x), p);
  }

  /** `NextOfTwoSize`, whose argument is cut to 32 bits and whose result wraps. */
  function NextOfTwoSize(size: nat): nat { RoundUp(size % TWO32) }

  function RoundUp(x: nat): nat { if x == 0 then 1 else (Smear(x - 1) + 1) % TWO32 }

  /** `r` is the least power of two that is at least `x`. */
  ghost predicate LeastPower(x: nat, r: nat) {
    exists k: nat :: IsLeastPower(x, r, k)
  }

  predicate IsLeastPower(x: nat, r: nat, k: nat) {
    r == Pow2(k) && x <= r && (k == 0 || Pow2(k - 1) < x)
  }

  lemma {:induction false} Pow2Monotonic(j: nat, k: nat)
    requires j <= k
    ensures Pow2(j) <= Pow2(k)
    decreases k
  {
    if j < k {
      Pow2Monotonic(j, k - 1);
    }
  }

  /** No smaller power of two would do. */
  lemma LeastPowerIsLeast(x: nat, r: nat, j: nat)
    requires LeastPower(x, r) && x <= Pow2(j)
    ensures r <= Pow2(j)
  {
    var k: nat :| IsLeastPower(x, r, k);
    if j < k {
      Pow2Monotonic(j, k - 1);
    } else {
      Pow2Monotonic(k, j);
    }
  }

  lemma LeastPowerIsUnique(x: nat, r: nat, r': nat)
    requires LeastPower(x, r) && LeastPower(x, r')
    ensures r == r'
  {
    var k: nat :| IsLeastPower(x, r, k);
    var k': nat :| IsLeastPower(x, r', k');
    LeastPowerIsLeast(x, r, k');
    LeastPowerIsLeast(x, r', k);
  }

  /** The least power of two that is at least `x`, by halving. */
  function CeilPower(x: nat): nat { if x <= 1 then 1 else 2 * CeilPower((x + 1) / 2) }

  lemma {:induction false} CeilPowerIsLeast(x: nat) returns (k: nat)
    requires 1 <= x
    ensures IsLeastPower(x, CeilPower(x), k)
  {
    if x == 1 {
      k := 0;
    } else {
      k := CeilPowerIsLeast((x + 1) / 2);
      k := k + 1;
    }
  }

  lemma Pow2At31()
    ensures Pow2(31) == TWO31 && Pow2(32) == TWO32
  {
    assert Pow2(8) == 0x100;
    assert Pow2(16) == 0x1_0000;
    assert Pow2(24) == 0x100_0000;
    assert Pow2(31) == TWO31;
  }

  /** The smear of `x - 1`, before anything wraps. */
  lemma SmearGivesPower(x: nat) returns (k: nat)
    requires 2 <= x <= TWO32
    ensures 1 <= k <= 32 && Smear(x - 1) + 1 == Pow2(k) && Pow2(k - 1) < x <= Pow2(k)
  {
    var p := HighestBit(x - 1);
    Pow2At31();
    if 32 <= p {
      Pow2Monotonic(32, p);
    }
    SmearFills(x - 1, p);
    k := p + 1;
  }

  /** Up to 2^31, `NextOfTwoSize` is the least power of two that is large enough. */
  lemma NextIsLeastPower(x: nat)
    requires 1 <= x <= TWO31
    ensures LeastPower(x, NextOfTwoSize(x)) && NextOfTwoSize(x) == CeilPower(x)
  {
    NoWrap(x);
    if x == 1 {
      assert Smear(0) == 0;
      NoWrap(1);
      assert IsLeastPower(1, 1, 0);
    } else {
      var k := SmearGivesPower(x);
      Pow2At31();
      assert k <= 31;
      Pow2Monotonic(k, 31);
      NoWrap(Pow2(k));
      assert IsLeastPower(x, Pow2(k), k);
    }
    var j := CeilPowerIsLeast(x);
    LeastPowerIsUnique(x, NextOfTwoSize(x), CeilPower(x));
  }

  /** Beyond 2^31 it is too small: the result wraps to zero, or the argument was cut first. */
  lemma NextIsLargeEnoughIff(x: nat)
    requires 1 <= x
    ensures x <= NextOfTwoSize(x) <==> x <= TWO31
  {
    if x <= TWO31 {
      NextIsLeastPower(x);
    } else if x < TWO32 {
      NoWrap(x);
      var k := SmearGivesPower(x);
      Pow2At31();
      if k <= 31 {
        Pow2Monotonic(k, 31);
      }
    }
  }

  /** A power of two up to 2^32, cut to 32 bits. */
  lemma CutPower(k: nat)
    requires k <= 32
    ensures Pow2(k) % TWO32 <= TWO31 && (TWO31 < Pow2(k) ==> Pow2(k) % TWO32 == 0)
  {
    Pow2At31();
    if k <= 31 {
      Pow2Monotonic(k, 31);
      NoWrap(Pow2(k));
    }
  }

  lemma RoundUpIsPower(x: nat) returns (k: nat)
    requires 1 <= x < TWO32
    ensures k <= 32 && RoundUp(x) == Pow2(k) % TWO32 && x <= Pow2(k)
  {
    if x == 1 {
      assert Smear(0) == 0;
      k := 0;
    } else {
      k := SmearGivesPower(x);
    }
  }

  lemma RoundUpIsAtMost(x: nat)
    requires x < TWO32
    ensures RoundUp(x) <= TWO31 && (TWO31 < x ==> RoundUp(x) == 0) && (x == 0 ==> RoundUp(x) == 1)
  {
    if x != 0 {
      var k := RoundUpIsPower(x);
      CutPower(k);
    }
  }

  lemma NextIsAtMost(x: nat)
    ensures NextOfTwoSize(x) <= TWO31
    ensures TWO31 < x <= TWO32 ==> NextOfTwoSize(x) == if x < TWO32 then 0 else 1
  {
    var y := x % TWO32;
    RoundUpIsAtMost(y);
    if x < TWO32 {
      NoWrap(x);
    } else if x == TWO32 {
      Residue(x, 1, 0);
    }
  }

  /**
    A buffer of `length` bytes with `data` bytes in it, grown for `size` more, has room for them if and only if
    the size asked for is at most 2^31.
   */
  lemma RoomIff(length: nat, data: nat, size: nat)
    requires data <= length <= TWO31 && 1 <= size
    ensures data + size <= NextOfTwoSize(length + size) <==> length + size <= TWO31
  {
    NextIsLargeEnoughIff(length + size);
    NextIsAtMost(length + size);
    RoomFor(length, data, size, NextOfTwoSize(length + size));
  }

  lemma RoomFor(length: nat, data: nat, size: nat, next: nat)
    requires data <= length <= TWO31 && 1 <= size && next <= TWO31
    requires length + size <= next <==> length + size <= TWO31
    requires TWO31 < length + size <= TWO32 ==> next == if length + size < TWO32 then 0 else 1
    ensures data + size <= next <==> length + size <= TWO31
  {
  }

  /** The size asked of the allocator is zero exactly for requests in the upper half of their 2^32, above the middle. */
  lemma NextIsZeroIff(x: nat)
    ensures NextOfTwoSize(x) == 0 <==> TWO31 < x % TWO32
  {
    var y := x % TWO32;
    RoundUpIsAtMost(y);
    if 0 < y <= TWO31 {
      NoWrap(y);
      NextIsLargeEnoughIff(y);
    }
  }
}
