/** The first sixty-four primes, from which FIPS 180-4 derives its constants. */
module Primes {

  function Prime(t: nat): nat
    requires t < 64
  {
    if t < 8 then [2, 3, 5, 7, 11, 13, 17, 19][t]
    else if t < 16 then [23, 29, 31, 37, 41, 43, 47, 53][t - 8]
    else if t < 24 then [59, 61, 67, 71, 73, 79, 83, 89][t - 16]
    else if t < 32 then [97, 101, 103, 107, 109, 113, 127, 131][t - 24]
    else if t < 40 then [137, 139, 149, 151, 157, 163, 167, 173][t - 32]
    else if t < 48 then [179, 181, 191, 193, 197, 199, 211, 223][t - 40]
    else if t < 56 then [227, 229, 233, 239, 241, 251, 257, 263][t - 48]
    else [269, 271, 277, 281, 283, 293, 307, 311][t - 56]
  }

  predicate Divides(d: nat, n: nat)
    requires d > 0
  {
    n % d == 0
  }

  predicate IsPrime(n: nat) { n >= 2 && forall d :: 2 <= d < n ==> !Divides(d, n) }

  /** No prime below nineteen divides `n`, except itself. */
  predicate Survives(n: nat) {
    && n >= 2
    && (Divides(2, n) ==> n == 2) && (Divides(3, n) ==> n == 3) && (Divides(5, n) ==> n == 5)
    && (Divides(7, n) ==> n == 7) && (Divides(11, n) ==> n == 11) && (Divides(13, n) ==> n == 13)
    && (Divides(17, n) ==> n == 17)
  }

  /** A prime below nineteen that divides `f`. */
  function SmallFactor(f: nat): (p: nat)
    requires 2 <= f < 19
    ensures p in {2, 3, 5, 7, 11, 13, 17} && Divides(p, f)
  {
    if f % 2 == 0 then 2 else if f % 3 == 0 then 3 else if f % 5 == 0 then 5 else f
  }

  lemma MultipleOf(p: nat, m: nat)
    requires p in {2, 3, 5, 7, 11, 13, 17}
    ensures Divides(p, p * m)
  {
    if p == 2 { assert (2 * m) % 2 == 0; }
    else if p == 3 { assert (3 * m) % 3 == 0; }
    else if p == 5 { assert (5 * m) % 5 == 0; }
    else if p == 7 { assert (7 * m) % 7 == 0; }
    else if p == 11 { assert (11 * m) % 11 == 0; }
    else if p == 13 { assert (13 * m) % 13 == 0; }
    else { assert (17 * m) % 17 == 0; }
  }

  lemma Quotient(d: nat, n: nat) returns (e: nat)
    requires d > 0 && Divides(d, n)
    ensures n == d * e
  {
    e := n / d;
    assert n == (n / d) * d + n % d;
  }

  lemma Regroup(p: nat, k: nat, e: nat)
    ensures (p * k) * e == p * (k * e)
  {
  }

  lemma DividesThrough(p: nat, f: nat, e: nat)
    requires p in {2, 3, 5, 7, 11, 13, 17} && Divides(p, f)
    ensures Divides(p, f * e)
  {
    var k := Quotient(p, f);
    Regroup(p, k, e);
    MultipleOf(p, k * e);
  }

  lemma Monotone(d: nat, a: nat, b: nat)
    requires a <= b
    ensures d * a <= d * b && a * d <= b * d
  {
  }

  /** One of the two factors of a composite number below 19 * 19 is below nineteen. */
  lemma Factors(n: nat, d: nat) returns (f: nat, g: nat)
    requires 2 <= d < n < 361 && Divides(d, n)
    ensures n == f * g && 2 <= f < n && f < 19
  {
    var e := Quotient(d, n);
    if e <= 1 {
      Monotone(d, e, 1);
    }
    Monotone(e, 2, d);
    if d < 19 {
      f, g := d, e;
    } else {
      f, g := e, d;
      if e >= 19 {
        Monotone(e, 19, d);
      }
    }
  }

  /** Below 19 * 19 that makes a prime. */
  lemma SieveIsExact(n: nat)
    requires 2 <= n < 361
    ensures IsPrime(n) <==> Survives(n)
  {
    if Survives(n) && !IsPrime(n) {
      var d :| 2 <= d < n && Divides(d, n);
      var f, g := Factors(n, d);
      var p := SmallFactor(f);
      assert p <= f;
      DividesThrough(p, f, g);
    }
  }

  /** Nothing from `a` to `b` survives. */
  predicate NoneFrom(a: nat, b: nat)
    decreases b - a
  {
    a >= b || (!Survives(a) && NoneFrom(a + 1, b))
  }

  lemma {:induction false} NoneFromMeans(a: nat, b: nat, n: nat)
    requires NoneFrom(a, b) && a <= n < b
    ensures !Survives(n)
    decreases b - a
  {
    if a < n {
      NoneFromMeans(a + 1, b, n);
    }
  }

  /** `p` survives, and nothing between it and `q`. */
  predicate Gap(p: nat, q: nat) { Survives(p) && NoneFrom(p + 1, q) && p < q }

  lemma GapsFrom0(t: nat)
    requires 0 <= t < 4
    ensures Gap(Prime(t), Prime(t + 1))
  {
    assert Gap(2, 3);
    assert Gap(3, 5);
    assert Gap(5, 7);
    assert Gap(7, 11);
  }

  lemma GapsFrom4(t: nat)
    requires 4 <= t < 8
    ensures Gap(Prime(t), Prime(t + 1))
  {
    assert Gap(11, 13);
    assert Gap(13, 17);
    assert Gap(17, 19);
    assert Gap(19, 23);
  }

  lemma GapsFrom8(t: nat)
    requires 8 <= t < 12
    ensures Gap(Prime(t), Prime(t + 1))
  {
    assert Gap(23, 29);
    assert Gap(29, 31);
    assert Gap(31, 37);
    assert Gap(37, 41);
  }

  lemma GapsFrom12(t: nat)
    requires 12 <= t < 16
    ensures Gap(Prime(t), Prime(t + 1))
  {
    assert Gap(41, 43);
    assert Gap(43, 47);
    assert Gap(47, 53);
    assert Gap(53, 59);
  }

  lemma GapsFrom16(t: nat)
    requires 16 <= t < 20
    ensures Gap(Prime(t), Prime(t + 1))
  {
    assert Gap(59, 61);
    assert Gap(61, 67);
    assert Gap(67, 71);
    assert Gap(71, 73);
  }

  lemma GapsFrom20(t: nat)
    requires 20 <= t < 24
    ensures Gap(Prime(t), Prime(t + 1))
  {
    assert Gap(73, 79);
    assert Gap(79, 83);
    assert Gap(83, 89);
    assert Gap(89, 97);
  }

  lemma GapsFrom24(t: nat)
    requires 24 <= t < 28
    ensures Gap(Prime(t), Prime(t + 1))
  {
    assert Gap(97, 101);
    assert Gap(101, 103);
    assert Gap(103, 107);
    assert Gap(107, 109);
  }

  lemma GapsFrom28(t: nat)
    requires 28 <= t < 32
    ensures Gap(Prime(t), Prime(t + 1))
  {
    assert Gap(109, 113);
    assert Gap(113, 127);
    assert Gap(127, 131);
    assert Gap(131, 137);
  }

  lemma GapsFrom32(t: nat)
    requires 32 <= t < 36
    ensures Gap(Prime(t), Prime(t + 1))
  {
    assert Gap(137, 139);
    assert Gap(139, 149);
    assert Gap(149, 151);
    assert Gap(151, 157);
  }

  lemma GapsFrom36(t: nat)
    requires 36 <= t < 40
    ensures Gap(Prime(t), Prime(t + 1))
  {
    assert Gap(157, 163);
    assert Gap(163, 167);
    assert Gap(167, 173);
    assert Gap(173, 179);
  }

  lemma GapsFrom40(t: nat)
    requires 40 <= t < 44
    ensures Gap(Prime(t), Prime(t + 1))
  {
    assert Gap(179, 181);
    assert Gap(181, 191);
    assert Gap(191, 193);
    assert Gap(193, 197);
  }

  lemma GapsFrom44(t: nat)
    requires 44 <= t < 48
    ensures Gap(Prime(t), Prime(t + 1))
  {
    assert Gap(197, 199);
    assert Gap(199, 211);
    assert Gap(211, 223);
    assert Gap(223, 227);
  }

  lemma GapsFrom48(t: nat)
    requires 48 <= t < 52
    ensures Gap(Prime(t), Prime(t + 1))
  {
    assert Gap(227, 229);
    assert Gap(229, 233);
    assert Gap(233, 239);
    assert Gap(239, 241);
  }

  lemma GapsFrom52(t: nat)
    requires 52 <= t < 56
    ensures Gap(Prime(t), Prime(t + 1))
  {
    assert Gap(241, 251);
    assert Gap(251, 257);
    assert Gap(257, 263);
    assert Gap(263, 269);
  }

  lemma GapsFrom56(t: nat)
    requires 56 <= t < 60
    ensures Gap(Prime(t), Prime(t + 1))
  {
    assert Gap(269, 271);
    assert Gap(271, 277);
    assert Gap(277, 281);
    assert Gap(281, 283);
  }

  lemma GapsFrom60(t: nat)
    requires 60 <= t < 63
    ensures Gap(Prime(t), Prime(t + 1))
  {
    assert Gap(283, 293);
    assert Gap(293, 307);
    assert Gap(307, 311);
  }

  lemma Gaps(t: nat)
    requires t < 63
    ensures Gap(Prime(t), Prime(t + 1))
  {
    if t < 4 { GapsFrom0(t); }
    else if t < 8 { GapsFrom4(t); }
    else if t < 12 { GapsFrom8(t); }
    else if t < 16 { GapsFrom12(t); }
    else if t < 20 { GapsFrom16(t); }
    else if t < 24 { GapsFrom20(t); }
    else if t < 28 { GapsFrom24(t); }
    else if t < 32 { GapsFrom28(t); }
    else if t < 36 { GapsFrom32(t); }
    else if t < 40 { GapsFrom36(t); }
    else if t < 44 { GapsFrom40(t); }
    else if t < 48 { GapsFrom44(t); }
    else if t < 52 { GapsFrom48(t); }
    else if t < 56 { GapsFrom52(t); }
    else if t < 60 { GapsFrom56(t); }
    else { GapsFrom60(t); }
  }

  /** They are the first sixty-four: two is the first, and each is the next prime after the one before it. */
  lemma PrimesInOrder(t: nat)
    requires t < 64
    ensures IsPrime(Prime(t)) && Prime(0) == 2
    ensures t < 63 ==> Prime(t) < Prime(t + 1) && forall n :: Prime(t) < n < Prime(t + 1) ==> !IsPrime(n)
  {
    if t == 63 {
      assert Survives(311);
    } else {
      Gaps(t);
      forall n | Prime(t) < n < Prime(t + 1)
        ensures !IsPrime(n)
      {
        NoneFromMeans(Prime(t) + 1, Prime(t + 1), n);
        SieveIsExact(n);
      }
    }
    SieveIsExact(Prime(t));
  }
}
