/** The 64-bit nanosecond differences of time_delta.h, with C++'s truncating division written out. */
module TimeDelta {

  const MIN: int := -0x8000_0000_0000_0000
  const MAX: int := 0x7fff_ffff_ffff_ffff

  type Int64 = n: int | MIN <= n <= MAX

  datatype TimeDelta = TimeDelta(delta: Int64)
  datatype Timespec = Timespec(sec: Int64, nsec: Int64)

  datatype Checked<T> = Value(value: T) | Overflow

  /** Division and remainder toward zero. */
  function Quot(n: int, d: int): int
    requires d > 0
  {
    if n >= 0 then n / d else -(-n / d)
  }

  function Rem(n: int, d: int): int
    requires d > 0
  {
    n - Quot(n, d) * d
  }

  function ToNanoseconds(t: TimeDelta): int { t.delta }
  function ToMicroseconds(t: TimeDelta): int { Quot(ToNanoseconds(t), 1000) }
  function ToMilliseconds(t: TimeDelta): int { Quot(ToMicroseconds(t), 1000) }
  function ToSeconds(t: TimeDelta): int { Quot(ToMilliseconds(t), 1000) }

  function Int64Of(n: int): Checked<Int64> { if MIN <= n <= MAX then Value(n) else Overflow }

  function FromNanoseconds(n: Int64): Checked<TimeDelta> { Value(TimeDelta(n)) }

  function FromMicroseconds(n: Int64): Checked<TimeDelta> {
    match Int64Of(n * 1000)
    case Value(nanos) => FromNanoseconds(nanos)
    case Overflow => Overflow
  }

  function FromMilliseconds(n: Int64): Checked<TimeDelta> {
    match Int64Of(n * 1000)
    case Value(micros) => FromMicroseconds(micros)
    case Overflow => Overflow
  }

  function FromSeconds(n: Int64): Checked<TimeDelta> {
    match Int64Of(n * 1000)
    case Value(millis) => FromMilliseconds(millis)
    case Overflow => Overflow
  }

  function Plus(a: TimeDelta, b: TimeDelta): Checked<TimeDelta> {
    match Int64Of(a.delta + b.delta)
    case Value(sum) => FromNanoseconds(sum)
    case Overflow => Overflow
  }

  function ToTimespec(t: TimeDelta): Timespec {
    SecondsFit(t);
    Timespec(ToSeconds(t), Rem(t.delta, 1_000_000_000))
  }

  function FromTimespec(ts: Timespec): Checked<TimeDelta> {
    match FromSeconds(ts.sec)
    case Overflow => Overflow
    case Value(seconds) => Plus(seconds, TimeDelta(ts.nsec))
  }

  // ---------- division ----------

  /** A quotient and a remainder toward zero: the remainder is shorter than the divisor and has the sign of `n`. */
  predicate Divides(n: int, d: int, q: int, r: int) {
    n == q * d + r && -d < r < d && (n >= 0 ==> r >= 0) && (n <= 0 ==> r <= 0)
  }

  lemma QuotDivides(n: int, d: int)
    requires d > 0
    ensures Divides(n, d, Quot(n, d), Rem(n, d))
  {
    var m := if n >= 0 then n else -n;
    assert m == (m / d) * d + m % d;
  }

  lemma MultipleIsLong(m: int, d: int)
    requires d > 0 && -d < m * d < d
    ensures m == 0
  {
    if m >= 1 {
      assert m * d >= 1 * d by { MonotoneTimes(1, m, d); }
    } else if m <= -1 {
      assert m * d <= -1 * d by { MonotoneTimes(m, -1, d); }
    }
  }

  lemma MonotoneTimes(m: int, n: int, d: int)
    requires m <= n && d >= 0
    ensures m * d <= n * d
  {
  }

  /** There is only one such pair. */
  lemma DivisionIsUnique(n: int, d: int, q: int, r: int, q': int, r': int)
    requires d > 0 && Divides(n, d, q, r) && Divides(n, d, q', r')
    ensures q == q' && r == r'
  {
    assert (q - q') * d == q * d - q' * d == r' - r;
    MultipleIsLong(q - q', d);
  }

  /** Dividing by `a` and then by `b` toward zero is dividing once by `a * b`. */
  lemma QuotOfQuot(n: int, a: int, b: int)
    requires a > 0 && b > 0
    ensures a * b > 0 && Quot(Quot(n, a), b) == Quot(n, a * b)
  {
    var q := Quot(n, a);
    var p := Quot(q, b);
    QuotDivides(n, a);
    QuotDivides(q, b);
    DivideTwice(n, a, q, Rem(n, a), b, p, Rem(q, b));
    QuotDivides(n, a * b);
    DivisionIsUnique(n, a * b, p, Rem(q, b) * a + Rem(n, a), Quot(n, a * b), Rem(n, a * b));
  }

  lemma DivideTwice(n: int, a: int, q: int, r: int, b: int, p: int, s: int)
    requires a > 0 && b > 0 && Divides(n, a, q, r) && Divides(q, b, p, s)
    ensures a * b > 0 && Divides(n, a * b, p, s * a + r)
  {
    assert n == (p * b + s) * a + r == p * (a * b) + (s * a + r);
    MonotoneTimes(s, b - 1, a);
    MonotoneTimes(1 - b, s, a);
    assert (b - 1) * a == a * b - a;
    SignOfRest(n, a, q, r, b, p, s);
  }

  lemma SignOfRest(n: int, a: int, q: int, r: int, b: int, p: int, s: int)
    requires a > 0 && b > 0 && Divides(n, a, q, r) && Divides(q, b, p, s)
    ensures (n >= 0 ==> s * a + r >= 0) && (n <= 0 ==> s * a + r <= 0)
  {
    if n >= 0 {
      if q < 0 {
        MonotoneTimes(q, -1, a);
      }
      MonotoneTimes(0, s, a);
    }
    if n <= 0 {
      if q > 0 {
        MonotoneTimes(1, q, a);
      }
      MonotoneTimes(s, 0, a);
    }
  }

  // ---------- conversions ----------

  /** The chained conversions truncate as one division of the nanoseconds does. */
  lemma ConversionsTruncateOnce(t: TimeDelta)
    ensures ToMilliseconds(t) == Quot(t.delta, 1_000_000)
    ensures ToSeconds(t) == Quot(t.delta, 1_000_000_000)
  {
    QuotOfQuot(t.delta, 1000, 1000);
    QuotOfQuot(t.delta, 1_000_000, 1000);
  }

  /** `n` of a unit is what fits into the difference: it leaves less than one unit, on the same side of zero. */
  predicate Fits(t: TimeDelta, n: int, unit: int) {
    var rest := t.delta - n * unit;
    -unit < rest < unit && (t.delta >= 0 ==> rest >= 0) && (t.delta <= 0 ==> rest <= 0)
  }

  /** Each conversion gives exactly the whole units that fit. */
  lemma ConversionsFitIff(t: TimeDelta, n: int)
    ensures n == ToMicroseconds(t) <==> Fits(t, n, 1_000)
    ensures n == ToMilliseconds(t) <==> Fits(t, n, 1_000_000)
    ensures n == ToSeconds(t) <==> Fits(t, n, 1_000_000_000)
  {
    ConversionsTruncateOnce(t);
    QuotFitsIff(t, n, 1_000);
    QuotFitsIff(t, n, 1_000_000);
    QuotFitsIff(t, n, 1_000_000_000);
  }

  lemma QuotFitsIff(t: TimeDelta, n: int, unit: int)
    requires unit > 0
    ensures n == Quot(t.delta, unit) <==> Fits(t, n, unit)
  {
    var q, r := Quot(t.delta, unit), Rem(t.delta, unit);
    QuotDivides(t.delta, unit);
    if Fits(t, n, unit) {
      DivisionIsUnique(t.delta, unit, n, t.delta - n * unit, q, r);
    }
  }

  /** The whole seconds, back in nanoseconds, lie between zero and the difference itself. */
  lemma SecondsFit(t: TimeDelta)
    ensures var nanos := ToSeconds(t) * 1_000_000_000;
            && nanos == t.delta - Rem(t.delta, 1_000_000_000)
            && (if t.delta >= 0 then 0 <= nanos <= t.delta else t.delta <= nanos <= 0)
  {
    ConversionsTruncateOnce(t);
    QuotDivides(t.delta, 1_000_000_000);
    WholeBillions(t.delta, ToSeconds(t), Rem(t.delta, 1_000_000_000));
  }

  lemma WholeBillions(n: int, q: int, r: int)
    requires Divides(n, 1_000_000_000, q, r)
    ensures q * 1_000_000_000 == n - r
    ensures if n >= 0 then 0 <= q * 1_000_000_000 <= n else n <= q * 1_000_000_000 <= 0
  {
  }

  /** A count of seconds survives when its nanoseconds fit 64 bits, and overflows otherwise; no step before the last decides. */
  lemma FromSecondsFitsIff(n: Int64)
    ensures FromSeconds(n) ==
            if MIN <= n * 1_000_000_000 <= MAX then Value(TimeDelta(n * 1_000_000_000)) else Overflow
  {
  }

  /** The same for the smaller units. */
  lemma FromUnitsFitIff(n: Int64)
    ensures FromMicroseconds(n) == if MIN <= n * 1_000 <= MAX then Value(TimeDelta(n * 1_000)) else Overflow
    ensures FromMilliseconds(n) == if MIN <= n * 1_000_000 <= MAX then Value(TimeDelta(n * 1_000_000)) else Overflow
  {
  }

  /** From seconds and back is the identity; to seconds and back drops the fraction. */
  lemma SecondsRoundTrip(t: TimeDelta, n: Int64)
    ensures FromSeconds(n).Value? ==> ToSeconds(FromSeconds(n).value) == n
    ensures MIN <= ToSeconds(t) <= MAX &&
            FromSeconds(ToSeconds(t)) == Value(TimeDelta(t.delta - Rem(t.delta, 1_000_000_000)))
  {
    if FromSeconds(n).Value? {
      var u := FromSeconds(n).value;
      FromSecondsFitsIff(n);
      SecondsFit(u);
      MultipleOfBillion(u.delta, n);
    }
    SecondsFit(t);
    FromSecondsFitsIff(ToSeconds(t));
  }

  lemma MultipleOfBillion(n: int, q: int)
    requires n == q * 1_000_000_000
    ensures Rem(n, 1_000_000_000) == 0
  {
    QuotDivides(n, 1_000_000_000);
    DivisionIsUnique(n, 1_000_000_000, q, 0, Quot(n, 1_000_000_000), Rem(n, 1_000_000_000));
  }

  /** Every difference, negative ones included, survives the trip through a timespec, and nothing overflows on the way. */
  lemma TimespecRoundTrip(t: TimeDelta)
    ensures FromTimespec(ToTimespec(t)) == Value(t)
  {
    SecondsFit(t);
    FromSecondsFitsIff(ToSeconds(t));
  }

  /** A timespec has the whole seconds that fit, and the rest. */
  lemma TimespecIsTruncated(t: TimeDelta)
    ensures var ts := ToTimespec(t);
            Fits(t, ts.sec, 1_000_000_000) && ts.nsec == t.delta - ts.sec * 1_000_000_000
  {
    ConversionsFitIff(t, ToSeconds(t));
    SecondsFit(t);
  }

  /** The nanoseconds of a timespec are proper (in [0, 10^9)) exactly for differences that are not a negative fraction. */
  lemma TimespecIsProperIff(t: TimeDelta)
    ensures 0 <= ToTimespec(t).nsec < 1_000_000_000 <==> t.delta >= 0 || exists n :: t.delta == n * 1_000_000_000
  {
    QuotDivides(t.delta, 1_000_000_000);
    if n :| t.delta == n * 1_000_000_000 {
      MultipleOfBillion(t.delta, n);
    }
    if ToTimespec(t).nsec == 0 {
      assert t.delta == Quot(t.delta, 1_000_000_000) * 1_000_000_000;
    }
  }
}
