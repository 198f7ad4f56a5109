/** The cyclic 32-bit millisecond times of time_utils.cpp, against the true times they stand for. */
module TimeUtils {
  import opened Integers

  const HALF: int := TWO31

  type Stamp = t: int | 0 <= t < TWO32

  /** The stamp of a true time. */
  function StampOf(time: int): Stamp { time % TWO32 }

  /** A difference of stamps as a `uint32_t`, and that as an `int32_t`. */
  function Unsigned(n: int): Stamp
    requires -TWO32 < n < TWO32
  {
    if n < 0 then n + TWO32 else n
  }

  function Signed(n: Stamp): int { if n < HALF then n else n - TWO32 }

  predicate TimeIsBetween(earlier: Stamp, middle: Stamp, later: Stamp) {
    if earlier <= later then earlier <= middle && middle <= later
    else !(later < middle && middle < earlier)
  }

  predicate TimeIsLaterOrEqual(earlier: Stamp, later: Stamp) {
    var diff := Signed(Unsigned(later - earlier));
    diff >= 0 && diff < HALF
  }

  predicate TimeIsLater(earlier: Stamp, later: Stamp) {
    var diff := Signed(Unsigned(later - earlier));
    diff > 0 && diff < HALF
  }

  function TimeDiff(later: Stamp, earlier: Stamp): int { Signed(Unsigned(later - earlier)) }

  function TimeMax(ts1: Stamp, ts2: Stamp): Stamp { if TimeIsLaterOrEqual(ts1, ts2) then ts2 else ts1 }

  function TimeMin(ts1: Stamp, ts2: Stamp): Stamp { if TimeIsLaterOrEqual(ts1, ts2) then ts1 else ts2 }

  // ---------- against the true times ----------

  /** A difference of stamps is the true difference, on the circle. */
  lemma DifferenceOnCircle(t: int, u: int)
    ensures Unsigned(StampOf(t) - StampOf(u)) == (t - u) % TWO32
  {
    var a, b := t / TWO32, u / TWO32;
    var r := Unsigned(StampOf(t) - StampOf(u));
    assert t == a * TWO32 + StampOf(t) && u == b * TWO32 + StampOf(u);
    if StampOf(t) < StampOf(u) {
      Residue(t - u, a - b - 1, r);
    } else {
      Residue(t - u, a - b, r);
    }
  }

  /** `TimeDiff` is off by a whole number of turns, and by none exactly when the true difference fits an `int32_t`. */
  lemma TimeDiffIsTrueIff(earlier: int, later: int)
    ensures TimeDiff(StampOf(later), StampOf(earlier)) == later - earlier <==> -HALF <= later - earlier < HALF
    ensures exists turns :: TimeDiff(StampOf(later), StampOf(earlier)) == later - earlier + turns * TWO32
  {
    var d := later - earlier;
    DifferenceOnCircle(later, earlier);
    var q := d / TWO32;
    assert d == q * TWO32 + d % TWO32;
    if d % TWO32 < HALF {
      assert TimeDiff(StampOf(later), StampOf(earlier)) == d + (-q) * TWO32;
    } else {
      assert TimeDiff(StampOf(later), StampOf(earlier)) == d + (-q - 1) * TWO32;
    }
    if 0 <= d < HALF {
      Residue(d, 0, d);
    } else if -HALF <= d < 0 {
      Residue(d, -1, d + TWO32);
    }
  }

  /** True times less than half a turn apart are compared as they are. */
  lemma ComparesTrueTimes(earlier: int, later: int)
    requires -HALF < later - earlier < HALF
    ensures TimeIsLater(StampOf(earlier), StampOf(later)) <==> earlier < later
    ensures TimeIsLaterOrEqual(StampOf(earlier), StampOf(later)) <==> earlier <= later
    ensures TimeMax(StampOf(earlier), StampOf(later)) == StampOf(if earlier < later then later else earlier)
    ensures TimeMin(StampOf(earlier), StampOf(later)) == StampOf(if earlier < later then earlier else later)
  {
    TimeDiffIsTrueIff(earlier, later);
  }

  /** For any two true times: `TimeIsLater` holds exactly when the later is less than half a turn ahead, whole turns aside. */
  lemma TimeIsLaterIff(earlier: int, later: int)
    ensures TimeIsLater(StampOf(earlier), StampOf(later)) <==> 0 < (later - earlier) % TWO32 < HALF
    ensures TimeIsLaterOrEqual(StampOf(earlier), StampOf(later)) <==> (later - earlier) % TWO32 < HALF
  {
    DifferenceOnCircle(later, earlier);
  }

  /** `middle` is between when, going forward from `earlier`, it comes no later than `later`. */
  lemma TimeIsBetweenIff(earlier: Stamp, middle: Stamp, later: Stamp)
    ensures TimeIsBetween(earlier, middle, later) <==> (middle - earlier) % TWO32 <= (later - earlier) % TWO32
  {
    SmallResidue(middle - earlier);
    SmallResidue(later - earlier);
  }

  lemma SmallResidue(n: int)
    requires -TWO32 < n < TWO32
    ensures n % TWO32 == Unsigned(n)
  {
    Residue(n, if n < 0 then -1 else 0, Unsigned(n));
  }

  /** So, for true times in order within one turn, exactly the times from the first to the last are between them. */
  lemma BetweenTrueTimes(earlier: int, middle: int, later: int)
    requires earlier <= later < earlier + TWO32 && earlier <= middle < earlier + TWO32
    ensures TimeIsBetween(StampOf(earlier), StampOf(middle), StampOf(later)) <==> middle <= later
  {
    DifferenceOnCircle(middle, earlier);
    DifferenceOnCircle(later, earlier);
    Residue(middle - earlier, 0, middle - earlier);
    Residue(later - earlier, 0, later - earlier);
  }

  /** Exactly half a turn apart, neither time is later, and `TimeMax` gives its first argument. */
  lemma HalfATurnIsNeither(time: int)
    ensures !TimeIsLater(StampOf(time), StampOf(time + HALF)) && !TimeIsLater(StampOf(time + HALF), StampOf(time))
    ensures TimeMax(StampOf(time), StampOf(time + HALF)) == StampOf(time)
  {
    TimeIsLaterIff(time, time + HALF);
    TimeIsLaterIff(time + HALF, time);
    Residue(HALF, 0, HALF);
    Residue(-HALF, -1, HALF);
  }
}
