/**
  The time budget of the Linux message loop (message_loop_impl_linux.cpp), with epoll and the clock as input.
  Times are nanoseconds since the start; the loop itself counts whole milliseconds.
 */
module RunForTime {
  import opened Integers
  import Delta = TimeDelta

  const MILLI: int := 1_000_000

  /**
    How one `epoll_wait` ended, and the time then. A wait that an interrupt ended counts as woken, with no
    timer; so does one that ran out while `errno` still said that there had been an interrupt.
   */
  datatype Wake =
    | Failed(elapsed: nat)
    | TimedOut(elapsed: nat)
    | Woken(timerFired: bool, terminated: bool, elapsed: nat)

  function Millis(n: int): int { Delta.Quot(n, MILLI) }

  /** `Millis` is `ToMilliseconds` without the bound of 64 bits. */
  lemma MillisIsToMilliseconds(t: Delta.TimeDelta)
    ensures Millis(t.delta) == Delta.ToMilliseconds(t)
  {
    Delta.ConversionsTruncateOnce(t);
  }

  /** The elapsed times that the first `k` wake-ups have subtracted, each counted from the start. */
  function Spent(wakes: seq<Wake>, k: nat): nat
    requires k <= |wakes|
  {
    if k == 0 then 0 else Spent(wakes, k - 1) + Whole(wakes[k - 1].elapsed)
  }

  /** The whole milliseconds in a time since the start. */
  function Whole(n: nat): nat { Millis(n) }

  /** What is left of the duration after `k` wake-ups. */
  function Left(duration: int, wakes: seq<Wake>, k: nat): int
    requires k <= |wakes|
  {
    Millis(duration) - Spent(wakes, k)
  }

  /** The time at which wait `k` begins. */
  function Before(wakes: seq<Wake>, k: nat): nat
    requires k <= |wakes|
  {
    if k == 0 then 0 else wakes[k - 1].elapsed
  }

  /** What ends the loop after wake-up `k`. */
  predicate Ends(duration: int, wakes: seq<Wake>, k: nat)
    requires k < |wakes|
  {
    !wakes[k].Woken? || wakes[k].terminated || Left(duration, wakes, k + 1) <= 0
  }

  /** Wake-up `k` is the timer, for which the loop runs expired tasks. */
  predicate Fires(wakes: seq<Wake>, k: nat)
    requires k < |wakes|
  {
    wakes[k].Woken? && wakes[k].timerFired
  }

  /**
    `RunForTime`: the time left at each `epoll_wait` (which gets it as an `int`), and the wake-ups at which it runs
    expired tasks. It goes on exactly after a wake-up that neither failed nor timed out, that did not terminate the
    loop, and that left some time.
   */
  method RunForTime(duration: Delta.TimeDelta, wakes: seq<Wake>)
    returns (lefts: seq<int>, flushed: seq<nat>, running: bool)
    ensures |lefts| <= |wakes| && (running ==> |lefts| == |wakes|) && (wakes != [] ==> lefts != [])
    ensures forall k :: 0 <= k < |lefts| ==> lefts[k] == Left(duration.delta, wakes, k)
    ensures forall k :: 0 <= k < |lefts| - 1 ==>
              wakes[k].Woken? && !wakes[k].terminated && Left(duration.delta, wakes, k + 1) > 0
    ensures lefts != [] ==>
              (running <==>
               && wakes[|lefts| - 1].Woken? && !wakes[|lefts| - 1].terminated
               && Left(duration.delta, wakes, |lefts|) > 0)
    ensures forall k :: k in flushed <==> 0 <= k < |lefts| && Fires(wakes, k)
    ensures forall i, j :: 0 <= i < j < |flushed| ==> flushed[i] < flushed[j]
  {
    running := true;
    MillisIsToMilliseconds(duration);
    var left := Delta.ToMilliseconds(duration);
    lefts, flushed := [], [];
    while running && |lefts| < |wakes|
      invariant |lefts| <= |wakes|
      invariant forall k :: 0 <= k < |lefts| ==> lefts[k] == Left(duration.delta, wakes, k)
      invariant forall k :: 0 <= k < |lefts| - 1 ==> !Ends(duration.delta, wakes, k)
      invariant lefts == [] ==> running
      invariant lefts != [] ==> (running <==> !Ends(duration.delta, wakes, |lefts| - 1))
      invariant running ==> left == Left(duration.delta, wakes, |lefts|)
      invariant forall k :: k in flushed <==> 0 <= k < |lefts| && Fires(wakes, k)
      invariant forall i, j :: 0 <= i < j < |flushed| ==> flushed[i] < flushed[j]
      decreases |wakes| - |lefts|
    {
      var wake := wakes[|lefts|];
      lefts := lefts + [left];
      if !wake.Woken? {
        running := false;
        continue;
      }
      if wake.timerFired {
        assert forall i :: 0 <= i < |flushed| ==> flushed[i] in flushed;
        flushed := flushed + [|lefts| - 1];
      }
      left := left - Whole(wake.elapsed);
      if left <= 0 || wake.terminated {
        running := false;
      }
    }
    forall k | 0 <= k < |lefts| - 1
      ensures wakes[k].Woken? && !wakes[k].terminated && Left(duration.delta, wakes, k + 1) > 0
    {
      assert !Ends(duration.delta, wakes, k);
    }
  }

  // ---------- no wait is too long ----------

  lemma {:induction false} SpentCovers(wakes: seq<Wake>, j: nat, k: nat)
    requires j < k <= |wakes|
    ensures Whole(wakes[j].elapsed) <= Spent(wakes, k)
    decreases k
  {
    if j < k - 1 {
      SpentCovers(wakes, j, k - 1);
    }
  }

  /** No wait is longer than the duration less the whole milliseconds that have passed. */
  lemma WaitIsWithinBudget(duration: int, wakes: seq<Wake>, j: nat, k: nat)
    requires Millis(duration) < TWO31 && j < k < |wakes| && !Ends(duration, wakes, k - 1)
    ensures 0 < AsInt32(Left(duration, wakes, k)) <= Millis(duration) - Whole(wakes[j].elapsed)
  {
    SpentCovers(wakes, j, k);
    AsInt32Fits(Left(duration, wakes, k));
  }

  /** The loop has ended once the duration has passed. */
  lemma EndsInTime(duration: int, wakes: seq<Wake>, k: nat)
    requires k < |wakes| && duration <= wakes[k].elapsed
    ensures Ends(duration, wakes, k)
  {
    SpentCovers(wakes, k, k + 1);
    Parts(duration);
    Parts(wakes[k].elapsed);
  }

  /** Epoll waits without end exactly when the wide value it gets is in the upper half of its 2^32 values. */
  lemma WaitsForeverIff(duration: int, wakes: seq<Wake>, k: nat)
    requires k <= |wakes|
    ensures AsInt32(Left(duration, wakes, k)) < 0 <==> Left(duration, wakes, k) % TWO32 >= TWO31
  {
    AsInt32NonNegativeIff(Left(duration, wakes, k));
  }

  // ---------- when the loop returns too early ----------

  /** The whole milliseconds and the rest. */
  lemma Parts(n: int)
    ensures n >= 0 ==> n == Millis(n) * MILLI + n % MILLI && Millis(n) >= 0
    ensures n <= 0 ==> Millis(n) <= 0
  {
  }

  /** After `k` wake-ups, one at `e` would use up what is left. */
  predicate UsesUp(duration: int, wakes: seq<Wake>, k: nat, e: nat)
    requires k <= |wakes|
  {
    Before(wakes, k) <= e && Left(duration, wakes, k) <= Whole(e)
  }

  /** After `k` wake-ups, the wait can run out at `e`: not before the milliseconds asked for are over. */
  predicate RunsOut(duration: int, wakes: seq<Wake>, k: nat, e: nat)
    requires k <= |wakes|
  {
    var wait := AsInt32(Left(duration, wakes, k));
    0 <= wait && Before(wakes, k) + wait * MILLI <= e
  }

  /** The loop waits once more: nothing has used up the budget yet. */
  predicate Waiting(duration: int, wakes: seq<Wake>, k: nat) {
    k <= |wakes| && (k > 0 ==> Left(duration, wakes, k) > 0)
  }

  lemma BeforeIsSpent(wakes: seq<Wake>, k: nat)
    requires k <= |wakes|
    ensures Whole(Before(wakes, k)) <= Spent(wakes, k)
  {
    if k > 0 {
      SpentCovers(wakes, k - 1, k);
    }
  }

  /**
    The next wake-up that uses up the budget cannot come before the duration is over, exactly when no earlier
    one came a whole millisecond after the start and the duration is a whole number of milliseconds.
   */
  lemma BudgetOnTimeIff(duration: int, wakes: seq<Wake>, k: nat)
    requires Waiting(duration, wakes, k)
    ensures (forall e: nat :: UsesUp(duration, wakes, k, e) ==> duration <= e) <==>
            duration <= 0 || (Spent(wakes, k) == 0 && duration % MILLI == 0)
  {
    Parts(duration);
    if duration > 0 {
      var b := Before(wakes, k);
      BeforeIsSpent(wakes, k);
      Parts(b);
      var least := Left(duration, wakes, k) * MILLI;
      var e: nat := if least < b then b else least;
      Parts(e);
      assert Left(duration, wakes, k) <= Whole(e);
      assert UsesUp(duration, wakes, k, e);
      forall e: nat | UsesUp(duration, wakes, k, e)
        ensures least <= e
      {
        Parts(e);
      }
    }
  }

  /**
    The next wait cannot run out before the duration is over, exactly when it has no end, or when what it gets
    fits an `int`, nothing but the last wake-up has been subtracted, and that came as far into its millisecond
    as the duration ends in its own.
   */
  lemma TimeoutOnTimeIff(duration: int, wakes: seq<Wake>, k: nat)
    requires Waiting(duration, wakes, k)
    ensures (forall e: nat :: RunsOut(duration, wakes, k, e) ==> duration <= e) <==>
            || duration <= 0
            || Left(duration, wakes, k) % TWO32 >= TWO31
            || (&& Left(duration, wakes, k) < TWO31
                && Spent(wakes, k) == Whole(Before(wakes, k))
                && duration % MILLI <= Before(wakes, k) % MILLI)
  {
    Parts(duration);
    WaitsForeverIff(duration, wakes, k);
    var left, b := Left(duration, wakes, k), Before(wakes, k);
    if duration > 0 && AsInt32(left) >= 0 {
      BeforeIsSpent(wakes, k);
      Parts(b);
      var e: nat := b + AsInt32(left) * MILLI;
      assert RunsOut(duration, wakes, k, e);
      if left < TWO31 {
        AsInt32Fits(left);
      } else {
        var turns :| left == AsInt32(left) + turns * TWO32;
        assert turns >= 1;
      }
    }
  }

  /**
    Both together: wherever the loop is, it cannot end too early by itself exactly when all wake-ups so far came
    within the first millisecond, the duration is a whole number of milliseconds, and epoll is not given a part
    of it only.
   */
  lemma OnTimeIff(duration: int, wakes: seq<Wake>, k: nat)
    requires Waiting(duration, wakes, k)
    ensures (forall e: nat :: UsesUp(duration, wakes, k, e) || RunsOut(duration, wakes, k, e) ==> duration <= e) <==>
            || duration <= 0
            || (&& (forall j :: 0 <= j < k ==> wakes[j].elapsed < MILLI)
                && duration % MILLI == 0
                && (Millis(duration) < TWO31 || Millis(duration) % TWO32 >= TWO31))
  {
    BudgetOnTimeIff(duration, wakes, k);
    TimeoutOnTimeIff(duration, wakes, k);
    SpentNothingIff(wakes, k);
    BeforeIsSpent(wakes, k);
    if duration > 0 && Spent(wakes, k) == 0 && duration % MILLI == 0 {
      assert Left(duration, wakes, k) == Millis(duration);
    }
  }

  lemma {:induction false} SpentNothingIff(wakes: seq<Wake>, k: nat)
    requires k <= |wakes|
    ensures Spent(wakes, k) == 0 <==> forall j :: 0 <= j < k ==> wakes[j].elapsed < MILLI
  {
    if k != 0 {
      SpentNothingIff(wakes, k - 1);
      WholeIsZeroIff(wakes[k - 1].elapsed);
    }
  }

  lemma WholeIsZeroIff(n: nat)
    ensures Whole(n) == 0 <==> n < MILLI
  {
  }

  /** The wake-ups are what a clock that never goes back and an `epoll_wait` that is never short allow. */
  ghost predicate Possible(duration: int, wakes: seq<Wake>) {
    forall k :: 0 <= k < |wakes| ==>
      && Before(wakes, k) <= wakes[k].elapsed
      && (wakes[k].TimedOut? ==> RunsOut(duration, wakes, k, wakes[k].elapsed))
  }

  /** So a call under that condition, which no failure and no `Terminate` ends, lasts at least its duration. */
  lemma LastsItsDuration(duration: int, wakes: seq<Wake>, k: nat)
    requires Possible(duration, wakes) && k < |wakes| && forall j :: 0 <= j < k ==> !Ends(duration, wakes, j)
    requires Ends(duration, wakes, k) && !wakes[k].Failed? && (wakes[k].Woken? ==> !wakes[k].terminated)
    requires duration % MILLI == 0 && forall j :: 0 <= j < k ==> wakes[j].elapsed < MILLI
    requires Millis(duration) < TWO31 || Millis(duration) % TWO32 >= TWO31
    ensures duration <= wakes[k].elapsed
  {
    assert k > 0 ==> !Ends(duration, wakes, k - 1);
    OnTimeIff(duration, wakes, k);
    assert wakes[k].Woken? ==> UsesUp(duration, wakes, k, wakes[k].elapsed);
  }

  /** A possible call that ends by itself at wake-up `k`, before its duration is over. */
  ghost predicate EndsEarly(duration: int, wakes: seq<Wake>, k: nat) {
    && Possible(duration, wakes) && k < |wakes| && (forall j :: 0 <= j < k ==> !Ends(duration, wakes, j))
    && Ends(duration, wakes, k) && !wakes[k].Failed? && (wakes[k].Woken? ==> !wakes[k].terminated)
    && wakes[k].elapsed < duration
  }

  /** Before the call: it cannot end early, whatever wakes it up, exactly for one millisecond and for no time at all. */
  lemma CanEndEarlyIff(duration: int)
    ensures (exists wakes, k :: EndsEarly(duration, wakes, k)) <==> 0 < duration != MILLI
  {
    if 0 < duration != MILLI {
      var wakes, k := EarlyCall(duration);
    } else {
      forall wakes, k | EndsEarly(duration, wakes, k)
        ensures false
      {
        SettlesAtOnce(duration, wakes, k);
        LastsItsDuration(duration, wakes, k);
      }
    }
  }

  /** In a call of one millisecond every wake-up that does not end it comes within that. */
  lemma SettlesAtOnce(duration: int, wakes: seq<Wake>, k: nat)
    requires duration == MILLI && k < |wakes| && forall j :: 0 <= j < k ==> !Ends(duration, wakes, j)
    ensures forall j :: 0 <= j < k ==> wakes[j].elapsed < MILLI
  {
    assert Millis(MILLI) == 1;
    if k > 0 {
      assert !Ends(duration, wakes, k - 1);
      SpentNothingIff(wakes, k);
    }
  }

  /** A wake-up at once ends a shorter call; one at a millisecond makes a longer one end a millisecond early. */
  lemma EarlyCall(duration: int) returns (wakes: seq<Wake>, k: nat)
    requires 0 < duration != MILLI
    ensures EndsEarly(duration, wakes, k)
  {
    Parts(duration);
    var whole := Millis(duration);
    if whole <= 1 {
      var e := whole * MILLI;
      wakes, k := [Woken(true, false, e)], 0;
      assert Whole(e) == whole;
      assert Spent(wakes, 1) == whole;
    } else {
      var e := (whole - 1) * MILLI;
      wakes, k := [Woken(true, false, MILLI), Woken(true, false, e)], 1;
      assert Whole(MILLI) == 1 && Whole(e) == whole - 1;
      assert Spent(wakes, 1) == 1 && Spent(wakes, 2) == whole;
    }
  }

  // ---------- three calls that end too early ----------

  /** Ten milliseconds with a timer firing every millisecond are over after four. */
  lemma TenMillisecondsLastFour(wakes: seq<Wake>)
    requires |wakes| == 4 && forall j :: 0 <= j < 4 ==> wakes[j] == Woken(true, false, (j + 1) * MILLI)
    ensures Ends(10 * MILLI, wakes, 3) && wakes[3].elapsed == 4 * MILLI
    ensures forall k :: 0 <= k < 3 ==> !Ends(10 * MILLI, wakes, k)
  {
    assert Spent(wakes, 1) == 1 && Spent(wakes, 2) == 3 && Spent(wakes, 3) == 6 && Spent(wakes, 4) == 10;
  }

  /** With the timer at three and at four milliseconds, the third wait runs out at seven. */
  lemma TenMillisecondsRunOutAtSeven(wakes: seq<Wake>)
    requires wakes == [Woken(true, false, 3 * MILLI), Woken(true, false, 4 * MILLI), TimedOut(7 * MILLI)]
    ensures !Ends(10 * MILLI, wakes, 0) && !Ends(10 * MILLI, wakes, 1) && Ends(10 * MILLI, wakes, 2)
    ensures RunsOut(10 * MILLI, wakes, 2, wakes[2].elapsed)
  {
    assert Spent(wakes, 1) == 3 && Spent(wakes, 2) == 7;
    AsInt32Fits(3);
  }

  /** With no wake-up at all, 10.9 milliseconds can be over after ten. */
  lemma FractionIsDropped()
    ensures RunsOut(10_900_000, [], 0, 10_000_000)
  {
    AsInt32Fits(10);
  }

  /** `Run` asks for the longest duration, and what epoll gets of it is about 24 days. */
  lemma RunForeverWaits24Days()
    ensures AsInt32(Millis(Delta.MAX)) == 2_077_252_342
  {
  }
}
