/**
  The auto-reset event of waitable_event.cpp, used by any number of threads. Each step is what one thread does
  while it holds the mutex; a blocked thread may wake up at any moment, notified or not.
 */
module WaitableEvent {
  import opened Wrappers
  import opened Runs

  type Time = int
  type Thread = nat

  datatype Status =
    | Outside
    | Blocked
    /** In `wait_for`: called with `remaining` computed at `sampled`, it expires at `expiry`. */
    | Timed(start: Time, timeout: Time, sampled: Time, remaining: Time, expiry: Time)

  datatype State = State(clock: Time, signaled: bool, threads: map<Thread, Status>)

  datatype Step =
    | Tick(now: Time)
    | Signal
    | EnterWait(t: Thread)
    | WakeWait(t: Thread)
    | EnterTimed(t: Thread, timeout: Time, expiry: Time)
    | WakeTimed(t: Thread, expiry: Time)
    | Expire(t: Thread)

  datatype Outcome = Nothing | Success | TimedOut

  predicate Init(s: State) {
    !s.signaled && forall t :: t in s.threads ==> s.threads[t] == Outside
  }

  predicate Enabled(s: State, e: Step) {
    match e
    case Tick(now) => s.clock <= now
    case Signal => true
    case EnterWait(t) => t in s.threads && s.threads[t] == Outside
    case WakeWait(t) => t in s.threads && s.threads[t] == Blocked
    case EnterTimed(t, timeout, expiry) =>
      t in s.threads && s.threads[t] == Outside && s.clock + timeout <= expiry
    case WakeTimed(t, expiry) =>
      && t in s.threads && s.threads[t].Timed?
      && s.clock + (s.threads[t].timeout - (s.clock - s.threads[t].start)) <= expiry
    case Expire(t) => t in s.threads && s.threads[t].Timed? && s.threads[t].expiry <= s.clock
  }

  /** A waiter that finds the event signaled takes it down and returns. */
  function Taking(s: State, t: Thread): State {
    s.(signaled := false, threads := s.threads[t := Outside])
  }

  function Next(s: State, e: Step): (State, Outcome)
    requires Enabled(s, e)
  {
    match e
    case Tick(now) => (s.(clock := now), Nothing)
    case Signal => (s.(signaled := true), Nothing)
    case EnterWait(t) =>
      if s.signaled then (Taking(s, t), Success) else (s.(threads := s.threads[t := Blocked]), Nothing)
    case WakeWait(t) =>
      if s.signaled then (Taking(s, t), Success) else (s, Nothing)
    case EnterTimed(t, timeout, expiry) =>
      if s.signaled then (Taking(s, t), Success)
      else (s.(threads := s.threads[t := Timed(s.clock, timeout, s.clock, timeout, expiry)]), Nothing)
    case WakeTimed(t, expiry) =>
      if s.signaled then (Taking(s, t), Success)
      else
        var w := s.threads[t];
        var elapsed := s.clock - w.start;
        if elapsed >= w.timeout then (s.(threads := s.threads[t := Outside]), TimedOut)
        else (s.(threads := s.threads[t := Timed(w.start, w.timeout, s.clock, w.timeout - elapsed, expiry)]), Nothing)
    case Expire(t) => (s.(threads := s.threads[t := Outside]), TimedOut)
  }

  ghost predicate Run(states: seq<State>, steps: seq<Step>) {
    && |states| == |steps| + 1
    && Init(states[0])
    && forall i :: 0 <= i < |steps| ==> Enabled(states[i], steps[i]) && states[i + 1] == Next(states[i], steps[i]).0
  }

  // ---------- signal accounting ----------

  /** Step `i` is a `Signal` that finds the event down. */
  predicate Raises(states: seq<State>, steps: seq<Step>, i: nat)
    requires i < |steps| && i < |states|
  {
    steps[i].Signal? && !states[i].signaled
  }

  /** Step `i` is the end of a wait that took the signal. */
  ghost predicate Succeeds(states: seq<State>, steps: seq<Step>, i: nat)
    requires i < |steps| && i < |states|
  {
    Enabled(states[i], steps[i]) && Next(states[i], steps[i]).1 == Success
  }

  ghost function Raised(states: seq<State>, steps: seq<Step>, n: nat): nat
    requires n <= |steps| && n <= |states|
  {
    if n == 0 then 0 else Raised(states, steps, n - 1) + if Raises(states, steps, n - 1) then 1 else 0
  }

  ghost function Succeeded(states: seq<State>, steps: seq<Step>, n: nat): nat
    requires n <= |steps| && n <= |states|
  {
    if n == 0 then 0 else Succeeded(states, steps, n - 1) + if Succeeds(states, steps, n - 1) then 1 else 0
  }

  /**
    Over every interleaving and at every moment of it, the number of times the event went up equals the number
    of successful waits, plus one if it is still up.
   */
  lemma {:induction false} SignalsBalance(states: seq<State>, steps: seq<Step>, n: nat)
    requires Run(states, steps) && n <= |steps|
    ensures Raised(states, steps, n) == Succeeded(states, steps, n) + if states[n].signaled then 1 else 0
  {
    if n != 0 {
      SignalsBalance(states, steps, n - 1);
      assert states[n - 1 + 1] == Next(states[n - 1], steps[n - 1]).0;
    }
  }

  /** No signal is taken twice: between two successful waits the event went up again. */
  lemma NoSignalIsTakenTwice(states: seq<State>, steps: seq<Step>, i: nat, j: nat) returns (k: nat)
    requires Run(states, steps) && i < j < |steps| && Succeeds(states, steps, i) && Succeeds(states, steps, j)
    ensures i < k < j && Raises(states, steps, k)
  {
    assert !states[i + 1].signaled && states[j].signaled;
    k := i + 1;
    while !states[k + 1].signaled
      invariant i < k < j && !states[k].signaled
      decreases j - k
    {
      k := k + 1;
    }
    assert states[k + 1] == Next(states[k], steps[k]).0;
  }

  /** The steps in which a waiter looks at the event. */
  predicate Looks(e: Step) { e.EnterWait? || e.WakeWait? || e.EnterTimed? || e.WakeTimed? }

  /**
    Every step in which a waiter looks at the event succeeds exactly when the event is up, and takes it down. A
    wait times out exactly when the condition variable says so, or when it wakes up at its deadline or later and
    the event is down. In every other case the waiter sleeps on, with the deadline it had.
   */
  lemma OutcomeIff(s: State, e: Step)
    requires Enabled(s, e)
    ensures var (s', outcome) := Next(s, e);
            && (outcome == Success <==> Looks(e) && s.signaled)
            && (outcome == TimedOut <==>
                e.Expire? || (e.WakeTimed? && !s.signaled && s.threads[e.t].start + s.threads[e.t].timeout <= s.clock))
            && (s'.signaled <==> e.Signal? || (s.signaled && outcome != Success))
            && (s'.clock == if e.Tick? then e.now else s.clock)
            && (e.Tick? || e.Signal? ==> s'.threads == s.threads)
            && (!e.Tick? && !e.Signal? ==>
                  && e.t in s'.threads && s'.threads == s.threads[e.t := s'.threads[e.t]]
                  && (s'.threads[e.t] == Outside <==> outcome != Nothing))
            && (Looks(e) && outcome == Nothing ==> SleepsOn(s, e, s'.threads[e.t]))
  {
    if e.WakeWait? {
      assert s.threads[e.t := s.threads[e.t]] == s.threads;
    }
  }

  /** What a waiter that finds the event down waits for. */
  predicate SleepsOn(s: State, e: Step, w: Status)
    requires Enabled(s, e) && Looks(e)
  {
    match e
    case EnterWait(_) => w == Blocked
    case WakeWait(_) => w == Blocked
    case EnterTimed(_, timeout, expiry) => w == Timed(s.clock, timeout, s.clock, timeout, expiry)
    case WakeTimed(t, expiry) =>
      && w.Timed? && w.start == s.threads[t].start && w.timeout == s.threads[t].timeout
      && w.sampled == s.clock && w.sampled + w.remaining == w.start + w.timeout && w.expiry == expiry
  }

  // ---------- deadlines ----------

  /** Every re-wait aims at the first deadline, and none expires before it. */
  ghost predicate DeadlinesHold(s: State) {
    forall t :: t in s.threads && s.threads[t].Timed? ==>
      var w := s.threads[t];
      w.sampled + w.remaining == w.start + w.timeout <= w.expiry
  }

  lemma InvStep(s: State, e: Step)
    requires DeadlinesHold(s) && Enabled(s, e)
    ensures DeadlinesHold(Next(s, e).0)
  {
  }

  lemma {:induction false} RunInv(states: seq<State>, steps: seq<Step>, i: nat)
    requires Run(states, steps) && i < |states|
    ensures DeadlinesHold(states[i])
  {
    if i != 0 {
      RunInv(states, steps, i - 1);
      InvStep(states[i - 1], steps[i - 1]);
    }
  }

  /** A wait that times out takes no signal, and does so no earlier than its timeout after it began. */
  lemma TimeoutsAreHonest(states: seq<State>, steps: seq<Step>, i: nat)
    requires Run(states, steps) && i < |steps| && Next(states[i], steps[i]).1 == TimedOut
    ensures steps[i].WakeTimed? || steps[i].Expire?
    ensures var s, s', t := states[i], states[i + 1], steps[i].t;
            && s'.signaled == s.signaled && s'.clock == s.clock
            && t in s.threads && s.threads[t].Timed?
            && s.threads[t].start + s.threads[t].timeout <= s.clock
  {
    RunInv(states, steps, i);
  }

  /** Whenever a timed wait goes back to sleep, what it still waits for ends exactly at the first deadline. */
  lemma DeadlineDoesNotDrift(states: seq<State>, steps: seq<Step>, i: nat, t: Thread)
    requires Run(states, steps) && i < |states| && t in states[i].threads && states[i].threads[t].Timed?
    ensures var w := states[i].threads[t];
            w.sampled + w.remaining == w.start + w.timeout
  {
    RunInv(states, steps, i);
  }

  // ---------- the event object ----------

  /** A step, if it is possible. */
  function TryNext(s: State, e: Step): Option<State> { if Enabled(s, e) then Some(Next(s, e).0) else None }

  /** Whatever an event object has been through, its state is one that a run reaches. */
  lemma AfterIsRun(s: State, steps: seq<Step>) returns (states: seq<State>)
    requires Init(s) && After(TryNext, s, steps).Some?
    ensures Run(states, steps) && states[0] == s && states[|steps|] == After(TryNext, s, steps).value
  {
    states := AfterTrail(TryNext, s, steps);
    forall i | 0 <= i < |steps|
      ensures Enabled(states[i], steps[i]) && states[i + 1] == Next(states[i], steps[i]).0
    {
      assert TryNext(states[i], steps[i]) == Some(states[i + 1]);
    }
  }

  /** The thread that takes a step, or none for the clock and for `Signal`, which any thread may call. */
  function Actor(e: Step): Option<Thread> {
    if e.Tick? || e.Signal? then None else Some(e.t)
  }

  /**
    One sleep of a waiting thread: how late the condition variable is, what happens meanwhile, and whether it
    then reports a timeout, which it can do only when the time it was given is over.
   */
  datatype Sleep = Sleep(slack: nat, others: seq<Step>, expired: bool)

  /** The last of `steps` is a return of a wait with the given outcome. */
  ghost predicate EndsWith(s: State, steps: seq<Step>, t: Thread, outcome: Outcome) {
    && steps != []
    && var n := |steps| - 1;
    var m := After(TryNext, s, steps[..n]);
    m.Some? && Enabled(m.value, steps[n]) && Actor(steps[n]) == Some(t) && Next(m.value, steps[n]).1 == outcome
  }

  lemma Record(s: State, steps: seq<Step>, m: State, e: Step, t: Thread)
    requires After(TryNext, s, steps) == Some(m) && Enabled(m, e) && Actor(e) == Some(t)
    ensures After(TryNext, s, steps + [e]) == Some(Next(m, e).0) && EndsWith(s, steps + [e], t, Next(m, e).1)
  {
    assert (steps + [e])[..|steps|] == steps;
  }

  predicate Waiting(w: Status, start: Time, timeout: Time) { w.Timed? && w.start == start && w.timeout == timeout }

  class AutoResetWaitableEvent {
    var signaled: bool
    var clock: Time
    var threads: map<Thread, Status>

    function View(): State
      reads this
    {
      State(clock, signaled, threads)
    }

    constructor (clock: Time, users: set<Thread>)
      ensures Init(View()) && this.clock == clock && threads.Keys == users
    {
      this.clock, signaled, threads := clock, false, map t | t in users :: Outside;
    }

    method Signal()
      modifies this
      ensures View() == Next(old(View()), Step.Signal).0
    {
      signaled := true;
    }

    /** The mutex is free: the clock and other threads go on, while `t` stays where it is. */
    method Others(t: Thread, others: seq<Step>) returns (ghost steps: seq<Step>)
      requires t in threads
      modifies this
      ensures After(TryNext, old(View()), steps) == Some(View())
      ensures t in threads && threads[t] == old(threads[t]) && clock >= old(clock)
      ensures others == [] ==> View() == old(View())
    {
      steps := [];
      for i := 0 to |others|
        invariant After(TryNext, old(View()), steps) == Some(View()) && (i == 0 ==> View() == old(View()))
        invariant t in threads && threads[t] == old(threads[t]) && clock >= old(clock)
      {
        var e := others[i];
        if Actor(e) != Some(t) && Enabled(View(), e) {
          var next := Next(View(), e).0;
          AfterStep(TryNext, old(View()), steps, View(), e);
          clock, signaled, threads := next.clock, next.signaled, next.threads;
          steps := steps + [e];
        }
      }
    }

    /** A wait on the condition variable: `t` gives up the mutex, and has it again at the end. */
    method GoToSleep(t: Thread, status: Status, others: seq<Step>, ghost s: State, ghost steps: seq<Step>)
      returns (ghost more: seq<Step>)
      requires After(TryNext, s, steps) == Some(View().(threads := threads[t := status]))
      modifies this
      ensures After(TryNext, s, more) == Some(View())
      ensures t in threads && threads[t] == status && clock >= old(clock)
      ensures others == [] ==> signaled == old(signaled) && clock == old(clock)
    {
      threads := threads[t := status];
      ghost var m := View();
      ghost var slept := Others(t, others);
      AfterConcat(TryNext, s, steps, m, slept);
      more := steps + slept;
    }

    /** `Wait`, sleeping as often as given; not done if it would sleep once more. */
    method Wait(t: Thread, sleeps: seq<Sleep>) returns (done: bool, ghost steps: seq<Step>)
      requires t in threads && threads[t] == Outside
      modifies this
      ensures After(TryNext, old(View()), steps) == Some(View())
      ensures done ==> EndsWith(old(View()), steps, t, Success) && !signaled
      ensures t in threads && threads[t] == if done then Outside else Blocked
      ensures old(signaled) ==> done && steps == [EnterWait(t)]
      ensures !done ==> !signaled
    {
      ghost var s := View();
      ghost var e := EnterWait(t);
      var k := 0;
      steps := [];
      while !signaled
        invariant 0 <= k <= |sleeps| && (s.signaled ==> signaled && steps == [] && e == EnterWait(t))
        invariant After(TryNext, s, steps) == Some(View()) && Enabled(View(), e) && (e == EnterWait(t) || e == WakeWait(t))
        decreases |sleeps| - k
      {
        Record(s, steps, View(), e, t);
        assert e.WakeWait? ==> threads[t := Blocked] == threads;
        var others := if k < |sleeps| then sleeps[k].others else [];
        steps := GoToSleep(t, Blocked, others, s, steps + [e]);
        e := WakeWait(t);
        if k == |sleeps| {
          return false, steps;
        }
        k := k + 1;
      }
      Record(s, steps, View(), e, t);
      steps := steps + [e];
      Take(t);
      done := true;
    }

    method Take(t: Thread)
      modifies this
      ensures View() == Taking(old(View()), t)
    {
      signaled := false;
      threads := threads[t := Outside];
    }

    /** `WaitWithTimeout`: whether it timed out, or nothing if it would sleep once more than given. */
    method WaitWithTimeout(t: Thread, timeout: Time, sleeps: seq<Sleep>)
      returns (timedOut: Option<bool>, ghost steps: seq<Step>)
      requires t in threads && threads[t] == Outside
      modifies this
      ensures After(TryNext, old(View()), steps) == Some(View())
      ensures timedOut.Some? ==> EndsWith(old(View()), steps, t, if timedOut.value then TimedOut else Success)
      ensures timedOut == Some(false) ==> !signaled
      ensures timedOut == Some(true) ==> old(clock) + timeout <= clock
      ensures t in threads && (timedOut.Some? ==> threads[t] == Outside)
      ensures timedOut == None ==> Waiting(threads[t], old(clock), timeout) && !signaled
      ensures timedOut == None && sleeps != [] ==> clock < old(clock) + timeout
      ensures old(signaled) ==> timedOut == Some(false) && |steps| == 1
    {
      ghost var s := View();
      ghost var e := EnterTimed(t, timeout, clock + timeout);
      steps := [];
      if signaled {
        Record(s, steps, View(), e, t);
        Take(t);
        return Some(false), [e];
      }
      var remaining, start, k := timeout, clock, 0;
      while true
        invariant 0 <= k <= |sleeps| && !signaled && start == old(clock) <= clock && t in threads
        invariant remaining == start + timeout - clock
        invariant After(TryNext, s, steps) == Some(View())
        invariant if k == 0 then threads[t] == Outside && clock == start else Waiting(threads[t], start, timeout) && remaining > 0
        decreases |sleeps| - k
      {
        var sleep := if k < |sleeps| then sleeps[k] else Sleep(0, [], false);
        var expiry := clock + remaining + sleep.slack;
        e := if k == 0 then EnterTimed(t, timeout, expiry) else WakeTimed(t, expiry);
        Record(s, steps, View(), e, t);
        steps := GoToSleep(t, Timed(start, timeout, clock, remaining, expiry), sleep.others, s, steps + [e]);
        if k == |sleeps| {
          return None, steps;
        }
        if sleep.expired && expiry <= clock {
          Record(s, steps, View(), Expire(t), t);
          threads := threads[t := Outside];
          return Some(true), steps + [Expire(t)];
        }
        e := WakeTimed(t, start + timeout);
        if signaled {
          Record(s, steps, View(), e, t);
          Take(t);
          return Some(false), steps + [e];
        }
        var elapsed := clock - start;
        if elapsed >= timeout {
          Record(s, steps, View(), e, t);
          threads := threads[t := Outside];
          return Some(true), steps + [e];
        }
        remaining, k := timeout - elapsed, k + 1;
      }
    }
  }
}
