/**
  `MessageLoopImpl` as a class over the shared task queues. Each of its methods is shown to be a sequence of steps
  of the state machine in module MessageLoop. What closures and other threads do to the loop meanwhile, and the
  passing of time, come as input; other loops may use the same queues between the calls.
 */
module MessageLoopImpl {
  import opened Wrappers
  import opened TaskQueues
  import opened MessageLoop

  /** A stretch of a run, from any state. */
  ghost predicate Chain(states: seq<Loop>, events: seq<Event>) {
    && |states| == |events| + 1
    && forall i :: 0 <= i < |events| ==> Next(states[i], events[i], states[i + 1])
  }

  /** `events` leads from `s` to `s'`. */
  ghost predicate Leads(s: Loop, events: seq<Event>, s': Loop) {
    exists states :: Chain(states, events) && states[0] == s && states[|events|] == s'
  }

  lemma LeadsNowhere(s: Loop)
    ensures Leads(s, [], s)
  {
    assert Chain([s], []);
  }

  lemma LeadsOn(s: Loop, events: seq<Event>, m: Loop, e: Event, s': Loop)
    requires Leads(s, events, m) && Next(m, e, s')
    ensures Leads(s, events + [e], s')
  {
    var states :| Chain(states, events) && states[0] == s && states[|events|] == m;
    var states', events' := states + [s'], events + [e];
    forall i | 0 <= i < |events'|
      ensures Next(states'[i], events'[i], states'[i + 1])
    {
      if i < |events| {
        assert Next(states[i], events[i], states[i + 1]);
      }
    }
    assert Chain(states', events');
  }

  function LastWake(wakes: seq<Time>): Option<Time> {
    if wakes == [] then None else Some(wakes[|wakes| - 1])
  }

  /** What a closure, or another thread while it runs, does to the loop. */
  datatype Action =
    | Post(task: Closure, target: Time)
    | Stop
    | Pass(time: nat)

  /** One firing of the timer: what happens before it, and while each of the closures it runs is running. */
  datatype Firing = Firing(before: seq<Action>, during: seq<seq<Action>>)

  /** Posts, termination and time leave the loop thread where it is, and the queue with what it had. */
  ghost predicate Undisturbed(s: Loop, s': Loop) {
    && s'.phase == s.phase && s'.batch == s.batch && s'.executed == s.executed && s'.discarded == s.discarded
    && s.queue <= s'.queue && s.clock <= s'.clock
  }

  predicate FlushEvent(e: Event) { (e.Flush? && e.flush == All) || e.FinalFlush? }

  /** How many full flushes, and how many terminations, there are among some events. */
  ghost function Flushings(events: seq<Event>): nat { |set i | 0 <= i < |events| && FlushEvent(events[i])| }

  ghost function Stops(events: seq<Event>): nat { |set i | 0 <= i < |events| && events[i].Terminate?| }

  lemma CountFlush(events: seq<Event>, e: Event)
    ensures Flushings(events + [e]) == Flushings(events) + if FlushEvent(e) then 1 else 0
  {
    var events' := events + [e];
    var f, f' := set i | 0 <= i < |events| && FlushEvent(events[i]), set i | 0 <= i < |events'| && FlushEvent(events'[i]);
    assert f' == if FlushEvent(e) then f + {|events|} else f;
  }

  lemma CountStop(events: seq<Event>, e: Event)
    ensures Stops(events + [e]) == Stops(events) + if e.Terminate? then 1 else 0
  {
    var events' := events + [e];
    var t, t' := set i | 0 <= i < |events| && events[i].Terminate?, set i | 0 <= i < |events'| && events'[i].Terminate?;
    assert t' == if e.Terminate? then t + {|events|} else t;
  }

  function Foreigns(n: nat): seq<Event> { seq(n, _ => Foreign) }

  // ---------- what some actions amount to ----------

  /** The closures named, the time that passes, and whether the loop is terminated. */
  datatype Effect = Effect(names: set<Closure>, time: nat, stop: bool)

  const NONE := Effect({}, 0, false)

  function Plus(a: Effect, b: Effect): Effect { Effect(a.names + b.names, a.time + b.time, a.stop || b.stop) }

  function EffectOf(action: Action): Effect {
    match action
    case Post(task, _) => Effect({task}, 0, false)
    case Stop => Effect({}, 0, true)
    case Pass(time) => Effect({}, time, false)
  }

  function Total(actions: seq<Action>): Effect {
    if actions == [] then NONE else Plus(Total(actions[..|actions| - 1]), EffectOf(actions[|actions| - 1]))
  }

  lemma TotalNext(actions: seq<Action>, i: nat)
    requires i < |actions|
    ensures Total(actions[..i + 1]) == Plus(Total(actions[..i]), EffectOf(actions[i]))
  {
    assert actions[..i + 1][..i] == actions[..i];
  }

  /** What happens during the first `n` closures of a batch. */
  function During(during: seq<seq<Action>>, n: nat): Effect {
    if n == 0 then NONE else Plus(During(during, n - 1), if n - 1 < |during| then Total(during[n - 1]) else NONE)
  }

  // ---------- from one moment to another ----------

  /** What of a loop object and the shared queues can change. */
  datatype Snapshot = Snapshot(
    posted: set<Closure>, clock: Time, terminated: bool, start: Loop, trace: seq<Event>,
    entries: map<QueueId, Entry>, registrations: nat)

  /** This, and nothing else, has named closures, passed time and terminated the loop. */
  ghost predicate Does(a: Snapshot, b: Snapshot, e: Effect) {
    b.posted == a.posted + e.names && b.clock == a.clock + e.time && b.terminated == (a.terminated || e.stop)
  }

  /** The trace goes on from the same start, with `n` full flushes, and the queues other than `id` are left alone. */
  ghost predicate Goes(id: QueueId, a: Snapshot, b: Snapshot, n: nat) {
    && b.start == a.start && a.trace <= b.trace && Flushings(b.trace) == Flushings(a.trace) + n
    && Stops(a.trace) <= Stops(b.trace) && (b.terminated <==> a.terminated || Stops(a.trace) < Stops(b.trace))
    && id in b.entries && b.entries == a.entries[id := b.entries[id]]
    && a.registrations <= b.registrations && a.clock <= b.clock && a.posted <= b.posted
  }

  lemma GoesOn(id: QueueId, a: Snapshot, b: Snapshot, c: Snapshot, m: nat, n: nat)
    requires Goes(id, a, b, m) && Goes(id, b, c, n)
    ensures Goes(id, a, c, m + n)
  {
  }

  lemma DoesOn(a: Snapshot, b: Snapshot, c: Snapshot, e: Effect, f: Effect)
    requires Does(a, b, e) && Does(b, c, f)
    ensures Does(a, c, Plus(e, f))
  {
  }

  lemma GoesNowhere(id: QueueId, a: Snapshot)
    requires id in a.entries
    ensures Goes(id, a, a, 0) && Does(a, a, NONE)
  {
  }

  lemma TakeOne<T>(done: seq<T>, taken: seq<T>, i: nat)
    requires i < |taken|
    ensures taken[i..][0] == taken[i] && taken[i..][1..] == taken[i + 1..]
    ensures done + taken[..i] + [taken[i]] == done + taken[..i + 1]
  {
  }

  /** What was posted before the firings has a name. */
  ghost predicate Named(firing: Firing, posted: set<Closure>) { Total(firing.before).names <= posted }

  ghost predicate AllNamed(firings: seq<Firing>, n: nat, posted: set<Closure>)
    requires n <= |firings|
  {
    forall i :: 0 <= i < n ==> Named(firings[i], posted)
  }

  lemma NamedOn(firings: seq<Firing>, n: nat, p: set<Closure>, q: set<Closure>)
    requires n < |firings| && AllNamed(firings, n, p) && p <= q && Named(firings[n], q)
    ensures AllNamed(firings, n + 1, q)
  {
  }

  /** What was in the queue and due has run. */
  ghost predicate DueHaveRun(q: Queue, now: Time, executed: seq<DelayedTask>) {
    forall t :: t in q && t.target <= now ==> t in executed
  }

  lemma DueHaveRunOn(q: Queue, now: Time, u: seq<DelayedTask>, v: seq<DelayedTask>)
    requires DueHaveRun(q, now, u) && u <= v
    ensures DueHaveRun(q, now, v)
  {
    assert v == u + v[|u|..];
  }

  /** A full flush takes whatever is due. */
  lemma DueAreTaken(q: Queue, now: Time, taken: seq<DelayedTask>, rest: Queue)
    requires Flushed(q, now, All, taken, rest)
    ensures forall t :: t in q && t.target <= now ==> t in taken
  {
    forall t | t in q && t.target <= now
      ensures t in taken
    {
      assert t in multiset(taken);
    }
  }

  class MessageLoopImpl {
    const queues: MessageLoopTaskQueues
    const id: QueueId
    /** Whether the platform is Linux, where termination wakes the loop. */
    const linux: bool
    var terminated: bool
    /** What `TimePoint::Now` reads. */
    var clock: Time
    /** The names given to closures so far. */
    var posted: set<Closure>
    /** The state of the machine that this object is in, and how it got there. */
    ghost var loop: Loop
    ghost var start: Loop
    ghost var trace: seq<Event>

    /** Other loops may have registered tasks in their queues since this one last did something. */
    ghost predicate Valid()
      reads this, queues
    {
      && queues.Valid() && id in queues.entries && queues.entries[id].wakeable
      && loop.queue == queues.entries[id].tasks && loop.count <= queues.registrations
      && loop.terminated == terminated && loop.alarm == LastWake(queues.entries[id].wakes)
      && loop.clock == clock && loop.posted == posted
      && Init(start) && Leads(start, trace, loop)
    }

    ghost function Now(): Snapshot
      reads this, queues
    {
      Snapshot(posted, clock, terminated, start, trace, queues.entries, queues.registrations)
    }

    constructor (queues: MessageLoopTaskQueues, linux: bool, now: Time)
      requires queues.Valid()
      modifies queues
      ensures Valid() && this.queues == queues && this.linux == linux && Init(loop) && clock == now
      ensures id !in old(queues.entries) && queues.registrations == old(queues.registrations)
      ensures queues.entries == old(queues.entries)[id := queues.entries[id]]
    {
      var q := queues.CreateTaskQueue();
      var ok := queues.SetWakeable(q);
      this.queues, id, this.linux, terminated, clock, posted := queues, q, linux, false, now, {};
      ghost var s := Fresh(queues.registrations).(clock := now);
      loop, start, trace := s, s, [];
      LeadsNowhere(s);
    }

    /** Records one step of the machine. */
    ghost method Step(e: Event, s': Loop)
      requires Leads(start, trace, loop) && Next(loop, e, s')
      modifies `loop, `trace
      ensures loop == s' && trace == old(trace) + [e] && Leads(start, trace, loop)
      ensures Flushings(trace) == Flushings(old(trace)) + if FlushEvent(e) then 1 else 0
      ensures Stops(trace) == Stops(old(trace)) + if e.Terminate? then 1 else 0
    {
      CountFlush(trace, e);
      CountStop(trace, e);
      LeadsOn(start, trace, loop, e, s');
      loop, trace := s', trace + [e];
    }

    /** Records the registrations that other loops have made. */
    ghost method CatchUp()
      requires Leads(start, trace, loop) && loop.count <= queues.registrations
      modifies `loop, `trace
      ensures Leads(start, trace, loop) && loop == old(loop).(count := queues.registrations)
      ensures trace == old(trace) + Foreigns(queues.registrations - old(loop.count))
      ensures Flushings(trace) == Flushings(old(trace)) && Stops(trace) == Stops(old(trace))
    {
      while loop.count < queues.registrations
        invariant old(loop.count) <= loop.count <= queues.registrations
        invariant Leads(start, trace, loop) && loop == old(loop).(count := loop.count)
        invariant trace == old(trace) + Foreigns(loop.count - old(loop.count))
        invariant Flushings(trace) == Flushings(old(trace)) && Stops(trace) == Stops(old(trace))
        decreases queues.registrations - loop.count
      {
        Step(Foreign, loop.(count := loop.count + 1));
      }
    }

    method PostTask(task: Closure, target: Time)
      requires Valid() && task !in posted
      modifies this, queues
      ensures Valid() && start == old(start) && Undisturbed(old(loop), loop)
      ensures terminated == old(terminated) && clock == old(clock) && posted == old(posted) + {task}
      ensures if terminated then task in loop.rejected
              else task in loop.registered && loop.registered[task].task.target == target && loop.registered[task].task in loop.queue
      ensures trace == old(trace) + [Check(task, target)] +
                       if terminated then [] else Foreigns(old(queues.registrations) - old(loop.count)) + [Register(task)]
      ensures queues.registrations == old(queues.registrations) + if terminated then 0 else 1
      ensures Flushings(trace) == Flushings(old(trace)) && Stops(trace) == Stops(old(trace))
      ensures queues.entries == old(queues.entries)[id := queues.entries[id]]
    {
      posted := posted + {task};
      if terminated {
        Step(Check(task, target), loop.(posted := posted, rejected := loop.rejected + {task}));
        return;
      }
      Step(Check(task, target), loop.(posted := posted, checked := loop.checked[task := target]));
      RegisterTask(task, target);
    }

    /** The second half of a post, which has passed the check. */
    method RegisterTask(task: Closure, target: Time)
      requires Valid() && task in loop.checked && loop.checked[task] == target
      modifies this`loop, this`trace, queues
      ensures Valid() && Undisturbed(old(loop), loop)
      ensures task in loop.registered && loop.registered[task].task.target == target && loop.registered[task].task in loop.queue
      ensures trace == old(trace) + (Foreigns(old(queues.registrations) - old(loop.count)) + [Register(task)])
      ensures queues.registrations == old(queues.registrations) + 1
      ensures Flushings(trace) == Flushings(old(trace)) && Stops(trace) == Stops(old(trace))
      ensures queues.entries == old(queues.entries)[id := queues.entries[id]]
    {
      CatchUp();
      ghost var s := loop;
      ghost var t := Task(s, task);
      ghost var time := queues.RegisterTask(id, task, target);
      Step(Register(task), s.(
        count := s.count + 1, checked := s.checked - {task}, queue := s.queue + multiset{t}, alarm := Some(time),
        registered := s.registered[task := Registration(s.count, t)]));
    }

    method DoTerminate()
      requires Valid()
      modifies this, queues
      ensures Valid() && start == old(start) && Undisturbed(old(loop), loop)
      ensures terminated && clock == old(clock) && posted == old(posted)
      ensures trace == old(trace) + [Terminate] + if linux then [SelfWake(clock)] else []
      ensures linux ==> loop.alarm == Some(clock)
      ensures Flushings(trace) == Flushings(old(trace)) && Stops(trace) == Stops(old(trace)) + 1
      ensures queues.registrations == old(queues.registrations)
      ensures queues.entries == old(queues.entries)[id := queues.entries[id]]
    {
      terminated := true;
      Step(Terminate, loop.(terminated := true));
      if linux {
        queues.WakeListener(id, clock);
        Step(SelfWake(clock), loop.(alarm := Some(clock)));
      }
    }

    method Perform(action: Action)
      requires Valid()
      modifies this, queues
      ensures Valid() && Undisturbed(old(loop), loop) && Goes(id, old(Now()), Now(), 0)
      ensures Does(old(Now()), Now(), EffectOf(action))
      ensures action.Post? && action.task !in old(posted) && !old(terminated) ==>
                && action.task in loop.registered && loop.registered[action.task].task.target == action.target
                && loop.registered[action.task].task in loop.queue
    {
      match action {
        case Post(task, target) =>
          if task !in posted {
            PostTask(task, target);
          }
        case Stop =>
          DoTerminate();
        case Pass(time) =>
          clock := clock + time;
          Step(Tick(clock), loop.(clock := clock));
      }
    }

    /** What happens while the loop thread is elsewhere, or in a closure. */
    method Meanwhile(actions: seq<Action>)
      requires Valid()
      modifies this, queues
      ensures Valid() && Undisturbed(old(loop), loop) && Goes(id, old(Now()), Now(), 0) && Does(old(Now()), Now(), Total(actions))
    {
      GoesNowhere(id, Now());
      for i := 0 to |actions|
        invariant Valid() && Undisturbed(old(loop), loop) && Goes(id, old(Now()), Now(), 0) && Does(old(Now()), Now(), Total(actions[..i]))
      {
        ghost var before := Now();
        Perform(actions[i]);
        GoesOn(id, old(Now()), before, Now(), 0, 0);
        DoesOn(old(Now()), before, Now(), Total(actions[..i]), EffectOf(actions[i]));
        TotalNext(actions, i);
      }
      assert actions[..|actions|] == actions;
    }

    /** The flush of `FlushTasks`, in the phase that the loop is in. */
    method TakeBatch(kind: FlushType) returns (ran: seq<Closure>, ghost taken: seq<DelayedTask>)
      requires Valid() && loop.batch == []
      requires loop.phase == Idle || loop.phase.Serving? || (loop.phase == Closing && kind == All)
      modifies this`loop, this`trace, queues
      ensures Valid() && ran == Closures(taken) && Flushed(old(loop.queue), clock, kind, taken, loop.queue)
      ensures loop == old(loop).(count := loop.count, queue := loop.queue, batch := taken, alarm := loop.alarm, phase := loop.phase)
      ensures loop.phase == if old(loop.phase) == Closing then Draining(clock, loop.count) else old(loop.phase)
      ensures old(trace) <= trace && Flushings(trace) == Flushings(old(trace)) + (if kind == All then 1 else 0)
      ensures Stops(trace) == Stops(old(trace)) && queues.registrations == old(queues.registrations)
      ensures queues.entries == old(queues.entries)[id := queues.entries[id]]
    {
      CatchUp();
      ghost var time;
      ran, taken, time := queues.GetTasksToRunNow(id, kind, clock, []);
      ghost var s' := loop.(
        queue := queues.entries[id].tasks, batch := taken, alarm := LastWake(queues.entries[id].wakes),
        phase := if loop.phase == Closing then Draining(clock, loop.count) else loop.phase);
      assert Flushes(loop, kind, taken, s');
      ghost var e := if loop.phase == Closing then FinalFlush(taken) else Flush(kind, taken);
      Step(e, s');
    }

    /** Runs the closures of a batch, one after the other; each may post tasks and terminate the loop. */
    method Invoke(ran: seq<Closure>, ghost taken: seq<DelayedTask>, during: seq<seq<Action>>)
      requires Valid() && loop.batch == taken && |ran| == |taken|
      modifies this, queues
      ensures Valid() && loop.batch == [] && loop.executed == old(loop.executed) + taken
      ensures loop.phase == old(loop.phase) && old(loop.queue) <= loop.queue
      ensures Goes(id, old(Now()), Now(), 0) && Does(old(Now()), Now(), During(during, |ran|))
    {
      GoesNowhere(id, Now());
      for i := 0 to |ran|
        invariant Valid()
        invariant loop.batch == taken[i..] && loop.executed == old(loop.executed) + taken[..i]
        invariant loop.phase == old(loop.phase) && old(loop.queue) <= loop.queue
        invariant Goes(id, old(Now()), Now(), 0) && Does(old(Now()), Now(), During(during, i))
      {
        var actions := if i < |during| then during[i] else [];
        ghost var before := Now();
        InvokeOne(old(loop.executed), taken, i, actions);
        GoesOn(id, old(Now()), before, Now(), 0, 0);
        DoesOn(old(Now()), before, Now(), During(during, i), Total(actions));
      }
      assert taken[..|ran|] == taken;
    }

    method InvokeOne(ghost done: seq<DelayedTask>, ghost taken: seq<DelayedTask>, i: nat, actions: seq<Action>)
      requires Valid() && i < |taken| && loop.batch == taken[i..] && loop.executed == done + taken[..i]
      modifies this, queues
      ensures Valid() && loop.batch == taken[i + 1..] && loop.executed == done + taken[..i + 1]
      ensures loop.phase == old(loop.phase) && old(loop.queue) <= loop.queue
      ensures Goes(id, old(Now()), Now(), 0) && Does(old(Now()), Now(), Total(actions))
    {
      TakeOne(done, taken, i);
      Step(Execute, loop.(batch := taken[i + 1..], executed := done + taken[..i + 1]));
      ghost var before := Now();
      Meanwhile(actions);
      GoesOn(id, old(Now()), before, Now(), 0, 0);
    }

    /** `FlushTasks`: takes a batch and runs it. */
    method FlushTasks(kind: FlushType, during: seq<seq<Action>>)
      returns (ran: seq<Closure>, ghost taken: seq<DelayedTask>, ghost rest: Queue)
      requires Valid() && loop.batch == []
      requires loop.phase == Idle || loop.phase.Serving? || (loop.phase == Closing && kind == All)
      modifies this, queues
      ensures Valid() && loop.batch == []
      ensures Flushed(old(loop.queue), old(clock), kind, taken, rest) && rest <= loop.queue
      ensures ran == Closures(taken) && loop.executed == old(loop.executed) + taken
      ensures if old(loop.phase) == Closing then loop.phase.Draining? && loop.phase.flushClock == old(clock)
              else loop.phase == old(loop.phase)
      ensures Goes(id, old(Now()), Now(), if kind == All then 1 else 0) && Does(old(Now()), Now(), During(during, |ran|))
    {
      ran, taken := TakeBatch(kind);
      rest := loop.queue;
      ghost var before := Now();
      Invoke(ran, taken, during);
      GoesOn(id, old(Now()), before, Now(), if kind == All then 1 else 0, 0);
    }

    /** The platform loop, with the firings of its timer: one full flush for each, and nothing due is kept waiting. */
    method Serve(firings: seq<Firing>)
      requires Valid() && loop.batch == [] && loop.phase.Serving?
      modifies this, queues
      ensures Valid() && loop.batch == [] && loop.phase == old(loop.phase)
      ensures Goes(id, old(Now()), Now(), |firings|) && old(loop.executed) <= loop.executed && old(posted) <= posted
      ensures firings != [] ==> DueHaveRun(old(loop.queue), old(clock), loop.executed)
      ensures AllNamed(firings, |firings|, posted)
    {
      GoesNowhere(id, Now());
      for i := 0 to |firings|
        invariant Valid() && loop.batch == [] && loop.phase == old(loop.phase)
        invariant Goes(id, old(Now()), Now(), i) && old(loop.executed) <= loop.executed && old(posted) <= posted
        invariant i > 0 ==> DueHaveRun(old(loop.queue), old(clock), loop.executed)
        invariant i == 0 ==> loop == old(loop) && clock == old(clock)
        invariant AllNamed(firings, i, posted)
      {
        ghost var ran, before := loop.executed, Now();
        FireAgain(firings[i]);
        GoesOn(id, old(Now()), before, Now(), i, 1);
        NamedOn(firings, i, before.posted, posted);
        if i > 0 {
          DueHaveRunOn(old(loop.queue), old(clock), ran, loop.executed);
        }
      }
    }

    method FireAgain(firing: Firing)
      requires Valid() && loop.batch == [] && loop.phase.Serving?
      modifies this, queues
      ensures Valid() && loop.batch == [] && loop.phase == old(loop.phase)
      ensures Goes(id, old(Now()), Now(), 1) && Named(firing, posted)
      ensures old(loop.executed) <= loop.executed && DueHaveRun(old(loop.queue), old(clock), loop.executed)
    {
      var ran, taken, pending, rest := Fire(firing);
    }

    /** The timer fires: what is due by then has run afterwards, and what is left is not due or has been posted since. */
    method Fire(firing: Firing) returns (ran: seq<Closure>, ghost taken: seq<DelayedTask>, ghost pending: Queue, ghost rest: Queue)
      requires Valid() && loop.batch == [] && (loop.phase.Serving? || loop.phase == Closing)
      modifies this, queues
      ensures Valid() && loop.batch == []
      ensures if old(loop.phase) == Closing then loop.phase.Draining? else loop.phase == old(loop.phase)
      ensures old(loop.queue) <= pending && rest <= loop.queue
      ensures Flushed(pending, old(clock) + Total(firing.before).time, All, taken, rest)
      ensures ran == Closures(taken) && loop.executed == old(loop.executed) + taken
      ensures DueHaveRun(old(loop.queue), old(clock), loop.executed)
      ensures Goes(id, old(Now()), Now(), 1) && Does(old(Now()), Now(), Plus(Total(firing.before), During(firing.during, |ran|)))
    {
      Meanwhile(firing.before);
      ghost var before := Now();
      pending := loop.queue;
      ran, taken, rest := FlushTasks(All, firing.during);
      GoesOn(id, old(Now()), before, Now(), 0, 1);
      DoesOn(old(Now()), before, Now(), Total(firing.before), During(firing.during, |ran|));
      DueAreTaken(pending, old(clock) + Total(firing.before).time, taken, rest);
    }

    /** The last flush, whatever still happens after it, and the rest of the queue thrown away. */
    method Close(last: Firing, after: seq<Action>)
      requires Valid() && loop.batch == [] && loop.phase == Closing
      modifies this, queues
      ensures Valid() && loop.batch == [] && loop.phase == Idle && loop.queue == multiset{}
      ensures Goes(id, old(Now()), Now(), 1) && trace[|trace| - 1] == Dispose && old(loop.executed) <= loop.executed
      ensures DueHaveRun(old(loop.queue), old(clock), loop.executed)
    {
      var ran, taken, pending, rest := Fire(last);
      ghost var before := Now();
      Meanwhile(after);
      GoesOn(id, old(Now()), before, Now(), 1, 0);
      before := Now();
      queues.DisposeTasks(id);
      Step(Dispose, loop.(phase := Idle, discarded := loop.discarded + loop.queue, queue := multiset{}));
      GoesOn(id, old(Now()), before, Now(), 1, 0);
    }

    /** The rest of a run that has started; `served` is the trace when it leaves the platform loop. */
    method ServeAndClose(kind: RunKind, firings: seq<Firing>, last: Firing, after: seq<Action>)
      returns (ghost served: seq<Event>, ghost left: Loop)
      requires Valid() && !terminated && loop.batch == [] && loop.phase == Serving(kind)
      modifies this, queues
      ensures Valid() && start == old(start) && loop.batch == [] && loop.phase == Idle && loop.queue == multiset{}
      ensures old(trace) <= served && served + [Leave] <= trace && trace[|trace| - 1] == Dispose
      ensures terminated <==> kind == Forever || Stops(old(trace)) < Stops(trace)
      ensures Flushings(served) == Flushings(old(trace)) + |firings| && Flushings(trace) == Flushings(served) + 1
      ensures Leads(start, served, left) && left.executed <= loop.executed
      ensures firings != [] ==> DueHaveRun(old(loop.queue), old(clock), left.executed)
      ensures queues.registrations >= old(queues.registrations)
      ensures queues.entries == old(queues.entries)[id := queues.entries[id]]
    {
      Serve(firings);
      served, left := trace, loop;
      LeaveLoop(kind);
      Close(last, after);
    }

    method LeaveLoop(kind: RunKind)
      requires Valid() && loop.batch == [] && loop.phase == Serving(kind)
      modifies this`terminated, this`loop, this`trace
      ensures Valid() && loop.batch == [] && loop.phase == Closing && trace == old(trace) + [Leave]
      ensures loop.executed == old(loop.executed) && loop.queue == old(loop.queue)
      ensures Flushings(trace) == Flushings(old(trace)) && Stops(trace) == Stops(old(trace))
      ensures terminated == (old(terminated) || kind == Forever)
    {
      terminated := terminated || kind == Forever;
      Step(Leave, loop.(phase := Closing, terminated := terminated));
    }

    /**
      `DoRun` and `DoRunForTime`, for all firings of the timer and everything that closures and other threads do
      meanwhile. `begun` and `served` are the traces when it has started and when it leaves the platform loop in the
      state `left`: with one full flush for each firing, by which what was due has run, and one more at the end.
     */
    method DoRun(kind: RunKind, firings: seq<Firing>, last: Firing, after: seq<Action>)
      returns (ghost begun: seq<Event>, ghost served: seq<Event>, ghost left: Loop)
      requires Valid() && loop.batch == [] && loop.phase == Idle
      modifies this, queues
      ensures Valid() && start == old(start) && loop.batch == [] && loop.phase == Idle
      ensures begun == old(trace) + [Start(kind)]
      ensures old(terminated) ==> terminated && loop == old(loop) && trace == begun
      ensures !old(terminated) ==> begun <= served && served + [Leave] <= trace && trace[|trace| - 1] == Dispose
      ensures !old(terminated) ==>
                && loop.queue == multiset{}
                && (terminated <==> kind == Forever || Stops(old(trace)) < Stops(trace))
                && Flushings(served) == Flushings(old(trace)) + |firings| && Flushings(trace) == Flushings(served) + 1
                && Leads(start, served, left) && left.executed <= loop.executed
                && (firings != [] ==> DueHaveRun(old(loop.queue), old(clock), left.executed))
      ensures queues.registrations >= old(queues.registrations)
      ensures queues.entries == old(queues.entries)[id := queues.entries[id]]
    {
      begun, served, left := trace + [Start(kind)], [], loop;
      if terminated {
        Step(Start(kind), loop);
        return;
      }
      Step(Start(kind), loop.(phase := Serving(kind)));
      served, left := ServeAndClose(kind, firings, last, after);
    }
  }

  /** Whatever a loop object has been through, its machine state is one that a run reaches. */
  lemma ReachedByRun(start: Loop, trace: seq<Event>, loop: Loop) returns (states: seq<Loop>)
    requires Init(start) && Leads(start, trace, loop)
    ensures Run(states, trace) && states[|trace|] == loop
  {
    states :| Chain(states, trace) && states[0] == start && states[|trace|] == loop;
    forall i | 0 <= i < |trace|
      ensures StepAt(states, trace, i)
    {
      assert Next(states[i], trace[i], states[i + 1]);
    }
  }

  /** Two loops of one process share the queues, and neither disturbs the other, whatever they do. */
  method TwoLoops(
      queues: MessageLoopTaskQueues, linux: bool, now: Time, first: seq<Action>, second: seq<Action>,
      kind: RunKind, firings: seq<Firing>, last: Firing, after: seq<Action>)
      returns (a: MessageLoopImpl, b: MessageLoopImpl)
    requires queues.Valid()
    modifies queues
    ensures fresh(a) && fresh(b) && a.Valid() && b.Valid() && a.queues == b.queues == queues && a.id != b.id
  {
    a := new MessageLoopImpl(queues, linux, now);
    b := new MessageLoopImpl(queues, linux, now);
    a.Meanwhile(first);
    b.Meanwhile(second);
    var begunA, servedA, leftA := a.DoRun(kind, firings, last, after);
    var begunB, servedB, leftB := b.DoRun(kind, firings, last, after);
    a.Meanwhile(second);
  }
}
