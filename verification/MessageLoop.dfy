/**
  The message loop of message_loop_impl.cpp over one of the queues, as a state machine. Posts from any
  thread, registrations in other queues, the loop thread, termination and the clock interleave step by step;
  each step is one critical section of the source. A flush does not start while an earlier batch is running.
 */
module MessageLoop {
  import opened Wrappers
  import opened Integers
  import opened TaskQueues

  datatype RunKind = Forever | ForTime

  /** Where the loop thread is in `DoRun` or `DoRunForTime`. */
  datatype Phase =
    | Idle
    | Serving(kind: RunKind)
    | Closing
    | Draining(flushClock: Time, flushCount: nat)

  /** A registered task and the index of its registration among all of the process. */
  datatype Registration = Registration(index: nat, task: DelayedTask)

  datatype Loop = Loop(
    clock: Time,
    count: nat,                          // registrations in the process so far, in all queues
    terminated: bool,
    phase: Phase,
    checked: map<Closure, Time>,         // posts that have passed the check and not yet registered
    queue: Queue,
    batch: seq<DelayedTask>,             // what is left of `invocations`
    alarm: Option<Time>,                 // the last wake-up time sent
    posted: set<Closure>,
    rejected: set<Closure>,
    registered: map<Closure, Registration>,
    executed: seq<DelayedTask>,
    discarded: Queue)
  {
    /** Everything handed to the loop thread, in order. */
    function Stream(): seq<DelayedTask> { executed + batch }
  }

  datatype Event =
    | Tick(now: Time)
    | Check(id: Closure, target: Time)
    | Register(id: Closure)
    | Foreign
    | Start(kind: RunKind)
    | Flush(flush: FlushType, taken: seq<DelayedTask>)
    | Execute
    | Leave
    | FinalFlush(taken: seq<DelayedTask>)
    | Dispose
    | Terminate
    | SelfWake(time: Time)               // on Linux a terminating loop then wakes itself

  predicate Init(s: Loop) {
    !s.terminated && s.phase == Idle && s.checked == map[] && s.queue == multiset{} &&
    s.batch == [] && s.alarm == None && s.posted == {} && s.rejected == {} && s.registered == map[] &&
    s.executed == [] && s.discarded == multiset{}
  }

  /** What a flush of either kind does to queue, batch and alarm. */
  ghost predicate Flushes(s: Loop, kind: FlushType, taken: seq<DelayedTask>, s': Loop) {
    && s.batch == [] && s'.batch == taken
    && Flushed(s.queue, s.clock, kind, taken, s'.queue)
    && (kind == Single || taken == [] ==> s'.alarm == s.alarm)
    && (kind == All && taken != [] ==> s'.alarm.Some? && IsNextWake(s'.queue, s'.alarm.value))
    && s' == s.(queue := s'.queue, batch := taken, alarm := s'.alarm, phase := s'.phase)
  }

  /** The task that a registration puts into the queue. */
  function Task(s: Loop, id: Closure): DelayedTask
    requires id in s.checked
  {
    DelayedTask(OrderKey(s.count), id, s.checked[id])
  }

  ghost predicate Next(s: Loop, e: Event, s': Loop) {
    match e
    case Tick(now) =>
      s.clock <= now && s' == s.(clock := now)
    case Check(id, target) =>
      && id !in s.posted
      && s' == if s.terminated then s.(posted := s.posted + {id}, rejected := s.rejected + {id})
               else s.(posted := s.posted + {id}, checked := s.checked[id := target])
    case Register(id) =>
      && id in s.checked
      && s'.alarm.Some? && IsNextWake(s'.queue, s'.alarm.value)
      && s' == s.(
           count := s.count + 1, checked := s.checked - {id}, queue := s.queue + multiset{Task(s, id)},
           alarm := s'.alarm, registered := s.registered[id := Registration(s.count, Task(s, id))])
    case Foreign =>
      s' == s.(count := s.count + 1)
    case Start(kind) =>
      s.phase == Idle && s.batch == [] && s' == if s.terminated then s else s.(phase := Serving(kind))
    case Flush(kind, taken) =>
      (s.phase == Idle || s.phase.Serving?) && Flushes(s, kind, taken, s') && s'.phase == s.phase
    case Execute =>
      s.batch != [] && s' == s.(batch := s.batch[1..], executed := s.executed + [s.batch[0]])
    case Leave =>
      && s.phase.Serving? && s.batch == []
      && s' == s.(phase := Closing, terminated := s.terminated || s.phase.kind == Forever)
    case FinalFlush(taken) =>
      s.phase == Closing && Flushes(s, All, taken, s') && s'.phase == Draining(s.clock, s.count)
    case Dispose =>
      && s.phase.Draining? && s.batch == []
      && s' == s.(phase := Idle, discarded := s.discarded + s.queue, queue := multiset{})
    case Terminate =>
      s' == s.(terminated := true)
    case SelfWake(time) =>
      s.terminated && time <= s.clock && s' == s.(alarm := Some(time))
  }

  /** A run: one state more than events, each event leading from one state to the next. */
  ghost predicate Run(states: seq<Loop>, events: seq<Event>) {
    && |states| == |events| + 1
    && Init(states[0])
    && forall i :: 0 <= i < |events| ==> StepAt(states, events, i)
  }

  ghost predicate StepAt(states: seq<Loop>, events: seq<Event>, i: nat)
    requires i < |events| && |states| == |events| + 1
  {
    Next(states[i], events[i], states[i + 1])
  }

  // ---------- the invariant ----------

  /** How often a task occurs in the queue, the batch, the past and the bin together. */
  function Occurrences(s: Loop, t: DelayedTask): nat {
    s.queue[t] + multiset(s.batch)[t] + multiset(s.executed)[t] + s.discarded[t]
  }

  predicate Registered(s: Loop, t: DelayedTask) {
    t.task in s.registered && s.registered[t.task].task == t
  }

  /** Every post is in one of three places. */
  ghost predicate PostsPartition(s: Loop) {
    && s.posted == s.rejected + s.checked.Keys + s.registered.Keys
    && s.rejected !! s.checked.Keys !! s.registered.Keys
  }

  ghost predicate RegistrationsFit(s: Loop) {
    forall id :: id in s.registered ==>
      && s.registered[id].task.task == id
      && s.registered[id].index < s.count
      && s.registered[id].task.order == OrderKey(s.registered[id].index)
  }

  /** No two registrations have the same index. */
  ghost predicate IndicesDiffer(s: Loop) {
    forall x, y :: x in s.registered && y in s.registered && x != y ==> s.registered[x].index != s.registered[y].index
  }

  /** Every registered task, and nothing else, is in exactly one of the four places. */
  ghost predicate TasksConserved(s: Loop) {
    forall t :: Occurrences(s, t) == if Registered(s, t) then 1 else 0
  }

  /** Nothing starts before its time. */
  ghost predicate NothingEarly(s: Loop) {
    forall t :: t in s.Stream() ==> t.target <= s.clock
  }

  /** What the last flush of a run left behind was not due then, or came later. */
  ghost predicate LeftoversJustified(s: Loop) {
    s.phase.Draining? ==>
      && s.phase.flushClock <= s.clock && s.phase.flushCount <= s.count
      && forall t :: t in s.queue && t.task in s.registered ==>
           s.phase.flushClock < t.target || s.phase.flushCount <= s.registered[t.task].index
  }

  /** The alarm goes off no later than a pending task is due, or has already gone off. */
  ghost predicate AlarmInTime(s: Loop) {
    forall t :: t in s.queue ==> s.alarm.Some? && (s.alarm.value <= t.target || s.alarm.value <= s.clock)
  }

  ghost predicate Inv(s: Loop) {
    && PostsPartition(s)
    && RegistrationsFit(s)
    && TasksConserved(s)
    && NothingEarly(s)
    && LeftoversJustified(s)
    && AlarmInTime(s)
  }

  lemma InitInv(s: Loop)
    requires Init(s)
    ensures Inv(s)
  {
  }

  lemma CheckPosts(s: Loop, id: Closure, target: Time, s': Loop)
    requires PostsPartition(s) && Next(s, Check(id, target), s')
    ensures PostsPartition(s')
  {
    if !s.terminated {
      assert s'.checked.Keys == s.checked.Keys + {id};
    }
  }

  lemma RegisterPosts(s: Loop, id: Closure, s': Loop)
    requires PostsPartition(s) && RegistrationsFit(s) && Next(s, Register(id), s')
    ensures PostsPartition(s') && RegistrationsFit(s')
  {
    assert s'.registered.Keys == s.registered.Keys + {id};
    assert s'.checked.Keys == s.checked.Keys - {id};
  }

  lemma PostsStep(s: Loop, e: Event, s': Loop)
    requires PostsPartition(s) && RegistrationsFit(s) && Next(s, e, s')
    ensures PostsPartition(s') && RegistrationsFit(s')
  {
    match e
    case Check(id, target) => CheckPosts(s, id, target, s');
    case Register(id) => RegisterPosts(s, id, s');
    case _ =>
  }

  lemma RegisterConserves(s: Loop, id: Closure, s': Loop)
    requires PostsPartition(s) && RegistrationsFit(s) && TasksConserved(s) && Next(s, Register(id), s')
    ensures TasksConserved(s')
  {
    var n := Task(s, id);
    assert !Registered(s, n);
    forall t
      ensures Occurrences(s', t) == if Registered(s', t) then 1 else 0
    {
      assert Occurrences(s', t) == Occurrences(s, t) + if t == n then 1 else 0;
    }
  }

  lemma FlushConserves(s: Loop, kind: FlushType, taken: seq<DelayedTask>, s': Loop)
    requires TasksConserved(s) && Flushes(s, kind, taken, s')
    ensures TasksConserved(s')
  {
    forall t
      ensures Occurrences(s', t) == if Registered(s', t) then 1 else 0
    {
      assert Occurrences(s', t) == Occurrences(s, t);
    }
  }

  lemma ExecuteConserves(s: Loop, s': Loop)
    requires TasksConserved(s) && Next(s, Execute, s')
    ensures TasksConserved(s')
  {
    assert s.batch == [s.batch[0]] + s.batch[1..];
    forall t
      ensures Occurrences(s', t) == if Registered(s', t) then 1 else 0
    {
      assert Occurrences(s', t) == Occurrences(s, t);
    }
  }

  lemma DisposeConserves(s: Loop, s': Loop)
    requires TasksConserved(s) && Next(s, Dispose, s')
    ensures TasksConserved(s')
  {
    forall t
      ensures Occurrences(s', t) == if Registered(s', t) then 1 else 0
    {
      assert Occurrences(s', t) == Occurrences(s, t);
    }
  }

  lemma TasksStep(s: Loop, e: Event, s': Loop)
    requires PostsPartition(s) && RegistrationsFit(s) && TasksConserved(s) && Next(s, e, s')
    ensures TasksConserved(s')
  {
    match e
    case Register(id) => RegisterConserves(s, id, s');
    case Flush(kind, taken) => FlushConserves(s, kind, taken, s');
    case FinalFlush(taken) => FlushConserves(s, All, taken, s');
    case Execute => ExecuteConserves(s, s');
    case Dispose => DisposeConserves(s, s');
    case _ => SamePlaces(s, s');
  }

  lemma SamePlaces(s: Loop, s': Loop)
    requires TasksConserved(s)
    requires s'.queue == s.queue && s'.batch == s.batch && s'.executed == s.executed
    requires s'.discarded == s.discarded && s'.registered == s.registered
    ensures TasksConserved(s')
  {
    forall t
      ensures Occurrences(s', t) == if Registered(s', t) then 1 else 0
    {
      assert Occurrences(s', t) == Occurrences(s, t) && Registered(s', t) == Registered(s, t);
    }
  }

  /** A step keeps the stream, except that a flush appends the batch it takes. */
  lemma StreamStep(s: Loop, e: Event, s': Loop)
    requires Next(s, e, s')
    ensures e.Flush? || e.FinalFlush? ==> s'.Stream() == s.Stream() + e.taken
    ensures !e.Flush? && !e.FinalFlush? ==> s'.Stream() == s.Stream()
  {
    match e
    case Execute => ExecuteStream(s, s');
    case Flush(kind, taken) => FlushStream(s, kind, taken, s');
    case FinalFlush(taken) => FlushStream(s, All, taken, s');
    case _ =>
  }

  lemma FlushStream(s: Loop, kind: FlushType, taken: seq<DelayedTask>, s': Loop)
    requires Flushes(s, kind, taken, s')
    ensures s'.Stream() == s.Stream() + taken
  {
    assert s.executed + [] + taken == s.executed + taken;
  }

  lemma ExecuteStream(s: Loop, s': Loop)
    requires Next(s, Execute, s')
    ensures s'.Stream() == s.Stream()
  {
    assert s.batch == [s.batch[0]] + s.batch[1..];
  }

  lemma EarlyStep(s: Loop, e: Event, s': Loop)
    requires NothingEarly(s) && Next(s, e, s')
    ensures NothingEarly(s')
  {
    StreamStep(s, e, s');
  }

  lemma RegisterLeftovers(s: Loop, id: Closure, s': Loop)
    requires PostsPartition(s) && TasksConserved(s) && LeftoversJustified(s) && Next(s, Register(id), s')
    ensures LeftoversJustified(s')
  {
    forall t | t in s'.queue && t.task in s'.registered && s.phase.Draining?
      ensures s.phase.flushClock < t.target || s.phase.flushCount <= s'.registered[t.task].index
    {
      if t != Task(s, id) {
        assert Occurrences(s, t) > 0;
      }
    }
  }

  lemma LeftoversStep(s: Loop, e: Event, s': Loop)
    requires PostsPartition(s) && TasksConserved(s) && LeftoversJustified(s) && Next(s, e, s')
    ensures LeftoversJustified(s')
  {
    match e
    case Register(id) => RegisterLeftovers(s, id, s');
    case FinalFlush(taken) =>
    case _ =>
  }

  lemma AlarmStep(s: Loop, e: Event, s': Loop)
    requires AlarmInTime(s) && Next(s, e, s')
    ensures AlarmInTime(s')
  {
    match e
    case Flush(kind, taken) => FlushAlarm(s, kind, taken, s');
    case FinalFlush(taken) => FlushAlarm(s, All, taken, s');
    case _ =>
  }

  lemma FlushAlarm(s: Loop, kind: FlushType, taken: seq<DelayedTask>, s': Loop)
    requires AlarmInTime(s) && Flushes(s, kind, taken, s')
    ensures AlarmInTime(s')
  {
    forall t | t in s'.queue
      ensures s'.alarm.Some? && (s'.alarm.value <= t.target || s'.alarm.value <= s'.clock)
    {
      assert t in s.queue;
    }
  }

  lemma InvStep(s: Loop, e: Event, s': Loop)
    requires Inv(s) && Next(s, e, s')
    ensures Inv(s')
  {
    PostsStep(s, e, s');
    TasksStep(s, e, s');
    EarlyStep(s, e, s');
    LeftoversStep(s, e, s');
    AlarmStep(s, e, s');
  }

  lemma {:induction false} RunInv(states: seq<Loop>, events: seq<Event>, i: nat)
    requires Run(states, events) && i < |states|
    ensures Inv(states[i])
  {
    if i == 0 {
      InitInv(states[0]);
    } else {
      RunInv(states, events, i - 1);
      assert StepAt(states, events, i - 1);
      InvStep(states[i - 1], events[i - 1], states[i]);
    }
  }

  // ---------- conservation ----------

  /**
    In every run each post is in exactly one place: rejected, between check and registration, or registered;
    and then its task is in exactly one of queue, batch, past and bin, and there once.
   */
  lemma EveryPostIsInOnePlace(states: seq<Loop>, events: seq<Event>, i: nat, id: Closure)
    requires Run(states, events) && i < |states| && id in states[i].posted
    ensures var s := states[i];
            && ((id in s.rejected && id !in s.checked && id !in s.registered) ||
                (id !in s.rejected && id in s.checked && id !in s.registered) ||
                (id !in s.rejected && id !in s.checked && id in s.registered))
            && (id in s.registered ==>
                  var t := s.registered[id].task;
                  s.queue[t] + multiset(s.batch)[t] + multiset(s.executed)[t] + s.discarded[t] == 1)
  {
    RunInv(states, events, i);
    var s := states[i];
    if id in s.registered {
      var t := s.registered[id].task;
      assert Occurrences(s, t) == 1;
    }
  }

  /** No task runs twice, and no task runs before its time. */
  lemma NothingRunsTwice(states: seq<Loop>, events: seq<Event>, i: nat, p: nat, q: nat)
    requires Run(states, events) && i < |states| && p < q < |states[i].executed|
    ensures states[i].executed[p].task != states[i].executed[q].task
    ensures states[i].executed[q].target <= states[i].clock
  {
    RunInv(states, events, i);
    var s := states[i];
    var t, u := s.executed[p], s.executed[q];
    assert t in multiset(s.executed) && u in multiset(s.executed);
    assert Occurrences(s, t) == 1 && Occurrences(s, u) == 1;
    if t == u {
      TwiceCountsTwo(s.executed, p, q);
    }
    assert u in s.Stream();
  }

  lemma TwiceCountsTwo<T>(s: seq<T>, p: nat, q: nat)
    requires p < q < |s| && s[p] == s[q]
    ensures multiset(s)[s[p]] >= 2
  {
    assert s == s[..q] + [s[q]] + s[q + 1..];
    assert s[p] in s[..q];
  }

  /**
    A discarded task was not yet due when the last flush before the discard looked at the clock, or it was
    registered after that flush.
   */
  lemma DiscardsAreJustified(states: seq<Loop>, events: seq<Event>, i: nat, t: DelayedTask)
    requires Run(states, events) && i < |events| && events[i] == Dispose && t in states[i].queue
    ensures exists k: nat :: LastFinalFlush(events, k, i) &&
              (states[k].clock < t.target ||
               (t.task in states[i].registered && states[k].count <= states[i].registered[t.task].index))
  {
    RunInv(states, events, i);
    var s := states[i];
    assert StepAt(states, events, i);
    assert Occurrences(s, t) == 1;
    var k := DrainingStarts(states, events, i);
  }

  /** Event `k` is the last final flush before event `i`. */
  predicate LastFinalFlush(events: seq<Event>, k: nat, i: nat) {
    k < i <= |events| && events[k].FinalFlush? && forall j :: k < j < i ==> !events[j].FinalFlush?
  }

  lemma {:induction false} DrainingStarts(states: seq<Loop>, events: seq<Event>, i: nat) returns (k: nat)
    requires Run(states, events) && i < |states| && states[i].phase.Draining?
    ensures LastFinalFlush(events, k, i)
    ensures states[i].phase == Draining(states[k].clock, states[k].count)
  {
    assert i != 0;
    assert StepAt(states, events, i - 1);
    if events[i - 1].FinalFlush? {
      k := i - 1;
    } else {
      k := DrainingStarts(states, events, i - 1);
    }
  }

  // ---------- order ----------

  /** The four places of a task exclude each other. */
  lemma OnePlace(s: Loop, t: DelayedTask)
    requires TasksConserved(s)
    ensures t in s.queue ==> t !in s.Stream() && t !in s.discarded
    ensures t in s.executed ==> t !in s.batch && t !in s.discarded
    ensures t in s.batch ==> t !in s.discarded
    ensures t in s.queue || t in s.Stream() || t in s.discarded <==> Registered(s, t)
  {
    assert t in s.batch <==> multiset(s.batch)[t] > 0;
    assert t in s.executed <==> multiset(s.executed)[t] > 0;
    assert Occurrences(s, t) == if Registered(s, t) then 1 else 0;
  }

  /** `a` comes before `b`. */
  ghost predicate Precedes(s: seq<DelayedTask>, a: DelayedTask, b: DelayedTask) {
    exists p, q :: 0 <= p < q < |s| && s[p] == a && s[q] == b
  }

  /** `b` never overtakes `a`. */
  ghost predicate InOrder(s: Loop, a: DelayedTask, b: DelayedTask) {
    && b.task in s.registered
    && (b in s.Stream() ==> Precedes(s.Stream(), a, b))
    && (b in s.queue ==> a in s.queue || a in s.Stream())
  }

  lemma FlushKeepsOrder(s: Loop, kind: FlushType, taken: seq<DelayedTask>, s': Loop, a: DelayedTask, b: DelayedTask)
    requires InOrder(s, a, b) && Later(b, a) && Flushes(s, kind, taken, s')
    requires s'.Stream() == s.Stream() + taken
    ensures InOrder(s', a, b)
  {
    if b in s.Stream() {
      PrecedesExtended(s.Stream(), taken, a, b);
    } else if b in taken {
      assert b in s.queue;
      if a in s.Stream() {
        PrecedesAcross(s.Stream(), taken, a, b);
      } else {
        var q :| 0 <= q < |taken| && taken[q] == b;
        var p := TakenBefore(s.queue, s.clock, kind, taken, s'.queue, a, q);
        PrecedesWithin(s.Stream(), taken, p, q);
      }
    }
    if b in s'.queue {
      assert b in s.queue;
      assert a in s.queue ==> a in multiset(taken) || a in s'.queue;
    }
  }

  lemma PrecedesExtended(u: seq<DelayedTask>, x: seq<DelayedTask>, a: DelayedTask, b: DelayedTask)
    requires Precedes(u, a, b)
    ensures Precedes(u + x, a, b)
  {
    var p, q :| 0 <= p < q < |u| && u[p] == a && u[q] == b;
    assert (u + x)[p] == a && (u + x)[q] == b;
  }

  lemma PrecedesAcross(u: seq<DelayedTask>, x: seq<DelayedTask>, a: DelayedTask, b: DelayedTask)
    requires a in u && b in x
    ensures Precedes(u + x, a, b)
  {
    var p :| 0 <= p < |u| && u[p] == a;
    var q :| 0 <= q < |x| && x[q] == b;
    assert (u + x)[p] == a && (u + x)[|u| + q] == b;
  }

  lemma PrecedesWithin(u: seq<DelayedTask>, x: seq<DelayedTask>, p: nat, q: nat)
    requires p < q < |x|
    ensures Precedes(u + x, x[p], x[q])
  {
    assert (u + x)[|u| + p] == x[p] && (u + x)[|u| + q] == x[q];
  }

  /** A flush that takes a task takes every pending task before it, and hands it over earlier. */
  lemma TakenBefore(q: Queue, now: Time, kind: FlushType, taken: seq<DelayedTask>, rest: Queue, a: DelayedTask, j: nat)
      returns (i: nat)
    requires Flushed(q, now, kind, taken, rest) && j < |taken| && a in q && Later(taken[j], a)
    ensures i < j && taken[i] == a
  {
    assert taken[j] in taken;
    assert a !in rest;
    assert a in multiset(taken);
    i :| 0 <= i < |taken| && taken[i] == a;
  }

  lemma OrderStep(s: Loop, e: Event, s': Loop, a: DelayedTask, b: DelayedTask)
    requires PostsPartition(s) && Next(s, e, s') && InOrder(s, a, b) && Later(b, a)
    ensures InOrder(s', a, b)
  {
    StreamStep(s, e, s');
    match e
    case Flush(kind, taken) => FlushKeepsOrder(s, kind, taken, s', a, b);
    case FinalFlush(taken) => FlushKeepsOrder(s, All, taken, s', a, b);
    case _ =>
  }

  lemma {:induction false} OrderPersists(
      states: seq<Loop>, events: seq<Event>, i: nat, j: nat, a: DelayedTask, b: DelayedTask)
    requires Run(states, events) && i <= j < |states| && InOrder(states[i], a, b) && Later(b, a)
    ensures InOrder(states[j], a, b)
    decreases j
  {
    if i < j {
      OrderPersists(states, events, i, j - 1, a, b);
      RunInv(states, events, j - 1);
      assert StepAt(states, events, j - 1);
      OrderStep(states[j - 1], events[j - 1], states[j], a, b);
    }
  }

  /**
    If two tasks are ever pending together, the one with the smaller (target, order) runs first: at any later
    point at which the other has run, it has run before it.
   */
  lemma PendingTogetherRunInOrder(
      states: seq<Loop>, events: seq<Event>, i: nat, j: nat, a: DelayedTask, b: DelayedTask)
    requires Run(states, events) && i <= j < |states|
    requires a in states[i].queue && b in states[i].queue && Later(b, a)
    ensures b in states[j].executed ==> Precedes(states[j].executed, a, b)
  {
    RunInv(states, events, i);
    var s := states[i];
    OnePlace(s, b);
    OrderPersists(states, events, i, j, a, b);
    InOrderExecuted(states, events, j, a, b);
  }

  lemma NotInSuffix<T>(a: seq<T>, b: seq<T>, q: nat)
    requires q < |a + b| && (a + b)[q] !in b
    ensures q < |a|
  {
  }

  lemma InOrderExecuted(states: seq<Loop>, events: seq<Event>, j: nat, a: DelayedTask, b: DelayedTask)
    requires Run(states, events) && j < |states| && InOrder(states[j], a, b)
    ensures b in states[j].executed ==> Precedes(states[j].executed, a, b)
  {
    RunInv(states, events, j);
    var s := states[j];
    if b in s.executed {
      assert b in s.Stream();
      var p, q :| 0 <= p < q < |s.Stream()| && s.Stream()[p] == a && s.Stream()[q] == b;
      OnePlace(s, b);
      NotInSuffix(s.executed, s.batch, q);
      assert s.executed[p] == a && s.executed[q] == b;
    }
  }

  /**
    The orders of the pending tasks differ exactly when no two of them were registered a multiple of 2^32
    registrations apart.
   */
  lemma PendingOrdersDifferIff(states: seq<Loop>, events: seq<Event>, i: nat)
    requires Run(states, events) && i < |states|
    ensures forall t :: t in states[i].queue ==> Registered(states[i], t)
    ensures var s := states[i];
            DistinctOrders(s.queue) <==>
            forall t, u :: t in s.queue && u in s.queue && t != u ==> Index(s, t) % TWO32 != Index(s, u) % TWO32
  {
    PendingOrders(states, events, i);
  }

  /** The index of the registration of a task. */
  function Index(s: Loop, t: DelayedTask): nat { if t.task in s.registered then s.registered[t.task].index else 0 }

  /** A full flush now has one outcome exactly when no two due tasks with the same target were registered so. */
  lemma NextFlushIsDeterminedIff(states: seq<Loop>, events: seq<Event>, i: nat)
    requires Run(states, events) && i < |states|
    ensures var s := states[i];
            Determined(s.queue, s.clock, All) <==>
            forall t, u :: t in s.queue && u in s.queue && t != u && t.target == u.target <= s.clock ==>
              Index(s, t) % TWO32 != Index(s, u) % TWO32
  {
    PendingOrders(states, events, i);
    var s := states[i];
    FlushIsDeterminedIff(s.queue, s.clock, All);
  }

  lemma PendingOrders(states: seq<Loop>, events: seq<Event>, i: nat)
    requires Run(states, events) && i < |states|
    ensures var s := states[i];
            && (forall t :: s.queue[t] <= 1 && (t in s.queue ==> Registered(s, t)))
            && (forall t, u :: t in s.queue && u in s.queue ==>
                  (t.order == u.order <==> Index(s, t) % TWO32 == Index(s, u) % TWO32))
  {
    RunInv(states, events, i);
    var s := states[i];
    forall t
      ensures s.queue[t] <= 1 && (t in s.queue ==> Registered(s, t))
    {
      assert Occurrences(s, t) <= 1;
    }
    forall t, u | t in s.queue && u in s.queue
      ensures t.order == u.order <==> Index(s, t) % TWO32 == Index(s, u) % TWO32
    {
      OrderKeyResidue(Index(s, t), Index(s, u));
    }
  }

  /** In particular they differ as long as the process has made at most 2^32 registrations. */
  lemma PendingOrdersDiffer(states: seq<Loop>, events: seq<Event>, i: nat)
    requires Run(states, events) && i < |states| && states[i].count <= TWO32
    ensures DistinctOrders(states[i].queue)
  {
    RunInv(states, events, i);
    RunIndices(states, events, i);
    PendingOrdersDifferIff(states, events, i);
    var s := states[i];
    forall t, u | t in s.queue && u in s.queue && t != u
      ensures Index(s, t) % TWO32 != Index(s, u) % TWO32
    {
      NoWrap(Index(s, t));
      NoWrap(Index(s, u));
    }
  }

  lemma {:induction false} RunIndices(states: seq<Loop>, events: seq<Event>, i: nat)
    requires Run(states, events) && i < |states|
    ensures IndicesDiffer(states[i])
  {
    if i != 0 {
      RunIndices(states, events, i - 1);
      RunInv(states, events, i - 1);
      assert StepAt(states, events, i - 1);
      IndicesStep(states[i - 1], events[i - 1], states[i]);
    }
  }

  lemma IndicesStep(s: Loop, e: Event, s': Loop)
    requires RegistrationsFit(s) && IndicesDiffer(s) && Next(s, e, s')
    ensures IndicesDiffer(s')
  {
  }

  // ---------- posting order ----------

  lemma {:induction false} ClockAndCountGrow(states: seq<Loop>, events: seq<Event>, i: nat, j: nat)
    requires Run(states, events) && i <= j < |states|
    ensures states[i].clock <= states[j].clock && states[i].count <= states[j].count
    ensures states[i].posted <= states[j].posted
    decreases j
  {
    if i < j {
      ClockAndCountGrow(states, events, i, j - 1);
      assert StepAt(states, events, j - 1);
    }
  }

  /** A post that is still between check and registration carries the target it was checked with. */
  lemma {:induction false} TargetKept(states: seq<Loop>, events: seq<Event>, i: nat, j: nat, id: Closure)
    requires Run(states, events) && i <= j < |states|
    requires id in states[i].posted && id in states[j].checked
    ensures id in states[i].checked && states[i].checked[id] == states[j].checked[id]
    decreases j
  {
    if i < j {
      assert StepAt(states, events, j - 1);
      ClockAndCountGrow(states, events, i, j - 1);
      TargetStep(states[j - 1], events[j - 1], states[j], id);
      TargetKept(states, events, i, j - 1, id);
    }
  }

  lemma TargetStep(s: Loop, e: Event, s': Loop, id: Closure)
    requires Next(s, e, s') && id in s.posted && id in s'.checked
    ensures id in s.checked && s.checked[id] == s'.checked[id]
  {
  }

  /** A registered task stays registered as it is. */
  lemma {:induction false} RegistrationKept(states: seq<Loop>, events: seq<Event>, i: nat, j: nat, id: Closure)
    requires Run(states, events) && i <= j < |states| && id in states[i].registered
    ensures id in states[j].registered && states[j].registered[id] == states[i].registered[id]
    decreases j
  {
    if i < j {
      RegistrationKept(states, events, i, j - 1, id);
      RunInv(states, events, j - 1);
      assert StepAt(states, events, j - 1);
      RegistrationStep(states[j - 1], events[j - 1], states[j], id);
    }
  }

  lemma RegistrationStep(s: Loop, e: Event, s': Loop, id: Closure)
    requires PostsPartition(s) && Next(s, e, s') && id in s.registered
    ensures id in s'.registered && s'.registered[id] == s.registered[id]
  {
    match e
    case Register(other) => assert other in s.checked.Keys && id in s.registered.Keys;
    case _ =>
  }

  lemma {:induction false} DiscardedKept(states: seq<Loop>, events: seq<Event>, i: nat, j: nat, t: DelayedTask)
    requires Run(states, events) && i <= j < |states| && t in states[i].discarded
    ensures t in states[j].discarded
    decreases j
  {
    if i < j {
      DiscardedKept(states, events, i, j - 1, t);
      assert StepAt(states, events, j - 1);
    }
  }

  /** What has been handed to the loop thread stays, in its order. */
  lemma {:induction false} StreamGrows(states: seq<Loop>, events: seq<Event>, i: nat, j: nat)
    requires Run(states, events) && i <= j < |states|
    ensures states[i].Stream() <= states[j].Stream()
    decreases j
  {
    if i < j {
      StreamGrows(states, events, i, j - 1);
      assert StepAt(states, events, j - 1);
      StreamStep(states[j - 1], events[j - 1], states[j]);
    }
  }

  /** A task that was handed over before another one was registered runs before it. */
  lemma HandedOverFirst(states: seq<Loop>, events: seq<Event>, k: nat, j: nat, a: DelayedTask, b: DelayedTask)
    requires Run(states, events) && k <= j < |states|
    requires a in states[k].Stream() && b in states[k].queue && b in states[j].executed
    ensures Precedes(states[j].executed, a, b)
  {
    var u, v := states[k].Stream(), states[j].Stream();
    RunInv(states, events, k);
    RunInv(states, events, j);
    OnePlace(states[k], b);
    OnePlace(states[j], b);
    StreamGrows(states, events, k, j);
    assert b in v;
    assert v == u + v[|u|..];
    PrecedesAcross(u, v[|u|..], a, b);
    RegistrationKept(states, events, k, j, b.task);
    assert InOrder(states[j], a, b);
    InOrderExecuted(states, events, j, a, b);
  }

  lemma NotBothFirst(states: seq<Loop>, events: seq<Event>, j: nat, a: DelayedTask, b: DelayedTask)
    requires Run(states, events) && j < |states| && Precedes(states[j].executed, a, b)
    ensures !Precedes(states[j].executed, b, a)
  {
    var s := states[j].executed;
    var p, q :| 0 <= p < q < |s| && s[p] == a && s[q] == b;
    if Precedes(s, b, a) {
      var q', p' :| 0 <= q' < p' < |s| && s[q'] == b && s[p'] == a;
      if p < p' {
        NothingRunsTwice(states, events, j, p, p');
      } else {
        NothingRunsTwice(states, events, j, q', q);
      }
    }
  }

  /**
    Of two tasks registered one after the other that have both run, the second has run first exactly when the
    first was still pending when the second was registered, and is the later one by (target, order).
   */
  lemma RunsFirstIff(states: seq<Loop>, events: seq<Event>, k: nat, j: nat, a: DelayedTask, id: Closure)
    requires Run(states, events) && k < j < |states|
    requires Registered(states[k], a) && events[k] == Register(id) && id in states[k].checked
    requires a in states[j].executed && Task(states[k], id) in states[j].executed
    requires a in states[k].queue ==> Later(a, Task(states[k], id)) || Later(Task(states[k], id), a)
    ensures var b := Task(states[k], id);
            && (Precedes(states[j].executed, b, a) <==> a in states[k].queue && Later(a, b))
            && (Precedes(states[j].executed, a, b) <==> !(a in states[k].queue && Later(a, b)))
  {
    var s, s', b := states[k], states[k + 1], Task(states[k], id);
    assert StepAt(states, events, k);
    if a in s.queue && Later(a, b) {
      PendingTogetherRunInOrder(states, events, k + 1, j, b, a);
      NotBothFirst(states, events, j, b, a);
    } else {
      if a in s.queue {
        PendingTogetherRunInOrder(states, events, k + 1, j, a, b);
      } else {
        NotDiscarded(states, events, k, j, a);
        HandedOverFirst(states, events, k + 1, j, a, b);
      }
      NotBothFirst(states, events, j, a, b);
    }
  }

  /** A registered task that has run later was either pending or handed over. */
  lemma NotDiscarded(states: seq<Loop>, events: seq<Event>, k: nat, j: nat, a: DelayedTask)
    requires Run(states, events) && k <= j < |states| && Registered(states[k], a) && a in states[j].executed
    ensures a in states[k].queue || a in states[k].Stream()
  {
    RunInv(states, events, k);
    RunInv(states, events, j);
    OnePlace(states[k], a);
    OnePlace(states[j], a);
    if a in states[k].discarded {
      DiscardedKept(states, events, k, j, a);
    }
  }

  /** The second of two posts has the smaller key: an earlier target, or the same and a smaller index modulo 2^32. */
  predicate Overtakes(target1: Time, index1: nat, target2: Time, index2: nat) {
    target2 < target1 || (target1 == target2 && index2 % TWO32 < index1 % TWO32)
  }

  predicate SameKey(target1: Time, index1: nat, target2: Time, index2: nat) {
    target1 == target2 && index1 % TWO32 == index2 % TWO32
  }

  /**
    Two posts from any threads that have both run: they have run in the order of their registrations, except
    exactly when the first was still pending at the second's registration and the second has the smaller key.
    Two pending tasks with the same key are left out here; see `SameKeyRunsEitherWay`.
   */
  lemma PostsRunInOrderIff(
      states: seq<Loop>, events: seq<Event>,
      check1: nat, register1: nat, check2: nat, register2: nat, j: nat, a: DelayedTask, b: DelayedTask)
    requires Run(states, events) && check1 < register1 < register2 < j < |states| && check2 < register2
    requires events[check1].Check? && events[check1].id == a.task && events[register1] == Register(a.task)
    requires events[check2].Check? && events[check2].id == b.task && events[register2] == Register(b.task)
    requires Registered(states[j], a) && a in states[j].executed && Registered(states[j], b) && b in states[j].executed
    requires a in states[register2].queue ==>
               !SameKey(events[check1].target, states[register1].count, events[check2].target, states[register2].count)
    ensures Precedes(states[j].executed, a, b) <==>
            !(&& a in states[register2].queue
              && Overtakes(events[check1].target, states[register1].count, events[check2].target, states[register2].count))
    ensures Precedes(states[j].executed, b, a) <==> !Precedes(states[j].executed, a, b)
  {
    var x := PostedTask(states, events, check1, register1, a.task);
    var y := PostedTask(states, events, check2, register2, b.task);
    RegistrationKept(states, events, register1 + 1, register2, a.task);
    RegistrationKept(states, events, register1 + 1, j, a.task);
    RegistrationKept(states, events, register2 + 1, j, b.task);
    OrderKeyResidue(states[register1].count, states[register2].count);
    OrderKeyResidue(states[register2].count, states[register1].count);
    RunsFirstIff(states, events, register2, j, a, b.task);
  }

  /**
    So tasks posted for times that do not decrease run in the order of the posts across all flushes, unless a
    multiple of 2^32 registrations lies between those of two that are pending together.
   */
  lemma PostsRunInPostingOrder(
      states: seq<Loop>, events: seq<Event>,
      check1: nat, register1: nat, check2: nat, register2: nat, j: nat, a: DelayedTask, b: DelayedTask)
    requires Run(states, events) && check1 < register1 < register2 < j < |states| && check2 < register2
    requires events[check1].Check? && events[check1].id == a.task && events[register1] == Register(a.task)
    requires events[check2].Check? && events[check2].id == b.task && events[register2] == Register(b.task)
    requires Registered(states[j], a) && a in states[j].executed && Registered(states[j], b) && b in states[j].executed
    requires events[check1].target <= events[check2].target
    requires || states[register1].count % TWO32 < states[register2].count % TWO32
             || events[check1].target < events[check2].target
             || a !in states[register2].queue
    ensures Precedes(states[j].executed, a, b)
  {
    PostsRunInOrderIff(states, events, check1, register1, check2, register2, j, a, b);
  }

  /** The task that a post puts into the queue. */
  lemma PostedTask(states: seq<Loop>, events: seq<Event>, check: nat, register: nat, id: Closure)
      returns (t: DelayedTask)
    requires Run(states, events) && check < register < |events|
    requires events[check].Check? && events[check].id == id && events[register] == Register(id)
    ensures t == DelayedTask(OrderKey(states[register].count), id, events[check].target)
    ensures id in states[register].checked && t == Task(states[register], id)
    ensures Registered(states[register + 1], t) && states[register + 1].count == states[register].count + 1
  {
    assert StepAt(states, events, check);
    assert StepAt(states, events, register);
    t := Task(states[register], id);
    RunInv(states, events, check);
    TargetKept(states, events, check + 1, register, id);
  }

  // ---------- the alarm ----------

  /** The events that only register, wait, run tasks, and flush everything that is due. */
  predicate KeepsAlarmExact(e: Event) {
    !e.SelfWake? && !e.Dispose? && (e.Flush? ==> e.flush == All)
  }

  /** The alarm is set to the earliest pending target, or to the end of time when nothing is left. */
  ghost predicate AlarmExact(s: Loop) {
    match s.alarm
    case None => s.queue == multiset{}
    case Some(time) => IsNextWake(s.queue, time)
  }

  lemma {:induction false} AlarmIsExact(states: seq<Loop>, events: seq<Event>, i: nat)
    requires Run(states, events) && i < |states|
    requires forall k :: 0 <= k < i ==> KeepsAlarmExact(events[k])
    ensures AlarmExact(states[i])
  {
    if i != 0 {
      AlarmIsExact(states, events, i - 1);
      assert StepAt(states, events, i - 1);
      AlarmExactStep(states[i - 1], events[i - 1], states[i]);
    }
  }

  lemma AlarmExactStep(s: Loop, e: Event, s': Loop)
    requires AlarmExact(s) && Next(s, e, s') && KeepsAlarmExact(e)
    ensures AlarmExact(s')
  {
    if (e.Flush? || e.FinalFlush?) && e.taken == [] {
      assert s'.queue == s.queue;
    }
  }

  /** The events that send a wake-up to the loop. */
  predicate Sends(e: Event) {
    e.Register? || (e.Flush? && e.flush == All && e.taken != []) || (e.FinalFlush? && e.taken != []) ||
    e.SelfWake?
  }

  /** Event `k` is the last before state `i` that sent a wake-up. */
  predicate LastSender(events: seq<Event>, k: nat, i: nat) {
    k < i <= |events| && Sends(events[k]) && forall j :: k < j < i ==> !Sends(events[j])
  }

  /** Something pending was there before, and the alarm too, unless the last event sent a wake-up. */
  lemma PendingBefore(states: seq<Loop>, events: seq<Event>, i: nat, t: DelayedTask)
    requires Run(states, events) && i < |states| && t in states[i].queue
    ensures i > 0
    ensures !Sends(events[i - 1]) ==> t in states[i - 1].queue && states[i - 1].alarm == states[i].alarm
  {
    if i > 0 && !Sends(events[i - 1]) {
      assert StepAt(states, events, i - 1);
      NothingSent(states[i - 1], events[i - 1], states[i], t);
    }
  }

  lemma {:induction false} AlarmWasSent(states: seq<Loop>, events: seq<Event>, i: nat, t: DelayedTask) returns (k: nat)
    requires Run(states, events) && i < |states| && t in states[i].queue
    ensures LastSender(events, k, i)
  {
    PendingBefore(states, events, i, t);
    if Sends(events[i - 1]) {
      k := i - 1;
    } else {
      k := AlarmWasSent(states, events, i - 1, t);
    }
  }

  lemma {:induction false} AlarmSince(states: seq<Loop>, events: seq<Event>, k: nat, i: nat, t: DelayedTask)
    requires Run(states, events) && k < i < |states| && t in states[i].queue
    requires forall j :: k < j < i ==> !Sends(events[j])
    ensures states[i].alarm == states[k + 1].alarm && t in states[k + 1].queue
    decreases i
  {
    if k + 1 < i {
      PendingBefore(states, events, i, t);
      AlarmSince(states, events, k, i - 1, t);
    }
  }

  lemma NothingSent(s: Loop, e: Event, s': Loop, t: DelayedTask)
    requires Next(s, e, s') && !Sends(e) && t in s'.queue
    ensures t in s.queue && s'.alarm == s.alarm
  {
  }

  lemma AlarmSentInTime(s: Loop, e: Event, s': Loop, t: DelayedTask)
    requires Next(s, e, s') && Sends(e) && t in s'.queue
    ensures s'.alarm.Some?
    ensures if e.SelfWake? then s'.alarm.value == e.time else s'.alarm.value <= t.target
  {
  }

  /**
    In every state of every run something pending has an alarm, and the alarm is later than the target of a
    pending task exactly when the last to send a wake-up was the loop itself, terminating past that target.
   */
  lemma AlarmIsLateIff(states: seq<Loop>, events: seq<Event>, i: nat, t: DelayedTask) returns (k: nat)
    requires Run(states, events) && i < |states| && t in states[i].queue
    ensures LastSender(events, k, i) && states[i].alarm.Some?
    ensures t.target < states[i].alarm.value <==> events[k].SelfWake? && t.target < events[k].time
  {
    k := AlarmWasSent(states, events, i, t);
    AlarmSince(states, events, k, i, t);
    assert StepAt(states, events, k);
    AlarmSentInTime(states[k], events[k], states[k + 1], t);
  }

  // ---------- after the termination ----------

  /** A longer run, at the end of which `id` is registered. */
  ghost predicate Registers(states: seq<Loop>, events: seq<Event>, states': seq<Loop>, events': seq<Event>, id: Closure) {
    && Run(states', events') && |states| <= |states'| && states'[..|states|] == states
    && |events| <= |events'| && events'[..|events|] == events
    && id in states'[|states'| - 1].registered
  }

  /** A terminated loop takes no new posts. */
  lemma {:induction false} NeverRegistered(states: seq<Loop>, events: seq<Event>, i: nat, j: nat, id: Closure)
    requires Run(states, events) && i <= j < |states|
    requires states[i].terminated && id !in states[i].checked && id !in states[i].registered
    ensures states[j].terminated && id !in states[j].checked && id !in states[j].registered
    decreases j
  {
    if i < j {
      NeverRegistered(states, events, i, j - 1, id);
      assert StepAt(states, events, j - 1);
    }
  }

  /** A registration is possible for every post that has passed the check. */
  lemma CanRegister(s: Loop, id: Closure) returns (s': Loop)
    requires id in s.checked
    ensures Next(s, Register(id), s') && id in s'.registered
  {
    var q := s.queue + multiset{Task(s, id)};
    var top := TopExists(q);
    TopIsNextWake(q, top);
    s' := s.(
      count := s.count + 1, checked := s.checked - {id}, queue := q, alarm := Some(top.target),
      registered := s.registered[id := Registration(s.count, Task(s, id))]);
  }

  /**
    After the termination, a post that is not registered yet can still be registered if and only if it passed the
    check before; this is exact for every run up to then.
   */
  lemma RegistersLateIff(states: seq<Loop>, events: seq<Event>, id: Closure)
    requires Run(states, events)
    requires states[|states| - 1].terminated && id !in states[|states| - 1].registered
    ensures (exists states', events' :: Registers(states, events, states', events', id)) <==>
            id in states[|states| - 1].checked
  {
    var n := |states| - 1;
    if id in states[n].checked {
      var s' := CanRegister(states[n], id);
      Extend(states, events, Register(id), s');
      assert Registers(states, events, states + [s'], events + [Register(id)], id);
    } else {
      forall states', events' | Registers(states, events, states', events', id)
        ensures false
      {
        assert states'[n] == states[n];
        NeverRegistered(states', events', n, |states'| - 1, id);
      }
    }
  }

  /** Event `k` is a flush that takes `t`. */
  predicate Takes(events: seq<Event>, k: nat, t: DelayedTask)
    requires k < |events|
  {
    events[k].Flush? && t in events[k].taken
  }

  lemma StaysIdle(s: Loop, e: Event, s': Loop)
    requires Next(s, e, s') && s.terminated && s.phase == Idle
    ensures s'.terminated && s'.phase == Idle
  {
  }

  /** A task that has left the queue does not come back. */
  lemma StaysGone(s: Loop, e: Event, s': Loop, t: DelayedTask)
    requires PostsPartition(s) && Next(s, e, s') && t.task in s.registered && t !in s.queue
    ensures t !in s'.queue
  {
    match e
    case Register(id) => assert id in s.checked.Keys && t.task in s.registered.Keys;
    case _ =>
  }

  lemma IdleStep(s: Loop, e: Event, s': Loop, t: DelayedTask)
    requires TasksConserved(s) && Next(s, e, s') && s.phase == Idle && t in s.queue
    ensures t in s'.queue <==> !(e.Flush? && t in e.taken)
    ensures e.Flush? && e.flush == All ==> (t in e.taken <==> t.target <= s.clock)
  {
    if e.Flush? {
      assert Occurrences(s, t) <= 1;
      assert t in e.taken <==> t in multiset(e.taken);
    }
  }

  /**
    What is pending in a terminated loop that does not run stays pending exactly as long as no flush takes it,
    whatever else happens, and no start takes it up.
   */
  lemma {:induction false} StaysPendingIff(states: seq<Loop>, events: seq<Event>, i: nat, j: nat, t: DelayedTask)
    requires Run(states, events) && i <= j < |states|
    requires states[i].terminated && states[i].phase == Idle && t in states[i].queue
    ensures states[j].terminated && states[j].phase == Idle
    ensures t in states[j].queue <==> forall k :: i <= k < j ==> !Takes(events, k, t)
    decreases j
  {
    if i < j {
      StaysPendingIff(states, events, i, j - 1, t);
      PendingRegistered(states, events, i, j - 1, t);
      IdleStepAt(states, events, j - 1, t);
    }
  }

  lemma PendingRegistered(states: seq<Loop>, events: seq<Event>, i: nat, j: nat, t: DelayedTask)
    requires Run(states, events) && i <= j < |states| && t in states[i].queue
    ensures t.task in states[j].registered
  {
    RunInv(states, events, i);
    OnePlace(states[i], t);
    RegistrationKept(states, events, i, j, t.task);
  }

  lemma IdleStepAt(states: seq<Loop>, events: seq<Event>, i: nat, t: DelayedTask)
    requires Run(states, events) && i < |events|
    requires states[i].terminated && states[i].phase == Idle && t.task in states[i].registered
    ensures states[i + 1].terminated && states[i + 1].phase == Idle
    ensures t in states[i + 1].queue <==> t in states[i].queue && !Takes(events, i, t)
  {
    RunInv(states, events, i);
    assert StepAt(states, events, i);
    StaysIdle(states[i], events[i], states[i + 1]);
    if t in states[i].queue {
      IdleStep(states[i], events[i], states[i + 1], t);
    } else {
      StaysGone(states[i], events[i], states[i + 1], t);
    }
  }

  /** And a full flush takes it exactly when it is due. */
  lemma IdleFlushTakesIff(states: seq<Loop>, events: seq<Event>, i: nat, t: DelayedTask)
    requires Run(states, events) && i < |events| && t in states[i].queue
    requires states[i].terminated && states[i].phase == Idle && events[i].Flush? && events[i].flush == All
    ensures Takes(events, i, t) <==> t.target <= states[i].clock
  {
    RunInv(states, events, i);
    assert StepAt(states, events, i);
    IdleStep(states[i], events[i], states[i + 1], t);
  }

  // ---------- runs that mark the limits ----------

  function Fresh(count: nat): (s: Loop)
    ensures Init(s)
  {
    Loop(0, count, false, Idle, map[], multiset{}, [], None, {}, {}, map[], [], multiset{})
  }

  /** The check of `PostTask` is not under the queue lock: a post that passed it can register after the termination. */
  lemma RegisteredAfterTermination(id: Closure) returns (states: seq<Loop>, events: seq<Event>)
    ensures Run(states, events)
    ensures var s := states[|states| - 1];
            && s.terminated && s.phase == Idle && id in s.registered && s.registered[id].task in s.queue
            && forall kind, s' :: Next(s, Start(kind), s') ==> s' == s
  {
    var s0 := Fresh(0);
    var s1 := s0.(posted := {id}, checked := map[id := 0]);
    var s2 := s1.(terminated := true);
    var t := Task(s2, id);
    var s3 := s2.(count := 1, checked := map[], queue := multiset{t}, alarm := Some(0),
                  registered := map[id := Registration(0, t)]);
    assert t in s3.queue;
    states, events := [s0, s1, s2, s3], [Check(id, 0), Terminate, Register(id)];
    assert Next(s0, events[0], s1) && Next(s1, events[1], s2) && Next(s2, events[2], s3);
  }

  lemma Extend(states: seq<Loop>, events: seq<Event>, e: Event, s': Loop)
    requires Run(states, events) && Next(states[|states| - 1], e, s')
    ensures Run(states + [s'], events + [e])
  {
    var states', events' := states + [s'], events + [e];
    forall i | 0 <= i < |events'|
      ensures StepAt(states', events', i)
    {
      assert i < |events| ==> StepAt(states, events, i);
    }
  }

  /** Posts task `id` for time zero in a state without other posts under way. */
  lemma PostNow(states: seq<Loop>, events: seq<Event>, id: Closure) returns (states': seq<Loop>, events': seq<Event>)
    requires Run(states, events)
    requires var s := states[|states| - 1];
             && id !in s.posted && !s.terminated && s.checked == map[]
             && forall u :: u in s.queue ==> u.target == 0
    ensures Run(states', events') && events' == events + [Check(id, 0), Register(id)]
    ensures var s, t := states[|states| - 1], DelayedTask(OrderKey(states[|states| - 1].count), id, 0);
            states'[|states'| - 1] == s.(
              count := s.count + 1, posted := s.posted + {id}, checked := map[], queue := s.queue + multiset{t},
              alarm := Some(0), registered := s.registered[id := Registration(s.count, t)])
  {
    var s := states[|states| - 1];
    var s1 := s.(posted := s.posted + {id}, checked := map[id := 0]);
    var t := Task(s1, id);
    var s2 := s1.(count := s.count + 1, checked := map[], queue := s.queue + multiset{t}, alarm := Some(0),
                  registered := s.registered[id := Registration(s.count, t)]);
    assert t in s2.queue;
    Extend(states, events, Check(id, 0), s1);
    assert (states + [s1])[|states|] == s1;
    assert s1.checked - {id} == map[];
    Extend(states + [s1], events + [Check(id, 0)], Register(id), s2);
    states', events' := states + [s1] + [s2], events + [Check(id, 0)] + [Register(id)];
  }

  /** After 2^32 registrations the counter has wrapped, and a later post with the same target runs first. */
  lemma WrappedCounterReversesOrder() returns (states: seq<Loop>, events: seq<Event>, a: DelayedTask, b: DelayedTask)
    ensures Run(states, events)
    ensures |events| >= 4 && events[..4] == [Check(1, 0), Register(1), Check(2, 0), Register(2)]
    ensures a.task == 1 && b.task == 2 && states[|states| - 1].executed == [b, a]
  {
    states, events := [Fresh(TWO32 - 1)], [];
    states, events := PostNow(states, events, 1);
    states, events := PostNow(states, events, 2);
    KeyValue(TWO32 - 1);
    assert OrderKey(TWO32) == 0;
    a, b := DelayedTask(OrderKey(TWO32 - 1), 1, 0), DelayedTask(0, 2, 0);
    var s := states[|states| - 1];
    assert s.queue == multiset{a, b} && s.batch == [] && s.executed == [];
    states, events := RunBatch(states, events, b, a);
  }

  /** A loop that is terminated at time five has its alarm set after the target of a task pending since zero. */
  lemma TerminateDelaysAlarm(id: Closure) returns (states: seq<Loop>, events: seq<Event>)
    ensures Run(states, events) && events == [Check(id, 0), Register(id), Tick(5), Terminate, SelfWake(5)]
    ensures var s := states[5];
            s.alarm == Some(5) && exists t :: t in s.queue && t.target == 0
  {
    states, events := PostNow([Fresh(0)], [], id);
    var s := states[|states| - 1];
    var t := DelayedTask(OrderKey(0), id, 0);
    assert t in s.queue;
    var s3 := s.(clock := 5);
    var s4 := s3.(terminated := true);
    var s5 := s4.(alarm := Some(5));
    Extend(states, events, Tick(5), s3);
    Extend(states + [s3], events + [Tick(5)], Terminate, s4);
    Extend(states + [s3] + [s4], events + [Tick(5)] + [Terminate], SelfWake(5), s5);
    states, events := states + [s3] + [s4] + [s5], events + [Tick(5)] + [Terminate] + [SelfWake(5)];
    assert t in states[5].queue && t.target == 0;
  }

  /** `n` registrations in other queues. */
  lemma {:induction false} OthersRegister(states: seq<Loop>, events: seq<Event>, n: nat)
      returns (states': seq<Loop>, events': seq<Event>)
    requires Run(states, events)
    ensures Run(states', events')
    ensures var s := states[|states| - 1];
            states'[|states'| - 1] == s.(count := s.count + n)
  {
    if n == 0 {
      states', events' := states, events;
    } else {
      var ss, es := OthersRegister(states, events, n - 1);
      var s := ss[|ss| - 1].(count := ss[|ss| - 1].count + 1);
      Extend(ss, es, Foreign, s);
      states', events' := ss + [s], es + [Foreign];
    }
  }

  /** Two tasks with the same key, 2^32 registrations apart, can run in either order. */
  lemma SameKeyRunsEitherWay() returns (
      states: seq<Loop>, events: seq<Event>, states': seq<Loop>, events': seq<Event>, a: DelayedTask, b: DelayedTask)
    ensures Run(states, events) && Run(states', events') && a.task == 1 && b.task == 2
    ensures states[|states| - 1].executed == [a, b] && states'[|states'| - 1].executed == [b, a]
  {
    states, events := PostNow([Fresh(0)], [], 1);
    states, events := OthersRegister(states, events, TWO32 - 1);
    states, events := PostNow(states, events, 2);
    a, b := DelayedTask(OrderKey(0), 1, 0), DelayedTask(OrderKey(TWO32), 2, 0);
    OrderKeyResidue(0, TWO32);
    var s := states[|states| - 1];
    assert s.queue == multiset{a, b} == multiset{b, a} && s.batch == [] && s.executed == [];
    states', events' := RunBatch(states, events, b, a);
    states, events := RunBatch(states, events, a, b);
  }

  /** One flush of two due tasks, and both executed. */
  lemma RunBatch(states: seq<Loop>, events: seq<Event>, x: DelayedTask, y: DelayedTask)
      returns (states': seq<Loop>, events': seq<Event>)
    requires Run(states, events) && !Later(x, y)
    requires var s := states[|states| - 1];
             && s.queue == multiset{x, y} && x.target <= s.clock && y.target <= s.clock
             && s.batch == [] && s.phase == Idle
    ensures Run(states', events') && events' == events + [Flush(All, [x, y]), Execute, Execute]
    ensures states'[|states'| - 1].executed == states[|states| - 1].executed + [x, y]
  {
    var s := states[|states| - 1];
    var s1 := s.(queue := multiset{}, batch := [x, y], alarm := Some(TIME_MAX));
    var s2 := s1.(batch := [y], executed := s.executed + [x]);
    var s3 := s2.(batch := [], executed := s.executed + [x] + [y]);
    assert multiset([x, y]) == multiset{x, y};
    assert Flushes(s, All, [x, y], s1);
    Extend(states, events, Flush(All, [x, y]), s1);
    Extend(states + [s1], events + [Flush(All, [x, y])], Execute, s2);
    Extend(states + [s1] + [s2], events + [Flush(All, [x, y])] + [Execute], Execute, s3);
    states', events' := states + [s1] + [s2] + [s3], events + [Flush(All, [x, y])] + [Execute] + [Execute];
  }
}
