/**
  The delayed-task queues of message_loop_task_queues.cpp and the comparison of delayed_task.cpp.
  A queue is a multiset of tasks from which a smallest one is taken; which of several equal ones is left open.
 */
module TaskQueues {
  import opened Wrappers
  import opened Integers

  /** Nanoseconds, as in `TimePoint`. */
  type Time = int
  type Closure = nat
  type QueueId = nat

  const TIME_MAX: Time := 0x7fff_ffff_ffff_ffff

  datatype DelayedTask = DelayedTask(order: nat, task: Closure, target: Time)

  type Queue = multiset<DelayedTask>

  /** `operator>` of `DelayedTask`. */
  predicate Later(a: DelayedTask, b: DelayedTask) {
    if a.target == b.target then a.order > b.order else a.target > b.target
  }

  /** On tasks with different orders, `operator>` is a strict total order. */
  lemma LaterIsStrictTotalOrder(a: DelayedTask, b: DelayedTask, c: DelayedTask)
    ensures !Later(a, a)
    ensures Later(a, b) && Later(b, c) ==> Later(a, c)
    ensures a.order != b.order ==> (Later(a, b) <==> !Later(b, a))
  {
  }

  // ---------- the order keys ----------

  /** The value of the `atomic_int` counter after `n` increments from zero. */
  function Counter(n: nat): int { AsInt32(n) }

  function Increment(v: int): int { if v == TWO31 - 1 then -TWO31 else v + 1 }

  lemma CounterIncrements(n: nat)
    ensures Counter(n + 1) == Increment(Counter(n))
  {
  }

  /** `static_cast<size_t>` of the counter. */
  function Widen(v: int): nat
    requires -TWO31 <= v < TWO31
  {
    if v < 0 then v + TWO64 else v
  }

  /** The key of the registration with index `n`. */
  function OrderKey(n: nat): nat { Widen(Counter(n)) }

  lemma OrderKeysIncrease(m: nat, n: nat)
    requires m < n < TWO32
    ensures OrderKey(m) < OrderKey(n)
  {
    KeyValue(m);
    KeyValue(n);
  }

  lemma KeyValue(n: nat)
    requires n < TWO32
    ensures OrderKey(n) == if n < TWO31 then n else n + TWO64 - TWO32
  {
  }

  /** Keys compare as the indices of their registrations do modulo 2^32. */
  lemma OrderKeyResidue(m: nat, n: nat)
    ensures OrderKey(m) < OrderKey(n) <==> m % TWO32 < n % TWO32
    ensures OrderKey(m) == OrderKey(n) <==> m % TWO32 == n % TWO32
  {
    KeyOfResidue(m);
    KeyOfResidue(n);
    KeyValue(m % TWO32);
    KeyValue(n % TWO32);
  }

  lemma KeyOfResidue(n: nat)
    ensures OrderKey(n) == OrderKey(n % TWO32)
  {
  }

  /** The keys of the first `count` registrations increase exactly as long as the counter has not wrapped. */
  lemma OrderKeysIncreaseIff(count: nat)
    ensures (forall m, n :: 0 <= m < n < count ==> OrderKey(m) < OrderKey(n)) <==> count <= TWO32
  {
    if count <= TWO32 {
      forall m, n | 0 <= m < n < count
        ensures OrderKey(m) < OrderKey(n)
      {
        OrderKeysIncrease(m, n);
      }
    } else {
      assert OrderKey(TWO32) == 0 == OrderKey(0);
    }
  }

  // ---------- what a flush takes ----------

  datatype FlushType = Single | All

  predicate Sorted(s: seq<DelayedTask>) {
    forall i, j :: 0 <= i < j < |s| ==> !Later(s[i], s[j])
  }

  predicate IsTop(q: Queue, t: DelayedTask) {
    t in q && forall u :: u in q ==> !Later(t, u)
  }

  /** `taken` is a sorted prefix of the queue: nothing that stays behind is due before something taken. */
  predicate TakesFirst(q: Queue, taken: seq<DelayedTask>, rest: Queue) {
    && q == multiset(taken) + rest
    && Sorted(taken)
    && forall t, u :: t in taken && u in rest ==> !Later(t, u)
  }

  /** The effect of a flush at time `now`: exactly the due tasks, in order; or exactly the first of them. */
  predicate Flushed(q: Queue, now: Time, kind: FlushType, taken: seq<DelayedTask>, rest: Queue) {
    && TakesFirst(q, taken, rest)
    && (forall t :: t in taken ==> t.target <= now)
    && match kind
       case All => forall u :: u in rest ==> now < u.target
       case Single => |taken| <= 1 && (taken == [] ==> forall u :: u in rest ==> now < u.target)
  }

  lemma HeadIsTop(q: Queue, taken: seq<DelayedTask>, rest: Queue)
    requires TakesFirst(q, taken, rest) && taken != []
    ensures IsTop(q, taken[0])
  {
    forall u | u in q
      ensures !Later(taken[0], u)
    {
      if u in taken {
        var j :| 0 <= j < |taken| && taken[j] == u;
      }
    }
  }

  /** A flush without its first task is a flush of what is left in the queue. */
  lemma FlushTail(q: Queue, now: Time, taken: seq<DelayedTask>, rest: Queue)
    requires Flushed(q, now, All, taken, rest) && taken != []
    ensures Flushed(q - multiset{taken[0]}, now, All, taken[1..], rest)
  {
    assert taken == [taken[0]] + taken[1..];
    assert multiset(taken) == multiset{taken[0]} + multiset(taken[1..]);
  }

  /** No two pending tasks have the same order. */
  ghost predicate DistinctOrders(q: Queue) {
    && (forall t :: q[t] <= 1)
    && (forall t, u :: t in q && u in q && t != u ==> t.order != u.order)
  }

  /** The comparison does not tell two tasks apart. */
  predicate Tied(t: DelayedTask, u: DelayedTask) { t.target == u.target && t.order == u.order }

  /** The due tasks can be told apart; for a single flush, only the first of them need be. */
  ghost predicate Unambiguous(q: Queue, now: Time, kind: FlushType) {
    match kind
    case All => forall t, u :: t in q && u in q && t != u && t.target <= now ==> !Tied(t, u)
    case Single => forall t, u :: IsTop(q, t) && IsTop(q, u) && t.target <= now ==> t == u
  }

  /** A flush has one possible outcome. */
  ghost predicate Determined(q: Queue, now: Time, kind: FlushType) {
    forall s, r, s', r' :: Flushed(q, now, kind, s, r) && Flushed(q, now, kind, s', r') ==> s == s' && r == r'
  }

  /** A flush has one possible outcome if and only if the tasks it takes can be told apart. */
  lemma FlushIsDeterminedIff(q: Queue, now: Time, kind: FlushType)
    ensures Determined(q, now, kind) <==> Unambiguous(q, now, kind)
  {
    if Unambiguous(q, now, kind) {
      forall s, r, s', r' | Flushed(q, now, kind, s, r) && Flushed(q, now, kind, s', r')
        ensures s == s' && r == r'
      {
        FlushIsDetermined(q, now, kind, s, r, s', r');
      }
    } else {
      var s, r, s', r' := TwoOutcomes(q, now, kind);
    }
  }

  lemma FlushIsDetermined(
      q: Queue, now: Time, kind: FlushType, s: seq<DelayedTask>, r: Queue, s': seq<DelayedTask>, r': Queue)
    requires Flushed(q, now, kind, s, r) && Flushed(q, now, kind, s', r')
    requires Unambiguous(q, now, kind)
    ensures s == s' && r == r'
  {
    match kind
    case All =>
      FlushAllIsDetermined(q, now, s, r, s', r');
    case Single =>
      FlushSingleIsDetermined(q, now, s, r, s', r');
  }

  lemma TwoOutcomes(q: Queue, now: Time, kind: FlushType)
      returns (s: seq<DelayedTask>, r: Queue, s': seq<DelayedTask>, r': Queue)
    requires !Unambiguous(q, now, kind)
    ensures Flushed(q, now, kind, s, r) && Flushed(q, now, kind, s', r') && s != s'
  {
    match kind
    case All =>
      var t, u :| t in q && u in q && t != u && t.target <= now && Tied(t, u);
      s, r := FlushExists(q, now);
      assert t in multiset(s) && u in multiset(s);
      var i :| 0 <= i < |s| && s[i] == t;
      var j :| 0 <= j < |s| && s[j] == u;
      s', r' := s[i := u][j := t], r;
      SwapTied(q, now, s, r, i, j);
    case Single =>
      var t, u :| IsTop(q, t) && IsTop(q, u) && t.target <= now && t != u;
      s, r, s', r' := [t], q - multiset{t}, [u], q - multiset{u};
      TopIsFlushed(q, now, t);
      TopIsFlushed(q, now, u);
  }

  lemma TopIsFlushed(q: Queue, now: Time, t: DelayedTask)
    requires IsTop(q, t) && t.target <= now
    ensures Flushed(q, now, Single, [t], q - multiset{t})
  {
    assert multiset([t]) == multiset{t};
  }

  /** Two tied tasks can change places. */
  lemma SwapTied(q: Queue, now: Time, s: seq<DelayedTask>, r: Queue, i: nat, j: nat)
    requires Flushed(q, now, All, s, r) && i < |s| && j < |s| && i != j && Tied(s[i], s[j])
    ensures Flushed(q, now, All, s[i := s[j]][j := s[i]], r)
  {
    var s' := s[i := s[j]][j := s[i]];
    assert forall k :: 0 <= k < |s| ==> Tied(s[k], s'[k]);
    SwapKeepsElements(s, i, j);
    assert Sorted(s');
    forall t, u | t in s' && u in r
      ensures !Later(t, u)
    {
      var k :| 0 <= k < |s'| && s'[k] == t;
      assert s[k] in s;
    }
    forall t | t in s'
      ensures t.target <= now
    {
      var k :| 0 <= k < |s'| && s'[k] == t;
      assert s[k] in s;
    }
  }

  lemma SwapKeepsElements<T>(s: seq<T>, i: nat, j: nat)
    requires i < |s| && j < |s| && i != j
    ensures multiset(s[i := s[j]][j := s[i]]) == multiset(s)
  {
  }

  lemma {:induction false} FlushExists(q: Queue, now: Time) returns (s: seq<DelayedTask>, r: Queue)
    ensures Flushed(q, now, All, s, r)
    decreases |q|
  {
    if forall u :: u in q ==> now < u.target {
      s, r := [], q;
    } else {
      var t := TopExists(q);
      s, r := FlushExists(q - multiset{t}, now);
      PrependTop(q, now, t, s, r);
      s := [t] + s;
    }
  }

  lemma PrependTop(q: Queue, now: Time, t: DelayedTask, s: seq<DelayedTask>, r: Queue)
    requires IsTop(q, t) && t.target <= now && Flushed(q - multiset{t}, now, All, s, r)
    ensures Flushed(q, now, All, [t] + s, r)
  {
    var s' := [t] + s;
    assert multiset(s') == multiset{t} + multiset(s);
    assert q == multiset{t} + (q - multiset{t});
    forall u | u in s || u in r
      ensures u in q
    {
      assert u in multiset(s) + r;
    }
    forall i, j | 0 <= i < j < |s'|
      ensures !Later(s'[i], s'[j])
    {
      assert s'[j] == s[j - 1] && s[j - 1] in s;
    }
    forall x, u | x in s' && u in r
      ensures !Later(x, u)
    {
      assert x == t || x in s;
    }
  }

  /** A queue that is not empty has a first task. */
  lemma {:induction false} TopExists(q: Queue) returns (t: DelayedTask)
    requires q != multiset{}
    ensures IsTop(q, t)
    decreases |q|
  {
    t :| t in q;
    var rest := q - multiset{t};
    assert forall v :: v in q && v != t ==> v in rest;
    if rest != multiset{} {
      var u := TopExists(rest);
      if Later(t, u) {
        t := u;
      }
    }
  }

  lemma FlushSingleIsDetermined(
      q: Queue, now: Time, s: seq<DelayedTask>, r: Queue, s': seq<DelayedTask>, r': Queue)
    requires Flushed(q, now, Single, s, r) && Flushed(q, now, Single, s', r')
    requires Unambiguous(q, now, Single)
    ensures s == s' && r == r'
  {
    NoneTaken(q, now, Single, s, r);
    NoneTaken(q, now, Single, s', r');
    if s != [] {
      SameHead(q, now, s, r, s', r');
      Recons(s, s');
    }
    SameRest(q, s, r, r');
  }

  lemma SameRest(q: Queue, s: seq<DelayedTask>, r: Queue, r': Queue)
    requires q == multiset(s) + r == multiset(s) + r'
    ensures r == r'
  {
    assert r == q - multiset(s) && r' == q - multiset(s);
  }

  lemma {:induction false} FlushAllIsDetermined(
      q: Queue, now: Time, s: seq<DelayedTask>, r: Queue, s': seq<DelayedTask>, r': Queue)
    requires Flushed(q, now, All, s, r) && Flushed(q, now, All, s', r')
    requires Unambiguous(q, now, All)
    ensures s == s' && r == r'
    decreases |s|
  {
    NoneTaken(q, now, All, s, r);
    NoneTaken(q, now, All, s', r');
    if s == [] {
      assert q == r && q == r';
    } else {
      OneTop(q, now);
      SameHead(q, now, s, r, s', r');
      FlushTail(q, now, s, r);
      FlushTail(q, now, s', r');
      FlushAllIsDetermined(q - multiset{s[0]}, now, s[1..], r, s'[1..], r');
      Recons(s, s');
    }
  }

  lemma Recons<T>(s: seq<T>, s': seq<T>)
    requires s != [] && s' != [] && s[0] == s'[0] && s[1..] == s'[1..]
    ensures s == s'
  {
    assert s == [s[0]] + s[1..] && s' == [s'[0]] + s'[1..];
  }

  /** A flush takes nothing exactly when nothing is due. */
  lemma NoneTaken(q: Queue, now: Time, kind: FlushType, s: seq<DelayedTask>, r: Queue)
    requires Flushed(q, now, kind, s, r)
    ensures s == [] <==> forall u :: u in q ==> now < u.target
  {
    if s == [] {
      assert q == r;
    } else {
      assert s[0] in q;
    }
  }

  lemma SameHead(q: Queue, now: Time, s: seq<DelayedTask>, r: Queue, s': seq<DelayedTask>, r': Queue)
    requires TakesFirst(q, s, r) && TakesFirst(q, s', r') && s != [] && s' != [] && s[0].target <= now
    requires Unambiguous(q, now, Single)
    ensures s[0] == s'[0]
  {
    HeadIsTop(q, s, r);
    HeadIsTop(q, s', r');
  }

  lemma OneTop(q: Queue, now: Time)
    requires Unambiguous(q, now, All)
    ensures Unambiguous(q, now, Single)
  {
  }

  /** A single flush takes exactly the first of what a full flush at the same time would take. */
  lemma SingleTakesFirstOfAll(q: Queue, now: Time, s: seq<DelayedTask>, r: Queue, all: seq<DelayedTask>, rest: Queue)
    requires Flushed(q, now, Single, s, r) && Flushed(q, now, All, all, rest) && Unambiguous(q, now, Single)
    ensures s == if all == [] then [] else [all[0]]
  {
    NoneTaken(q, now, Single, s, r);
    NoneTaken(q, now, All, all, rest);
    if all != [] {
      SameHead(q, now, s, r, all, rest);
    }
  }

  // ---------- the queues ----------

  /** A queue, whether something listens for wake-ups, and the wake-up times the listener has received. */
  datatype Entry = Entry(tasks: Queue, wakeable: bool, wakes: seq<Time>) {
    /** `WakeUpUnlocked` */
    function WakeUp(time: Time): Entry { if wakeable then this.(wakes := wakes + [time]) else this }

    /** `e` has other tasks, and has been sent the wake-up at `time` if anything listens. */
    predicate BecomesAndWakes(e: Entry, time: Time) {
      && e.wakeable == wakeable
      && (wakeable ==> e.wakes != [] && e.wakes[|e.wakes| - 1] == time)
      && (!wakeable ==> e.wakes == wakes)
    }
  }

  /** The time at which the loop next has to look at the queue. */
  ghost predicate IsNextWake(q: Queue, time: Time) {
    if q == multiset{} then time == TIME_MAX
    else (exists t :: t in q && t.target == time) && (forall u :: u in q ==> time <= u.target)
  }

  lemma TopIsNextWake(q: Queue, t: DelayedTask)
    requires IsTop(q, t)
    ensures IsNextWake(q, t.target)
  {
  }

  /** `priority_queue::top` */
  method Top(q: Queue) returns (t: DelayedTask)
    requires q != multiset{}
    ensures IsTop(q, t)
  {
    t :| t in q;
    var left := q;
    while left != multiset{}
      invariant left <= q && t in q
      invariant forall u :: u in q && u !in left ==> !Later(t, u)
      decreases |left|
    {
      var u :| u in left;
      if Later(t, u) { t := u; }
      left := left - multiset{u};
    }
  }

  function Closures(s: seq<DelayedTask>): (r: seq<Closure>)
    ensures |r| == |s|
  {
    seq(|s|, i requires 0 <= i < |s| => s[i].task)
  }

  /** Arms the alarm for what is left in the queue. */
  method Rearm(e: Entry) returns (r: Entry, time: Time)
    ensures r.tasks == e.tasks && IsNextWake(r.tasks, time) && r == e.WakeUp(time)
  {
    if e.tasks == multiset{} {
      time := TIME_MAX;
    } else {
      var next := Top(e.tasks);
      TopIsNextWake(e.tasks, next);
      time := next.target;
    }
    r := e.WakeUp(time);
  }

  /** The loop of `GetTasksToRunNow` on the entry it holds the lock of. */
  method FlushEntry(start: Entry, kind: FlushType, now: Time, invocations: seq<Closure>)
      returns (e: Entry, result: seq<Closure>, taken: seq<DelayedTask>, time: Time)
    ensures result == invocations + Closures(taken)
    ensures Flushed(start.tasks, now, kind, taken, e.tasks)
    ensures kind == All && taken != [] ==> IsNextWake(e.tasks, time) && start.BecomesAndWakes(e, time)
    ensures kind == Single || taken == [] ==> e == start.(tasks := e.tasks)
  {
    e, result, taken, time := start, invocations, [], 0;
    while e.tasks != multiset{}
      invariant result == invocations + Closures(taken)
      invariant TakesFirst(start.tasks, taken, e.tasks)
      invariant forall t :: t in taken ==> t.target <= now
      invariant kind == Single ==> taken == []
      invariant taken == [] ==> e == start
      invariant taken != [] ==> IsNextWake(e.tasks, time) && start.BecomesAndWakes(e, time)
      decreases |e.tasks|
    {
      var top := Top(e.tasks);
      if top.target > now {
        TopIsNextWake(e.tasks, top);
        break;
      }
      TakeNext(start.tasks, taken, e.tasks, top);
      AppendClosure(invocations, taken, top);
      result := result + [top.task];
      taken := taken + [top];
      e := e.(tasks := e.tasks - multiset{top});
      if kind == Single {
        break;
      }
      e, time := Rearm(e);
    }
  }

  lemma AppendClosure(invocations: seq<Closure>, taken: seq<DelayedTask>, top: DelayedTask)
    ensures invocations + Closures(taken) + [top.task] == invocations + Closures(taken + [top])
  {
  }

  class MessageLoopTaskQueues {
    var entries: map<QueueId, Entry>
    var order: int
    var queueIdCounter: nat
    ghost var registrations: nat

    ghost predicate Valid()
      reads this
    {
      order == Counter(registrations) && forall q :: q in entries ==> q < queueIdCounter
    }

    constructor ()
      ensures Valid() && entries == map[] && registrations == 0
    {
      entries, order, queueIdCounter, registrations := map[], 0, 0, 0;
    }

    method CreateTaskQueue() returns (q: QueueId)
      requires Valid()
      modifies this
      ensures Valid() && registrations == old(registrations)
      ensures q !in old(entries) && entries == old(entries)[q := Entry(multiset{}, false, [])]
    {
      q := queueIdCounter;
      queueIdCounter := queueIdCounter + 1;
      entries := entries[q := Entry(multiset{}, false, [])];
    }

    /** Aborts, here by refusing, when a wakeable is already set. */
    method SetWakeable(q: QueueId) returns (ok: bool)
      requires Valid() && q in entries
      modifies this
      ensures Valid() && registrations == old(registrations)
      ensures ok == !old(entries[q].wakeable)
      ensures entries == if ok then old(entries)[q := old(entries[q]).(wakeable := true)] else old(entries)
    {
      ok := !entries[q].wakeable;
      if ok { entries := entries[q := entries[q].(wakeable := true)]; }
    }

    method RegisterTask(q: QueueId, task: Closure, target: Time) returns (ghost time: Time)
      requires Valid() && q in entries
      modifies this
      ensures Valid() && registrations == old(registrations) + 1
      ensures q in entries && entries == old(entries)[q := entries[q]]
      ensures entries[q].tasks ==
              old(entries[q].tasks) + multiset{DelayedTask(OrderKey(old(registrations)), task, target)}
      ensures IsNextWake(entries[q].tasks, time) && old(entries[q]).BecomesAndWakes(entries[q], time)
    {
      CounterIncrements(registrations);
      var key := order;
      order := Increment(order);
      registrations := registrations + 1;
      var tasks := entries[q].tasks + multiset{DelayedTask(Widen(key), task, target)};
      var top := Top(tasks);
      TopIsNextWake(tasks, top);
      time := top.target;
      entries := entries[q := entries[q].(tasks := tasks).WakeUp(top.target)];
    }

    method GetTasksToRunNow(q: QueueId, kind: FlushType, now: Time, invocations: seq<Closure>)
        returns (result: seq<Closure>, ghost taken: seq<DelayedTask>, ghost time: Time)
      requires Valid() && q in entries
      modifies this`entries
      ensures Valid() && q in entries && entries == old(entries)[q := entries[q]]
      ensures result == invocations + Closures(taken)
      ensures Flushed(old(entries[q].tasks), now, kind, taken, entries[q].tasks)
      ensures kind == All && taken != [] ==>
                IsNextWake(entries[q].tasks, time) && old(entries[q]).BecomesAndWakes(entries[q], time)
      ensures kind == Single || taken == [] ==> entries[q] == old(entries[q]).(tasks := entries[q].tasks)
    {
      var entry;
      entry, result, taken, time := FlushEntry(entries[q], kind, now, invocations);
      entries := entries[q := entry];
    }

    /** A wake-up that the listener of a queue sends to itself. */
    method WakeListener(q: QueueId, time: Time)
      requires Valid() && q in entries
      modifies this`entries
      ensures Valid() && entries == old(entries)[q := old(entries[q]).WakeUp(time)]
    {
      entries := entries[q := entries[q].WakeUp(time)];
    }

    method DisposeTasks(q: QueueId)
      requires Valid() && q in entries
      modifies this`entries
      ensures Valid() && entries == old(entries)[q := old(entries[q]).(tasks := multiset{})]
    {
      entries := entries[q := entries[q].(tasks := multiset{})];
    }
  }

  lemma TakeNext(q: Queue, taken: seq<DelayedTask>, rest: Queue, top: DelayedTask)
    requires TakesFirst(q, taken, rest) && IsTop(rest, top)
    ensures TakesFirst(q, taken + [top], rest - multiset{top})
  {
    assert multiset(taken + [top]) == multiset(taken) + multiset{top};
  }
}
