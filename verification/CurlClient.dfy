/**
  The life of a request in curl_client.cpp and request_task_impl.cpp. A callback runs between a Begin event
  and its End event on the request thread; while it runs, it and other threads can make, resume and cancel
  tasks. libcurl may report any handle in the multi as done; a posted action may be dropped by the message loop.
 */
module CurlClient {
  import opened Wrappers
  import opened Runs

  type Hash = nat
  type TaskId = nat

  /** An action posted to the request thread. */
  datatype Action = StartAction(hash: Hash) | CancelAction(hash: Hash)

  /** What the request thread is in the middle of. */
  datatype Busy = Free | Finishing(handle: TaskId, hash: Hash) | Cancelling(hash: Hash)

  datatype Cause = Finished(handle: TaskId) | Cancelled

  /** A completion delivered to a task. */
  datatype Delivery = Delivery(task: TaskId, cause: Cause)

  datatype Client = Client(
    hashOf: map<TaskId, Hash>,      // every task ever made; a task and its curl handle share a name
    tasks: map<Hash, TaskId>,       // request_task_map_
    multi: set<TaskId>,             // the handles added to the multi
    actions: multiset<Action>,
    busy: Busy,
    delivered: seq<Delivery>,
    crashed: bool,                  // a null task was dereferenced
    destroyed: bool)

  datatype Event =
    | Make(task: TaskId, hash: Hash)
    | Resume(task: TaskId)
    | Cancel(task: TaskId)
    | Drop(action: Action)
    | RunStart(hash: Hash)
    | BeginCancel(hash: Hash)
    | EndCancel
    | BeginDone(handle: TaskId)
    | EndDone
    | Destroy

  const INITIAL := Client(map[], map[], {}, multiset{}, Free, [], false, false)

  predicate Enabled(s: Client, e: Event) {
    !s.crashed && !s.destroyed &&
    match e
    case Make(task, _) => task !in s.hashOf
    case Resume(task) => task in s.hashOf
    case Cancel(task) => task in s.hashOf
    case Drop(action) => action in s.actions
    case RunStart(hash) => s.busy == Free && StartAction(hash) in s.actions
    case BeginCancel(hash) => s.busy == Free && CancelAction(hash) in s.actions
    case EndCancel => s.busy.Cancelling? && s.busy.hash in s.tasks
    case BeginDone(handle) => s.busy == Free && handle in s.multi && handle in s.hashOf
    case EndDone => s.busy.Finishing?
    case Destroy => s.busy == Free
  }

  function Apply(s: Client, e: Event): Client
    requires Enabled(s, e)
  {
    match e
    case Make(task, hash) => s.(hashOf := s.hashOf[task := hash], tasks := s.tasks[hash := task])
    case Resume(task) => s.(actions := s.actions + multiset{StartAction(s.hashOf[task])})
    case Cancel(task) => s.(actions := s.actions + multiset{CancelAction(s.hashOf[task])})
    case Drop(action) => s.(actions := s.actions - multiset{action})
    case RunStart(hash) =>
      var s' := s.(actions := s.actions - multiset{StartAction(hash)});
      if hash in s.tasks then s'.(multi := s.multi + {s.tasks[hash]}) else s'
    case BeginCancel(hash) =>
      var s' := s.(actions := s.actions - multiset{CancelAction(hash)});
      if hash in s.tasks then
        s'.(busy := Cancelling(hash), delivered := s.delivered + [Delivery(s.tasks[hash], Cancelled)])
      else s'
    case EndCancel =>
      s.(busy := Free, multi := s.multi - {s.tasks[s.busy.hash]}, tasks := s.tasks - {s.busy.hash})
    case BeginDone(handle) =>
      var hash := s.hashOf[handle];
      if hash in s.tasks then
        s.(busy := Finishing(handle, hash),
           delivered := s.delivered + [Delivery(s.tasks[hash], Finished(handle))])
      else s.(crashed := true)
    case EndDone =>
      s.(busy := Free, multi := s.multi - {s.busy.handle}, tasks := s.tasks - {s.busy.hash})
    case Destroy => s.(destroyed := true, multi := s.multi - s.tasks.Values, tasks := map[])
  }

  /** A run: one state more than events. */
  ghost predicate Run(states: seq<Client>, events: seq<Event>) {
    && |states| == |events| + 1
    && states[0] == INITIAL
    && forall i :: 0 <= i < |events| ==> StepAt(states, events, i)
  }

  ghost predicate StepAt(states: seq<Client>, events: seq<Event>, i: nat)
    requires i < |events| && |states| == |events| + 1
  {
    Enabled(states[i], events[i]) && states[i + 1] == Apply(states[i], events[i])
  }

  // ---------- what holds in every run ----------

  /** The hash that the request thread is about to erase. */
  predicate Erasing(s: Client, hash: Hash) { s.busy != Free && s.busy.hash == hash }

  ghost predicate Inv(s: Client) {
    && (forall h :: h in s.tasks ==> s.tasks[h] in s.hashOf && s.hashOf[s.tasks[h]] == h)
    && (forall d :: d in s.delivered ==> d.task in s.hashOf)
    && (forall t :: t in s.multi ==> t in s.hashOf)
    && (s.busy != Free ==> s.busy.hash in s.tasks)
    && (forall h, d :: h in s.tasks && d in s.delivered && s.tasks[h] == d.task ==> Erasing(s, h))
    && (forall i, j :: 0 <= i < j < |s.delivered| ==> s.delivered[i].task != s.delivered[j].task)
  }

  lemma MakeInv(s: Client, task: TaskId, hash: Hash)
    requires Inv(s) && Enabled(s, Make(task, hash))
    ensures Inv(Apply(s, Make(task, hash)))
  {
  }

  /** A completion delivered to the task stored under `hash`, which is then about to be erased. */
  lemma DeliverInv(s: Client, hash: Hash, cause: Cause, busy: Busy)
    requires Inv(s) && s.busy == Free && hash in s.tasks && busy != Free && busy.hash == hash
    ensures Inv(s.(busy := busy, delivered := s.delivered + [Delivery(s.tasks[hash], cause)]))
  {
  }

  lemma EraseInv(s: Client, multi: set<TaskId>)
    requires Inv(s) && s.busy != Free && multi <= s.multi
    ensures Inv(s.(busy := Free, multi := multi, tasks := s.tasks - {s.busy.hash}))
  {
  }

  /** Only posted actions and handles of known tasks have changed. */
  lemma HandlesInv(s: Client, actions: multiset<Action>, multi: set<TaskId>)
    requires Inv(s) && forall t :: t in multi ==> t in s.hashOf
    ensures Inv(s.(actions := actions, multi := multi))
  {
  }

  lemma BeginCancelInv(s: Client, hash: Hash)
    requires Inv(s) && Enabled(s, BeginCancel(hash))
    ensures Inv(Apply(s, BeginCancel(hash)))
  {
    HandlesInv(s, s.actions - multiset{CancelAction(hash)}, s.multi);
    if hash in s.tasks {
      DeliverInv(s.(actions := s.actions - multiset{CancelAction(hash)}), hash, Cancelled, Cancelling(hash));
    }
  }

  lemma BeginDoneInv(s: Client, handle: TaskId)
    requires Inv(s) && Enabled(s, BeginDone(handle))
    ensures Inv(Apply(s, BeginDone(handle)))
  {
    var hash := s.hashOf[handle];
    if hash in s.tasks {
      DeliverInv(s, hash, Finished(handle), Finishing(handle, hash));
    }
  }

  lemma DestroyInv(s: Client)
    requires Inv(s) && Enabled(s, Destroy)
    ensures Inv(Apply(s, Destroy))
  {
  }

  lemma InvStep(s: Client, e: Event)
    requires Inv(s) && Enabled(s, e)
    ensures Inv(Apply(s, e))
  {
    match e
    case Make(task, hash) => MakeInv(s, task, hash);
    case BeginCancel(hash) => BeginCancelInv(s, hash);
    case BeginDone(handle) => BeginDoneInv(s, handle);
    case EndCancel => EraseInv(s, Apply(s, e).multi);
    case EndDone => EraseInv(s, Apply(s, e).multi);
    case Destroy => DestroyInv(s);
    case _ => HandlesInv(s, Apply(s, e).actions, Apply(s, e).multi);
  }

  lemma {:induction false} RunInv(states: seq<Client>, events: seq<Event>, i: nat)
    requires Run(states, events) && i < |states|
    ensures Inv(states[i])
  {
    if i != 0 {
      RunInv(states, events, i - 1);
      assert StepAt(states, events, i - 1);
      InvStep(states[i - 1], events[i - 1]);
    }
  }

  /** In every run, whatever the hashes, the completion of a task is delivered at most once. */
  lemma DeliveredAtMostOnce(states: seq<Client>, events: seq<Event>, i: nat, p: nat, q: nat)
    requires Run(states, events) && i < |states| && p < q < |states[i].delivered|
    ensures states[i].delivered[p].task != states[i].delivered[q].task
  {
    RunInv(states, events, i);
  }

  // ---------- who owns a handle ----------

  /** Every handle in the multi belongs to a task stored under its own hash. */
  ghost predicate Owned(s: Client) {
    forall t :: t in s.multi ==> t in s.hashOf && s.hashOf[t] in s.tasks && s.tasks[s.hashOf[t]] == t
  }

  /** Making a task under `hash` drops no task whose handle is in the multi. */
  predicate Clean(s: Client, hash: Hash) { hash in s.tasks ==> s.tasks[hash] !in s.multi }

  predicate CleanEvent(s: Client, e: Event) { e.Make? ==> Clean(s, e.hash) }

  /** No null task, and every transfer reported to the task that owns its handle. */
  ghost predicate Faithful(s: Client) {
    && !s.crashed
    && (s.busy.Finishing? ==> s.busy.handle in s.hashOf && s.hashOf[s.busy.handle] == s.busy.hash)
    && (s.busy.Finishing? ==> s.busy.handle in s.multi)
    && forall d :: d in s.delivered && d.cause.Finished? ==> d.cause.handle == d.task
  }

  lemma OwnedStep(s: Client, e: Event)
    requires Inv(s) && Owned(s) && Faithful(s) && Enabled(s, e) && CleanEvent(s, e)
    ensures Owned(Apply(s, e)) && Faithful(Apply(s, e))
  {
  }

  lemma UncleanMakeLosesOwner(s: Client, task: TaskId, hash: Hash)
    requires Inv(s) && Enabled(s, Make(task, hash)) && !Clean(s, hash)
    ensures !Owned(Apply(s, Make(task, hash)))
  {
    var dropped := s.tasks[hash];
    assert dropped in Apply(s, Make(task, hash)).multi;
  }

  lemma {:induction false} CleanRunsAreOwned(states: seq<Client>, events: seq<Event>, i: nat)
    requires Run(states, events) && i < |states|
    requires forall k :: 0 <= k < i ==> CleanEvent(states[k], events[k])
    ensures Owned(states[i]) && Faithful(states[i])
  {
    if i != 0 {
      CleanRunsAreOwned(states, events, i - 1);
      RunInv(states, events, i - 1);
      assert StepAt(states, events, i - 1);
      OwnedStep(states[i - 1], events[i - 1]);
    }
  }

  /**
    Throughout a run every handle in the multi is owned, if and only if no task is ever made under the hash of
    a task whose handle is in the multi.
   */
  lemma OwnedIffClean(states: seq<Client>, events: seq<Event>)
    requires Run(states, events)
    ensures (forall i :: 0 <= i < |states| ==> Owned(states[i])) <==>
            (forall k :: 0 <= k < |events| ==> CleanEvent(states[k], events[k]))
  {
    if forall k :: 0 <= k < |events| ==> CleanEvent(states[k], events[k]) {
      forall i | 0 <= i < |states|
        ensures Owned(states[i])
      {
        CleanRunsAreOwned(states, events, i);
      }
    } else {
      var k :| 0 <= k < |events| && !CleanEvent(states[k], events[k]);
      RunInv(states, events, k);
      assert StepAt(states, events, k);
      UncleanMakeLosesOwner(states[k], events[k].task, events[k].hash);
      assert !Owned(states[k + 1]);
    }
  }

  /**
    In a run whose hashes are new whenever a task is made, nothing crashes, a finished transfer is reported to
    the task it belongs to, and a task that has been completed is in neither the map nor the multi, except the one
    whose callback is running.
   */
  lemma FreshHashesSuffice(states: seq<Client>, events: seq<Event>, i: nat)
    requires Run(states, events) && i < |states|
    requires forall k :: 0 <= k < i && events[k].Make? ==> events[k].hash !in states[k].tasks
    ensures var s := states[i];
            && !s.crashed && Owned(s)
            && (forall d :: d in s.delivered && d.cause.Finished? ==> d.cause.handle == d.task)
            && (forall d :: d in s.delivered && (d.task in s.tasks.Values || d.task in s.multi) ==>
                  s.busy != Free && s.busy.hash in s.tasks && s.tasks[s.busy.hash] == d.task)
  {
    CleanRunsAreOwned(states, events, i);
    RunInv(states, events, i);
    var s := states[i];
    assert forall h :: h in s.tasks ==> s.hashOf[s.tasks[h]] == h;
  }

  // ---------- runs given by their events ----------

  /** A step, if it is possible. */
  function TryApply(s: Client, e: Event): Option<Client> { if Enabled(s, e) then Some(Apply(s, e)) else None }

  lemma Took(s: Client, es: seq<Event>, m: Client, e: Event)
    requires After(TryApply, s, es) == Some(m) && Enabled(m, e)
    ensures After(TryApply, s, es + [e]) == Some(Apply(m, e))
  {
    AfterStep(TryApply, s, es, m, e);
  }

  lemma TookPrefix(s: Client, es: seq<Event>, i: nat, m: Client)
    requires After(TryApply, s, es).Some? && i < |es| && After(TryApply, s, es[..i]) == Some(m)
    ensures Enabled(m, es[i]) && After(TryApply, s, es[..i + 1]) == Some(Apply(m, es[i]))
  {
    AfterNext(TryApply, s, es, i, m);
  }

  /** Whatever `After` reaches, a run reaches. */
  lemma AfterIsRun(es: seq<Event>) returns (states: seq<Client>)
    requires After(TryApply, INITIAL, es).Some?
    ensures Run(states, es) && states[|es|] == After(TryApply, INITIAL, es).value
  {
    states := AfterTrail(TryApply, INITIAL, es);
    forall i | 0 <= i < |es|
      ensures Enabled(states[i], es[i]) && states[i + 1] == Apply(states[i], es[i])
    {
      assert TryApply(states[i], es[i]) == Some(states[i + 1]);
    }
  }

  /**
    Two live requests with the same hash: the transfer of the first is reported to the second, and the transfer
    of the second then finds no task at all.
   */
  lemma CollidingHashesCrash(h: Hash) returns (states: seq<Client>, events: seq<Event>)
    ensures Run(states, events)
    ensures var s := states[|states| - 1];
            s.crashed && Delivery(2, Finished(1)) in s.delivered
  {
    var es := StartRequestRun(INITIAL, [], 1, h);
    var s1 := After(TryApply, INITIAL, es).value;
    es := StartRequestRun(s1, es, 2, h);
    var s2 := After(TryApply, INITIAL, es).value;
    assert s2.tasks[h] == 2 && s2.hashOf[1] == h && s2.hashOf[2] == h && 1 in s2.multi && 2 in s2.multi;
    Took(INITIAL, es, s2, BeginDone(1));
    var s3 := Apply(s2, BeginDone(1));
    Took(INITIAL, es + [BeginDone(1)], s3, EndDone);
    var s4 := Apply(s3, EndDone);
    assert Delivery(2, Finished(1)) in s4.delivered && h !in s4.tasks && 2 in s4.multi;
    Took(INITIAL, es + [BeginDone(1)] + [EndDone], s4, BeginDone(2));
    events := es + [BeginDone(1)] + [EndDone] + [BeginDone(2)];
    states := AfterIsRun(events);
  }

  /** `PerformRequest`, and the posted start run at once. */
  lemma StartRequestRun(s: Client, es: seq<Event>, task: TaskId, h: Hash) returns (es': seq<Event>)
    requires After(TryApply, INITIAL, es) == Some(s) && !s.crashed && !s.destroyed && s.busy == Free && task !in s.hashOf
    requires s.actions == multiset{}
    ensures es' == es + [Make(task, h)] + [Resume(task)] + [RunStart(h)]
    ensures After(TryApply, INITIAL, es') ==
            Some(s.(hashOf := s.hashOf[task := h], tasks := s.tasks[h := task], multi := s.multi + {task}))
  {
    var m1 := Apply(s, Make(task, h));
    Took(INITIAL, es, s, Make(task, h));
    var m2 := Apply(m1, Resume(task));
    Took(INITIAL, es + [Make(task, h)], m1, Resume(task));
    Took(INITIAL, es + [Make(task, h)] + [Resume(task)], m2, RunStart(h));
    assert m2.actions - multiset{StartAction(h)} == multiset{};
    es' := es + [Make(task, h)] + [Resume(task)] + [RunStart(h)];
  }

  // ---------- when a crash is possible ----------

  /** The state once the callback in progress, if any, has returned. */
  function Settled(s: Client): Client
    requires Inv(s)
  {
    match s.busy
    case Free => s
    case Finishing(handle, hash) => s.(busy := Free, multi := s.multi - {handle}, tasks := s.tasks - {hash})
    case Cancelling(hash) => s.(busy := Free, multi := s.multi - {s.tasks[hash]}, tasks := s.tasks - {hash})
  }

  /** No crash lies ahead. */
  ghost predicate Safe(s: Client) { Inv(s) && !s.crashed && Owned(Settled(s)) }

  lemma SafeStep(s: Client, e: Event)
    requires Safe(s) && Enabled(s, e) && CleanEvent(s, e)
    ensures Safe(Apply(s, e))
  {
    InvStep(s, e);
    match e
    case Make(task, hash) => SafeMake(s, task, hash);
    case BeginDone(handle) => SafeDone(s, handle);
    case BeginCancel(hash) => SafeCancel(s, hash);
    case _ =>
  }

  lemma SafeMake(s: Client, task: TaskId, hash: Hash)
    requires Safe(s) && Enabled(s, Make(task, hash)) && Clean(s, hash)
    ensures Safe(Apply(s, Make(task, hash)))
  {
    InvStep(s, Make(task, hash));
    var s', m, m' := Apply(s, Make(task, hash)), Settled(s), Settled(Apply(s, Make(task, hash)));
    forall t | t in m'.multi
      ensures t in m'.hashOf && m'.hashOf[t] in m'.tasks && m'.tasks[m'.hashOf[t]] == t
    {
      assert t in m.multi;
    }
  }

  lemma SafeDone(s: Client, handle: TaskId)
    requires Safe(s) && Enabled(s, BeginDone(handle))
    ensures Safe(Apply(s, BeginDone(handle)))
  {
    InvStep(s, BeginDone(handle));
    var m' := Settled(Apply(s, BeginDone(handle)));
    forall t | t in m'.multi
      ensures t in m'.hashOf && m'.hashOf[t] in m'.tasks && m'.tasks[m'.hashOf[t]] == t
    {
      assert t in s.multi && t != handle;
    }
  }

  lemma SafeCancel(s: Client, hash: Hash)
    requires Safe(s) && Enabled(s, BeginCancel(hash))
    ensures Safe(Apply(s, BeginCancel(hash)))
  {
    InvStep(s, BeginCancel(hash));
    var m' := Settled(Apply(s, BeginCancel(hash)));
    forall t | t in m'.multi
      ensures t in m'.hashOf && m'.hashOf[t] in m'.tasks && m'.tasks[m'.hashOf[t]] == t
    {
      assert t in s.multi;
    }
  }

  /** From `s`, the events lead to a crash, although each task made on the way is made cleanly. */
  ghost predicate Crashes(s: Client, es: seq<Event>) {
    && After(TryApply, s, es).Some? && After(TryApply, s, es).value.crashed
    && CleanAlong(s, es)
  }

  ghost predicate CleanAlong(s: Client, es: seq<Event>) {
    forall i :: 0 <= i < |es| && es[i].Make? ==>
      After(TryApply, s, es[..i]).Some? && Clean(After(TryApply, s, es[..i]).value, es[i].hash)
  }

  lemma {:induction false} SafeAfter(s: Client, es: seq<Event>)
    requires Safe(s) && After(TryApply, s, es).Some? && CleanAlong(s, es)
    ensures Safe(After(TryApply, s, es).value)
    decreases |es|
  {
    if es != [] {
      var n := |es| - 1;
      assert CleanAlong(s, es[..n]) by {
        forall i | 0 <= i < n && es[..n][i].Make?
          ensures After(TryApply, s, es[..n][..i]).Some? && Clean(After(TryApply, s, es[..n][..i]).value, es[..n][i].hash)
        {
          assert es[..n][..i] == es[..i];
        }
      }
      SafeAfter(s, es[..n]);
      SafeStep(After(TryApply, s, es[..n]).value, es[n]);
    }
  }

  /** The events that settle a state. */
  function Settling(s: Client): seq<Event> {
    match s.busy
    case Free => []
    case Finishing(_, _) => [EndDone]
    case Cancelling(_) => [EndCancel]
  }

  lemma SettlingSettles(s: Client)
    requires Inv(s) && !s.crashed && !s.destroyed
    ensures After(TryApply, s, Settling(s)) == Some(Settled(s)) && Inv(Settled(s))
  {
    match s.busy
    case Free =>
    case Finishing(_, _) =>
      AfterOne(TryApply, s, EndDone);
      InvStep(s, EndDone);
    case Cancelling(_) =>
      AfterOne(TryApply, s, EndCancel);
      InvStep(s, EndCancel);
  }

  /** A handle without its task: once whatever is stored under its hash is cancelled, its transfer finds nothing. */
  lemma UnownedCrashes(s: Client, es: seq<Event>, m: Client) returns (es': seq<Event>)
    requires After(TryApply, s, es) == Some(m) && Inv(m) && !m.crashed && !m.destroyed && m.busy == Free && !Owned(m)
    requires forall i :: 0 <= i < |es| ==> !es[i].Make?
    ensures After(TryApply, s, es').Some? && After(TryApply, s, es').value.crashed
    ensures forall i :: 0 <= i < |es'| ==> !es'[i].Make?
  {
    var t :| t in m.multi && !(t in m.hashOf && m.hashOf[t] in m.tasks && m.tasks[m.hashOf[t]] == t);
    var h := m.hashOf[t];
    if h !in m.tasks {
      Took(s, es, m, BeginDone(t));
      es' := es + [BeginDone(t)];
    } else {
      es' := CancelThenDone(s, es, m, t, h);
    }
  }

  lemma CancelThenDone(s: Client, es: seq<Event>, m: Client, t: TaskId, h: Hash) returns (es': seq<Event>)
    requires After(TryApply, s, es) == Some(m) && Inv(m) && !m.crashed && !m.destroyed && m.busy == Free
    requires t in m.multi && t in m.hashOf && m.hashOf[t] == h && h in m.tasks && m.tasks[h] != t
    requires forall i :: 0 <= i < |es| ==> !es[i].Make?
    ensures After(TryApply, s, es').Some? && After(TryApply, s, es').value.crashed
    ensures forall i :: 0 <= i < |es'| ==> !es'[i].Make?
  {
    var u := m.tasks[h];
    var m1 := Apply(m, Cancel(u));
    Took(s, es, m, Cancel(u));
    var m2 := Apply(m1, BeginCancel(h));
    Took(s, es + [Cancel(u)], m1, BeginCancel(h));
    var m3 := Apply(m2, EndCancel);
    Took(s, es + [Cancel(u)] + [BeginCancel(h)], m2, EndCancel);
    assert t in m3.multi && h !in m3.tasks && m3.hashOf[t] == h;
    Took(s, es + [Cancel(u)] + [BeginCancel(h)] + [EndCancel], m3, BeginDone(t));
    es' := es + [Cancel(u)] + [BeginCancel(h)] + [EndCancel] + [BeginDone(t)];
  }

  /**
    From any state, a crash without another unclean making is possible if and only if, once the callback in
    progress has returned, some handle in the multi is without its task.
   */
  lemma CrashIsPossibleIff(s: Client)
    requires Inv(s) && !s.crashed && !s.destroyed
    ensures (exists es :: Crashes(s, es)) <==> !Owned(Settled(s))
  {
    if Owned(Settled(s)) {
      forall es | Crashes(s, es)
        ensures false
      {
        SafeAfter(s, es);
      }
    } else {
      SettlingSettles(s);
      var es := UnownedCrashes(s, Settling(s), Settled(s));
      assert Crashes(s, es);
    }
  }

  // ---------- the client object ----------

  /** What a callback may do to the client. */
  predicate ClientCall(e: Event) { e.Make? || e.Resume? || e.Cancel? }

  class CurlClient {
    var hashOf: map<TaskId, Hash>
    var tasks: map<Hash, TaskId>
    var multi: set<TaskId>
    var actions: multiset<Action>
    var delivered: seq<Delivery>
    ghost var busy: Busy

    ghost function View(): Client
      reads this
    {
      Client(hashOf, tasks, multi, actions, busy, delivered, false, false)
    }

    constructor ()
      ensures View() == INITIAL
    {
      hashOf, tasks, multi, actions, delivered, busy := map[], map[], {}, multiset{}, [], Free;
    }

    method TaskWithRequest(task: TaskId, hash: Hash)
      requires Enabled(View(), Make(task, hash))
      modifies this
      ensures View() == Apply(old(View()), Make(task, hash))
    {
      hashOf := hashOf[task := hash];
      tasks := tasks[hash := task];
    }

    method RequestTaskStart(task: TaskId)
      requires Enabled(View(), Resume(task))
      modifies this
      ensures View() == Apply(old(View()), Resume(task))
    {
      actions := actions + multiset{StartAction(hashOf[task])};
    }

    method RequestTaskCancel(task: TaskId)
      requires Enabled(View(), Cancel(task))
      modifies this
      ensures View() == Apply(old(View()), Cancel(task))
    {
      actions := actions + multiset{CancelAction(hashOf[task])};
    }

    method StartRequest(hash: Hash)
      requires Enabled(View(), RunStart(hash))
      modifies this
      ensures View() == Apply(old(View()), RunStart(hash))
    {
      actions := actions - multiset{StartAction(hash)};
      if hash in tasks {
        multi := multi + {tasks[hash]};
      }
    }

    method Call(e: Event)
      requires ClientCall(e) && Enabled(View(), e)
      modifies this
      ensures View() == Apply(old(View()), e) && busy == old(busy)
    {
      if e.Make? {
        TaskWithRequest(e.task, e.hash);
      } else if e.Resume? {
        RequestTaskStart(e.task);
      } else {
        RequestTaskCancel(e.task);
      }
    }

    /** A completion callback, which makes the given calls on the client. */
    method Callback(script: seq<Event>)
      requires After(TryApply, View(), script).Some? && forall e :: e in script ==> ClientCall(e)
      modifies this
      ensures After(TryApply, old(View()), script) == Some(View()) && busy == old(busy)
    {
      for i := 0 to |script|
        invariant After(TryApply, old(View()), script[..i]) == Some(View()) && busy == old(busy)
      {
        TookPrefix(old(View()), script, i, View());
        Call(script[i]);
      }
      assert script[..|script|] == script;
    }

    method CancelRequest(hash: Hash, script: seq<Event>)
      requires Inv(View()) && Enabled(View(), BeginCancel(hash)) && forall e :: e in script ==> ClientCall(e)
      requires After(TryApply, Apply(View(), BeginCancel(hash)), script).Some?
      modifies this
      ensures hash !in old(tasks) ==> View() == Apply(old(View()), BeginCancel(hash))
      ensures hash in old(tasks) ==>
                After(TryApply, old(View()), [BeginCancel(hash)] + script + [EndCancel]) == Some(View())
    {
      ghost var s := View();
      actions := actions - multiset{CancelAction(hash)};
      if hash !in tasks {
        return;
      }
      delivered := delivered + [Delivery(tasks[hash], Cancelled)];
      busy := Cancelling(hash);
      BracketedCallback(s, BeginCancel(hash), script);
      Callback(script);
      Took(s, [BeginCancel(hash)] + script, View(), EndCancel);
      multi := multi - {tasks[hash]};
      tasks := tasks - {hash};
      busy := Free;
    }

    /** One CURLMSG_DONE of `HandleCurlMsg`; `ok` is false where the source would use a null task. */
    method HandleDone(handle: TaskId, script: seq<Event>) returns (ok: bool)
      requires Inv(View()) && Enabled(View(), BeginDone(handle)) && forall e :: e in script ==> ClientCall(e)
      requires After(TryApply, Apply(View(), BeginDone(handle)), script).Some?
      modifies this
      ensures ok <==> !Apply(old(View()), BeginDone(handle)).crashed
      ensures !ok ==> View() == old(View())
      ensures ok ==> After(TryApply, old(View()), [BeginDone(handle)] + script + [EndDone]) == Some(View())
    {
      ghost var s := View();
      var hash := hashOf[handle];
      if hash !in tasks {
        return false;
      }
      delivered := delivered + [Delivery(tasks[hash], Finished(handle))];
      busy := Finishing(handle, hash);
      BracketedCallback(s, BeginDone(handle), script);
      Callback(script);
      Took(s, [BeginDone(handle)] + script, View(), EndDone);
      multi := multi - {handle};
      tasks := tasks - {hash};
      busy := Free;
      ok := true;
    }
  }

  /** A callback after a Begin event continues its run, and keeps the invariant. */
  lemma BracketedCallback(s: Client, e: Event, script: seq<Event>)
    requires Inv(s) && Enabled(s, e) && After(TryApply, Apply(s, e), script).Some?
    ensures After(TryApply, s, [e] + script) == After(TryApply, Apply(s, e), script)
    ensures Inv(After(TryApply, Apply(s, e), script).value)
  {
    InvStep(s, e);
    AfterOne(TryApply, s, e);
    AfterConcat(TryApply, s, [e], Apply(s, e), script);
    AfterInv(Apply(s, e), script);
  }

  lemma {:induction false} AfterInv(s: Client, es: seq<Event>)
    requires Inv(s) && After(TryApply, s, es).Some?
    ensures Inv(After(TryApply, s, es).value)
    decreases |es|
  {
    if es != [] {
      AfterInv(s, es[..|es| - 1]);
      InvStep(After(TryApply, s, es[..|es| - 1]).value, es[|es| - 1]);
    }
  }
}
