/**
  What has become of the requests of a client, from what has happened: every delivery, every stored task, every
  handle in the multi and every lost task has its reason in the events of the run, and the other way round.
 */
module CurlHistory {
  import opened Wrappers
  import opened CurlClient

  // ---------- deliveries ----------

  /** The step delivers `d`: a cancellation or a finished transfer, to the task stored under the hash. */
  predicate Delivers(s: Client, e: Event, d: Delivery) {
    match e
    case BeginCancel(h) => h in s.tasks && d == Delivery(s.tasks[h], Cancelled)
    case BeginDone(handle) =>
      handle in s.hashOf && s.hashOf[handle] in s.tasks && d == Delivery(s.tasks[s.hashOf[handle]], Finished(handle))
    case _ => false
  }

  predicate DeliversAt(states: seq<Client>, events: seq<Event>, k: nat, d: Delivery)
    requires k < |events| && k < |states|
  {
    Delivers(states[k], events[k], d)
  }

  lemma DeliveryStep(s: Client, e: Event, d: Delivery)
    requires Enabled(s, e)
    ensures d in Apply(s, e).delivered <==> d in s.delivered || Delivers(s, e, d)
  {
  }

  lemma DeliveryStepAt(states: seq<Client>, events: seq<Event>, k: nat, d: Delivery)
    requires Run(states, events) && k < |events|
    ensures d in states[k + 1].delivered <==> d in states[k].delivered || DeliversAt(states, events, k, d)
  {
    assert StepAt(states, events, k);
    DeliveryStep(states[k], events[k], d);
  }

  /** In every run, exactly what some step has delivered is delivered. */
  lemma {:induction false} DeliveredIff(states: seq<Client>, events: seq<Event>, i: nat, d: Delivery)
    requires Run(states, events) && i < |states|
    ensures d in states[i].delivered <==> exists k :: 0 <= k < i && DeliversAt(states, events, k, d)
  {
    if i != 0 {
      DeliveredIff(states, events, i - 1, d);
      DeliveryStepAt(states, events, i - 1, d);
    }
  }

  /** `t` has had one callback, for this cause. */
  ghost predicate HasOne(s: Client, t: TaskId, cause: Cause) {
    exists p :: 0 <= p < |s.delivered| && s.delivered[p] == Delivery(t, cause) &&
                forall q :: 0 <= q < |s.delivered| && s.delivered[q].task == t ==> q == p
  }

  /**
    Whoever is stored under a hash when its cancellation runs has, from then on, had exactly one callback, which
    says so; and whoever is stored under the hash of a handle when its transfer is done, likewise.
   */
  lemma CallbackIsDelivered(states: seq<Client>, events: seq<Event>, k: nat, i: nat, d: Delivery)
    requires Run(states, events) && k < i < |states| && DeliversAt(states, events, k, d)
    ensures HasOne(states[i], d.task, d.cause)
  {
    DeliveredIff(states, events, i, d);
    var delivered := states[i].delivered;
    var p :| 0 <= p < |delivered| && delivered[p] == d;
    forall q | 0 <= q < |delivered| && delivered[q].task == d.task
      ensures q == p
    {
      if q < p {
        DeliveredAtMostOnce(states, events, i, q, p);
      } else if p < q {
        DeliveredAtMostOnce(states, events, i, p, q);
      }
    }
  }

  lemma CancellationIsDelivered(states: seq<Client>, events: seq<Event>, k: nat, i: nat, h: Hash)
    requires Run(states, events) && k < i < |states| && events[k] == BeginCancel(h) && h in states[k].tasks
    ensures HasOne(states[i], states[k].tasks[h], Cancelled)
  {
    CallbackIsDelivered(states, events, k, i, Delivery(states[k].tasks[h], Cancelled));
  }

  /** An owned handle is reported to its own task. */
  lemma CompletionIsDelivered(states: seq<Client>, events: seq<Event>, k: nat, i: nat, t: TaskId)
    requires Run(states, events) && k < i < |states| && events[k] == BeginDone(t) && Owned(states[k])
    ensures HasOne(states[i], t, Finished(t))
  {
    assert StepAt(states, events, k);
    CallbackIsDelivered(states, events, k, i, Delivery(t, Finished(t)));
  }

  // ---------- the multi ----------

  /** The step adds the handle of `t`: a start of its hash. */
  predicate Adds(s: Client, e: Event, t: TaskId) { e.RunStart? && e.hash in s.tasks && s.tasks[e.hash] == t }

  /** The step removes it: after its callback, or at the end of the client. */
  predicate Removes(s: Client, e: Event, t: TaskId) {
    match e
    case EndDone => s.busy.Finishing? && s.busy.handle == t
    case EndCancel => s.busy.Cancelling? && s.busy.hash in s.tasks && s.tasks[s.busy.hash] == t
    case Destroy => t in s.tasks.Values
    case _ => false
  }

  lemma MultiStep(s: Client, e: Event, t: TaskId)
    requires Enabled(s, e)
    ensures t in Apply(s, e).multi <==> Adds(s, e, t) || (t in s.multi && !Removes(s, e, t))
  {
  }

  ghost predicate AddedSince(states: seq<Client>, events: seq<Event>, k: nat, i: nat, t: TaskId)
    requires k < i <= |events| && i < |states|
  {
    Adds(states[k], events[k], t) && forall j :: k < j < i ==> !Removes(states[j], events[j], t)
  }

  /** In every run, a handle is in the multi exactly when some start has added it and nothing has removed it since. */
  lemma {:induction false} InMultiIff(states: seq<Client>, events: seq<Event>, i: nat, t: TaskId)
    requires Run(states, events) && i < |states|
    ensures t in states[i].multi <==> exists k :: 0 <= k < i && AddedSince(states, events, k, i, t)
  {
    if i != 0 {
      var n := i - 1;
      InMultiIff(states, events, n, t);
      assert StepAt(states, events, n);
      MultiStep(states[n], events[n], t);
      if Adds(states[n], events[n], t) {
        assert AddedSince(states, events, n, i, t);
      } else if t in states[n].multi && !Removes(states[n], events[n], t) {
        var k :| 0 <= k < n && AddedSince(states, events, k, n, t);
        assert AddedSince(states, events, k, i, t);
      } else {
        forall k | 0 <= k < i
          ensures !AddedSince(states, events, k, i, t)
        {
          if k < n && AddedSince(states, events, k, i, t) {
            assert AddedSince(states, events, k, n, t);
          }
        }
      }
    }
  }

  // ---------- the map ----------

  predicate Stored(s: Client, t: TaskId) { t in s.hashOf && s.hashOf[t] in s.tasks && s.tasks[s.hashOf[t]] == t }

  /** The step takes `t` out of the map: another is made under its hash, its hash is erased, or the client ends. */
  predicate Unstores(s: Client, e: Event, t: TaskId) {
    && t in s.hashOf
    && match e
       case Make(_, hash) => hash == s.hashOf[t]
       case EndCancel => Erasing(s, s.hashOf[t])
       case EndDone => Erasing(s, s.hashOf[t])
       case Destroy => true
       case _ => false
  }

  lemma StoredStep(s: Client, e: Event, t: TaskId)
    requires Inv(s) && Enabled(s, e)
    ensures Stored(Apply(s, e), t) <==> (e.Make? && e.task == t) || (Stored(s, t) && !Unstores(s, e, t))
  {
  }

  ghost predicate MadeSince(states: seq<Client>, events: seq<Event>, k: nat, i: nat, t: TaskId)
    requires k < i <= |events| && i < |states|
  {
    events[k].Make? && events[k].task == t && forall j :: k < j < i ==> !Unstores(states[j], events[j], t)
  }

  lemma StoredStepAt(states: seq<Client>, events: seq<Event>, k: nat, t: TaskId)
    requires Run(states, events) && k < |events|
    ensures Stored(states[k + 1], t) <==>
            (events[k].Make? && events[k].task == t) || (Stored(states[k], t) && !Unstores(states[k], events[k], t))
  {
    RunInv(states, events, k);
    assert StepAt(states, events, k);
    StoredStep(states[k], events[k], t);
  }

  /** In every run, a task is stored exactly when it has been made and nothing has taken it out of the map since. */
  lemma {:induction false} StoredIff(states: seq<Client>, events: seq<Event>, i: nat, t: TaskId)
    requires Run(states, events) && i < |states|
    ensures Stored(states[i], t) <==> exists k :: 0 <= k < i && MadeSince(states, events, k, i, t)
  {
    if i != 0 {
      var n := i - 1;
      StoredIff(states, events, n, t);
      StoredStepAt(states, events, n, t);
      if events[n].Make? && events[n].task == t {
        assert MadeSince(states, events, n, i, t);
      } else if Stored(states[n], t) && !Unstores(states[n], events[n], t) {
        var k :| 0 <= k < n && MadeSince(states, events, k, n, t);
        assert MadeSince(states, events, k, i, t);
      } else {
        forall k | 0 <= k < i
          ensures !MadeSince(states, events, k, i, t)
        {
          if k < n && MadeSince(states, events, k, i, t) {
            assert MadeSince(states, events, k, n, t);
          }
        }
      }
    }
  }

  // ---------- tasks that are lost ----------

  predicate Delivered(s: Client, t: TaskId) { exists i :: 0 <= i < |s.delivered| && s.delivered[i].task == t }

  /** Made, but neither stored nor delivered. */
  predicate Lost(s: Client, t: TaskId) { t in s.hashOf && !Stored(s, t) && !Delivered(s, t) }

  lemma DeliveredAppends(d: seq<Delivery>, x: Delivery, s: Client, s': Client, t: TaskId)
    requires s.delivered == d && s'.delivered == d + [x]
    ensures Delivered(s', t) <==> Delivered(s, t) || x.task == t
  {
    if Delivered(s, t) {
      var i :| 0 <= i < |d| && d[i].task == t;
      assert s'.delivered[i].task == t;
    }
    assert s'.delivered[|d|] == x;
  }

  /** A delivery goes to a stored task, and loses none. */
  lemma DeliveryLosesNone(s: Client, s': Client, hash: Hash, x: Delivery, t: TaskId)
    requires Inv(s) && hash in s.tasks && x.task == s.tasks[hash] && s'.delivered == s.delivered + [x]
    requires s'.hashOf == s.hashOf && s'.tasks == s.tasks
    ensures Lost(s', t) <==> Lost(s, t)
  {
    DeliveredAppends(s.delivered, x, s, s', t);
  }

  /** A step that delivers nothing. */
  lemma QuietLoss(s: Client, e: Event, s': Client, t: TaskId)
    requires Inv(s) && Enabled(s, e) && s' == Apply(s, e) && s'.delivered == s.delivered
    ensures Lost(s', t) <==> Lost(s, t) || (Stored(s, t) && !Delivered(s, t) && Unstores(s, e, t))
  {
    StoredStep(s, e, t);
    assert Delivered(s', t) == Delivered(s, t);
    assert e.Make? && e.task == t ==> Stored(s', t);
  }

  lemma LostStep(s: Client, e: Event, t: TaskId)
    requires Inv(s) && Enabled(s, e)
    ensures Lost(Apply(s, e), t) <==> Lost(s, t) || (Stored(s, t) && !Delivered(s, t) && Unstores(s, e, t))
  {
    var s' := Apply(s, e);
    if s'.delivered == s.delivered {
      QuietLoss(s, e, s', t);
    } else if e.BeginCancel? {
      DeliveryLosesNone(s, s', e.hash, Delivery(s.tasks[e.hash], Cancelled), t);
    } else {
      var hash := s.hashOf[e.handle];
      DeliveryLosesNone(s, s', hash, Delivery(s.tasks[hash], Finished(e.handle)), t);
    }
  }

  // ---------- callbacks ----------

  predicate Begins(s: Client, e: Event) {
    (e.BeginCancel? && e.hash in s.tasks) ||
    (e.BeginDone? && e.handle in s.hashOf && s.hashOf[e.handle] in s.tasks)
  }

  predicate Ends(e: Event) { e.EndCancel? || e.EndDone? }

  /** Between events `b` and `k` nothing begins or ends. */
  ghost predicate Uninterrupted(states: seq<Client>, events: seq<Event>, b: nat, k: nat)
    requires b < k <= |events| && k < |states|
  {
    Begins(states[b], events[b]) && forall i :: b < i < k ==> !Begins(states[i], events[i]) && !Ends(events[i])
  }

  lemma BusyStep(s: Client, e: Event)
    requires Enabled(s, e)
    ensures Begins(s, e) ==> s.busy == Free && Apply(s, e).busy != Free
    ensures Ends(e) ==> Apply(s, e).busy == Free
    ensures !Begins(s, e) && !Ends(e) ==> Apply(s, e).busy == s.busy
  {
  }

  /** A callback in progress has begun. */
  lemma {:induction false} BusySince(states: seq<Client>, events: seq<Event>, k: nat) returns (b: nat)
    requires Run(states, events) && k < |states| && states[k].busy != Free
    ensures b < k && Uninterrupted(states, events, b, k) && states[b + 1].busy == states[k].busy
  {
    var n := k - 1;
    assert StepAt(states, events, n);
    BusyStep(states[n], events[n]);
    if Begins(states[n], events[n]) {
      b := n;
    } else {
      b := BusySince(states, events, n);
    }
  }

  /** What is stored under a hash changes, during a callback, only when a task is made under it. */
  lemma {:induction false} StoredDuring(states: seq<Client>, events: seq<Event>, b: nat, k: nat, h: Hash, t: TaskId)
      returns (j: nat)
    requires Run(states, events) && b < k < |states| && Uninterrupted(states, events, b, k) && states[k].busy != Free
    requires h in states[k].tasks && states[k].tasks[h] == t
    requires !(h in states[b + 1].tasks && states[b + 1].tasks[h] == t)
    ensures b < j < k && events[j] == Make(t, h)
    decreases k
  {
    var n := k - 1;
    assert b < n;
    if events[n] == Make(t, h) {
      j := n;
    } else {
      assert StepAt(states, events, n);
      KeepsStored(states[n], events[n], h, t);
      j := StoredDuring(states, events, b, n, h, t);
    }
  }

  lemma KeepsStored(s: Client, e: Event, h: Hash, t: TaskId)
    requires Enabled(s, e) && !Begins(s, e) && !Ends(e) && e != Make(t, h) && Apply(s, e).busy != Free
    requires h in Apply(s, e).tasks && Apply(s, e).tasks[h] == t
    ensures h in s.tasks && s.tasks[h] == t && s.busy != Free
  {
  }

  /** Nothing is delivered between the beginning of a callback and its end. */
  lemma {:induction false} DeliveredDuring(states: seq<Client>, events: seq<Event>, b: nat, k: nat)
    requires Run(states, events) && b < k < |states| && Uninterrupted(states, events, b, k)
    ensures states[k].delivered == states[b + 1].delivered
    decreases k
  {
    if b + 1 < k {
      DeliveredDuring(states, events, b, k - 1);
      assert StepAt(states, events, k - 1);
    }
  }

  /** `t` is made, at event `j`, in the callback that begins at `b` and is in progress before event `k`. */
  ghost predicate MadeInCallback(states: seq<Client>, events: seq<Event>, b: nat, j: nat, k: nat, t: TaskId)
    requires k <= |events| && k < |states|
  {
    b < j < k && Uninterrupted(states, events, b, k) && events[j].Make? && events[j].task == t
  }

  lemma UnmadeIsUndelivered(states: seq<Client>, events: seq<Event>, j: nat, t: TaskId)
    requires Run(states, events) && j < |events| && events[j].Make? && events[j].task == t
    ensures !Delivered(states[j], t)
  {
    RunInv(states, events, j);
    assert StepAt(states, events, j);
    assert forall i :: 0 <= i < |states[j].delivered| ==> states[j].delivered[i] in states[j].delivered;
  }

  lemma BeginningDelivers(s: Client, e: Event)
    requires Inv(s) && Enabled(s, e) && Begins(s, e)
    ensures var s' := Apply(s, e);
            s'.busy != Free && s'.busy.hash in s'.tasks && Delivered(s', s'.tasks[s'.busy.hash])
  {
    var s' := Apply(s, e);
    assert s'.delivered[|s.delivered|].task == s'.tasks[s'.busy.hash];
  }

  /** Whoever was made in a callback has had none before it ends. */
  lemma MadeIsUndelivered(states: seq<Client>, events: seq<Event>, b: nat, j: nat, k: nat, t: TaskId)
    requires Run(states, events) && k < |states| && MadeInCallback(states, events, b, j, k, t)
    ensures !Delivered(states[k], t)
  {
    UnmadeIsUndelivered(states, events, j, t);
    DeliveredDuring(states, events, b, j);
    DeliveredDuring(states, events, b, k);
  }

  /** Who is stored under the hash that a callback erases has had the callback, or was made in it. */
  lemma CalledOrMade(states: seq<Client>, events: seq<Event>, k: nat, t: TaskId) returns (b: nat, j: nat)
    requires Run(states, events) && k < |events| && states[k].busy != Free
    requires states[k].busy.hash in states[k].tasks && states[k].tasks[states[k].busy.hash] == t && !Delivered(states[k], t)
    ensures MadeInCallback(states, events, b, j, k, t)
  {
    b := BusySince(states, events, k);
    RunInv(states, events, b);
    assert StepAt(states, events, b);
    BeginningDelivers(states[b], events[b]);
    DeliveredDuring(states, events, b, k);
    j := StoredDuring(states, events, b, k, states[k].busy.hash, t);
  }

  /**
    The step loses the task: another is made under its hash, or the client ends, before it has had its callback;
    or a callback ends in which it was made, under the hash of the callback's own task.
   */
  ghost predicate LosesAt(states: seq<Client>, events: seq<Event>, k: nat, t: TaskId)
    requires k < |events| && k < |states|
  {
    var s := states[k];
    && Stored(s, t)
    && match events[k]
       case Make(_, hash) => hash == s.hashOf[t] && !Delivered(s, t)
       case Destroy => !Delivered(s, t)
       case EndCancel => Erasing(s, s.hashOf[t]) && exists b, j :: MadeInCallback(states, events, b, j, k, t)
       case EndDone => Erasing(s, s.hashOf[t]) && exists b, j :: MadeInCallback(states, events, b, j, k, t)
       case _ => false
  }

  lemma LosesAtIff(states: seq<Client>, events: seq<Event>, k: nat, t: TaskId)
    requires Run(states, events) && k < |events|
    ensures LosesAt(states, events, k, t) <==>
            Stored(states[k], t) && !Delivered(states[k], t) && Unstores(states[k], events[k], t)
  {
    var s := states[k];
    if Ends(events[k]) && Stored(s, t) && Erasing(s, s.hashOf[t]) {
      if b, j :| MadeInCallback(states, events, b, j, k, t) {
        MadeIsUndelivered(states, events, b, j, k, t);
      }
      if !Delivered(s, t) {
        var b, j := CalledOrMade(states, events, k, t);
      }
    }
  }

  lemma LostStepAt(states: seq<Client>, events: seq<Event>, k: nat, t: TaskId)
    requires Run(states, events) && k < |events|
    ensures Lost(states[k + 1], t) <==> Lost(states[k], t) || LosesAt(states, events, k, t)
  {
    RunInv(states, events, k);
    assert StepAt(states, events, k);
    LostStep(states[k], events[k], t);
    LosesAtIff(states, events, k, t);
  }

  /**
    In every run a task is lost, never to be delivered, exactly when some step has lost it; all others that were
    made are stored or have been delivered.
   */
  lemma {:induction false} LostIff(states: seq<Client>, events: seq<Event>, i: nat, t: TaskId)
    requires Run(states, events) && i < |states|
    ensures Lost(states[i], t) <==> exists k :: 0 <= k < i && LosesAt(states, events, k, t)
  {
    if i != 0 {
      LostIff(states, events, i - 1, t);
      LostStepAt(states, events, i - 1, t);
    }
  }

  /** A task made in the callback of another with the same hash is lost, in a run in which every making is clean. */
  lemma LostInCallback(h: Hash) returns (states: seq<Client>, events: seq<Event>)
    ensures Run(states, events) && events == [Make(1, h), Cancel(1), BeginCancel(h), Make(2, h), EndCancel]
    ensures Lost(states[5], 2) && forall k :: 0 <= k < 5 ==> CleanEvent(states[k], events[k])
  {
    var s1, s2, s3 := CancelBegins(h);
    var s4, s5 := MadeAndErased(h, s3);
    events := [Make(1, h), Cancel(1), BeginCancel(h), Make(2, h), EndCancel];
    states := [INITIAL, s1, s2, s3, s4, s5];
    forall i | 0 <= i < 5
      ensures StepAt(states, events, i)
    {
    }
  }

  lemma CancelBegins(h: Hash) returns (s1: Client, s2: Client, s3: Client)
    ensures Enabled(INITIAL, Make(1, h)) && s1 == Apply(INITIAL, Make(1, h)) && CleanEvent(INITIAL, Make(1, h))
    ensures Enabled(s1, Cancel(1)) && s2 == Apply(s1, Cancel(1))
    ensures Enabled(s2, BeginCancel(h)) && s3 == Apply(s2, BeginCancel(h))
    ensures s3 == INITIAL.(hashOf := map[1 := h], tasks := map[h := 1], busy := Cancelling(h),
                           delivered := [Delivery(1, Cancelled)])
  {
    s1 := INITIAL.(hashOf := map[1 := h], tasks := map[h := 1]);
    s2 := s1.(actions := multiset{CancelAction(h)});
    s3 := s1.(busy := Cancelling(h), delivered := [Delivery(1, Cancelled)]);
  }

  lemma MadeAndErased(h: Hash, s3: Client) returns (s4: Client, s5: Client)
    requires s3 == INITIAL.(hashOf := map[1 := h], tasks := map[h := 1], busy := Cancelling(h),
                            delivered := [Delivery(1, Cancelled)])
    ensures Enabled(s3, Make(2, h)) && s4 == Apply(s3, Make(2, h)) && CleanEvent(s3, Make(2, h))
    ensures Enabled(s4, EndCancel) && s5 == Apply(s4, EndCancel) && Lost(s5, 2)
  {
    s4 := s3.(hashOf := map[1 := h, 2 := h], tasks := map[h := 2]);
    s5 := INITIAL.(hashOf := map[1 := h, 2 := h], delivered := [Delivery(1, Cancelled)]);
  }
}
