/** Runs of a deterministic machine, given by their events. */
module Runs {
  import opened Wrappers

  /** Where `events` lead from `s`; `step` gives None for an event that is not possible. */
  function After<S, E>(step: (S, E) -> Option<S>, s: S, events: seq<E>): Option<S> {
    if events == [] then Some(s)
    else
      var n := |events| - 1;
      match After(step, s, events[..n])
      case None => None
      case Some(m) => step(m, events[n])
  }

  lemma AfterStep<S, E>(step: (S, E) -> Option<S>, s: S, events: seq<E>, m: S, e: E)
    requires After(step, s, events) == Some(m)
    ensures After(step, s, events + [e]) == step(m, e)
  {
    assert (events + [e])[..|events|] == events;
  }

  lemma AfterOne<S, E>(step: (S, E) -> Option<S>, s: S, e: E)
    ensures After(step, s, [e]) == step(s, e)
  {
    AfterStep(step, s, [], s, e);
    assert [] + [e] == [e];
  }

  lemma {:induction false} AfterPrefix<S, E>(step: (S, E) -> Option<S>, s: S, events: seq<E>, i: nat)
    requires After(step, s, events).Some? && i < |events|
    ensures After(step, s, events[..i]).Some? && step(After(step, s, events[..i]).value, events[i]).Some?
    decreases |events|
  {
    var n := |events| - 1;
    if i < n {
      AfterPrefix(step, s, events[..n], i);
      assert events[..n][..i] == events[..i];
    }
  }

  lemma AfterNext<S, E>(step: (S, E) -> Option<S>, s: S, events: seq<E>, i: nat, m: S)
    requires After(step, s, events).Some? && i < |events| && After(step, s, events[..i]) == Some(m)
    ensures step(m, events[i]).Some? && After(step, s, events[..i + 1]) == step(m, events[i])
  {
    AfterPrefix(step, s, events, i);
    assert events[..i + 1] == events[..i] + [events[i]];
    AfterStep(step, s, events[..i], m, events[i]);
  }

  lemma {:induction false} AfterConcat<S, E>(step: (S, E) -> Option<S>, s: S, events: seq<E>, m: S, more: seq<E>)
    requires After(step, s, events) == Some(m)
    ensures After(step, s, events + more) == After(step, m, more)
    decreases |more|
  {
    if more == [] {
      assert events + more == events;
    } else {
      var n, all := |more| - 1, events + more;
      AfterConcat(step, s, events, m, more[..n]);
      assert all[..|all| - 1] == events + more[..n] && all[|all| - 1] == more[n];
    }
  }

  /** The states on the way. */
  ghost predicate Trail<S(!new), E>(step: (S, E) -> Option<S>, states: seq<S>, events: seq<E>) {
    && |states| == |events| + 1
    && forall i :: 0 <= i < |events| ==> step(states[i], events[i]) == Some(states[i + 1])
  }

  lemma {:induction false} AfterTrail<S(!new), E>(step: (S, E) -> Option<S>, s: S, events: seq<E>) returns (states: seq<S>)
    requires After(step, s, events).Some?
    ensures Trail(step, states, events) && states[0] == s && states[|events|] == After(step, s, events).value
  {
    if events == [] {
      states := [s];
    } else {
      var n := |events| - 1;
      var before := AfterTrail(step, s, events[..n]);
      states := before + [After(step, s, events).value];
      forall i | 0 <= i < |events|
        ensures step(states[i], events[i]) == Some(states[i + 1])
      {
        if i < n {
          assert events[..n][i] == events[i];
        }
      }
    }
  }
}
