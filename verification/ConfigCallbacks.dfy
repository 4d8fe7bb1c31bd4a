/**
 * Coalescing of change callbacks (config/runtime/manager.go): the newest change set waits in
 * one slot, a channel of capacity one wakes the callback loop, and an older set still in the
 * slot is dropped and counted. Change sets are numbered in the order they are enqueued.
 */
module ConfigCallbacks {
  import opened Options
  import opened ConfigTree

  /**
   * `sending` is the enqueuer between its swap and its send; `draining` is the loop after it
   * took a token and until it finds the slot empty.
   */
  datatype State = State(
    slot: Option<nat>, token: bool, sending: bool, draining: bool, enqueued: nat, delivered: seq<nat>, dropped: nat)

  const IDLE := State(None, false, false, false, 0, [], 0)

  datatype Step = Swap | Send | Wake | Drain

  predicate Enabled(s: State, step: Step) {
    match step
    case Swap => !s.sending
    case Send => s.sending
    case Wake => !s.draining && s.token
    case Drain => s.draining
  }

  function Apply(s: State, step: Step): State
    requires Enabled(s, step)
  {
    match step
    case Swap =>
      s.(slot := Some(s.enqueued), enqueued := s.enqueued + 1, sending := true,
         dropped := s.dropped + if s.slot.Some? then 1 else 0)
    case Send => s.(token := true, sending := false)
    case Wake => s.(token := false, draining := true)
    case Drain =>
      if s.slot.None? then s.(draining := false)
      else s.(slot := None, delivered := s.delivered + [s.slot.value])
  }

  function Run(s: State, steps: seq<Step>): Option<State> {
    if steps == [] then Some(s)
    else
      var before := Run(s, steps[..|steps| - 1]);
      var last := steps[|steps| - 1];
      if before.None? || !Enabled(before.value, last) then None else Some(Apply(before.value, last))
  }

  ghost predicate Inv(s: State) {
    && (s.slot.Some? ==> (s.sending || s.token || s.draining) && s.slot.value + 1 == s.enqueued)
    && (s.slot.None? && s.enqueued > 0 ==> s.delivered != [] && s.delivered[|s.delivered| - 1] + 1 == s.enqueued)
    && s.enqueued == |s.delivered| + s.dropped + (if s.slot.Some? then 1 else 0)
    && (forall i :: 0 <= i < |s.delivered| ==> s.delivered[i] < s.enqueued)
    && (s.slot.Some? ==> forall i :: 0 <= i < |s.delivered| ==> s.delivered[i] < s.slot.value)
    && (forall i, j :: 0 <= i < j < |s.delivered| ==> s.delivered[i] < s.delivered[j])
  }

  lemma StepInv(s: State, step: Step)
    requires Inv(s) && Enabled(s, step)
    ensures Inv(Apply(s, step))
  {
    if step.Drain? && s.slot.Some? {
      var d := s.delivered + [s.slot.value];
      assert forall i :: 0 <= i < |s.delivered| ==> d[i] == s.delivered[i];
    }
  }

  lemma {:induction false} RunInv(s: State, steps: seq<Step>)
    requires Inv(s) && Run(s, steps).Some?
    ensures Inv(Run(s, steps).value)
  {
    if steps != [] {
      RunInv(s, steps[..|steps| - 1]);
      StepInv(Run(s, steps[..|steps| - 1]).value, steps[|steps| - 1]);
    }
  }

  /** Nobody has anything left to do except to enqueue another set. */
  predicate Quiet(s: State) { !Enabled(s, Send) && !Enabled(s, Wake) && !Enabled(s, Drain) }

  /**
   * In every run sets are delivered in order and at most once, every set is delivered, dropped
   * or waiting, and no wake-up is lost: when all is quiet the newest set has been delivered.
   */
  lemma NewestIsDelivered(steps: seq<Step>)
    requires Run(IDLE, steps).Some?
    ensures var s := Run(IDLE, steps).value;
            && (forall i, j :: 0 <= i < j < |s.delivered| ==> s.delivered[i] < s.delivered[j] < s.enqueued)
            && s.enqueued == |s.delivered| + s.dropped + (if s.slot.Some? then 1 else 0)
            && (Quiet(s) ==> s.slot.None?)
            && (Quiet(s) && s.enqueued > 0 ==>
                  s.delivered != [] && s.delivered[|s.delivered| - 1] + 1 == s.enqueued)
  {
    RunInv(IDLE, steps);
  }
}
