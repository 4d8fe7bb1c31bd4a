/** The stop-admission guarantee of core/event_bus.go. */
module EventBusTheorems {
  import opened EventBusModel
  import opened EventBusSafety

  ghost predicate QueuesStop(q: seq<Dispatch>) { exists i :: 0 <= i < |q| && q[i].terminal }

  /** A runner that will let its lane close. */
  predicate EndsLane(phase: Phase) { phase.Marking? || (phase.Running? && phase.dispatch.terminal) }

  ghost predicate RunsStop(runners: map<RunnerId, Phase>, k: Key) {
    exists id :: id in runners && id.key == k && EndsLane(runners[id])
  }

  /** Some terminal dispatch of this lane has not been fully processed. */
  ghost predicate TerminalPending(b: Bus, k: Key) { QueuesStop(QueueOf(b.lanes, k)) || RunsStop(b.runners, k) }

  predicate NeedsStop(reg: Registry, base: Base, k: Key) {
    k.base == base && Count(reg.Stops(base), k.consumer) > 0
  }

  /** The lane waits for its stop: it cannot close, and has room for every stop hook. */
  ghost predicate HeldLane(reg: Registry, b: Bus, base: Base, k: Key) {
    && k in b.lanes && !b.lanes[k].closeWhenEmpty && !TerminalPending(b, k)
    && |b.lanes[k].queue| + Count(reg.Stops(base), k.consumer) <= MAX_QUEUE
  }

  ghost predicate Held(reg: Registry, b: Bus, base: Base) {
    forall k :: NeedsStop(reg, base, k) ==> HeldLane(reg, b, base, k)
  }

  /** A stop of the session, or a start of it under other hooks. */
  predicate Disturbs(step: Step, reg: Registry, base: Base) {
    (step.StopStep? && step.base == base) || (step.StartStep? && step.base == base && step.reg != reg)
  }

  /** The session waits for its stop with hooks unchanged; everybody else does anything. */
  predicate Continues(steps: seq<Step>, reg: Registry, base: Base) {
    forall i :: 0 <= i < |steps| ==> !Disturbs(steps[i], reg, base)
  }

  // ------------------------------------------------------------------
  // A start reserves, and nothing but a stop releases
  // ------------------------------------------------------------------

  lemma StopsInJoin(q: seq<Dispatch>, share: seq<Dispatch>)
    requires forall d :: d in share ==> !d.terminal
    ensures QueuesStop(q + share) <==> QueuesStop(q)
  {
    var joined: seq<Dispatch> := q + share;
    if QueuesStop(q) {
      var i :| 0 <= i < |q| && q[i].terminal;
      assert joined[i].terminal;
    }
    forall i | |q| <= i < |joined| ensures !joined[i].terminal {
      assert joined[i] == share[i - |q|];
    }
  }

  /** Newly started runners carry no dispatch yet. */
  lemma SpawnedStops(b: Bus, e: Emission, k: Key)
    requires RunnersLive(b)
    ensures RunsStop(Spawned(b, e), k) <==> RunsStop(b.runners, k)
  {
    var r := Spawned(b, e);
    if RunsStop(b.runners, k) {
      var id :| id in b.runners && id.key == k && EndsLane(b.runners[id]);
      assert id in r && r[id] == b.runners[id];
    }
  }

  /** What an admitted start does to the lane of one of its stop hooks. */
  lemma StartedLane(reg: Registry, b: Bus, base: Base, k: Key)
    requires RunnersLive(b) && Admits(b.lanes, StartOf(reg, base)) && NeedsStop(reg, base, k)
    ensures var s := Emit(b, StartOf(reg, base));
            && k in s.lanes && !s.lanes[k].closeWhenEmpty
            && |s.lanes[k].queue| + Count(reg.Stops(base), k.consumer) <= MAX_QUEUE
            && (k in b.lanes && b.lanes[k].running ==> s.lanes[k].running)
            && (TerminalPending(s, k) <==> TerminalPending(b, k))
  {
    var e := StartOf(reg, base);
    assert e.Touches(k);
    assert k in e.Keys() && HasRoom(b.lanes, e, k);
    EmittedLane(b, e, k);
    EmittedRunners(b, e);
    SpawnedStops(b, e, k);
    ShareCounts(e, |e.hooks|, k.consumer);
    assert e.hooks[..|e.hooks|] == e.hooks;
    StopsInJoin(QueueOf(b.lanes, k), Share(e, |e.hooks|, k.consumer));
  }

  /** An admitted start, first or repeated, leaves its stop lanes held. */
  lemma StartHoldsLane(reg: Registry, b: Bus, base: Base, k: Key)
    requires RunnersLive(b) && Admits(b.lanes, StartOf(reg, base)) && NeedsStop(reg, base, k) && !TerminalPending(b, k)
    ensures HeldLane(reg, Emit(b, StartOf(reg, base)), base, k)
  {
    StartedLane(reg, b, base, k);
  }

  /** Emissions of other sessions leave a lane and its runner alone. */
  lemma OtherEmission(b: Bus, e: Emission, k: Key)
    requires RunnersLive(b) && k in b.lanes && k.base != e.base
    ensures k in Emit(b, e).lanes && Emit(b, e).lanes[k] == b.lanes[k]
    ensures TerminalPending(Emit(b, e), k) <==> TerminalPending(b, k)
  {
    if Admits(b.lanes, e) {
      UntouchedLane(b, e, k);
      EmittedRunners(b, e);
      SpawnedStops(b, e, k);
    }
  }

  lemma StopsInTail(q: seq<Dispatch>)
    requires q != [] && !QueuesStop(q)
    ensures !q[0].terminal && !QueuesStop(q[1..])
  {
    forall i | 0 <= i < |q[1..]| ensures !q[1..][i].terminal {
      assert q[1..][i] == q[i + 1];
    }
  }

  /** Runners after one of them moved to a phase that does not end its lane. */
  lemma StopsAfterMove(runners: map<RunnerId, Phase>, moved: map<RunnerId, Phase>, k: Key)
    requires !RunsStop(runners, k)
    requires forall id :: id in moved && id.key == k ==> (id in runners && moved[id] == runners[id]) || !EndsLane(moved[id])
    ensures !RunsStop(moved, k)
  {
  }

  lemma TopKeepsHeld(reg: Registry, b: Bus, base: Base, k: Key, id: RunnerId)
    requires RunnersUnique(b) && HeldLane(reg, b, base, k)
    ensures HeldLane(reg, RunnerTop(b, id), base, k)
  {
    var q, r := b.lanes[k].queue, RunnerTop(b, id);
    if q != [] {
      StopsInTail(q);
    }
    StopsAfterMove(b.runners, r.runners, k);
  }

  lemma DoneKeepsHeld(reg: Registry, b: Bus, base: Base, k: Key, id: RunnerId)
    requires HeldLane(reg, b, base, k)
    ensures HeldLane(reg, RunnerDone(b, id), base, k)
  {
    if id in b.runners && id.key == k {
      assert !EndsLane(b.runners[id]);
    }
    StopsAfterMove(b.runners, RunnerDone(b, id).runners, k);
  }

  lemma MarkKeepsHeld(reg: Registry, b: Bus, base: Base, k: Key, id: RunnerId)
    requires HeldLane(reg, b, base, k)
    ensures HeldLane(reg, RunnerMark(b, id), base, k)
  {
    if id in b.runners && id.key == k {
      assert !EndsLane(b.runners[id]);
    }
    StopsAfterMove(b.runners, RunnerMark(b, id).runners, k);
  }

  lemma StepKeepsHeld(reg: Registry, b: Bus, base: Base, k: Key, step: Step)
    requires Inv(b) && NeedsStop(reg, base, k) && HeldLane(reg, b, base, k) && !Disturbs(step, reg, base)
    ensures HeldLane(reg, Apply(b, step), base, k)
  {
    match step
    case StartStep(now, other) => StartKeepsHeld(reg, b, base, k, now, other);
    case StopStep(now, other) => StopKeepsHeld(reg, b, base, k, now, other);
    case TopStep(id) => TopKeepsHeld(reg, b, base, k, id);
    case DoneStep(id) => DoneKeepsHeld(reg, b, base, k, id);
    case MarkStep(id) => MarkKeepsHeld(reg, b, base, k, id);
    case LooseEmitStep(n) => LooseKeepsHeld(reg, b, LooseEmit(b, n), base, k);
    case LooseDoneStep => LooseKeepsHeld(reg, b, LooseDone(b), base, k);
  }

  lemma StartKeepsHeld(reg: Registry, b: Bus, base: Base, k: Key, now: Registry, other: Base)
    requires Inv(b) && NeedsStop(reg, base, k) && HeldLane(reg, b, base, k) && (other == base ==> now == reg)
    ensures HeldLane(reg, Apply(b, StartStep(now, other)), base, k)
  {
    if other == base {
      if Admits(b.lanes, StartOf(reg, base)) {
        StartHoldsLane(reg, b, base, k);
      }
    } else {
      OtherEmission(b, StartOf(now, other), k);
    }
  }

  lemma StopKeepsHeld(reg: Registry, b: Bus, base: Base, k: Key, now: Registry, other: Base)
    requires Inv(b) && NeedsStop(reg, base, k) && HeldLane(reg, b, base, k) && other != base
    ensures HeldLane(reg, Apply(b, StopStep(now, other)), base, k)
  {
    OtherEmission(b, StopOf(now, other), k);
  }

  lemma LooseKeepsHeld(reg: Registry, b: Bus, r: Bus, base: Base, k: Key)
    requires HeldLane(reg, b, base, k) && r.lanes == b.lanes && r.runners == b.runners
    ensures HeldLane(reg, r, base, k)
  {
  }

  lemma {:induction false} RunKeepsHeld(reg: Registry, b: Bus, base: Base, k: Key, steps: seq<Step>)
    requires Inv(b) && NeedsStop(reg, base, k) && HeldLane(reg, b, base, k) && Continues(steps, reg, base)
    ensures HeldLane(reg, Run(b, steps), base, k)
    decreases |steps|
  {
    if steps != [] {
      StepKeepsHeld(reg, b, base, k, steps[0]);
      ApplyInv(b, steps[0]);
      RunKeepsHeld(reg, Apply(b, steps[0]), base, k, steps[1..]);
    }
  }

  /** Held lanes admit their stop whatever load the other lanes carry. */
  lemma HeldAdmitsStop(reg: Registry, b: Bus, base: Base)
    requires Inv(b) && Held(reg, b, base)
    ensures Admits(b.lanes, StopOf(reg, base))
  {
    var e := StopOf(reg, base);
    forall k | k in e.Keys() ensures k in b.lanes && HasRoom(b.lanes, e, k) {
      assert NeedsStop(reg, base, k);
      assert HeldLane(reg, b, base, k);
      assert Count([], k.consumer) == 0;
    }
    assert e.Keys() - b.lanes.Keys == {};
  }

  lemma ReservationKept(reg: Registry, b: Bus, base: Base, k: Key, steps: seq<Step>)
    requires Inv(b) && Admits(b.lanes, StartOf(reg, base)) && NeedsStop(reg, base, k)
    requires !TerminalPending(b, k) && Continues(steps, reg, base)
    ensures HeldLane(reg, Run(Apply(b, StartStep(reg, base)), steps), base, k)
  {
    ApplyInv(b, StartStep(reg, base));
    StartHoldsLane(reg, b, base, k);
    RunKeepsHeld(reg, Apply(b, StartStep(reg, base)), base, k, steps);
  }

  /** Main result. After a start is admitted for a session none of whose terminal
      dispatches is still pending, the first stop is admitted, after any number of
      steps of any other sessions, runners and hooks, and of repeated starts. */
  lemma FirstStopIsAdmitted(reg: Registry, b: Bus, base: Base, steps: seq<Step>)
    requires Inv(b) && Admits(b.lanes, StartOf(reg, base))
    requires forall k :: NeedsStop(reg, base, k) ==> !TerminalPending(b, k)
    requires Continues(steps, reg, base)
    ensures Admits(Run(Apply(b, StartStep(reg, base)), steps).lanes, StopOf(reg, base))
  {
    var s := Apply(b, StartStep(reg, base));
    ApplyInv(b, StartStep(reg, base));
    var t := Run(s, steps);
    forall k | NeedsStop(reg, base, k) ensures HeldLane(reg, t, base, k) {
      ReservationKept(reg, b, base, k, steps);
    }
    EveryRunIsSafe(s, steps);
    HeldAdmitsStop(reg, t, base);
  }

  // ------------------------------------------------------------------
  // A client ID used for the first time
  // ------------------------------------------------------------------

  predicate Mentions(step: Step, base: Base) { (step.StartStep? || step.StopStep?) && step.base == base }

  predicate Unused(steps: seq<Step>, base: Base) { forall i :: 0 <= i < |steps| ==> !Mentions(steps[i], base) }

  predicate Absent(b: Bus, base: Base) { forall k :: k in b.lanes ==> k.base != base }

  lemma StepStaysAbsent(b: Bus, base: Base, step: Step)
    requires Absent(b, base) && !Mentions(step, base)
    ensures Absent(Apply(b, step), base)
  {
    if step.StartStep? && Admits(b.lanes, StartOf(step.reg, step.base)) {
      EmittedKeys(b, StartOf(step.reg, step.base));
    } else if step.StopStep? && Admits(b.lanes, StopOf(step.reg, step.base)) {
      EmittedKeys(b, StopOf(step.reg, step.base));
    }
  }

  lemma {:induction false} RunStaysAbsent(b: Bus, base: Base, steps: seq<Step>)
    requires Absent(b, base) && Unused(steps, base)
    ensures Absent(Run(b, steps), base)
    decreases |steps|
  {
    if steps != [] {
      StepStaysAbsent(b, base, steps[0]);
      RunStaysAbsent(Apply(b, steps[0]), base, steps[1..]);
    }
  }

  /**
   * From an idle bus: whatever went on without this client ID, once its start is admitted its
   * first stop is admitted too, with its hooks unchanged and any load on other lanes.
   */
  lemma FirstUseIsAdmitted(reg: Registry, idle: Bus, base: Base, before: seq<Step>, after: seq<Step>)
    requires Idle(idle) && Unused(before, base) && Continues(after, reg, base)
    requires Admits(Run(idle, before).lanes, StartOf(reg, base))
    ensures Admits(Run(Apply(Run(idle, before), StartStep(reg, base)), after).lanes, StopOf(reg, base))
  {
    IdleBusIsSafe(idle);
    EveryRunIsSafe(idle, before);
    RunStaysAbsent(idle, base, before);
    var b := Run(idle, before);
    forall k | NeedsStop(reg, base, k) ensures !TerminalPending(b, k) {
      AbsentIsQuiet(b, base, k);
    }
    FirstStopIsAdmitted(reg, b, base, after);
  }

  lemma AbsentIsQuiet(b: Bus, base: Base, k: Key)
    requires RunnersLive(b) && Absent(b, base) && k.base == base
    ensures !TerminalPending(b, k)
  {
    assert k !in b.lanes;
  }
}
