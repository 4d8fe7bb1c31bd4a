/**
 * When the stop-admission guarantee of core/event_bus.go fails. A terminal dispatch that is still
 * pending when its session starts again lets the lane close, and other sessions, with the hooks
 * that are registered, can then take the last lane.
 */
module EventBusRefusals {
  import opened EventBusModel
  import opened EventBusSafety
  import opened EventBusTheorems

  // ------------------------------------------------------------------
  // Runs
  // ------------------------------------------------------------------

  predicate IsEmission(step: Step) { step.StartStep? || step.StopStep? }

  predicate NoEmission(steps: seq<Step>) { forall i :: 0 <= i < |steps| ==> !IsEmission(steps[i]) }

  /** Every emission sees these hooks and comes from a session that gets lanes. */
  predicate Uniform(steps: seq<Step>, reg: Registry) {
    forall i :: 0 <= i < |steps| && IsEmission(steps[i]) ==>
      steps[i].reg == reg && steps[i].base.streamKey != "" && steps[i].base.client != ""
  }

  /** Runners may work between emissions. */
  lemma UniformJoin(x: seq<Step>, y: seq<Step>, reg: Registry, base: Base)
    requires (Uniform(x, reg) && Unused(x, base)) || NoEmission(x)
    requires (Uniform(y, reg) && Unused(y, base)) || NoEmission(y)
    ensures Uniform(x + y, reg) && Unused(x + y, base)
  {
    forall i | 0 <= i < |x + y| && IsEmission((x + y)[i])
      ensures (x + y)[i].reg == reg && (x + y)[i].base != base
      ensures (x + y)[i].base.streamKey != "" && (x + y)[i].base.client != ""
    {
      if i < |x| {
        assert !Mentions(x[i], base);
      } else {
        assert (x + y)[i] == y[i - |x|] && !Mentions(y[i - |x|], base);
      }
    }
  }

  lemma QuietJoin(x: seq<Step>, y: seq<Step>)
    requires NoEmission(x) && NoEmission(y)
    ensures NoEmission(x + y)
  {
    forall i | 0 <= i < |x + y| ensures !IsEmission((x + y)[i]) {
      assert (x + y)[i] == if i < |x| then x[i] else y[i - |x|];
    }
  }

  lemma RunFirst(b: Bus, step: Step, rest: seq<Step>)
    ensures Run(b, [step] + rest) == Run(Apply(b, step), rest)
  {
    assert ([step] + rest)[1..] == rest;
  }

  lemma {:induction false} RunConcat(b: Bus, x: seq<Step>, y: seq<Step>)
    ensures Run(b, x + y) == Run(Run(b, x), y)
    decreases |x|
  {
    if x == [] {
      assert x + y == y;
    } else {
      assert (x + y)[1..] == x[1..] + y;
      RunConcat(Apply(b, x[0]), x[1..], y);
    }
  }

  // ------------------------------------------------------------------
  // Closing a lane
  // ------------------------------------------------------------------

  function PhaseRank(phase: Phase): nat {
    match phase case Running(_) => 2 case Marking => 1 case AtTop => 0
  }

  /** The next step of a runner. */
  function Next(b: Bus, id: RunnerId): Step
    requires id in b.runners
  {
    match b.runners[id] case Running(_) => DoneStep(id) case Marking => MarkStep(id) case AtTop => TopStep(id)
  }

  ghost predicate WillClose(b: Bus, id: RunnerId) {
    && RunnersLive(b) && RunnersUnique(b) && id in b.runners
    && (b.lanes[id.key].closeWhenEmpty || TerminalPending(b, id.key))
  }

  function Remaining(b: Bus, id: RunnerId): nat
    requires id in b.runners && id.key in b.lanes
  {
    3 * |b.lanes[id.key].queue| + PhaseRank(b.runners[id])
  }

  lemma OnlyRunner(b: Bus, id: RunnerId)
    requires RunnersUnique(b) && id in b.runners
    ensures RunsStop(b.runners, id.key) <==> EndsLane(b.runners[id])
  {
  }

  /** A dispatch is taken: what was pending in the queue now runs or still waits. */
  lemma TakeKeepsClosing(b: Bus, id: RunnerId)
    requires WillClose(b, id) && b.runners[id].AtTop? && b.lanes[id.key].queue != []
    ensures var r := RunnerTop(b, id);
            id in r.runners && id.key in r.lanes && (r.lanes[id.key].closeWhenEmpty || TerminalPending(r, id.key))
            && Remaining(r, id) < Remaining(b, id)
  {
    var k, r := id.key, RunnerTop(b, id);
    var q := b.lanes[k].queue;
    if !b.lanes[k].closeWhenEmpty {
      OnlyRunner(b, id);
      var i :| 0 <= i < |q| && q[i].terminal;
      if i > 0 {
        assert q[1..][i - 1].terminal;
      } else {
        assert EndsLane(r.runners[id]);
      }
    }
  }

  lemma LeaveCloses(b: Bus, id: RunnerId)
    requires WillClose(b, id) && b.runners[id].AtTop? && b.lanes[id.key].queue == []
    ensures id.key !in RunnerTop(b, id).lanes
  {
    OnlyRunner(b, id);
  }

  lemma FinishKeepsClosing(b: Bus, id: RunnerId)
    requires WillClose(b, id) && !b.runners[id].AtTop?
    ensures var r := if b.runners[id].Running? then RunnerDone(b, id) else RunnerMark(b, id);
            id in r.runners && id.key in r.lanes && (r.lanes[id.key].closeWhenEmpty || TerminalPending(r, id.key))
            && Remaining(r, id) < Remaining(b, id)
  {
    OnlyRunner(b, id);
    var r := if b.runners[id].Running? then RunnerDone(b, id) else RunnerMark(b, id);
    if b.runners[id].Running? && b.runners[id].dispatch.terminal {
      assert EndsLane(r.runners[id]);
    }
  }

  /** Unless it leaves, the runner gets closer to closing its lane. */
  lemma KeepsClosing(b: Bus, id: RunnerId)
    requires Inv(b) && WillClose(b, id) && !(b.runners[id].AtTop? && b.lanes[id.key].queue == [])
    ensures var r := Apply(b, Next(b, id));
            Inv(r) && WillClose(r, id) && Remaining(r, id) < Remaining(b, id)
  {
    ApplyInv(b, Next(b, id));
    if b.runners[id].AtTop? {
      TakeKeepsClosing(b, id);
    } else {
      FinishKeepsClosing(b, id);
    }
  }

  ghost predicate LanesAside(x: map<Key, Lane>, y: map<Key, Lane>, k: Key) {
    && (forall j :: j != k ==> (j in y <==> j in x))
    && (forall j :: j != k && j in x && j in y ==> y[j] == x[j])
  }

  ghost predicate RunnersAside(x: map<RunnerId, Phase>, y: map<RunnerId, Phase>, k: Key) {
    && (forall id :: id in y && id.key != k ==> id in x && x[id] == y[id])
    && (forall id :: id in x && id.key != k ==> id in y)
  }

  /** Nothing changed but this lane and its runner. */
  ghost predicate Aside(b: Bus, r: Bus, k: Key) {
    LanesAside(b.lanes, r.lanes, k) && RunnersAside(b.runners, r.runners, k)
  }

  lemma TopIsAside(b: Bus, id: RunnerId)
    ensures Aside(b, RunnerTop(b, id), id.key)
  {
    var r := RunnerTop(b, id);
    assert LanesAside(b.lanes, r.lanes, id.key);
    assert RunnersAside(b.runners, r.runners, id.key);
  }

  lemma RunnerStepsAside(b: Bus, id: RunnerId)
    requires id in b.runners
    ensures Aside(b, Apply(b, Next(b, id)), id.key)
  {
    if b.runners[id].AtTop? {
      TopIsAside(b, id);
    }
  }

  lemma AsideTwice(b: Bus, m: Bus, r: Bus, k: Key)
    requires Aside(b, m, k) && Aside(m, r, k)
    ensures Aside(b, r, k)
  {
  }

  /** Letting only its runner work, a lane that closes when empty, or will after a pending
      terminal dispatch, is deleted, and nothing else changes. */
  lemma {:induction false} DrainDeletes(b: Bus, id: RunnerId) returns (steps: seq<Step>)
    requires Inv(b) && WillClose(b, id)
    ensures id.key !in Run(b, steps).lanes && Aside(b, Run(b, steps), id.key) && NoEmission(steps)
    decreases Remaining(b, id)
  {
    var step := Next(b, id);
    var rest := [];
    RunnerStepsAside(b, id);
    if b.runners[id].AtTop? && b.lanes[id.key].queue == [] {
      LeaveCloses(b, id);
    } else {
      KeepsClosing(b, id);
      rest := DrainDeletes(Apply(b, step), id);
      AsideTwice(b, Apply(b, step), Run(Apply(b, step), rest), id.key);
    }
    RunFirst(b, step, rest);
    QuietJoin([step], rest);
    steps := [step] + rest;
  }

  /** The lane has a runner, which will close it once it has nothing left to do. */
  ghost predicate Closing(b: Bus, k: Key) {
    k in b.lanes && HasRunner(b, k) && (b.lanes[k].closeWhenEmpty || TerminalPending(b, k))
  }

  lemma ClosingAside(b: Bus, r: Bus, k: Key, j: Key)
    requires Aside(b, r, k) && j != k && Closing(b, j)
    ensures Closing(r, j)
  {
    var id :| id in b.runners && id.key == j;
    assert id in r.runners;
    if RunsStop(b.runners, j) {
      var x :| x in b.runners && x.key == j && EndsLane(b.runners[x]);
      assert x in r.runners && EndsLane(r.runners[x]);
    }
  }

  ghost predicate AllClosing(b: Bus, ks: set<Key>) { forall k :: k in ks ==> Closing(b, k) }

  lemma CloseOne(b: Bus, k: Key, ks: set<Key>) returns (steps: seq<Step>)
    requires Inv(b) && AllClosing(b, ks) && k in ks
    ensures NoEmission(steps) && Inv(Run(b, steps)) && Run(b, steps).lanes.Keys == b.lanes.Keys - {k}
    ensures AllClosing(Run(b, steps), ks - {k})
  {
    var id :| id in b.runners && id.key == k;
    steps := DrainDeletes(b, id);
    var r := Run(b, steps);
    EveryRunIsSafe(b, steps);
    OthersAreClosing(b, r, k, ks);
    KeysAside(b.lanes, r.lanes, k);
  }

  lemma OthersAreClosing(b: Bus, r: Bus, k: Key, ks: set<Key>)
    requires Aside(b, r, k) && AllClosing(b, ks)
    ensures AllClosing(r, ks - {k})
  {
    forall j | j in ks - {k} ensures Closing(r, j) {
      ClosingAside(b, r, k, j);
    }
  }

  lemma KeysAside(x: map<Key, Lane>, y: map<Key, Lane>, k: Key)
    requires LanesAside(x, y, k) && k !in y
    ensures y.Keys == x.Keys - {k}
  {
  }

  /** Any lanes that are closing can be closed, one after the other. */
  lemma {:induction false} CloseKeys(b: Bus, ks: set<Key>) returns (steps: seq<Step>)
    requires Inv(b) && AllClosing(b, ks)
    ensures NoEmission(steps) && Run(b, steps).lanes.Keys == b.lanes.Keys - ks
    decreases ks
  {
    if ks == {} {
      steps := [];
    } else {
      var k :| k in ks;
      var first := CloseOne(b, k, ks);
      var rest := CloseKeys(Run(b, first), ks - {k});
      RunConcat(b, first, rest);
      QuietJoin(first, rest);
      steps := first + rest;
      MinusTwice(b.lanes.Keys, ks, k);
    }
  }

  lemma CloseAll(b: Bus, ks: set<Key>) returns (steps: seq<Step>)
    requires Inv(b) && AllClosing(b, ks)
    ensures NoEmission(steps) && Inv(Run(b, steps))
    ensures Run(b, steps).lanes.Keys == b.lanes.Keys - ks && |Run(b, steps).lanes| == |b.lanes| - |ks|
  {
    steps := CloseKeys(b, ks);
    EveryRunIsSafe(b, steps);
    assert forall k :: k in ks ==> Closing(b, k);
    FewerKeys(b.lanes, Run(b, steps).lanes, ks);
  }

  lemma MinusTwice(all: set<Key>, ks: set<Key>, k: Key)
    requires k in ks
    ensures all - {k} - (ks - {k}) == all - ks
  {
  }

  lemma FewerKeys(x: map<Key, Lane>, y: map<Key, Lane>, ks: set<Key>)
    requires ks <= x.Keys && y.Keys == x.Keys - ks
    ensures |y| == |x| - |ks|
  {
    assert |x| == |x.Keys| && |y| == |y.Keys|;
  }

  // ------------------------------------------------------------------
  // A session nobody has seen before
  // ------------------------------------------------------------------

  /** A bound on the stream keys in use. */
  ghost function LongestName(keys: set<Key>): (n: nat)
    ensures forall k :: k in keys ==> |k.base.streamKey| <= n
  {
    if keys == {} then 0
    else
      var k :| k in keys;
      var n := LongestName(keys - {k});
      if n < |k.base.streamKey| then |k.base.streamKey| else n
  }

  ghost function LongName(n: nat): (s: string)
    ensures |s| == n
  {
    seq(n, _ => 'a')
  }

  /** A session of the same kind. */
  lemma FreshBase(b: Bus, base: Base) returns (other: Base)
    ensures other != base && Absent(b, other) && other.publish == base.publish
    ensures other.streamKey != "" && other.client != ""
  {
    var keys := b.lanes.Keys + {Key(base, "")};
    other := Base(LongName(LongestName(keys) + 1), "client", base.publish);
    assert Key(base, "") in keys;
    forall k | k in b.lanes ensures k.base != other {
      assert k in keys;
    }
  }

  /** The lanes a session's start touches. */
  ghost function SessionKeys(reg: Registry, base: Base): set<Key> { StartOf(reg, base).Keys() }

  lemma {:induction false} SameSize(xs: set<Key>, ys: set<Key>, x: Base, y: Base)
    requires (forall k :: k in xs ==> k.base == x) && (forall k :: k in ys ==> k.base == y)
    requires forall c :: Key(x, c) in xs <==> Key(y, c) in ys
    ensures |xs| == |ys|
  {
    if xs == {} {
      assert forall k :: k in ys ==> k == Key(y, k.consumer) && Key(x, k.consumer) in xs;
    } else {
      var k :| k in xs;
      var j := Key(y, k.consumer);
      assert k == Key(x, k.consumer) && j in ys;
      SameSize(xs - {k}, ys - {j}, x, y);
    }
  }

  lemma SessionsAreAlike(reg: Registry, x: Base, y: Base)
    requires x.publish == y.publish
    ensures |SessionKeys(reg, x)| == |SessionKeys(reg, y)|
  {
    SameSize(SessionKeys(reg, x), SessionKeys(reg, y), x, y);
  }

  /** The hooks of every consumer fit one queue. */
  ghost predicate FitsQueues(reg: Registry, base: Base) { forall c :: HooksOf(reg, base, c) <= MAX_QUEUE }

  /** The start and stop hooks of one consumer. */
  function HooksOf(reg: Registry, base: Base, c: string): nat { Count(reg.Starts(base), c) + Count(reg.Stops(base), c) }

  lemma AdmittedFitsQueues(lanes: map<Key, Lane>, reg: Registry, base: Base)
    requires Admits(lanes, StartOf(reg, base))
    ensures FitsQueues(reg, base)
  {
    forall c ensures HooksOf(reg, base, c) <= MAX_QUEUE {
      var e, k := StartOf(reg, base), Key(base, c);
      if e.Touches(k) {
        assert HasRoom(lanes, e, k);
      }
    }
  }

  lemma FreshRoom(lanes: map<Key, Lane>, reg: Registry, base: Base, other: Base)
    requires FitsQueues(reg, base) && other.publish == base.publish && (forall k :: k in lanes ==> k.base != other)
    requires |lanes| + |SessionKeys(reg, other)| <= MAX_LANES
    ensures Admits(lanes, StartOf(reg, other)) && SessionKeys(reg, other) !! lanes.Keys
  {
    var e := StartOf(reg, other);
    assert e.Keys() - lanes.Keys == e.Keys();
    forall k | k in e.Keys() ensures HasRoom(lanes, e, k) {
      assert HooksOf(reg, base, k.consumer) <= MAX_QUEUE;
    }
  }

  lemma FreshIsAdmitted(b: Bus, reg: Registry, base: Base, other: Base)
    requires FitsQueues(reg, base) && other.publish == base.publish && Absent(b, other)
    requires |b.lanes| + |SessionKeys(reg, base)| <= MAX_LANES
    ensures Admits(b.lanes, StartOf(reg, other)) && SessionKeys(reg, other) !! b.lanes.Keys
    ensures |SessionKeys(reg, other)| == |SessionKeys(reg, base)|
  {
    SessionsAreAlike(reg, base, other);
    FreshRoom(b.lanes, reg, base, other);
  }

  lemma FreshStart(b: Bus, reg: Registry, base: Base, other: Base)
    requires FitsQueues(reg, base) && other.publish == base.publish && Absent(b, other)
    requires |b.lanes| + |SessionKeys(reg, base)| <= MAX_LANES
    ensures Emit(b, StartOf(reg, other)).lanes.Keys == b.lanes.Keys + SessionKeys(reg, other)
    ensures |Emit(b, StartOf(reg, other)).lanes| == |b.lanes| + |SessionKeys(reg, base)|
  {
    FreshIsAdmitted(b, reg, base, other);
    EmittedKeys(b, StartOf(reg, other));
    MoreKeys(b.lanes, Emit(b, StartOf(reg, other)).lanes, SessionKeys(reg, other));
  }

  lemma MoreKeys(x: map<Key, Lane>, y: map<Key, Lane>, ks: set<Key>)
    requires y.Keys == x.Keys + ks && ks !! x.Keys
    ensures |y| == |x| + |ks|
  {
    assert |x| == |x.Keys| && |y| == |y.Keys|;
  }

  /** Every lane of a session that started and stopped is on its way out. */
  lemma StoppedIsClosing(b: Bus, reg: Registry, other: Base, k: Key)
    requires Inv(b) && Absent(b, other) && k in SessionKeys(reg, other)
    requires Admits(b.lanes, StartOf(reg, other))
    requires Admits(Emit(b, StartOf(reg, other)).lanes, StopOf(reg, other))
    ensures Closing(Emit(Emit(b, StartOf(reg, other)), StopOf(reg, other)), k)
  {
    var start, stop := StartOf(reg, other), StopOf(reg, other);
    var s := Emit(b, start);
    var t := Emit(s, stop);
    EmitInv(b, start);
    EmitInv(s, stop);
    EmittedLane(b, start, k);
    EmittedLane(s, stop, k);
    if NeedsStop(reg, other, k) {
      StopIsQueued(s, reg, other, k);
    } else {
      assert Count([], k.consumer) == 0;
      UntouchedLane(s, stop, k);
    }
    assert t.lanes[k].running;
  }

  lemma StopShare(e: Emission, k: Key)
    requires e.terminal && k.base == e.base && Count(e.hooks, k.consumer) > 0
    ensures ShareOf(e, |e.hooks|, k) != [] && forall d :: d in ShareOf(e, |e.hooks|, k) ==> d.terminal
  {
    ShareCounts(e, |e.hooks|, k.consumer);
    assert e.hooks[..|e.hooks|] == e.hooks;
  }

  lemma JoinedStop(q: seq<Dispatch>, share: seq<Dispatch>)
    requires share != [] && forall d :: d in share ==> d.terminal
    ensures QueuesStop(q + share)
  {
    assert share[0] in share && (q + share)[|q|] == share[0];
  }

  /** An admitted stop queues terminal dispatches. */
  lemma StopIsQueued(s: Bus, reg: Registry, base: Base, k: Key)
    requires Admits(s.lanes, StopOf(reg, base)) && NeedsStop(reg, base, k)
    ensures TerminalPending(Emit(s, StopOf(reg, base)), k)
  {
    var e := StopOf(reg, base);
    EmittedQueue(s, e, k);
    StopShare(e, k);
    JoinedStop(QueueOf(s.lanes, k), ShareOf(e, |e.hooks|, k));
  }

  // ------------------------------------------------------------------
  // Other sessions can take every lane
  // ------------------------------------------------------------------

  lemma StopsAreWithin(reg: Registry, other: Base)
    ensures StopOf(reg, other).Keys() <= SessionKeys(reg, other)
  {
    forall k | k in StopOf(reg, other).Keys() ensures k in SessionKeys(reg, other) {
      assert Count([], k.consumer) == 0;
    }
  }

  lemma StoppedKeys(s: Bus, reg: Registry, other: Base)
    requires Admits(s.lanes, StopOf(reg, other)) && SessionKeys(reg, other) <= s.lanes.Keys
    ensures Emit(s, StopOf(reg, other)).lanes.Keys == s.lanes.Keys
  {
    EmittedKeys(s, StopOf(reg, other));
    StopsAreWithin(reg, other);
  }

  /** The bus after a new session started and stopped. */
  ghost function Gone(b: Bus, reg: Registry, other: Base): Bus { Emit(Emit(b, StartOf(reg, other)), StopOf(reg, other)) }

  lemma GoneKeys(b: Bus, reg: Registry, base: Base, other: Base)
    requires Inv(b) && FitsQueues(reg, base) && other.publish == base.publish && Absent(b, other)
    requires |b.lanes| + |SessionKeys(reg, base)| <= MAX_LANES
    ensures Gone(b, reg, other).lanes.Keys == b.lanes.Keys + SessionKeys(reg, other)
    ensures |Gone(b, reg, other).lanes| == |b.lanes| + |SessionKeys(reg, base)|
  {
    FreshIsAdmitted(b, reg, base, other);
    FreshStart(b, reg, base, other);
    FreshStopIsAdmitted(b, reg, other);
    var s := Emit(b, StartOf(reg, other));
    StoppedKeys(s, reg, other);
    SameCount(s.lanes, Gone(b, reg, other).lanes);
  }

  lemma GoneIsClosing(b: Bus, reg: Registry, base: Base, other: Base, k: Key)
    requires Inv(b) && FitsQueues(reg, base) && other.publish == base.publish && Absent(b, other)
    requires |b.lanes| + |SessionKeys(reg, base)| <= MAX_LANES && k in SessionKeys(reg, other)
    ensures Closing(Gone(b, reg, other), k)
  {
    FreshIsAdmitted(b, reg, base, other);
    FreshStopIsAdmitted(b, reg, other);
    StoppedIsClosing(b, reg, other, k);
  }

  lemma GoneInv(b: Bus, reg: Registry, other: Base)
    requires Inv(b)
    ensures Inv(Gone(b, reg, other))
  {
    EmitInv(b, StartOf(reg, other));
    EmitInv(Emit(b, StartOf(reg, other)), StopOf(reg, other));
  }

  lemma SessionBase(reg: Registry, other: Base)
    ensures forall k :: k in SessionKeys(reg, other) ==> k.base == other
  {
  }

  lemma RunTwo(b: Bus, x: Step, y: Step)
    ensures Run(b, [x, y]) == Apply(Apply(b, x), y)
  {
    assert [x, y][1..] == [y] && [y][1..] == [];
    assert Run(Apply(b, x), [y]) == Run(Apply(Apply(b, x), y), []);
  }

  lemma TwoAreUniform(x: Step, y: Step, reg: Registry, base: Base)
    requires IsEmission(x) && IsEmission(y) && x.reg == y.reg == reg && x.base == y.base != base
    requires x.base.streamKey != "" && x.base.client != ""
    ensures Uniform([x, y], reg) && Unused([x, y], base)
  {
  }

  lemma GoneApplied(b: Bus, reg: Registry, other: Base)
    ensures Apply(Apply(b, StartStep(reg, other)), StopStep(reg, other)) == Gone(b, reg, other)
  {
  }

  lemma RunGone(b: Bus, reg: Registry, base: Base, other: Base) returns (steps: seq<Step>)
    requires other != base && other.streamKey != "" && other.client != ""
    ensures Run(b, steps) == Gone(b, reg, other) && Uniform(steps, reg) && Unused(steps, base)
  {
    var start, stop := StartStep(reg, other), StopStep(reg, other);
    steps := [start, stop];
    TwoAreUniform(start, stop, reg, base);
    GoneApplied(b, reg, other);
    RunTwo(b, start, stop);
  }

  /** A new session starts and stops. */
  lemma ComeAndGo(b: Bus, reg: Registry, base: Base) returns (steps: seq<Step>, keys: set<Key>)
    requires Inv(b) && FitsQueues(reg, base) && |b.lanes| + |SessionKeys(reg, base)| <= MAX_LANES
    ensures Uniform(steps, reg) && Unused(steps, base) && Inv(Run(b, steps))
    ensures Run(b, steps).lanes.Keys == b.lanes.Keys + keys
    ensures |Run(b, steps).lanes| == |b.lanes| + |keys| && |keys| == |SessionKeys(reg, base)|
    ensures AllClosing(Run(b, steps), keys) && forall k :: k in keys ==> k.base != base
  {
    var other := FreshBase(b, base);
    keys := SessionKeys(reg, other);
    SessionBase(reg, other);
    SessionsAreAlike(reg, base, other);
    steps := RunGone(b, reg, base, other);
    GoneInv(b, reg, other);
    GoneKeys(b, reg, base, other);
    forall k | k in keys ensures Closing(Gone(b, reg, other), k) {
      GoneIsClosing(b, reg, base, other, k);
    }
  }

  lemma CloseAllButOne(b: Bus, keys: set<Key>) returns (steps: seq<Step>)
    requires Inv(b) && |keys| > 0 && AllClosing(b, keys)
    ensures NoEmission(steps) && Inv(Run(b, steps)) && Run(b, steps).lanes.Keys <= b.lanes.Keys
    ensures |Run(b, steps).lanes| == |b.lanes| - |keys| + 1
  {
    var kept :| kept in keys;
    steps := CloseAll(b, keys - {kept});
  }

  /** All its lanes but one close: one lane more is in use. */
  lemma TakeOneLane(b: Bus, reg: Registry, base: Base) returns (steps: seq<Step>)
    requires Inv(b) && FitsQueues(reg, base) && |SessionKeys(reg, base)| > 0
    requires |b.lanes| + |SessionKeys(reg, base)| <= MAX_LANES
    ensures Uniform(steps, reg) && Unused(steps, base) && Inv(Run(b, steps))
    ensures |Run(b, steps).lanes| == |b.lanes| + 1
    ensures forall k: Key :: k.base == base && k !in b.lanes ==> k !in Run(b, steps).lanes
  {
    var go, keys := ComeAndGo(b, reg, base);
    var drain := CloseAllButOne(Run(b, go), keys);
    RunConcat(b, go, drain);
    UniformJoin(go, drain, reg, base);
    steps := go + drain;
  }

  lemma SameCount(x: map<Key, Lane>, y: map<Key, Lane>)
    requires x.Keys == y.Keys
    ensures |x| == |y|
  {
    assert |x| == |x.Keys| && |y| == |y.Keys|;
  }

  lemma FreshStopIsAdmitted(b: Bus, reg: Registry, other: Base)
    requires Inv(b) && Absent(b, other) && Admits(b.lanes, StartOf(reg, other))
    ensures Admits(Emit(b, StartOf(reg, other)).lanes, StopOf(reg, other))
  {
    forall k | NeedsStop(reg, other, k) ensures !TerminalPending(b, k) {
      AbsentIsQuiet(b, other, k);
    }
    FirstStopIsAdmitted(reg, b, other, []);
  }

  lemma Outside(xs: set<Key>, ys: set<Key>, keys: set<Key>, base: Base, other: Base)
    requires ys == xs + keys && other != base && forall k :: k in keys ==> k.base == other
    ensures forall k: Key :: k.base == base && k !in xs ==> k !in ys
  {
  }

  lemma RunOne(b: Bus, reg: Registry, base: Base, other: Base) returns (steps: seq<Step>)
    requires other != base && other.streamKey != "" && other.client != ""
    ensures Run(b, steps) == Emit(b, StartOf(reg, other)) && Uniform(steps, reg) && Unused(steps, base)
  {
    steps := [StartStep(reg, other)];
    assert steps[1..] == [] && Run(Apply(b, steps[0]), []) == Apply(b, steps[0]);
  }

  /** A session that is there to stay. */
  lemma TakeSession(b: Bus, reg: Registry, base: Base) returns (steps: seq<Step>)
    requires FitsQueues(reg, base) && |b.lanes| + |SessionKeys(reg, base)| <= MAX_LANES
    ensures Uniform(steps, reg) && Unused(steps, base)
    ensures |Run(b, steps).lanes| == |b.lanes| + |SessionKeys(reg, base)|
    ensures forall k: Key :: k.base == base && k !in b.lanes ==> k !in Run(b, steps).lanes
  {
    var other := FreshBase(b, base);
    steps := RunOne(b, reg, base, other);
    FreshStart(b, reg, base, other);
    SessionBase(reg, other);
    Outside(b.lanes.Keys, Run(b, steps).lanes.Keys, SessionKeys(reg, other), base, other);
  }

  /** New sessions of the same kind can fill all lanes exactly, whatever number of lanes each takes. */
  lemma {:induction false} FillLanes(b: Bus, reg: Registry, base: Base) returns (steps: seq<Step>)
    requires Inv(b) && FitsQueues(reg, base) && |SessionKeys(reg, base)| > 0
    requires |b.lanes| + |SessionKeys(reg, base)| <= MAX_LANES
    ensures Uniform(steps, reg) && Unused(steps, base) && |Run(b, steps).lanes| == MAX_LANES
    ensures forall k: Key :: k.base == base && k !in b.lanes ==> k !in Run(b, steps).lanes
    decreases MAX_LANES - |b.lanes|
  {
    if |b.lanes| + |SessionKeys(reg, base)| == MAX_LANES {
      steps := TakeSession(b, reg, base);
    } else {
      var first := TakeOneLane(b, reg, base);
      var rest := FillLanes(Run(b, first), reg, base);
      RunConcat(b, first, rest);
      UniformJoin(first, rest, reg, base);
      steps := first + rest;
    }
  }

  lemma FullRefusesNew(b: Bus, reg: Registry, base: Base, k: Key)
    requires |b.lanes| == MAX_LANES && k !in b.lanes && NeedsStop(reg, base, k)
    ensures !Admits(b.lanes, StopOf(reg, base))
  {
    var e := StopOf(reg, base);
    assert e.Touches(k);
    assert k in e.Keys() - b.lanes.Keys;
    assert |e.Keys() - b.lanes.Keys| > 0;
  }

  // ------------------------------------------------------------------
  // The exact condition
  // ------------------------------------------------------------------

  /** The stop lanes of the session that still have a terminal dispatch pending. */
  ghost function PendingLanes(reg: Registry, b: Bus, base: Base): set<Key> {
    set k | k in StopOf(reg, base).Keys() && TerminalPending(b, k)
  }

  lemma PendingAre(reg: Registry, b: Bus, base: Base, k: Key)
    ensures k in PendingLanes(reg, b, base) <==> NeedsStop(reg, base, k) && TerminalPending(b, k)
  {
    assert Count([], k.consumer) == 0;
  }

  /** Once the pending lanes of the session are closed, another session of its kind fits. */
  ghost predicate OtherFits(reg: Registry, b: Bus, base: Base) {
    var s := Apply(b, StartStep(reg, base));
    |s.lanes| - |PendingLanes(reg, b, base)| + |SessionKeys(reg, base)| <= MAX_LANES
  }

  /** It does when the whole session is pending, as it is with one lane to a session. */
  lemma WholeSessionFits(reg: Registry, b: Bus, base: Base)
    requires Inv(b) && |PendingLanes(reg, b, base)| >= |SessionKeys(reg, base)|
    ensures OtherFits(reg, b, base)
  {
    ApplyInv(b, StartStep(reg, base));
  }

  lemma PendingIsClosing(reg: Registry, b: Bus, base: Base, k: Key)
    requires Inv(b) && Admits(b.lanes, StartOf(reg, base)) && k in PendingLanes(reg, b, base)
    ensures Closing(Apply(b, StartStep(reg, base)), k)
  {
    ApplyInv(b, StartStep(reg, base));
    PendingAre(reg, b, base, k);
    PendingIsRunning(b, k);
    StartedLane(reg, b, base, k);
  }

  lemma PendingIsRunning(b: Bus, k: Key)
    requires LanesOk(b) && RunnersLive(b) && TerminalPending(b, k)
    ensures k in b.lanes && b.lanes[k].running
  {
    if RunsStop(b.runners, k) {
      var id :| id in b.runners && id.key == k && EndsLane(b.runners[id]);
      assert id.key in b.lanes;
    } else {
      assert LaneOk(b.lanes[k]);
    }
  }

  lemma UnusedContinues(steps: seq<Step>, reg: Registry, base: Base)
    requires Unused(steps, base)
    ensures Continues(steps, reg, base)
  {
    forall i | 0 <= i < |steps| ensures !Disturbs(steps[i], reg, base) {
      assert !Mentions(steps[i], base);
    }
  }

  lemma ClosePending(reg: Registry, b: Bus, base: Base) returns (steps: seq<Step>)
    requires Inv(b) && Admits(b.lanes, StartOf(reg, base))
    ensures var s := Apply(b, StartStep(reg, base));
            && NoEmission(steps) && Inv(Run(s, steps)) && Run(s, steps).lanes.Keys !! PendingLanes(reg, b, base)
            && |Run(s, steps).lanes| == |s.lanes| - |PendingLanes(reg, b, base)|
  {
    var s := Apply(b, StartStep(reg, base));
    ApplyInv(b, StartStep(reg, base));
    forall j | j in PendingLanes(reg, b, base) ensures Closing(s, j) {
      PendingIsClosing(reg, b, base, j);
    }
    steps := CloseAll(s, PendingLanes(reg, b, base));
  }

  lemma FillRefuses(b: Bus, reg: Registry, base: Base, k: Key) returns (steps: seq<Step>)
    requires Inv(b) && FitsQueues(reg, base) && |b.lanes| + |SessionKeys(reg, base)| <= MAX_LANES
    requires k !in b.lanes && NeedsStop(reg, base, k)
    ensures Uniform(steps, reg) && Unused(steps, base) && !Admits(Run(b, steps).lanes, StopOf(reg, base))
  {
    assert k in SessionKeys(reg, base);
    steps := FillLanes(b, reg, base);
    FullRefusesNew(Run(b, steps), reg, base, k);
  }

  /** With a terminal dispatch pending at the start, some continuation refuses the stop. */
  lemma StopCanBeRefused(reg: Registry, b: Bus, base: Base, k: Key) returns (steps: seq<Step>)
    requires Inv(b) && Admits(b.lanes, StartOf(reg, base)) && k in PendingLanes(reg, b, base) && OtherFits(reg, b, base)
    ensures Continues(steps, reg, base) && Uniform(steps, reg)
    ensures !Admits(Run(Apply(b, StartStep(reg, base)), steps).lanes, StopOf(reg, base))
  {
    PendingAre(reg, b, base, k);
    AdmittedFitsQueues(b.lanes, reg, base);
    var drain := ClosePending(reg, b, base);
    var s := Apply(b, StartStep(reg, base));
    var fill := FillRefuses(Run(s, drain), reg, base, k);
    RunConcat(s, drain, fill);
    UniformJoin(drain, fill, reg, base);
    steps := drain + fill;
    UnusedContinues(steps, reg, base);
  }

  /** All continuations with these hooks, in which the session waits for its stop, admit it. */
  ghost predicate StopIsSafe(reg: Registry, b: Bus, base: Base) {
    forall steps :: Continues(steps, reg, base) && Uniform(steps, reg) ==>
      Admits(Run(Apply(b, StartStep(reg, base)), steps).lanes, StopOf(reg, base))
  }

  /**
   * The exact condition: after an admitted start every continuation admits the first stop if
   * and only if no terminal dispatch was pending on any lane the stop needs.
   */
  lemma StopIsAdmittedIff(reg: Registry, b: Bus, base: Base)
    requires Inv(b) && Admits(b.lanes, StartOf(reg, base)) && OtherFits(reg, b, base)
    ensures StopIsSafe(reg, b, base) <==> forall k :: NeedsStop(reg, base, k) ==> !TerminalPending(b, k)
  {
    if k :| NeedsStop(reg, base, k) && TerminalPending(b, k) {
      PendingAre(reg, b, base, k);
      var steps := StopCanBeRefused(reg, b, base, k);
      assert Continues(steps, reg, base);
    } else {
      forall steps | Continues(steps, reg, base) && Uniform(steps, reg)
        ensures Admits(Run(Apply(b, StartStep(reg, base)), steps).lanes, StopOf(reg, base))
      {
        FirstStopIsAdmitted(reg, b, base, steps);
      }
    }
  }

  // ------------------------------------------------------------------
  // A restart that loses its stop
  // ------------------------------------------------------------------

  /** Two starts and two stops of one session fit its queues. */
  ghost predicate FitsTwice(reg: Registry, base: Base) { forall c :: 2 * HooksOf(reg, base, c) <= MAX_QUEUE }

  lemma QueueAfter(b: Bus, e: Emission, k: Key)
    requires Admits(b.lanes, e) && k.base == e.base
    ensures |QueueOf(Emit(b, e).lanes, k)| == |QueueOf(b.lanes, k)| + Count(e.hooks, k.consumer)
  {
    EmittedQueue(b, e, k);
    ShareCounts(e, |e.hooks|, k.consumer);
    assert e.hooks[..|e.hooks|] == e.hooks;
  }

  lemma RoomAgain(idle: Bus, reg: Registry, base: Base, k: Key)
    requires idle.lanes == map[] && FitsTwice(reg, base) && k.base == base && Admits(idle.lanes, StartOf(reg, base))
    requires Admits(Emit(idle, StartOf(reg, base)).lanes, StopOf(reg, base))
    ensures HasRoom(Gone(idle, reg, base).lanes, StartOf(reg, base), k)
  {
    QueueAfter(idle, StartOf(reg, base), k);
    QueueAfter(Emit(idle, StartOf(reg, base)), StopOf(reg, base), k);
    assert 2 * HooksOf(reg, base, k.consumer) <= MAX_QUEUE;
  }

  lemma FitsOnce(reg: Registry, base: Base)
    requires FitsTwice(reg, base)
    ensures FitsQueues(reg, base)
  {
    forall c ensures HooksOf(reg, base, c) <= MAX_QUEUE {
      assert 2 * HooksOf(reg, base, c) <= MAX_QUEUE;
    }
  }

  lemma FirstRoundIsAdmitted(idle: Bus, reg: Registry, base: Base)
    requires Idle(idle) && Inv(idle) && FitsQueues(reg, base) && |SessionKeys(reg, base)| <= MAX_LANES
    ensures Admits(idle.lanes, StartOf(reg, base)) && Admits(Emit(idle, StartOf(reg, base)).lanes, StopOf(reg, base))
  {
    FreshIsAdmitted(idle, reg, base, base);
    FreshStopIsAdmitted(idle, reg, base);
  }

  lemma FirstRoundKeys(idle: Bus, reg: Registry, base: Base)
    requires Idle(idle) && Inv(idle) && FitsQueues(reg, base) && |SessionKeys(reg, base)| <= MAX_LANES
    ensures Gone(idle, reg, base).lanes.Keys == SessionKeys(reg, base)
  {
    GoneKeys(idle, reg, base, base);
    NoneAndSome(idle.lanes.Keys, SessionKeys(reg, base));
  }

  lemma NoneAndSome(none: set<Key>, some: set<Key>)
    requires none == {}
    ensures none + some == some
  {
  }

  /** A session of an idle bus that started and stopped may start again before its dispatches ran. */
  lemma RestartIsAdmitted(idle: Bus, reg: Registry, base: Base)
    requires idle.lanes == map[] && FitsTwice(reg, base) && |SessionKeys(reg, base)| <= MAX_LANES
    requires Admits(idle.lanes, StartOf(reg, base)) && Admits(Emit(idle, StartOf(reg, base)).lanes, StopOf(reg, base))
    requires Gone(idle, reg, base).lanes.Keys == SessionKeys(reg, base)
    ensures Admits(Gone(idle, reg, base).lanes, StartOf(reg, base))
  {
    SessionBase(reg, base);
    forall k | k in SessionKeys(reg, base) ensures HasRoom(Gone(idle, reg, base).lanes, StartOf(reg, base), k) {
      RoomAgain(idle, reg, base, k);
    }
    SameKeysAdmit(Gone(idle, reg, base).lanes, StartOf(reg, base));
  }

  lemma SameKeysAdmit(lanes: map<Key, Lane>, e: Emission)
    requires lanes.Keys == e.Keys() && |e.Keys()| <= MAX_LANES && forall k :: k in e.Keys() ==> HasRoom(lanes, e, k)
    ensures Admits(lanes, e)
  {
    NothingNew(lanes, e.Keys());
  }

  lemma NothingNew(lanes: map<Key, Lane>, ks: set<Key>)
    requires lanes.Keys == ks
    ensures |lanes| == |ks| && ks - lanes.Keys == {}
  {
    assert |lanes| == |lanes.Keys|;
  }

  /** Started again, the session has the lanes it had. */
  lemma RestartKeepsKeys(b: Bus, reg: Registry, base: Base)
    requires Admits(b.lanes, StartOf(reg, base)) && b.lanes.Keys == SessionKeys(reg, base)
    ensures |Emit(b, StartOf(reg, base)).lanes| == |SessionKeys(reg, base)|
  {
    EmittedKeys(b, StartOf(reg, base));
    NothingNew(Emit(b, StartOf(reg, base)).lanes, SessionKeys(reg, base));
  }

  lemma GoneIsPending(idle: Bus, reg: Registry, base: Base) returns (k: Key)
    requires reg.Stops(base) != [] && Admits(Emit(idle, StartOf(reg, base)).lanes, StopOf(reg, base))
    ensures k in PendingLanes(reg, Gone(idle, reg, base), base)
  {
    k := Key(base, reg.Stops(base)[0].consumer);
    CountWitness(reg.Stops(base), k.consumer);
    StopIsQueued(Emit(idle, StartOf(reg, base)), reg, base, k);
    PendingAre(reg, Gone(idle, reg, base), base, k);
  }

  lemma RestartIsReachable(idle: Bus, reg: Registry, base: Base)
    requires Idle(idle) && FitsTwice(reg, base) && |SessionKeys(reg, base)| <= MAX_LANES
    ensures var b := Gone(idle, reg, base);
            Inv(b) && Admits(b.lanes, StartOf(reg, base)) && b.lanes.Keys == SessionKeys(reg, base)
  {
    IdleBusIsSafe(idle);
    GoneInv(idle, reg, base);
    FitsOnce(reg, base);
    FirstRoundIsAdmitted(idle, reg, base);
    FirstRoundKeys(idle, reg, base);
    RestartIsAdmitted(idle, reg, base);
  }

  lemma RestartIsPending(idle: Bus, reg: Registry, base: Base) returns (k: Key)
    requires Idle(idle) && FitsTwice(reg, base) && |SessionKeys(reg, base)| <= MAX_LANES && reg.Stops(base) != []
    ensures k in PendingLanes(reg, Gone(idle, reg, base), base)
  {
    IdleBusIsSafe(idle);
    FitsOnce(reg, base);
    FirstRoundIsAdmitted(idle, reg, base);
    k := GoneIsPending(idle, reg, base);
  }

  lemma RestartLoses(b: Bus, reg: Registry, base: Base, k: Key) returns (steps: seq<Step>)
    requires Inv(b) && Admits(b.lanes, StartOf(reg, base)) && b.lanes.Keys == SessionKeys(reg, base)
    requires k in PendingLanes(reg, b, base) && 2 * |SessionKeys(reg, base)| <= MAX_LANES
    ensures Continues(steps, reg, base) && Uniform(steps, reg)
    ensures !Admits(Run(Apply(b, StartStep(reg, base)), steps).lanes, StopOf(reg, base))
  {
    RestartKeepsKeys(b, reg, base);
    steps := StopCanBeRefused(reg, b, base, k);
  }

  /** The promise fails from an idle bus: start, stop, start again, and the second stop is refused. */
  lemma RestartCanLoseItsStop(idle: Bus, reg: Registry, base: Base) returns (steps: seq<Step>)
    requires Idle(idle) && FitsTwice(reg, base) && reg.Stops(base) != [] && 2 * |SessionKeys(reg, base)| <= MAX_LANES
    ensures var b := Apply(Apply(idle, StartStep(reg, base)), StopStep(reg, base));
            && Admits(b.lanes, StartOf(reg, base)) && Continues(steps, reg, base) && Uniform(steps, reg)
            && !Admits(Run(Apply(b, StartStep(reg, base)), steps).lanes, StopOf(reg, base))
  {
    RestartIsReachable(idle, reg, base);
    var k := RestartIsPending(idle, reg, base);
    steps := RestartLoses(Gone(idle, reg, base), reg, base, k);
  }
}
