/** What every interleaving of emissions, runners and untracked hooks keeps. */
module EventBusSafety {
  import opened EventBusModel
  import opened MapSums

  function QueueLen(lane: Lane): nat { |lane.queue| }

  function Busy(phase: Phase): nat { if phase.Running? then 1 else 0 }

  // ------------------------------------------------------------------
  // The invariant
  // ------------------------------------------------------------------

  function LogOf(m: map<Key, seq<Dispatch>>, k: Key): seq<Dispatch> { if k in m then m[k] else [] }

  /** Queues are bounded; a lane that does not run is empty and held open for a stop. */
  predicate LaneOk(lane: Lane) {
    |lane.queue| <= MAX_QUEUE && (!lane.running ==> lane.queue == [] && !lane.closeWhenEmpty)
  }

  ghost predicate LanesOk(b: Bus) {
    && |b.lanes| <= MAX_LANES
    && (forall k :: k in b.lanes ==> LaneOk(b.lanes[k]))
  }

  ghost predicate HasRunner(b: Bus, k: Key) { exists id :: id in b.runners && id.key == k }

  ghost predicate RunnersLive(b: Bus) {
    forall id :: id in b.runners ==> id.serial < b.serial && id.key in b.lanes && b.lanes[id.key].running
  }

  ghost predicate RunnersUnique(b: Bus) {
    forall i, j :: i in b.runners && j in b.runners && i.key == j.key ==> i == j
  }

  ghost predicate RunnersCover(b: Bus) {
    forall k :: k in b.lanes && b.lanes[k].running ==> HasRunner(b, k)
  }

  /** Exactly the running lanes have a runner, and never two. */
  ghost predicate RunnersOk(b: Bus) { RunnersLive(b) && RunnersUnique(b) && RunnersCover(b) }

  /** The pending counter is exact and the idle channel is closed exactly at zero. */
  ghost predicate CountsOk(b: Bus) {
    && b.pending == Sum(b.lanes, QueueLen) + Sum(b.runners, Busy) + b.loose
    && (b.idleClosed <==> b.pending == 0)
  }

  /** Dispatches begin in the order they were admitted; the queue is the rest. */
  predicate OrderAt(b: Bus, k: Key) { LogOf(b.enqueued, k) == LogOf(b.begun, k) + QueueOf(b.lanes, k) }

  ghost predicate OrderOk(b: Bus) { forall k :: OrderAt(b, k) }

  ghost predicate Inv(b: Bus) { LanesOk(b) && RunnersOk(b) && CountsOk(b) && OrderOk(b) }

  // ------------------------------------------------------------------
  // Emission
  // ------------------------------------------------------------------

  /** The dispatches of an emission that go to one consumer. */
  function Share(e: Emission, n: nat, c: string): (ds: seq<Dispatch>)
    requires n <= |e.hooks|
  {
    if n == 0 then []
    else Share(e, n - 1, c) + (if e.hooks[n - 1].consumer == c then [Dispatch(e.hooks[n - 1], e.terminal)] else [])
  }

  lemma {:induction false} ShareCounts(e: Emission, n: nat, c: string)
    requires n <= |e.hooks|
    ensures |Share(e, n, c)| == Count(e.hooks[..n], c)
    ensures forall d :: d in Share(e, n, c) ==> d.terminal == e.terminal
  {
    if n > 0 {
      ShareCounts(e, n - 1, c);
      assert e.hooks[..n][..n - 1] == e.hooks[..n - 1];
    }
  }

  /** Enqueuing touches queues and the admission log only. */
  lemma {:induction false} EnqueuedFrame(b: Bus, e: Emission, n: nat)
    requires n <= |e.hooks| && AllOpen(b, e)
    ensures var r := Enqueued(b, e, n);
            r.begun == b.begun && r.loose == b.loose && r.pending == b.pending && r.idleClosed == b.idleClosed
            && r.runners == b.runners && r.serial == b.serial
  {
    if n > 0 {
      EnqueuedFrame(b, e, n - 1);
    }
  }

  function ShareOf(e: Emission, n: nat, k: Key): seq<Dispatch>
    requires n <= |e.hooks|
  {
    if k.base == e.base then Share(e, n, k.consumer) else []
  }

  /** Each lane receives its share, in hook order, and nothing else. */
  lemma {:induction false} EnqueuedLane(b: Bus, e: Emission, n: nat, k: Key)
    requires n <= |e.hooks| && AllOpen(b, e) && k in b.lanes
    ensures Enqueued(b, e, n).lanes[k] == b.lanes[k].(queue := b.lanes[k].queue + ShareOf(e, n, k))
  {
    if n == 0 {
      assert b.lanes[k].queue + [] == b.lanes[k].queue;
    } else {
      EnqueuedLane(b, e, n - 1, k);
      var q, s, d := b.lanes[k].queue, ShareOf(e, n - 1, k), Dispatch(e.hooks[n - 1], e.terminal);
      if k == Key(e.base, e.hooks[n - 1].consumer) {
        Associates(q, s, [d]);
      } else {
        assert s + [] == s;
      }
    }
  }

  lemma {:induction false} EnqueuedLog(b: Bus, e: Emission, n: nat, k: Key)
    requires n <= |e.hooks| && AllOpen(b, e)
    ensures LogOf(Enqueued(b, e, n).enqueued, k) == LogOf(b.enqueued, k) + ShareOf(e, n, k)
  {
    if n == 0 {
      assert LogOf(b.enqueued, k) + [] == LogOf(b.enqueued, k);
    } else {
      EnqueuedLog(b, e, n - 1, k);
      var q, s, d := LogOf(b.enqueued, k), ShareOf(e, n - 1, k), Dispatch(e.hooks[n - 1], e.terminal);
      if k == Key(e.base, e.hooks[n - 1].consumer) {
        Associates(q, s, [d]);
      } else {
        assert s + [] == s;
      }
    }
  }

  lemma {:induction false} EnqueuedTotal(b: Bus, e: Emission, n: nat)
    requires n <= |e.hooks| && AllOpen(b, e)
    ensures Sum(Enqueued(b, e, n).lanes, QueueLen) == Sum(b.lanes, QueueLen) + n
  {
    if n > 0 {
      EnqueuedTotal(b, e, n - 1);
      var p := Enqueued(b, e, n - 1);
      var k := Key(e.base, e.hooks[n - 1].consumer);
      var d := Dispatch(e.hooks[n - 1], e.terminal);
      SumUpdate(p.lanes, QueueLen, k, p.lanes[k].(queue := p.lanes[k].queue + [d]));
    }
  }

  lemma OpenedKeepsLoad(lanes: map<Key, Lane>, e: Emission)
    ensures Sum(Opened(lanes, e), QueueLen) == Sum(lanes, QueueLen)
  {
    SumSame(lanes, Opened(lanes, e), QueueLen);
  }

  lemma OpenedCardinality(lanes: map<Key, Lane>, e: Emission)
    requires Admits(lanes, e)
    ensures |Opened(lanes, e)| <= MAX_LANES
  {
    var o := Opened(lanes, e);
    assert o.Keys == lanes.Keys + (e.Keys() - lanes.Keys);
    assert |o.Keys| == |lanes.Keys| + |e.Keys() - lanes.Keys|;
  }

  lemma EmittedKeys(b: Bus, e: Emission)
    requires Admits(b.lanes, e)
    ensures Emit(b, e).lanes.Keys == b.lanes.Keys + e.Keys()
  {
    var o := OpenedBus(b, e);
    assert o.lanes.Keys == b.lanes.Keys + e.Keys();
    assert Enqueued(o, e, |e.hooks|).lanes.Keys == o.lanes.Keys;
  }

  /** The queue of any key after enqueuing into the opened lanes. */
  lemma EmittedQueue(b: Bus, e: Emission, k: Key)
    requires Admits(b.lanes, e)
    ensures QueueOf(Emit(b, e).lanes, k) == QueueOf(b.lanes, k) + ShareOf(e, |e.hooks|, k)
  {
    var o, n := OpenedBus(b, e), |e.hooks|;
    assert QueueOf(o.lanes, k) == QueueOf(b.lanes, k);
    if k in o.lanes {
      EnqueuedLane(o, e, n, k);
    } else {
      if k.base == e.base {
        ShareOutside(e, k);
      }
      EmittedKeys(b, e);
      assert k !in Emit(b, e).lanes;
    }
  }

  lemma OpenedAt(b: Bus, e: Emission, k: Key)
    requires k in b.lanes.Keys + e.Keys()
    ensures k in OpenedBus(b, e).lanes
    ensures OpenedBus(b, e).lanes[k] == if e.Touches(k) then OpenedLane(b.lanes, e, k) else b.lanes[k]
  {
  }

  /** What an admitted emission does to one lane. */
  lemma EmittedLane(b: Bus, e: Emission, k: Key)
    requires Admits(b.lanes, e) && k in b.lanes.Keys + e.Keys()
    ensures k in Emit(b, e).lanes
    ensures var was := if e.Touches(k) then OpenedLane(b.lanes, e, k) else b.lanes[k];
            Emit(b, e).lanes[k] == was.(queue := was.queue + ShareOf(e, |e.hooks|, k)) && was.queue == QueueOf(b.lanes, k)
  {
    OpenedAt(b, e, k);
    EnqueuedLane(OpenedBus(b, e), e, |e.hooks|, k);
  }

  lemma EmittedLaneOk(b: Bus, e: Emission, k: Key)
    requires LanesOk(b) && HasRoom(b.lanes, e, k) && e.Touches(k)
    requires e.terminal ==> e.reserve == []
    ensures LaneOk(OpenedLane(b.lanes, e, k).(queue := QueueOf(b.lanes, k) + ShareOf(e, |e.hooks|, k)))
  {
    ShareCounts(e, |e.hooks|, k.consumer);
    assert e.hooks[..|e.hooks|] == e.hooks;
    if k in b.lanes {
      assert LaneOk(b.lanes[k]);
    }
  }

  lemma UntouchedLane(b: Bus, e: Emission, k: Key)
    requires Admits(b.lanes, e) && k in b.lanes && !e.Touches(k)
    ensures k in Emit(b, e).lanes && Emit(b, e).lanes[k] == b.lanes[k]
  {
    EmittedLane(b, e, k);
    if k.base == e.base {
      ShareOutside(e, k);
    }
    assert QueueOf(b.lanes, k) + [] == b.lanes[k].queue;
  }

  lemma EmitLanesOk(b: Bus, e: Emission)
    requires LanesOk(b) && (e.terminal ==> e.reserve == [])
    ensures LanesOk(Emit(b, e))
  {
    if Admits(b.lanes, e) {
      var r := Emit(b, e);
      OpenedCardinality(b.lanes, e);
      EmittedKeys(b, e);
      assert r.lanes.Keys == Opened(b.lanes, e).Keys;
      assert |r.lanes| == |r.lanes.Keys| == |Opened(b.lanes, e).Keys| == |Opened(b.lanes, e)|;
      forall k | k in r.lanes ensures LaneOk(r.lanes[k]) {
        if e.Touches(k) {
          EmittedLane(b, e, k);
          EmittedLaneOk(b, e, k);
        } else {
          UntouchedLane(b, e, k);
          assert LaneOk(b.lanes[k]);
        }
      }
    }
  }

  lemma SpawnedIsIdle(b: Bus, e: Emission)
    requires RunnersOk(b)
    ensures Sum(Spawned(b, e), Busy) == Sum(b.runners, Busy)
  {
    SumSame(b.runners, Spawned(b, e), Busy);
  }

  lemma EmitCountsOk(b: Bus, e: Emission)
    requires CountsOk(b) && RunnersOk(b)
    ensures CountsOk(Emit(b, e))
  {
    if Admits(b.lanes, e) {
      var o := OpenedBus(b, e);
      OpenedKeepsLoad(b.lanes, e);
      SpawnedIsIdle(b, e);
      EnqueuedTotal(o, e, |e.hooks|);
      EnqueuedFrame(o, e, |e.hooks|);
    }
  }

  lemma EmittedRunning(b: Bus, e: Emission, k: Key)
    requires Admits(b.lanes, e)
    ensures k in b.lanes && b.lanes[k].running ==> k in Emit(b, e).lanes && Emit(b, e).lanes[k].running
    ensures Starts(b.lanes, e, k) ==> k in Emit(b, e).lanes && Emit(b, e).lanes[k].running
    ensures k in Emit(b, e).lanes && Emit(b, e).lanes[k].running ==>
              (k in b.lanes && b.lanes[k].running) || Starts(b.lanes, e, k)
  {
    EmittedKeys(b, e);
    if k in b.lanes.Keys + e.Keys() {
      EmittedLane(b, e, k);
    }
  }

  lemma EmittedRunners(b: Bus, e: Emission)
    requires Admits(b.lanes, e)
    ensures Emit(b, e).runners == Spawned(b, e) && Emit(b, e).serial == b.serial + 1
  {
    EnqueuedFrame(OpenedBus(b, e), e, |e.hooks|);
  }

  lemma EmitLive(b: Bus, e: Emission)
    requires RunnersLive(b) && Admits(b.lanes, e)
    ensures RunnersLive(Emit(b, e))
  {
    var r := Emit(b, e);
    EmittedRunners(b, e);
    forall id | id in r.runners ensures id.serial < r.serial && id.key in r.lanes && r.lanes[id.key].running {
      EmittedRunning(b, e, id.key);
    }
  }

  lemma EmitUnique(b: Bus, e: Emission)
    requires RunnersLive(b) && RunnersUnique(b) && Admits(b.lanes, e)
    ensures RunnersUnique(Emit(b, e))
  {
    EmittedRunners(b, e);
  }

  lemma EmitCover(b: Bus, e: Emission)
    requires RunnersCover(b) && Admits(b.lanes, e)
    ensures RunnersCover(Emit(b, e))
  {
    var r := Emit(b, e);
    EmittedRunners(b, e);
    forall k | k in r.lanes && r.lanes[k].running ensures HasRunner(r, k) {
      EmittedRunning(b, e, k);
      if Starts(b.lanes, e, k) {
        assert RunnerId(k, b.serial) in r.runners;
      } else {
        assert HasRunner(b, k);
        var id :| id in b.runners && id.key == k;
        assert id in r.runners;
      }
    }
  }

  /** A runner is spawned exactly where none was: still one per running lane. */
  lemma EmitRunnersOk(b: Bus, e: Emission)
    requires RunnersOk(b)
    ensures RunnersOk(Emit(b, e))
  {
    if Admits(b.lanes, e) {
      EmitLive(b, e);
      EmitUnique(b, e);
      EmitCover(b, e);
    }
  }

  lemma EmittedLogs(b: Bus, e: Emission, k: Key)
    requires Admits(b.lanes, e)
    ensures LogOf(Emit(b, e).enqueued, k) == LogOf(b.enqueued, k) + ShareOf(e, |e.hooks|, k)
    ensures Emit(b, e).begun == b.begun
  {
    var o := OpenedBus(b, e);
    EnqueuedFrame(o, e, |e.hooks|);
    EnqueuedLog(o, e, |e.hooks|, k);
  }

  lemma EmitOrderAt(b: Bus, e: Emission, k: Key)
    requires OrderAt(b, k) && Admits(b.lanes, e)
    ensures OrderAt(Emit(b, e), k)
  {
    EmittedLogs(b, e, k);
    EmittedQueue(b, e, k);
    Associates(LogOf(b.begun, k), QueueOf(b.lanes, k), ShareOf(e, |e.hooks|, k));
  }

  lemma Associates(a: seq<Dispatch>, b: seq<Dispatch>, c: seq<Dispatch>)
    ensures (a + b) + c == a + (b + c)
  {
  }

  lemma EmitOrderOk(b: Bus, e: Emission)
    requires OrderOk(b)
    ensures OrderOk(Emit(b, e))
  {
    if Admits(b.lanes, e) {
      forall k ensures OrderAt(Emit(b, e), k) {
        EmitOrderAt(b, e, k);
      }
    }
  }

  lemma ShareOutside(e: Emission, k: Key)
    requires !e.Touches(k) && k.base == e.base
    ensures Share(e, |e.hooks|, k.consumer) == []
  {
    ShareCounts(e, |e.hooks|, k.consumer);
    assert e.hooks[..|e.hooks|] == e.hooks;
  }

  // ------------------------------------------------------------------
  // Runners
  // ------------------------------------------------------------------

  lemma RunnerTopLanes(b: Bus, id: RunnerId)
    requires LanesOk(b) && RunnersOk(b)
    ensures LanesOk(RunnerTop(b, id))
  {
    if id in b.runners && b.runners[id].AtTop? {
      var k, r := id.key, RunnerTop(b, id);
      assert LaneOk(b.lanes[k]);
      assert r.lanes.Keys <= b.lanes.Keys;
      SubsetIsSmaller(r.lanes.Keys, b.lanes.Keys);
      assert |r.lanes| == |r.lanes.Keys| <= |b.lanes.Keys| == |b.lanes|;
    }
  }

  lemma {:induction false} SubsetIsSmaller<T>(a: set<T>, b: set<T>)
    requires a <= b
    ensures |a| <= |b|
  {
    assert b == a + (b - a);
  }

  lemma RunnerTopCounts(b: Bus, id: RunnerId)
    requires CountsOk(b)
    ensures CountsOk(RunnerTop(b, id))
  {
    if id in b.runners && b.runners[id].AtTop? && id.key in b.lanes {
      var k, r := id.key, RunnerTop(b, id);
      if b.lanes[k].queue == [] {
        SumRemove(b.runners, Busy, id);
        if b.lanes[k].closeWhenEmpty {
          SumRemove(b.lanes, QueueLen, k);
        } else {
          SumUpdate(b.lanes, QueueLen, k, r.lanes[k]);
        }
      } else {
        SumUpdate(b.runners, Busy, id, r.runners[id]);
        SumUpdate(b.lanes, QueueLen, k, r.lanes[k]);
      }
    }
  }

  lemma RunnerTopRunners(b: Bus, id: RunnerId)
    requires RunnersOk(b)
    ensures RunnersOk(RunnerTop(b, id))
  {
    if id in b.runners && b.runners[id].AtTop? {
      RunnerTopUnique(b, id);
      RunnerTopLive(b, id);
      forall k | k in RunnerTop(b, id).lanes && RunnerTop(b, id).lanes[k].running ensures HasRunner(RunnerTop(b, id), k) {
        RunnerTopCovers(b, id, k);
      }
    }
  }

  lemma RunnerTopUnique(b: Bus, id: RunnerId)
    requires RunnersUnique(b)
    ensures RunnersUnique(RunnerTop(b, id)) && RunnerTop(b, id).runners.Keys <= b.runners.Keys
  {
  }

  lemma RunnerTopLive(b: Bus, id: RunnerId)
    requires RunnersLive(b) && RunnersUnique(b) && id in b.runners
    ensures RunnersLive(RunnerTop(b, id))
  {
    var r := RunnerTop(b, id);
    forall i | i in r.runners ensures i.serial < r.serial && i.key in r.lanes && r.lanes[i.key].running {
      assert i in b.runners && b.lanes[i.key].running;
    }
  }

  lemma RunnerTopCovers(b: Bus, id: RunnerId, k: Key)
    requires RunnersCover(b) && k in RunnerTop(b, id).lanes && RunnerTop(b, id).lanes[k].running
    ensures HasRunner(RunnerTop(b, id), k)
  {
    assert HasRunner(b, k);
    var i :| i in b.runners && i.key == k;
    assert i in RunnerTop(b, id).runners;
  }

  lemma RunnerTopOrder(b: Bus, id: RunnerId, j: Key)
    requires OrderAt(b, j)
    ensures OrderAt(RunnerTop(b, id), j)
  {
    var k := id.key;
    if k == j && id in b.runners && b.runners[id].AtTop? && k in b.lanes && b.lanes[k].queue != [] {
      var q := b.lanes[k].queue;
      assert q == [q[0]] + q[1..];
      Associates(LogOf(b.begun, k), [q[0]], q[1..]);
    }
  }

  lemma RunnerTopInv(b: Bus, id: RunnerId)
    requires Inv(b)
    ensures Inv(RunnerTop(b, id))
  {
    RunnerTopLanes(b, id);
    RunnerTopCounts(b, id);
    RunnerTopRunners(b, id);
    forall j ensures OrderAt(RunnerTop(b, id), j) {
      RunnerTopOrder(b, id, j);
    }
  }

  lemma SameRunners(b: Bus, r: Bus)
    requires RunnersOk(b)
    requires r.runners.Keys == b.runners.Keys && r.serial == b.serial
    requires r.lanes.Keys == b.lanes.Keys && forall k :: k in b.lanes ==> r.lanes[k].running == b.lanes[k].running
    ensures RunnersOk(r)
  {
    forall k | k in r.lanes && r.lanes[k].running ensures HasRunner(r, k) {
      assert HasRunner(b, k);
      var i :| i in b.runners && i.key == k;
      assert i in r.runners;
    }
  }

  /** Steps that move one runner and leave every queue alone. */
  lemma PhaseInv(b: Bus, r: Bus, id: RunnerId)
    requires LanesOk(b) && RunnersOk(b) && OrderOk(b) && id in b.runners
    requires r.runners.Keys == b.runners.Keys && r.serial == b.serial
    requires r.enqueued == b.enqueued && r.begun == b.begun
    requires r.lanes == b.lanes || r.lanes == b.lanes[id.key := b.lanes[id.key].(closeWhenEmpty := true)]
    ensures LanesOk(r) && RunnersOk(r) && OrderOk(r)
  {
    assert r.lanes.Keys == b.lanes.Keys;
    SameRunners(b, r);
    SameLanes(b, r, id.key);
    forall j ensures OrderAt(r, j) {
      assert OrderAt(b, j);
    }
  }

  lemma SameLanes(b: Bus, r: Bus, k: Key)
    requires LanesOk(b) && k in b.lanes && b.lanes[k].running
    requires r.lanes == b.lanes || r.lanes == b.lanes[k := b.lanes[k].(closeWhenEmpty := true)]
    ensures LanesOk(r)
  {
    assert r.lanes.Keys == b.lanes.Keys;
    assert |r.lanes| == |r.lanes.Keys| == |b.lanes.Keys| == |b.lanes|;
    assert LaneOk(b.lanes[k]);
  }

  lemma RunnerDoneInv(b: Bus, id: RunnerId)
    requires Inv(b)
    ensures Inv(RunnerDone(b, id))
  {
    if id in b.runners && b.runners[id].Running? {
      var r := RunnerDone(b, id);
      PhaseInv(b, r, id);
      SumUpdate(b.runners, Busy, id, r.runners[id]);
      SumAny(b.runners, Busy, id);
    }
  }

  lemma RunnerMarkInv(b: Bus, id: RunnerId)
    requires Inv(b)
    ensures Inv(RunnerMark(b, id))
  {
    if id in b.runners && b.runners[id].Marking? {
      var r := RunnerMark(b, id);
      PhaseInv(b, r, id);
      SumUpdate(b.runners, Busy, id, r.runners[id]);
      SumUpdate(b.lanes, QueueLen, id.key, r.lanes[id.key]);
    }
  }

  lemma ApplyInv(b: Bus, step: Step)
    requires Inv(b)
    ensures Inv(Apply(b, step))
  {
    match step
    case StartStep(reg, base) => EmitInv(b, StartOf(reg, base));
    case StopStep(reg, base) => EmitInv(b, StopOf(reg, base));
    case TopStep(r) => RunnerTopInv(b, r);
    case DoneStep(r) => RunnerDoneInv(b, r);
    case MarkStep(r) => RunnerMarkInv(b, r);
    case LooseEmitStep(n) => LooseEmitInv(b, n);
    case LooseDoneStep => LooseDoneInv(b);
  }

  lemma EmitInv(b: Bus, e: Emission)
    requires Inv(b) && (e.terminal ==> e.reserve == [])
    ensures Inv(Emit(b, e))
  {
    EmitLanesOk(b, e);
    EmitRunnersOk(b, e);
    EmitCountsOk(b, e);
    EmitOrderOk(b, e);
  }

  lemma LooseCounts(b: Bus, n: nat)
    requires CountsOk(b)
    ensures CountsOk(LooseEmit(b, n)) && CountsOk(LooseDone(b))
  {
  }

  lemma LooseEmitInv(b: Bus, n: nat)
    requires Inv(b)
    ensures Inv(LooseEmit(b, n))
  {
    LooseCounts(b, n);
    LooseInv(b, LooseEmit(b, n));
  }

  lemma LooseDoneInv(b: Bus)
    requires Inv(b)
    ensures Inv(LooseDone(b))
  {
    LooseCounts(b, 0);
    LooseInv(b, LooseDone(b));
  }

  lemma LooseInv(b: Bus, r: Bus)
    requires LanesOk(b) && RunnersOk(b) && OrderOk(b) && CountsOk(r)
    requires r.lanes == b.lanes && r.runners == b.runners && r.serial == b.serial
    requires r.enqueued == b.enqueued && r.begun == b.begun
    ensures Inv(r)
  {
    SameRunners(b, r);
    forall k ensures OrderAt(r, k) {
      assert OrderAt(b, k);
    }
  }

  /** Whoever completes a dispatch finds it counted and the idle channel open, so
      the channel is never closed twice and the counter never goes negative. */
  lemma CompletionNeverPanics(b: Bus, id: RunnerId)
    requires Inv(b)
    requires (id in b.runners && b.runners[id].Running?) || b.loose > 0
    ensures b.pending > 0 && !b.idleClosed
  {
    if id in b.runners && b.runners[id].Running? {
      SumAny(b.runners, Busy, id);
    }
  }

  /** In every reachable state, whatever the interleaving: bounded lanes and queues,
      a runner wherever work is queued, first-in-first-out execution, an exact
      pending count, and an idle channel closed exactly when nothing is pending. */
  lemma {:induction false} EveryRunIsSafe(b: Bus, steps: seq<Step>)
    requires Inv(b)
    ensures Inv(Run(b, steps))
    decreases |steps|
  {
    if steps != [] {
      ApplyInv(b, steps[0]);
      EveryRunIsSafe(Apply(b, steps[0]), steps[1..]);
    }
  }

  /** A bus as it is created. */
  predicate Idle(b: Bus) {
    && b.lanes == map[] && b.runners == map[] && b.pending == 0 && b.loose == 0 && b.idleClosed
    && b.enqueued == map[] && b.begun == map[]
  }

  lemma IdleBusIsSafe(b: Bus)
    requires Idle(b)
    ensures Inv(b)
  {
  }
}
