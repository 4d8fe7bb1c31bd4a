/** The lifecycle lanes of core/event_bus.go as a state machine. Admission under the
    lane lock is one step; a lane runner takes separate steps for dequeuing, finishing
    a hook, and marking its lane closed, so that other actors can come in between. */
module EventBusModel {

  const MAX_QUEUE: nat := 8
  const MAX_LANES: nat := 4096
  const MAX_ASYNC: nat := 1024

  /** One client session: the lane key without its consumer. */
  datatype Base = Base(streamKey: string, client: string, publish: bool)

  datatype Key = Key(base: Base, consumer: string)

  /** An asynchronous hook registration. */
  datatype Hook = Hook(consumer: string, id: nat)

  /** The asynchronous hooks of the four lifecycle events. */
  datatype Registry = Registry(publish: seq<Hook>, publishStop: seq<Hook>, subscribe: seq<Hook>, subscribeStop: seq<Hook>)
  {
    function Starts(base: Base): seq<Hook> { if base.publish then publish else subscribe }
    function Stops(base: Base): seq<Hook> { if base.publish then publishStop else subscribeStop }
  }

  datatype Dispatch = Dispatch(hook: Hook, terminal: bool)

  /** The goroutines started for a lane; `serial` tells apart those started by
      different emissions. */
  datatype RunnerId = RunnerId(key: Key, serial: nat)

  /** Where a runner stands between two acquisitions of the lane lock. */
  datatype Phase = AtTop | Running(dispatch: Dispatch) | Marking

  datatype Lane = Lane(queue: seq<Dispatch>, running: bool, closeWhenEmpty: bool)

  /** `enqueued` and `begun` record, per lane key, every dispatch ever admitted and
      every dispatch ever handed to a runner. */
  datatype Bus = Bus(lanes: map<Key, Lane>, runners: map<RunnerId, Phase>, serial: nat,
                     pending: int, loose: nat, idleClosed: bool,
                     enqueued: map<Key, seq<Dispatch>>, begun: map<Key, seq<Dispatch>>)

  // ------------------------------------------------------------------
  // Admission
  // ------------------------------------------------------------------

  function Count(hooks: seq<Hook>, c: string): nat {
    if hooks == [] then 0 else Count(hooks[..|hooks| - 1], c) + (if hooks[|hooks| - 1].consumer == c then 1 else 0)
  }

  lemma {:induction false} CountWitness(hooks: seq<Hook>, c: string)
    ensures Count(hooks, c) > 0 <==> exists i :: 0 <= i < |hooks| && hooks[i].consumer == c
  {
    if hooks != [] {
      var m := hooks[..|hooks| - 1];
      CountWitness(m, c);
      if Count(m, c) > 0 {
        var i :| 0 <= i < |m| && m[i].consumer == c;
        assert hooks[i].consumer == c;
      }
      if exists i :: 0 <= i < |hooks| && hooks[i].consumer == c {
        var i :| 0 <= i < |hooks| && hooks[i].consumer == c;
        assert i < |m| ==> m[i].consumer == c;
      }
    }
  }

  /** The lanes of one session that hooks go to. */
  function LaneKeys(base: Base, hooks: seq<Hook>): (ks: set<Key>)
    ensures forall k :: k in ks <==> k.base == base && Count(hooks, k.consumer) > 0
  {
    var ks := set i | 0 <= i < |hooks| :: Key(base, hooks[i].consumer);
    assert forall k :: k in ks <==> k.base == base && Count(hooks, k.consumer) > 0 by {
      forall k ensures k in ks <==> k.base == base && Count(hooks, k.consumer) > 0 {
        CountWitness(hooks, k.consumer);
      }
    }
    ks
  }

  /** One emission: a start carries the stop hooks it must reserve room for. */
  datatype Emission = Emission(base: Base, terminal: bool, hooks: seq<Hook>, reserve: seq<Hook>)
  {
    predicate Touches(k: Key) { k.base == base && (Count(hooks, k.consumer) > 0 || Count(reserve, k.consumer) > 0) }

    function Limit(k: Key): int { MAX_QUEUE - Count(reserve, k.consumer) }

    function Keys(): (ks: set<Key>)
      ensures forall k :: k in ks <==> Touches(k)
    {
      LaneKeys(base, hooks) + LaneKeys(base, reserve)
    }
  }

  function StartOf(reg: Registry, base: Base): Emission { Emission(base, false, reg.Starts(base), reg.Stops(base)) }

  function StopOf(reg: Registry, base: Base): Emission { Emission(base, true, reg.Stops(base), []) }

  function QueueOf(lanes: map<Key, Lane>, k: Key): seq<Dispatch> { if k in lanes then lanes[k].queue else [] }

  predicate HasRoom(lanes: map<Key, Lane>, e: Emission, k: Key) {
    |QueueOf(lanes, k)| + Count(e.hooks, k.consumer) <= e.Limit(k)
  }

  /** All or nothing: every touched lane has room and the new lanes fit. */
  predicate Admits(lanes: map<Key, Lane>, e: Emission) {
    && (forall k :: k in e.Keys() ==> HasRoom(lanes, e, k))
    && |lanes| + |e.Keys() - lanes.Keys| <= MAX_LANES
  }

  function OpenedLane(lanes: map<Key, Lane>, e: Emission, k: Key): Lane {
    var starts, hold := Count(e.hooks, k.consumer) > 0, Count(e.reserve, k.consumer) > 0;
    if k !in lanes then Lane([], starts, e.terminal || !hold)
    else
      var lane := lanes[k];
      Lane(lane.queue, lane.running || starts, lane.closeWhenEmpty && (e.terminal || !hold))
  }

  /** The touched lanes exist, are running if anything will be queued, and are held
      open when a stop is still to come. */
  function Opened(lanes: map<Key, Lane>, e: Emission): map<Key, Lane> {
    map k | k in lanes.Keys + e.Keys() :: if e.Touches(k) then OpenedLane(lanes, e, k) else lanes[k]
  }

  /** A runner is started for a lane that gets work and has none. */
  predicate Starts(lanes: map<Key, Lane>, e: Emission, k: Key) {
    k.base == e.base && Count(e.hooks, k.consumer) > 0 && (k in lanes ==> !lanes[k].running)
  }

  function Spawned(b: Bus, e: Emission): (r: map<RunnerId, Phase>)
    ensures forall id :: id in r <==> id in b.runners || (id.serial == b.serial && Starts(b.lanes, e, id.key))
    ensures forall id :: id in r ==> r[id] == if id.serial == b.serial && Starts(b.lanes, e, id.key) then AtTop else b.runners[id]
  {
    var ids := set k | k in e.Keys() && Starts(b.lanes, e, k) :: RunnerId(k, b.serial);
    b.runners + map id | id in ids :: AtTop
  }

  function Append1<T>(m: map<Key, seq<T>>, k: Key, x: T): map<Key, seq<T>> {
    m[k := (if k in m then m[k] else []) + [x]]
  }

  function Enqueue1(b: Bus, k: Key, d: Dispatch): Bus
    requires k in b.lanes
  {
    b.(lanes := b.lanes[k := b.lanes[k].(queue := b.lanes[k].queue + [d])], enqueued := Append1(b.enqueued, k, d))
  }

  predicate AllOpen(b: Bus, e: Emission) {
    forall i :: 0 <= i < |e.hooks| ==> Key(e.base, e.hooks[i].consumer) in b.lanes
  }

  /** Hooks 0..n of the emission joined the ends of their lanes, in order. */
  function Enqueued(b: Bus, e: Emission, n: nat): (r: Bus)
    requires n <= |e.hooks| && AllOpen(b, e)
    ensures r.lanes.Keys == b.lanes.Keys
  {
    if n == 0 then b
    else
      var p := Enqueued(b, e, n - 1);
      Enqueue1(p, Key(e.base, e.hooks[n - 1].consumer), Dispatch(e.hooks[n - 1], e.terminal))
  }

  function BeginAsync(b: Bus, n: nat): Bus {
    if n == 0 then b
    else b.(pending := b.pending + n, idleClosed := if b.pending == 0 then false else b.idleClosed)
  }

  /** The bus once every touched lane is open. */
  function OpenedBus(b: Bus, e: Emission): (o: Bus)
    ensures AllOpen(o, e)
  {
    assert forall i :: 0 <= i < |e.hooks| ==> e.Touches(Key(e.base, e.hooks[i].consumer)) by {
      forall i | 0 <= i < |e.hooks| ensures Count(e.hooks, e.hooks[i].consumer) > 0 {
        CountWitness(e.hooks, e.hooks[i].consumer);
      }
    }
    b.(lanes := Opened(b.lanes, e), runners := Spawned(b, e), serial := b.serial + 1)
  }

  /** enqueueLifecycle */
  function Emit(b: Bus, e: Emission): Bus {
    if !Admits(b.lanes, e) then b
    else BeginAsync(Enqueued(OpenedBus(b, e), e, |e.hooks|), |e.hooks|)
  }

  // ------------------------------------------------------------------
  // Runners and untracked hooks
  // ------------------------------------------------------------------

  function CompleteAsync(b: Bus): Bus {
    b.(pending := b.pending - 1, idleClosed := b.pending - 1 == 0 || b.idleClosed)
  }

  /** The runner takes the lane lock: leave, or take the next dispatch. */
  function RunnerTop(b: Bus, id: RunnerId): Bus {
    if id !in b.runners || !b.runners[id].AtTop? || id.key !in b.lanes then b
    else
      var lane := b.lanes[id.key];
      if lane.queue == [] then
        b.(runners := b.runners - {id},
           lanes := if lane.closeWhenEmpty then b.lanes - {id.key} else b.lanes[id.key := lane.(running := false)])
      else
        b.(runners := b.runners[id := Running(lane.queue[0])],
           lanes := b.lanes[id.key := lane.(queue := lane.queue[1..])],
           begun := Append1(b.begun, id.key, lane.queue[0]))
  }

  /** The hook returned (or panicked): the dispatch no longer is pending. */
  function RunnerDone(b: Bus, id: RunnerId): Bus {
    if id !in b.runners || !b.runners[id].Running? then b
    else CompleteAsync(b.(runners := b.runners[id := if b.runners[id].dispatch.terminal then Marking else AtTop]))
  }

  /** After a terminal dispatch the lane may close. */
  function RunnerMark(b: Bus, id: RunnerId): Bus {
    if id !in b.runners || !b.runners[id].Marking? || id.key !in b.lanes then b
    else
      b.(runners := b.runners[id := AtTop],
         lanes := b.lanes[id.key := b.lanes[id.key].(closeWhenEmpty := true)])
  }

  /** tryBeginAsync for hooks outside the lifecycle families. */
  function LooseEmit(b: Bus, n: nat): Bus {
    if n == 0 || b.pending + n > MAX_ASYNC then b else BeginAsync(b, n).(loose := b.loose + n)
  }

  function LooseDone(b: Bus): Bus {
    if b.loose == 0 then b else CompleteAsync(b.(loose := b.loose - 1))
  }

  /** An emission sees the hooks registered at that moment. */
  datatype Step =
    | StartStep(reg: Registry, base: Base)
    | StopStep(reg: Registry, base: Base)
    | TopStep(runner: RunnerId)
    | DoneStep(runner: RunnerId)
    | MarkStep(runner: RunnerId)
    | LooseEmitStep(n: nat)
    | LooseDoneStep

  function Apply(b: Bus, step: Step): Bus {
    match step
    case StartStep(reg, base) => Emit(b, StartOf(reg, base))
    case StopStep(reg, base) => Emit(b, StopOf(reg, base))
    case TopStep(r) => RunnerTop(b, r)
    case DoneStep(r) => RunnerDone(b, r)
    case MarkStep(r) => RunnerMark(b, r)
    case LooseEmitStep(n) => LooseEmit(b, n)
    case LooseDoneStep => LooseDone(b)
  }

  function Run(b: Bus, steps: seq<Step>): Bus
    decreases |steps|
  {
    if steps == [] then b else Run(Apply(b, steps[0]), steps[1..])
  }
}
