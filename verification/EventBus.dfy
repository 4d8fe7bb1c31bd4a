/** The imperative lifecycle lanes of core/event_bus.go. */
module EventBus {
  import opened M = EventBusModel

  function Lookup<K>(m: map<K, nat>, k: K): nat { if k in m then m[k] else 0 }

  /** terminalConsumerCounts, and the per-consumer counting of enqueueLifecycle. */
  method CountByConsumer(hooks: seq<Hook>) returns (counts: map<string, nat>)
    ensures forall c :: Lookup(counts, c) == Count(hooks, c)
    ensures forall c :: c in counts ==> counts[c] > 0
  {
    counts := map[];
    var i := 0;
    while i < |hooks|
      invariant 0 <= i <= |hooks|
      invariant forall c :: Lookup(counts, c) == Count(hooks[..i], c)
      invariant forall c :: c in counts ==> counts[c] > 0
    {
      assert hooks[..i + 1][..i] == hooks[..i];
      counts := counts[hooks[i].consumer := Lookup(counts, hooks[i].consumer) + 1];
      i := i + 1;
    }
    assert hooks[..i] == hooks;
  }

  /** Room in one lane: its queue, the new dispatches, and the reserved stop hooks. */
  predicate RoomBy(lanes: map<Key, Lane>, counts: map<string, nat>, reserve: map<string, nat>, k: Key) {
    |QueueOf(lanes, k)| + Lookup(counts, k.consumer) <= MAX_QUEUE - Lookup(reserve, k.consumer)
  }

  class EventBus {
    var lanes: map<Key, Lane>
    var pending: int
    var idleClosed: bool
    ghost var runners: map<RunnerId, Phase>
    ghost var serial: nat
    ghost var loose: nat
    ghost var enqueued: map<Key, seq<Dispatch>>
    ghost var begun: map<Key, seq<Dispatch>>

    ghost function View(): Bus
      reads this
    {
      Bus(lanes, runners, serial, pending, loose, idleClosed, enqueued, begun)
    }

    constructor ()
      ensures View() == Bus(map[], map[], 0, 0, 0, true, map[], map[])
    {
      lanes, pending, idleClosed := map[], 0, true;
      runners, serial, loose, enqueued, begun := map[], 0, 0, map[], map[];
    }

    method BeginAsync(n: nat)
      modifies this`pending, this`idleClosed
      ensures View() == M.BeginAsync(old(View()), n)
    {
      if n == 0 {
        return;
      }
      if pending == 0 {
        idleClosed := false;
      }
      pending := pending + n;
    }

    method TryBeginAsync(n: nat) returns (ok: bool)
      modifies this`pending, this`idleClosed, this`loose
      ensures ok == (n == 0 || old(pending) + n <= MAX_ASYNC)
      ensures View() == LooseEmit(old(View()), n)
    {
      if n == 0 {
        return true;
      }
      if pending + n > MAX_ASYNC {
        return false;
      }
      BeginAsync(n);
      loose := loose + n;
      return true;
    }

    /** completeAsync; closing the idle channel twice would panic. */
    method CompleteAsync()
      requires pending > 0 && !idleClosed
      modifies this`pending, this`idleClosed
      ensures View() == M.CompleteAsync(old(View()))
    {
      pending := pending - 1;
      if pending == 0 {
        idleClosed := true;
      }
    }

    static lemma CountNew(done: set<Key>, k: Key, present: set<Key>)
      requires k !in done
      ensures |(done + {k}) - present| == |done - present| + (if k in present then 0 else 1)
    {
      if k in present {
        assert (done + {k}) - present == done - present;
      } else {
        assert (done + {k}) - present == (done - present) + {k};
      }
    }

    /** The admission loop: refuses on the first lane without room. */
    method CheckRoom(keys: set<Key>, counts: map<string, nat>, reserve: map<string, nat>) returns (ok: bool)
      ensures ok == ((forall k :: k in keys ==> RoomBy(lanes, counts, reserve, k)) && |lanes| + |keys - lanes.Keys| <= MAX_LANES)
    {
      var todo, newLanes := keys, 0;
      ghost var done: set<Key> := {};
      while todo != {}
        invariant todo <= keys && done == keys - todo
        invariant forall k :: k in done ==> RoomBy(lanes, counts, reserve, k)
        invariant newLanes == |done - lanes.Keys|
        decreases todo
      {
        var k :| k in todo;
        if !RoomBy(lanes, counts, reserve, k) {
          return false;
        }
        CountNew(done, k, lanes.Keys);
        if k !in lanes {
          newLanes := newLanes + 1;
        }
        assert keys - (todo - {k}) == done + {k};
        todo, done := todo - {k}, done + {k};
      }
      assert done == keys;
      ok := |lanes| + newLanes <= MAX_LANES;
    }

    /** The admission test is that of the counting maps. */
    static lemma CountedAdmission(lanes: map<Key, Lane>, e: Emission, counts: map<string, nat>, reserve: map<string, nat>)
      requires forall c :: Lookup(counts, c) == Count(e.hooks, c)
      requires forall c :: Lookup(reserve, c) == Count(e.reserve, c)
      ensures Admits(lanes, e) <==>
              (forall k :: k in e.Keys() ==> RoomBy(lanes, counts, reserve, k)) && |lanes| + |e.Keys() - lanes.Keys| <= MAX_LANES
    {
      assert forall k :: RoomBy(lanes, counts, reserve, k) <==> HasRoom(lanes, e, k);
    }

    /** Creates, or wakes and holds, one lane. */
    method OpenLane(e: Emission, k: Key, counts: map<string, nat>, reserve: map<string, nat>)
      requires Lookup(counts, k.consumer) == Count(e.hooks, k.consumer)
      requires Lookup(reserve, k.consumer) == Count(e.reserve, k.consumer)
      modifies this`lanes
      ensures lanes == old(lanes)[k := OpenedLane(old(lanes), e, k)]
    {
      var starts, hold := Lookup(counts, k.consumer) > 0, Lookup(reserve, k.consumer) > 0;
      if k !in lanes {
        lanes := lanes[k := Lane([], starts, e.terminal || !hold)];
      } else {
        var lane := lanes[k];
        if starts && !lane.running {
          lane := lane.(running := true);
        }
        if !e.terminal && hold {
          lane := lane.(closeWhenEmpty := false);
        }
        lanes := lanes[k := lane];
      }
    }

    static ghost predicate PartlyOpened(now: map<Key, Lane>, was: map<Key, Lane>, e: Emission, done: set<Key>) {
      && now.Keys == was.Keys + done
      && (forall k :: k in now ==> now[k] == if k in done then OpenedLane(was, e, k) else was[k])
    }

    method OpenLanes(e: Emission, keys: set<Key>, counts: map<string, nat>, reserve: map<string, nat>)
      requires forall k :: k in keys ==> Lookup(counts, k.consumer) == Count(e.hooks, k.consumer)
      requires forall k :: k in keys ==> Lookup(reserve, k.consumer) == Count(e.reserve, k.consumer)
      modifies this`lanes
      ensures PartlyOpened(lanes, old(lanes), e, keys)
    {
      var todo := keys;
      ghost var was, done: set<Key> := lanes, {};
      while todo != {}
        invariant todo <= keys && done == keys - todo
        invariant PartlyOpened(lanes, was, e, done)
        decreases todo
      {
        var k :| k in todo;
        ghost var before := lanes;
        OpenLane(e, k, counts, reserve);
        OpenedMore(before, lanes, was, e, done, k);
        assert keys - (todo - {k}) == done + {k};
        todo, done := todo - {k}, done + {k};
      }
      assert done == keys;
    }

    static lemma OpenedMore(before: map<Key, Lane>, after: map<Key, Lane>, was: map<Key, Lane>, e: Emission, done: set<Key>, k: Key)
      requires PartlyOpened(before, was, e, done) && k !in done
      requires after == before[k := OpenedLane(before, e, k)]
      ensures PartlyOpened(after, was, e, done + {k})
    {
    }

    static lemma AllOpened(now: map<Key, Lane>, was: map<Key, Lane>, e: Emission)
      requires PartlyOpened(now, was, e, e.Keys())
      ensures now == Opened(was, e)
    {
      forall k | k in now ensures now[k] == Opened(was, e)[k] {
        assert k in e.Keys() <==> e.Touches(k);
      }
    }

    method AppendDispatches(e: Emission)
      requires AllOpen(View(), e)
      modifies this`lanes, this`enqueued
      ensures View() == Enqueued(old(View()), e, |e.hooks|)
    {
      ghost var b := View();
      var i := 0;
      while i < |e.hooks|
        invariant 0 <= i <= |e.hooks|
        invariant View() == Enqueued(b, e, i)
      {
        AppendDispatch(Key(e.base, e.hooks[i].consumer), Dispatch(e.hooks[i], e.terminal));
        i := i + 1;
      }
    }

    method AppendDispatch(k: Key, d: Dispatch)
      requires k in lanes
      modifies this`lanes, this`enqueued
      ensures View() == Enqueue1(old(View()), k, d)
    {
      lanes := lanes[k := lanes[k].(queue := lanes[k].queue + [d])];
      enqueued := Append1(enqueued, k, d);
    }

    /** Opens every touched lane and starts the runners this calls for. */
    method OpenAll(e: Emission, keys: set<Key>, counts: map<string, nat>, reserve: map<string, nat>)
      requires keys == e.Keys()
      requires forall c :: Lookup(counts, c) == Count(e.hooks, c)
      requires forall c :: Lookup(reserve, c) == Count(e.reserve, c)
      modifies this`lanes, this`runners, this`serial
      ensures View() == OpenedBus(old(View()), e)
    {
      runners, serial := Spawned(View(), e), serial + 1;
      OpenLanes(e, keys, counts, reserve);
      AllOpened(lanes, old(lanes), e);
    }

    /** enqueueLifecycle: all or nothing. */
    method EnqueueLifecycle(e: Emission) returns (ok: bool)
      modifies this
      ensures ok == Admits(old(lanes), e)
      ensures View() == Emit(old(View()), e)
    {
      var counts := CountByConsumer(e.hooks);
      var reserve := CountByConsumer(e.reserve);
      var keys := e.Keys();
      CountedAdmission(lanes, e, counts, reserve);
      ok := CheckRoom(keys, counts, reserve);
      if !ok {
        return;
      }
      OpenAll(e, keys, counts, reserve);
      AppendDispatches(e);
      BeginAsync(|e.hooks|);
    }

    /** The locked section at the top of runLifecycleLane. */
    method LaneTop(ghost id: RunnerId, key: Key) returns (leave: bool, d: seq<Dispatch>)
      requires id in runners && runners[id].AtTop? && id.key == key && key in lanes
      modifies this`lanes, this`runners, this`begun
      ensures View() == RunnerTop(old(View()), id)
      ensures leave == (old(lanes)[key].queue == []) && (!leave ==> d == [old(lanes)[key].queue[0]])
    {
      var lane := lanes[key];
      if lane.queue == [] {
        if lane.closeWhenEmpty {
          lanes := lanes - {key};
        } else {
          lanes := lanes[key := lane.(running := false)];
        }
        runners := runners - {id};
        return true, [];
      }
      lanes := lanes[key := lane.(queue := lane.queue[1..])];
      runners := runners[id := Running(lane.queue[0])];
      begun := Append1(begun, key, lane.queue[0]);
      return false, [lane.queue[0]];
    }

    /** The dispatch returned: it is no longer pending. */
    method LaneDone(ghost id: RunnerId, d: Dispatch)
      requires id in runners && runners[id] == Running(d) && pending > 0 && !idleClosed
      modifies this`pending, this`idleClosed, this`runners
      ensures View() == RunnerDone(old(View()), id)
    {
      runners := runners[id := if d.terminal then Marking else AtTop];
      CompleteAsync();
    }

    /** After a terminal dispatch the lane may close. */
    method LaneMark(ghost id: RunnerId, key: Key)
      requires id in runners && runners[id].Marking? && id.key == key && key in lanes
      modifies this`lanes, this`runners
      ensures View() == RunnerMark(old(View()), id)
    {
      lanes := lanes[key := lanes[key].(closeWhenEmpty := true)];
      runners := runners[id := AtTop];
    }
  }
}
