/**
 * Subscribing to one layer of a simulcast family (core/simulcast.go). A subscriber of a private
 * layer holds two leases, one on the parent's shared budget and one on the layer's own stream,
 * and keeps the layer awake; an acquisition that fails half way gives back what it took.
 */
module SimulcastLeases {
  import opened SubscriberLeases

  // ---------------------------------------------------------------- suspended layers

  /** What decides whether a layer's video is accepted. */
  datatype Power = Power(users: nat, epoch: nat)

  datatype PowerStep = Join | Leave

  /** The first subscriber of a suspended layer starts a new epoch. */
  function Joined(p: Power, pause: bool): Power {
    Power(p.users + 1, if p.users == 0 && pause then p.epoch + 1 else p.epoch)
  }

  function PowerAfter(p: Power, step: PowerStep, pause: bool): Power {
    if step.Join? then Joined(p, pause) else if p.users > 0 then p.(users := p.users - 1) else p
  }

  function PowerRun(p: Power, steps: seq<PowerStep>, pause: bool): Power {
    if steps == [] then p else PowerAfter(PowerRun(p, steps[..|steps| - 1], pause), steps[|steps| - 1], pause)
  }

  /** Video of one epoch is accepted in that epoch only, and never while the layer is suspended. */
  predicate Accepts(p: Power, epoch: nat, pause: bool) { p.epoch == epoch && (!pause || p.users > 0) }

  lemma {:induction false} EpochGrows(p: Power, steps: seq<PowerStep>, pause: bool)
    ensures PowerRun(p, steps, pause).epoch >= p.epoch
    ensures pause && p.users == 0 && PowerRun(p, steps, pause).users > 0 ==> PowerRun(p, steps, pause).epoch > p.epoch
  {
    if steps != [] {
      EpochGrows(p, steps[..|steps| - 1], pause);
    }
  }

  lemma {:induction false} PowerRunConcat(p: Power, a: seq<PowerStep>, b: seq<PowerStep>, pause: bool)
    ensures PowerRun(p, a + b, pause) == PowerRun(PowerRun(p, a, pause), b, pause)
  {
    if b == [] {
      assert a + b == a;
    } else {
      assert (a + b)[..|a + b| - 1] == a + b[..|b| - 1];
      PowerRunConcat(p, a, b[..|b| - 1], pause);
    }
  }

  /** Output that a depacketizer kept across a suspension is never accepted afterwards. */
  lemma RetainedVideoIsRefused(p: Power, before: seq<PowerStep>, after: seq<PowerStep>)
    requires PowerRun(p, before, true).users == 0
    ensures !Accepts(PowerRun(p, before + after, true), p.epoch, true)
  {
    PowerRunConcat(p, before, after, true);
    EpochGrows(p, before, true);
    EpochGrows(PowerRun(p, before, true), after, true);
  }

  // ---------------------------------------------------------------- leases

  /** The book of a layer's stream, and what decides about its video. */
  datatype LayerView = LayerView(book: Book, power: Power)

  function Entered(v: LayerView, l: Lease, pause: bool): LayerView {
    LayerView(SubscriberLeases.Acquire(v.book, l), Joined(v.power, pause))
  }

  function Returned(v: LayerView, l: Lease): LayerView { v.(book := SubscriberLeases.Release(v.book, l)) }

  function Left(v: LayerView, l: Lease, pause: bool): LayerView {
    Returned(v, l).(power := PowerAfter(v.power, PowerStep.Leave, pause))
  }

  /** A layer with a stream of its own. The best layer is the parent itself and is not one of these. */
  class Layer {
    const stream: Subscribers
    var users: nat
    var epoch: nat

    constructor (stream: Subscribers)
      ensures this.stream == stream && users == 0 && epoch == 1
    {
      this.stream, users, epoch := stream, 0, 1;
    }

    ghost function View(): LayerView
      reads this, stream
    {
      LayerView(stream.View(), Power(users, epoch))
    }

    /** One more subscriber; the first of a suspended layer starts a new epoch. */
    method Admit(protocol: string, generation: nat, gate: Gate, pause: bool) returns (ok: bool, ghost id: nat)
      requires stream.Valid()
      modifies this, stream
      ensures stream.Valid() && Below(old(stream.claims.leases), id) && (ok <==> gate.Lets(old(stream.View())))
      ensures !ok ==> View() == old(View()) && stream.claims.leases == old(stream.claims.leases)
      ensures ok ==>
                && View() == Entered(old(View()), Lease(protocol, generation), pause)
                && stream.claims.leases == old(stream.claims.leases)[id := Lease(protocol, generation)]
    {
      ok, id := stream.AddForGeneration(protocol, generation, gate.active, gate.max);
      if ok {
        if users == 0 && pause {
          epoch := epoch + 1;
        }
        users := users + 1;
      }
    }
  }

  /** Whether the generation is the stream's current one, and the stream's limit. */
  datatype Gate = Gate(active: bool, max: int) {
    predicate Lets(b: Book) { active && !Full(b, max) }
  }

  /**
   * Where the goroutine of a subscription stands between two locks. Acquiring: the parent's budget
   * is reserved, the family was found open, the layer has admitted it. Releasing: it is no longer
   * a user of its layer, the layer's booking is returned, the parent's is. A subscription to the
   * best layer has no layer to enter and is `OnTop` instead of `Seated`.
   */
  datatype Stage = Reserved | Cleared | Seated | OnTop | Quitting | Away | Done

  /** A subscription, later its release closure. One to the best layer has no layer of its own. */
  class LayerLease {
    const layer: Layer?
    const protocol: string
    var stage: Stage

    constructor (layer: Layer?, protocol: string)
      ensures this.layer == layer && this.protocol == protocol && stage == Reserved
    {
      this.layer, this.protocol, stage := layer, protocol, Reserved;
    }
  }

  ghost function On(leases: set<LayerLease>, layer: Layer): set<LayerLease> {
    set l | l in leases && l.layer == layer
  }

  lemma OnMore(leases: set<LayerLease>, l: LayerLease, layer: Layer)
    requires l !in leases
    ensures |On(leases + {l}, layer)| == |On(leases, layer)| + if l.layer == layer then 1 else 0
  {
    assert On(leases + {l}, layer) == if l.layer == layer then On(leases, layer) + {l} else On(leases, layer);
  }

  lemma OnLess(leases: set<LayerLease>, l: LayerLease, layer: Layer)
    requires l in leases
    ensures |On(leases - {l}, layer)| == |On(leases, layer)| - if l.layer == layer then 1 else 0
  {
    assert On(leases - {l}, layer) == if l.layer == layer then On(leases, layer) - {l} else On(leases, layer);
  }

  /** Each subscription is booked with the parent under an identity of its own. */
  ghost predicate ParentBooked(ids: map<LayerLease, nat>, leases: map<nat, Lease>, generation: nat) {
    && (forall l :: l in ids ==> ids[l] in leases && leases[ids[l]] == Lease(l.protocol, generation))
    && (forall l, m :: l in ids && m in ids && l != m ==> ids[l] != ids[m])
  }

  /** Each one on a layer is booked with that layer's stream under an identity of its own. */
  ghost predicate ChildBooked(ids: map<LayerLease, nat>, layer: Layer, leases: map<nat, Lease>, generation: nat) {
    && (forall l :: l in ids && l.layer == layer ==> ids[l] in leases && leases[ids[l]] == Lease(l.protocol, generation))
    && (forall l, m :: l in ids && m in ids && l != m && l.layer == m.layer == layer ==> ids[l] != ids[m])
  }

  ghost predicate Below(leases: map<nat, Lease>, next: nat) { forall k :: k in leases ==> k < next }

  lemma EnterParent(ids: map<LayerLease, nat>, l: LayerLease, id: nat, leases: map<nat, Lease>, generation: nat)
    requires ParentBooked(ids, leases, generation) && Below(leases, id) && l !in ids
    ensures ParentBooked(ids[l := id], leases[id := Lease(l.protocol, generation)], generation)
  {
  }

  lemma LeaveParent(ids: map<LayerLease, nat>, l: LayerLease, leases: map<nat, Lease>, generation: nat)
    requires ParentBooked(ids, leases, generation) && l in ids
    ensures ParentBooked(ids - {l}, leases - {ids[l]}, generation)
  {
  }

  lemma EnterChild(ids: map<LayerLease, nat>, l: LayerLease, id: nat, layer: Layer, leases: map<nat, Lease>, generation: nat)
    requires ChildBooked(ids, layer, leases, generation) && Below(leases, id) && l !in ids && l.layer == layer
    ensures ChildBooked(ids[l := id], layer, leases[id := Lease(l.protocol, generation)], generation)
  {
  }

  lemma LeaveChild(ids: map<LayerLease, nat>, l: LayerLease, layer: Layer, leases: map<nat, Lease>, generation: nat)
    requires ChildBooked(ids, layer, leases, generation) && l in ids && l.layer == layer
    ensures ChildBooked(ids - {l}, layer, leases - {ids[l]}, generation)
  {
  }

  /** A new subscription, the next step of one, the end of the generation, or somebody who uses
      the parent alone. */
  datatype Action =
    | Begin(selection: string, protocol: string, gate: Gate)
    | Advance(index: nat, gate_: Gate)
    | Leave(index_: nat)
    | Shut
    | Outside(protocol_: string, max: int, joins: bool)

  class Family {
    const parent: Subscribers
    const generation: nat
    const pause: bool
    /** The layers by rank; the first is the parent's own, all others are in `layers`. */
    const ordered: seq<string>
    const layers: map<string, Layer>
    var closed: bool
    /** The bookings of subscriptions that are not done, at the parent and at their layer. */
    ghost var parentIds: map<LayerLease, nat>
    ghost var childIds: map<LayerLease, nat>
    /** The subscriptions that count as users of their layer. */
    ghost var seated: set<LayerLease>

    ghost predicate Shape() {
      && |ordered| > 0 && ordered[0] !in layers
      && (forall i :: 1 <= i < |ordered| ==> ordered[i] in layers)
      && (forall r :: r in layers ==> layers[r].stream != parent)
      && (forall r, q :: r in layers && q in layers && r != q ==>
            layers[r] != layers[q] && layers[r].stream != layers[q].stream)
    }

    ghost function Streams(): set<Subscribers> { set r | r in layers :: layers[r].stream }

    /** A layer has exactly its seated subscriptions as users, and its stream has booked all that entered. */
    ghost predicate LayerOk(layer: Layer, ids: map<LayerLease, nat>, seats: set<LayerLease>)
      reads layer, layer.stream
    {
      && layer.stream.Valid() && layer.users == |On(seats, layer)|
      && ChildBooked(ids, layer, layer.stream.claims.leases, generation)
    }

    ghost predicate LayersOk(ids: map<LayerLease, nat>, seats: set<LayerLease>)
      reads layers.Values, Streams()
    {
      forall r :: r in layers ==> LayerOk(layers[r], ids, seats)
    }

    ghost predicate ParentOk(ids: map<LayerLease, nat>)
      reads parent
    {
      parent.Valid() && ParentBooked(ids, parent.claims.leases, generation)
    }

    /** The stage says which bookings a subscription holds. */
    ghost predicate StageFits(stage: Stage, layer: Layer?, booked: bool, seat: bool) {
      && stage != Done && (layer != null ==> layer in layers.Values)
      && (booked <==> stage == Seated || stage == Quitting) && (seat <==> stage == Seated)
      && (layer == null ==> stage == Reserved || stage == OnTop || stage == Away)
      && (layer != null ==> stage != OnTop)
    }

    ghost predicate StageOk(l: LayerLease, ids: map<LayerLease, nat>, seats: set<LayerLease>)
      reads l
    {
      StageFits(l.stage, l.layer, l in ids, l in seats)
    }

    ghost predicate StagesOk(all: set<LayerLease>, ids: map<LayerLease, nat>, seats: set<LayerLease>)
      reads all
    {
      ids.Keys <= all && seats <= ids.Keys && forall l :: l in all ==> StageOk(l, ids, seats)
    }

    ghost predicate Valid()
      reads this, parent, layers.Values, Streams(), parentIds.Keys
    {
      Shape() && ParentOk(parentIds) && StagesOk(parentIds.Keys, childIds, seated) && LayersOk(childIds, seated)
    }

    constructor (parent: Subscribers, generation: nat, pause: bool, ordered: seq<string>, layers: map<string, Layer>)
      requires |ordered| > 0 && ordered[0] !in layers && (forall i :: 1 <= i < |ordered| ==> ordered[i] in layers)
      requires forall r :: r in layers ==> layers[r].stream != parent
      requires forall r, q :: r in layers && q in layers && r != q ==>
                 layers[r] != layers[q] && layers[r].stream != layers[q].stream
      requires parent.Valid() && forall r :: r in layers ==> layers[r].stream.Valid() && layers[r].users == 0
      ensures Valid() && !closed && parentIds == map[]
      ensures this.parent == parent && this.generation == generation && this.pause == pause
      ensures this.ordered == ordered && this.layers == layers
    {
      this.parent, this.generation, this.pause, this.ordered, this.layers := parent, generation, pause, ordered, layers;
      closed, parentIds, childIds, seated := false, map[], map[], {};
      new;
      forall r | r in layers ensures LayerOk(layers[r], map[], {}) {
        assert On({}, layers[r]) == {};
      }
    }

    function Resolve(selection: string): string
      requires Shape()
    {
      if selection == "" || selection == "auto" || selection == "high" then ordered[0]
      else if selection == "low" then ordered[|ordered| - 1]
      else selection
    }

    predicate Known(rid: string)
      requires Shape()
    {
      rid == ordered[0] || rid in layers
    }

    function LayerAt(rid: string): Layer? { if rid in layers then layers[rid] else null }

    /** What a subscription to a layer may change besides the parent's book. */
    ghost function Target(rid: string): set<object> {
      if rid in layers then {layers[rid], layers[rid].stream} else {}
    }

    // -------------------------------------------------------------- steps of acquiring

    /** Reserves the parent's budget. */
    method Reserve(selection: string, protocol: string, gate: Gate) returns (lease: LayerLease?)
      requires Valid()
      modifies this`parentIds, parent
      ensures Valid() && (lease != null <==> Known(Resolve(selection)) && gate.Lets(old(parent.View())))
      ensures lease == null ==> parentIds == old(parentIds) && parent.View() == old(parent.View())
      ensures lease != null ==>
                && fresh(lease) && lease.stage == Reserved && lease.protocol == protocol
                && lease.layer == LayerAt(Resolve(selection)) && lease in parentIds && parentIds - {lease} == old(parentIds)
                && parent.View() == SubscriberLeases.Acquire(old(parent.View()), Lease(protocol, generation))
    {
      var rid := Resolve(selection);
      if !Known(rid) {
        return null;
      }
      ghost var leases := parent.claims.leases;
      var ok;
      ghost var id;
      ok, id := Book(protocol, gate);
      if !ok {
        return null;
      }
      lease := Enlist(LayerAt(rid), protocol, id, leases);
    }

    /** The parent's admission. No subscription depends on the new booking. */
    method Book(protocol: string, gate: Gate) returns (ok: bool, ghost id: nat)
      requires Valid()
      modifies parent
      ensures Valid() && Below(old(parent.claims.leases), id) && (ok <==> gate.Lets(old(parent.View())))
      ensures !ok ==> parent.View() == old(parent.View())
      ensures ok ==>
                && parent.View() == SubscriberLeases.Acquire(old(parent.View()), Lease(protocol, generation))
                && parent.claims.leases == old(parent.claims.leases)[id := Lease(protocol, generation)]
    {
      ok, id := parent.AddForGeneration(protocol, generation, gate.active, gate.max);
    }

    method Enlist(layer: Layer?, protocol: string, ghost id: nat, ghost leases: map<nat, Lease>) returns (lease: LayerLease)
      requires Valid() && (layer != null ==> layer in layers.Values)
      requires ParentBooked(parentIds, leases, generation) && Below(leases, id)
      requires parent.claims.leases == leases[id := Lease(protocol, generation)]
      modifies this`parentIds
      ensures Valid() && fresh(lease) && lease.stage == Reserved && lease.protocol == protocol && lease.layer == layer
      ensures lease in parentIds && parentIds - {lease} == old(parentIds)
    {
      lease := new LayerLease(layer, protocol);
      EnterParent(parentIds, lease, id, leases, generation);
      parentIds := parentIds[lease := id];
    }

    /** Looks whether the generation has ended meanwhile. */
    method Test(lease: LayerLease)
      requires Valid() && lease in parentIds && lease.stage == Reserved
      modifies lease`stage, this`childIds, this`seated
      ensures Valid() && lease.stage == if closed then Away else if lease.layer == null then OnTop else Cleared
    {
      assert StageOk(lease, childIds, seated);
      Move(lease, if closed then Away else if lease.layer == null then OnTop else Cleared, childIds, seated);
    }

    /** The layers but one. */
    ghost predicate OthersOk(rid: string, ids: map<LayerLease, nat>, seats: set<LayerLease>)
      reads layers.Values, Streams()
    {
      forall r :: r in layers && r != rid ==> LayerOk(layers[r], ids, seats)
    }

    /** Bookings and seats that only differ for one subscription concern its own layer only. */
    lemma OtherLayerKeeps(layer: Layer, ids: map<LayerLease, nat>, seats: set<LayerLease>, lease: LayerLease,
                          now: map<LayerLease, nat>, seatsNow: set<LayerLease>)
      requires LayerOk(layer, ids, seats) && lease.layer != layer
      requires now - {lease} == ids - {lease} && seatsNow - {lease} == seats - {lease}
      ensures LayerOk(layer, now, seatsNow)
    {
      forall l: LayerLease | l.layer == layer ensures l in seatsNow <==> l in seats {
        assert l in seatsNow - {lease} <==> l in seats - {lease};
      }
      assert On(seatsNow, layer) == On(seats, layer);
      forall l | l in now && l.layer == layer ensures l in ids && now[l] == ids[l] {
        assert l in now - {lease} && (now - {lease})[l] == (ids - {lease})[l];
      }
    }

    lemma OthersKeep(rid: string, ids: map<LayerLease, nat>, seats: set<LayerLease>, lease: LayerLease,
                     now: map<LayerLease, nat>, seatsNow: set<LayerLease>)
      requires Shape() && OthersOk(rid, ids, seats) && rid in layers && lease.layer == layers[rid]
      requires now - {lease} == ids - {lease} && seatsNow - {lease} == seats - {lease}
      ensures OthersOk(rid, now, seatsNow)
    {
      forall r | r in layers && r != rid ensures LayerOk(layers[r], now, seatsNow) {
        OtherLayerKeeps(layers[r], ids, seats, lease, now, seatsNow);
      }
    }

    /** All but the layer of one subscription is in order. */
    ghost predicate ValidBut(rid: string)
      reads this, parent, layers.Values, Streams(), parentIds.Keys
    {
      Shape() && ParentOk(parentIds) && StagesOk(parentIds.Keys, childIds, seated) && OthersOk(rid, childIds, seated)
    }

    lemma WithLayer(rid: string, ids: map<LayerLease, nat>, seats: set<LayerLease>)
      requires rid in layers && OthersOk(rid, ids, seats) && LayerOk(layers[rid], ids, seats)
      ensures LayersOk(ids, seats)
    {
    }

    lemma OtherStages(all: set<LayerLease>, lease: LayerLease, ids: map<LayerLease, nat>, seats: set<LayerLease>,
                      now: map<LayerLease, nat>, seatsNow: set<LayerLease>)
      requires StagesOk(all, ids, seats) && lease in all
      requires now - {lease} == ids - {lease} && seatsNow - {lease} == seats - {lease} && (lease in seatsNow ==> lease in now)
      ensures now.Keys <= all && seatsNow <= now.Keys
      ensures forall l :: l in all && l != lease ==> StageOk(l, now, seatsNow)
    {
      forall l | l in all && l != lease ensures StageOk(l, now, seatsNow) {
        assert StageOk(l, ids, seats);
        assert (l in now <==> l in now - {lease}) && (l in ids <==> l in ids - {lease});
        assert (l in seatsNow <==> l in seatsNow - {lease}) && (l in seats <==> l in seats - {lease});
      }
      forall l | l in now.Keys ensures l in all {
        assert l != lease ==> l in now - {lease} && l in ids - {lease};
      }
      forall l | l in seatsNow ensures l in now.Keys {
        assert l != lease ==> l in seatsNow - {lease} && l in seats - {lease} && l in ids - {lease};
      }
    }

    /** A subscription goes to another stage and its bookings with it. */
    method Move(lease: LayerLease, stage: Stage, ghost ids: map<LayerLease, nat>, ghost seats: set<LayerLease>)
      requires Shape() && ParentOk(parentIds) && StagesOk(parentIds.Keys, childIds, seated) && LayersOk(ids, seats)
      requires lease in parentIds && StageFits(stage, lease.layer, lease in ids, lease in seats)
      requires ids - {lease} == childIds - {lease} && seats - {lease} == seated - {lease}
      modifies lease`stage, this`childIds, this`seated
      ensures Valid() && lease.stage == stage
    {
      OtherStages(parentIds.Keys, lease, childIds, seated, ids, seats);
      childIds, seated := ids, seats;
      Mark(lease, stage, parentIds.Keys, ids, seats);
    }

    method Mark(lease: LayerLease, stage: Stage, ghost all: set<LayerLease>, ghost ids: map<LayerLease, nat>,
                ghost seats: set<LayerLease>)
      requires ids.Keys <= all && seats <= ids.Keys && StageFits(stage, lease.layer, lease in ids, lease in seats)
      requires forall l :: l in all && l != lease ==> StageOk(l, ids, seats)
      modifies lease`stage
      ensures StagesOk(all, ids, seats) && lease.stage == stage
    {
      lease.stage := stage;
    }

    /** The layer's own admission; its first user wakes it. */
    method Seat(lease: LayerLease, layer: Layer, gate: Gate)
      requires Valid() && lease in parentIds && lease.stage == Cleared && lease.layer == layer
      modifies lease`stage, this`childIds, this`seated, layer, layer.stream
      ensures Valid() && lease.stage == if gate.Lets(old(layer.stream.View())) then Seated else Away
      ensures lease.stage == Away ==> layer.View() == old(layer.View())
      ensures lease.stage == Seated ==>
                layer.View() == Entered(old(layer.View()), Lease(lease.protocol, generation), pause)
    {
      ghost var rid :| rid in layers && layers[rid] == layer;
      ghost var leases := layer.stream.claims.leases;
      assert LayerOk(layer, childIds, seated);
      var ok;
      ghost var id;
      ok, id := AdmitTo(layer, rid, lease.protocol, gate);
      if ok {
        TakeSeat(lease, layer, rid, id, leases);
      } else {
        Refuse(lease, layer);
      }
    }

    method AdmitTo(layer: Layer, ghost rid: string, protocol: string, gate: Gate) returns (ok: bool, ghost id: nat)
      requires Valid() && rid in layers && layer == layers[rid]
      modifies layer, layer.stream
      ensures ValidBut(rid) && layer.stream.Valid() && Below(old(layer.stream.claims.leases), id)
      ensures ok <==> gate.Lets(old(layer.stream.View()))
      ensures !ok ==>
                Valid() && layer.View() == old(layer.View())
      ensures ok ==>
                && layer.View() == Entered(old(layer.View()), Lease(protocol, generation), pause)
                && layer.stream.claims.leases == old(layer.stream.claims.leases)[id := Lease(protocol, generation)]
    {
      assert LayerOk(layer, childIds, seated);
      ok, id := layer.Admit(protocol, generation, gate, pause);
    }

    method Refuse(lease: LayerLease, ghost layer: Layer)
      requires Valid() && lease in parentIds && lease.stage == Cleared && lease.layer == layer
      modifies lease`stage, this`childIds, this`seated
      ensures Valid() && lease.stage == Away && layer.View() == old(layer.View())
    {
      assert StageOk(lease, childIds, seated);
      Move(lease, Away, childIds, seated);
    }

    lemma OneMoreSeat(lease: LayerLease, layer: Layer, rid: string, id: nat, leases: map<nat, Lease>)
      requires Shape() && rid in layers && layer == layers[rid] == lease.layer && OthersOk(rid, childIds, seated)
      requires layer.stream.Valid() && layer.users == |On(seated, layer)| + 1 && lease !in childIds && lease !in seated
      requires ChildBooked(childIds, layer, leases, generation) && Below(leases, id)
      requires layer.stream.claims.leases == leases[id := Lease(lease.protocol, generation)]
      ensures LayersOk(childIds[lease := id], seated + {lease})
      ensures childIds[lease := id] - {lease} == childIds - {lease} && seated + {lease} - {lease} == seated - {lease}
    {
      EnterChild(childIds, lease, id, layer, leases, generation);
      OnMore(seated, lease, layer);
      OthersKeep(rid, childIds, seated, lease, childIds[lease := id], seated + {lease});
      WithLayer(rid, childIds[lease := id], seated + {lease});
    }

    method TakeSeat(lease: LayerLease, layer: Layer, ghost rid: string, ghost id: nat, ghost leases: map<nat, Lease>)
      requires ValidBut(rid) && rid in layers && layer == layers[rid] == lease.layer
      requires lease in parentIds && lease.stage == Cleared
      requires layer.stream.Valid() && layer.users == |On(seated, layer)| + 1
      requires ChildBooked(childIds, layer, leases, generation) && Below(leases, id)
      requires layer.stream.claims.leases == leases[id := Lease(lease.protocol, generation)]
      modifies lease`stage, this`childIds, this`seated
      ensures Valid() && lease.stage == Seated && layer.View() == old(layer.View())
    {
      assert StageOk(lease, childIds, seated);
      OneMoreSeat(lease, layer, rid, id, leases);
      Move(lease, Seated, childIds[lease := id], seated + {lease});
    }

    // -------------------------------------------------------------- steps of releasing

    /** The subscription is no longer a user of its layer. */
    method Quit(lease: LayerLease, layer: Layer)
      requires Valid() && lease in parentIds && lease.stage == Seated && lease.layer == layer
      modifies lease`stage, this`childIds, this`seated, layer`users
      ensures Valid() && lease.stage == Quitting && layer.users == old(layer.users) - 1
    {
      ghost var rid :| rid in layers && layers[rid] == layer;
      assert LayerOk(layer, childIds, seated) && StageOk(lease, childIds, seated);
      SeatIsTaken(lease, layer);
      Discount(layer, rid);
      LeaveSeat(lease, layer, rid);
    }

    method Discount(layer: Layer, ghost rid: string)
      requires Valid() && rid in layers && layer == layers[rid] && layer.users > 0
      modifies layer`users
      ensures ValidBut(rid) && layer.users == old(layer.users) - 1
    {
      layer.users := layer.users - 1;
    }

    method LeaveSeat(lease: LayerLease, layer: Layer, ghost rid: string)
      requires ValidBut(rid) && rid in layers && layer == layers[rid] == lease.layer
      requires lease in parentIds && lease.stage == Seated
      requires layer.stream.Valid() && layer.users == |On(seated, layer)| - 1
      requires ChildBooked(childIds, layer, layer.stream.claims.leases, generation)
      modifies lease`stage, this`childIds, this`seated
      ensures Valid() && lease.stage == Quitting
    {
      assert StageOk(lease, childIds, seated);
      OnLess(seated, lease, layer);
      OthersKeep(rid, childIds, seated, lease, childIds, seated - {lease});
      WithLayer(rid, childIds, seated - {lease});
      Move(lease, Quitting, childIds, seated - {lease});
    }

    lemma SeatIsTaken(lease: LayerLease, layer: Layer)
      requires lease in seated && lease.layer == layer
      ensures |On(seated, layer)| > 0
    {
      assert lease in On(seated, layer);
    }

    /** The layer's booking is returned. */
    method ReturnChild(lease: LayerLease, layer: Layer)
      requires Valid() && lease in parentIds && lease.stage == Quitting && lease.layer == layer
      modifies lease`stage, this`childIds, this`seated, layer.stream
      ensures Valid() && lease.stage == Away
      ensures layer.View() == Returned(old(layer.View()), Lease(lease.protocol, generation))
    {
      ghost var rid :| rid in layers && layers[rid] == layer;
      ghost var leases := layer.stream.claims.leases;
      assert LayerOk(layer, childIds, seated) && StageOk(lease, childIds, seated);
      ghost var id := childIds[lease];
      assert id in leases && leases[id] == Lease(lease.protocol, generation);
      TakeBack(layer, rid, lease.protocol, id);
      GoAway(lease, layer, rid, leases);
    }

    method TakeBack(layer: Layer, ghost rid: string, protocol: string, ghost id: nat)
      requires Valid() && rid in layers && layer == layers[rid] && layer.stream.Valid()
      requires id in layer.stream.claims.leases && layer.stream.claims.leases[id] == Lease(protocol, generation)
      modifies layer.stream
      ensures ValidBut(rid) && layer.stream.Valid()
      ensures layer.stream.claims.leases == old(layer.stream.claims.leases) - {id}
      ensures layer.View() == Returned(old(layer.View()), Lease(protocol, generation))
    {
      layer.stream.RemoveForGeneration(protocol, generation, id);
    }

    method GoAway(lease: LayerLease, layer: Layer, ghost rid: string, ghost leases: map<nat, Lease>)
      requires ValidBut(rid) && rid in layers && layer == layers[rid] == lease.layer
      requires lease in parentIds && lease in childIds && lease.stage == Quitting
      requires layer.stream.Valid() && layer.users == |On(seated, layer)|
      requires ChildBooked(childIds, layer, leases, generation)
      requires layer.stream.claims.leases == leases - {childIds[lease]}
      modifies lease`stage, this`childIds, this`seated
      ensures Valid() && lease.stage == Away
    {
      assert StageOk(lease, childIds, seated);
      LeaveChild(childIds, lease, layer, leases, generation);
      OthersKeep(rid, childIds, seated, lease, childIds - {lease}, seated);
      WithLayer(rid, childIds - {lease}, seated);
      Move(lease, Away, childIds - {lease}, seated);
    }

    /** The parent's booking is returned, by a release or by an acquisition that failed. */
    method ReturnParent(lease: LayerLease)
      requires Valid() && lease in parentIds && (lease.stage == Away || lease.stage == OnTop)
      modifies lease`stage, this`parentIds, parent
      ensures Valid() && lease.stage == Done && parentIds == old(parentIds) - {lease}
      ensures parent.View() == SubscriberLeases.Release(old(parent.View()), Lease(lease.protocol, generation))
    {
      LeaveParent(parentIds, lease, parent.claims.leases, generation);
      parent.RemoveForGeneration(lease.protocol, generation, parentIds[lease]);
      lease.stage := Done;
      parentIds := parentIds - {lease};
    }

    /** The publisher generation ends. */
    method Shut()
      requires Valid()
      modifies this`closed
      ensures Valid() && closed
    {
      closed := true;
    }

    /** Somebody joins or leaves the parent by protocol name. */
    method Outsider(protocol: string, max: int, joins: bool)
      requires Valid()
      modifies parent
      ensures Valid()
    {
      if joins {
        var _ := parent.AddSubscriber(protocol, max);
      } else {
        parent.RemoveSubscriber(protocol);
      }
    }

    // -------------------------------------------------------------- without interruption

    /**
     * Reserves the parent's budget, then the layer's. Whatever fails, both books and the layer
     * are as before. Layers other than the selected one are not touched.
     */
    method Acquire(selection: string, protocol: string, parentGate: Gate, childGate: Gate) returns (lease: LayerLease?)
      requires Valid()
      modifies this`parentIds, this`childIds, this`seated, parent, Target(Resolve(selection))
      ensures Valid()
      ensures lease == null ==> parentIds == old(parentIds) && parent.View() == old(parent.View())
      ensures lease == null && Resolve(selection) in layers ==>
                layers[Resolve(selection)].View() == old(layers[Resolve(selection)].View())
      ensures lease != null <==>
                && !closed && parentGate.Lets(old(parent.View()))
                && (Resolve(selection) == ordered[0] ||
                    (Resolve(selection) in layers && childGate.Lets(old(layers[Resolve(selection)].stream.View()))))
      ensures lease != null ==>
                && fresh(lease) && lease in parentIds && parentIds - {lease} == old(parentIds) && lease.protocol == protocol
                && lease.layer == LayerAt(Resolve(selection)) && lease.stage == (if lease.layer == null then OnTop else Seated)
                && parent.View() == SubscriberLeases.Acquire(old(parent.View()), Lease(protocol, generation))
      ensures lease != null && Resolve(selection) in layers ==>
                layers[Resolve(selection)].View()
                == Entered(old(layers[Resolve(selection)].View()), Lease(protocol, generation), pause)
    {
      if Resolve(selection) in layers {
        lease := AcquireLayer(layers[Resolve(selection)], selection, protocol, parentGate, childGate);
      } else {
        lease := AcquireTop(selection, protocol, parentGate);
      }
    }

    method AcquireTop(selection: string, protocol: string, gate: Gate) returns (lease: LayerLease?)
      requires Valid() && Resolve(selection) !in layers
      modifies this`parentIds, this`childIds, this`seated, parent
      ensures Valid()
      ensures lease == null ==> parentIds == old(parentIds) && parent.View() == old(parent.View())
      ensures lease != null <==> !closed && gate.Lets(old(parent.View())) && Resolve(selection) == ordered[0]
      ensures lease != null ==>
                && fresh(lease) && lease in parentIds && parentIds - {lease} == old(parentIds) && lease.protocol == protocol
                && lease.layer == null && lease.stage == OnTop
                && parent.View() == SubscriberLeases.Acquire(old(parent.View()), Lease(protocol, generation))
    {
      ReleaseUndoesAcquire(parent.View(), Lease(protocol, generation));
      lease := Reserve(selection, protocol, gate);
      if lease == null {
        return;
      }
      Test(lease);
      if lease.stage == Away {
        ReturnParent(lease);
        lease := null;
      }
    }

    method AcquireLayer(layer: Layer, selection: string, protocol: string, parentGate: Gate, childGate: Gate)
      returns (lease: LayerLease?)
      requires Valid() && Resolve(selection) in layers && layer == layers[Resolve(selection)]
      modifies this`parentIds, this`childIds, this`seated, parent, layer, layer.stream
      ensures Valid()
      ensures lease == null ==>
                && parentIds == old(parentIds) && parent.View() == old(parent.View())
                && layer.View() == old(layer.View())
      ensures lease != null <==>
                !closed && parentGate.Lets(old(parent.View())) && childGate.Lets(old(layer.stream.View()))
      ensures lease != null ==>
                && fresh(lease) && lease in parentIds && parentIds - {lease} == old(parentIds) && lease.protocol == protocol
                && lease.layer == layer && lease.stage == Seated
                && parent.View() == SubscriberLeases.Acquire(old(parent.View()), Lease(protocol, generation))
                && layer.View() == Entered(old(layer.View()), Lease(protocol, generation), pause)
    {
      ReleaseUndoesAcquire(parent.View(), Lease(protocol, generation));
      ghost var was, book := layer.View(), parent.View();
      lease := Reserve(selection, protocol, parentGate);
      assert layer.View() == was;
      if lease == null {
        return;
      }
      assert parent.View() == SubscriberLeases.Acquire(book, Lease(protocol, generation));
      var ok := EnterOrReturn(lease, layer, childGate);
      if !ok {
        lease := null;
      }
    }

    method EnterOrReturn(lease: LayerLease, layer: Layer, gate: Gate) returns (ok: bool)
      requires Valid() && lease in parentIds && lease.stage == Reserved && lease.layer == layer && layer in layers.Values
      modifies this`parentIds, this`childIds, this`seated, parent, lease`stage, layer, layer.stream
      ensures Valid() && (ok <==> !closed && gate.Lets(old(layer.View()).book))
      ensures ok ==>
                && lease.stage == Seated && parentIds == old(parentIds) && parent.View() == old(parent.View())
                && layer.View() == Entered(old(layer.View()), Lease(lease.protocol, generation), pause)
      ensures !ok ==>
                && parentIds == old(parentIds) - {lease} && layer.View() == old(layer.View())
                && parent.View() == SubscriberLeases.Release(old(parent.View()), Lease(lease.protocol, generation))
    {
      ghost var book := parent.View();
      Enter(lease, layer, gate);
      assert parent.View() == book;
      ok := lease.stage == Seated;
      if !ok {
        GiveUp(lease, layer);
      }
    }

    method GiveUp(lease: LayerLease, ghost layer: Layer)
      requires Valid() && lease in parentIds && lease.stage == Away && layer in layers.Values
      modifies this`parentIds, parent, lease`stage
      ensures Valid() && parentIds == old(parentIds) - {lease} && layer.View() == old(layer.View())
      ensures parent.View() == SubscriberLeases.Release(old(parent.View()), Lease(lease.protocol, generation))
    {
      ReturnParent(lease);
    }

    /** From the reservation to the layer. */
    method Enter(lease: LayerLease, layer: Layer, gate: Gate)
      requires Valid() && lease in parentIds && lease.stage == Reserved && lease.layer == layer
      modifies this`childIds, this`seated, lease`stage, layer, layer.stream
      ensures Valid() && lease.stage == if !closed && gate.Lets(old(layer.stream.View())) then Seated else Away
      ensures lease.stage == Away ==> layer.View() == old(layer.View())
      ensures lease.stage == Seated ==>
                layer.View() == Entered(old(layer.View()), Lease(lease.protocol, generation), pause)
    {
      TestFor(lease, layer);
      if lease.stage == Cleared {
        Seat(lease, layer, gate);
      }
    }

    method TestFor(lease: LayerLease, ghost layer: Layer)
      requires Valid() && lease in parentIds && lease.stage == Reserved && lease.layer == layer
      modifies lease`stage, this`childIds, this`seated
      ensures Valid() && lease.stage == (if closed then Away else Cleared) && layer.View() == old(layer.View())
    {
      Test(lease);
    }

    /** Gives up the layer and both leases, once. Other layers are not touched. */
    method Release(lease: LayerLease)
      requires Valid() && (lease.stage == Done || (lease in parentIds && (lease.stage == Seated || lease.stage == OnTop)))
      modifies this`parentIds, this`childIds, this`seated, parent, lease`stage,
               if lease.layer != null then {lease.layer, lease.layer.stream} else {}
      ensures Valid() && lease.stage == Done && parentIds == old(parentIds) - {lease}
      ensures old(lease.stage) == Done ==> parent.View() == old(parent.View())
      ensures old(lease.stage) != Done ==>
                parent.View() == SubscriberLeases.Release(old(parent.View()), Lease(lease.protocol, generation))
      ensures lease.layer != null && old(lease.stage) == Done ==>
                lease.layer.View() == old(lease.layer.View())
      ensures lease.layer != null && old(lease.stage) != Done ==>
                lease.layer.View() == Left(old(lease.layer.View()), Lease(lease.protocol, generation), pause)
    {
      if lease.stage == Done {
        DoneIsGone(lease);
        return;
      }
      assert StageOk(lease, childIds, seated);
      if lease.layer != null {
        LeaveLayer(lease, lease.layer);
      }
      ReturnParent(lease);
    }

    method LeaveLayer(lease: LayerLease, layer: Layer)
      requires Valid() && lease in parentIds && lease.stage == Seated && lease.layer == layer
      modifies this`childIds, this`seated, lease`stage, layer, layer.stream
      ensures Valid() && lease.stage == Away
      ensures layer.View() == Left(old(layer.View()), Lease(lease.protocol, generation), pause)
    {
      ghost var was := layer.View();
      Quit(lease, layer);
      ghost var now := layer.View();
      assert now.book == was.book && now.power == PowerAfter(was.power, PowerStep.Leave, pause);
      ReturnChild(lease, layer);
    }

    lemma DoneIsGone(lease: LayerLease)
      requires Valid() && lease.stage == Done
      ensures parentIds - {lease} == parentIds
    {
      assert forall l :: l in parentIds ==> StageOk(l, childIds, seated);
    }

    /** Subscribing and leaving again restores every book, whatever else is open. */
    method SubscribeAndLeave(selection: string, protocol: string, parentGate: Gate, childGate: Gate)
      requires Valid()
      modifies this`parentIds, this`childIds, this`seated, parent, Target(Resolve(selection))
      ensures Valid() && parentIds == old(parentIds) && parent.View() == old(parent.View())
      ensures Resolve(selection) in layers ==>
                && layers[Resolve(selection)].stream.View() == old(layers[Resolve(selection)].stream.View())
                && layers[Resolve(selection)].users == old(layers[Resolve(selection)].users)
    {
      ReleaseUndoesAcquire(parent.View(), Lease(protocol, generation));
      if Resolve(selection) in layers {
        ReleaseUndoesAcquire(layers[Resolve(selection)].stream.View(), Lease(protocol, generation));
      }
      var lease := Acquire(selection, protocol, parentGate, childGate);
      if lease != null {
        Release(lease);
      }
    }

    // -------------------------------------------------------------- every interleaving

    ghost predicate Tracked(l: LayerLease)
      reads this, l
    {
      l in parentIds || l.stage == Done
    }

    /** The next step of a subscription that is coming or going; one that is there stays. */
    method Proceed(lease: LayerLease, gate: Gate)
      requires Valid() && Tracked(lease)
      modifies this`parentIds, this`childIds, this`seated, parent, lease`stage, layers.Values, Streams()
      ensures Valid() && Tracked(lease) && forall l :: l != lease ==> (l in parentIds <==> l in old(parentIds))
    {
      if lease.stage != Done {
        assert StageOk(lease, childIds, seated);
      }
      match lease.stage
      case Reserved => Test(lease);
      case Cleared => Seat(lease, lease.layer, gate);
      case Quitting => ReturnChild(lease, lease.layer);
      case Away => ReturnParent(lease);
      case _ =>
    }

    /** A subscription that is there begins to leave. */
    method BeginLeaving(lease: LayerLease)
      requires Valid() && Tracked(lease)
      modifies this`parentIds, this`childIds, this`seated, parent, lease`stage, layers.Values, Streams()
      ensures Valid() && Tracked(lease) && forall l :: l != lease ==> (l in parentIds <==> l in old(parentIds))
    {
      if lease.stage == Seated {
        assert StageOk(lease, childIds, seated);
        Quit(lease, lease.layer);
      } else if lease.stage == OnTop {
        ReturnParent(lease);
      }
    }

    /** These are all subscriptions there ever were. */
    ghost predicate Covers(leases: seq<LayerLease>)
      reads this, leases
    {
      (forall l :: l in leases ==> Tracked(l)) && forall l :: l in parentIds ==> l in leases
    }

    method Join(leases: seq<LayerLease>, selection: string, protocol: string, gate: Gate) returns (now: seq<LayerLease>)
      requires Valid() && Covers(leases)
      modifies this`parentIds, parent
      ensures Valid() && Covers(now) && leases <= now && forall i :: |leases| <= i < |now| ==> fresh(now[i])
    {
      now := leases;
      var lease := Reserve(selection, protocol, gate);
      if lease != null {
        now := leases + [lease];
        assert forall l :: l in parentIds ==> l == lease || l in parentIds - {lease};
        assert forall l :: l in old(parentIds) ==> l in parentIds - {lease};
      }
    }

    method Go(lease: LayerLease, ghost leases: seq<LayerLease>, leaving: bool, gate: Gate)
      requires Valid() && Covers(leases) && lease in leases
      modifies this`parentIds, this`childIds, this`seated, parent, layers.Values, Streams(), lease`stage
      ensures Valid() && Covers(leases)
    {
      if leaving {
        BeginLeaving(lease);
      } else {
        Proceed(lease, gate);
      }
    }

    method Act(leases: seq<LayerLease>, action: Action) returns (now: seq<LayerLease>)
      requires Valid() && Covers(leases)
      modifies this`closed, this`parentIds, this`childIds, this`seated, parent, layers.Values, Streams(), leases
      ensures Valid() && Covers(now) && leases <= now && forall i :: |leases| <= i < |now| ==> fresh(now[i])
    {
      now := leases;
      match action
      case Begin(selection, protocol, gate) =>
        now := Join(leases, selection, protocol, gate);
      case Advance(i, gate) =>
        if i < |leases| {
          Go(leases[i], leases, false, gate);
        }
      case Leave(i) =>
        if i < |leases| {
          Go(leases[i], leases, true, Gate(false, 0));
        }
      case Shut => Shut();
      case Outside(protocol, max, joins) => Outsider(protocol, max, joins);
    }

    /**
     * Any number of subscriptions come and go, step by step and in any order, while the generation
     * may end at any time: a layer's users are always those seated on it, and each booking is there
     * as long as its subscription needs it. Once all are done, no layer has users.
     */
    method Interleave(actions: seq<Action>) returns (leases: seq<LayerLease>)
      requires Valid() && parentIds == map[]
      modifies this`closed, this`parentIds, this`childIds, this`seated, parent, layers.Values, Streams()
      ensures Valid() && Covers(leases)
      ensures (forall l :: l in leases ==> l.stage == Done) ==> forall r :: r in layers ==> layers[r].users == 0
    {
      leases := [];
      for n := 0 to |actions|
        invariant Valid() && Covers(leases) && forall i :: 0 <= i < |leases| ==> fresh(leases[i])
      {
        leases := Act(leases, actions[n]);
      }
      AllDone(leases);
    }

    lemma AllDone(leases: seq<LayerLease>)
      requires Valid() && Covers(leases)
      ensures (forall l :: l in leases ==> l.stage == Done) ==> forall r :: r in layers ==> layers[r].users == 0
    {
      assert forall l :: l in seated ==> l in parentIds && StageOk(l, childIds, seated);
      forall r | r in layers ensures (forall l :: l in leases ==> l.stage == Done) ==> layers[r].users == 0 {
        assert LayerOk(layers[r], childIds, seated);
        assert (forall l :: l in leases ==> l.stage == Done) ==> On(seated, layers[r]) == {};
      }
    }
  }
}
