/** The stream core of core/stream.go at value level: every lock-protected body is
    one step of a state machine. The class in Stream.dfy implements these steps. */
module StreamModel {
  import opened Options
  import opened Frames
  import opened GopPolicy
  import opened GopCache
  import opened RingBuffer

  datatype Status = Idle | WaitingPull | Publishing | NoPublisher | Destroying

  /** A publisher object: `obj` is its identity, `id` its (possibly empty) stable ID. */
  datatype Publisher = Publisher(obj: nat, id: string, audioCodec: nat)

  /** One publisher generation and the ring interval it owns; `end` is the
      streamGenerationBoundary that snapshots keep a reference to. */
  datatype Generation = Generation(start: nat, end: Option<nat>, publisher: Publisher)

  /** A frame accepted through WriteFrameForPublisher. */
  datatype Accepted = Accepted(pos: nat, generation: nat, publisher: Publisher, frame: Frame)

  datatype State = State(
    policy: Policy,
    limited: bool,                // max_bitrate_per_stream is configured
    status: Status,
    publisher: Option<Publisher>,
    usedIds: set<string>,
    lastId: string,
    log: seq<Frame>,              // everything ever written to the ring
    capacity: nat,
    closed: bool,                 // the ring is closed
    cache: Cache,
    generations: seq<Generation>, // publisherGeneration is their number
    genStart: nat,
    audioCodec: nat,
    audioEpoch: nat,
    accepted: seq<Accepted>)

  function Initial(p: Policy, limited: bool, ringSize: int): State {
    State(p.Normalized(), limited, Idle, None, {}, "", [], if ringSize <= 0 then 1 else ringSize, false,
          EMPTY, [], 0, 0, 0, [])
  }

  // ------------------------------------------------------------------
  // Steps
  // ------------------------------------------------------------------

  predicate Open(s: State) { s.generations != [] && s.generations[|s.generations| - 1].end.None? }

  /** closeGenerationLocked */
  function CloseGeneration(s: State): State {
    if !Open(s) then s
    else
      var i := |s.generations| - 1;
      s.(generations := s.generations[i := s.generations[i].(end := Some(|s.log|))])
  }

  /** publisherMatchesLocked */
  predicate Matches(s: State, p: Publisher) {
    && s.status == Publishing && s.publisher.Some?
    && (if s.lastId != "" || p.id != "" then s.lastId != "" && s.lastId == p.id
        else s.publisher.value.obj == p.obj)
  }

  predicate MayPublish(s: State, p: Publisher) {
    s.status != Publishing && s.status != Destroying && (p.id == "" || p.id !in s.usedIds)
  }

  function SetPublisher(s: State, p: Publisher): State {
    if !MayPublish(s, p) then s
    else
      var c := CloseGeneration(s);
      c.(generations := c.generations + [Generation(|s.log|, None, p)],
         genStart := |s.log|, cache := EMPTY, publisher := Some(p), lastId := p.id, status := Publishing,
         audioCodec := p.audioCodec, audioEpoch := if p.audioCodec != 0 then 1 else 0,
         usedIds := if p.id != "" then s.usedIds + {p.id} else s.usedIds)
  }

  function RemovePublisher(s: State): State {
    if s.status == Destroying then s
    else CloseGeneration(s).(publisher := None, status := NoPublisher)
  }

  function RemovePublisherIf(s: State, p: Publisher): State {
    if Matches(s, p) then RemovePublisher(s) else s
  }

  function Close(s: State): State {
    if s.status == Destroying then s.(closed := true)
    else CloseGeneration(s).(publisher := None, usedIds := {}, status := Destroying, closed := true)
  }

  /** The no-publisher timer. */
  function NoPublisherTimeout(s: State): State {
    if s.status == NoPublisher then s.(usedIds := {}, status := Destroying) else s
  }

  /** The idle timer; `subscribers` is the subscriber total it observes. */
  function IdleTimeout(s: State, subscribers: nat): State {
    if s.publisher.None? && subscribers == 0 then s.(usedIds := {}, status := Destroying) else s
  }

  ghost function UpdatePolicy(s: State, p: Policy, limited: bool): State
    requires WellFormed(s.cache)
  {
    s.(policy := p.Normalized(), limited := limited, cache := Trimmed(p.Normalized(), s.cache))
  }

  /** resetSimulcastVideo */
  function ResetVideo(s: State): State { s.(cache := EMPTY) }

  /** Audio is stamped with the codec epoch it belongs to. */
  function EpochAfter(s: State, f: Frame): nat {
    if f.media == Audio && (s.audioEpoch == 0 || s.audioCodec != f.codec) then s.audioEpoch + 1 else s.audioEpoch
  }

  function Stamped(s: State, f: Frame): Frame {
    if f.media == Audio then f.(audioEpoch := EpochAfter(s, f)) else f
  }

  function CacheAfter(s: State, f: Frame): Cache
    requires WellFormed(s.cache)
  {
    if !s.policy.Enabled() then s.cache
    else if f.StartsGop() then Started(s.policy, s.cache, f, |s.log|)
    else if f.JoinsGop() then Joined(s.policy, s.cache, f, |s.log|)
    else s.cache
  }

  /** The bitrate limit refuses media, never headers; `over` is its measurement. */
  predicate Refused(s: State, f: Frame, over: bool) { s.limited && !f.IsHeader() && over }

  /** writeFrameLocked */
  function WriteFrame(s: State, f: Frame, over: bool): State
    requires WellFormed(s.cache)
  {
    if Refused(s, f, over) then s
    else
      var g := Stamped(s, f);
      s.(audioEpoch := EpochAfter(s, f), audioCodec := if f.media == Audio then f.codec else s.audioCodec,
         cache := CacheAfter(s, g), log := if s.closed then s.log else s.log + [g])
  }

  function WriteFrameForPublisher(s: State, p: Publisher, f: Frame, over: bool): State
    requires WellFormed(s.cache)
  {
    if !Matches(s, p) || Refused(s, f, over) then s
    else
      var w := WriteFrame(s, f, over);
      w.(accepted := s.accepted + [Accepted(|s.log|, |s.generations|, p, Stamped(s, f))])
  }

  // ------------------------------------------------------------------
  // Startup snapshots
  // ------------------------------------------------------------------

  datatype Snapshot = Snapshot(generation: nat, genStart: nat, replay: seq<Frame>, source: nat, live: nat, audioEpoch: nat)

  predicate Retained(s: State, pos: nat) { Oldest(|s.log|, s.capacity) <= pos < |s.log| }

  /** Oldest cached GOP start from which the ring still holds everything. */
  function FirstRetained(s: State, gops: seq<Gop>): (r: Option<nat>)
    requires WellFormed(Cache(gops, false))
    ensures r.Some? ==> Retained(s, r.value) && s.log[r.value].kind == Keyframe
                        && exists i :: 0 <= i < |gops| && gops[i].at[0] == r.value
    decreases |gops|
  {
    if gops == [] then None
    else if Retained(s, gops[0].at[0]) && s.log[gops[0].at[0]].kind == Keyframe then Some(gops[0].at[0])
    else
      var r := FirstRetained(s, gops[1..]);
      assert r.Some? ==> forall i :: 0 <= i < |gops| - 1 ==> gops[1..][i] == gops[i + 1];
      r
  }

  /** startupSnapshotLocked */
  function TakeSnapshot(s: State): Snapshot
    requires WellFormed(s.cache)
  {
    var live := |s.log|;
    var source := if s.cache.gops != [] then s.cache.gops[0].at[0] else live;
    var cached := Flatten(s.cache.gops);
    if live - source > |cached| then
      var start := FirstRetained(s, s.cache.gops);
      if start.Some?
      then Snapshot(|s.generations|, s.genStart, NonHeaders(s.log[start.value..]), start.value, live, s.audioEpoch)
      else Snapshot(|s.generations|, s.genStart, [], live, live, s.audioEpoch)
    else Snapshot(|s.generations|, s.genStart, cached, source, live, s.audioEpoch)
  }

  // ------------------------------------------------------------------
  // Runs
  // ------------------------------------------------------------------

  datatype Step =
    | SetPublisherStep(p: Publisher)
    | RemovePublisherStep
    | RemovePublisherIfStep(p: Publisher)
    | CloseStep
    | NoPublisherTimeoutStep
    | IdleTimeoutStep(subscribers: nat)
    | UpdatePolicyStep(policy: Policy, limited: bool)
    | ResetVideoStep
    | WriteStep(f: Frame, over: bool)
    | WriteForStep(p: Publisher, f: Frame, over: bool)

  ghost function Apply(s: State, step: Step): State
    requires WellFormed(s.cache)
  {
    match step
    case SetPublisherStep(p) => SetPublisher(s, p)
    case RemovePublisherStep => RemovePublisher(s)
    case RemovePublisherIfStep(p) => RemovePublisherIf(s, p)
    case CloseStep => Close(s)
    case NoPublisherTimeoutStep => NoPublisherTimeout(s)
    case IdleTimeoutStep(n) => IdleTimeout(s, n)
    case UpdatePolicyStep(p, limited) => UpdatePolicy(s, p, limited)
    case ResetVideoStep => ResetVideo(s)
    case WriteStep(f, over) => WriteFrame(s, f, over)
    case WriteForStep(p, f, over) => WriteFrameForPublisher(s, p, f, over)
  }
}
