/**
 * The epochs of the shared transcode output (core/transcode_manager.go): which codec epoch the
 * producer gives to each output and which configuration records it announces, frame by frame.
 * What a codec emits for a frame is an input.
 */
module TranscodeProducer {
  import opened Options
  import opened Frames
  import opened PcmPipeline
  import opened TranscodeReader
  import G = GopPolicy
  import M = StreamModel
  import T = StreamTheorems

  /** What is fixed for a track. `records` says that the target codec has configuration records. */
  datatype Track = Track(target: nat, floor: nat, audioOnly: bool, records: bool)

  /** The source codec and epoch in use, and the epoch of the pipeline if there is one. */
  datatype Producer = Producer(codec: nat, epoch: nat, pipe: Option<nat>)

  /** A source frame, whether a pipeline for it can be made, and the spans of what it emits. */
  datatype Turn = Turn(frame: Frame, pos: nat, available: bool, packets: seq<Span>)

  datatype State = State(producer: Producer, out: seq<Output>)

  function Record(epoch: nat): Output { Output(0, Config, NO_SPAN, epoch) }

  /** A new track announces its epoch floor. */
  function Begin(t: Track): State {
    State(Producer(0, 0, None), if t.records then [Record(t.floor)] else [])
  }

  function OwnSpan(pos: nat): Span { Span(pos, pos + 1) }

  /** The epoch of an unstamped frame is the one in use. */
  function FrameEpoch(p: Producer, f: Frame): nat { if f.audioEpoch == 0 then p.epoch else f.audioEpoch }

  predicate Switches(p: Producer, f: Frame) { f.codec != p.codec || FrameEpoch(p, f) != p.epoch }

  /** A change of codec or epoch starts a new pipeline, unless the target codec arrives. */
  function Switched(t: Track, p: Producer, turn: Turn): Producer {
    var f := turn.frame;
    if !Switches(p, f) then p
    else
      Producer(f.codec, FrameEpoch(p, f),
               if f.codec != t.target && turn.available then Some(FrameEpoch(p, f)) else None)
  }

  /** A new pipeline is announced, except the first one at the floor, which already is. */
  function Announced(t: Track, p: Producer, turn: Turn): seq<Output> {
    var q := Switched(t, p, turn);
    if t.records && Switches(p, turn.frame) && q.pipe.Some? && (p.codec != 0 || q.epoch != t.floor)
    then [Record(q.epoch)] else []
  }

  function Packets(spans: seq<Span>, id: nat, epoch: nat): (r: seq<Output>)
    ensures |r| == |spans| && forall i :: 0 <= i < |r| ==> r[i] == Output(id, Content.Audio, spans[i], epoch)
  {
    seq(|spans|, i requires 0 <= i < |spans| => Output(id, Content.Audio, spans[i], epoch))
  }

  /** The target codec passes through; other audio goes through the pipeline. */
  function Encoded(t: Track, p: Producer, turn: Turn): seq<Output> {
    var f, q := turn.frame, Switched(t, p, turn);
    if f.codec == t.target then
      [Output(turn.pos, if f.IsHeader() then Header else Content.Audio, OwnSpan(turn.pos), FrameEpoch(p, f))]
    else if q.pipe.Some? && !f.IsHeader() then Packets(turn.packets, turn.pos, q.pipe.value)
    else []
  }

  function Process(t: Track, s: State, turn: Turn): State {
    var f, p := turn.frame, s.producer;
    if f.media == MediaType.Video then
      s.(out := s.out + if t.audioOnly then [] else [Output(turn.pos, Content.Video, OwnSpan(turn.pos), 0)])
    else if f.media != MediaType.Audio || FrameEpoch(p, f) < t.floor then s
    else State(Switched(t, p, turn), s.out + Announced(t, p, turn) + Encoded(t, p, turn))
  }

  function Produce(t: Track, turns: seq<Turn>): State {
    if turns == [] then Begin(t) else Process(t, Produce(t, turns[..|turns| - 1]), turns[|turns| - 1])
  }

  /** At the end of the generation the pipeline in use emits what it still holds. */
  function Finalized(s: State, packets: seq<Span>): seq<Output> {
    s.out + if s.producer.pipe.Some? then Packets(packets, 0, s.producer.pipe.value) else []
  }

  // ---------------------------------------------------------------- epochs

  ghost predicate StampedTurns(turns: seq<Turn>) {
    forall i :: 0 <= i < |turns| && turns[i].frame.media == MediaType.Audio ==> turns[i].frame.audioEpoch >= 1
  }

  ghost predicate AudioStamped(out: seq<Output>) {
    forall i :: 0 <= i < |out| && (out[i].content.Audio? || out[i].content.Header?) ==> out[i].epoch >= 1
  }

  ghost predicate Announces(out: seq<Output>, epoch: nat) {
    exists i :: 0 <= i < |out| && out[i].content.Config? && out[i].epoch == epoch
  }

  /** The pipeline's epoch is that of the producer, from one on, and its record is out already. */
  ghost predicate ProducerOk(t: Track, s: State) {
    && AudioStamped(s.out)
    && (s.producer.pipe.Some? ==>
          s.producer.pipe.value == s.producer.epoch >= 1 && (t.records ==> Announces(s.out, s.producer.epoch)))
    && (t.records ==> Announces(s.out, t.floor))
  }

  lemma AnnouncesMore(out: seq<Output>, more: seq<Output>, epoch: nat)
    requires Announces(out, epoch)
    ensures Announces(out + more, epoch)
  {
    var i :| 0 <= i < |out| && out[i].content.Config? && out[i].epoch == epoch;
    assert (out + more)[i] == out[i];
  }

  lemma SwitchAnnounces(t: Track, s: State, turn: Turn)
    requires ProducerOk(t, s) && turn.frame.audioEpoch >= 1 && t.records && Switched(t, s.producer, turn).pipe.Some?
    ensures Announces(s.out + Announced(t, s.producer, turn), Switched(t, s.producer, turn).epoch)
  {
    var p, q, more := s.producer, Switched(t, s.producer, turn), Announced(t, s.producer, turn);
    if more != [] {
      assert (s.out + more)[|s.out|] == Record(q.epoch);
    } else if !Switches(p, turn.frame) {
      AnnouncesMore(s.out, more, p.epoch);
    } else {
      AnnouncesMore(s.out, more, t.floor);
    }
  }

  lemma StampedMore(out: seq<Output>, more: seq<Output>)
    requires AudioStamped(out) && AudioStamped(more)
    ensures AudioStamped(out + more)
  {
  }

  lemma EncodedIsStamped(t: Track, s: State, turn: Turn)
    requires ProducerOk(t, s) && turn.frame.audioEpoch >= 1
    ensures AudioStamped(Announced(t, s.producer, turn)) && AudioStamped(Encoded(t, s.producer, turn))
  {
  }

  lemma ProcessOk(t: Track, s: State, turn: Turn)
    requires ProducerOk(t, s) && (turn.frame.media == MediaType.Audio ==> turn.frame.audioEpoch >= 1)
    ensures ProducerOk(t, Process(t, s, turn))
  {
    if turn.frame.media == MediaType.Video {
      VideoOk(t, s, turn);
    } else if turn.frame.media == MediaType.Audio && FrameEpoch(s.producer, turn.frame) >= t.floor {
      AudioOk(t, s, turn);
    }
  }

  lemma VideoOk(t: Track, s: State, turn: Turn)
    requires ProducerOk(t, s) && turn.frame.media == MediaType.Video
    ensures ProducerOk(t, Process(t, s, turn))
  {
    var more := if t.audioOnly then [] else [Output(turn.pos, Content.Video, OwnSpan(turn.pos), 0)];
    StampedMore(s.out, more);
    if t.records {
      AnnouncesMore(s.out, more, t.floor);
      if s.producer.pipe.Some? {
        AnnouncesMore(s.out, more, s.producer.epoch);
      }
    }
  }

  lemma AudioOk(t: Track, s: State, turn: Turn)
    requires ProducerOk(t, s) && turn.frame.media == MediaType.Audio && turn.frame.audioEpoch >= 1
    requires FrameEpoch(s.producer, turn.frame) >= t.floor
    ensures ProducerOk(t, Process(t, s, turn))
  {
    var known, rest := s.out + Announced(t, s.producer, turn), Encoded(t, s.producer, turn);
    EncodedIsStamped(t, s, turn);
    StampedMore(s.out, Announced(t, s.producer, turn));
    StampedMore(known, rest);
    if t.records {
      AnnouncesMore(s.out, Announced(t, s.producer, turn), t.floor);
      AnnouncesMore(known, rest, t.floor);
      if Switched(t, s.producer, turn).pipe.Some? {
        SwitchAnnounces(t, s, turn);
        AnnouncesMore(known, rest, Switched(t, s.producer, turn).epoch);
      }
    }
  }

  /**
   * From stamped frames the producer never gives out audio of epoch zero, and a pipeline only
   * emits audio whose configuration record is in the shared output already.
   */
  lemma {:induction false} ProduceOk(t: Track, turns: seq<Turn>)
    requires StampedTurns(turns)
    ensures ProducerOk(t, Produce(t, turns))
  {
    if turns == [] {
      assert t.records ==> Begin(t).out[0] == Record(t.floor);
    } else {
      ProduceOk(t, turns[..|turns| - 1]);
      ProcessOk(t, Produce(t, turns[..|turns| - 1]), turns[|turns| - 1]);
    }
  }

  // ---------------------------------------------------------------- from the stream to the subscriber

  /** The frames are those of the source log at their positions. */
  ghost predicate FromLog(turns: seq<Turn>, log: seq<Frame>) {
    forall i :: 0 <= i < |turns| ==> turns[i].pos < |log| && log[turns[i].pos] == turns[i].frame
  }

  /**
   * End to end, for every run of a stream, every stretch of its log that a track transcodes and
   * every reader of the track's output: each AAC audio frame a subscriber receives follows a
   * configuration record, and the last one before it is of its epoch.
   */
  lemma SubscriberAudioIsConfigured(p: G.Policy, limited: bool, ringSize: int, steps: seq<M.Step>, t: Track, turns: seq<Turn>,
                                    last: seq<Span>, outputs: seq<Output>, history: seq<Output>,
                                    stores: seq<seq<Output>>, f: Floors, d: seq<Delivery>, i: nat)
    requires FromLog(turns, T.Reached(p, limited, ringSize, steps).log)
    requires forall k :: 0 <= k < |outputs| ==> outputs[k] in Finalized(Produce(t, turns), last)
    requires |stores| == |outputs| && ConfigsOnly(history) && f.aac && d == Filtered(Items(outputs, history, stores), f)
    requires i < |d| && d[i].output.content.Audio?
    ensures d[i].output.epoch >= 1 && ConfiguredAt(d, i)
  {
    T.EpochsStartAtOne(p, limited, ringSize, steps);
    var log := T.Reached(p, limited, ringSize, steps).log;
    forall k | 0 <= k < |turns| && turns[k].frame.media == MediaType.Audio ensures turns[k].frame.audioEpoch >= 1 {
      assert log[turns[k].pos] == turns[k].frame;
    }
    ProduceOk(t, turns);
    FinalizedIsStamped(t, Produce(t, turns), last);
    DeliveredAudioIsOutput(outputs, history, stores, f, d, i);
    ConfiguredIff(outputs, history, stores, f, d, i);
  }

  lemma FinalizedIsStamped(t: Track, s: State, last: seq<Span>)
    requires ProducerOk(t, s)
    ensures forall o :: o in Finalized(s, last) && o.content.Audio? ==> o.epoch >= 1
  {
    assert AudioStamped(Finalized(s, last));
  }

  /** Injected deliveries are records, so audio comes from the shared output. */
  lemma DeliveredAudioIsOutput(outputs: seq<Output>, history: seq<Output>, stores: seq<seq<Output>>, f: Floors,
                               d: seq<Delivery>, i: nat)
    requires |stores| == |outputs| && ConfigsOnly(history) && d == Filtered(Items(outputs, history, stores), f)
    requires i < |d| && d[i].output.content.Audio?
    ensures d[i].output in outputs
  {
    var items := Items(outputs, history, stores);
    ItemsAreOk(outputs, history, stores);
    assert items[..|items|] == items;
    FilteredIsOk(items, f, |items|);
    assert d[i].Passed?;
    ItemsAt(outputs, history, stores, d[i].from);
    assert d[i].output == outputs[d[i].from];
  }
}
