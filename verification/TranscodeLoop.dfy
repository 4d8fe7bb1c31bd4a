/**
 * The shared transcode producer of core/transcode_manager.go, interleaved with everything the
 * stream can do. The loop is cut wherever another goroutine may run: at the top of the loop,
 * between the read and the boundary test that follows it, and between that test and the work.
 *
 * Codecs are opaque: processing a frame may emit any outputs, as long as each is attributed to
 * the hull of frames that were fed to the pipeline in use. `Feed` and `Flush` prove this of the
 * sample buffer.
 */
module TranscodeLoop {
  import opened Options
  import opened RingBuffer
  import opened PcmPipeline
  import GopCache
  import M = StreamModel
  import S = StreamSafety
  import T = StreamTheorems

  // ---------------------------------------------------------------- what the loop sees of the stream

  /** The write cursor, the oldest retained position, the end of the track's generation, and
      whether the source ring is closed. */
  datatype Source = Source(live: nat, oldest: nat, end: Option<nat>, closed: bool)

  function Sees(s: M.State, generation: nat): Source
    requires generation < |s.generations|
  {
    Source(|s.log|, Oldest(|s.log|, s.capacity), s.generations[generation].end, s.closed)
  }

  /** How the source may change while the loop is not looking. */
  ghost predicate Moves(a: Source, b: Source) {
    && a.live <= b.live && a.oldest <= b.oldest && (a.closed ==> b.closed)
    && (a.end.Some? ==> b.end == a.end)
    && (a.end.None? && b.end.Some? ==> a.live <= b.end.value <= b.live)
  }

  lemma StepEnds(s: M.State, step: M.Step, g: nat)
    requires GopCache.WellFormed(s.cache) && g < |s.generations| && s.generations[g].end.None?
    requires g < |M.Apply(s, step).generations| && M.Apply(s, step).generations[g].end.Some?
    ensures M.Apply(s, step).generations[g].end.value == |s.log|
  {
  }

  lemma StreamMoves(s: M.State, step: M.Step, g: nat)
    requires S.Inv(s) && g < |s.generations|
    ensures g < |M.Apply(s, step).generations|
    ensures Moves(Sees(s, g), Sees(M.Apply(s, step), g))
  {
    T.StepExtends(s, step);
    T.StepGrowsLog(s, step);
    var t := M.Apply(s, step);
    assert t.capacity == s.capacity;
    if s.generations[g].end.None? && t.generations[g].end.Some? {
      StepEnds(s, step, g);
    }
  }

  // ---------------------------------------------------------------- the loop

  datatype Cause = Complete | Canceled | SourceClosed | Overwritten

  /** `Holding` has read the frame before `cursor`; `Passing` has also found it inside the
      generation. */
  datatype Phase = Top | Reading(draining: bool) | Holding | Passing | Done(cause: Cause)

  datatype Loop = Loop(
    start: nat, cursor: nat, phase: Phase, canceled: bool,
    sourceCursor: nat,      // what waiters are told
    fed: seq<nat>,          // positions given to the pipeline in use
    consumed: seq<nat>,     // positions processed
    outputs: seq<Span>)

  function Started(start: nat): Loop { Loop(start, start, Top, false, start, [], [], []) }

  /** Outputs are attributed to hulls of fed positions. */
  ghost predicate Emits(spans: seq<Span>, fed: seq<nat>) {
    forall i :: 0 <= i < |spans| ==> spans[i].Valid() && Within(spans[i], fed)
  }

  ghost predicate Within(span: Span, fed: seq<nat>) {
    (exists p :: p in fed && p == span.begin) && (exists p :: p in fed && p + 1 == span.end)
  }

  function Advance(l: Loop, cursor: nat): Loop {
    if cursor <= l.sourceCursor then l else l.(sourceCursor := cursor)
  }

  /** The generation is over and all of it is consumed: flush, report, stop. */
  function Finish(l: Loop, end: nat, spans: seq<Span>): Loop {
    Advance(l, end).(outputs := l.outputs + spans, phase := Done(Complete))
  }

  datatype Step =
    | Cancel
    | Check(flushed: seq<Span>)
    | ReadFrame
    | ReadNothing
    | Test(flushed: seq<Span>)
    | Work(emitted: seq<Span>, renewed: bool)

  /** The pipeline a frame is fed to: a codec or epoch change starts a new one. */
  function FedAfter(l: Loop, renewed: bool): seq<nat>
    requires l.cursor > 0
  {
    (if renewed then [] else l.fed) + [l.cursor - 1]
  }

  /** A blocking read ends without a frame when it is interrupted or the ring is closed and
      empty; a draining read when nothing is there. */
  predicate ComesBackEmpty(l: Loop, s: Source)
    requires l.phase.Reading?
  {
    if l.phase.draining then l.cursor >= s.live
    else l.canceled || s.end.Some? || (s.closed && l.cursor >= s.live)
  }

  ghost predicate Enabled(l: Loop, s: Source, step: Step) {
    match step
    case Cancel => true
    case Check(flushed) => l.phase.Top? && Emits(flushed, l.fed)
    case ReadFrame => l.phase.Reading? && l.cursor < s.live
    case ReadNothing => l.phase.Reading? && ComesBackEmpty(l, s)
    case Test(flushed) => l.phase.Holding? && Emits(flushed, l.fed)
    case Work(emitted, renewed) => l.phase.Passing? && l.cursor > 0 && Emits(emitted, FedAfter(l, renewed))
  }

  ghost function Next(l: Loop, s: Source, step: Step): Loop
    requires Enabled(l, s, step)
  {
    match step
    case Cancel => l.(canceled := true)
    case Check(flushed) =>
      if l.canceled then l.(phase := Done(Canceled))
      else if s.end.Some? && l.cursor >= s.end.value then Finish(l, s.end.value, flushed)
      else l.(phase := Reading(s.end.Some?))
    case ReadFrame =>
      if l.cursor < s.oldest then l.(cursor := s.oldest + 1, phase := Done(Overwritten))
      else l.(cursor := l.cursor + 1, phase := Holding)
    case ReadNothing =>
      if l.canceled then l.(phase := Done(Canceled))
      else if s.end.Some? then l.(phase := Top)
      else l.(phase := Done(SourceClosed))
    case Test(flushed) =>
      if s.end.Some? && l.cursor > s.end.value then Finish(l, s.end.value, flushed)
      else l.(phase := Passing)
    case Work(emitted, renewed) =>
      Advance(l, l.cursor).(
        fed := FedAfter(l, renewed), consumed := l.consumed + [l.cursor - 1],
        outputs := l.outputs + emitted, phase := Top)
  }

  // ---------------------------------------------------------------- what the sample buffer emits

  /** Every sample came from the hull of fed positions. */
  ghost predicate OriginsWithin(origins: seq<Span>, fed: seq<nat>) {
    forall i :: 0 <= i < |origins| ==> Within(origins[i], fed)
  }

  /** The attributions of the blocks given to the encoder, in order. */
  ghost function Attributions(log: seq<PcmPipeline.Event>): seq<Span> {
    if log == [] then []
    else Attributions(log[..|log| - 1]) + if log[|log| - 1].Submitted? then [log[|log| - 1].span] else []
  }

  lemma {:induction false} AttributionsConcat(x: seq<PcmPipeline.Event>, y: seq<PcmPipeline.Event>)
    ensures Attributions(x + y) == Attributions(x) + Attributions(y)
  {
    if y == [] {
      assert x + y == x;
    } else {
      assert (x + y)[..|x + y| - 1] == x + y[..|y| - 1];
      AttributionsConcat(x, y[..|y| - 1]);
    }
  }

  lemma HullWithin(h: Span, origins: seq<Span>, fed: seq<nat>)
    requires IsHull(h, origins) && OriginsWithin(origins, fed)
    ensures Within(h, fed)
  {
    var i :| 0 <= i < |origins| && origins[i].begin == h.begin;
    var j :| 0 <= j < |origins| && origins[j].end == h.end;
    assert Within(origins[i], fed) && Within(origins[j], fed);
  }

  /** Blocks whose samples came from fed positions are attributed to hulls of fed positions. */
  lemma {:induction false} LogEmits(log: seq<PcmPipeline.Event>, channels: int, frameSize: int, fed: seq<nat>)
    requires LogOk(log, channels, frameSize) && OriginsWithin(OriginsOf(log), fed)
    ensures Emits(Attributions(log), fed)
  {
    if log != [] {
      var m, e := log[..|log| - 1], log[|log| - 1];
      assert forall i :: 0 <= i < |OriginsOf(m)| ==> OriginsOf(m)[i] == OriginsOf(log)[i];
      assert forall i :: 0 <= i < |e.origins| ==> e.origins[i] == OriginsOf(log)[|OriginsOf(m)| + i];
      LogEmits(m, channels, frameSize, fed);
      assert EventOk(e, channels, frameSize);
      if e.Submitted? {
        HullWithin(e.span, e.origins, fed);
      }
    }
  }

  lemma FedMore(origins: seq<Span>, fed: seq<nat>, p: nat)
    requires OriginsWithin(origins, fed)
    ensures OriginsWithin(origins, fed + [p])
  {
    forall i | 0 <= i < |origins| ensures Within(origins[i], fed + [p]) {
      assert Within(origins[i], fed);
      var x :| x in fed && x == origins[i].begin;
      var y :| y in fed && y + 1 == origins[i].end;
      assert x in fed + [p] && y in fed + [p];
    }
  }

  lemma OriginsJoin(x: seq<Span>, span: Span, n: nat, fed: seq<nat>)
    requires OriginsWithin(x, fed) && Within(span, fed)
    ensures OriginsWithin(x + Repeat(span, n), fed)
  {
  }

  lemma OriginsPrefix(x: seq<Span>, y: seq<Span>, fed: seq<nat>)
    requires OriginsWithin(x + y, fed)
    ensures OriginsWithin(x, fed)
  {
    forall i | 0 <= i < |x| ensures Within(x[i], fed) {
      assert (x + y)[i] == x[i];
    }
  }

  lemma EmitsTail(x: seq<Span>, y: seq<Span>, fed: seq<nat>)
    requires Emits(x + y, fed)
    ensures Emits(y, fed)
  {
    forall i | 0 <= i < |y| ensures y[i].Valid() && Within(y[i], fed) {
      assert (x + y)[|x| + i] == y[i];
    }
  }

  /** New blocks of a balanced pipeline are attributed to what it was fed. */
  lemma NewBlocksEmit(l: Ledger, buffer: seq<int>, queued: seq<Span>, channels: int, frameSize: int,
                      was: seq<PcmPipeline.Event>, fed: seq<nat>)
    requires Balanced(l, buffer, queued, channels, frameSize) && was <= l.log && OriginsWithin(l.origins, fed)
    ensures Emits(Attributions(l.log[|was|..]), fed)
    ensures Attributions(l.log) == Attributions(was) + Attributions(l.log[|was|..])
  {
    OriginsPrefix(OriginsOf(l.log), queued, fed);
    LogEmits(l.log, channels, frameSize, fed);
    assert l.log == was + l.log[|was|..];
    AttributionsConcat(was, l.log[|was|..]);
    EmitsTail(Attributions(was), Attributions(l.log[|was|..]), fed);
  }

  /** A frame's own position is the origin of its samples when nothing resamples them. */
  lemma PositionWithin(p: nat, fed: seq<nat>)
    ensures Within(Span(p, p + 1), fed + [p])
  {
    assert p in fed + [p];
  }

  /** A frame's samples go through the buffer: what comes out is what a `Work` step may emit. */
  method Feed(p: Pipeline, samples: seq<int>, span: Span, pos: nat, ghost fed: seq<nat>) returns (ghost emitted: seq<Span>)
    requires p.Valid() && OriginsWithin(p.ledger.origins, fed) && (span.Valid() ==> Within(span, fed + [pos]))
    modifies p, p.queue
    ensures p.Valid() && OriginsWithin(p.ledger.origins, fed + [pos])
    ensures Attributions(p.ledger.log) == old(Attributions(p.ledger.log)) + emitted && Emits(emitted, fed + [pos])
  {
    ghost var was := p.ledger.log;
    FedMore(p.ledger.origins, fed, pos);
    if p.Acceptable(samples, span) {
      WholeFrames(|samples|, p.channels);
      OriginsJoin(p.ledger.origins, span, |samples| / p.channels, fed + [pos]);
    }
    p.EncodePcm(samples, span);
    emitted := Attributions(p.ledger.log[|was|..]);
    NewBlocksEmit(p.ledger, p.buffer, p.queue.Contents(), p.channels, p.frameSize, was, fed + [pos]);
  }

  /** The rest comes out at the end: what a `Check` or `Test` step may flush. */
  method Flush(p: Pipeline, drained: seq<int>, span: Span, ghost fed: seq<nat>) returns (ghost flushed: seq<Span>)
    requires p.Valid() && OriginsWithin(p.ledger.origins, fed) && (span.Valid() ==> Within(span, fed))
    modifies p, p.queue
    ensures p.Valid() && p.finalized
    ensures Attributions(p.ledger.log) == old(Attributions(p.ledger.log)) + flushed && Emits(flushed, fed)
  {
    ghost var was := p.ledger.log;
    if p.Acceptable(drained, span) {
      WholeFrames(|drained|, p.channels);
      OriginsJoin(p.ledger.origins, span, |drained| / p.channels, fed);
    }
    p.Finalize(drained, span);
    flushed := Attributions(p.ledger.log[|was|..]);
    NewBlocksEmit(p.ledger, p.buffer, p.queue.Contents(), p.channels, p.frameSize, was, fed);
  }

  // ---------------------------------------------------------------- invariant

  /** How far the track has got. */
  function Reached(l: Loop): nat { l.start + |l.consumed| }

  /** The upper bound of the generation as far as it is known. */
  function Limit(s: Source): nat { if s.end.Some? then s.end.value else s.live }

  ghost predicate InOrder(l: Loop) {
    forall i :: 0 <= i < |l.consumed| ==> l.consumed[i] == l.start + i
  }

  ghost predicate Attributed(l: Loop) {
    && (forall p :: p in l.fed ==> l.start <= p < Reached(l))
    && (forall i :: 0 <= i < |l.outputs| ==> l.start <= l.outputs[i].begin < l.outputs[i].end <= Reached(l))
  }

  ghost predicate Positioned(l: Loop, s: Source) {
    && (l.consumed != [] ==> Reached(l) <= Limit(s))
    && l.start <= s.live && Limit(s) <= s.live
    && l.sourceCursor == Reached(l)
    && match l.phase
       case Top => l.cursor == Reached(l)
       case Reading(draining) => l.cursor == Reached(l) && (draining ==> s.end.Some? && l.cursor < s.end.value)
       case Holding => l.cursor == Reached(l) + 1 && l.cursor <= s.live
       case Passing => l.cursor == Reached(l) + 1 && l.cursor <= Limit(s)
       case Done(cause) => EndedFor(l, s, cause)
  }

  /** Why the track stopped. */
  ghost predicate EndedFor(l: Loop, s: Source, cause: Cause) {
    match cause
    case Complete => s.end.Some? && Reached(l) == if l.start > s.end.value then l.start else s.end.value
    case Canceled => l.canceled
    case SourceClosed => s.closed
    case Overwritten => Reached(l) < s.oldest
  }

  ghost predicate LoopInv(l: Loop, s: Source) { InOrder(l) && Attributed(l) && Positioned(l, s) }

  lemma SourceMoves(l: Loop, a: Source, b: Source)
    requires LoopInv(l, a) && Moves(a, b) && Limit(b) <= b.live
    ensures LoopInv(l, b)
  {
  }

  lemma EmitsWithin(spans: seq<Span>, fed: seq<nat>, low: nat, high: nat)
    requires Emits(spans, fed) && (forall p :: p in fed ==> low <= p < high)
    ensures forall i :: 0 <= i < |spans| ==> low <= spans[i].begin < spans[i].end <= high
  {
    forall i | 0 <= i < |spans| ensures low <= spans[i].begin < spans[i].end <= high {
      assert Within(spans[i], fed);
    }
  }

  /** Flushing the pipeline adds outputs within what was consumed. */
  lemma FinishInv(l: Loop, s: Source, spans: seq<Span>)
    requires LoopInv(l, s) && Emits(spans, l.fed) && s.end.Some?
    requires (l.phase.Top? && l.cursor >= s.end.value) || (l.phase.Holding? && l.cursor > s.end.value)
    ensures LoopInv(Finish(l, s.end.value, spans), s)
  {
    EmitsWithin(spans, l.fed, l.start, Reached(l));
  }

  lemma WorkInv(l: Loop, s: Source, emitted: seq<Span>, renewed: bool)
    requires LoopInv(l, s) && Enabled(l, s, Work(emitted, renewed))
    ensures LoopInv(Next(l, s, Work(emitted, renewed)), s)
  {
    EmitsWithin(emitted, FedAfter(l, renewed), l.start, Reached(l) + 1);
  }

  lemma StepInv(l: Loop, s: Source, step: Step)
    requires LoopInv(l, s) && Enabled(l, s, step)
    ensures LoopInv(Next(l, s, step), s)
  {
    match step
    case Check(flushed) =>
      if s.end.Some? && l.cursor >= s.end.value { FinishInv(l, s, flushed); }
    case Test(flushed) =>
      if s.end.Some? && l.cursor > s.end.value { FinishInv(l, s, flushed); }
    case Work(emitted, renewed) => WorkInv(l, s, emitted, renewed);
    case _ =>
  }

  // ---------------------------------------------------------------- runs with the whole stream

  datatype System = System(stream: M.State, loop: Loop)

  datatype Event = OfStream(step: M.Step) | OfLoop(step_: Step)

  ghost predicate Steps(a: System, e: Event, b: System, g: nat) {
    && GopCache.WellFormed(a.stream.cache) && g < |a.stream.generations|
    && match e
       case OfStream(step) => b == System(M.Apply(a.stream, step), a.loop)
       case OfLoop(step) =>
         Enabled(a.loop, Sees(a.stream, g), step) && b == System(a.stream, Next(a.loop, Sees(a.stream, g), step))
  }

  /** A run that begins when a track is created for generation g at a source position. */
  ghost predicate Run(states: seq<System>, events: seq<Event>, g: nat) {
    && |states| == |events| + 1
    && (forall i :: 0 <= i < |events| ==> Steps(states[i], events[i], states[i + 1], g))
    && S.Inv(states[0].stream) && g < |states[0].stream.generations|
    && states[0].loop == Started(states[0].loop.start) && states[0].loop.start <= |states[0].stream.log|
  }

  ghost predicate Good(s: System, g: nat) {
    S.Inv(s.stream) && g < |s.stream.generations| && LoopInv(s.loop, Sees(s.stream, g))
  }

  lemma StepGood(a: System, e: Event, b: System, g: nat)
    requires Good(a, g) && Steps(a, e, b, g)
    ensures Good(b, g) && b.loop.start == a.loop.start
    ensures b.stream.generations[g].start == a.stream.generations[g].start
  {
    match e
    case OfStream(step) =>
      S.ApplyInv(a.stream, step);
      StreamMoves(a.stream, step, g);
      T.StepExtends(a.stream, step);
      SourceMoves(a.loop, Sees(a.stream, g), Sees(b.stream, g));
    case OfLoop(step) => StepInv(a.loop, Sees(a.stream, g), step);
  }

  lemma {:induction false} RunGood(states: seq<System>, events: seq<Event>, g: nat, i: nat)
    requires Run(states, events, g) && i < |states|
    ensures Good(states[i], g) && states[i].loop.start == states[0].loop.start
    ensures states[i].stream.generations[g].start == states[0].stream.generations[g].start
  {
    if i > 0 {
      RunGood(states, events, g, i - 1);
      assert Steps(states[i - 1], events[i - 1], states[i], g);
      StepGood(states[i - 1], events[i - 1], states[i], g);
    }
  }

  // ---------------------------------------------------------------- theorems

  /**
   * In every interleaving, no output is attributed to source before the track's start or past
   * the end of its publisher generation.
   */
  lemma OutputsStayInGeneration(states: seq<System>, events: seq<Event>, g: nat, i: nat, k: nat)
    requires Run(states, events, g) && i < |states| && k < |states[i].loop.outputs|
    ensures g < |states[i].stream.generations|
    ensures var o := states[i].loop.outputs[k];
            && states[0].loop.start <= o.begin < o.end
            && (states[i].stream.generations[g].end.Some? ==> o.end <= states[i].stream.generations[g].end.value)
  {
    RunGood(states, events, g, i);
  }

  /**
   * A track started from a startup snapshot, taken at any time before but in the generation that
   * is still current, never touches another generation's media.
   */
  lemma SnapshotTrackStaysInGeneration(taken: M.State, meanwhile: seq<M.Step>, states: seq<System>, events: seq<Event>,
                                       g: nat, i: nat, k: nat)
    requires Run(states, events, g) && i < |states| && k < |states[i].loop.outputs|
    requires S.Inv(taken) && states[0].stream == T.Run(taken, meanwhile)
    requires g + 1 == |taken.generations| == |states[0].stream.generations|
    requires states[0].loop.start == M.TakeSnapshot(taken).source
    ensures g < |states[i].stream.generations|
    ensures var o := states[i].loop.outputs[k];
            var gen := states[i].stream.generations[g];
            gen.start <= o.begin < o.end <= S.EndOr(gen, |states[i].stream.log|)
  {
    RunGood(states, events, g, i);
    SourceIsInGeneration(taken);
    T.BoundariesAreFixedOnce(taken, meanwhile);
    var l := states[i].loop;
    assert l.start <= l.outputs[k].begin < l.outputs[k].end <= Reached(l);
    assert |l.consumed| > 0;
  }

  lemma SourceIsInGeneration(s: M.State)
    requires S.Inv(s) && s.generations != []
    ensures s.generations[|s.generations| - 1].start <= M.TakeSnapshot(s).source
  {
    if s.cache.gops != [] {
      assert S.GopOk(s, s.cache.gops[0]);
      assert S.EntryOk(s, s.cache.gops[0].frames[0], s.cache.gops[0].at[0]);
    }
    var r := M.FirstRetained(s, s.cache.gops);
    if r.Some? {
      var i :| 0 <= i < |s.cache.gops| && s.cache.gops[i].at[0] == r.value;
      assert S.GopOk(s, s.cache.gops[i]);
      assert S.EntryOk(s, s.cache.gops[i].frames[0], s.cache.gops[i].at[0]);
    }
  }

  /**
   * A track that reports completion has consumed every position from its start to the end of
   * its generation, once each and in order.
   */
  lemma CompletionIsTotal(states: seq<System>, events: seq<Event>, g: nat, i: nat)
    requires Run(states, events, g) && i < |states| && states[i].loop.phase == Done(Complete)
    ensures g < |states[i].stream.generations|
    ensures states[i].stream.generations[g].end.Some?
    ensures var l, end := states[i].loop, states[i].stream.generations[g].end.value;
            && |l.consumed| == (if end > l.start then end - l.start else 0)
            && (forall k :: 0 <= k < |l.consumed| ==> l.consumed[k] == l.start + k)
  {
    RunGood(states, events, g, i);
  }

  /** A track stops early only when it was cancelled, the source ring was closed, or the next
      position it needed was overwritten. */
  lemma EarlyStopHasCause(states: seq<System>, events: seq<Event>, g: nat, i: nat)
    requires Run(states, events, g) && i < |states| && states[i].loop.phase.Done?
    ensures var l, s := states[i].loop, states[i].stream;
            || l.phase.cause == Complete || l.canceled || s.closed
            || l.start + |l.consumed| < Oldest(|s.log|, s.capacity)
  {
    RunGood(states, events, g, i);
  }

  /** Waiters are told exactly how far the source has been consumed. */
  lemma ReportedCursorIsExact(states: seq<System>, events: seq<Event>, g: nat, i: nat)
    requires Run(states, events, g) && i < |states|
    ensures states[i].loop.sourceCursor == states[i].loop.start + |states[i].loop.consumed|
    ensures forall p :: p in states[i].loop.consumed <==> states[i].loop.start <= p < states[i].loop.sourceCursor
  {
    RunGood(states, events, g, i);
    var l := states[i].loop;
    forall p | l.start <= p < l.sourceCursor ensures p in l.consumed {
      assert l.consumed[p - l.start] == p;
    }
  }

  // ---------------------------------------------------------------- draining

  /** Source positions left, counting one step past the end. */
  function Gap(l: Loop, end: nat): int {
    if l.cursor <= end then end - l.cursor else -1
  }

  /** A bound on the loop's steps until it stops, once its generation is over. */
  function Potential(l: Loop, end: nat): int {
    4 * Gap(l, end) + match l.phase
                      case Reading(draining) => if draining then 0 else 4
                      case Top => 1
                      case Passing => 2
                      case Holding => 3
                      case Done(_) => 0
  }

  /** Stopped for one of the two reasons left after the generation's end. */
  predicate Drained(l: Loop) { l.phase == Done(Complete) || l.phase == Done(Overwritten) }

  lemma DrainStep(l: Loop, s: Source, step: Step)
    requires LoopInv(l, s) && Enabled(l, s, step) && s.end.Some? && !l.canceled && !step.Cancel? && !l.phase.Done?
    ensures var n := Next(l, s, step);
            !n.canceled && (Drained(n) || (!n.phase.Done? && Potential(n, s.end.value) < Potential(l, s.end.value)))
  {
  }

  /** In every phase some step of the loop is possible: it never waits for anybody. */
  lemma DrainIsNeverStuck(l: Loop, s: Source) returns (step: Step)
    requires LoopInv(l, s) && s.end.Some? && !l.phase.Done?
    ensures Enabled(l, s, step) && !step.Cancel?
  {
    match l.phase
    case Top => step := Check([]);
    case Reading(draining) => step := if draining then ReadFrame else ReadNothing;
    case Holding => step := Test([]);
    case Passing => step := Work([], false);
  }

  predicate IsCancel(e: Event) { e.OfLoop? && e.step_.Cancel? }

  /** Steps of the loop among events. */
  function LoopSteps(events: seq<Event>): nat {
    if events == [] then 0 else LoopSteps(events[..|events| - 1]) + if events[|events| - 1].OfLoop? then 1 else 0
  }

  /** The generation ended there. The loop is through, or has at most this potential left; it
      takes no more steps than the potential it began with and four. */
  ghost predicate Draining(s: System, g: nat, end: nat, budget: int) {
    && g < |s.stream.generations| && s.stream.generations[g].end == Some(end) && !s.loop.canceled && budget >= -4
    && (Drained(s.loop) || (!s.loop.phase.Done? && Potential(s.loop, end) <= budget))
  }

  /** The potential is only used up together with the loop. */
  lemma PotentialLeft(l: Loop, s: Source)
    requires LoopInv(l, s) && s.end.Some? && !l.phase.Done?
    ensures Potential(l, s.end.value) >= -3
  {
  }

  /** One event after the end of the generation, of the loop or of the stream. */
  lemma DrainEvent(a: System, e: Event, b: System, g: nat, end: nat, budget: int)
    requires Good(a, g) && Steps(a, e, b, g) && Draining(a, g, end, budget) && !IsCancel(e)
    ensures Draining(b, g, end, budget - if e.OfLoop? then 1 else 0)
  {
    match e
    case OfStream(step) => StreamMoves(a.stream, step, g);
    case OfLoop(step) =>
      StepInv(a.loop, Sees(a.stream, g), step);
      DrainStep(a.loop, Sees(a.stream, g), step);
      PotentialLeft(a.loop, Sees(a.stream, g));
  }

  lemma DrainMove(states: seq<System>, events: seq<Event>, g: nat, i: nat, end: nat, budget: int)
    requires Run(states, events, g) && i < |events| && Draining(states[i], g, end, budget) && !IsCancel(events[i])
    ensures Draining(states[i + 1], g, end, budget - if events[i].OfLoop? then 1 else 0)
  {
    RunGood(states, events, g, i);
    assert Steps(states[i], events[i], states[i + 1], g);
    DrainEvent(states[i], events[i], states[i + 1], g, end, budget);
  }

  lemma {:induction false} DrainRun(states: seq<System>, events: seq<Event>, g: nat, i: nat, j: nat, end: nat, budget: int)
    requires Run(states, events, g) && i <= j < |states| && Draining(states[i], g, end, budget)
    requires forall k :: i <= k < j ==> !IsCancel(events[k])
    ensures Draining(states[j], g, end, budget - LoopSteps(events[i..j]))
    decreases j
  {
    if i < j {
      DrainRun(states, events, g, i, j - 1, end, budget);
      DrainMove(states, events, g, j - 1, end, budget - LoopSteps(events[i..j - 1]));
      LoopStepsSnoc(events, i, j);
    }
  }

  lemma LoopStepsSnoc(events: seq<Event>, i: nat, j: nat)
    requires i < j <= |events|
    ensures LoopSteps(events[i..j]) == LoopSteps(events[i..j - 1]) + if events[j - 1].OfLoop? then 1 else 0
  {
    assert events[i..j][..j - i - 1] == events[i..j - 1];
  }

  /** The loop has no step left but to be cancelled. */
  ghost predicate Stopped(l: Loop, s: Source) { forall step :: Enabled(l, s, step) ==> step.Cancel? }

  /**
   * Once its generation is over, in every schedule without a cancel and whatever the stream does
   * meanwhile, a track takes a bounded number of steps of its own. If it has stopped, it is
   * complete or the ring overwrote what it still had to read; if it has not, it can go on. So
   * every schedule that lets it go on ends in one of the two.
   */
  lemma DrainCompletes(states: seq<System>, events: seq<Event>, g: nat, i: nat, j: nat)
    requires Run(states, events, g) && i <= j < |states| && g < |states[i].stream.generations|
    requires states[i].stream.generations[g].end.Some? && !states[i].loop.canceled && !states[i].loop.phase.Done?
    requires forall k :: i <= k < j ==> !IsCancel(events[k])
    ensures LoopSteps(events[i..j]) <= Potential(states[i].loop, states[i].stream.generations[g].end.value) + 4
    ensures var l, s := states[j].loop, states[j].stream;
            && g < |s.generations| && (l.phase.Done? <==> Stopped(l, Sees(s, g)))
            && (l.phase.Done? ==>
                  || l.phase == Done(Complete)
                  || (l.phase == Done(Overwritten) && l.start + |l.consumed| < Oldest(|s.log|, s.capacity)))
  {
    var end := states[i].stream.generations[g].end.value;
    RunGood(states, events, g, i);
    PotentialLeft(states[i].loop, Sees(states[i].stream, g));
    DrainRun(states, events, g, i, j, end, Potential(states[i].loop, end));
    RunGood(states, events, g, j);
    StoppedIff(states[j].loop, Sees(states[j].stream, g));
  }

  lemma StoppedIff(l: Loop, s: Source)
    requires LoopInv(l, s) && s.end.Some?
    ensures l.phase.Done? <==> Stopped(l, s)
  {
    if !l.phase.Done? {
      var step := DrainIsNeverStuck(l, s);
      assert Enabled(l, s, step);
    }
  }
}
