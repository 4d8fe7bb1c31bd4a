/**
 * The buffered half of an audio transcode pipeline (core/transcode_manager.go): interleaved
 * samples wait until a whole encoder frame is there, and a queue beside them remembers which
 * source positions the samples came from.
 */
module PcmPipeline {
  // ---------------------------------------------------------------- spans

  /** A half-open interval of source positions; empty or reversed intervals are invalid. */
  datatype Span = Span(begin: int, end: int) {
    predicate Valid() { begin < end }

    predicate Covers(s: Span) { begin <= s.begin && s.end <= end }

    function Union(s: Span): Span {
      if !Valid() || !s.Valid() then NO_SPAN
      else Span(if s.begin < begin then s.begin else begin, if s.end > end then s.end else end)
    }
  }

  const NO_SPAN := Span(0, 0)

  ghost predicate AllValid(spans: seq<Span>) { forall i :: 0 <= i < |spans| ==> spans[i].Valid() }

  /** The smallest interval covering all of a non-empty sequence of valid spans. */
  ghost predicate IsHull(h: Span, spans: seq<Span>) {
    && (forall i :: 0 <= i < |spans| ==> h.Covers(spans[i]))
    && (exists i :: 0 <= i < |spans| && spans[i].begin == h.begin)
    && (exists i :: 0 <= i < |spans| && spans[i].end == h.end)
  }

  lemma HullIsUnique(a: Span, b: Span, spans: seq<Span>)
    requires IsHull(a, spans) && IsHull(b, spans)
    ensures a == b
  {
  }

  lemma HullOfOne(s: Span, n: nat)
    requires n > 0
    ensures IsHull(s, Repeat(s, n))
  {
    var r := Repeat(s, n);
    assert r[0].begin == s.begin && r[0].end == s.end;
  }

  lemma HullOfBoth(a: Span, x: seq<Span>, b: Span, y: seq<Span>)
    requires IsHull(a, x) && IsHull(b, y) && a.Valid() && b.Valid()
    ensures IsHull(a.Union(b), x + y)
  {
    var h, all := a.Union(b), x + y;
    var i :| 0 <= i < |x| && x[i].begin == a.begin;
    var j :| 0 <= j < |y| && y[j].begin == b.begin;
    assert all[i].begin == a.begin && all[|x| + j].begin == b.begin;
    var k :| 0 <= k < |x| && x[k].end == a.end;
    var l :| 0 <= l < |y| && y[l].end == b.end;
    assert all[k].end == a.end && all[|x| + l].end == b.end;
    forall n | 0 <= n < |all| ensures h.Covers(all[n]) {
      if n < |x| { assert a.Covers(x[n]); } else { assert b.Covers(y[n - |x|]); }
    }
  }

  // ---------------------------------------------------------------- the span queue

  datatype Segment = Segment(samples: nat, span: Span)

  ghost function Repeat(s: Span, n: nat): (r: seq<Span>)
    ensures |r| == n && forall i :: 0 <= i < n ==> r[i] == s
  {
    seq(n, _ => s)
  }

  /** One span for each queued sample (per channel). */
  ghost function Expand(segments: seq<Segment>): seq<Span> {
    if segments == [] then [] else Repeat(segments[0].span, segments[0].samples) + Expand(segments[1..])
  }

  lemma {:induction false} ExpandSnoc(segments: seq<Segment>, s: Segment)
    ensures Expand(segments + [s]) == Expand(segments) + Repeat(s.span, s.samples)
  {
    if segments == [] {
      assert [s][1..] == [];
      assert segments + [s] == [s];
      assert Expand([s]) == Repeat(s.span, s.samples) + [];
    } else {
      assert (segments + [s])[1..] == segments[1..] + [s];
      ExpandSnoc(segments[1..], s);
    }
  }

  ghost predicate SegmentsOk(segments: seq<Segment>) {
    forall i :: 0 <= i < |segments| ==> segments[i].samples > 0 && segments[i].span.Valid()
  }

  lemma {:induction false} ExpandIsValid(segments: seq<Segment>)
    requires SegmentsOk(segments)
    ensures AllValid(Expand(segments)) && (Expand(segments) == [] <==> segments == [])
  {
    if segments != [] {
      ExpandIsValid(segments[1..]);
      assert Expand(segments)[0] == segments[0].span;
    }
  }

  /** Taking samples from the first segment takes them from the front of the expansion. */
  lemma TakeFirst(segments: seq<Segment>, take: nat)
    requires segments != [] && take <= segments[0].samples
    ensures var s := segments[0];
            var rest := if take == s.samples then segments[1..] else [Segment(s.samples - take, s.span)] + segments[1..];
            Expand(segments) == Repeat(s.span, take) + Expand(rest)
  {
    var s := segments[0];
    assert Repeat(s.span, s.samples) == Repeat(s.span, take) + Repeat(s.span, s.samples - take);
    if take < s.samples {
      var rest := [Segment(s.samples - take, s.span)] + segments[1..];
      assert rest[1..] == segments[1..];
    }
  }

  /** Part way through taking samples: what was taken, its hull, and what is left. */
  ghost predicate Partial(was: seq<Span>, taken: seq<Span>, span: Span, segments: seq<Segment>) {
    && was == taken + Expand(segments) && SegmentsOk(segments)
    && (taken == [] ==> span == NO_SPAN)
    && (taken != [] ==> span.Valid() && IsHull(span, taken))
  }

  function Shortened(segments: seq<Segment>, take: nat): seq<Segment>
    requires segments != [] && take <= segments[0].samples
  {
    if take == segments[0].samples then segments[1..]
    else [Segment(segments[0].samples - take, segments[0].span)] + segments[1..]
  }

  lemma PartialStep(was: seq<Span>, taken: seq<Span>, span: Span, segments: seq<Segment>, take: nat)
    requires Partial(was, taken, span, segments) && segments != [] && 0 < take <= segments[0].samples
    ensures var s := segments[0].span;
            Partial(was, taken + Repeat(s, take), if span.Valid() then span.Union(s) else s, Shortened(segments, take))
  {
    var s := segments[0].span;
    var part := Repeat(s, take);
    TakeFirst(segments, take);
    HullOfOne(s, take);
    assert taken + (part + Expand(Shortened(segments, take))) == taken + part + Expand(Shortened(segments, take));
    if taken == [] {
      assert taken + part == part;
    } else {
      HullOfBoth(span, taken, s, part);
    }
  }

  class SpanQueue {
    var segments: seq<Segment>

    ghost predicate Valid()
      reads this
    {
      SegmentsOk(segments)
    }

    ghost function Contents(): seq<Span>
      reads this
    {
      Expand(segments)
    }

    constructor ()
      ensures Valid() && Contents() == []
    {
      segments := [];
    }

    method Append(samples: int, span: Span) returns (ok: bool)
      requires Valid()
      modifies this
      ensures Valid() && (ok <==> samples > 0 && span.Valid())
      ensures Contents() == old(Contents()) + if ok then Repeat(span, samples) else []
    {
      if samples <= 0 || !span.Valid() {
        assert Contents() + [] == Contents();
        return false;
      }
      ExpandSnoc(segments, Segment(samples, span));
      segments := segments + [Segment(samples, span)];
      return true;
    }

    /**
     * Removes the first samples and gives the hull of where they came from; when there are
     * fewer, all are removed and the result is invalid.
     */
    method Consume(samples: int) returns (span: Span)
      requires Valid()
      modifies this
      ensures Valid()
      ensures 0 <= samples <= |old(Contents())| ==> Contents() == old(Contents())[samples..]
      ensures samples > |old(Contents())| ==> Contents() == []
      ensures samples < 0 ==> Contents() == old(Contents())
      ensures if 0 < samples <= |old(Contents())| then span.Valid() && IsHull(span, old(Contents())[..samples])
              else span == NO_SPAN
    {
      span := NO_SPAN;
      if samples < 0 {
        return;
      }
      var left := samples;
      ghost var was := Contents();
      ghost var taken: seq<Span> := [];
      while left > 0 && segments != []
        invariant left >= 0 && |taken| == samples - left
        invariant Partial(was, taken, span, segments)
        decreases left
      {
        var first := segments[0];
        var take := if left > first.samples then first.samples else left;
        PartialStep(was, taken, span, segments, take);
        taken := taken + Repeat(first.span, take);
        span := if span.Valid() then span.Union(first.span) else first.span;
        segments := Shortened(segments, take);
        left := left - take;
      }
      assert was[..|taken|] == taken && was[|taken|..] == Contents();
      if left != 0 {
        return NO_SPAN;
      }
    }
  }

  // ---------------------------------------------------------------- sample frames

  /** The samples in n sample frames. */
  function Times(n: nat, channels: int): int {
    if n == 0 then 0 else Times(n - 1, channels) + channels
  }

  lemma {:induction false} TimesIsProduct(n: nat, c: int)
    ensures Times(n, c) == n * c
  {
    if n > 0 {
      TimesIsProduct(n - 1, c);
      assert n * c == (n - 1) * c + c;
    }
  }

  lemma {:induction false} TimesAdd(a: nat, b: nat, c: int)
    ensures Times(a + b, c) == Times(a, c) + Times(b, c)
  {
    if b > 0 {
      TimesAdd(a, b - 1, c);
    }
  }

  /** With channels, more sample frames are more samples. */
  lemma TimesOrder(a: nat, b: nat, c: int)
    requires c > 0
    ensures Times(a, c) <= Times(b, c) <==> a <= b
  {
    if a <= b {
      TimesAdd(a, b - a, c);
      TimesPositive(b - a, c);
    } else {
      TimesAdd(b, a - b, c);
      TimesPositive(a - b, c);
    }
  }

  lemma {:induction false} TimesPositive(n: nat, c: int)
    requires c > 0
    ensures Times(n, c) >= n
  {
    if n > 0 {
      TimesPositive(n - 1, c);
    }
  }

  lemma EuclidUnique(x: int, c: int, q: int, r: int)
    requires c > 0 && 0 <= r < c && x == q * c + r
    ensures x / c == q && x % c == r
  {
    var d := x / c - q;
    assert x == (x / c) * c + x % c;
    assert d * c == r - x % c;
    assert d >= 1 ==> d * c >= c;
    assert d <= -1 ==> d * c <= -c;
  }

  /** Whole sample frames divide exactly, also when the division rounds up. */
  lemma TimesDivides(n: nat, c: int)
    requires c > 0
    ensures Times(n, c) % c == 0 && (Times(n, c) + c - 1) / c == n
  {
    TimesIsProduct(n, c);
    EuclidUnique(Times(n, c), c, n, 0);
    EuclidUnique(Times(n, c) + c - 1, c, n, c - 1);
  }

  lemma WholeFrames(x: nat, c: int)
    requires c > 0 && x % c == 0
    ensures x / c >= 0 && Times(x / c, c) == x && (x > 0 ==> x / c > 0)
  {
    TimesIsProduct(x / c, c);
  }

  // ---------------------------------------------------------------- the ledger

  /**
   * What happened to samples that left the buffer, and where each of them came from. A final
   * short frame is padded with silence.
   */
  datatype Event =
    | Submitted(samples: seq<int>, origins: seq<Span>, span: Span, padding: nat)
    | Dropped(samples: seq<int>, origins: seq<Span>)

  /** Everything that came in, with the origin of each sample frame, and what happened to it. */
  datatype Ledger = Ledger(log: seq<Event>, input: seq<int>, origins: seq<Span>)

  ghost function SamplesOf(log: seq<Event>): seq<int> {
    if log == [] then [] else SamplesOf(log[..|log| - 1]) + log[|log| - 1].samples
  }

  ghost function OriginsOf(log: seq<Event>): seq<Span> {
    if log == [] then [] else OriginsOf(log[..|log| - 1]) + log[|log| - 1].origins
  }

  lemma LogSnoc(log: seq<Event>, e: Event)
    ensures SamplesOf(log + [e]) == SamplesOf(log) + e.samples
    ensures OriginsOf(log + [e]) == OriginsOf(log) + e.origins
  {
    assert (log + [e])[..|log|] == log;
  }

  /** A submitted block is attributed to the hull of its own samples' origins, and is one encoder frame. */
  ghost predicate EventOk(e: Event, channels: int, frameSize: int) {
    && |e.samples| == Times(|e.origins|, channels)
    && (e.Submitted? ==>
          && e.span.Valid() && IsHull(e.span, e.origins)
          && (if frameSize > 0 then |e.samples| + e.padding == frameSize else e.padding == 0))
  }

  ghost predicate LogOk(log: seq<Event>, channels: int, frameSize: int) {
    forall i :: 0 <= i < |log| ==> EventOk(log[i], channels, frameSize)
  }

  /**
   * Conservation: everything that came in was submitted, was dropped, or is still buffered, in
   * that order; and likewise for where it came from.
   */
  ghost predicate Balanced(l: Ledger, buffer: seq<int>, queued: seq<Span>, channels: int, frameSize: int) {
    && l.input == SamplesOf(l.log) + buffer
    && l.origins == OriginsOf(l.log) + queued
    && |buffer| == Times(|queued|, channels)
    && LogOk(l.log, channels, frameSize)
  }

  function Arrived(l: Ledger, samples: seq<int>, origins: seq<Span>): Ledger {
    l.(input := l.input + samples, origins := l.origins + origins)
  }

  function Logged(l: Ledger, e: Event): Ledger { l.(log := l.log + [e]) }

  /** More input balances with more in the buffer. */
  lemma BalanceArrival(l: Ledger, buffer: seq<int>, queued: seq<Span>, channels: int, frameSize: int,
                       samples: seq<int>, origins: seq<Span>)
    requires Balanced(l, buffer, queued, channels, frameSize) && |samples| == Times(|origins|, channels)
    ensures Balanced(Arrived(l, samples, origins), buffer + samples, queued + origins, channels, frameSize)
  {
    TimesAdd(|queued|, |origins|, channels);
  }

  lemma Regroup<T>(done: seq<T>, part: seq<T>, whole: seq<T>)
    requires part <= whole
    ensures done + whole == done + part + whole[|part|..]
  {
    assert whole == part + whole[|part|..];
  }

  lemma LogOkSnoc(log: seq<Event>, e: Event, channels: int, frameSize: int)
    requires LogOk(log, channels, frameSize) && EventOk(e, channels, frameSize)
    ensures LogOk(log + [e], channels, frameSize)
  {
  }

  /** Moving the front of the buffer into the log keeps the balance. */
  lemma BalanceMove(l: Ledger, buffer: seq<int>, queued: seq<Span>, channels: int, frameSize: int, e: Event)
    requires Balanced(l, buffer, queued, channels, frameSize)
    requires e.samples <= buffer && e.origins <= queued && EventOk(e, channels, frameSize)
    ensures Balanced(Logged(l, e), buffer[|e.samples|..], queued[|e.origins|..], channels, frameSize)
  {
    LogSnoc(l.log, e);
    Regroup(SamplesOf(l.log), e.samples, buffer);
    Regroup(OriginsOf(l.log), e.origins, queued);
    LogOkSnoc(l.log, e, channels, frameSize);
    TimesAdd(|e.origins|, |queued| - |e.origins|, channels);
  }

  /** What passes straight through is in and out at once. */
  lemma BalanceDirect(l: Ledger, channels: int, samples: seq<int>, span: Span, n: nat)
    requires Balanced(l, [], [], channels, 0) && |samples| == Times(n, channels) && n > 0 && span.Valid()
    ensures Balanced(Logged(Arrived(l, samples, Repeat(span, n)), Submitted(samples, Repeat(span, n), span, 0)),
                     [], [], channels, 0)
  {
    var origins := Repeat(span, n);
    var arrived, e := Arrived(l, samples, origins), Submitted(samples, origins, span, 0);
    HullOfOne(span, n);
    BalanceArrival(l, [], [], channels, 0, samples, origins);
    assert Balanced(arrived, samples, origins, channels, 0) by {
      assert [] + samples == samples && [] + origins == origins;
    }
    BalanceWhole(arrived, samples, origins, channels, e);
  }

  lemma BalanceWhole(l: Ledger, buffer: seq<int>, queued: seq<Span>, channels: int, e: Event)
    requires Balanced(l, buffer, queued, channels, 0) && e.samples == buffer && e.origins == queued && EventOk(e, channels, 0)
    ensures Balanced(Logged(l, e), [], [], channels, 0)
  {
    BalanceMove(l, buffer, queued, channels, 0, e);
    assert buffer[|buffer|..] == [] && queued[|queued|..] == [];
  }

  ghost function Count(log: seq<Event>, submitted: bool): nat {
    if log == [] then 0
    else Count(log[..|log| - 1], submitted) + if log[|log| - 1].Submitted? == submitted then |log[|log| - 1].samples| else 0
  }

  /** Samples in equal samples submitted, dropped and retained. */
  lemma {:induction false} CountsAddUp(log: seq<Event>, input: seq<int>, buffer: seq<int>)
    requires input == SamplesOf(log) + buffer
    ensures |input| == Count(log, true) + Count(log, false) + |buffer|
  {
    if log != [] {
      var m, last := log[..|log| - 1], log[|log| - 1];
      CountsAddUp(m, SamplesOf(m) + last.samples, last.samples);
    }
  }

  const MAX_BUFFERED := 96000

  /** How many samples too many are buffered, rounded down to whole sample frames. */
  function Excess(buffered: nat, channels: int): (drop: nat)
    requires channels > 0
    ensures drop <= buffered && drop % channels == 0
    ensures buffered <= MAX_BUFFERED ==> drop == 0
    ensures buffered > MAX_BUFFERED ==> MAX_BUFFERED <= buffered - drop < MAX_BUFFERED + channels
  {
    if buffered <= MAX_BUFFERED then 0
    else
      var over := buffered - MAX_BUFFERED;
      EuclidUnique(over - over % channels, channels, over / channels, 0);
      over - over % channels
  }

  // ---------------------------------------------------------------- the pipeline

  class Pipeline {
    const channels: int
    const frameSamples: nat
    const frameSize: int
    const queue: SpanQueue
    var buffer: seq<int>
    var sourceSpan: Span
    var finalized: bool
    ghost var ledger: Ledger

    ghost predicate Balance()
      reads this, queue
    {
      && frameSize == Times(frameSamples, channels)
      && queue.Valid() && (channels <= 0 ==> queue.Contents() == [])
      && Balanced(ledger, buffer, queue.Contents(), channels, frameSize)
    }

    /** Between calls less than one encoder frame is buffered. */
    ghost predicate Valid()
      reads this, queue
    {
      Balance() && (buffer != [] ==> channels > 0 && |buffer| < frameSize)
    }

    constructor (channels: int, frameSamples: nat)
      ensures Valid() && fresh(queue) && buffer == [] && ledger == Ledger([], [], []) && !finalized
      ensures this.channels == channels && this.frameSamples == frameSamples
    {
      TimesIsProduct(frameSamples, channels);
      this.channels, this.frameSamples, frameSize := channels, frameSamples, frameSamples * channels;
      queue := new SpanQueue();
      buffer, sourceSpan, finalized := [], NO_SPAN, false;
      ledger := Ledger([], [], []);
    }

    /** Input is taken only in whole sample frames and with a valid origin. */
    predicate Acceptable(samples: seq<int>, span: Span) {
      samples != [] && channels > 0 && |samples| % channels == 0 && span.Valid()
    }

    /** What accepted input adds to the ledger, apart from events. */
    ghost function Grown(l: Ledger, samples: seq<int>, span: Span): Ledger
      requires Acceptable(samples, span)
    {
      WholeFrames(|samples|, channels);
      Arrived(l, samples, Repeat(span, |samples| / channels))
    }

    method NoteSource(span: Span)
      requires span.Valid()
      modifies this`sourceSpan
      ensures sourceSpan.Valid() && sourceSpan.Covers(span)
      ensures old(sourceSpan).Valid() ==> sourceSpan.Covers(old(sourceSpan))
    {
      sourceSpan := if !sourceSpan.Valid() then span else sourceSpan.Union(span);
    }

    /** Buffers samples and their origin. */
    method Buffer(samples: seq<int>, span: Span)
      requires Balance() && Acceptable(samples, span)
      modifies this`buffer, this`ledger, queue
      ensures Balance() && ledger == Grown(old(ledger), samples, span)
      ensures buffer == old(buffer) + samples
    {
      WholeFrames(|samples|, channels);
      var n := |samples| / channels;
      BalanceArrival(ledger, buffer, queue.Contents(), channels, frameSize, samples, Repeat(span, n));
      buffer := buffer + samples;
      ledger := Grown(ledger, samples, span);
      var _ := queue.Append(n, span);
    }

    /** Drops the oldest whole sample frames beyond the bound. */
    method DropExcess()
      requires Balance() && channels > 0
      modifies this`buffer, this`ledger, queue
      ensures Balance() && |buffer| < MAX_BUFFERED + channels
      ensures old(|buffer|) <= MAX_BUFFERED ==> ledger == old(ledger) && buffer == old(buffer)
      ensures old(|buffer|) > MAX_BUFFERED ==>
                && |ledger.log| > 0 && ledger == Logged(old(ledger), ledger.log[|ledger.log| - 1])
                && ledger.log[|ledger.log| - 1].Dropped?
                && |buffer| >= MAX_BUFFERED && old(buffer) == ledger.log[|ledger.log| - 1].samples + buffer
    {
      if |buffer| > MAX_BUFFERED {
        var drop := Excess(|buffer|, channels);
        DropFront(drop);
      }
    }

    method DropFront(drop: nat)
      requires Balance() && channels > 0 && drop <= |buffer| && drop % channels == 0
      modifies this`buffer, this`ledger, queue
      ensures Balance() && buffer == old(buffer)[drop..]
      ensures |ledger.log| > 0 && ledger == Logged(old(ledger), ledger.log[|ledger.log| - 1])
      ensures ledger.log[|ledger.log| - 1].Dropped? && ledger.log[|ledger.log| - 1].samples == old(buffer)[..drop]
    {
      WholeFrames(drop, channels);
      var n := drop / channels;
      ghost var queued := queue.Contents();
      TimesOrder(n, |queued|, channels);
      ghost var e := Dropped(buffer[..drop], queued[..n]);
      BalanceMove(ledger, buffer, queued, channels, frameSize, e);
      ledger := Logged(ledger, e);
      buffer := buffer[drop..];
      var _ := queue.Consume(n);
    }

    /** Hands one encoder frame to the encoder. */
    method SubmitFrame()
      requires Balance() && channels > 0 && 0 < frameSize <= |buffer|
      modifies this`buffer, this`ledger, queue
      ensures Balance() && buffer == old(buffer)[frameSize..]
      ensures |ledger.log| > 0 && ledger == Logged(old(ledger), ledger.log[|ledger.log| - 1])
      ensures ledger.log[|ledger.log| - 1].Submitted? && ledger.log[|ledger.log| - 1].padding == 0
    {
      ghost var queued := queue.Contents();
      TimesOrder(frameSamples, |queued|, channels);
      var frame := buffer[..frameSize];
      var span := queue.Consume(frameSamples);
      ghost var e := Submitted(frame, queued[..frameSamples], span, 0);
      BalanceMove(ledger, buffer, queued, channels, frameSize, e);
      ledger := Logged(ledger, e);
      buffer := buffer[frameSize..];
    }

    /** Whole encoder frames leave the buffer as long as there are any. */
    method SubmitFrames()
      requires Balance() && channels > 0 && frameSize > 0
      modifies this`buffer, this`ledger, queue
      ensures Balance() && |buffer| < frameSize && ledger == old(ledger).(log := ledger.log)
      ensures old(ledger.log) <= ledger.log
      ensures forall i :: |old(ledger.log)| <= i < |ledger.log| ==> ledger.log[i].Submitted?
    {
      while |buffer| >= frameSize
        invariant Balance() && old(ledger.log) <= ledger.log && ledger == old(ledger).(log := ledger.log)
        invariant forall i :: |old(ledger.log)| <= i < |ledger.log| ==> ledger.log[i].Submitted?
        decreases |buffer|
      {
        SubmitFrame();
      }
    }

    /** Takes decoded samples; every whole encoder frame goes to the encoder at once. */
    method EncodePcm(samples: seq<int>, span: Span)
      requires Valid()
      modifies this, queue
      ensures Valid() && finalized == old(finalized) && old(ledger.log) <= ledger.log
      ensures Acceptable(samples, span) ==> ledger == Grown(old(ledger), samples, span).(log := ledger.log)
      ensures !Acceptable(samples, span) ==> ledger == old(ledger) && buffer == old(buffer)
      ensures |old(buffer)| + |samples| <= MAX_BUFFERED ==>
                forall i :: |old(ledger.log)| <= i < |ledger.log| ==> ledger.log[i].Submitted?
    {
      if !Acceptable(samples, span) {
        return;
      }
      NoteSource(span);
      if frameSize == 0 {
        SubmitDirect(samples, span);
        return;
      }
      TimesPositive(frameSamples, channels);
      Buffer(samples, span);
      DropExcess();
      SubmitFrames();
    }

    /** An encoder without a fixed frame size takes whatever comes. */
    method SubmitDirect(samples: seq<int>, span: Span)
      requires Valid() && frameSize == 0 && Acceptable(samples, span)
      modifies this`ledger
      ensures Valid() && old(ledger.log) <= ledger.log
      ensures ledger == Grown(old(ledger), samples, span).(log := ledger.log)
      ensures |ledger.log| == |old(ledger.log)| + 1 && ledger.log[|old(ledger.log)|].Submitted?
    {
      WholeFrames(|samples|, channels);
      EmptyQueue();
      BalanceDirect(ledger, channels, samples, span, |samples| / channels);
      ledger := Logged(Grown(ledger, samples, span), Submitted(samples, Repeat(span, |samples| / channels), span, 0));
    }

    lemma EmptyQueue()
      requires Balance() && buffer == []
      ensures queue.Contents() == []
    {
      if channels > 0 {
        TimesPositive(|queue.Contents()|, channels);
      }
    }

    /**
     * Ends the pipeline: what the resampler still held is encoded, and the last partial frame is
     * padded and encoded whole. Nothing stays behind in either queue.
     */
    method Finalize(drained: seq<int>, span: Span)
      requires Valid()
      modifies this, queue
      ensures finalized && Valid() && old(ledger.log) <= ledger.log
      ensures old(finalized) ==> ledger == old(ledger) && buffer == old(buffer)
      ensures !old(finalized) ==>
                && buffer == [] && queue.Contents() == []
                && ledger.input == SamplesOf(ledger.log) && ledger.origins == OriginsOf(ledger.log)
                && (Acceptable(drained, span) ==> ledger == Grown(old(ledger), drained, span).(log := ledger.log))
                && (!Acceptable(drained, span) ==> ledger == old(ledger).(log := ledger.log))
    {
      if finalized {
        return;
      }
      finalized := true;
      EncodePcm(drained, span);
      if frameSize > 0 && buffer != [] {
        SubmitRest();
      }
      EmptyQueue();
      assert SamplesOf(ledger.log) + [] == SamplesOf(ledger.log);
      assert OriginsOf(ledger.log) + [] == OriginsOf(ledger.log);
    }

    method SubmitRest()
      requires Valid() && buffer != []
      modifies this`buffer, this`ledger, queue
      ensures Balance() && buffer == []
      ensures |ledger.log| > 0 && ledger == Logged(old(ledger), ledger.log[|ledger.log| - 1])
      ensures ledger.log[|ledger.log| - 1].Submitted? && ledger.log[|ledger.log| - 1].samples == old(buffer)
    {
      ghost var queued := queue.Contents();
      TimesDivides(|queued|, channels);
      var n := (|buffer| + channels - 1) / channels;
      assert n == |queued| && queued[..n] == queued && queued[n..] == [];
      assert queued != [];
      var span := queue.Consume(n);
      ghost var e := Submitted(buffer, queued, span, frameSize - |buffer|);
      BalanceMove(ledger, buffer, queued, channels, frameSize, e);
      ledger := Logged(ledger, e);
      buffer := [];
    }
  }
}
