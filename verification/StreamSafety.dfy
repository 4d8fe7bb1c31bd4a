/** What every run of the stream state machine keeps, and what it means for a
    late joiner: the snapshot agrees with the log. */
module StreamSafety {
  import opened Options
  import opened Frames
  import opened GopPolicy
  import opened GopCache
  import opened RingBuffer
  import opened StreamModel

  // ------------------------------------------------------------------
  // The cache is a subsequence of the log
  // ------------------------------------------------------------------

  /** Strictly earlier, or both cached after the ring stopped accepting writes. */
  predicate Before(x: nat, y: nat, n: nat) { x < y || x == y == n }

  /** A cached frame is the one logged at its position. A position equal to the
      write cursor marks a frame cached after the ring was closed. */
  predicate EntryOk(s: State, f: Frame, pos: nat) {
    && s.genStart <= pos <= |s.log| && !f.IsHeader()
    && (pos < |s.log| ==> s.log[pos] == f)
    && (pos == |s.log| ==> s.closed)
  }

  ghost predicate GopOk(s: State, g: Gop) {
    && |g.at| == |g.frames|
    && (forall j :: 0 <= j < |g.at| ==> EntryOk(s, g.frames[j], g.at[j]))
    && (forall j, k :: 0 <= j < k < |g.at| ==> Before(g.at[j], g.at[k], |s.log|))
  }

  ghost predicate Apart(g: Gop, h: Gop, n: nat) {
    forall j, k :: 0 <= j < |g.at| && 0 <= k < |h.at| ==> Before(g.at[j], h.at[k], n)
  }

  ghost predicate GopsOk(s: State, gops: seq<Gop>) {
    && (forall i :: 0 <= i < |gops| ==> GopOk(s, gops[i]))
    && (forall i, j :: 0 <= i < j < |gops| ==> Apart(gops[i], gops[j], |s.log|))
  }

  ghost predicate CacheOk(s: State) {
    Bounded(s.policy, s.cache) && GopsOk(s, s.cache.gops)
  }

  // ------------------------------------------------------------------
  // Generations own disjoint intervals
  // ------------------------------------------------------------------

  function EndOr(g: Generation, n: nat): nat { if g.end.Some? then g.end.value else n }

  /** The publisher that a frame or activity is attributed to is the owner of the generation. */
  predicate SameOwner(owner: Publisher, p: Publisher) {
    if owner.id != "" || p.id != "" then owner.id == p.id else owner.obj == p.obj
  }

  ghost predicate IntervalsOk(s: State) {
    && (forall i :: 0 <= i < |s.generations| ==> s.generations[i].start <= EndOr(s.generations[i], |s.log|) <= |s.log|)
    && (forall i, j :: 0 <= i < j < |s.generations| ==>
          s.generations[i].end.Some? && s.generations[i].end.value <= s.generations[j].start)
  }

  ghost predicate OwnerOk(s: State) {
    && (Open(s) <==> s.status == Publishing) && (s.publisher.Some? <==> s.status == Publishing)
    && (s.closed ==> s.status == Destroying)
    && (s.generations == [] ==> s.genStart == 0 && s.lastId == "")
    && (s.generations != [] ==>
          var g := s.generations[|s.generations| - 1];
          s.genStart == g.start && s.lastId == g.publisher.id && (Open(s) ==> s.publisher == Some(g.publisher)))
  }

  ghost predicate IdsOk(s: State) {
    && (s.status != Destroying ==>
          forall i :: 0 <= i < |s.generations| && s.generations[i].publisher.id != "" ==>
            s.generations[i].publisher.id in s.usedIds)
    && (forall i, j :: 0 <= i < j < |s.generations| && s.generations[i].publisher.id != "" ==>
          s.generations[i].publisher.id != s.generations[j].publisher.id)
  }

  /** An accepted frame sits in the interval of the generation its publisher owns. */
  predicate AcceptedOk(s: State, a: Accepted) {
    && 1 <= a.generation <= |s.generations|
    && (var g := s.generations[a.generation - 1];
        SameOwner(g.publisher, a.publisher) && g.start <= a.pos < EndOr(g, |s.log|))
    && a.pos < |s.log| && s.log[a.pos] == a.frame
  }

  ghost predicate GenerationsOk(s: State) {
    && IntervalsOk(s) && OwnerOk(s) && IdsOk(s)
    && (forall i :: 0 <= i < |s.accepted| ==> AcceptedOk(s, s.accepted[i]))
  }

  // ------------------------------------------------------------------
  // Audio codec epochs
  // ------------------------------------------------------------------

  predicate IsAudioAt(s: State, i: int) { s.genStart <= i < |s.log| && s.log[i].media == Audio }

  /** Within a generation epochs start at one, never decrease, and name one codec. */
  ghost predicate EpochsOk(s: State) {
    && (forall i :: IsAudioAt(s, i) ==> 1 <= s.log[i].audioEpoch <= s.audioEpoch)
    && (forall i :: IsAudioAt(s, i) && s.log[i].audioEpoch == s.audioEpoch ==> s.log[i].codec == s.audioCodec)
    && (forall i, j :: IsAudioAt(s, i) && IsAudioAt(s, j) && i < j ==>
          s.log[i].audioEpoch < s.log[j].audioEpoch
          || (s.log[i].audioEpoch == s.log[j].audioEpoch && s.log[i].codec == s.log[j].codec))
  }

  ghost predicate Inv(s: State) {
    && s.genStart <= |s.log| && s.capacity > 0
    && CacheOk(s) && GenerationsOk(s) && EpochsOk(s)
  }

  // ------------------------------------------------------------------
  // Steps keep the invariant
  // ------------------------------------------------------------------

  lemma InitialInv(p: Policy, limited: bool, ringSize: int)
    ensures Inv(Initial(p, limited, ringSize))
  {
  }

  lemma GopsOkKeepLast(s: State, gops: seq<Gop>, n: nat)
    requires GopsOk(s, gops)
    ensures GopsOk(s, KeepLast(gops, n))
  {
  }

  lemma GopsOkTrim(s: State, p: Policy, gops: seq<Gop>)
    requires GopsOk(s, gops) && WellFormed(Cache(gops, false))
    ensures GopsOk(s, TrimGops(p, gops))
  {
    var r := TrimGops(p, gops);
    forall i | 0 <= i < |r| ensures GopOk(s, r[i]) {
      assert GopOk(s, gops[i]);
    }
    forall i, j | 0 <= i < j < |r| ensures Apart(r[i], r[j], |s.log|) {
      assert Apart(gops[i], gops[j], |s.log|);
    }
  }

  lemma UpdatePolicyInv(s: State, p: Policy, limited: bool)
    requires Inv(s)
    ensures Inv(UpdatePolicy(s, p, limited))
  {
    var t := UpdatePolicy(s, p, limited);
    assert CacheOk(t) by {
      TrimmedOk(s, t.policy);
      GopsOkFrame(s, t, t.cache.gops);
    }
    GenerationsFrame(s, t);
    EpochsFrame(s, t);
  }

  lemma TrimmedOk(s: State, p: Policy)
    requires CacheOk(s)
    ensures Bounded(p, Trimmed(p, s.cache)) && GopsOk(s, Trimmed(p, s.cache).gops)
  {
    TrimmedIsBounded(p, s.cache);
    if p.Enabled() {
      GopsOkKeepLast(s, s.cache.gops, p.gopCacheNum);
      GopsOkTrim(s, p, KeepLast(s.cache.gops, p.gopCacheNum));
    }
  }

  lemma GenerationsFrame(s: State, t: State)
    requires GenerationsOk(s)
    requires t.generations == s.generations && t.accepted == s.accepted && t.log == s.log && t.closed == s.closed
    requires t.status == s.status && t.publisher == s.publisher && t.usedIds == s.usedIds && t.lastId == s.lastId
    requires t.genStart == s.genStart
    ensures GenerationsOk(t)
  {
    forall i | 0 <= i < |t.accepted| ensures AcceptedOk(t, t.accepted[i]) {
      assert AcceptedOk(s, s.accepted[i]);
    }
  }

  lemma EpochsFrame(s: State, t: State)
    requires EpochsOk(s)
    requires t.log == s.log && t.genStart == s.genStart && t.audioEpoch == s.audioEpoch && t.audioCodec == s.audioCodec
    ensures EpochsOk(t)
  {
    assert forall i :: IsAudioAt(t, i) <==> IsAudioAt(s, i);
  }

  /** The cache entries stay right while the log grows or the ring is closed. */
  lemma GopsOkFrame(s: State, t: State, gops: seq<Gop>)
    requires GopsOk(s, gops) && t.genStart == s.genStart
    requires s.closed ==> t.log == s.log && t.closed
    requires s.log <= t.log
    ensures GopsOk(t, gops)
  {
    forall i | 0 <= i < |gops| ensures GopOk(t, gops[i]) {
      assert GopOk(s, gops[i]);
      forall j | 0 <= j < |gops[i].at| ensures EntryOk(t, gops[i].frames[j], gops[i].at[j]) {
        assert EntryOk(s, gops[i].frames[j], gops[i].at[j]);
      }
      forall j, k | 0 <= j < k < |gops[i].at| ensures Before(gops[i].at[j], gops[i].at[k], |t.log|) {
        assert Before(gops[i].at[j], gops[i].at[k], |s.log|);
        assert EntryOk(s, gops[i].frames[k], gops[i].at[k]);
      }
    }
    forall i, j | 0 <= i < j < |gops| ensures Apart(gops[i], gops[j], |t.log|) {
      assert Apart(gops[i], gops[j], |s.log|) && GopOk(s, gops[j]);
      forall a, b | 0 <= a < |gops[i].at| && 0 <= b < |gops[j].at|
        ensures Before(gops[i].at[a], gops[j].at[b], |t.log|)
      {
        assert Before(gops[i].at[a], gops[j].at[b], |s.log|);
        assert EntryOk(s, gops[j].frames[b], gops[j].at[b]);
      }
    }
  }

  lemma CloseGenerationKeeps(s: State)
    requires GenerationsOk(s)
    ensures var t := CloseGeneration(s);
            && IntervalsOk(t) && IdsOk(t) && |t.generations| == |s.generations| && !Open(t)
            && (forall i :: 0 <= i < |s.generations| ==>
                  t.generations[i].start == s.generations[i].start && t.generations[i].publisher == s.generations[i].publisher
                  && t.generations[i].end.Some? && (s.generations[i].end.Some? ==> t.generations[i] == s.generations[i]))
            && (forall i :: 0 <= i < |s.accepted| ==> AcceptedOk(t, s.accepted[i]))
  {
    var t := CloseGeneration(s);
    forall i | 0 <= i < |s.accepted| ensures AcceptedOk(t, s.accepted[i]) {
      assert AcceptedOk(s, s.accepted[i]);
    }
  }

  lemma SetPublisherGenerations(s: State, p: Publisher)
    requires GenerationsOk(s) && MayPublish(s, p)
    ensures GenerationsOk(SetPublisher(s, p))
  {
    assert !Open(s) && CloseGeneration(s) == s;
    var t := SetPublisher(s, p);
    SetPublisherIntervals(s, p);
    SetPublisherIds(s, p);
    forall i | 0 <= i < |t.accepted| ensures AcceptedOk(t, t.accepted[i]) {
      assert AcceptedOk(s, s.accepted[i]);
    }
  }

  lemma SetPublisherIntervals(s: State, p: Publisher)
    requires IntervalsOk(s) && OwnerOk(s) && MayPublish(s, p)
    ensures IntervalsOk(SetPublisher(s, p)) && OwnerOk(SetPublisher(s, p))
  {
    assert CloseGeneration(s) == s;
  }

  lemma SetPublisherIds(s: State, p: Publisher)
    requires IdsOk(s) && OwnerOk(s) && MayPublish(s, p)
    ensures IdsOk(SetPublisher(s, p))
  {
    assert CloseGeneration(s) == s;
  }

  lemma SetPublisherInv(s: State, p: Publisher)
    requires Inv(s)
    ensures Inv(SetPublisher(s, p))
  {
    if MayPublish(s, p) {
      SetPublisherGenerations(s, p);
      var t := SetPublisher(s, p);
      assert EpochsOk(t) by {
        assert forall i :: !IsAudioAt(t, i);
      }
    }
  }

  lemma DetachedGenerations(s: State, t: State)
    requires GenerationsOk(s)
    requires t == CloseGeneration(s).(publisher := None, status := t.status, usedIds := t.usedIds, closed := t.closed)
    requires t.status == NoPublisher || t.status == Destroying
    requires t.status == NoPublisher ==> t.usedIds == s.usedIds && s.status != Destroying
    requires t.closed ==> t.status == Destroying
    ensures GenerationsOk(t)
  {
    CloseGenerationKeeps(s);
    var c := CloseGeneration(s);
    forall i | 0 <= i < |t.accepted| ensures AcceptedOk(t, t.accepted[i]) {
      assert AcceptedOk(c, c.accepted[i]);
    }
  }

  /** Steps that end a generation without touching log or cache. */
  lemma DetachedInv(s: State, t: State)
    requires Inv(s)
    requires t == CloseGeneration(s).(publisher := None, status := t.status, usedIds := t.usedIds, closed := t.closed)
    requires t.status == NoPublisher || t.status == Destroying
    requires t.status == NoPublisher ==> t.usedIds == s.usedIds && s.status != Destroying
    requires s.closed ==> t.closed
    requires t.closed ==> t.status == Destroying
    ensures Inv(t)
  {
    DetachedGenerations(s, t);
    GopsOkFrame(s, t, s.cache.gops);
    EpochsFrame(s, t);
  }

  lemma WriteCacheOk(s: State, f: Frame, t: State)
    requires CacheOk(s) && s.genStart <= |s.log|
    requires t.policy == s.policy && t.genStart == s.genStart && t.closed == s.closed
    requires t.log == if s.closed then s.log else s.log + [f]
    requires t.cache == CacheAfter(s, f)
    ensures CacheOk(t)
  {
    GopsOkFrame(s, t, s.cache.gops);
    var n := |s.log|;
    if s.policy.Enabled() && f.StartsGop() {
      StartedIsBounded(s.policy, s.cache, f, n);
      StartedGopsOk(s, f, t);
      GopsOkKeepLast(t, s.cache.gops + [Gop([f], [n])], s.policy.gopCacheNum);
    } else if s.policy.Enabled() && f.JoinsGop() {
      JoinedIsBounded(s.policy, s.cache, f, n);
      if t.cache.gops != s.cache.gops {
        JoinedGopsOk(s, f, t);
      }
    }
  }

  lemma StartedGopsOk(s: State, f: Frame, t: State)
    requires GopsOk(s, s.cache.gops) && GopsOk(t, s.cache.gops) && EntryOk(t, f, |s.log|)
    requires t.log == if s.closed then s.log else s.log + [f]
    ensures GopsOk(t, s.cache.gops + [Gop([f], [|s.log|])])
  {
    var g := Gop([f], [|s.log|]);
    forall i | 0 <= i < |s.cache.gops| ensures Apart(s.cache.gops[i], g, |t.log|) {
      assert GopOk(s, s.cache.gops[i]);
      forall j | 0 <= j < |s.cache.gops[i].at| ensures Before(s.cache.gops[i].at[j], |s.log|, |t.log|) {
        assert EntryOk(s, s.cache.gops[i].frames[j], s.cache.gops[i].at[j]);
      }
    }
    assert GopOk(t, g);
  }

  lemma JoinedGopsOk(s: State, f: Frame, t: State)
    requires GopsOk(s, s.cache.gops) && GopsOk(t, s.cache.gops) && EntryOk(t, f, |s.log|)
    requires t.genStart == s.genStart && t.closed == s.closed
    requires t.log == if s.closed then s.log else s.log + [f]
    requires s.cache.gops != []
    requires var last := |s.cache.gops| - 1; var g := s.cache.gops[last];
             t.cache.gops == s.cache.gops[last := Gop(g.frames + [f], g.at + [|s.log|])]
    ensures GopsOk(t, t.cache.gops)
  {
    var n := |s.log|;
    var last := |s.cache.gops| - 1;
    var g, h := s.cache.gops[last], t.cache.gops[last];
    forall i, j | 0 <= i < |s.cache.gops| && 0 <= j < |s.cache.gops[i].at|
      ensures Before(s.cache.gops[i].at[j], n, |t.log|)
    {
      assert GopOk(s, s.cache.gops[i]);
      assert EntryOk(s, s.cache.gops[i].frames[j], s.cache.gops[i].at[j]);
    }
    assert GopOk(t, h) by {
      assert GopOk(t, g);
      forall j | 0 <= j < |h.at| ensures EntryOk(t, h.frames[j], h.at[j]) {
        assert j < |g.at| ==> EntryOk(t, g.frames[j], g.at[j]);
      }
    }
    forall i | 0 <= i < last ensures Apart(s.cache.gops[i], h, |t.log|) {
      assert Apart(s.cache.gops[i], g, |t.log|);
    }
  }

  lemma EpochsWrite(s: State, f: Frame, t: State)
    requires Inv(s)
    requires t.genStart == s.genStart && t.audioEpoch == EpochAfter(s, f)
    requires t.audioCodec == if f.media == Audio then f.codec else s.audioCodec
    requires t.log == if s.closed then s.log else s.log + [Stamped(s, f)]
    ensures EpochsOk(t)
  {
    assert forall i :: IsAudioAt(s, i) ==> IsAudioAt(t, i) && t.log[i] == s.log[i];
    assert forall i :: IsAudioAt(t, i) ==> IsAudioAt(s, i) || (i == |s.log| && t.log[i] == Stamped(s, f));
  }

  lemma WriteInv(s: State, f: Frame, over: bool)
    requires Inv(s)
    ensures Inv(WriteFrame(s, f, over))
  {
    if !Refused(s, f, over) {
      var t := WriteFrame(s, f, over);
      WriteCacheOk(s, Stamped(s, f), t);
      EpochsWrite(s, f, t);
      forall i | 0 <= i < |t.accepted| ensures AcceptedOk(t, t.accepted[i]) {
        assert AcceptedOk(s, s.accepted[i]);
      }
    }
  }

  lemma WriteForInv(s: State, p: Publisher, f: Frame, over: bool)
    requires Inv(s)
    ensures Inv(WriteFrameForPublisher(s, p, f, over))
  {
    if Matches(s, p) && !Refused(s, f, over) {
      WriteInv(s, f, over);
      var w, t := WriteFrame(s, f, over), WriteFrameForPublisher(s, p, f, over);
      GopsOkFrame(w, t, w.cache.gops);
      EpochsFrame(w, t);
      forall i | 0 <= i < |t.accepted| ensures AcceptedOk(t, t.accepted[i]) {
        assert i < |w.accepted| ==> AcceptedOk(w, w.accepted[i]);
      }
    }
  }

  /** Every step of every actor keeps the whole invariant. */
  lemma ApplyInv(s: State, step: Step)
    requires Inv(s)
    ensures Inv(Apply(s, step))
  {
    match step
    case SetPublisherStep(p) => SetPublisherInv(s, p);
    case RemovePublisherStep => RemoveInv(s);
    case RemovePublisherIfStep(p) => RemoveInv(s);
    case CloseStep => CloseInv(s);
    case NoPublisherTimeoutStep => TimeoutInv(s, NoPublisherTimeout(s));
    case IdleTimeoutStep(n) => TimeoutInv(s, IdleTimeout(s, n));
    case UpdatePolicyStep(p, limited) => UpdatePolicyInv(s, p, limited);
    case ResetVideoStep => ResetInv(s);
    case WriteStep(f, over) => WriteInv(s, f, over);
    case WriteForStep(p, f, over) => WriteForInv(s, p, f, over);
  }

  lemma ResetInv(s: State)
    requires Inv(s)
    ensures Inv(ResetVideo(s))
  {
    GenerationsFrame(s, ResetVideo(s));
    EpochsFrame(s, ResetVideo(s));
  }

  lemma RemoveInv(s: State)
    requires Inv(s)
    ensures Inv(RemovePublisher(s))
  {
    if s.status != Destroying {
      DetachedInv(s, RemovePublisher(s));
    }
  }

  lemma CloseInv(s: State)
    requires Inv(s)
    ensures Inv(Close(s))
  {
    DetachedInv(s, Close(s));
  }

  lemma TimeoutInv(s: State, t: State)
    requires Inv(s)
    requires t == s || (s.publisher.None? && t == s.(usedIds := {}, status := Destroying))
    ensures Inv(t)
  {
    if t != s {
      DetachedInv(s, t);
    }
  }
}
