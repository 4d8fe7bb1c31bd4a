/** The imperative stream of core/stream.go: fields updated in place under the
    stream locks, over a real ring and the five GOP arrays. */
module Stream {
  import opened Options
  import opened Frames
  import opened GopPolicy
  import opened GopCache
  import RingBuffer
  import opened M = StreamModel

  class Stream {
    var policy: Policy
    var limited: bool
    var status: Status
    var publisher: Option<Publisher>
    var usedIds: set<string>
    var lastId: string
    var generations: seq<Generation>
    var genStart: nat
    var audioCodec: nat
    var audioEpoch: nat
    const ring: RingBuffer.Ring<Frame>
    const cache: GopArrays
    ghost var accepted: seq<Accepted>

    ghost predicate Valid()
      reads this, ring, ring.buf, cache
    {
      ring.Valid() && cache.Valid()
    }

    ghost function View(): (s: State)
      reads this, ring, ring.buf, cache
      requires Valid()
      ensures WellFormed(s.cache)
    {
      State(policy, limited, status, publisher, usedIds, lastId, ring.log, ring.size, ring.closed, cache.View(),
            generations, genStart, audioCodec, audioEpoch, accepted)
    }

    /** NewStream */
    constructor (p: Policy, limited: bool, ringSize: int)
      ensures Valid() && View() == M.Initial(p, limited, ringSize)
      ensures fresh(ring) && fresh(ring.buf) && fresh(cache)
    {
      policy, this.limited, status, publisher := p.Normalized(), limited, Idle, None;
      usedIds, lastId, generations, genStart := {}, "", [], 0;
      audioCodec, audioEpoch, accepted := 0, 0, [];
      ring := new RingBuffer.Ring<Frame>(ringSize);
      cache := new GopArrays();
    }

    /** closeGenerationLocked */
    method CloseGeneration()
      requires Valid()
      modifies this`generations
      ensures Valid() && View() == M.CloseGeneration(old(View()))
    {
      if generations == [] || generations[|generations| - 1].end.Some? {
        return;
      }
      var i := |generations| - 1;
      generations := generations[i := generations[i].(end := Some(ring.writeCursor))];
    }

    /** publisherMatchesLocked */
    predicate MatchesPublisher(p: Publisher)
      reads this
    {
      if status != Publishing || publisher.None? then false
      else if lastId != "" || p.id != "" then lastId != "" && lastId == p.id
      else publisher.value.obj == p.obj
    }

    /** Ends the previous generation, if one is open, and begins one at the write cursor. */
    method BeginGeneration(p: Publisher)
      requires Valid()
      modifies this`generations, this`genStart
      ensures genStart == |ring.log|
      ensures generations == M.CloseGeneration(old(View())).generations + [Generation(|ring.log|, None, p)]
    {
      CloseGeneration();
      generations := generations + [Generation(ring.writeCursor, None, p)];
      genStart := ring.writeCursor;
    }

    method AttachPublisher(p: Publisher)
      modifies this`publisher, this`lastId, this`status, this`audioCodec, this`audioEpoch, this`usedIds
      ensures publisher == Some(p) && lastId == p.id && status == Publishing
      ensures audioCodec == p.audioCodec && audioEpoch == if p.audioCodec != 0 then 1 else 0
      ensures usedIds == if p.id != "" then old(usedIds) + {p.id} else old(usedIds)
    {
      audioCodec, audioEpoch := p.audioCodec, 0;
      if audioCodec != 0 {
        audioEpoch := 1;
      }
      publisher, lastId, status := Some(p), p.id, Publishing;
      if p.id != "" {
        usedIds := usedIds + {p.id};
      }
    }

    /** The body of SetPublisher once the publisher is admitted. */
    method InstallPublisher(p: Publisher)
      requires Valid() && MayPublish(View(), p)
      modifies this, cache
      ensures Valid() && View() == M.SetPublisher(old(View()), p)
    {
      BeginGeneration(p);
      AttachPublisher(p);
      cache.Clear();
    }

    /** SetPublisher; a nil publisher is refused like every other invalid one. */
    method SetPublisher(pub: Option<Publisher>) returns (ok: bool)
      requires Valid()
      modifies this, cache
      ensures Valid()
      ensures ok == (pub.Some? && MayPublish(old(View()), pub.value))
      ensures View() == if pub.Some? then M.SetPublisher(old(View()), pub.value) else old(View())
    {
      if pub.None? || status == Publishing || status == Destroying {
        return false;
      }
      if pub.value.id != "" && pub.value.id in usedIds {
        return false;
      }
      InstallPublisher(pub.value);
      return true;
    }

    method RemovePublisher()
      requires Valid()
      modifies this
      ensures Valid() && View() == M.RemovePublisher(old(View()))
    {
      if status == Destroying {
        return;
      }
      CloseGeneration();
      publisher, status := None, NoPublisher;
    }

    method RemovePublisherIf(p: Publisher) returns (removed: bool)
      requires Valid()
      modifies this
      ensures Valid() && removed == Matches(old(View()), p)
      ensures View() == M.RemovePublisherIf(old(View()), p)
    {
      removed := MatchesPublisher(p);
      if removed {
        RemovePublisher();
      }
    }

    method Close()
      requires Valid()
      modifies this, ring
      ensures Valid() && View() == M.Close(old(View()))
    {
      if status == Destroying {
        ring.Close();
        return;
      }
      publisher := None;
      CloseGeneration();
      usedIds, status := {}, Destroying;
      ring.Close();
    }

    method NoPublisherTimeout()
      requires Valid()
      modifies this
      ensures Valid() && View() == M.NoPublisherTimeout(old(View()))
    {
      if status == NoPublisher {
        usedIds, status := {}, Destroying;
      }
    }

    method IdleTimeout(subscribers: nat)
      requires Valid()
      modifies this
      ensures Valid() && View() == M.IdleTimeout(old(View()), subscribers)
    {
      if publisher.None? && subscribers == 0 {
        usedIds, status := {}, Destroying;
      }
    }

    /** UpdatePolicy: the GOP count is cut first, then every GOP is re-bounded. */
    method UpdatePolicy(p: Policy, limited: bool)
      requires Valid()
      modifies this, cache
      ensures Valid() && View() == M.UpdatePolicy(old(View()), p, limited)
    {
      policy, this.limited := p.Normalized(), limited;
      cache.Trim(policy);
    }

    /** resetSimulcastVideo */
    method ResetVideo()
      requires Valid()
      modifies this, cache
      ensures Valid() && View() == M.ResetVideo(old(View()))
    {
      cache.Clear();
    }

    /** Audio frames are stamped with the codec epoch they belong to. */
    method Stamp(f: Frame) returns (frame: Frame)
      modifies this`audioEpoch, this`audioCodec
      requires Valid()
      ensures Valid()
      ensures frame == Stamped(old(View()), f) && audioEpoch == EpochAfter(old(View()), f)
      ensures audioCodec == if f.media == Audio then f.codec else old(audioCodec)
    {
      frame := f;
      if f.media == Audio {
        if audioEpoch == 0 || audioCodec != f.codec {
          audioEpoch := audioEpoch + 1;
        }
        audioCodec := f.codec;
        frame := f.(audioEpoch := audioEpoch);
      }
    }

    method CacheFrame(frame: Frame)
      requires Valid()
      modifies cache
      ensures Valid() && cache.View() == CacheAfter(old(View()), frame)
    {
      if policy.gopCache && policy.gopCacheNum > 0 {
        if frame.media == Video {
          if frame.kind == Keyframe {
            cache.StartGop(policy, frame, ring.writeCursor);
          } else if frame.kind != SequenceHeader {
            cache.AppendFrame(policy, frame, ring.writeCursor);
          }
        } else if frame.media == Audio && frame.kind != SequenceHeader {
          cache.AppendFrame(policy, frame, ring.writeCursor);
        }
      }
    }

    /** writeFrameLocked: the cache learns of a frame before the ring does. */
    method WriteFrame(f: Frame, over: bool) returns (ok: bool)
      requires Valid()
      modifies this`audioEpoch, this`audioCodec, ring, ring.buf, cache
      ensures Valid() && ok == !Refused(old(View()), f, over)
      ensures View() == M.WriteFrame(old(View()), f, over)
    {
      if limited && f.kind != SequenceHeader && over {
        return false;
      }
      var frame := Stamp(f);
      CacheFrame(frame);
      ring.Write(frame);
      return true;
    }

    method WriteFrameForPublisher(p: Publisher, f: Frame, over: bool) returns (ok: bool)
      requires Valid()
      modifies this, ring, ring.buf, cache
      ensures Valid() && ok == (Matches(old(View()), p) && !Refused(old(View()), f, over))
      ensures View() == M.WriteFrameForPublisher(old(View()), p, f, over)
    {
      if !MatchesPublisher(p) {
        return false;
      }
      ghost var pos, stamped := |ring.log|, Stamped(View(), f);
      ok := WriteFrame(f, over);
      if ok {
        accepted := accepted + [Accepted(pos, |generations|, p, stamped)];
      }
    }

    /** The flattened cache of startupSnapshotLocked. */
    method CachedFrames() returns (replay: seq<Frame>)
      requires Valid()
      ensures replay == Flatten(View().cache.gops)
    {
      replay := [];
      ghost var gops := View().cache.gops;
      var i := 0;
      while i < |cache.frames|
        invariant 0 <= i <= |cache.frames| == |gops|
        invariant replay == Flatten(gops[..i])
      {
        assert gops[..i + 1][..i] == gops[..i];
        replay := replay + cache.frames[i];
        i := i + 1;
      }
      assert gops[..i] == gops;
    }

    /** Copies the ring from `start` to the write cursor, without sequence headers. */
    method CopyRetained(start: nat) returns (replay: seq<Frame>, complete: bool)
      requires Valid() && RingBuffer.Oldest(|ring.log|, ring.size) <= start < |ring.log|
      ensures complete && replay == NonHeaders(ring.log[start..])
    {
      replay, complete := [], true;
      var cursor := start;
      while cursor < ring.writeCursor
        invariant start <= cursor <= |ring.log| && complete
        invariant replay == NonHeaders(ring.log[start..cursor])
      {
        var read := ring.TryRead(cursor);
        if read.NoData? || read.overwritten != 0 {
          complete := false;
          break;
        }
        assert ring.log[start..cursor + 1] == ring.log[start..cursor] + [read.value];
        NonHeadersSnoc(ring.log[start..cursor], read.value);
        if read.value.kind != SequenceHeader {
          replay := replay + [read.value];
        }
        cursor := read.next;
      }
      assert ring.log[start..|ring.log|] == ring.log[start..];
    }

    /** retainedStartupReplayLocked */
    method RetainedReplay() returns (replay: seq<Frame>, source: nat)
      requires Valid()
      ensures var r := FirstRetained(View(), View().cache.gops);
              if r.Some? then source == r.value && replay == NonHeaders(ring.log[r.value..])
              else source == |ring.log| && replay == []
    {
      ghost var s := View();
      ghost var gops := s.cache.gops;
      var i := 0;
      while i < |cache.starts|
        invariant 0 <= i <= |cache.starts| == |gops|
        invariant FirstRetained(s, gops) == FirstRetained(s, gops[i..])
      {
        var start := cache.starts[i];
        assert gops[i..][0] == gops[i] && gops[i..][1..] == gops[i + 1..];
        assert GopArrays.Exact(cache.frames[i], cache.at[i], cache.starts[i], cache.bytes[i], cache.minDts[i], cache.maxDts[i]);
        var first := ring.TryRead(start);
        if first.Read? && first.overwritten == 0 && first.value.kind == Keyframe {
          var complete;
          replay, complete := CopyRetained(start);
          if complete {
            return replay, start;
          }
        }
        i := i + 1;
      }
      return [], ring.writeCursor;
    }

    /** startupSnapshotLocked */
    method StartupSnapshot() returns (snap: Snapshot)
      requires Valid()
      ensures snap == TakeSnapshot(View())
    {
      var live := ring.writeCursor;
      var source := live;
      if |cache.starts| > 0 {
        assert GopArrays.Exact(cache.frames[0], cache.at[0], cache.starts[0], cache.bytes[0], cache.minDts[0], cache.maxDts[0]);
        source := cache.starts[0];
      }
      var replay := CachedFrames();
      if live - source > |replay| {
        replay, source := RetainedReplay();
      }
      snap := Snapshot(|generations|, genStart, replay, source, live, audioEpoch);
    }
  }
}
