/** The bounded GOP cache: what it should hold (value level) and the five parallel
    arrays of core/stream.go that hold it. */
module GopCache {
  import opened Frames
  import opened GopPolicy

  /** One cached GOP. `at[i]` is the ring write cursor at which `frames[i]` was cached. */
  datatype Gop = Gop(frames: seq<Frame>, at: seq<nat>)

  datatype Cache = Cache(gops: seq<Gop>, sealed: bool)

  const EMPTY := Cache([], false)

  // ------------------------------------------------------------------
  // Value-level specification
  // ------------------------------------------------------------------

  function KeepLast<T>(s: seq<T>, n: nat): seq<T> {
    if |s| > n then s[|s| - n..] else s
  }

  /** The last GOP admits no further frame under the current bounds. */
  predicate AtBound(p: Policy, s: seq<Frame>)
    requires s != []
  {
    || (p.maxFrames > 0 && |s| >= p.maxFrames)
    || (p.maxBytes > 0 && Bytes(s) >= p.maxBytes)
    || (p.maxDuration > 0 && MaxDts(s) as int - MinDts(s) as int >= p.maxDuration as int / NANOS_PER_MILLI)
  }

  predicate WellFormed(c: Cache) {
    forall i :: 0 <= i < |c.gops| ==> c.gops[i].frames != [] && |c.gops[i].at| == |c.gops[i].frames|
  }

  function Started(p: Policy, c: Cache, f: Frame, cursor: nat): Cache
    requires p.Enabled()
  {
    Cache(KeepLast(c.gops + [Gop([f], [cursor])], p.gopCacheNum), false)
  }

  /** A frame joins the last GOP exactly when the longer GOP still fits; the first
      refusal, or reaching a bound, seals the GOP. */
  function Joined(p: Policy, c: Cache, f: Frame, cursor: nat): Cache
    requires WellFormed(c)
  {
    if c.gops == [] || c.sealed then c
    else
      var g := c.gops[|c.gops| - 1];
      if Fits(p, g.frames + [f])
      then Cache(c.gops[|c.gops| - 1 := Gop(g.frames + [f], g.at + [cursor])], AtBound(p, g.frames + [f]))
      else c.(sealed := true)
  }

  lemma {:induction false} LongestExists(p: Policy, s: seq<Frame>, k: nat)
    requires 1 <= k <= |s|
    requires forall j :: k < j <= |s| ==> !Admits(p, s, j)
    ensures exists r :: IsLongestAdmitted(p, s, r)
  {
    if Admits(p, s, k) {
      assert IsLongestAdmitted(p, s, k);
    } else {
      LongestExists(p, s, k - 1);
    }
  }

  /** The longest prefix the policy admits; it exists and is unique. */
  ghost function LongestAdmitted(p: Policy, s: seq<Frame>): (r: nat)
    requires s != []
    ensures IsLongestAdmitted(p, s, r)
  {
    LongestExists(p, s, |s|);
    var r :| IsLongestAdmitted(p, s, r);
    r
  }

  ghost function TrimGop(p: Policy, g: Gop): Gop
    requires g.frames != [] && |g.at| == |g.frames|
  {
    var k := LongestAdmitted(p, g.frames);
    Gop(g.frames[..k], g.at[..k])
  }

  ghost function TrimGops(p: Policy, gops: seq<Gop>): (r: seq<Gop>)
    requires WellFormed(Cache(gops, false))
    ensures |r| == |gops| && forall i :: 0 <= i < |r| ==> r[i] == TrimGop(p, gops[i])
  {
    seq(|gops|, i requires 0 <= i < |gops| => TrimGop(p, gops[i]))
  }

  /** Every GOP cut to its longest admitted prefix; sealed when the last one was cut. */
  ghost function CutEach(p: Policy, gops: seq<Gop>): (c: Cache)
    requires WellFormed(Cache(gops, false))
    ensures WellFormed(c)
  {
    var cut := TrimGops(p, gops);
    Cache(cut, cut != [] && |cut[|cut| - 1].frames| < |gops[|gops| - 1].frames|)
  }

  function SealedAtBound(p: Policy, c: Cache): Cache
    requires WellFormed(c)
  {
    Cache(c.gops, c.sealed || (c.gops != [] && AtBound(p, c.gops[|c.gops| - 1].frames)))
  }

  /** The cache after a policy update: the newest GOPs, each cut to its longest
      admitted prefix; sealed when the last one was cut or is at a bound. */
  ghost function Trimmed(p: Policy, c: Cache): Cache
    requires WellFormed(c)
  {
    if !p.Enabled() then EMPTY
    else SealedAtBound(p, CutEach(p, KeepLast(c.gops, p.gopCacheNum)))
  }

  function Flatten(gops: seq<Gop>): seq<Frame> {
    if gops == [] then [] else Flatten(gops[..|gops| - 1]) + gops[|gops| - 1].frames
  }

  function Positions(gops: seq<Gop>): seq<nat> {
    if gops == [] then [] else Positions(gops[..|gops| - 1]) + gops[|gops| - 1].at
  }

  // ------------------------------------------------------------------
  // The bounds every operation keeps
  // ------------------------------------------------------------------

  /** At most GOPCacheNum GOPs, each keyframe-led and within the current bounds. */
  ghost predicate Bounded(p: Policy, c: Cache) {
    && WellFormed(c)
    && (!p.Enabled() ==> c == EMPTY)
    && (p.Enabled() ==> |c.gops| <= p.gopCacheNum)
    && (forall i :: 0 <= i < |c.gops| ==> c.gops[i].frames[0].StartsGop() && Fits(p, c.gops[i].frames))
  }

  lemma StartedIsBounded(p: Policy, c: Cache, f: Frame, cursor: nat)
    requires Bounded(p, c) && p.Enabled() && f.StartsGop()
    ensures Bounded(p, Started(p, c, f, cursor))
  {
  }

  lemma JoinedIsBounded(p: Policy, c: Cache, f: Frame, cursor: nat)
    requires Bounded(p, c)
    ensures Bounded(p, Joined(p, c, f, cursor))
  {
  }

  /** Trimming re-establishes the bounds of the new policy from any cache whose
      GOPs are keyframe-led, whatever policy they were collected under. */
  lemma TrimmedIsBounded(p: Policy, c: Cache)
    requires WellFormed(c)
    requires forall i :: 0 <= i < |c.gops| ==> c.gops[i].frames[0].StartsGop()
    ensures Bounded(p, Trimmed(p, c))
  {
    if p.Enabled() {
      var kept := KeepLast(c.gops, p.gopCacheNum);
      forall i | 0 <= i < |kept| ensures Fits(p, TrimGop(p, kept[i]).frames) {
        AdmittedFits(p, kept[i].frames, LongestAdmitted(p, kept[i].frames));
      }
    }
  }

  // ------------------------------------------------------------------
  // The five arrays
  // ------------------------------------------------------------------

  predicate BytesAdmit(p: Policy, s: seq<Frame>, k: nat)
    requires 1 <= k <= |s|
  {
    k == 1 || (Bytes(s[..k]) <= p.maxBytes && Bytes(s[..k - 1]) < p.maxBytes)
  }

  predicate DurationAdmit(p: Policy, s: seq<Frame>, k: nat)
    requires 1 <= k <= |s|
  {
    k == 1 || WithinDuration(p, s[..k])
  }

  /** The byte pass over gop[:limit]. */
  method ByteLimit(p: Policy, gop: seq<Frame>, limit: nat) returns (k: nat)
    requires p.maxBytes > 0 && 1 <= limit <= |gop|
    ensures 1 <= k <= limit && BytesAdmit(p, gop, k)
    ensures k < limit ==> !BytesAdmit(p, gop, k + 1)
  {
    var bytes := 0;
    k := 0;
    while k < limit
      invariant 0 <= k <= limit
      invariant bytes == Bytes(gop[..k])
      invariant k > 0 ==> BytesAdmit(p, gop, k) && bytes < p.maxBytes
    {
      assert gop[..k + 1] == gop[..k] + [gop[k]];
      TotalsSnoc(gop[..k], gop[k]);
      if k > 0 && bytes + gop[k].size > p.maxBytes {
        break;
      }
      bytes := bytes + gop[k].size;
      k := k + 1;
      if bytes >= p.maxBytes {
        break;
      }
    }
  }

  /** The duration pass over gop[:limit]. */
  method DurationLimit(p: Policy, gop: seq<Frame>, limit: nat) returns (k: nat)
    requires p.maxDuration > 0 && 1 <= limit <= |gop|
    ensures 1 <= k <= limit && DurationAdmit(p, gop, k)
    ensures k < limit ==> !DurationAdmit(p, gop, k + 1)
  {
    k := 1;
    var minDts, maxDts := gop[0].dts, gop[0].dts;
    assert gop[..1] == [gop[0]];
    while k < limit
      invariant 1 <= k <= limit
      invariant minDts == MinDts(gop[..k]) && maxDts == MaxDts(gop[..k])
      invariant DurationAdmit(p, gop, k)
    {
      assert gop[..k + 1] == gop[..k] + [gop[k]];
      TotalsSnoc(gop[..k], gop[k]);
      MinBelowMax(gop[..k + 1]);
      var lo := if gop[k].dts < minDts then gop[k].dts else minDts;
      var hi := if gop[k].dts > maxDts then gop[k].dts else maxDts;
      SaturationIsExact(lo, hi, p.maxDuration);
      if DurationExceeded(lo, hi, p.maxDuration) {
        break;
      }
      minDts, maxDts := lo, hi;
      k := k + 1;
    }
  }

  /** Three limits, each narrowing the one before, end at the longest prefix that
      all three bounds admit together. */
  lemma NarrowedIsLongest(p: Policy, gop: seq<Frame>, byFrames: nat, byBytes: nat, limit: nat)
    requires 1 <= limit <= byBytes <= byFrames <= |gop|
    requires WithinFrames(p, byFrames) && (byFrames < |gop| ==> !WithinFrames(p, byFrames + 1))
    requires if p.maxBytes <= 0 then byBytes == byFrames
             else BytesAdmit(p, gop, byBytes) && (byBytes < byFrames ==> !BytesAdmit(p, gop, byBytes + 1))
    requires if p.maxDuration <= 0 then limit == byBytes
             else DurationAdmit(p, gop, limit) && (limit < byBytes ==> !DurationAdmit(p, gop, limit + 1))
    ensures IsLongestAdmitted(p, gop, limit)
  {
    assert Admits(p, gop, limit) by {
      if p.maxBytes > 0 && 1 < limit < byBytes {
        TotalsMonotone(gop, limit, byBytes);
        TotalsMonotone(gop, limit - 1, byBytes - 1);
      }
    }
    assert limit < |gop| ==> !Admits(p, gop, limit + 1);
    forall j | limit < j <= |gop| ensures !Admits(p, gop, j) {
      if Admits(p, gop, j) {
        AdmitsDownward(p, gop, limit + 1, j);
      }
    }
  }

  /** The three successive narrowing passes keep the longest admitted prefix. */
  method NarrowingPasses(p: Policy, gop: seq<Frame>) returns (limit: nat)
    requires p.Enabled() && gop != []
    ensures IsLongestAdmitted(p, gop, limit)
  {
    limit := |gop|;
    if p.maxFrames > 0 && limit > p.maxFrames {
      limit := p.maxFrames;
    }
    ghost var byFrames := limit;
    if p.maxBytes > 0 {
      limit := ByteLimit(p, gop, limit);
    }
    ghost var byBytes := limit;
    if p.maxDuration > 0 {
      limit := DurationLimit(p, gop, limit);
    }
    NarrowedIsLongest(p, gop, byFrames, byBytes, limit);
  }

  function Zip(frames: seq<seq<Frame>>, at: seq<seq<nat>>): (gops: seq<Gop>)
    requires |frames| == |at|
    ensures |gops| == |frames| && forall i :: 0 <= i < |gops| ==> gops[i] == Gop(frames[i], at[i])
  {
    seq(|frames|, i requires 0 <= i < |frames| => Gop(frames[i], at[i]))
  }

  /** The cache fields of Stream: gopCache, gopStarts, gopBytes, gopMinDTS,
      gopMaxDTS and gopCacheSealed. `at` is proof-only. */
  class GopArrays {
    var frames: seq<seq<Frame>>
    var starts: seq<nat>
    var bytes: seq<int>
    var minDts: seq<Int64>
    var maxDts: seq<Int64>
    var sealed: bool
    ghost var at: seq<seq<nat>>

    /** Equal lengths, and every derived entry exact. */
    ghost predicate Valid()
      reads this
    {
      && |frames| == |starts| == |bytes| == |minDts| == |maxDts| == |at|
      && (forall i :: 0 <= i < |frames| ==> Exact(frames[i], at[i], starts[i], bytes[i], minDts[i], maxDts[i]))
    }

    static ghost predicate Exact(gop: seq<Frame>, at: seq<nat>, start: nat, total: int, lo: Int64, hi: Int64) {
      && gop != [] && |at| == |gop| && start == at[0]
      && total == Bytes(gop) && lo == MinDts(gop) && hi == MaxDts(gop)
    }

    static lemma OneFrameIsExact(f: Frame, cursor: nat)
      ensures Exact([f], [cursor], cursor, f.size, f.dts, f.dts)
    {
      assert [f][..0] == [];
      assert Bytes([f]) == Bytes([f][..0]) + f.size;
    }

    ghost function View(): (c: Cache)
      reads this
      requires Valid()
      ensures WellFormed(c)
    {
      Cache(Zip(frames, at), sealed)
    }

    constructor ()
      ensures Valid() && View() == EMPTY
    {
      frames, starts, bytes, minDts, maxDts, at, sealed := [], [], [], [], [], [], false;
    }

    method Clear()
      modifies this
      ensures Valid() && View() == EMPTY
    {
      frames, starts, bytes, minDts, maxDts, at, sealed := [], [], [], [], [], [], false;
    }

    method KeepNewest(n: nat)
      requires Valid()
      modifies this
      ensures Valid() && View() == Cache(KeepLast(old(View()).gops, n), old(sealed))
    {
      if |frames| > n {
        var d := |frames| - n;
        frames, starts, bytes, minDts, maxDts := frames[d..], starts[d..], bytes[d..], minDts[d..], maxDts[d..];
        at := at[d..];
      }
    }

    /** A keyframe opens a GOP at the current write cursor. */
    method StartGop(p: Policy, f: Frame, cursor: nat)
      requires Valid() && p.Enabled()
      modifies this
      ensures Valid() && View() == Started(p, old(View()), f, cursor)
    {
      frames, starts, bytes := frames + [[f]], starts + [cursor], bytes + [f.size];
      minDts, maxDts, at := minDts + [f.dts], maxDts + [f.dts], at + [[cursor]];
      sealed := false;
      OneFrameIsExact(f, cursor);
      assert View().gops == old(View()).gops + [Gop([f], [cursor])];
      KeepNewest(p.gopCacheNum);
    }

    /** currentGOPAtBoundLocked, and the seal it sets. */
    method SealAtBound(p: Policy)
      requires Valid()
      modifies this`sealed
      ensures Valid() && View() == SealedAtBound(p, old(View()))
    {
      if frames == [] {
        return;
      }
      var i := |frames| - 1;
      assert Exact(frames[i], at[i], starts[i], bytes[i], minDts[i], maxDts[i]);
      MinBelowMax(frames[i]);
      var full := p.maxFrames > 0 && |frames[i]| >= p.maxFrames;
      if !full && p.maxBytes > 0 {
        full := bytes[i] >= p.maxBytes;
      }
      if !full && p.maxDuration > 0 {
        SaturationIsExact(minDts[i], maxDts[i], p.maxDuration);
        full := DurationAtLeast(minDts[i], maxDts[i], p.maxDuration);
      }
      if full {
        sealed := true;
      }
    }

    /** The three refusals of appendGOPFrameLocked. */
    static method MayJoin(p: Policy, gop: seq<Frame>, total: int, minDts: Int64, maxDts: Int64, f: Frame)
      returns (ok: bool, lo: Int64, hi: Int64)
      requires gop != [] && total == Bytes(gop) && minDts == MinDts(gop) && maxDts == MaxDts(gop)
      ensures ok == Fits(p, gop + [f])
      ensures lo == MinDts(gop + [f]) && hi == MaxDts(gop + [f])
    {
      TotalsSnoc(gop, f);
      MinBelowMax(gop + [f]);
      lo := if f.dts < minDts then f.dts else minDts;
      hi := if f.dts > maxDts then f.dts else maxDts;
      if p.maxFrames > 0 && |gop| >= p.maxFrames {
        return false, lo, hi;
      }
      if p.maxBytes > 0 && total + f.size > p.maxBytes {
        return false, lo, hi;
      }
      if p.maxDuration > 0 {
        SaturationIsExact(lo, hi, p.maxDuration);
      }
      ok := !(p.maxDuration > 0 && DurationExceeded(lo, hi, p.maxDuration));
    }

    /** appendGOPFrameLocked */
    method AppendFrame(p: Policy, f: Frame, cursor: nat)
      requires Valid()
      modifies this
      ensures Valid() && View() == Joined(p, old(View()), f, cursor)
    {
      if frames == [] || sealed {
        return;
      }
      var i := |frames| - 1;
      var gop := frames[i];
      assert Exact(gop, at[i], starts[i], bytes[i], minDts[i], maxDts[i]);
      var ok, lo, hi := MayJoin(p, gop, bytes[i], minDts[i], maxDts[i], f);
      if !ok {
        sealed := true;
        return;
      }
      TotalsSnoc(gop, f);
      frames := frames[i := gop + [f]];
      bytes := bytes[i := bytes[i] + f.size];
      minDts, maxDts := minDts[i := lo], maxDts[i := hi];
      at := at[i := at[i] + [cursor]];
      assert View().gops == Joined(p, old(View()), f, cursor).gops;
      SealAtBound(p);
    }

    /** Recomputes the derived entries of one cut GOP. */
    static method Recount(gop: seq<Frame>) returns (total: int, lo: Int64, hi: Int64)
      requires gop != []
      ensures total == Bytes(gop) && lo == MinDts(gop) && hi == MaxDts(gop)
    {
      total, lo, hi := gop[0].size, gop[0].dts, gop[0].dts;
      assert gop[..1] == [gop[0]];
      var n := 1;
      while n < |gop|
        invariant 1 <= n <= |gop|
        invariant total == Bytes(gop[..n]) && lo == MinDts(gop[..n]) && hi == MaxDts(gop[..n])
      {
        assert gop[..n + 1] == gop[..n] + [gop[n]];
        TotalsSnoc(gop[..n], gop[n]);
        total := total + gop[n].size;
        if gop[n].dts < lo { lo := gop[n].dts; }
        if gop[n].dts > hi { hi := gop[n].dts; }
        n := n + 1;
      }
      assert gop[..n] == gop;
    }

    /** Cuts one GOP to its longest admitted prefix and recounts it. */
    method TrimAt(p: Policy, i: nat) returns (cut: bool)
      requires Valid() && p.Enabled() && i < |frames|
      modifies this
      ensures Valid() && sealed == old(sealed)
      ensures View().gops == old(View()).gops[i := TrimGop(p, old(View()).gops[i])]
      ensures cut == (|View().gops[i].frames| < |old(View()).gops[i].frames|)
    {
      var gop := frames[i];
      assert Exact(gop, at[i], starts[i], bytes[i], minDts[i], maxDts[i]);
      var limit := NarrowingPasses(p, gop);
      LongestIsUnique(p, gop, limit, LongestAdmitted(p, gop));
      var total, lo, hi := Recount(gop[..limit]);
      assert TrimGop(p, old(View()).gops[i]) == Gop(gop[..limit], at[i][..limit]);
      frames := frames[i := gop[..limit]];
      bytes, minDts, maxDts := bytes[i := total], minDts[i := lo], maxDts[i := hi];
      at := at[i := at[i][..limit]];
      assert Exact(frames[i], at[i], starts[i], bytes[i], minDts[i], maxDts[i]);
      cut := limit < |gop|;
    }

    /** The loop over the cached GOPs; seals when the last one was cut. */
    method TrimEach(p: Policy)
      requires Valid() && p.Enabled() && !sealed
      modifies this
      ensures Valid() && View() == CutEach(p, old(View()).gops)
    {
      ghost var kept := View().gops;
      ghost var goal := TrimGops(p, kept);
      var lastCut := false;
      var i := 0;
      while i < |frames|
        invariant 0 <= i <= |frames| == |kept|
        invariant Valid() && !sealed
        invariant MixedAt(View().gops, goal, kept, i)
        invariant i > 0 ==> lastCut == (|goal[i - 1].frames| < |kept[i - 1].frames|)
      {
        ghost var before := View().gops;
        lastCut := TrimAt(p, i);
        StepMixed(before, View().gops, goal, kept, i);
        i := i + 1;
      }
      MixedDone(View().gops, goal, kept);
      if |frames| > 0 && lastCut {
        sealed := true;
      }
    }

    static ghost predicate MixedAt(gops: seq<Gop>, done: seq<Gop>, todo: seq<Gop>, i: nat) {
      && |gops| == |done| == |todo|
      && (forall j :: 0 <= j < i && j < |gops| ==> gops[j] == done[j])
      && (forall j :: i <= j < |gops| ==> gops[j] == todo[j])
    }

    static lemma StepMixed(before: seq<Gop>, after: seq<Gop>, done: seq<Gop>, todo: seq<Gop>, i: nat)
      requires i < |before| && MixedAt(before, done, todo, i) && after == before[i := done[i]]
      ensures MixedAt(after, done, todo, i + 1)
    {
    }

    static lemma MixedDone(gops: seq<Gop>, done: seq<Gop>, todo: seq<Gop>)
      requires MixedAt(gops, done, todo, |gops|)
      ensures gops == done
    {
    }

    /** trimGOPCacheLocked */
    method Trim(p: Policy)
      requires Valid()
      modifies this
      ensures Valid() && View() == Trimmed(p, old(View()))
    {
      sealed := false;
      if !p.Enabled() {
        Clear();
        return;
      }
      KeepNewest(p.gopCacheNum);
      TrimEach(p);
      SealAtBound(p);
    }
  }
}
