/** The per-GOP cache bounds of core/stream.go and what they admit. */
module GopPolicy {
  import opened Frames

  const DEFAULT_MAX_FRAMES := 300
  const NANOS_PER_MILLI := 1_000_000

  /** The GOP-cache part of config.StreamConfig. `maxDuration` is in nanoseconds. */
  datatype Policy = Policy(gopCache: bool, gopCacheNum: int,
                           maxFrames: int, maxBytes: int, maxDuration: Int64)
  {
    predicate Enabled() { gopCache && gopCacheNum > 0 }

    /** normalizeGOPConfig: an enabled cache never runs without any size bound. */
    function Normalized(): (p: Policy)
      ensures p.Enabled() == Enabled()
      ensures p.Enabled() ==> p.maxFrames > 0 || p.maxBytes > 0
      ensures p != this ==> Enabled() && maxFrames <= 0 && maxBytes <= 0
    {
      if Enabled() && maxFrames <= 0 && maxBytes <= 0 then this.(maxFrames := DEFAULT_MAX_FRAMES) else this
    }
  }

  // ------------------------------------------------------------------
  // Decode-time spans
  // ------------------------------------------------------------------

  /** dtsSpanMillis: the saturating span of two timestamps. Every intermediate
      value is an Int64, so the arithmetic itself cannot wrap around. */
  function DtsSpanMillis(a: Int64, b: Int64): (span: Int64)
    ensures span >= 0
    ensures span as int == MinInt(AbsInt(b as int - a as int), MAX_INT64 as int)
  {
    var lo, hi := if b < a then b else a, if b < a then a else b;
    if lo < 0 && hi > MAX_INT64 + lo then MAX_INT64 else hi - lo
  }

  function MinInt(a: int, b: int): int { if a <= b then a else b }
  function AbsInt(a: int): int { if a < 0 then -a else a }

  /** gopDurationExceeded */
  predicate DurationExceeded(lo: Int64, hi: Int64, limit: Int64) {
    limit > 0 && lo <= hi && DtsSpanMillis(lo, hi) > limit / 1_000_000
  }

  /** gopDurationAtLeast */
  predicate DurationAtLeast(lo: Int64, hi: Int64, limit: Int64) {
    limit > 0 && lo <= hi && DtsSpanMillis(lo, hi) >= limit / 1_000_000
  }

  /** Saturation never changes a verdict: for all 64-bit timestamps and limits the
      two comparisons are those of unbounded integer subtraction. */
  lemma SaturationIsExact(lo: Int64, hi: Int64, limit: Int64)
    requires lo <= hi && limit > 0
    ensures DurationExceeded(lo, hi, limit) <==> hi as int - lo as int > limit as int / NANOS_PER_MILLI
    ensures DurationAtLeast(lo, hi, limit) <==> hi as int - lo as int >= limit as int / NANOS_PER_MILLI
  {
    assert limit as int / NANOS_PER_MILLI < MAX_INT64 as int;
    assert (limit / 1_000_000) as int == limit as int / NANOS_PER_MILLI;
  }

  // ------------------------------------------------------------------
  // Totals of a run of frames
  // ------------------------------------------------------------------

  function Bytes(s: seq<Frame>): nat {
    if s == [] then 0 else Bytes(s[..|s| - 1]) + s[|s| - 1].size
  }

  function MinDts(s: seq<Frame>): Int64
    requires s != []
  {
    if |s| == 1 then s[0].dts
    else var m := MinDts(s[..|s| - 1]); if s[|s| - 1].dts < m then s[|s| - 1].dts else m
  }

  function MaxDts(s: seq<Frame>): Int64
    requires s != []
  {
    if |s| == 1 then s[0].dts
    else var m := MaxDts(s[..|s| - 1]); if s[|s| - 1].dts > m then s[|s| - 1].dts else m
  }

  lemma TotalsSnoc(s: seq<Frame>, f: Frame)
    ensures Bytes(s + [f]) == Bytes(s) + f.size
    ensures s != [] ==> MinDts(s + [f]) == if f.dts < MinDts(s) then f.dts else MinDts(s)
    ensures s != [] ==> MaxDts(s + [f]) == if f.dts > MaxDts(s) then f.dts else MaxDts(s)
  {
    assert (s + [f])[..|s|] == s;
  }

  lemma {:induction false} DtsBounds(s: seq<Frame>, i: nat)
    requires i < |s|
    ensures MinDts(s) <= s[i].dts <= MaxDts(s)
  {
    if i < |s| - 1 {
      DtsBounds(s[..|s| - 1], i);
    }
  }

  lemma {:induction false} MinBelowMax(s: seq<Frame>)
    requires s != []
    ensures MinDts(s) <= MaxDts(s)
  {
    DtsBounds(s, 0);
  }

  /** Totals only grow along a run. */
  lemma {:induction false} TotalsMonotone(s: seq<Frame>, j: nat, k: nat)
    requires 1 <= j <= k <= |s|
    ensures Bytes(s[..j]) <= Bytes(s[..k])
    ensures MinDts(s[..k]) <= MinDts(s[..j])
    ensures MaxDts(s[..j]) <= MaxDts(s[..k])
    decreases k
  {
    if j < k {
      TotalsMonotone(s, j, k - 1);
      assert s[..k] == s[..k - 1] + [s[k - 1]];
      TotalsSnoc(s[..k - 1], s[k - 1]);
    }
  }

  // ------------------------------------------------------------------
  // What the bounds admit
  // ------------------------------------------------------------------

  predicate WithinFrames(p: Policy, n: nat) { p.maxFrames <= 0 || n <= p.maxFrames }

  /** The span in milliseconds, as an unbounded integer, within the duration bound. */
  predicate WithinDuration(p: Policy, s: seq<Frame>)
    requires s != []
  {
    p.maxDuration <= 0
    || MaxDts(s) as int - MinDts(s) as int <= p.maxDuration as int / NANOS_PER_MILLI
  }

  /** A cached GOP meets the policy; a lone keyframe may exceed the byte bound. */
  predicate Fits(p: Policy, s: seq<Frame>)
    requires s != []
  {
    && WithinFrames(p, |s|)
    && (p.maxBytes <= 0 || Bytes(s) <= p.maxBytes || |s| == 1)
    && WithinDuration(p, s)
  }

  /** A prefix of k frames a policy update may keep: within every bound, and no
      frame beyond a byte bound already reached. The keyframe is always kept. */
  predicate Admits(p: Policy, s: seq<Frame>, k: nat)
    requires 1 <= k <= |s|
  {
    k == 1
    || (&& WithinFrames(p, k)
        && (p.maxBytes <= 0 || (Bytes(s[..k]) <= p.maxBytes && Bytes(s[..k - 1]) < p.maxBytes))
        && WithinDuration(p, s[..k]))
  }

  /** k is the longest keyframe-led prefix the policy admits. */
  ghost predicate IsLongestAdmitted(p: Policy, s: seq<Frame>, k: nat)
  {
    && 1 <= k <= |s|
    && Admits(p, s, k)
    && (forall j :: k < j <= |s| ==> !Admits(p, s, j))
  }

  /** Admission is downward closed, so the longest admitted prefix is the point
      at which admission stops for good. */
  lemma AdmitsDownward(p: Policy, s: seq<Frame>, j: nat, k: nat)
    requires 1 <= j <= k <= |s| && Admits(p, s, k)
    ensures Admits(p, s, j)
  {
    if 1 < j < k {
      TotalsMonotone(s, j, k);
      TotalsMonotone(s, j, k - 1);
      TotalsMonotone(s, j - 1, k - 1);
    }
  }

  lemma LongestIsUnique(p: Policy, s: seq<Frame>, j: nat, k: nat)
    requires IsLongestAdmitted(p, s, j) && IsLongestAdmitted(p, s, k)
    ensures j == k
  {
  }

  lemma AdmittedFits(p: Policy, s: seq<Frame>, k: nat)
    requires 1 <= k <= |s| && Admits(p, s, k)
    ensures Fits(p, s[..k])
  {
    if k == 1 {
      assert s[..1] == [s[0]];
    }
  }
}
