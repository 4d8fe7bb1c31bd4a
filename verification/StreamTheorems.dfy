/** Whole-run results about the stream: startup snapshots, generations, destruction. */
module StreamTheorems {
  import opened Options
  import opened Frames
  import opened GopPolicy
  import opened GopCache
  import opened RingBuffer
  import opened StreamModel
  import opened StreamSafety

  /** The state after any sequence of steps by any actors. */
  ghost function Run(s: State, steps: seq<Step>): (t: State)
    requires Inv(s)
    ensures Inv(t)
    decreases |steps|
  {
    if steps == [] then s
    else
      ApplyInv(s, steps[0]);
      Run(Apply(s, steps[0]), steps[1..])
  }

  /** A reachable state: any run of a new stream. */
  ghost function Reached(p: Policy, limited: bool, ringSize: int, steps: seq<Step>): (t: State)
    ensures Inv(t)
  {
    InitialInv(p, limited, ringSize);
    Run(Initial(p, limited, ringSize), steps)
  }

  // ------------------------------------------------------------------
  // Startup snapshots agree with the log
  // ------------------------------------------------------------------

  /** What a late joiner is promised. The replay is the log from the source cursor
      to the live cursor without its sequence headers; it is keyframe-led, lies in
      the current generation, and no cached GOP that the ring still holds is older. */
  ghost predicate ExactSnapshot(s: State, snap: Snapshot) {
    && s.genStart == snap.genStart <= snap.source <= snap.live == |s.log|
    && snap.replay == NonHeaders(s.log[snap.source..snap.live])
    && (snap.source < snap.live ==> snap.replay != [] && snap.replay[0] == s.log[snap.source] && snap.replay[0].StartsGop())
    && (forall i :: 0 <= i < |s.cache.gops| && |s.cache.gops[i].at| > 0 && s.cache.gops[i].at[0] < snap.source ==>
          !Retained(s, s.cache.gops[i].at[0]))
  }

  /** Every cached frame reached the ring. Holds whenever the ring is open. */
  ghost predicate AllLogged(s: State) {
    forall i :: 0 <= i < |Positions(s.cache.gops)| ==> Positions(s.cache.gops)[i] < |s.log|
  }

  /** Ring positions between the first cached keyframe and the write cursor. */
  function Distance(s: State): nat
    requires CacheOk(s)
  {
    if s.cache.gops == [] then 0
    else
      var g := s.cache.gops[0];
      assert GopOk(s, g) && EntryOk(s, g.frames[0], g.at[0]);
      |s.log| - g.at[0]
  }

  lemma {:induction false} FlattenShape(gops: seq<Gop>)
    requires WellFormed(Cache(gops, false))
    ensures |Flatten(gops)| == |Positions(gops)|
    ensures gops != [] ==> Flatten(gops) != [] && Flatten(gops)[0] == gops[0].frames[0] && Positions(gops)[0] == gops[0].at[0]
    decreases |gops|
  {
    if gops != [] {
      FlattenShape(gops[..|gops| - 1]);
    }
  }

  /** Which GOP, and which of its frames, a position in the flattened cache belongs to. */
  lemma {:induction false} FlattenIndex(gops: seq<Gop>, i: nat) returns (a: nat, b: nat)
    requires WellFormed(Cache(gops, false)) && |Flatten(gops)| == |Positions(gops)| && i < |Positions(gops)|
    ensures a < |gops| && b < |gops[a].at|
    ensures gops[a].at[b] == Positions(gops)[i] && gops[a].frames[b] == Flatten(gops)[i]
    ensures a < |gops| - 1 <==> i < |Positions(gops[..|gops| - 1])|
    ensures a == |gops| - 1 ==> b == i - |Positions(gops[..|gops| - 1])|
    decreases |gops|
  {
    var m := gops[..|gops| - 1];
    FlattenShape(m);
    if i < |Positions(m)| {
      a, b := FlattenIndex(m, i);
    } else {
      a, b := |gops| - 1, i - |Positions(m)|;
    }
  }

  lemma FlattenEntry(s: State, gops: seq<Gop>, i: nat)
    requires WellFormed(Cache(gops, false)) && GopsOk(s, gops) && |Flatten(gops)| == |Positions(gops)|
    requires i < |Positions(gops)|
    ensures EntryOk(s, Flatten(gops)[i], Positions(gops)[i])
  {
    var a, b := FlattenIndex(gops, i);
    assert GopOk(s, gops[a]);
  }

  lemma {:induction false} FlattenOrdered(s: State, gops: seq<Gop>, i: nat, j: nat)
    requires WellFormed(Cache(gops, false)) && GopsOk(s, gops)
    requires i < j < |Positions(gops)|
    ensures Before(Positions(gops)[i], Positions(gops)[j], |s.log|)
    decreases |gops|
  {
    FlattenShape(gops);
    var m := gops[..|gops| - 1];
    if j < |Positions(m)| {
      FlattenOrdered(s, m, i, j);
    } else {
      var a, b := FlattenIndex(gops, i);
      var c, d := FlattenIndex(gops, j);
      if a < c {
        assert Apart(gops[a], gops[c], |s.log|);
      } else {
        assert GopOk(s, gops[a]);
      }
    }
  }

  /** The flattened cache is a subsequence of the log, in log order. */
  lemma FlattenOk(s: State)
    requires CacheOk(s)
    ensures var F, P := Flatten(s.cache.gops), Positions(s.cache.gops);
            && |F| == |P|
            && (forall i :: 0 <= i < |P| ==> EntryOk(s, F[i], P[i]))
            && (forall i, j :: 0 <= i < j < |P| ==> Before(P[i], P[j], |s.log|))
            && (s.cache.gops != [] ==> F != [] && F[0] == s.cache.gops[0].frames[0] && P[0] == s.cache.gops[0].at[0])
  {
    var gops := s.cache.gops;
    FlattenShape(gops);
    forall i | 0 <= i < |Positions(gops)| ensures EntryOk(s, Flatten(gops)[i], Positions(gops)[i]) {
      FlattenEntry(s, gops, i);
    }
    forall i, j | 0 <= i < j < |Positions(gops)| ensures Before(Positions(gops)[i], Positions(gops)[j], |s.log|) {
      FlattenOrdered(s, gops, i, j);
    }
  }

  /** Strictly increasing positions that are as many as the room they have fill it. */
  lemma {:induction false} DenseIsContiguous(P: seq<nat>, n: nat, i: nat)
    requires i < |P| && n - P[0] <= |P|
    requires forall a, b :: 0 <= a < b < |P| ==> P[a] < P[b]
    requires forall a :: 0 <= a < |P| ==> P[a] < n
    ensures P[i] == P[0] + i && |P| == n - P[0]
  {
    ClimbsByOne(P, 0, i);
    ClimbsByOne(P, i, |P| - 1);
  }

  lemma {:induction false} ClimbsByOne(P: seq<nat>, a: nat, b: nat)
    requires a <= b < |P|
    requires forall a, b :: 0 <= a < b < |P| ==> P[a] < P[b]
    ensures P[b] >= P[a] + (b - a)
    decreases b - a
  {
    if a < b {
      ClimbsByOne(P, a, b - 1);
    }
  }

  lemma FirstEntry(s: State)
    requires CacheOk(s) && s.cache.gops != []
    ensures EntryOk(s, s.cache.gops[0].frames[0], s.cache.gops[0].at[0]) && s.cache.gops[0].frames[0].StartsGop()
  {
    assert GopOk(s, s.cache.gops[0]);
  }

  /** The cached frames, when they fill their distance, are the log itself. */
  lemma CachedIsLog(s: State)
    requires CacheOk(s) && s.cache.gops != [] && AllLogged(s) && Distance(s) <= |Flatten(s.cache.gops)|
    ensures Flatten(s.cache.gops) == s.log[s.cache.gops[0].at[0]..]
    ensures Flatten(s.cache.gops) == NonHeaders(s.log[s.cache.gops[0].at[0]..])
  {
    var gops := s.cache.gops;
    FlattenOk(s);
    var F, P := Flatten(gops), Positions(gops);
    forall a, b | 0 <= a < b < |P| ensures P[a] < P[b] {
      assert Before(P[a], P[b], |s.log|);
    }
    forall i | 0 <= i < |P|
      ensures P[i] == P[0] + i && |P| == |s.log| - P[0] && F[i] == s.log[P[0] + i] && !F[i].IsHeader()
    {
      DenseIsContiguous(P, |s.log|, i);
      assert EntryOk(s, F[i], P[i]);
    }
    assert F == s.log[P[0]..];
    NonHeadersOfMedia(F);
  }

  lemma FirstStartIsLeast(s: State, gops: seq<Gop>)
    requires WellFormed(Cache(gops, false)) && GopsOk(s, gops) && gops != []
    ensures forall i :: 0 <= i < |gops| ==> gops[0].at[0] <= gops[i].at[0]
  {
    forall i | 0 < i < |gops| ensures gops[0].at[0] <= gops[i].at[0] {
      assert Apart(gops[0], gops[i], |s.log|);
    }
  }

  lemma {:induction false} FirstRetainedIsOldest(s: State, gops: seq<Gop>)
    requires WellFormed(Cache(gops, false)) && GopsOk(s, gops)
    requires forall i :: 0 <= i < |gops| ==> gops[i].frames[0].StartsGop()
    ensures var r := FirstRetained(s, gops);
            && (r.Some? ==> s.genStart <= r.value && s.log[r.value].StartsGop())
            && (forall i :: 0 <= i < |gops| && (r.None? || gops[i].at[0] < r.value) ==> !Retained(s, gops[i].at[0]))
    decreases |gops|
  {
    if gops != [] {
      assert GopOk(s, gops[0]) && EntryOk(s, gops[0].frames[0], gops[0].at[0]);
      var r := FirstRetained(s, gops);
      if Retained(s, gops[0].at[0]) {
        FirstStartIsLeast(s, gops);
      } else {
        var rest := gops[1..];
        FirstRetainedIsOldest(s, rest);
        assert forall i :: 0 < i < |gops| ==> gops[i] == rest[i - 1];
      }
    }
  }

  /** The recovery path: re-reading the retained ring is always exact. */
  lemma RecoveredIsExact(s: State)
    requires CacheOk(s) && s.genStart <= |s.log| && Distance(s) > |Flatten(s.cache.gops)|
    ensures ExactSnapshot(s, TakeSnapshot(s))
  {
    FirstRetainedIsOldest(s, s.cache.gops);
    RecoveredReplay(s);
  }

  lemma RecoveredReplay(s: State)
    requires CacheOk(s) && s.genStart <= |s.log| && Distance(s) > |Flatten(s.cache.gops)|
    ensures var snap := TakeSnapshot(s);
            && snap.replay == NonHeaders(s.log[snap.source..snap.live])
            && (snap.source < snap.live ==> snap.replay != [] && snap.replay[0] == s.log[snap.source])
  {
    var snap := TakeSnapshot(s);
    if snap.source < snap.live {
      KeyframeLeads(s.log[snap.source..]);
      assert s.log[snap.source..snap.live] == s.log[snap.source..];
    } else {
      assert s.log[snap.source..snap.live] == [];
    }
  }

  lemma {:induction false} KeyframeLeads(m: seq<Frame>)
    requires m != [] && !m[0].IsHeader()
    ensures NonHeaders(m) != [] && NonHeaders(m)[0] == m[0]
  {
    assert m == [m[0]] + m[1..];
    NonHeadersConcat([m[0]], m[1..]);
    assert [m[0]][..0] == [];
  }

  /** The fast path: a cache without gaps is the log. */
  lemma CachedIsExact(s: State)
    requires CacheOk(s) && s.genStart <= |s.log| && AllLogged(s) && Distance(s) <= |Flatten(s.cache.gops)|
    ensures ExactSnapshot(s, TakeSnapshot(s))
  {
    if s.cache.gops == [] {
      assert s.log[|s.log|..|s.log|] == [];
    } else {
      CachedIsLog(s);
      FlattenShape(s.cache.gops);
      FirstEntry(s);
      FirstStartIsLeast(s, s.cache.gops);
      GaplessIsExact(s);
    }
  }

  lemma GaplessIsExact(s: State)
    requires WellFormed(s.cache) && s.cache.gops != []
    requires var g := s.cache.gops[0];
             EntryOk(s, g.frames[0], g.at[0]) && g.frames[0].StartsGop()
             && |s.log| - g.at[0] <= |Flatten(s.cache.gops)|
             && Flatten(s.cache.gops) == NonHeaders(s.log[g.at[0]..])
             && Flatten(s.cache.gops) != [] && Flatten(s.cache.gops)[0] == g.frames[0]
             && (forall i :: 0 <= i < |s.cache.gops| ==> g.at[0] <= s.cache.gops[i].at[0])
    ensures ExactSnapshot(s, TakeSnapshot(s))
  {
    var start := s.cache.gops[0].at[0];
    assert s.log[start..|s.log|] == s.log[start..];
  }

  lemma {:induction false} NonHeadersFrom(m: seq<Frame>, f: Frame)
    requires f !in m
    ensures f !in NonHeaders(m)
  {
    if m != [] {
      NonHeadersFrom(m[..|m| - 1], f);
    }
  }

  /** When the snapshot is exact, in every state and for every policy: precisely
      when every cached frame reached the ring, or the cache is short of its
      distance so that the ring is re-read. The excluded states are those in which
      frames were cached after Close and enough of them to hide the difference.
      Frame objects are distinct, as Go pointers are. */
  lemma SnapshotExactIff(s: State)
    requires Inv(s)
    requires forall i :: 0 <= i < |Flatten(s.cache.gops)| && i < |Positions(s.cache.gops)| && Positions(s.cache.gops)[i] == |s.log| ==>
               Flatten(s.cache.gops)[i] !in s.log
    ensures ExactSnapshot(s, TakeSnapshot(s)) <==> (AllLogged(s) || Distance(s) > |Flatten(s.cache.gops)|)
  {
    if Distance(s) > |Flatten(s.cache.gops)| {
      RecoveredIsExact(s);
    } else if AllLogged(s) {
      CachedIsExact(s);
    } else {
      FlattenOk(s);
      var F, P := Flatten(s.cache.gops), Positions(s.cache.gops);
      var snap := TakeSnapshot(s);
      assert snap.replay == F;
      var i :| 0 <= i < |P| && P[i] >= |s.log|;
      assert EntryOk(s, F[i], P[i]);
      var m := s.log[snap.source..|s.log|];
      assert F[i] !in m;
      NonHeadersFrom(m, F[i]);
      assert F[i] in F;
    }
  }

  /** Main result. Over every run of writes, policy reloads, publisher changes,
      resets and ring overwrites, a snapshot taken while the ring is open is exact. */
  lemma OpenSnapshotIsExact(p: Policy, limited: bool, ringSize: int, steps: seq<Step>)
    requires !Reached(p, limited, ringSize, steps).closed
    ensures var s := Reached(p, limited, ringSize, steps); ExactSnapshot(s, TakeSnapshot(s))
  {
    var s := Reached(p, limited, ringSize, steps);
    OpenIsLogged(s);
    if Distance(s) > |Flatten(s.cache.gops)| {
      RecoveredIsExact(s);
    } else {
      CachedIsExact(s);
    }
  }

  lemma OpenIsLogged(s: State)
    requires CacheOk(s) && !s.closed
    ensures AllLogged(s)
  {
    FlattenOk(s);
    forall i | 0 <= i < |Positions(s.cache.gops)| ensures Positions(s.cache.gops)[i] < |s.log| {
      assert EntryOk(s, Flatten(s.cache.gops)[i], Positions(s.cache.gops)[i]);
    }
  }

  /** A step that puts nothing into the cache. */
  predicate CachesNothing(step: Step) {
    step.WriteStep? ==> !step.f.StartsGop() && !step.f.JoinsGop()
  }

  ghost predicate LoggedGops(s: State) { LoggedBelow(s.cache, |s.log|) }

  lemma LoggedGopsAreLogged(s: State)
    requires CacheOk(s) && LoggedGops(s)
    ensures AllLogged(s)
  {
    FlattenShape(s.cache.gops);
    forall i | 0 <= i < |Positions(s.cache.gops)| ensures Positions(s.cache.gops)[i] < |s.log| {
      var a, b := FlattenIndex(s.cache.gops, i);
    }
  }

  lemma OpenGopsAreLogged(s: State)
    requires CacheOk(s) && !s.closed
    ensures LoggedGops(s)
  {
    forall i, j | 0 <= i < |s.cache.gops| && 0 <= j < |s.cache.gops[i].at| ensures s.cache.gops[i].at[j] < |s.log| {
      assert GopOk(s, s.cache.gops[i]);
      assert EntryOk(s, s.cache.gops[i].frames[j], s.cache.gops[i].at[j]);
    }
  }

  lemma QuietStepKeepsLogged(s: State, step: Step)
    requires Inv(s) && s.closed && LoggedGops(s) && CachesNothing(step)
    ensures LoggedGops(Apply(s, step)) && Apply(s, step).closed
  {
    assert s.status == Destroying;
    if step.UpdatePolicyStep? {
      TrimKeepsLogged(s.cache, step.policy.Normalized(), |s.log|);
    } else {
      SameOrNoGops(s, step);
    }
  }

  ghost predicate LoggedBelow(c: Cache, n: nat) {
    forall i, j :: 0 <= i < |c.gops| && 0 <= j < |c.gops[i].at| ==> c.gops[i].at[j] < n
  }

  lemma TrimKeepsLogged(c: Cache, p: Policy, n: nat)
    requires WellFormed(c) && LoggedBelow(c, n)
    ensures LoggedBelow(Trimmed(p, c), n)
  {
    if p.Enabled() {
      var kept := KeepLast(c.gops, p.gopCacheNum);
      var cut := TrimGops(p, kept);
      forall i, j | 0 <= i < |cut| && 0 <= j < |cut[i].at| ensures cut[i].at[j] < n {
        var k := i + |c.gops| - |kept|;
        assert cut[i] == TrimGop(p, kept[i]) && kept[i] == c.gops[k];
        assert cut[i].at[j] == c.gops[k].at[j];
      }
    }
  }

  lemma SameOrNoGops(s: State, step: Step)
    requires WellFormed(s.cache) && s.closed && s.status == Destroying && CachesNothing(step) && !step.UpdatePolicyStep?
    ensures var t := Apply(s, step);
            t.closed && t.log == s.log && (t.cache.gops == s.cache.gops || t.cache.gops == [])
  {
  }

  lemma {:induction false} QuietRunKeepsLogged(s: State, steps: seq<Step>)
    requires Inv(s) && s.closed && LoggedGops(s) && (forall i :: 0 <= i < |steps| ==> CachesNothing(steps[i]))
    ensures LoggedGops(Run(s, steps))
    decreases |steps|
  {
    if steps != [] {
      ApplyInv(s, steps[0]);
      QuietStepKeepsLogged(s, steps[0]);
      QuietRunKeepsLogged(Apply(s, steps[0]), steps[1..]);
    }
  }

  /** After Close too the snapshot is exact, as long as no media frame was written
      since: sequence headers, policy reloads, resets and timers do no harm. */
  lemma QuietCloseIsExact(p: Policy, limited: bool, ringSize: int, before: seq<Step>, after: seq<Step>)
    requires !Reached(p, limited, ringSize, before).closed
    requires forall i :: 0 <= i < |after| ==> CachesNothing(after[i])
    ensures Inv(Close(Reached(p, limited, ringSize, before)))
    ensures var t := Run(Close(Reached(p, limited, ringSize, before)), after); ExactSnapshot(t, TakeSnapshot(t))
  {
    var s := Reached(p, limited, ringSize, before);
    var c := Close(s);
    CloseInv(s);
    OpenGopsAreLogged(s);
    QuietRunKeepsLogged(c, after);
    var t := Run(c, after);
    LoggedGopsAreLogged(t);
    if Distance(t) > |Flatten(t.cache.gops)| {
      RecoveredIsExact(t);
    } else {
      CachedIsExact(t);
    }
  }

  /** The promise does fail after Close: WriteFrame does not look at the stream
      state, so a keyframe written then is replayed although it never was logged. */
  lemma ClosedSnapshotCanLie(s: State, key: Frame)
    requires Inv(s) && s.closed && s.cache.gops == [] && s.policy.Enabled() && key.StartsGop()
    ensures var t := Apply(s, WriteStep(key, false));
            Inv(t) && t.log == s.log && TakeSnapshot(t).replay == [key] && !ExactSnapshot(t, TakeSnapshot(t))
  {
    ApplyInv(s, WriteStep(key, false));
    var t := WriteFrame(s, key, false);
    OneGopCached(t, key);
    assert NonHeaders(t.log[|t.log|..|t.log|]) == [];
  }

  lemma OneGopCached(t: State, key: Frame)
    requires t.cache.gops == [Gop([key], [|t.log|])] && WellFormed(t.cache)
    ensures TakeSnapshot(t).replay == [key] && TakeSnapshot(t).source == TakeSnapshot(t).live == |t.log|
  {
    assert t.cache.gops[..0] == [];
    assert Flatten(t.cache.gops) == [key];
  }

  /** Such states are reached by closing any new stream. */
  lemma NewStreamCanBeClosed(p: Policy, limited: bool, ringSize: int)
    ensures var s := Apply(Initial(p, limited, ringSize), CloseStep); Inv(s) && s.closed && s.cache.gops == []
  {
    InitialInv(p, limited, ringSize);
    ApplyInv(Initial(p, limited, ringSize), CloseStep);
  }

  lemma StepGrowsLog(s: State, step: Step)
    requires WellFormed(s.cache)
    ensures s.log <= Apply(s, step).log
  {
  }

  lemma {:induction false} LogOnlyGrows(s: State, steps: seq<Step>)
    requires Inv(s)
    ensures s.log <= Run(s, steps).log
    decreases |steps|
  {
    if steps != [] {
      ApplyInv(s, steps[0]);
      StepGrowsLog(s, steps[0]);
      LogOnlyGrows(Apply(s, steps[0]), steps[1..]);
    }
  }

  /** Replay first, then the live ring: whatever happens after the snapshot, the
      joiner sees every media frame from the source cursor on, once and in order. */
  lemma ReplayThenLive(s: State, snap: Snapshot, steps: seq<Step>)
    requires Inv(s) && ExactSnapshot(s, snap)
    ensures var t := Run(s, steps);
            snap.live <= |t.log|
            && NonHeaders(snap.replay + t.log[snap.live..]) == NonHeaders(t.log[snap.source..])
  {
    LogOnlyGrows(s, steps);
    ReplayJoinsLive(s.log, Run(s, steps).log, snap);
  }

  lemma ReplayJoinsLive(was: seq<Frame>, now: seq<Frame>, snap: Snapshot)
    requires was <= now && snap.source <= snap.live == |was|
    requires snap.replay == NonHeaders(was[snap.source..snap.live])
    ensures NonHeaders(snap.replay + now[snap.live..]) == NonHeaders(now[snap.source..])
  {
    var a, b := was[snap.source..snap.live], now[snap.live..];
    assert now[snap.source..] == a + b;
    NonHeadersConcat(a, b);
    NonHeadersConcat(snap.replay, b);
    NonHeadersTwice(a);
  }

  lemma {:induction false} NonHeadersTwice(m: seq<Frame>)
    ensures NonHeaders(NonHeaders(m)) == NonHeaders(m)
  {
    if m != [] {
      var init, f := m[..|m| - 1], m[|m| - 1];
      NonHeadersTwice(init);
      assert m == init + [f];
      NonHeadersSnoc(NonHeaders(init), f);
      assert NonHeaders(init) + [] == NonHeaders(init);
    }
  }

  // ------------------------------------------------------------------
  // Generations
  // ------------------------------------------------------------------

  /** Later states only add generations and fix open ends. */
  ghost predicate Extends(s: State, t: State) {
    && |s.generations| <= |t.generations|
    && (forall i :: 0 <= i < |s.generations| ==>
          && t.generations[i].start == s.generations[i].start
          && t.generations[i].publisher == s.generations[i].publisher
          && (s.generations[i].end.Some? ==> t.generations[i].end == s.generations[i].end))
  }

  lemma StepExtends(s: State, step: Step)
    requires IntervalsOk(s) && WellFormed(s.cache)
    ensures Extends(s, Apply(s, step))
  {
  }

  lemma StepAfterDestroying(s: State, step: Step)
    requires OwnerOk(s) && WellFormed(s.cache) && s.status == Destroying
    ensures Apply(s, step).status == Destroying && Apply(s, step).generations == s.generations
  {
  }

  /** A generation's end cursor is fixed exactly once: no later step of any actor
      moves it, its start, or its owner. */
  lemma {:induction false} BoundariesAreFixedOnce(s: State, steps: seq<Step>)
    requires Inv(s)
    ensures Extends(s, Run(s, steps))
    decreases |steps|
  {
    if steps != [] {
      ApplyInv(s, steps[0]);
      StepExtends(s, steps[0]);
      BoundariesAreFixedOnce(Apply(s, steps[0]), steps[1..]);
    }
  }

  /** Over every run, generations occupy disjoint stretches of the log, in order:
      whether or not anything was written in them. */
  lemma GenerationsAreDisjoint(p: Policy, limited: bool, ringSize: int, steps: seq<Step>, i: nat, j: nat)
    requires i < j < |Reached(p, limited, ringSize, steps).generations|
    ensures var s := Reached(p, limited, ringSize, steps);
            && s.generations[i].end.Some?
            && s.generations[i].start <= s.generations[i].end.value <= s.generations[j].start
            && s.generations[j].start <= EndOr(s.generations[j], |s.log|) <= |s.log|
  {
    var s := Reached(p, limited, ringSize, steps);
    assert IntervalsOk(s);
  }

  lemma StepKeepsAccepted(s: State, step: Step)
    requires WellFormed(s.cache)
    ensures s.accepted <= Apply(s, step).accepted
  {
  }

  lemma {:induction false} RunKeepsAccepted(s: State, steps: seq<Step>)
    requires Inv(s)
    ensures s.accepted <= Run(s, steps).accepted
    decreases |steps|
  {
    if steps != [] {
      ApplyInv(s, steps[0]);
      StepKeepsAccepted(s, steps[0]);
      RunKeepsAccepted(Apply(s, steps[0]), steps[1..]);
    }
  }

  /** A frame accepted for a publisher is, at every later moment of every run, the
      frame logged at its position, inside the stretch of a generation of that
      publisher and of no other generation. */
  lemma AcceptedFramesStay(p: Policy, limited: bool, ringSize: int, steps: seq<Step>, more: seq<Step>, a: nat)
    requires a < |Reached(p, limited, ringSize, steps).accepted|
    ensures var x, t := Reached(p, limited, ringSize, steps).accepted[a], Run(Reached(p, limited, ringSize, steps), more);
            && 1 <= x.generation <= |t.generations| && x.pos < |t.log| && t.log[x.pos] == x.frame
            && SameOwner(t.generations[x.generation - 1].publisher, x.publisher)
            && (forall i :: 0 <= i < |t.generations| ==>
                  (InStretch(t, i, x.pos) <==> i == x.generation - 1))
  {
    var s := Reached(p, limited, ringSize, steps);
    var x, t := s.accepted[a], Run(s, more);
    RunKeepsAccepted(s, more);
    assert t.accepted[a] == x && AcceptedOk(t, t.accepted[a]);
    forall i | 0 <= i < |t.generations| ensures InStretch(t, i, x.pos) <==> i == x.generation - 1 {
      if i < x.generation - 1 {
        assert t.generations[i].end.Some? && t.generations[i].end.value <= t.generations[x.generation - 1].start;
      } else if i > x.generation - 1 {
        assert t.generations[x.generation - 1].end.value <= t.generations[i].start;
      }
    }
  }

  predicate InStretch(s: State, i: nat, pos: nat)
    requires i < |s.generations|
  {
    s.generations[i].start <= pos < EndOr(s.generations[i], |s.log|)
  }

  // ------------------------------------------------------------------
  // Audio is stamped from epoch one on
  // ------------------------------------------------------------------

  ghost predicate AllStamped(log: seq<Frame>) {
    forall i :: 0 <= i < |log| && log[i].media == Audio ==> log[i].audioEpoch >= 1
  }

  lemma StepStamps(s: State, step: Step)
    requires WellFormed(s.cache) && AllStamped(s.log)
    ensures AllStamped(Apply(s, step).log)
  {
  }

  lemma {:induction false} RunStamps(s: State, steps: seq<Step>)
    requires Inv(s) && AllStamped(s.log)
    ensures AllStamped(Run(s, steps).log)
    decreases |steps|
  {
    if steps != [] {
      ApplyInv(s, steps[0]);
      StepStamps(s, steps[0]);
      RunStamps(Apply(s, steps[0]), steps[1..]);
    }
  }

  /** No audio frame of any generation in any run carries epoch zero. */
  lemma EpochsStartAtOne(p: Policy, limited: bool, ringSize: int, steps: seq<Step>)
    ensures AllStamped(Reached(p, limited, ringSize, steps).log)
  {
    InitialInv(p, limited, ringSize);
    RunStamps(Initial(p, limited, ringSize), steps);
  }

  /** A replaced publisher with a stable ID is powerless for ever: in no later state
      can it write, act as the active publisher, or remove its replacement. */
  lemma ReplacedPublisherIsPowerless(s: State, i: nat, p: Publisher, steps: seq<Step>)
    requires Inv(s) && i < |s.generations| - 1
    requires p.id != "" && p.id == s.generations[i].publisher.id
    ensures var t := Run(s, steps);
            && !Matches(t, p)
            && RemovePublisherIf(t, p) == t
            && (forall f, over :: WriteFrameForPublisher(t, p, f, over) == t)
  {
    BoundariesAreFixedOnce(s, steps);
    var t := Run(s, steps);
    assert IdsOk(t) && OwnerOk(t);
    assert t.generations[i].publisher.id != t.generations[|t.generations| - 1].publisher.id;
  }

  /** Destroying is absorbing and holds no open generation. */
  lemma {:induction false} DestroyingIsFinal(s: State, steps: seq<Step>)
    requires Inv(s) && s.status == Destroying
    ensures var t := Run(s, steps); t.status == Destroying && !Open(t) && t.generations == s.generations
    decreases |steps|
  {
    if steps != [] {
      ApplyInv(s, steps[0]);
      StepAfterDestroying(s, steps[0]);
      DestroyingIsFinal(Apply(s, steps[0]), steps[1..]);
    }
  }
}
