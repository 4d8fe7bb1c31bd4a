/**
 * What holds over every run of loads and writes.
 */
module ConfigTheorems {
  import opened Options
  import opened ConfigTree
  import opened ConfigModel
  import opened ConfigSafety

  /** A manager as it is created, with or without a bootstrap configuration. */
  function Created(initial: Option<Snapshot>): Manager {
    var empty := Manager(None, None, 0, [], 0);
    if initial.None? then empty else Publish(empty, initial.value)
  }

  ghost predicate Bootstrap(s: Snapshot, shape: Tree, classify: Path -> Class) {
    && SameShape(s.effective, shape, classify)
    && s.desired == s.effective && s.version == Version(NoLabel, s.effective) && s.pendingRestart == []
  }

  ghost predicate Starts(s: System, initial: Option<Snapshot>, shape: Tree, classify: Path -> Class) {
    && (initial.Some? ==> Bootstrap(initial.value, shape, classify))
    && s == System(Created(initial), Idle)
  }

  lemma StartIsSafe(s: System, initial: Option<Snapshot>, shape: Tree, classify: Path -> Class)
    requires Starts(s, initial, shape, classify)
    ensures Inv(s, shape, classify)
  {
    var empty := Manager(None, None, 0, [], 0);
    if initial.Some? {
      PublishHistory(empty, initial.value);
      forall p ensures !Differs(initial.value.effective, initial.value.effective, p) {
      }
    }
  }

  /**
   * Whenever no write is pending, the effective and the desired configuration differ at exactly
   * the paths reported as waiting for a restart, and all of them are of restart class.
   */
  lemma EffectiveFollowsDesired(states: seq<System>, steps: seq<Step>, initial: Option<Snapshot>, i: nat,
                                shape: Tree, classify: Path -> Class)
    requires Run(states, steps, shape, classify) && Starts(states[0], initial, shape, classify) && i < |states|
    requires states[i].m.active.Some? && states[i].m.pending.None?
    ensures var s := states[i].m.active.value;
            && (forall p :: p in s.pendingRestart <==> Differs(s.effective, s.desired, p))
            && (forall p :: p in s.pendingRestart ==> classify(p) == Restart)
  {
    StartIsSafe(states[0], initial, shape, classify);
    RunInv(states, steps, i, shape, classify);
  }

  /**
   * A write settles: a load that read the written configuration after it, and is not refused,
   * clears the pending write and leaves it as the desired configuration.
   */
  lemma LoadSettlesWrite(s: System, step: Step, shape: Tree, classify: Path -> Class)
    requires Inv(s, shape, classify) && step.FinishLoad? && Enabled(s, step, shape, classify)
    requires s.m.pending.Some? && s.loader.result.config == Some(s.m.pending.value.config)
    requires s.loader.writes == s.m.writes && s.loader.result.data != [] && step.valid && step.accepted
    requires forall p :: p in step.listing ==> classify(p) != Immutable
    ensures var t := Apply(s, step, shape, classify).m;
            && t.pending.None? && t.active.Some?
            && t.active.value.desired == s.m.pending.value.config && t.active.value.document == s.loader.result.data
  {
    EffectiveRelated(s.m, s.m.pending.value.config, step.listing, shape, classify);
  }

  // ---------------------------------------------------------------- the effective configuration

  ghost predicate HotApart(m: Manager, n: Manager, classify: Path -> Class) {
    m.active.Some? ==> n.active.Some? && HotOnly(m.active.value.effective, n.active.value.effective, classify)
  }

  lemma ReplaceIsHot(m: Manager, result: Result, listing: seq<Path>, rest: seq<Path>, valid: bool, accepted: bool,
                     shape: Tree, classify: Path -> Class)
    requires ActiveOk(m, shape, classify) && result.config.Some?
    requires SameShape(result.config.value, shape, classify)
    requires ListsOk(m, result.config.value, listing, rest, classify)
    ensures HotApart(m, Replace(m, result, listing, rest, valid, accepted, classify), classify)
  {
    if forall p :: p in listing ==> classify(p) != Immutable {
      EffectiveRelated(m, result.config.value, listing, shape, classify);
    }
  }

  lemma StepIsHot(s: System, step: Step, shape: Tree, classify: Path -> Class)
    requires Inv(s, shape, classify) && Enabled(s, step, shape, classify)
    ensures HotApart(s.m, Apply(s, step, shape, classify).m, classify)
  {
    if step.FinishLoad? && s.loader.result.config.Some? {
      ReplaceIsHot(s.m, s.loader.result, step.listing, step.rest, step.valid, step.accepted, shape, classify);
    }
  }

  /** The effective configuration ever changes at hot paths only. */
  lemma {:induction false} EffectiveChangesAreHot(states: seq<System>, steps: seq<Step>, i: nat, j: nat,
                                                  shape: Tree, classify: Path -> Class)
    requires Run(states, steps, shape, classify) && Inv(states[0], shape, classify)
    requires i <= j < |states|
    ensures HotApart(states[i].m, states[j].m, classify)
    decreases j
  {
    if i < j {
      EffectiveChangesAreHot(states, steps, i, j - 1, shape, classify);
      MoveIsHot(states, steps, j - 1, shape, classify);
      if states[i].m.active.Some? {
        HotTrans(states[i].m.active.value.effective, states[j - 1].m.active.value.effective,
                 states[j].m.active.value.effective, classify);
      }
    }
  }

  lemma MoveIsHot(states: seq<System>, steps: seq<Step>, i: nat, shape: Tree, classify: Path -> Class)
    requires Run(states, steps, shape, classify) && Inv(states[0], shape, classify) && i < |steps|
    ensures HotApart(states[i].m, states[i + 1].m, classify)
  {
    RunInv(states, steps, i, shape, classify);
    assert Moves(states[i], steps[i], states[i + 1], shape, classify);
    StepIsHot(states[i], steps[i], shape, classify);
  }

  lemma HotTrans(a: Tree, b: Tree, c: Tree, classify: Path -> Class)
    requires HotOnly(a, b, classify) && HotOnly(b, c, classify)
    ensures HotOnly(a, c, classify)
  {
    forall p | classify(p) != Hot ensures Look(a, p) == Look(c, p) {
      assert Look(a, p) == Look(b, p);
    }
  }

  // ---------------------------------------------------------------- revisions

  /** Revision r belongs to this document, wherever it is still known. */
  ghost predicate Names(m: Manager, r: nat, document: Document) {
    && r < m.nextRevision && Holds(m.history, r, document)
    && (m.active.Some? && m.active.value.revision == r ==> m.active.value.document == document)
  }

  /** Revision r is no longer current and can never be again. */
  ghost predicate Retired(m: Manager, r: nat) {
    r < m.nextRevision && (m.active.Some? ==> m.active.value.revision != r)
  }

  lemma EvictHolds(h: seq<Item>, item: Item, r: nat, document: Document)
    requires Holds(h, r, document) && item.revision != r
    ensures Holds(Evict(h + [item]), r, document)
  {
    var n := EvictIsLongest(h + [item]);
    assert forall i :: 0 <= i < |(h + [item])[n..]| ==> (h + [item])[n..][i] == (h + [item])[n + i];
  }

  lemma PublishKeeps(m: Manager, next: Snapshot, r: nat, document: Document)
    ensures Names(m, r, document) ==> Names(Publish(m, next), r, document)
    ensures Retired(m, r) ==> Retired(Publish(m, next), r)
  {
    if Names(m, r, document) && !(m.active.Some? && m.active.value.document == next.document)
       && |next.document| <= MAX_BYTES {
      EvictHolds(m.history, Item(m.nextRevision, next.document), r, document);
    }
  }

  lemma StepKeeps(s: System, step: Step, r: nat, document: Document, shape: Tree, classify: Path -> Class)
    requires Enabled(s, step, shape, classify)
    ensures Names(s.m, r, document) ==> Names(Apply(s, step, shape, classify).m, r, document)
    ensures Retired(s.m, r) ==> Retired(Apply(s, step, shape, classify).m, r)
    ensures s.m.writes <= Apply(s, step, shape, classify).m.writes
  {
    var m := s.m;
    if step.WriteDocument? {
      if m.active.Some? {
        var w := m.(writes := m.writes + 1, pending := Some(Pending(step.config, step.document)));
        PublishKeeps(w, m.active.value.(desired := step.config, document := step.document), r, document);
      }
    } else if step.FinishLoad? && s.loader.result.config.Some? {
      FinishKeeps(m, s.loader, step, r, document, classify);
    }
  }

  lemma FinishKeeps(m: Manager, l: Loader, step: Step, r: nat, document: Document, classify: Path -> Class)
    requires step.FinishLoad? && l.Read? && (l.previous.Some? ==> m.active.Some?) && l.result.config.Some?
    ensures var f := Finish(m, l, step.listing, step.rest, step.valid, step.accepted, classify);
            && (Names(m, r, document) ==> Names(f, r, document))
            && (Retired(m, r) ==> Retired(f, r)) && f.writes == m.writes
  {
    var result := l.result;
    if m.active.Some? {
      var s := m.active.value;
      PublishKeeps(m, s.(version := NewVersion(result), document := if result.data != [] then result.data else s.document),
                   r, document);
    }
    var e := Effective(m, result.config.value, step.listing, classify);
    if e.Some? {
      PublishKeeps(m, Snapshot(e.value, result.config.value, result.data, 0, NewVersion(result),
                               Restarts(step.rest, classify)), r, document);
    }
  }

  lemma {:induction false} RunKeeps(states: seq<System>, steps: seq<Step>, i: nat, j: nat, r: nat, document: Document,
                                    shape: Tree, classify: Path -> Class)
    requires Run(states, steps, shape, classify) && i <= j < |states|
    ensures Names(states[i].m, r, document) ==> Names(states[j].m, r, document)
    ensures Retired(states[i].m, r) ==> Retired(states[j].m, r)
    ensures states[i].m.writes <= states[j].m.writes
    decreases j
  {
    if i < j {
      RunKeeps(states, steps, i, j - 1, r, document, shape, classify);
      assert Moves(states[j - 1], steps[j - 1], states[j], shape, classify);
      StepKeeps(states[j - 1], steps[j - 1], r, document, shape, classify);
    }
  }

  /** A revision names one document for ever: whoever still finds it finds that document. */
  lemma RevisionNamesDocument(states: seq<System>, steps: seq<Step>, i: nat, j: nat,
                              shape: Tree, classify: Path -> Class)
    requires Run(states, steps, shape, classify) && Inv(states[0], shape, classify)
    requires i <= j < |states| && states[i].m.active.Some?
    ensures var s := states[i].m.active.value;
            && Holds(states[j].m.history, s.revision, s.document)
            && (states[j].m.active.Some? && states[j].m.active.value.revision == s.revision ==>
                  states[j].m.active.value.document == s.document)
  {
    var s := states[i].m.active.value;
    RunInv(states, steps, i, shape, classify);
    RunKeeps(states, steps, i, j, s.revision, s.document, shape, classify);
  }

  ghost predicate Lands(m: Manager, step: Step) {
    step.WriteDocument? && !Conflict(m, step.expected) && !step.refused
  }

  /** Of the writes conditional on one revision, at most one changes the document. */
  lemma OneWritePerRevision(states: seq<System>, steps: seq<Step>, i: nat, j: nat, r: nat,
                            shape: Tree, classify: Path -> Class)
    requires Run(states, steps, shape, classify) && Inv(states[0], shape, classify) && i < j < |steps|
    requires Lands(states[i].m, steps[i]) && steps[i].expected == Some(r)
    requires steps[i].document != states[i].m.active.value.document
    requires steps[j].WriteDocument? && steps[j].expected == Some(r)
    ensures states[j + 1] == states[j]
  {
    RunInv(states, steps, i, shape, classify);
    assert Moves(states[i], steps[i], states[i + 1], shape, classify);
    assert Retired(states[i + 1].m, r);
    RunKeeps(states, steps, i + 1, j, r, [], shape, classify);
    assert Moves(states[j], steps[j], states[j + 1], shape, classify);
  }

  /** A load that read the source before a write completed publishes nothing after it. */
  lemma StaleLoadIsHarmless(states: seq<System>, steps: seq<Step>, i: nat, j: nat, k: nat,
                            shape: Tree, classify: Path -> Class)
    requires Run(states, steps, shape, classify) && i < j < k < |steps|
    requires steps[i].ReadSource? && Lands(states[j].m, steps[j])
    requires steps[k].FinishLoad? && states[k].loader == states[i + 1].loader
    ensures states[k + 1].m == states[k].m
  {
    assert Moves(states[i], steps[i], states[i + 1], shape, classify);
    assert Moves(states[j], steps[j], states[j + 1], shape, classify);
    assert Moves(states[k], steps[k], states[k + 1], shape, classify);
    RunKeeps(states, steps, i + 1, j, 0, [], shape, classify);
    RunKeeps(states, steps, j + 1, k, 0, [], shape, classify);
  }

  /** At every moment the history is within its bounds and ordered. */
  lemma HistoryIsBounded(states: seq<System>, steps: seq<Step>, initial: Option<Snapshot>, i: nat,
                         shape: Tree, classify: Path -> Class)
    requires Run(states, steps, shape, classify) && Starts(states[0], initial, shape, classify) && i < |states|
    ensures |states[i].m.history| <= MAX_ENTRIES && Bytes(states[i].m.history) <= MAX_BYTES
    ensures Ordered(states[i].m.history, states[i].m.nextRevision)
  {
    StartIsSafe(states[0], initial, shape, classify);
    RunInv(states, steps, i, shape, classify);
  }
}
