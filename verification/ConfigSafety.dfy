/**
 * What every step of the configuration manager keeps, and what follows for whole runs.
 */
module ConfigSafety {
  import opened Options
  import opened ConfigTree
  import opened ConfigModel

  // ---------------------------------------------------------------- invariant

  /** A snapshot against the configuration last loaded from the source. */
  ghost predicate Related(s: Snapshot, shape: Tree, classify: Path -> Class) {
    && SameShape(s.effective, shape, classify)
    && SameShape(s.version.hash, shape, classify)
    && RestartOnly(s.effective, s.version.hash, classify)
    && (forall p :: p in s.pendingRestart <==> Differs(s.effective, s.version.hash, p))
  }

  /** A pending write is what readers see as desired. */
  ghost predicate Overlays(s: Snapshot, w: Pending) { s.desired == w.config && s.document == w.document }

  ghost predicate ActiveOk(m: Manager, shape: Tree, classify: Path -> Class) {
    m.active.Some? ==>
      && Related(m.active.value, shape, classify)
      && (m.pending.None? ==> m.active.value.desired == m.active.value.version.hash)
      && (m.pending.Some? ==> Overlays(m.active.value, m.pending.value))
  }

  ghost predicate LoaderOk(s: System, shape: Tree, classify: Path -> Class) {
    && (!s.loader.Idle? ==> s.loader.previous == VersionOf(s.m))
    && (s.loader.Read? ==> s.loader.writes <= s.m.writes)
    && (s.loader.Read? && s.loader.result.config.Some? ==>
          SameShape(s.loader.result.config.value, shape, classify))
  }

  /** Revisions below a bound, oldest first. */
  ghost predicate Ordered(h: seq<Item>, bound: nat) {
    && (forall i :: 0 <= i < |h| ==> h[i].revision < bound)
    && (forall i, j :: 0 <= i < j < |h| ==> h[i].revision < h[j].revision)
  }

  /** An entry with this revision holds this document. */
  ghost predicate Holds(h: seq<Item>, revision: nat, document: Document) {
    forall i :: 0 <= i < |h| && h[i].revision == revision ==> h[i].document == document
  }

  ghost predicate RevisionsOk(m: Manager) {
    && Ordered(m.history, m.nextRevision)
    && (m.active.Some? ==>
          && m.active.value.revision < m.nextRevision
          && Holds(m.history, m.active.value.revision, m.active.value.document))
  }

  ghost predicate HistoryOk(m: Manager) { RevisionsOk(m) && Fits(m.history) }

  ghost predicate Inv(s: System, shape: Tree, classify: Path -> Class) {
    ActiveOk(s.m, shape, classify) && LoaderOk(s, shape, classify) && HistoryOk(s.m)
  }

  // ---------------------------------------------------------------- history

  lemma {:induction false} BytesConcat(a: seq<Item>, b: seq<Item>)
    ensures Bytes(a + b) == Bytes(a) + Bytes(b)
  {
    if a == [] {
      assert a + b == b;
    } else {
      assert (a + b)[1..] == a[1..] + b;
      BytesConcat(a[1..], b);
    }
  }

  /** Eviction keeps the longest run of newest entries within both bounds. */
  lemma {:induction false} EvictIsLongest(h: seq<Item>) returns (n: nat)
    ensures n <= |h| && Evict(h) == h[n..] && Fits(h[n..])
    ensures forall i :: 0 <= i < n ==> !Fits(h[i..])
  {
    if h == [] || Fits(h) {
      n := 0;
      assert h[0..] == h;
    } else {
      var k := EvictIsLongest(h[1..]);
      n := k + 1;
      assert h[1..][k..] == h[n..];
      forall i | 0 <= i < n ensures !Fits(h[i..]) {
        if i == 0 { assert h[0..] == h; } else { assert h[1..][i - 1..] == h[i..]; }
      }
    }
  }

  /** A new entry that fits on its own is never evicted by its own arrival. */
  lemma NewestIsKept(h: seq<Item>, item: Item)
    requires |item.document| <= MAX_BYTES
    ensures Evict(h + [item]) != [] && Evict(h + [item])[|Evict(h + [item])| - 1] == item
  {
    var all := h + [item];
    var n := EvictIsLongest(all);
    var only := all[|h|..];
    assert only == [item];
    assert Bytes(only) == |item.document| + Bytes(only[1..]);
    assert Fits(only);
  }

  lemma Remember(h: seq<Item>, revision: nat, document: Document)
    requires Ordered(h, revision) && Fits(h)
    ensures var e := Evict(h + [Item(revision, document)]);
            Ordered(e, revision + 1) && Holds(e, revision, document) && Fits(e)
  {
    var all := h + [Item(revision, document)];
    assert Ordered(all, revision + 1) && Holds(all, revision, document);
    var n := EvictIsLongest(all);
    SuffixIsOrdered(all, revision + 1, n);
  }

  lemma SuffixIsOrdered(h: seq<Item>, bound: nat, n: nat)
    requires Ordered(h, bound) && n <= |h|
    ensures Ordered(h[n..], bound)
    ensures forall i :: 0 <= i < |h[n..]| ==> h[n..][i] == h[n + i]
  {
  }

  lemma PublishHistory(m: Manager, next: Snapshot)
    requires HistoryOk(m)
    ensures HistoryOk(Publish(m, next))
  {
    if !(m.active.Some? && m.active.value.document == next.document) {
      Remember(m.history, m.nextRevision, next.document);
    }
  }

  // ---------------------------------------------------------------- steps

  lemma ShapeTrans(a: Tree, b: Tree, c: Tree, classify: Path -> Class)
    requires SameShape(a, b, classify) && SameShape(c, b, classify)
    ensures SameShape(a, c, classify)
  {
  }

  lemma WriteInv(m: Manager, config: Tree, document: Document, expected: Option<nat>, refused: bool,
                 shape: Tree, classify: Path -> Class)
    requires ActiveOk(m, shape, classify) && HistoryOk(m)
    ensures var w := Write(m, config, document, expected, refused);
            ActiveOk(w, shape, classify) && HistoryOk(w) && VersionOf(w) == VersionOf(m) && m.writes <= w.writes
  {
    if m.active.Some? {
      var w := m.(writes := m.writes + 1, pending := Some(Pending(config, document)));
      PublishHistory(w, m.active.value.(desired := config, document := document));
    }
  }

  lemma ConfirmInv(m: Manager, result: Result, shape: Tree, classify: Path -> Class)
    requires ActiveOk(m, shape, classify) && HistoryOk(m)
    requires result.config.Some? && m.active.Some? && m.active.value.version.hash == result.config.value
    requires !AwaitsWrite(m, result.config.value)
    ensures ActiveOk(Confirm(m, result), shape, classify) && HistoryOk(Confirm(m, result))
  {
    var s := m.active.value;
    var next := s.(version := NewVersion(result), document := if result.data != [] then result.data else s.document);
    PublishHistory(m, next);
  }

  /** The effective configuration a load produces, against the loaded one. */
  lemma EffectiveRelated(m: Manager, config: Tree, listing: seq<Path>, shape: Tree, classify: Path -> Class)
    requires ActiveOk(m, shape, classify) && SameShape(config, shape, classify)
    requires m.active.Some? ==> Lists(listing, Base(m), config)
    requires forall p :: p in listing ==> classify(p) != Immutable
    ensures Effective(m, config, listing, classify).Some?
    ensures var e := Effective(m, config, listing, classify).value;
            && SameShape(e, shape, classify) && RestartOnly(e, config, classify)
            && (m.active.Some? ==> HotOnly(m.active.value.effective, e, classify))
  {
    if m.active.Some? {
      var s := m.active.value;
      assert RestartOnly(s.effective, Base(m), classify);
      assert SameShape(Base(m), shape, classify);
      ShapeTrans(s.effective, shape, Base(m), classify);
      ShapeTrans(Base(m), shape, config, classify);
      HotStep(s.effective, Base(m), config, listing, classify);
      var e := ApplyHot(s.effective, config, listing, classify).value;
      ShapeFlip(config, shape, classify);
      ShapeTrans(e, config, shape, classify);
    }
  }

  lemma ShapeFlip(a: Tree, b: Tree, classify: Path -> Class)
    requires SameShape(a, b, classify)
    ensures SameShape(b, a, classify)
  {
  }

  lemma ReplaceInv(m: Manager, result: Result, listing: seq<Path>, rest: seq<Path>, valid: bool, accepted: bool,
                   shape: Tree, classify: Path -> Class)
    requires ActiveOk(m, shape, classify) && HistoryOk(m)
    requires result.config.Some? && SameShape(result.config.value, shape, classify)
    requires ListsOk(m, result.config.value, listing, rest, classify)
    ensures var r := Replace(m, result, listing, rest, valid, accepted, classify);
            ActiveOk(r, shape, classify) && HistoryOk(r)
  {
    var config := result.config.value;
    if forall p :: p in listing ==> classify(p) != Immutable {
      EffectiveRelated(m, config, listing, shape, classify);
      var e := Effective(m, config, listing, classify).value;
      var next := Snapshot(e, config, result.data, 0, NewVersion(result), Restarts(rest, classify));
      PublishHistory(m, next);
      assert forall p :: p in rest <==> Differs(e, config, p);
      assert Related(next, shape, classify);
    }
  }

  lemma FinishInv(s: System, step: Step, shape: Tree, classify: Path -> Class)
    requires Inv(s, shape, classify) && step.FinishLoad? && Enabled(s, step, shape, classify)
    ensures Inv(Apply(s, step, shape, classify), shape, classify)
  {
    var l := s.loader;
    if l.result.config.Some? {
      if !AwaitsWrite(s.m, l.result.config.value) && l.previous.Some? && l.previous.value.hash == l.result.config.value {
        ConfirmInv(s.m, l.result, shape, classify);
      }
      ReplaceInv(s.m, l.result, step.listing, step.rest, step.valid, step.accepted, shape, classify);
    }
  }

  lemma StepInv(s: System, step: Step, shape: Tree, classify: Path -> Class)
    requires Inv(s, shape, classify) && Enabled(s, step, shape, classify)
    ensures Inv(Apply(s, step, shape, classify), shape, classify)
  {
    if step.FinishLoad? {
      FinishInv(s, step, shape, classify);
    } else if step.WriteDocument? {
      WriteInv(s.m, step.config, step.document, step.expected, step.refused, shape, classify);
    }
  }

  lemma {:induction false} RunInv(states: seq<System>, steps: seq<Step>, i: nat, shape: Tree, classify: Path -> Class)
    requires Run(states, steps, shape, classify) && Inv(states[0], shape, classify) && i < |states|
    ensures Inv(states[i], shape, classify)
  {
    if i > 0 {
      RunInv(states, steps, i - 1, shape, classify);
      assert Moves(states[i - 1], steps[i - 1], states[i], shape, classify);
      StepInv(states[i - 1], steps[i - 1], shape, classify);
    }
  }
}
