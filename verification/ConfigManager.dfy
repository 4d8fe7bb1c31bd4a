/**
 * The configuration manager as an object whose fields change under its publication lock
 * (config/runtime/manager.go, config/runtime/history.go). Each method body is one critical
 * section; each is tied to the step function of the same name.
 */
module ConfigManager {
  import opened Options
  import opened ConfigTree
  import opened ConfigDiff
  import M = ConfigModel
  import S = ConfigSafety
  import T = ConfigTheorems

  // ---------------------------------------------------------------- plain documents stay plain

  lemma {:induction false} AtIsPlain(t: Tree, p: Path)
    requires Plain(t) && At(t, p).Some?
    ensures Plain(At(t, p).value)
  {
    if p != [] { AtIsPlain(t.kids[p[0]], p[1..]); }
  }

  lemma {:induction false} SetPathIsPlain(t: Tree, p: Path, v: Tree)
    requires Plain(t) && Plain(v) && PlainPath(p) && SetPath(t, p, v).Some?
    ensures Plain(SetPath(t, p, v).value) && SetPath(t, p, v).value.Branch?
  {
    if |p| > 1 { SetPathIsPlain(t.kids[p[0]], p[1..], v); }
  }

  lemma {:induction false} ApplyHotIsPlain(t: Tree, desired: Tree, paths: seq<Path>, classify: Path -> Class)
    requires Plain(t) && t.Branch? && Plain(desired) && (forall p :: p in paths ==> PlainPath(p))
    ensures var r := ApplyHot(t, desired, paths, classify);
            r.Some? ==> Plain(r.value) && r.value.Branch?
  {
    if paths != [] {
      var m, last := paths[..|paths| - 1], paths[|paths| - 1];
      ApplyHotIsPlain(t, desired, m, classify);
      var before := ApplyHot(t, desired, m, classify);
      if before.Some? && classify(last) == Hot && At(desired, last).Some? {
        AtIsPlain(desired, last);
        if SetPath(before.value, last, At(desired, last).value).Some? {
          SetPathIsPlain(before.value, last, At(desired, last).value);
        }
      }
    }
  }

  lemma ListedIsPlain(paths: seq<Path>, a: Tree, b: Tree)
    requires Lists(paths, a, b) && Plain(a) && Plain(b)
    ensures forall p :: p in paths ==> p != [] && PlainPath(p)
  {
    forall p | p in paths ensures p != [] && PlainPath(p) {
      if Look(a, p) != Absent { PresentIsPlain(a, p); } else { PresentIsPlain(b, p); }
    }
  }

  // ---------------------------------------------------------------- the difference of two configurations

  ghost predicate Document(t: Tree) { t.Branch? && Plain(t) }

  /** Without an old configuration there are no changes. */
  method DiffConfigs(before: Option<Tree>, after: Tree) returns (changes: seq<Change>, ghost paths: seq<Path>)
    requires Document(after) && (before.Some? ==> Document(before.value))
    ensures if before.None? then paths == [] else Lists(paths, before.value, after)
    ensures Describes(changes, [], paths)
    ensures forall p :: p in paths ==> p != [] && PlainPath(p)
  {
    if before.None? {
      return [], [];
    }
    changes, paths := DiffMaps("", before.value, after, []);
    ListedIsPlain(paths, before.value, after);
  }

  /** The changes that wait for a restart. */
  method RestartPaths(changes: seq<Change>, ghost paths: seq<Path>) returns (kept: seq<Path>)
    requires Describes(changes, [], paths) && (forall p :: p in paths ==> p != [] && PlainPath(p))
    ensures kept == M.Restarts(paths, ClassOf)
  {
    kept := [];
    for i := 0 to |changes|
      invariant kept == M.Restarts(paths[..i], ClassOf)
    {
      assert paths[..i + 1][..i] == paths[..i];
      assert [] + paths[i] == paths[i] && paths[i] in paths;
      if changes[i].class_ == Restart {
        SplitJoin(paths[i]);
        kept := kept + [Split(changes[i].path)];
      }
    }
    assert paths[..|paths|] == paths;
  }

  method FindImmutable(changes: seq<Change>) returns (found: bool)
    ensures found <==> exists i :: 0 <= i < |changes| && changes[i].class_ == Immutable
  {
    for i := 0 to |changes|
      invariant forall j :: 0 <= j < i ==> changes[j].class_ != Immutable
    {
      if changes[i].class_ == Immutable {
        return true;
      }
    }
    return false;
  }

  lemma ClassesAgree(changes: seq<Change>, paths: seq<Path>, c: Class, classify: string -> Class, byPath: Path -> Class)
    requires Names(changes, [], paths, classify) && (forall p :: byPath(p) == classify(Join(p)))
    ensures (exists i :: 0 <= i < |changes| && changes[i].class_ == c) <==> exists p :: p in paths && byPath(p) == c
  {
    forall i | 0 <= i < |paths| ensures [] + paths[i] == paths[i] {
    }
    if i :| 0 <= i < |changes| && changes[i].class_ == c {
      assert paths[i] in paths && byPath(paths[i]) == c;
    }
  }

  // ---------------------------------------------------------------- the manager

  class Manager {
    var active: Option<M.Snapshot>
    var pending: Option<M.Pending>
    var writes: nat
    var history: seq<M.Item>
    var historyBytes: nat
    var nextRevision: nat

    ghost function View(): M.Manager
      reads this
    {
      M.Manager(active, pending, writes, history, nextRevision)
    }

    ghost predicate Valid()
      reads this
    {
      && historyBytes == M.Bytes(history)
      && (active.Some? ==> Document(active.value.effective) && Document(active.value.desired))
    }

    constructor (initial: Option<M.Snapshot>)
      requires initial.Some? ==> Document(initial.value.effective) && Document(initial.value.desired)
      ensures Valid() && View() == T.Created(initial)
    {
      active, pending, writes, history, historyBytes, nextRevision := None, None, 0, [], 0, 0;
      new;
      if initial.Some? {
        Store(initial.value);
      }
    }

    /** Drops the oldest entries until both bounds hold; the byte count stays exact. */
    method Trim()
      requires historyBytes == M.Bytes(history)
      modifies this`history, this`historyBytes
      ensures history == M.Evict(old(history)) && historyBytes == M.Bytes(history)
    {
      while |history| > M.MAX_ENTRIES || historyBytes > M.MAX_BYTES
        invariant historyBytes == M.Bytes(history)
        invariant M.Evict(history) == M.Evict(old(history))
        decreases |history|
      {
        historyBytes := historyBytes - |history[0].document|;
        history := history[1..];
      }
    }

    /** Gives the snapshot its revision, remembers its document and makes it current. */
    method Store(next: M.Snapshot)
      requires historyBytes == M.Bytes(history)
      modifies this`active, this`history, this`historyBytes, this`nextRevision
      ensures historyBytes == M.Bytes(history)
      ensures View() == M.Publish(old(View()), next)
    {
      if active.Some? && active.value.document == next.document {
        active := Some(next.(revision := active.value.revision));
        return;
      }
      var revision := nextRevision;
      nextRevision := nextRevision + 1;
      if |next.document| <= M.MAX_BYTES {
        var item := M.Item(revision, next.document);
        S.BytesConcat(history, [item]);
        assert M.Bytes([item]) == |next.document| + M.Bytes([item][1..]);
        history := history + [item];
        historyBytes := historyBytes + |next.document|;
        Trim();
      }
      active := Some(next.(revision := revision));
    }

    /** A validated write, conditional on a revision when one is given. */
    method WriteIfRevision(config: Tree, document: M.Document, expected: Option<nat>, refused: bool)
      returns (revision: Option<nat>)
      requires Valid() && Document(config)
      modifies this
      ensures Valid() && View() == M.Write(old(View()), config, document, expected, refused)
      ensures revision.Some? <==> !M.Conflict(old(View()), expected) && !refused && active.Some?
      ensures revision.Some? ==> revision.value == active.value.revision && active.value.document == document
    {
      if expected.Some? && (active.None? || active.value.revision != expected.value) {
        return None;
      }
      if refused {
        return None;
      }
      writes := writes + 1;
      pending := Some(M.Pending(config, document));
      if active.None? {
        return None;
      }
      Store(active.value.(desired := config, document := document));
      return Some(active.value.revision);
    }

    method ConfirmVersion(result: M.Result)
      requires Valid() && result.config.Some? && active.Some?
      modifies this
      ensures Valid() && View() == M.Confirm(old(View()), result)
    {
      var s := active.value;
      Store(s.(version := M.NewVersion(result), document := if result.data != [] then result.data else s.document));
      if pending.Some? && pending.value.config == result.config.value {
        pending := None;
      }
    }

    method Replace(result: M.Result, valid: bool, accepted: bool)
      returns (ghost listing: seq<Path>, ghost rest: seq<Path>)
      requires Valid() && result.config.Some? && Document(result.config.value)
      modifies this
      ensures M.ListsOk(old(View()), result.config.value, listing, rest, ClassOf)
      ensures Valid() && View() == M.Replace(old(View()), result, listing, rest, valid, accepted, ClassOf)
    {
      var config := result.config.value;
      var base := if active.None? then None
                  else Some(if pending.Some? then active.value.effective else active.value.desired);
      var changes;
      changes, listing := DiffConfigs(base, config);
      var effective := Some(config);
      if active.Some? {
        effective := ApplyHotChanges(active.value.effective, config, changes, listing);
        ApplyHotIsPlain(active.value.effective, config, listing, ClassOf);
      }
      rest := [];
      var restChanges := [];
      if effective.Some? {
        restChanges, rest := DiffConfigs(effective, config);
      }
      var immutable := FindImmutable(changes);
      ClassesAgree(changes, listing, Immutable, Classify, ClassOf);
      if immutable || effective.None? || !valid || ((active.None? || changes != []) && !accepted) {
        return;
      }
      var kept := RestartPaths(restChanges, rest);
      StoreLoaded(effective.value, config, result, kept);
    }

    method StoreLoaded(effective: Tree, config: Tree, result: M.Result, kept: seq<Path>)
      requires Valid() && result.config == Some(config) && Document(config) && Document(effective)
      modifies this
      ensures Valid()
      ensures View() == M.Publish(old(View()), M.Snapshot(effective, config, result.data, 0, M.NewVersion(result), kept))
                          .(pending := None)
    {
      Store(M.Snapshot(effective, config, result.data, 0, M.NewVersion(result), kept));
      pending := None;
    }

    /** The critical section that ends a load. */
    method FinishLoad(previous: Option<M.Version>, result: M.Result, readWrites: nat, valid: bool, accepted: bool)
      returns (ghost listing: seq<Path>, ghost rest: seq<Path>)
      requires Valid() && (previous.Some? ==> active.Some?)
      requires result.config.Some? ==> Document(result.config.value)
      modifies this
      ensures Valid()
      ensures View() == M.Finish(old(View()), M.Read(previous, result, readWrites), listing, rest, valid, accepted, ClassOf)
      ensures View() != old(View()) && !(previous.Some? && previous.value.hash == result.config.value) ==>
                M.ListsOk(old(View()), result.config.value, listing, rest, ClassOf)
    {
      listing, rest := [], [];
      if result.data == [] && result.version != "" && previous.Some?
         && previous.value.name == M.Given(result.version) {
        return;
      }
      if result.config.None? || readWrites != writes {
        return;
      }
      var config := result.config.value;
      if pending.Some? && pending.value.config != config && active.Some? && active.value.version.hash == config {
        return;
      }
      if previous.Some? && previous.value.hash == config {
        ConfirmVersion(result);
      } else {
        listing, rest := Replace(result, valid, accepted);
      }
    }
  }
  /** A consequence over every run: the server name in effect is the first one for ever. */
  lemma ServerNameIsFixed(states: seq<M.System>, steps: seq<M.Step>, i: nat, j: nat, shape: Tree)
    requires M.Run(states, steps, shape, ClassOf) && S.Inv(states[0], shape, ClassOf)
    requires i <= j < |states| && states[i].m.active.Some?
    ensures states[j].m.active.Some?
    ensures Look(states[i].m.active.value.effective, ["server", "name"])
            == Look(states[j].m.active.value.effective, ["server", "name"])
  {
    T.EffectiveChangesAreHot(states, steps, i, j, shape, ClassOf);
    assert Join(["server", "name"][1..]) == "name";
    assert ClassOf(["server", "name"]) == Immutable;
  }
}
