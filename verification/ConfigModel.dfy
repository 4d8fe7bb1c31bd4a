/**
 * The runtime configuration manager as a state machine (config/runtime/manager.go and
 * config/runtime/history.go): one background loader, any number of writers, and the documents
 * they publish.
 *
 * A content hash is modelled by the configuration it is the hash of, and a random revision by
 * a token that was never used before. Reading the source, validating a document and the
 * program's apply hook are inputs.
 */
module ConfigModel {
  import opened Options
  import opened ConfigTree

  newtype Byte = x: int | 0 <= x < 256
  type Document = seq<Byte>

  const MAX_ENTRIES := 32
  const MAX_BYTES := 16777216

  // ---------------------------------------------------------------- state

  /** The version text: absent, given by the source, or the hash when the source gives none. */
  datatype Label = NoLabel | Given(text: string) | HashOf(config: Tree)

  datatype Version = Version(name: Label, hash: Tree)

  datatype Snapshot = Snapshot(
    effective: Tree, desired: Tree, document: Document, revision: nat, version: Version, pendingRestart: seq<Path>)

  datatype Pending = Pending(config: Tree, document: Document)

  datatype Item = Item(revision: nat, document: Document)

  datatype Manager = Manager(
    active: Option<Snapshot>, pending: Option<Pending>, writes: nat, history: seq<Item>, nextRevision: nat)

  /** What a source read gave: bytes, an optional version text, and the parsed configuration. */
  datatype Result = Result(data: Document, version: string, config: Option<Tree>)

  /** What the loader holds between its atomic parts. */
  datatype Loader =
    | Idle
    | Begun(previous: Option<Version>)
    | Read(previous: Option<Version>, result: Result, writes: nat)

  datatype System = System(m: Manager, loader: Loader)

  function VersionOf(m: Manager): Option<Version> {
    if m.active.None? then None else Some(m.active.value.version)
  }

  // ---------------------------------------------------------------- history

  function Bytes(h: seq<Item>): nat {
    if h == [] then 0 else |h[0].document| + Bytes(h[1..])
  }

  predicate Fits(h: seq<Item>) { |h| <= MAX_ENTRIES && Bytes(h) <= MAX_BYTES }

  function Evict(h: seq<Item>): seq<Item> {
    if h == [] || Fits(h) then h else Evict(h[1..])
  }

  function Remembered(m: Manager, document: Document): seq<Item> {
    if |document| > MAX_BYTES then m.history
    else Evict(m.history + [Item(m.nextRevision, document)])
  }

  /** Publishes a snapshot: the same document keeps its revision, another one gets a new one. */
  function Publish(m: Manager, next: Snapshot): Manager {
    if m.active.Some? && m.active.value.document == next.document then
      m.(active := Some(next.(revision := m.active.value.revision)))
    else
      m.(active := Some(next.(revision := m.nextRevision)),
         history := Remembered(m, next.document),
         nextRevision := m.nextRevision + 1)
  }

  // ---------------------------------------------------------------- writes

  predicate Conflict(m: Manager, expected: Option<nat>) {
    expected.Some? && (m.active.None? || m.active.value.revision != expected.value)
  }

  /** A validated write; it is refused on a stale revision or by the source. */
  function Write(m: Manager, config: Tree, document: Document, expected: Option<nat>, refused: bool): Manager {
    if Conflict(m, expected) || refused then m
    else
      var w := m.(writes := m.writes + 1, pending := Some(Pending(config, document)));
      if m.active.None? then w
      else Publish(w, m.active.value.(desired := config, document := document))
  }

  // ---------------------------------------------------------------- loads

  /** What a load compares the source with: while a write is pending, what is in effect. */
  function Base(m: Manager): Tree
    requires m.active.Some?
  {
    if m.pending.Some? then m.active.value.effective else m.active.value.desired
  }

  /** The source still has the version before the pending write. */
  predicate AwaitsWrite(m: Manager, config: Tree) {
    && m.pending.Some? && m.pending.value.config != config
    && m.active.Some? && m.active.value.version.hash == config
  }

  function NewVersion(result: Result): Version
    requires result.config.Some?
  {
    var config := result.config.value;
    Version(if result.version == "" then HashOf(config) else Given(result.version), config)
  }

  function Effective(m: Manager, config: Tree, listing: seq<Path>, classify: Path -> Class): Option<Tree> {
    if m.active.None? then Some(config)
    else ApplyHot(m.active.value.effective, config, listing, classify)
  }

  function Restarts(paths: seq<Path>, classify: Path -> Class): (r: seq<Path>)
    ensures forall p :: p in r <==> p in paths && classify(p) == Restart
  {
    if paths == [] then []
    else
      var last := paths[|paths| - 1];
      assert paths == paths[..|paths| - 1] + [last];
      Restarts(paths[..|paths| - 1], classify) + if classify(last) == Restart then [last] else []
  }

  /** The source has the configuration already in effect: only version and document move. */
  function Confirm(m: Manager, result: Result): Manager
    requires result.config.Some? && m.active.Some?
  {
    var s := m.active.value;
    var next := s.(version := NewVersion(result), document := if result.data != [] then result.data else s.document);
    var p := Publish(m, next);
    if m.pending.Some? && m.pending.value.config == result.config.value then p.(pending := None) else p
  }

  /**
   * The source has another configuration. `listing` are its differences from the base, `rest`
   * the differences that remain after the hot ones were applied.
   */
  function Replace(m: Manager, result: Result, listing: seq<Path>, rest: seq<Path>, valid: bool, accepted: bool,
                   classify: Path -> Class): Manager
    requires result.config.Some?
  {
    var config := result.config.value;
    var effective := Effective(m, config, listing, classify);
    if exists p :: p in listing && classify(p) == Immutable then m
    else if effective.None? || !valid then m
    else if (m.active.None? || listing != []) && !accepted then m
    else
      Publish(m, Snapshot(effective.value, config, result.data, 0, NewVersion(result), Restarts(rest, classify)))
        .(pending := None)
  }

  /** The last atomic part of a load. */
  function Finish(m: Manager, l: Loader, listing: seq<Path>, rest: seq<Path>, valid: bool, accepted: bool,
                  classify: Path -> Class): Manager
    requires l.Read? && (l.previous.Some? ==> m.active.Some?)
  {
    if l.result.data == [] && l.result.version != "" && l.previous.Some?
       && l.previous.value.name == Given(l.result.version) then m
    else if l.result.config.None? then m
    else if l.writes != m.writes || AwaitsWrite(m, l.result.config.value) then m
    else if l.previous.Some? && l.previous.value.hash == l.result.config.value then Confirm(m, l.result)
    else Replace(m, l.result, listing, rest, valid, accepted, classify)
  }

  // ---------------------------------------------------------------- steps

  datatype Step =
    | BeginLoad
    | ReadSource(result: Result)
    | AbandonLoad
    | FinishLoad(listing: seq<Path>, rest: seq<Path>, valid: bool, accepted: bool)
    | WriteDocument(config: Tree, document: Document, expected: Option<nat>, refused: bool)

  /** The difference lists of a load are the differences they are computed from. */
  ghost predicate ListsOk(m: Manager, config: Tree, listing: seq<Path>, rest: seq<Path>, classify: Path -> Class) {
    && (if m.active.None? then listing == [] else Lists(listing, Base(m), config))
    && (Effective(m, config, listing, classify).Some? ==>
          Lists(rest, Effective(m, config, listing, classify).value, config))
  }

  /** Every parsed configuration has the shape of the program's configuration record. */
  ghost predicate Enabled(s: System, step: Step, shape: Tree, classify: Path -> Class) {
    match step
    case BeginLoad => s.loader.Idle?
    case ReadSource(result) =>
      s.loader.Begun? && (result.config.Some? ==> SameShape(result.config.value, shape, classify))
    case AbandonLoad => true
    case FinishLoad(listing, rest, _, _) =>
      && s.loader.Read? && (s.loader.previous.Some? ==> s.m.active.Some?)
      && (s.loader.result.config.Some? ==> ListsOk(s.m, s.loader.result.config.value, listing, rest, classify))
    case WriteDocument(config, _, _, _) => SameShape(config, shape, classify)
  }

  ghost function Apply(s: System, step: Step, shape: Tree, classify: Path -> Class): System
    requires Enabled(s, step, shape, classify)
  {
    match step
    case BeginLoad => s.(loader := Begun(VersionOf(s.m)))
    case ReadSource(result) => s.(loader := Read(s.loader.previous, result, s.m.writes))
    case AbandonLoad => s.(loader := Idle)
    case FinishLoad(listing, rest, valid, accepted) =>
      System(Finish(s.m, s.loader, listing, rest, valid, accepted, classify), Idle)
    case WriteDocument(config, document, expected, refused) =>
      s.(m := Write(s.m, config, document, expected, refused))
  }

  /** The states along a run. */
  ghost predicate Run(states: seq<System>, steps: seq<Step>, shape: Tree, classify: Path -> Class) {
    && |states| == |steps| + 1
    && forall i :: 0 <= i < |steps| ==> Moves(states[i], steps[i], states[i + 1], shape, classify)
  }

  ghost predicate Moves(s: System, step: Step, t: System, shape: Tree, classify: Path -> Class) {
    Enabled(s, step, shape, classify) && t == Apply(s, step, shape, classify)
  }
}
