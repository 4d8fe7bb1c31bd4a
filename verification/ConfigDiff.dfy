/**
 * The difference and the hot application as the program runs them: recursion over the two
 * mappings with dotted path strings, then a loop that splits the strings again
 * (config/runtime/parser.go).
 */
module ConfigDiff {
  import opened Options
  import opened ConfigTree

  // ---------------------------------------------------------------- dotted paths

  predicate PlainKey(k: string) { k != "" && '.' !in k }

  predicate PlainPath(p: Path) { forall i :: 0 <= i < |p| ==> PlainKey(p[i]) }

  /** No key of the document is empty or contains a dot. */
  predicate Plain(t: Tree) {
    t.Branch? ==> forall k :: k in t.kids ==> PlainKey(k) && Plain(t.kids[k])
  }

  function Join(p: Path): string {
    if p == [] then "" else if |p| == 1 then p[0] else p[0] + "." + Join(p[1..])
  }

  function FirstDot(s: string): (i: nat)
    ensures i <= |s| && '.' !in s[..i] && (i < |s| ==> s[i] == '.')
  {
    if s == "" || s[0] == '.' then 0 else 1 + FirstDot(s[1..])
  }

  function Split(s: string): Path
    decreases |s|
  {
    var i := FirstDot(s);
    if i == |s| then [s] else [s[..i]] + Split(s[i + 1..])
  }

  lemma {:induction false} FirstDotAfter(k: string, rest: string)
    requires '.' !in k
    ensures FirstDot(k + "." + rest) == |k| && FirstDot(k) == |k|
  {
    if k != "" {
      FirstDotAfter(k[1..], rest);
      assert (k + "." + rest)[1..] == k[1..] + "." + rest;
    }
  }

  /** Splitting undoes joining for plain keys. */
  lemma {:induction false} SplitJoin(p: Path)
    requires p != [] && PlainPath(p)
    ensures Split(Join(p)) == p
  {
    if |p| == 1 {
      FirstDotAfter(p[0], "");
    } else {
      var rest := Join(p[1..]);
      FirstDotAfter(p[0], rest);
      SplitJoin(p[1..]);
      var s := p[0] + "." + rest;
      assert s[..|p[0]|] == p[0] && s[|p[0]| + 1..] == rest;
    }
  }

  lemma {:induction false} JoinSnoc(p: Path, k: string)
    requires PlainPath(p) && PlainKey(k)
    ensures Join(p + [k]) == if p == [] then k else Join(p) + "." + k
    ensures p != [] ==> Join(p) != ""
  {
    if |p| == 1 {
      assert (p + [k])[1..] == [k];
    } else if |p| > 1 {
      assert (p + [k])[1..] == p[1..] + [k];
      JoinSnoc(p[1..], k);
      assert p[0] + "." + (Join(p[1..]) + "." + k) == p[0] + "." + Join(p[1..]) + "." + k;
    }
  }

  lemma {:induction false} PresentIsPlain(t: Tree, p: Path)
    requires Plain(t) && Look(t, p) != Absent
    ensures PlainPath(p)
  {
    if p != [] {
      PresentIsPlain(t.kids[p[0]], p[1..]);
      forall i | 0 <= i < |p| ensures PlainKey(p[i]) {
        if i > 0 { assert p[i] == p[1..][i - 1]; }
      }
    }
  }

  // ---------------------------------------------------------------- classes

  /** The class of a changed path. `p <= s` says that p is a prefix of s. */
  function Classify(path: string): Class {
    if path == "server.name" || "server.name." <= path then Immutable
    else if path == "server.log_level" || path == "server.drain_timeout" then Hot
    else if "limits." <= path then Hot
    else if "stream.simulcast" <= path || path == "stream.ring_buffer_size" then Restart
    else if "stream." <= path then Hot
    else if path == "auth.enabled" then Restart
    else if "auth." <= path then Hot
    else if "notify.http.endpoints" <= path then Hot
    else if "notify." <= path then Restart
    else if "record." <= path then
      if path == "record.enabled" || path == "record.path" then Restart else Hot
    else if "dvr." <= path then
      if path == "dvr.enabled" || path == "dvr.listen" || path == "dvr.path" then Restart else Hot
    else if "api.auth." <= path || "api.console." <= path then Hot
    else if "api." <= path then Restart
    else if "cluster." <= path then
      if "cluster.forward." <= path || "cluster.origin." <= path || "cluster.health_check." <= path then
        if path == "cluster.forward.enabled" || path == "cluster.origin.enabled"
           || path == "cluster.health_check.enabled" then Restart else Hot
      else Restart
    else if "http_stream.hls." <= path || "http_stream.dash." <= path || "http_stream.llhls." <= path then Hot
    else if "webrtc.gcc." <= path then
      if path == "webrtc.gcc.enabled" then Restart else Hot
    else Restart
  }

  function ClassOf(p: Path): Class { Classify(Join(p)) }

  // ---------------------------------------------------------------- difference

  datatype Change = Change(path: string, class_: Class)

  function Under(k: string, paths: seq<Path>): (r: seq<Path>)
    ensures |r| == |paths| && forall i :: 0 <= i < |r| ==> r[i] == [k] + paths[i]
  {
    seq(|paths|, i requires 0 <= i < |paths| => [k] + paths[i])
  }

  /** The changes are the paths as text under a prefix, each with its class. */
  ghost predicate Names(changes: seq<Change>, prefix: Path, paths: seq<Path>, classify: string -> Class) {
    && |changes| == |paths|
    && forall i :: 0 <= i < |paths| ==>
         changes[i].path == Join(prefix + paths[i]) && changes[i].class_ == classify(changes[i].path)
  }

  ghost predicate Describes(changes: seq<Change>, prefix: Path, paths: seq<Path>) {
    Names(changes, prefix, paths, Classify)
  }

  /** The texts of the changes are exactly the differing paths. */
  ghost predicate Reports(changes: seq<Change>, prefix: Path, a: Tree, b: Tree) {
    && (forall p :: Differs(a, b, p) ==> Mentions(changes, Join(prefix + p)))
    && (forall i :: 0 <= i < |changes| ==> Justified(changes[i].path, prefix, a, b))
  }

  ghost predicate Mentions(changes: seq<Change>, text: string) {
    exists i :: 0 <= i < |changes| && changes[i].path == text
  }

  ghost predicate Justified(text: string, prefix: Path, a: Tree, b: Tree) {
    exists p :: Differs(a, b, p) && text == Join(prefix + p)
  }

  lemma NamesReport(changes: seq<Change>, prefix: Path, paths: seq<Path>, a: Tree, b: Tree, classify: string -> Class)
    requires Names(changes, prefix, paths, classify) && Lists(paths, a, b)
    ensures Reports(changes, prefix, a, b)
  {
    forall p | Differs(a, b, p) ensures Mentions(changes, Join(prefix + p)) {
      var i :| 0 <= i < |paths| && paths[i] == p;
      assert changes[i].path == Join(prefix + p);
    }
    forall i | 0 <= i < |changes| ensures Justified(changes[i].path, prefix, a, b) {
      assert paths[i] in paths;
      assert Differs(a, b, paths[i]);
    }
  }

  /** As `Lists`, for the differences below a set of keys. */
  ghost predicate ListsUnder(paths: seq<Path>, a: Tree, b: Tree, keys: set<string>) {
    && (forall p :: p in paths <==> Differs(a, b, p) && p[0] in keys)
    && (forall i, j :: 0 <= i < j < |paths| ==> paths[i] != paths[j])
  }

  lemma ListsGrows(paths: seq<Path>, more: seq<Path>, a: Tree, b: Tree, keys: set<string>, k: string)
    requires ListsUnder(paths, a, b, keys) && k !in keys
    requires ListsUnder(more, a, b, {k})
    ensures ListsUnder(paths + more, a, b, keys + {k})
  {
    var all := paths + more;
    forall i, j | 0 <= i < j < |all| ensures all[i] != all[j] {
      if i < |paths| <= j {
        assert all[i] in paths && all[j] in more;
      }
    }
  }

  lemma ListsBelow(sub: seq<Path>, a: Tree, b: Tree, k: string)
    requires a.Branch? && b.Branch? && k in a.kids && k in b.kids
    requires a.kids[k].Branch? && b.kids[k].Branch? && Lists(sub, a.kids[k], b.kids[k])
    ensures ListsUnder(Under(k, sub), a, b, {k})
  {
    var r := Under(k, sub);
    forall p ensures p in r <==> Differs(a, b, p) && p[0] in {k} {
      if p in r {
        var i :| 0 <= i < |r| && r[i] == p;
        DiffersStep(a, b, k, sub[i]);
      }
      if Differs(a, b, p) && p[0] == k {
        assert p == [k] + p[1..];
        DiffersStep(a, b, k, p[1..]);
        var i :| 0 <= i < |sub| && sub[i] == p[1..];
        assert r[i] == p;
      }
    }
    forall i, j | 0 <= i < j < |r| ensures r[i] != r[j] {
      assert r[i][1..] == sub[i] && r[j][1..] == sub[j];
    }
  }

  lemma ListsKey(a: Tree, b: Tree, k: string, differ: bool)
    requires a.Branch? && b.Branch? && (k in a.kids || k in b.kids)
    requires !(k in a.kids && k in b.kids && a.kids[k].Branch? && b.kids[k].Branch?)
    requires differ <==> k !in a.kids || k !in b.kids || a.kids[k] != b.kids[k]
    ensures ListsUnder(if differ then [[k]] else [], a, b, {k})
  {
    forall p ensures Differs(a, b, p) && p[0] in {k} <==> differ && p == [k] {
      var q := if p != [] && p[0] == k then p[1..] else [];
      if p != [] && p[0] == k {
        assert p == [k] + q;
      }
      assert [k] + [] == [k];
      if k in a.kids && k in b.kids {
        DiffersStep(a, b, k, q);
      } else {
        DiffersMissing(a, b, k, q);
      }
    }
  }

  /**
   * Appends the differences of two mappings: exactly the differing paths, each once. Keys are
   * visited in any order; the caller sorts the result.
   */
  method DiffMaps(prefix: string, a: Tree, b: Tree, ghost at: Path)
    returns (changes: seq<Change>, ghost paths: seq<Path>)
    requires a.Branch? && b.Branch? && Plain(a) && Plain(b)
    requires PlainPath(at) && prefix == Join(at)
    ensures Lists(paths, a, b) && Describes(changes, at, paths)
    ensures Reports(changes, at, a, b) && forall i :: 0 <= i < |changes| ==> changes[i].class_ == Classify(changes[i].path)
    decreases a
  {
    changes, paths := [], [];
    var todo := a.kids.Keys + b.kids.Keys;
    ghost var done: set<string> := {};
    while todo != {}
      invariant done !! todo && done + todo == a.kids.Keys + b.kids.Keys
      invariant ListsUnder(paths, a, b, done) && Describes(changes, at, paths)
      decreases todo
    {
      var key :| key in todo;
      JoinSnoc(at, key);
      var path := if prefix != "" then prefix + "." + key else key;
      assert path == Join(at + [key]);
      if key in a.kids && key in b.kids && a.kids[key].Branch? && b.kids[key].Branch? {
        var sub, subPaths := DiffMaps(path, a.kids[key], b.kids[key], at + [key]);
        ListsBelow(subPaths, a, b, key);
        ListsGrows(paths, Under(key, subPaths), a, b, done, key);
        NamesBelow(changes, sub, at, key, paths, subPaths, Classify);
        changes, paths := changes + sub, paths + Under(key, subPaths);
      } else {
        var differ := key !in a.kids || key !in b.kids || a.kids[key] != b.kids[key];
        ListsKey(a, b, key, differ);
        ListsGrows(paths, if differ then [[key]] else [], a, b, done, key);
        if differ {
          changes, paths := changes + [Change(path, Classify(path))], paths + [[key]];
        } else {
          assert paths + [] == paths;
        }
      }
      todo, done := todo - {key}, done + {key};
    }
    AllKeysList(paths, a, b, done);
    NamesReport(changes, at, paths, a, b, Classify);
  }

  lemma NamesBelow(changes: seq<Change>, sub: seq<Change>, at: Path, k: string,
                   paths: seq<Path>, subPaths: seq<Path>, classify: string -> Class)
    requires Names(changes, at, paths, classify) && Names(sub, at + [k], subPaths, classify)
    ensures Names(changes + sub, at, paths + Under(k, subPaths), classify)
  {
    forall i | 0 <= i < |subPaths| ensures at + [k] + subPaths[i] == at + Under(k, subPaths)[i] {
    }
  }

  lemma AllKeysList(paths: seq<Path>, a: Tree, b: Tree, keys: set<string>)
    requires a.Branch? && b.Branch? && keys == a.kids.Keys + b.kids.Keys
    requires ListsUnder(paths, a, b, keys)
    ensures Lists(paths, a, b)
  {
    forall p | Differs(a, b, p) ensures p[0] in keys {
      assert Look(a, p) != Absent || Look(b, p) != Absent;
    }
  }

  // ---------------------------------------------------------------- hot application

  /** The value at a path, walking down one mapping at a time; the empty path has none. */
  method MapPathValue(root: Tree, parts: Path) returns (r: Option<Tree>)
    requires root.Branch?
    ensures r == if parts == [] then None else At(root, parts)
  {
    var current := root;
    for i := 0 to |parts|
      invariant current.Branch? && At(root, parts) == At(current, parts[i..])
      invariant i > 0 ==> i < |parts|
    {
      assert parts[i..][1..] == parts[i + 1..];
      if parts[i] !in current.kids {
        return None;
      }
      var value := current.kids[parts[i]];
      if i == |parts| - 1 {
        return Some(value);
      }
      if value.Leaf? {
        assert At(value, parts[i + 1..]).None?;
        return None;
      }
      current := value;
    }
    return None;
  }

  /** Sets every hot change in the current document to its desired value, in order. */
  method ApplyHotChanges(current: Tree, desired: Tree, changes: seq<Change>, ghost paths: seq<Path>)
    returns (r: Option<Tree>)
    requires current.Branch? && desired.Branch?
    requires Describes(changes, [], paths)
    requires forall p :: p in paths ==> p != [] && PlainPath(p)
    ensures r == ApplyHot(current, desired, paths, ClassOf)
  {
    var result := current;
    for i := 0 to |changes|
      invariant ApplyHot(current, desired, paths[..i], ClassOf) == Some(result)
    {
      assert paths[..i + 1][..i] == paths[..i];
      DescribedPath(changes, paths, i);
      if changes[i].class_ == Hot {
        var parts := Split(changes[i].path);
        var value := MapPathValue(desired, parts);
        var next := if value.Some? then SetPath(result, parts, value.value) else None;
        if next.None? {
          ApplyHotFails(current, desired, paths, i + 1, ClassOf);
          return None;
        }
        result := next.value;
      }
    }
    assert paths[..|paths|] == paths;
    return Some(result);
  }

  /** A change is described by its own path. */
  lemma DescribedPath(changes: seq<Change>, paths: seq<Path>, i: nat)
    requires Describes(changes, [], paths) && i < |changes| && forall p :: p in paths ==> p != [] && PlainPath(p)
    ensures i < |paths| && Split(changes[i].path) == paths[i] && changes[i].class_ == ClassOf(paths[i])
  {
    assert [] + paths[i] == paths[i] && paths[i] in paths;
    SplitJoin(paths[i]);
  }

  /** After a failed change the rest does not matter. */
  lemma {:induction false} ApplyHotFails(t: Tree, desired: Tree, paths: seq<Path>, n: nat, classify: Path -> Class)
    requires n <= |paths| && ApplyHot(t, desired, paths[..n], classify).None?
    ensures ApplyHot(t, desired, paths, classify).None?
    decreases |paths|
  {
    if n == |paths| {
      assert paths[..n] == paths;
    } else {
      assert paths[..|paths| - 1][..n] == paths[..n];
      ApplyHotFails(t, desired, paths[..|paths| - 1], n, classify);
    }
  }
}
