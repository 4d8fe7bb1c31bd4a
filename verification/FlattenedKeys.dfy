/**
 * A configuration document from flattened keys (config/runtime/source.go): keys are split into
 * segments, sorted by their canonical dotted form, checked for collisions between neighbours,
 * and built into a tree.
 */
module FlattenedKeys {
  import opened Options
  import opened ConfigTree
  import opened ConfigDiff

  // ---------------------------------------------------------------- keys

  predicate Separator(c: char) { c == '.' || c == '/' }

  /** The non-empty stretches between separators; `current` is the stretch being read. */
  function Fields(s: string, current: string): Path {
    if s == "" then if current == "" then [] else [current]
    else if Separator(s[0]) then (if current == "" then [] else [current]) + Fields(s[1..], "")
    else Fields(s[1..], current + [s[0]])
  }

  lemma {:induction false} FieldsArePlain(s: string, current: string)
    requires forall i :: 0 <= i < |current| ==> !Separator(current[i])
    ensures PlainPath(Fields(s, current))
    decreases |s|
  {
    if s != "" {
      if Separator(s[0]) {
        FieldsArePlain(s[1..], "");
      } else {
        FieldsArePlain(s[1..], current + [s[0]]);
      }
    }
  }

  datatype Entry = Entry(key: string, value: string) {
    function Parts(): Path { Fields(key, "") }

    function Canonical(): string { Join(Parts()) }
  }

  // ---------------------------------------------------------------- string order

  predicate Less(a: string, b: string) {
    b != "" && (a == "" || a[0] < b[0] || (a[0] == b[0] && Less(a[1..], b[1..])))
  }

  predicate AtMost(a: string, b: string) { a == b || Less(a, b) }

  lemma {:induction false} LessIsTotal(a: string, b: string)
    ensures Less(a, b) || a == b || Less(b, a)
  {
    if a != "" && b != "" && a[0] == b[0] {
      LessIsTotal(a[1..], b[1..]);
      assert a == [a[0]] + a[1..] && b == [b[0]] + b[1..];
    }
  }

  lemma {:induction false} LessIsStrict(a: string, b: string)
    requires Less(a, b)
    ensures !Less(b, a) && a != b
  {
    if a != "" && a[0] == b[0] {
      LessIsStrict(a[1..], b[1..]);
    }
  }

  lemma {:induction false} LessTrans(a: string, b: string, c: string)
    requires Less(a, b) && Less(b, c)
    ensures Less(a, c)
  {
    if a != "" && a[0] == b[0] == c[0] {
      LessTrans(a[1..], b[1..], c[1..]);
    }
  }

  /** An extension of p compares with another by what follows p. */
  lemma {:induction false} LessAfterPrefix(p: string, a: string, b: string)
    ensures Less(p + a, p + b) <==> Less(a, b)
  {
    if p == "" {
      assert p + a == a && p + b == b;
    } else {
      assert (p + a)[1..] == p[1..] + a && (p + b)[1..] == p[1..] + b;
      LessAfterPrefix(p[1..], a, b);
    }
  }

  /** What sorts between p and an extension of p extends p as well. */
  lemma {:induction false} BetweenExtends(p: string, x: string, q: string)
    requires p <= q && AtMost(p, x) && AtMost(x, q)
    ensures p <= x
  {
    if p != "" && x != q && x != p {
      LessIsStrict(p, x);
      LessIsStrict(x, q);
      assert x != "" && x[0] == p[0] == q[0];
      LessIsTotal(p[1..], x[1..]);
      assert AtMost(p[1..], x[1..]) && AtMost(x[1..], q[1..]);
      assert p[1..] <= q[1..];
      BetweenExtends(p[1..], x[1..], q[1..]);
      assert p == [p[0]] + p[1..];
      assert x == [x[0]] + x[1..];
    }
  }

  // ---------------------------------------------------------------- collisions

  /** q lies below p as a dotted path. */
  predicate Below(p: string, q: string) { p + "." <= q }

  /** q extends p by a character that sorts before the dot. */
  predicate Hides(p: string, q: string) { p <= q && |q| > |p| && q[|p|] < '.' }

  predicate Collide(p: string, q: string) { p == q || Below(p, q) }

  ghost predicate Sorted(keys: seq<string>) {
    forall i, j :: 0 <= i < j < |keys| ==> AtMost(keys[i], keys[j])
  }

  /** The check the program makes. */
  ghost predicate NeighboursCollide(keys: seq<string>) {
    exists i :: 0 < i < |keys| && Collide(keys[i - 1], keys[i])
  }

  /** Two of the keys collide, at whatever distance. */
  ghost predicate SomeCollide(keys: seq<string>) {
    exists i, j :: 0 <= i < |keys| && 0 <= j < |keys| && i != j && Collide(keys[i], keys[j])
  }

  /** A collision is found exactly when it is a duplicate, or the parent has nothing that sorts
      between it and its first child. */
  ghost predicate Exposed(keys: seq<string>) {
    || (exists i, j :: 0 <= i < j < |keys| && keys[i] == keys[j])
    || (exists i :: 0 <= i < |keys| && OpenParent(keys, keys[i]))
  }

  ghost predicate OpenParent(keys: seq<string>, p: string) {
    && (exists j :: 0 <= j < |keys| && Below(p, keys[j]))
    && (forall j :: 0 <= j < |keys| ==> !Hides(p, keys[j]))
  }

  lemma BelowIsAfter(p: string, q: string)
    requires p <= q && p != q
    ensures Less(p, q)
  {
    assert q == p + q[|p|..] && p == p + "";
    LessAfterPrefix(p, "", q[|p|..]);
  }

  /** Extensions of p sort by the character after p first. */
  lemma ExtensionOrder(p: string, x: string, y: string)
    requires p <= x && p <= y && |x| > |p| && |y| > |p| && AtMost(x, y)
    ensures x[|p|] <= y[|p|]
  {
    assert x == p + x[|p|..] && y == p + y[|p|..];
    LessAfterPrefix(p, x[|p|..], y[|p|..]);
  }

  /** The key after a parent extends it by at most a dot. */
  lemma Successor(keys: seq<string>, i: nat, j: nat)
    requires Sorted(keys) && i < j < |keys| && keys[i] <= keys[j] && keys[i] != keys[i + 1]
    requires |keys[j]| > |keys[i]|
    ensures var p, s := keys[i], keys[i + 1];
            p <= s && |s| > |p| && s[|p|] <= keys[j][|p|]
  {
    var p, s := keys[i], keys[i + 1];
    assert AtMost(p, s) && AtMost(s, keys[j]);
    BetweenExtends(p, s, keys[j]);
    ExtensionOrder(p, s, keys[j]);
  }

  lemma LaterInOrder(keys: seq<string>, i: nat, j: nat)
    requires Sorted(keys) && i < |keys| && j < |keys| && Less(keys[i], keys[j])
    ensures i < j
  {
    LessIsStrict(keys[i], keys[j]);
  }

  /** Neighbours that collide are an exposed collision. */
  lemma FoundIsExposed(keys: seq<string>)
    requires Sorted(keys) && NeighboursCollide(keys)
    ensures Exposed(keys)
  {
    var i :| 0 < i < |keys| && Collide(keys[i - 1], keys[i]);
    var p, s := keys[i - 1], keys[i];
    if p != s {
      forall j | 0 <= j < |keys| ensures !Hides(p, keys[j]) {
        if Hides(p, keys[j]) {
          BelowIsAfter(p, keys[j]);
          LaterInOrder(keys, i - 1, j);
          assert s[|p|] == '.';
          if j > i { ExtensionOrder(p, s, keys[j]); }
        }
      }
      assert OpenParent(keys, keys[i - 1]);
    }
  }

  /** An exposed collision makes two neighbours collide. */
  lemma ExposedIsFound(keys: seq<string>)
    requires Sorted(keys) && Exposed(keys)
    ensures NeighboursCollide(keys)
  {
    if i, j :| 0 <= i < j < |keys| && keys[i] == keys[j] {
      DuplicateIsFound(keys, i, j);
    } else {
      var i :| 0 <= i < |keys| && OpenParent(keys, keys[i]);
      var j :| 0 <= j < |keys| && Below(keys[i], keys[j]);
      ParentIsFound(keys, i, j);
    }
  }

  lemma BelowExtends(p: string, q: string)
    requires Below(p, q)
    ensures p <= q && |q| > |p| && q[|p|] == '.' && Less(p, q)
  {
    assert (p + ".")[|p|] == '.' && (p + ".")[..|p|] == p;
    BelowIsAfter(p, q);
  }

  lemma ExtendsByDot(p: string, s: string)
    requires p <= s && |s| > |p| && s[|p|] == '.'
    ensures Below(p, s)
  {
    assert s[..|p| + 1] == p + ".";
  }

  lemma ParentIsFound(keys: seq<string>, i: nat, j: nat)
    requires Sorted(keys) && i < |keys| && j < |keys| && Below(keys[i], keys[j])
    requires forall k :: 0 <= k < |keys| ==> !Hides(keys[i], keys[k])
    ensures NeighboursCollide(keys)
  {
    BelowExtends(keys[i], keys[j]);
    LaterInOrder(keys, i, j);
    if keys[i] != keys[i + 1] {
      Successor(keys, i, j);
      assert !Hides(keys[i], keys[i + 1]);
      ExtendsByDot(keys[i], keys[i + 1]);
    }
    assert Collide(keys[i + 1 - 1], keys[i + 1]);
  }

  lemma {:induction false} DuplicateIsFound(keys: seq<string>, i: nat, j: nat)
    requires Sorted(keys) && i < j < |keys| && keys[i] == keys[j]
    ensures NeighboursCollide(keys)
  {
    var s := keys[i + 1];
    if i + 1 < j && s != keys[i] {
      assert AtMost(keys[i], s) && AtMost(s, keys[j]);
      LessIsStrict(keys[i], s);
    }
    assert Collide(keys[i], keys[i + 1]);
  }

  /** Main result: the neighbour check rejects exactly the exposed collisions. */
  lemma NeighbourCheckIff(keys: seq<string>)
    requires Sorted(keys)
    ensures NeighboursCollide(keys) <==> Exposed(keys)
  {
    if NeighboursCollide(keys) { FoundIsExposed(keys); }
    if Exposed(keys) { ExposedIsFound(keys); }
  }

  /** No key contains a character below the dot. */
  ghost predicate AboveDot(keys: seq<string>) {
    forall i, k :: 0 <= i < |keys| && 0 <= k < |keys[i]| ==> keys[i][k] >= '.'
  }

  /** When no key contains a character below the dot, that is every collision. */
  lemma NeighbourCheckIsComplete(keys: seq<string>)
    requires Sorted(keys) && AboveDot(keys)
    ensures NeighboursCollide(keys) <==> SomeCollide(keys)
  {
    if NeighboursCollide(keys) {
      var i :| 0 < i < |keys| && Collide(keys[i - 1], keys[i]);
      assert i - 1 != i;
    }
    if i, j :| 0 <= i < |keys| && 0 <= j < |keys| && i != j && Collide(keys[i], keys[j]) {
      if keys[i] != keys[j] {
        assert OpenParent(keys, keys[i]);
      } else if j < i {
        assert keys[j] == keys[i];
      }
      assert Exposed(keys);
      ExposedIsFound(keys);
    }
  }

  // ---------------------------------------------------------------- dotted keys and paths

  lemma {:induction false} SplitConcat(x: string, y: string)
    ensures Split(x + "." + y) == Split(x) + Split(y)
    decreases |x|
  {
    var s, i := x + "." + y, FirstDot(x);
    if i == |x| {
      FirstDotAfter(x, y);
      assert s[..|x|] == x && s[|x| + 1..] == y;
    } else {
      var head, rest := x[..i], x[i + 1..];
      assert x == head + "." + rest;
      assert s == head + "." + (rest + "." + y);
      FirstDotAfter(head, rest + "." + y);
      assert s[..i] == head && s[i + 1..] == rest + "." + y;
      SplitConcat(rest, y);
    }
  }

  lemma {:induction false} JoinConcat(a: Path, b: Path)
    requires a != [] && b != []
    ensures Join(a + b) == Join(a) + "." + Join(b)
  {
    if |a| == 1 {
      assert (a + b)[1..] == b;
    } else {
      assert (a + b)[1..] == a[1..] + b;
      JoinConcat(a[1..], b);
      assert a[0] + "." + (Join(a[1..]) + "." + Join(b)) == a[0] + "." + Join(a[1..]) + "." + Join(b);
    }
  }

  /** Canonical keys collide exactly when one path is a prefix of the other. */
  lemma CollideIsPrefix(a: Path, b: Path)
    requires a != [] && b != [] && PlainPath(a) && PlainPath(b)
    ensures Collide(Join(a), Join(b)) <==> a <= b
  {
    SplitJoin(a);
    SplitJoin(b);
    if a <= b && a != b {
      assert b == a + b[|a|..];
      JoinConcat(a, b[|a|..]);
    }
    if Below(Join(a), Join(b)) {
      var rest := Join(b)[|Join(a)| + 1..];
      assert Join(b) == Join(a) + "." + rest;
      SplitConcat(Join(a), rest);
    }
  }

  // ---------------------------------------------------------------- building

  /** Sets one value, making a mapping of whatever stands on the way that is not one. */
  function Insert(t: Tree, parts: Path, v: string): (r: Tree)
    requires t.Branch? && parts != []
    ensures r.Branch?
    decreases |parts|
  {
    if |parts| == 1 then Branch(t.kids[parts[0] := Leaf(v)])
    else
      var below := if parts[0] in t.kids && t.kids[parts[0]].Branch? then t.kids[parts[0]] else Branch(map[]);
      Branch(t.kids[parts[0] := Insert(below, parts[1..], v)])
  }

  /** What one insertion changes: its path, what leads there, and what was below it. */
  lemma {:induction false} LookInsert(t: Tree, parts: Path, v: string, q: Path)
    requires t.Branch? && parts != []
    ensures Look(Insert(t, parts, v), q) ==
            if q == parts then Scalar(v) else if q <= parts then Inner else if parts <= q then Absent else Look(t, q)
    decreases |parts|
  {
    var r := Insert(t, parts, v);
    if q != [] {
      var k := q[0];
      assert q == [k] + q[1..] && parts == [parts[0]] + parts[1..];
      AtKey(r, k, q[1..]);
      AtKey(t, k, q[1..]);
      if k == parts[0] {
        PrefixTail(q, parts);
        PrefixTail(parts, q);
        if |parts| > 1 {
          var below := if k in t.kids && t.kids[k].Branch? then t.kids[k] else Branch(map[]);
          LookInsert(below, parts[1..], v, q[1..]);
        }
      }
    }
  }

  lemma PrefixTail(a: Path, b: Path)
    requires a != [] && b != [] && a[0] == b[0]
    ensures a <= b <==> a[1..] <= b[1..]
  {
    assert a == [a[0]] + a[1..] && b == [b[0]] + b[1..];
  }

  datatype Binding = Binding(path: Path, value: string)

  function Build(bindings: seq<Binding>): (r: Tree)
    requires forall i :: 0 <= i < |bindings| ==> bindings[i].path != []
    ensures r.Branch?
  {
    if bindings == [] then Branch(map[])
    else
      var last := bindings[|bindings| - 1];
      Insert(Build(bindings[..|bindings| - 1]), last.path, last.value)
  }

  /** No path is a prefix of another. */
  ghost predicate PrefixFree(bindings: seq<Binding>) {
    forall i, j :: 0 <= i < |bindings| && 0 <= j < |bindings| && i != j ==> !(bindings[i].path <= bindings[j].path)
  }

  ghost predicate LeadsTo(bindings: seq<Binding>, q: Path) {
    exists i :: 0 <= i < |bindings| && q <= bindings[i].path && q != bindings[i].path
  }

  ghost predicate Binds(bindings: seq<Binding>, q: Path) { exists i :: 0 <= i < |bindings| && bindings[i].path == q }

  /** The tree has this kind at q if each value is at its own path and there is nothing else. */
  ghost predicate ExactAt(t: Tree, bindings: seq<Binding>, q: Path) {
    && (Look(t, q).Inner? <==> q == [] || LeadsTo(bindings, q))
    && (Look(t, q).Scalar? <==> Binds(bindings, q))
    && (forall i :: 0 <= i < |bindings| && bindings[i].path == q ==> Look(t, q) == Scalar(bindings[i].value))
  }

  lemma SnocPaths(m: seq<Binding>, last: Binding, q: Path)
    ensures LeadsTo(m + [last], q) <==> LeadsTo(m, q) || (q <= last.path && q != last.path)
    ensures Binds(m + [last], q) <==> Binds(m, q) || q == last.path
  {
    var b := m + [last];
    assert b[|m|] == last;
    forall i | 0 <= i < |m| ensures b[i] == m[i] {
    }
  }

  lemma InsertOneExact(t: Tree, r: Tree, m: seq<Binding>, last: Binding, q: Path)
    requires ExactAt(t, m, q) && last.path != []
    requires Look(r, q) == if q == last.path then Scalar(last.value) else if q <= last.path then Inner
                           else if last.path <= q then Absent else Look(t, q)
    requires last.path <= q ==> !LeadsTo(m, q) && !Binds(m, q)
    requires q <= last.path ==> !Binds(m, q)
    ensures ExactAt(r, m + [last], q)
  {
    SnocPaths(m, last, q);
    var b := m + [last];
    forall i | 0 <= i < |b| && b[i].path == q ensures Look(r, q) == Scalar(b[i].value) {
      if i < |m| {
        assert b[i] == m[i];
        assert Binds(m, q);
      }
    }
  }

  lemma InsertExact(bindings: seq<Binding>, q: Path)
    requires bindings != [] && (forall i :: 0 <= i < |bindings| ==> bindings[i].path != []) && PrefixFree(bindings)
    requires ExactAt(Build(bindings[..|bindings| - 1]), bindings[..|bindings| - 1], q)
    ensures ExactAt(Build(bindings), bindings, q)
  {
    var n := |bindings| - 1;
    var m, last := bindings[..n], bindings[n];
    LookInsert(Build(m), last.path, last.value, q);
    Separate(bindings, q);
    InsertOneExact(Build(m), Build(bindings), m, last, q);
    assert bindings == m + [last];
  }

  lemma PrefixTrans(a: Path, b: Path, c: Path)
    requires a <= b
    ensures b <= c ==> a <= c
  {
  }

  /** Below the last path nothing else is bound, and nothing bound leads through it. */
  lemma Separate(bindings: seq<Binding>, q: Path)
    requires bindings != [] && PrefixFree(bindings)
    ensures var m, last := bindings[..|bindings| - 1], bindings[|bindings| - 1];
            && (last.path <= q ==> !LeadsTo(m, q) && !Binds(m, q))
            && (q <= last.path ==> !Binds(m, q))
  {
    var n := |bindings| - 1;
    var m, last := bindings[..n], bindings[n];
    forall i | 0 <= i < |m|
      ensures last.path <= q ==> !(q <= m[i].path)
      ensures q <= last.path || last.path <= q ==> m[i].path != q
    {
      assert m[i] == bindings[i] && !(bindings[n].path <= bindings[i].path);
      assert !(bindings[i].path <= bindings[n].path);
      if last.path <= q {
        PrefixTrans(last.path, q, m[i].path);
      }
    }
  }

  /** Without collisions the tree holds each value at its own path and nothing else. */
  lemma {:induction false} BuildIsExact(bindings: seq<Binding>, q: Path)
    requires (forall i :: 0 <= i < |bindings| ==> bindings[i].path != []) && PrefixFree(bindings)
    ensures ExactAt(Build(bindings), bindings, q)
  {
    if bindings != [] {
      var m := bindings[..|bindings| - 1];
      assert forall i :: 0 <= i < |m| ==> m[i] == bindings[i];
      BuildIsExact(m, q);
      InsertExact(bindings, q);
    } else {
      assert q != [] ==> Look(Branch(map[]), q) == Absent;
    }
  }

  /** No tree at all can hold both of two colliding values. */
  lemma CollisionIsNeverExact(t: Tree, bindings: seq<Binding>, i: nat, j: nat)
    requires i < |bindings| && j < |bindings|
    requires bindings[i].path <= bindings[j].path && bindings[i].path != bindings[j].path
    ensures !ExactAt(t, bindings, bindings[i].path)
  {
    var q := bindings[i].path;
    assert Binds(bindings, q) && LeadsTo(bindings, q);
  }

  // ---------------------------------------------------------------- the program

  function Keys(entries: seq<Entry>): (r: seq<string>)
    ensures |r| == |entries| && forall i :: 0 <= i < |r| ==> r[i] == entries[i].Canonical()
  {
    seq(|entries|, i requires 0 <= i < |entries| => entries[i].Canonical())
  }

  function Bindings(entries: seq<Entry>): (r: seq<Binding>)
    ensures |r| == |entries| && forall i :: 0 <= i < |r| ==> r[i] == Binding(entries[i].Parts(), entries[i].value)
  {
    seq(|entries|, i requires 0 <= i < |entries| => Binding(entries[i].Parts(), entries[i].value))
  }

  function Size(entries: seq<Entry>): nat {
    if entries == [] then 0
    else Size(entries[..|entries| - 1]) + |entries[|entries| - 1].key| + |entries[|entries| - 1].value|
  }

  datatype Outcome = Collision | TooLarge | Document(tree: Tree)

  lemma {:induction false} SizeGrows(entries: seq<Entry>, n: nat)
    requires n <= |entries|
    ensures Size(entries[..n]) <= Size(entries)
    decreases |entries|
  {
    if n == |entries| {
      assert entries[..n] == entries;
    } else {
      assert entries[..|entries| - 1][..n] == entries[..n];
      SizeGrows(entries[..|entries| - 1], n);
    }
  }

  method CheckNeighbours(entries: seq<Entry>) returns (found: bool)
    ensures found <==> NeighboursCollide(Keys(entries))
  {
    ghost var keys := Keys(entries);
    if entries == [] {
      return false;
    }
    for i := 1 to |entries|
      invariant forall k :: 0 < k < i ==> !Collide(keys[k - 1], keys[k])
    {
      var previous, current := entries[i - 1].Canonical(), entries[i].Canonical();
      if previous == current || previous + "." <= current {
        assert Collide(keys[i - 1], keys[i]);
        return true;
      }
    }
    return false;
  }

  lemma BuildSnoc(b: seq<Binding>, n: nat)
    requires n < |b| && (forall i :: 0 <= i < |b| ==> b[i].path != [])
    ensures Build(b[..n + 1]) == Insert(Build(b[..n]), b[n].path, b[n].value)
  {
    assert b[..n + 1][..n] == b[..n];
  }

  method Materialize(entries: seq<Entry>, maxBytes: nat) returns (r: Option<Tree>)
    requires forall i :: 0 <= i < |entries| ==> entries[i].Parts() != []
    ensures r == if Size(entries) > maxBytes then None else Some(Build(Bindings(entries)))
  {
    var root, size := Branch(map[]), 0;
    ghost var all := Bindings(entries);
    for i := 0 to |entries|
      invariant size == Size(entries[..i]) && size <= maxBytes
      invariant root.Branch? && root == Build(all[..i])
    {
      assert entries[..i + 1][..i] == entries[..i];
      BuildSnoc(all, i);
      size := size + |entries[i].key| + |entries[i].value|;
      if size > maxBytes {
        SizeGrows(entries, i + 1);
        return None;
      }
      root := Insert(root, entries[i].Parts(), entries[i].value);
    }
    assert entries[..|entries|] == entries && all[..|all|] == all;
    return Some(root);
  }

  /** Check and build, after the entries with at least one segment are sorted. */
  method FromSorted(entries: seq<Entry>, maxBytes: nat) returns (r: Outcome)
    requires forall i :: 0 <= i < |entries| ==> entries[i].Parts() != []
    requires Sorted(Keys(entries))
    ensures r.Collision? <==> Exposed(Keys(entries))
    ensures r.TooLarge? <==> !Exposed(Keys(entries)) && Size(entries) > maxBytes
    ensures r.Document? ==> r.tree == Build(Bindings(entries))
    ensures r.Document? && AboveDot(Keys(entries)) ==> forall q :: ExactAt(r.tree, Bindings(entries), q)
  {
    NeighbourCheckIff(Keys(entries));
    var found := CheckNeighbours(entries);
    if found {
      return Collision;
    }
    var tree := Materialize(entries, maxBytes);
    if tree.None? {
      return TooLarge;
    }
    PlainKeysAreExact(entries);
    return Document(tree.value);
  }

  /** Without any collision the document is exact. */
  lemma CollisionFreeIsExact(entries: seq<Entry>, q: Path)
    requires forall i :: 0 <= i < |entries| ==> entries[i].Parts() != []
    requires !SomeCollide(Keys(entries))
    ensures ExactAt(Build(Bindings(entries)), Bindings(entries), q)
  {
    var b, keys := Bindings(entries), Keys(entries);
    forall i, j | 0 <= i < |b| && 0 <= j < |b| && i != j ensures !(b[i].path <= b[j].path) {
      EntryCollides(entries, i, j);
      assert !Collide(keys[i], keys[j]);
    }
    BuildIsExact(b, q);
  }

  lemma EntryCollides(entries: seq<Entry>, i: nat, j: nat)
    requires i < |entries| && j < |entries| && entries[i].Parts() != [] && entries[j].Parts() != []
    ensures Collide(Keys(entries)[i], Keys(entries)[j]) <==> Bindings(entries)[i].path <= Bindings(entries)[j].path
  {
    FieldsArePlain(entries[i].key, "");
    FieldsArePlain(entries[j].key, "");
    CollideIsPrefix(entries[i].Parts(), entries[j].Parts());
  }

  /**
   * A document that passed the neighbour check is exact if and only if no two keys collide, at
   * whatever distance.
   */
  lemma AcceptedIsExactIff(entries: seq<Entry>)
    requires forall i :: 0 <= i < |entries| ==> entries[i].Parts() != []
    requires Sorted(Keys(entries)) && !NeighboursCollide(Keys(entries))
    ensures (forall q :: ExactAt(Build(Bindings(entries)), Bindings(entries), q)) <==> !SomeCollide(Keys(entries))
  {
    if SomeCollide(Keys(entries)) {
      var q := CollisionIsInexact(entries);
    } else {
      forall q ensures ExactAt(Build(Bindings(entries)), Bindings(entries), q) {
        CollisionFreeIsExact(entries, q);
      }
    }
  }

  lemma CollisionIsInexact(entries: seq<Entry>) returns (q: Path)
    requires forall i :: 0 <= i < |entries| ==> entries[i].Parts() != []
    requires Sorted(Keys(entries)) && !NeighboursCollide(Keys(entries)) && SomeCollide(Keys(entries))
    ensures !ExactAt(Build(Bindings(entries)), Bindings(entries), q)
  {
    var b, keys := Bindings(entries), Keys(entries);
    var i, j :| 0 <= i < |keys| && 0 <= j < |keys| && i != j && Collide(keys[i], keys[j]);
    EntryCollides(entries, i, j);
    AcceptedAreDistinct(keys, i, j);
    q := b[i].path;
    CollisionIsNeverExact(Build(b), b, i, j);
  }

  /** Duplicates never pass the check. */
  lemma AcceptedAreDistinct(keys: seq<string>, i: nat, j: nat)
    requires Sorted(keys) && !NeighboursCollide(keys) && i < |keys| && j < |keys| && i != j
    ensures keys[i] != keys[j]
  {
    if keys[i] == keys[j] {
      if i < j { DuplicateIsFound(keys, i, j); } else { DuplicateIsFound(keys, j, i); }
    }
  }

  /** With no character below the dot, passing the check is enough. */
  lemma PlainKeysAreExact(entries: seq<Entry>)
    requires forall i :: 0 <= i < |entries| ==> entries[i].Parts() != []
    requires Sorted(Keys(entries)) && !NeighboursCollide(Keys(entries))
    ensures AboveDot(Keys(entries)) ==> forall q :: ExactAt(Build(Bindings(entries)), Bindings(entries), q)
  {
    if AboveDot(Keys(entries)) {
      NeighbourCheckIsComplete(Keys(entries));
      AcceptedIsExactIff(entries);
    }
  }

  /** A hidden collision: with '-' sorting before '.', the scalar at "a" is silently replaced. */
  lemma HiddenCollision(v: string, w: string, x: string)
    ensures var keys := ["a", "a-b", "a.c"];
            Sorted(keys) && SomeCollide(keys) && !NeighboursCollide(keys)
    ensures Look(Build([Binding(["a"], v), Binding(["a-b"], w), Binding(["a", "c"], x)]), ["a"]) == Inner
  {
    var keys := ["a", "a-b", "a.c"];
    assert "a" + "" == "a" && "a" + "-b" == "a-b" && "a" + ".c" == "a.c";
    LessAfterPrefix("a", "", "-b");
    LessAfterPrefix("a", "-b", ".c");
    LessAfterPrefix("a", "", ".c");
    assert Less("-b", ".c");
    assert Below(keys[0], keys[2]);
    assert Collide(keys[0], keys[2]);
    var b := [Binding(["a"], v), Binding(["a-b"], w), Binding(["a", "c"], x)];
    LookInsert(Build(b[..2]), ["a", "c"], x, ["a"]);
    assert ["a"] <= ["a", "c"];
  }
}
