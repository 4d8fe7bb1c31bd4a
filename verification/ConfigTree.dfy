/**
 * Configuration documents as trees: the difference of two documents, and the application of
 * some of the differences to a third (config/runtime/parser.go).
 *
 * A document is a mapping from keys to scalars, lists or further mappings. Everything that is
 * not a mapping is a leaf: the difference never looks inside it.
 */
module ConfigTree {
  import opened Options

  type Path = seq<string>

  datatype Tree = Leaf(value: string) | Branch(kids: map<string, Tree>)

  /** What stands at a path, without what stands below it. */
  datatype Kind = Absent | Inner | Scalar(value: string)

  datatype Class = Immutable | Hot | Restart

  function At(t: Tree, p: Path): Option<Tree> {
    if p == [] then Some(t)
    else if t.Branch? && p[0] in t.kids then At(t.kids[p[0]], p[1..])
    else None
  }

  function KindOf(t: Option<Tree>): Kind {
    match t
    case None => Absent
    case Some(Leaf(v)) => Scalar(v)
    case Some(Branch(_)) => Inner
  }

  function Look(t: Tree, p: Path): Kind { KindOf(At(t, p)) }

  lemma AtKey(t: Tree, k: string, p: Path)
    requires t.Branch?
    ensures At(t, [k] + p) == if k in t.kids then At(t.kids[k], p) else None
    ensures At(t, [k]) == if k in t.kids then Some(t.kids[k]) else None
  {
    assert ([k] + p)[1..] == p;
    assert [k][1..] == [];
  }

  /** Trees with the same kind at every path are the same tree. */
  lemma {:induction false} TreesByLook(a: Tree, b: Tree)
    requires forall p :: Look(a, p) == Look(b, p)
    ensures a == b
    decreases a
  {
    assert Look(a, []) == Look(b, []);
    if a.Branch? {
      forall k | k in a.kids || k in b.kids
        ensures k in a.kids && k in b.kids && a.kids[k] == b.kids[k]
      {
        assert Look(a, [k]) == Look(b, [k]);
        AtKey(a, k, []);
        AtKey(b, k, []);
        forall p ensures Look(a.kids[k], p) == Look(b.kids[k], p) {
          AtKey(a, k, p);
          AtKey(b, k, p);
          assert Look(a, [k] + p) == Look(b, [k] + p);
        }
        TreesByLook(a.kids[k], b.kids[k]);
      }
      assert a.kids == b.kids;
    }
  }

  lemma {:induction false} AtConcat(t: Tree, p: Path, q: Path)
    ensures At(t, p + q) == if At(t, p).Some? then At(At(t, p).value, q) else None
  {
    if p == [] {
      assert p + q == q;
    } else {
      assert (p + q)[1..] == p[1..] + q;
      if t.Branch? && p[0] in t.kids {
        AtConcat(t.kids[p[0]], p[1..], q);
      }
    }
  }

  /** Something stands below a path only when a mapping stands at it. */
  lemma BelowIsInner(t: Tree, p: Path, q: Path)
    requires Look(t, p + q) != Absent && q != []
    ensures Look(t, p) == Inner
  {
    AtConcat(t, p, q);
  }

  // ---------------------------------------------------------------- difference

  /** The two documents are both mappings all the way to p, and differ at p itself. */
  ghost predicate Differs(a: Tree, b: Tree, p: Path) {
    && p != []
    && (forall i :: 0 <= i < |p| ==> Look(a, p[..i]) == Inner && Look(b, p[..i]) == Inner)
    && Look(a, p) != Look(b, p)
  }

  lemma DiffersStep(a: Tree, b: Tree, k: string, p: Path)
    requires a.Branch? && b.Branch? && k in a.kids && k in b.kids
    ensures Differs(a, b, [k] + p) <==>
            if a.kids[k].Branch? && b.kids[k].Branch? then Differs(a.kids[k], b.kids[k], p)
            else p == [] && a.kids[k] != b.kids[k]
  {
    var x, y := a.kids[k], b.kids[k];
    var q := [k] + p;
    assert q[1..] == p;
    assert Look(a, q) == Look(x, p) && Look(b, q) == Look(y, p);
    forall i | 0 < i <= |q| ensures Look(a, q[..i]) == Look(x, p[..i - 1]) && Look(b, q[..i]) == Look(y, p[..i - 1]) {
      assert q[..i][1..] == p[..i - 1];
    }
    if x.Branch? && y.Branch? {
      if Differs(a, b, q) {
        forall i | 0 <= i < |p| ensures Look(x, p[..i]) == Inner && Look(y, p[..i]) == Inner {
          assert Look(a, q[..i + 1]) == Inner && Look(b, q[..i + 1]) == Inner;
        }
      }
      if Differs(x, y, p) {
        forall i | 0 <= i < |q| ensures Look(a, q[..i]) == Inner && Look(b, q[..i]) == Inner {
          if i > 0 { assert Look(x, p[..i - 1]) == Inner && Look(y, p[..i - 1]) == Inner; }
        }
      }
    } else {
      assert |q| > 1 ==> q[..1] == [k] && p[..0] == [];
      if p == [] && x != y {
        forall i | 0 <= i < |q| ensures Look(a, q[..i]) == Inner && Look(b, q[..i]) == Inner {
          assert q[..i] == [];
        }
      }
    }
  }

  lemma DiffersMissing(a: Tree, b: Tree, k: string, p: Path)
    requires a.Branch? && b.Branch? && !(k in a.kids && k in b.kids)
    ensures Differs(a, b, [k] + p) <==> p == [] && (k in a.kids || k in b.kids)
  {
    var q := [k] + p;
    AtKey(a, k, []);
    AtKey(b, k, []);
    if p != [] {
      assert q[..1] == [k];
      assert !Differs(a, b, q);
    } else {
      assert q == [k];
      assert forall i :: 0 <= i < |q| ==> q[..i] == [];
    }
  }

  /** A tree where no path differs is the same tree. */
  lemma {:induction false} NoDifferenceIsEqual(a: Tree, b: Tree)
    requires a.Branch? && b.Branch?
    requires forall p :: !Differs(a, b, p)
    ensures a == b
    decreases a
  {
    forall k | k in a.kids || k in b.kids
      ensures k in a.kids && k in b.kids && a.kids[k] == b.kids[k]
    {
      assert [k] + [] == [k];
      if k in a.kids && k in b.kids {
        DiffersStep(a, b, k, []);
        if a.kids[k].Branch? && b.kids[k].Branch? {
          forall p ensures !Differs(a.kids[k], b.kids[k], p) {
            DiffersStep(a, b, k, p);
          }
          NoDifferenceIsEqual(a.kids[k], b.kids[k]);
        }
      } else {
        DiffersMissing(a, b, k, []);
      }
    }
    assert a.kids == b.kids;
  }

  /** The sequence lists each differing path once, and nothing else. */
  ghost predicate Lists(paths: seq<Path>, a: Tree, b: Tree) {
    && (forall p :: p in paths <==> Differs(a, b, p))
    && (forall i, j :: 0 <= i < j < |paths| ==> paths[i] != paths[j])
  }

  // ---------------------------------------------------------------- application

  /** Replaces what stands at p, if mappings lead there; the last key need not exist. */
  function SetPath(t: Tree, p: Path, v: Tree): Option<Tree> {
    if p == [] || t.Leaf? then None
    else if |p| == 1 then Some(Branch(t.kids[p[0] := v]))
    else if p[0] in t.kids then
      match SetPath(t.kids[p[0]], p[1..], v)
      case None => None
      case Some(kid) => Some(Branch(t.kids[p[0] := kid]))
    else None
  }

  /** Replacing a leaf by a leaf changes that path and no other. */
  lemma {:induction false} SetLeaf(t: Tree, p: Path, v: string, q: Path)
    requires p != [] && Look(t, p).Scalar?
    ensures SetPath(t, p, Leaf(v)).Some?
    ensures Look(SetPath(t, p, Leaf(v)).value, q) == if q == p then Scalar(v) else Look(t, q)
    decreases |p|
  {
    if |p| == 1 {
      assert p == [p[0]];
      if q != [] && q[0] == p[0] {
        assert q == [p[0]] + q[1..];
        AtKey(t, p[0], q[1..]);
        AtKey(SetPath(t, p, Leaf(v)).value, p[0], q[1..]);
      }
    } else {
      var rest := if q != [] then q[1..] else q;
      SetLeaf(t.kids[p[0]], p[1..], v, rest);
      if q != [] && q[0] == p[0] {
        assert q == [p[0]] + q[1..] && p == [p[0]] + p[1..];
      }
    }
  }

  /** Copies the listed hot paths of desired into t, in order; fails where a path is missing. */
  function ApplyHot(t: Tree, desired: Tree, paths: seq<Path>, classify: Path -> Class): Option<Tree> {
    if paths == [] then Some(t)
    else
      var last := paths[|paths| - 1];
      var before := ApplyHot(t, desired, paths[..|paths| - 1], classify);
      if before.None? || classify(last) != Hot then before
      else if last == [] || At(desired, last).None? then None
      else SetPath(before.value, last, At(desired, last).value)
  }

  /**
   * Documents decoded into the same record type: at every path that is not of restart class
   * they have the same shape. Optional parts of the record are all of restart class.
   */
  ghost predicate SameShape(a: Tree, b: Tree, classify: Path -> Class) {
    && a.Branch? && b.Branch?
    && (forall p :: classify(p) != Restart ==> (Look(a, p).Absent? <==> Look(b, p).Absent?))
    && (forall p :: classify(p) != Restart ==> (Look(a, p).Inner? <==> Look(b, p).Inner?))
  }

  /** A difference that is not of restart class is between two leaves. */
  lemma DifferenceIsScalar(a: Tree, b: Tree, classify: Path -> Class, p: Path)
    requires SameShape(a, b, classify) && Differs(a, b, p) && classify(p) != Restart
    ensures Look(a, p).Scalar? && Look(b, p).Scalar?
  {
    assert !Look(a, p).Absent? || !Look(b, p).Absent?;
    assert !Look(a, p).Inner? || !Look(b, p).Inner?;
  }

  /** Copying leaves over leaves changes exactly the listed hot paths, in whatever order. */
  lemma {:induction false} ApplyHotExact(t: Tree, desired: Tree, paths: seq<Path>, classify: Path -> Class)
    requires forall p :: p in paths && classify(p) == Hot ==> p != [] && Look(t, p).Scalar? && Look(desired, p).Scalar?
    ensures ApplyHot(t, desired, paths, classify).Some?
    ensures forall q :: Look(ApplyHot(t, desired, paths, classify).value, q)
                        == if q in paths && classify(q) == Hot then Look(desired, q) else Look(t, q)
  {
    if paths == [] {
    } else {
      var m, last := paths[..|paths| - 1], paths[|paths| - 1];
      assert paths == m + [last];
      ApplyHotExact(t, desired, m, classify);
      if classify(last) == Hot {
        var before := ApplyHot(t, desired, m, classify).value;
        var v := At(desired, last).value;
        assert At(desired, last).Some? && v == Leaf(v.value);
        assert Look(before, last).Scalar?;
        SetLeaf(before, last, v.value, last);
        forall q ensures Look(ApplyHot(t, desired, paths, classify).value, q)
                         == if q in paths && classify(q) == Hot then Look(desired, q) else Look(t, q)
        {
          SetLeaf(before, last, v.value, q);
        }
      }
    }
  }

  /** The order of the changes does not matter. */
  lemma ApplyOrderIrrelevant(t: Tree, desired: Tree, p: seq<Path>, q: seq<Path>, classify: Path -> Class)
    requires forall x :: x in p <==> x in q
    requires forall x :: x in p && classify(x) == Hot ==> x != [] && Look(t, x).Scalar? && Look(desired, x).Scalar?
    ensures ApplyHot(t, desired, p, classify) == ApplyHot(t, desired, q, classify)
  {
    ApplyHotExact(t, desired, p, classify);
    ApplyHotExact(t, desired, q, classify);
    TreesByLook(ApplyHot(t, desired, p, classify).value, ApplyHot(t, desired, q, classify).value);
  }

  // ---------------------------------------------------------------- keeping documents related

  /** All differences are of restart class. */
  ghost predicate RestartOnly(a: Tree, b: Tree, classify: Path -> Class) {
    forall p :: Differs(a, b, p) ==> classify(p) == Restart
  }

  /** Every path that is not hot holds the same in both. */
  ghost predicate HotOnly(a: Tree, b: Tree, classify: Path -> Class) {
    forall p :: classify(p) != Hot ==> Look(a, p) == Look(b, p)
  }

  /** Where two documents do not differ, and the shape is fixed, the same kind stands. */
  lemma UnlistedLooks(a: Tree, b: Tree, classify: Path -> Class, p: Path)
    requires SameShape(a, b, classify) && classify(p) != Restart && !Differs(a, b, p)
    ensures Look(a, p) == Look(b, p)
  {
    if Look(a, p) != Look(b, p) {
      assert Look(a, p).Scalar? && Look(b, p).Scalar?;
      forall i | 0 <= i < |p| ensures Look(a, p[..i]) == Inner && Look(b, p[..i]) == Inner {
        assert p == p[..i] + p[i..];
        BelowIsInner(a, p[..i], p[i..]);
        BelowIsInner(b, p[..i], p[i..]);
      }
      assert Differs(a, b, p);
    }
  }

  lemma RestartOnlyLooks(a: Tree, b: Tree, classify: Path -> Class, p: Path)
    requires SameShape(a, b, classify) && RestartOnly(a, b, classify)
    requires classify(p) != Restart
    ensures Look(a, p) == Look(b, p)
  {
    UnlistedLooks(a, b, classify, p);
  }

  /**
   * One load: effective is restart-only apart from base; the hot differences of base and
   * desired are copied into effective. The result is restart-only apart from desired, differs
   * from effective at hot paths only, and keeps the shape.
   */
  lemma HotStep(effective: Tree, base: Tree, desired: Tree, paths: seq<Path>, classify: Path -> Class)
    requires SameShape(effective, base, classify) && RestartOnly(effective, base, classify)
    requires SameShape(base, desired, classify) && Lists(paths, base, desired)
    requires forall p :: p in paths ==> classify(p) != Immutable
    ensures ApplyHot(effective, desired, paths, classify).Some?
    ensures var r := ApplyHot(effective, desired, paths, classify).value;
            SameShape(r, desired, classify) && RestartOnly(r, desired, classify) && HotOnly(effective, r, classify)
  {
    forall p | p in paths && classify(p) == Hot
      ensures p != [] && Look(effective, p).Scalar? && Look(desired, p).Scalar?
    {
      DifferenceIsScalar(base, desired, classify, p);
      RestartOnlyLooks(effective, base, classify, p);
    }
    ApplyHotExact(effective, desired, paths, classify);
    var r := ApplyHot(effective, desired, paths, classify).value;
    forall p | classify(p) != Restart ensures Look(r, p) == Look(desired, p) {
      if p !in paths {
        UnlistedLooks(base, desired, classify, p);
        RestartOnlyLooks(effective, base, classify, p);
      }
    }
    HotKeepsRoot(effective, desired, paths, classify);
  }

  lemma HotKeepsRoot(t: Tree, desired: Tree, paths: seq<Path>, classify: Path -> Class)
    requires t.Branch? && [] !in paths && ApplyHot(t, desired, paths, classify).Some?
    requires forall q :: Look(ApplyHot(t, desired, paths, classify).value, q)
                         == if q in paths && classify(q) == Hot then Look(desired, q) else Look(t, q)
    ensures ApplyHot(t, desired, paths, classify).value.Branch?
  {
    var r := ApplyHot(t, desired, paths, classify).value;
    assert Look(r, []) == Look(t, []);
  }
}
