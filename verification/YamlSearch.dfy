/** The memoised search for a removed setting in config/loader.go, over arbitrary
    YAML node graphs: aliases and merges may form cycles. */
module YamlSearch {
  import opened Options

  /** A node pointer; it is nil when the graph does not know it. */
  type Ref = nat

  /** `mergeTag` says that the tag of a scalar allows it to be a merge key. */
  datatype Node =
    | Scalar(value: string, mergeTag: bool)
    | Mapping(content: seq<Ref>)
    | Sequence(content: seq<Ref>)
    | Alias(target: Ref)
    | OtherNode

  type Graph = map<Ref, Node>

  // ------------------------------------------------------------------
  // Aliases
  // ------------------------------------------------------------------

  /** Following k aliases from n ends at the non-alias node x. */
  predicate Resolves(g: Graph, n: Ref, x: Ref, k: nat)
    decreases k
  {
    n in g && if k == 0 then n == x && !g[n].Alias? else g[n].Alias? && Resolves(g, g[n].target, x, k - 1)
  }

  ghost predicate ResolvesTo(g: Graph, n: Ref, x: Ref) { exists k: nat :: Resolves(g, n, x, k) }

  lemma ResolvesAtOnce(g: Graph, n: Ref, x: Ref)
    requires n in g && !g[n].Alias?
    ensures ResolvesTo(g, n, x) <==> x == n
  {
    var k: nat := 0;
    assert Resolves(g, n, n, k);
  }

  lemma ResolvesBehind(g: Graph, n: Ref, x: Ref)
    requires n in g && g[n].Alias?
    ensures ResolvesTo(g, n, x) <==> ResolvesTo(g, g[n].target, x)
  {
    if ResolvesTo(g, n, x) {
      var k: nat :| Resolves(g, n, x, k);
      assert Resolves(g, g[n].target, x, k - 1);
    }
    if ResolvesTo(g, g[n].target, x) {
      var k: nat :| Resolves(g, g[n].target, x, k);
      assert Resolves(g, n, x, k + 1);
    }
  }

  /** dereferenceYAMLAlias */
  function DerefFrom(g: Graph, n: Ref, seen: set<Ref>): (r: Option<Ref>)
    requires seen <= g.Keys
    ensures r.Some? ==> r.value in g && !g[r.value].Alias?
    decreases g.Keys - seen
  {
    if n !in g then None
    else if !g[n].Alias? then Some(n)
    else if n in seen then None
    else DerefFrom(g, g[n].target, seen + {n})
  }

  function Deref(g: Graph, n: Ref): (r: Option<Ref>)
    ensures r.Some? ==> r.value in g && !g[r.value].Alias?
  {
    DerefFrom(g, n, {})
  }

  method Dereference(g: Graph, n: Ref) returns (r: Option<Ref>)
    ensures r == Deref(g, n)
  {
    var node, seen: set<Ref> := n, {};
    while node in g && g[node].Alias?
      invariant seen <= g.Keys
      invariant DerefFrom(g, node, seen) == Deref(g, n)
      decreases g.Keys - seen
    {
      if node in seen {
        return None;
      }
      seen := seen + {node};
      node := g[node].target;
    }
    r := if node in g then Some(node) else None;
  }

  /** p aliases lead from n to m. */
  predicate Leads(g: Graph, n: Ref, m: Ref, p: nat)
    decreases p
  {
    if p == 0 then n == m else n in g && g[n].Alias? && Leads(g, g[n].target, m, p - 1)
  }

  ghost predicate LeadsOn(g: Graph, n: Ref, m: Ref) { exists p: nat :: p > 0 && Leads(g, n, m, p) }

  lemma {:induction false} LeadsSnoc(g: Graph, n: Ref, m: Ref, p: nat)
    requires Leads(g, n, m, p) && m in g && g[m].Alias?
    ensures Leads(g, n, g[m].target, p + 1)
    decreases p
  {
    if p > 0 {
      LeadsSnoc(g, g[n].target, m, p - 1);
    }
  }

  lemma {:induction false} ResolvesPast(g: Graph, n: Ref, m: Ref, p: nat, x: Ref, k: nat)
    requires Leads(g, n, m, p) && Resolves(g, n, x, k)
    ensures k >= p && Resolves(g, m, x, k - p)
    decreases p
  {
    if p > 0 {
      ResolvesPast(g, g[n].target, m, p - 1, x, k - 1);
    }
  }

  /** A node on an alias cycle resolves to nothing. */
  lemma {:induction false} CycleNeverResolves(g: Graph, n: Ref, p: nat, x: Ref, k: nat)
    requires Leads(g, n, n, p) && p > 0
    ensures !Resolves(g, n, x, k)
    decreases k
  {
    if Resolves(g, n, x, k) {
      ResolvesPast(g, n, n, p, x, k);
      CycleNeverResolves(g, n, p, x, k - p);
    }
  }

  /** The seen set cuts exactly the cycles: the loop finds what the alias chain
      resolves to, and nothing when it resolves to nothing. */
  lemma {:induction false} DerefFromCorrect(g: Graph, n: Ref, seen: set<Ref>, x: Ref)
    requires seen <= g.Keys
    requires forall s :: s in seen ==> LeadsOn(g, s, n)
    ensures DerefFrom(g, n, seen) == Some(x) <==> ResolvesTo(g, n, x)
    decreases g.Keys - seen
  {
    if n !in g {
    } else if !g[n].Alias? {
      ResolvesAtOnce(g, n, x);
    } else if n in seen {
      var p: nat :| p > 0 && Leads(g, n, n, p);
      forall k: nat ensures !Resolves(g, n, x, k) {
        CycleNeverResolves(g, n, p, x, k);
      }
    } else {
      var t := g[n].target;
      forall s | s in seen + {n} ensures LeadsOn(g, s, t) {
        if s == n {
          assert Leads(g, t, t, 0);
          assert Leads(g, n, t, 1);
        } else {
          var p: nat :| p > 0 && Leads(g, s, n, p);
          LeadsSnoc(g, s, n, p);
          assert Leads(g, s, t, p + 1);
        }
      }
      DerefFromCorrect(g, t, seen + {n}, x);
      ResolvesBehind(g, n, x);
    }
  }

  lemma DerefCorrect(g: Graph, n: Ref, x: Ref)
    ensures Deref(g, n) == Some(x) <==> ResolvesTo(g, n, x)
  {
    DerefFromCorrect(g, n, {}, x);
  }

  // ------------------------------------------------------------------
  // What it means to contain a path
  // ------------------------------------------------------------------

  /** A mapping (or a sequence of merges) together with the number of path
      segments still to be found below it. */
  datatype State = State(node: Ref, depth: nat)

  predicate ValidState(g: Graph, path: seq<string>, s: State) {
    1 <= s.depth <= |path| && s.node in g && (g[s.node].Mapping? || g[s.node].Sequence?)
  }

  function Head(path: seq<string>, s: State): string
    requires 1 <= s.depth <= |path|
  {
    path[|path| - s.depth]
  }

  /** i is the position of a key in a mapping's content. */
  predicate IsKeySlot(content: seq<Ref>, i: int) { 0 <= i && i + 1 < |content| && i % 2 == 0 }

  predicate KeyIs(g: Graph, r: Ref, key: string) {
    var k := Deref(g, r);
    k.Some? && g[k.value].Scalar? && g[k.value].value == key
  }

  /** isYAMLMergeKey: not dereferenced. */
  predicate IsMergeKey(g: Graph, r: Ref) { r in g && g[r].Scalar? && g[r].value == "<<" && g[r].mergeTag }

  /** The reference denotes a node of the given kind. */
  predicate Denotes(g: Graph, r: Ref, x: Ref, merge: bool) {
    Deref(g, r) == Some(x) && (g[x].Mapping? || (merge && g[x].Sequence?))
  }

  /** The last path segment is a key of this mapping. */
  ghost predicate Goal(g: Graph, path: seq<string>, s: State)
    requires ValidState(g, path, s)
  {
    && g[s.node].Mapping? && s.depth == 1
    && exists i :: IsKeySlot(g[s.node].content, i) && KeyIs(g, g[s.node].content[i], Head(path, s))
  }

  ghost predicate KeyEdge(g: Graph, path: seq<string>, s: State, t: State, i: int)
    requires ValidState(g, path, s) && g[s.node].Mapping?
  {
    && IsKeySlot(g[s.node].content, i) && KeyIs(g, g[s.node].content[i], Head(path, s))
    && s.depth > 1 && t.depth == s.depth - 1 && Denotes(g, g[s.node].content[i + 1], t.node, false)
  }

  ghost predicate MergeEdge(g: Graph, path: seq<string>, s: State, t: State, i: int)
    requires ValidState(g, path, s) && g[s.node].Mapping?
  {
    && IsKeySlot(g[s.node].content, i) && IsMergeKey(g, g[s.node].content[i])
    && t.depth == s.depth && Denotes(g, g[s.node].content[i + 1], t.node, true)
  }

  /** One step down: into the value of a matching key, into merged content, or into
      an element of a merge list. */
  ghost predicate Edge(g: Graph, path: seq<string>, s: State, t: State)
    requires ValidState(g, path, s)
  {
    if g[s.node].Mapping? then exists i :: KeyEdge(g, path, s, t, i) || MergeEdge(g, path, s, t, i)
    else t.depth == s.depth && exists i :: 0 <= i < |g[s.node].content| && Denotes(g, g[s.node].content[i], t.node, true)
  }

  /** A goal is at most k steps away. */
  ghost predicate Reaches(g: Graph, path: seq<string>, s: State, k: nat)
    decreases k
  {
    && ValidState(g, path, s)
    && (Goal(g, path, s) || (k > 0 && exists t :: Edge(g, path, s, t) && Reaches(g, path, t, k - 1)))
  }

  ghost predicate Reachable(g: Graph, path: seq<string>, s: State) { exists k: nat :: Reaches(g, path, s, k) }

  /** Plain reachability, with no regard to visiting order, memo or cycles. */
  ghost predicate Contains(g: Graph, root: Ref, path: seq<string>) {
    exists x :: Denotes(g, root, x, false) && Reachable(g, path, State(x, |path|))
  }

  // ------------------------------------------------------------------
  // A closed set of failures
  // ------------------------------------------------------------------

  ghost predicate ClosedAt(g: Graph, path: seq<string>, s: State, visited: set<State>) {
    ValidState(g, path, s) && !Goal(g, path, s) && forall t :: Edge(g, path, s, t) ==> t in visited
  }

  /** Every completed state is a failure all of whose successors were visited. A
      memo entry may be wrong for its node alone, but never for the whole set. */
  ghost predicate Closed(g: Graph, path: seq<string>, completed: map<State, bool>, active: set<State>) {
    forall s :: s in completed ==> !completed[s] && ClosedAt(g, path, s, active + completed.Keys)
  }

  lemma {:induction false} ClosedNeverReaches(g: Graph, path: seq<string>, completed: map<State, bool>, s: State, k: nat)
    requires Closed(g, path, completed, {}) && s in completed
    ensures !Reaches(g, path, s, k)
    decreases k
  {
    assert ClosedAt(g, path, s, {} + completed.Keys);
    if k > 0 {
      forall t | Edge(g, path, s, t) ensures !Reaches(g, path, t, k - 1) {
        ClosedNeverReaches(g, path, completed, t, k - 1);
      }
    }
  }

  // ------------------------------------------------------------------
  // The search
  // ------------------------------------------------------------------

  /** yamlMappingContainsPathMemo and yamlMergeContainsPath with their two maps. */
  class Searcher {
    const g: Graph
    const path: seq<string>
    var active: set<State>
    var completed: map<State, bool>

    constructor (g: Graph, path: seq<string>)
      ensures this.g == g && this.path == path && active == {} && completed == map[]
    {
      this.g, this.path, active, completed := g, path, {}, map[];
    }

    ghost function Universe(): set<State> {
      set n: Ref, d: nat {:trigger State(n, d)} | n in g && 1 <= d <= |path| :: State(n, d)
    }

    /** No call found the path so far. */
    ghost predicate Searching()
      reads this
    {
      active <= Universe() && Closed(g, path, completed, active)
    }

    /** A failed visit only adds failures and leaves the active set as it was. */
    twostate predicate Failed()
      reads this
    {
      Searching() && active == old(active) && old(completed).Keys <= completed.Keys
    }

    ghost predicate Visited(s: State)
      reads this
    {
      s in active || s in completed
    }

    /** The reference, when it denotes a mapping (or merge list), was visited. */
    ghost predicate RefVisited(r: Ref, depth: nat, merge: bool)
      reads this
    {
      forall x :: Denotes(g, r, x, merge) ==> Visited(State(x, depth))
    }

    /** Both entry points: `merge` also accepts sequences. */
    method Search(r: Ref, depth: nat, merge: bool) returns (found: bool)
      requires Searching() && 1 <= depth <= |path|
      modifies this
      ensures found ==> exists x :: Denotes(g, r, x, merge) && Reachable(g, path, State(x, depth))
      ensures !found ==> Failed() && RefVisited(r, depth, merge)
      decreases Universe() - active, 2
    {
      var node := Dereference(g, r);
      if node.None? || !(g[node.value].Mapping? || (merge && g[node.value].Sequence?)) {
        return false;
      }
      var s := State(node.value, depth);
      assert Denotes(g, r, s.node, merge);
      if s in completed {
        return completed[s];
      }
      if s in active {
        return false;
      }
      found := Visit(s);
    }

    /** A state seen for the first time. */
    method Visit(s: State) returns (found: bool)
      requires Searching() && ValidState(g, path, s) && s !in active && s !in completed
      modifies this
      ensures found ==> Reachable(g, path, s)
      ensures !found ==> Failed() && s in completed
      decreases Universe() - active, 1
    {
      active := active + {s};
      EnterKeepsClosed(g, path, completed, old(active), s);
      assert s in Universe();
      if g[s.node].Mapping? {
        found := Keys(s);
        if !found {
          found := Merges(s);
        }
      } else {
        found := Elements(s);
      }
      active := active - {s};
      if !found {
        LeaveKeepsClosed(g, path, completed, old(active), s);
      }
      completed := completed[s := found];
    }

    lemma FoundBelow(s: State, t: State)
      requires ValidState(g, path, s) && Edge(g, path, s, t) && Reachable(g, path, t)
      ensures Reachable(g, path, s)
    {
      var k: nat :| Reaches(g, path, t, k);
      assert Reaches(g, path, s, k + 1);
    }

    /** The first loop: matching keys. */
    method Keys(s: State) returns (found: bool)
      requires Searching() && ValidState(g, path, s) && g[s.node].Mapping? && s in active
      modifies this
      ensures found ==> Reachable(g, path, s)
      ensures !found ==> Failed() && !Goal(g, path, s)
      ensures !found ==> forall t, i :: KeyEdge(g, path, s, t, i) ==> Visited(t)
      decreases Universe() - active, 3
    {
      var content, key := g[s.node].content, Head(path, s);
      var i := 0;
      while i + 1 < |content|
        invariant 0 <= i && i % 2 == 0
        invariant Failed()
        invariant forall j :: IsKeySlot(content, j) && j < i && KeyIs(g, content[j], key) ==>
                    s.depth > 1 && RefVisited(content[j + 1], s.depth - 1, false)
      {
        var k := Dereference(g, content[i]);
        if k.Some? && g[k.value].Scalar? && g[k.value].value == key {
          assert IsKeySlot(content, i) && KeyIs(g, content[i], key);
          if s.depth == 1 {
            assert Goal(g, path, s);
            assert Reaches(g, path, s, 0);
            return true;
          }
          var below := Search(content[i + 1], s.depth - 1, false);
          if below {
            ghost var x :| Denotes(g, content[i + 1], x, false) && Reachable(g, path, State(x, s.depth - 1));
            assert KeyEdge(g, path, s, State(x, s.depth - 1), i);
            FoundBelow(s, State(x, s.depth - 1));
            return true;
          }
        }
        i := i + 2;
      }
      return false;
    }

    /** The second loop: merge keys. */
    method Merges(s: State) returns (found: bool)
      requires Searching() && ValidState(g, path, s) && g[s.node].Mapping? && s in active
      modifies this
      ensures found ==> Reachable(g, path, s)
      ensures !found ==> Failed()
      ensures !found ==> forall t, i :: MergeEdge(g, path, s, t, i) ==> Visited(t)
      decreases Universe() - active, 3
    {
      var content := g[s.node].content;
      var i := 0;
      while i + 1 < |content|
        invariant 0 <= i && i % 2 == 0
        invariant Failed()
        invariant forall j :: IsKeySlot(content, j) && j < i && IsMergeKey(g, content[j]) ==>
                    RefVisited(content[j + 1], s.depth, true)
      {
        if IsMergeKey(g, content[i]) {
          assert IsKeySlot(content, i);
          var below := Search(content[i + 1], s.depth, true);
          if below {
            ghost var x :| Denotes(g, content[i + 1], x, true) && Reachable(g, path, State(x, s.depth));
            assert MergeEdge(g, path, s, State(x, s.depth), i);
            FoundBelow(s, State(x, s.depth));
            return true;
          }
        }
        i := i + 2;
      }
      return false;
    }

    /** The loop over a merge list. */
    method Elements(s: State) returns (found: bool)
      requires Searching() && ValidState(g, path, s) && g[s.node].Sequence? && s in active
      modifies this
      ensures found ==> Reachable(g, path, s)
      ensures !found ==> Failed()
      ensures !found ==> forall t :: Edge(g, path, s, t) ==> Visited(t)
      decreases Universe() - active, 3
    {
      var content := g[s.node].content;
      var i := 0;
      while i < |content|
        invariant 0 <= i <= |content|
        invariant Failed()
        invariant forall j :: 0 <= j < i ==> RefVisited(content[j], s.depth, true)
      {
        var below := Search(content[i], s.depth, true);
        if below {
          ghost var x :| Denotes(g, content[i], x, true) && Reachable(g, path, State(x, s.depth));
          FoundBelow(s, State(x, s.depth));
          return true;
        }
        i := i + 1;
      }
      return false;
    }
  }

  lemma EnterKeepsClosed(g: Graph, path: seq<string>, completed: map<State, bool>, active: set<State>, s: State)
    requires Closed(g, path, completed, active)
    ensures Closed(g, path, completed, active + {s})
  {
    forall t | t in completed ensures ClosedAt(g, path, t, active + {s} + completed.Keys) {
      assert ClosedAt(g, path, t, active + completed.Keys);
    }
  }

  /** A state leaves the active set as a recorded failure once its successors are visited. */
  lemma LeaveKeepsClosed(g: Graph, path: seq<string>, completed: map<State, bool>, active: set<State>, s: State)
    requires Closed(g, path, completed, active + {s})
    requires ValidState(g, path, s) && !Goal(g, path, s)
    requires forall t :: Edge(g, path, s, t) ==> t in active + {s} || t in completed
    ensures Closed(g, path, completed[s := false], active)
  {
    var done := completed[s := false];
    forall t | t in done ensures ClosedAt(g, path, t, active + done.Keys) {
      assert t != s ==> ClosedAt(g, path, t, active + {s} + completed.Keys);
    }
  }

  /** yamlMappingContainsPath: on any graph, cyclic or not, the memoised search ends
      and answers plain reachability. */
  method MappingContainsPath(g: Graph, root: Ref, path: seq<string>) returns (found: bool)
    ensures found <==> path != [] && Contains(g, root, path)
  {
    if path == [] {
      return false;
    }
    var searcher := new Searcher(g, path);
    found := searcher.Search(root, |path|, false);
    if !found {
      forall x | Denotes(g, root, x, false) ensures !Reachable(g, path, State(x, |path|)) {
        forall k: nat ensures !Reaches(g, path, State(x, |path|), k) {
          ClosedNeverReaches(g, path, searcher.completed, State(x, |path|), k);
        }
      }
    }
  }
}
