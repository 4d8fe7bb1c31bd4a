/**
 * Subscriber accounting of a stream (core/stream.go): counts per protocol, counts per
 * publisher generation and protocol, and one atomic total.
 *
 * The two-level map from generation to protocol is modelled as one map keyed by the pair. A
 * lease is a release closure that runs at most once; a loose subscriber is one added and
 * removed by protocol name alone.
 */
module SubscriberLeases {
  import opened MapSums

  datatype Lease = Lease(protocol: string, generation: nat)

  datatype Book = Book(total: int, byProtocol: map<string, nat>, byLease: map<Lease, nat>)

  const EMPTY_BOOK := Book(0, map[], map[])

  // ---------------------------------------------------------------- counts

  function Count<K>(m: map<K, nat>, k: K): nat { if k in m then m[k] else 0 }

  function Increment<K>(m: map<K, nat>, k: K): map<K, nat> { m[k := Count(m, k) + 1] }

  /** Entries that reach zero are deleted. */
  function Decrement<K>(m: map<K, nat>, k: K): map<K, nat> {
    if Count(m, k) <= 1 then m - {k} else m[k := m[k] - 1]
  }

  ghost predicate Positive<K(!new)>(m: map<K, nat>) { forall k :: k in m ==> m[k] > 0 }

  lemma IncrementDecrement<K>(m: map<K, nat>, k: K)
    requires k in m ==> m[k] > 0
    ensures Decrement(Increment(m, k), k) == m
  {
    if k !in m {
      assert m[k := 1] - {k} == m;
    } else {
      assert m[k := m[k] + 1][k := m[k]] == m;
    }
  }

  // ---------------------------------------------------------------- operations

  /** The limit applies when it is positive. */
  predicate Full(b: Book, max: int) { max > 0 && b.total >= max }

  function Add(b: Book, protocol: string): Book {
    b.(total := b.total + 1, byProtocol := Increment(b.byProtocol, protocol))
  }

  function Remove(b: Book, protocol: string): Book {
    if Count(b.byProtocol, protocol) > 0
    then b.(total := b.total - 1, byProtocol := Decrement(b.byProtocol, protocol))
    else b.(byProtocol := b.byProtocol - {protocol})
  }

  function Acquire(b: Book, l: Lease): Book {
    Add(b, l.protocol).(byLease := Increment(b.byLease, l))
  }

  function Release(b: Book, l: Lease): Book {
    if Count(b.byLease, l) == 0 then b
    else
      var c := b.(byLease := Decrement(b.byLease, l));
      if Count(b.byProtocol, l.protocol) > 0
      then c.(total := b.total - 1, byProtocol := Decrement(b.byProtocol, l.protocol))
      else c
  }

  /** Giving back what was just taken restores the book exactly. */
  lemma ReleaseUndoesAcquire(b: Book, l: Lease)
    requires Positive(b.byProtocol) && Positive(b.byLease)
    ensures Release(Acquire(b, l), l) == b
  {
    IncrementDecrement(b.byProtocol, l.protocol);
    IncrementDecrement(b.byLease, l);
  }

  // ---------------------------------------------------------------- claims

  /** Who is really there: outstanding leases by identity, and loose subscribers. */
  datatype Claims = Claims(leases: map<nat, Lease>, loose: multiset<string>, next: nat)

  const NO_CLAIMS := Claims(map[], multiset{}, 0)

  ghost function Total(m: map<string, nat>): nat { Sum<string, nat>(m, (n: nat) => n) }

  ghost function Held(leases: map<nat, Lease>, l: Lease): nat {
    Sum(leases, (x: Lease) => if x == l then 1 else 0)
  }

  ghost function Users(leases: map<nat, Lease>, protocol: string): nat {
    Sum(leases, (x: Lease) => if x.protocol == protocol then 1 else 0)
  }

  /** Each generation's count is its outstanding leases. */
  ghost predicate LeasesOk(byLease: map<Lease, nat>, leases: map<nat, Lease>) {
    Positive(byLease) && forall l :: Count(byLease, l) == Held(leases, l)
  }

  ghost predicate TotalOk(b: Book) { Positive(b.byProtocol) && b.total == Total(b.byProtocol) }

  ghost predicate Inv(b: Book, c: Claims) {
    && TotalOk(b) && LeasesOk(b.byLease, c.leases)
    && (forall k :: k in c.leases ==> k < c.next)
  }

  /** Every protocol count is the number of its subscribers who are there. */
  ghost predicate Exact(b: Book, c: Claims) {
    forall p :: Count(b.byProtocol, p) == Users(c.leases, p) + c.loose[p]
  }

  datatype Step =
    | AddLoose(protocol: string, max: int)
    | RemoveLoose(protocol: string)
    | Take(lease: Lease, active: bool, max: int)
    | Give(id: nat)

  /** Giving a lease twice, or one that never was, is stopped by the closure's once guard. */
  function Apply(b: Book, c: Claims, step: Step): (Book, Claims) {
    match step
    case AddLoose(p, max) => if Full(b, max) then (b, c) else (Add(b, p), c.(loose := c.loose + multiset{p}))
    case RemoveLoose(p) => (Remove(b, p), c.(loose := c.loose - multiset{p}))
    case Take(l, active, max) =>
      if !active || Full(b, max) then (b, c)
      else (Acquire(b, l), c.(leases := c.leases[c.next := l], next := c.next + 1))
    case Give(id) =>
      if id !in c.leases then (b, c) else (Release(b, c.leases[id]), c.(leases := c.leases - {id}))
  }

  lemma TotalIncrement(m: map<string, nat>, k: string)
    ensures Total(Increment(m, k)) == Total(m) + 1
  {
    SumUpdate<string, nat>(m, (n: nat) => n, k, Count(m, k) + 1);
  }

  lemma TotalDecrement(m: map<string, nat>, k: string)
    requires k in m && m[k] > 0
    ensures Total(Decrement(m, k)) == Total(m) - 1
  {
    if m[k] == 1 {
      SumRemove<string, nat>(m, (n: nat) => n, k);
    } else {
      SumUpdate<string, nat>(m, (n: nat) => n, k, m[k] - 1);
    }
  }

  lemma HeldTake(leases: map<nat, Lease>, id: nat, l: Lease, x: Lease)
    requires id !in leases
    ensures Held(leases[id := l], x) == Held(leases, x) + if x == l then 1 else 0
  {
    SumUpdate(leases, (y: Lease) => if y == x then 1 else 0, id, l);
  }

  lemma HeldGive(leases: map<nat, Lease>, id: nat, x: Lease)
    requires id in leases
    ensures Held(leases - {id}, x) == Held(leases, x) - if x == leases[id] then 1 else 0
  {
    SumRemove(leases, (y: Lease) => if y == x then 1 else 0, id);
  }

  lemma UsersTake(leases: map<nat, Lease>, id: nat, l: Lease, p: string)
    requires id !in leases
    ensures Users(leases[id := l], p) == Users(leases, p) + if p == l.protocol then 1 else 0
  {
    SumUpdate(leases, (y: Lease) => if y.protocol == p then 1 else 0, id, l);
  }

  lemma UsersGive(leases: map<nat, Lease>, id: nat, p: string)
    requires id in leases
    ensures Users(leases - {id}, p) == Users(leases, p) - if p == leases[id].protocol then 1 else 0
  {
    SumRemove(leases, (y: Lease) => if y.protocol == p then 1 else 0, id);
  }

  lemma LeasesTake(byLease: map<Lease, nat>, leases: map<nat, Lease>, id: nat, l: Lease)
    requires LeasesOk(byLease, leases) && id !in leases
    ensures LeasesOk(Increment(byLease, l), leases[id := l])
  {
    forall x ensures Count(Increment(byLease, l), x) == Held(leases[id := l], x) {
      HeldTake(leases, id, l, x);
    }
  }

  lemma LeasesGive(byLease: map<Lease, nat>, leases: map<nat, Lease>, id: nat)
    requires LeasesOk(byLease, leases) && id in leases
    ensures Count(byLease, leases[id]) > 0
    ensures LeasesOk(Decrement(byLease, leases[id]), leases - {id})
  {
    HeldGive(leases, id, leases[id]);
    assert Count(byLease, leases[id]) == Held(leases, leases[id]);
    forall x ensures Count(Decrement(byLease, leases[id]), x) == Held(leases - {id}, x) {
      HeldGive(leases, id, x);
      assert Count(byLease, x) == Held(leases, x);
    }
  }

  lemma StepInv(b: Book, c: Claims, step: Step)
    requires Inv(b, c)
    ensures var r := Apply(b, c, step); Inv(r.0, r.1)
  {
    match step
    case AddLoose(p, max) => TotalIncrement(b.byProtocol, p);
    case RemoveLoose(p) => RemoveTotal(b, p);
    case Take(l, active, max) =>
      TotalIncrement(b.byProtocol, l.protocol);
      LeasesTake(b.byLease, c.leases, c.next, l);
    case Give(id) =>
      if id in c.leases {
        LeasesGive(b.byLease, c.leases, id);
        RemoveTotal(b, c.leases[id].protocol);
      }
  }

  lemma RemoveTotal(b: Book, p: string)
    requires TotalOk(b)
    ensures TotalOk(Remove(b, p))
  {
    if Count(b.byProtocol, p) > 0 { TotalDecrement(b.byProtocol, p); } else { assert b.byProtocol - {p} == b.byProtocol; }
  }

  /** Removing by name takes somebody else's place exactly when no loose subscriber is left. */
  predicate Overdraws(b: Book, c: Claims, step: Step) {
    step.RemoveLoose? && c.loose[step.protocol] == 0 && Count(b.byProtocol, step.protocol) > 0
  }

  lemma ExactTake(b: Book, c: Claims, l: Lease, next: Claims)
    requires Exact(b, c) && c.next !in c.leases
    requires next.leases == c.leases[c.next := l] && next.loose == c.loose
    ensures Exact(Acquire(b, l), next)
  {
    forall p ensures Count(Acquire(b, l).byProtocol, p) == Users(next.leases, p) + next.loose[p] {
      UsersTake(c.leases, c.next, l, p);
      assert Count(b.byProtocol, p) == Users(c.leases, p) + c.loose[p];
    }
  }

  lemma ExactGive(b: Book, c: Claims, id: nat, next: Claims)
    requires Exact(b, c) && LeasesOk(b.byLease, c.leases) && id in c.leases
    requires next.leases == c.leases - {id} && next.loose == c.loose
    ensures Exact(Release(b, c.leases[id]), next)
  {
    var l := c.leases[id];
    LeasesGive(b.byLease, c.leases, id);
    UsersGive(c.leases, id, l.protocol);
    assert Count(b.byProtocol, l.protocol) == Users(c.leases, l.protocol) + c.loose[l.protocol];
    forall p ensures Count(Release(b, l).byProtocol, p) == Users(next.leases, p) + next.loose[p] {
      UsersGive(c.leases, id, p);
      assert Count(b.byProtocol, p) == Users(c.leases, p) + c.loose[p];
    }
  }

  lemma RemoveCount(b: Book, p: string, q: string)
    ensures Count(Remove(b, p).byProtocol, q) ==
            if q == p && Count(b.byProtocol, p) > 0 then Count(b.byProtocol, p) - 1 else Count(b.byProtocol, q)
  {
  }

  lemma ExactRemove(b: Book, c: Claims, p: string, next: Claims)
    requires Exact(b, c)
    requires next.leases == c.leases && next.loose == c.loose - multiset{p}
    ensures Exact(Remove(b, p), next) <==> !(c.loose[p] == 0 && Count(b.byProtocol, p) > 0)
  {
    var r := Remove(b, p);
    RemoveCount(b, p, p);
    if c.loose[p] == 0 && Count(b.byProtocol, p) > 0 {
      assert Count(r.byProtocol, p) != Users(next.leases, p) + next.loose[p];
    } else {
      forall q ensures Count(r.byProtocol, q) == Users(next.leases, q) + next.loose[q] {
        RemoveCount(b, p, q);
        assert Count(b.byProtocol, q) == Users(c.leases, q) + c.loose[q];
      }
    }
  }

  /** A step keeps the counts exact if and only if it does not overdraw. */
  lemma ExactIff(b: Book, c: Claims, step: Step)
    requires Inv(b, c) && Exact(b, c)
    ensures var r := Apply(b, c, step); Exact(r.0, r.1) <==> !Overdraws(b, c, step)
  {
    var r := Apply(b, c, step);
    match step
    case AddLoose(p, max) =>
      if !Full(b, max) {
        forall q ensures Count(r.0.byProtocol, q) == Users(r.1.leases, q) + r.1.loose[q] {
          assert Count(b.byProtocol, q) == Users(c.leases, q) + c.loose[q];
        }
      }
    case RemoveLoose(p) => ExactRemove(b, c, p, r.1);
    case Take(l, active, max) => if active && !Full(b, max) { ExactTake(b, c, l, r.1); }
    case Give(id) => if id in c.leases { ExactGive(b, c, id, r.1); }
  }

  function Run(b: Book, c: Claims, steps: seq<Step>): (Book, Claims) {
    if steps == [] then (b, c)
    else
      var r := Run(b, c, steps[..|steps| - 1]);
      Apply(r.0, r.1, steps[|steps| - 1])
  }

  ghost predicate NeverOverdraws(b: Book, c: Claims, steps: seq<Step>) {
    forall i :: 0 <= i < |steps| ==> var r := Run(b, c, steps[..i]); !Overdraws(r.0, r.1, steps[i])
  }

  /**
   * Over every run: the total is the sum of the protocol counts, and each generation's count is
   * its outstanding leases. The protocol counts are exact as long as nobody overdraws.
   */
  lemma {:induction false} SubscribersAreConserved(b: Book, c: Claims, steps: seq<Step>)
    requires Inv(b, c)
    ensures var r := Run(b, c, steps);
            && Inv(r.0, r.1)
            && (Exact(b, c) && NeverOverdraws(b, c, steps) ==> Exact(r.0, r.1))
  {
    if steps != [] {
      var m := steps[..|steps| - 1];
      SubscribersAreConserved(b, c, m);
      var r := Run(b, c, m);
      StepInv(r.0, r.1, steps[|steps| - 1]);
      if Exact(b, c) && NeverOverdraws(b, c, steps) {
        forall i | 0 <= i < |m| ensures var q := Run(b, c, m[..i]); !Overdraws(q.0, q.1, m[i]) {
          assert m[..i] == steps[..i];
        }
        assert m == steps[..|m|];
        ExactIff(r.0, r.1, steps[|steps| - 1]);
      }
    }
  }

  /** The step takes or gives back a lease of this generation. */
  predicate Concerns(c: Claims, step: Step, generation: nat) {
    || (step.Take? && step.lease.generation == generation)
    || (step.Give? && step.id in c.leases && c.leases[step.id].generation == generation)
  }

  ghost predicate Spares(b: Book, c: Claims, steps: seq<Step>, generation: nat) {
    forall i :: 0 <= i < |steps| ==> !Concerns(Run(b, c, steps[..i]).1, steps[i], generation)
  }

  /** Whatever subscribers of other generations do, stale releases included, a generation's
      counts stay as they are, and stay its outstanding leases. */
  lemma {:induction false} StaleReleaseIsHarmless(b: Book, c: Claims, steps: seq<Step>, l: Lease)
    requires Inv(b, c) && Spares(b, c, steps, l.generation)
    ensures var r := Run(b, c, steps);
            Count(r.0.byLease, l) == Count(b.byLease, l) == Held(r.1.leases, l) == Held(c.leases, l)
  {
    SubscribersAreConserved(b, c, steps);
    if steps != [] {
      var m := steps[..|steps| - 1];
      forall i | 0 <= i < |m| ensures !Concerns(Run(b, c, m[..i]).1, m[i], l.generation) {
        assert m[..i] == steps[..i];
      }
      StaleReleaseIsHarmless(b, c, m, l);
      var r := Run(b, c, m);
      assert !Concerns(r.1, steps[|m|], l.generation);
      StepSpares(r.0, r.1, steps[|m|], l);
    }
  }

  lemma StepSpares(b: Book, c: Claims, step: Step, l: Lease)
    requires !Concerns(c, step, l.generation)
    ensures Count(Apply(b, c, step).0.byLease, l) == Count(b.byLease, l)
  {
  }

  lemma StartIsExact(b: Book, c: Claims)
    requires b.total == 0 && b.byProtocol == map[] && b.byLease == map[]
    requires c.leases == map[] && c.loose == multiset{}
    ensures Inv(b, c) && Exact(b, c)
  {
    SumEmpty<string, nat>(b.byProtocol, (n: nat) => n);
    forall l: Lease ensures Held(c.leases, l) == 0 {
      SumEmpty(c.leases, (x: Lease) => if x == l then 1 else 0);
    }
    forall p: string ensures Users(c.leases, p) == 0 {
      SumEmpty(c.leases, (x: Lease) => if x.protocol == p then 1 else 0);
    }
  }

  /**
   * The promise fails: from an empty book, a lease is taken and a subscriber of the same
   * protocol is removed by name. The lease is still out, yet nobody is counted.
   */
  lemma OverdrawnCountIsTooSmall(b: Book, c: Claims, l: Lease, max: int)
    requires b.total == 0 && b.byProtocol == map[] && b.byLease == map[]
    requires c.leases == map[] && c.loose == multiset{}
    ensures var r := Run(b, c, [Take(l, true, max), RemoveLoose(l.protocol)]);
            && Users(r.1.leases, l.protocol) == 1 && Held(r.1.leases, l) == 1
            && r.0.total == 0 && Count(r.0.byProtocol, l.protocol) == 0 && !Exact(r.0, r.1)
  {
    var steps := [Take(l, true, max), RemoveLoose(l.protocol)];
    assert steps[..1] == [Take(l, true, max)] && steps[..1][..0] == [];
    var t := Apply(b, c, Take(l, true, max));
    assert Run(b, c, steps[..1]) == t;
    UsersTake(c.leases, c.next, l, l.protocol);
    HeldTake(c.leases, c.next, l, l);
    SumEmpty(c.leases, (x: Lease) => if x == l then 1 else 0);
    SumEmpty(c.leases, (x: Lease) => if x.protocol == l.protocol then 1 else 0);
  }

  // ---------------------------------------------------------------- the stream's methods

  class Subscribers {
    var total: int
    var byProtocol: map<string, nat>
    var byLease: map<Lease, nat>
    ghost var claims: Claims

    ghost function View(): Book
      reads this
    {
      Book(total, byProtocol, byLease)
    }

    ghost predicate Valid()
      reads this
    {
      Inv(View(), claims)
    }

    constructor ()
      ensures Valid() && View() == EMPTY_BOOK && claims == NO_CLAIMS && Exact(View(), claims)
    {
      total, byProtocol, byLease, claims := 0, map[], map[], NO_CLAIMS;
      new;
      StartIsExact(View(), claims);
    }

    method AddLocked(protocol: string, max: int) returns (ok: bool)
      modifies this`total, this`byProtocol
      ensures ok <==> !Full(old(View()), max)
      ensures View() == if ok then Add(old(View()), protocol) else old(View())
    {
      if max > 0 {
        if total >= max {
          return false;
        }
      }
      byProtocol := byProtocol[protocol := (if protocol in byProtocol then byProtocol[protocol] else 0) + 1];
      total := total + 1;
      return true;
    }

    method AddSubscriber(protocol: string, max: int) returns (ok: bool)
      requires Valid()
      modifies this
      ensures Valid() && (ok <==> !Full(old(View()), max))
      ensures (View(), claims) == Apply(old(View()), old(claims), AddLoose(protocol, max))
    {
      StepInv(View(), claims, AddLoose(protocol, max));
      ok := AddLocked(protocol, max);
      if ok {
        claims := claims.(loose := claims.loose + multiset{protocol});
      }
    }

    /** Admission for one publisher generation; the identity of the lease is ghost. */
    method AddForGeneration(protocol: string, generation: nat, active: bool, max: int) returns (ok: bool, ghost id: nat)
      requires Valid()
      modifies this
      ensures Valid() && (ok <==> active && !Full(old(View()), max))
      ensures (View(), claims) == Apply(old(View()), old(claims), Take(Lease(protocol, generation), active, max))
      ensures id == old(claims).next
    {
      ghost var step := Take(Lease(protocol, generation), active, max);
      StepInv(View(), claims, step);
      id := claims.next;
      if !active {
        return false, id;
      }
      ok := AddLocked(protocol, max);
      if !ok {
        return;
      }
      var l := Lease(protocol, generation);
      byLease := byLease[l := (if l in byLease then byLease[l] else 0) + 1];
      claims := claims.(leases := claims.leases[id := l], next := id + 1);
    }

    /** The body of a lease's release closure. */
    method RemoveForGeneration(protocol: string, generation: nat, ghost id: nat)
      requires Valid() && id in claims.leases && claims.leases[id] == Lease(protocol, generation)
      modifies this
      ensures Valid()
      ensures (View(), claims) == Apply(old(View()), old(claims), Give(id))
    {
      StepInv(View(), claims, Give(id));
      var l := Lease(protocol, generation);
      claims := claims.(leases := claims.leases - {id});
      if l !in byLease || byLease[l] == 0 {
        return;
      }
      byLease := if byLease[l] == 1 then byLease - {l} else byLease[l := byLease[l] - 1];
      if protocol in byProtocol && byProtocol[protocol] > 0 {
        total := total - 1;
        byProtocol := if byProtocol[protocol] == 1 then byProtocol - {protocol}
                      else byProtocol[protocol := byProtocol[protocol] - 1];
      }
    }

    method RemoveSubscriber(protocol: string)
      requires Valid()
      modifies this
      ensures Valid()
      ensures (View(), claims) == Apply(old(View()), old(claims), RemoveLoose(protocol))
    {
      StepInv(View(), claims, RemoveLoose(protocol));
      ghost var was := byProtocol;
      claims := claims.(loose := claims.loose - multiset{protocol});
      if protocol in byProtocol && byProtocol[protocol] > 0 {
        byProtocol := byProtocol[protocol := byProtocol[protocol] - 1];
        total := total - 1;
      }
      if protocol !in byProtocol || byProtocol[protocol] == 0 {
        byProtocol := byProtocol - {protocol};
        assert byProtocol == was - {protocol};
      }
    }
  }
}
