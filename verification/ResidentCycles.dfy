/**
  Residents in dependency cycles. A cycle through residents of two owners can be unloaded by
  no thread, directly or by cascade; where there is none, some cascade always goes through.
 */
module ResidentCycles {
  import opened DependencyGraph
  import opened CascadeUnload

  /** A walk along dependents that comes back. */
  ghost predicate Ring(g: Registry, w: seq<Bundle>) { Chain(g, w) && |w| > 1 && w[0] == w[|w| - 1] }

  ghost predicate TwoOwners(g: Tables, w: seq<Bundle>) {
    exists x, y :: x in w && y in w && x in g.residents && y in g.residents && g.residents[x] != g.residents[y]
  }

  /** A dependency cycle passes through residents of two different owners. */
  ghost predicate Entangled(g: Tables) { exists w :: Ring(g.registry, w) && TwoOwners(g, w) }

  // ------------------------------------------------------- rings stay

  /** On a ring every bundle is loaded and in use. */
  lemma RingInUse(g: Tables, w: seq<Bundle>, x: Bundle)
    requires Ring(g.registry, w) && x in w
    ensures g.registry.Loaded(x) && g.InUse(x)
  {
    var i :| 0 <= i < |w| && w[i] == x;
    var k := if i == |w| - 1 then 0 else i;
    assert w[k + 1] in g.registry.Dependents(x);
    assert g.registry.Loaded(w[k + 1]) by {
      var m := if k + 1 == |w| - 1 then 0 else k + 1;
      assert w[m + 1] in g.registry.Dependents(w[m]);
    }
  }

  /** Each bundle of a ring reaches each other. */
  lemma RingReaches(g: Registry, w: seq<Bundle>, x: Bundle, y: Bundle)
    requires Ring(g, w) && x in w && y in w
    ensures Reaches(g, x, y)
  {
    var i :| 0 <= i < |w| && w[i] == x;
    var j :| 0 <= j < |w| && w[j] == y;
    SliceReaches(g, w, i, |w| - 1);
    SliceReaches(g, w, 0, j);
    ReachesOn(g, x, w[0], y);
  }

  lemma SliceReaches(g: Registry, w: seq<Bundle>, i: nat, j: nat)
    requires Chain(g, w) && i <= j < |w|
    ensures Reaches(g, w[i], w[j])
  {
    var p := w[i..j + 1];
    forall k | 0 <= k < |p| - 1
      ensures p[k + 1] in g.Dependents(p[k])
    {
      assert w[i + k + 1] in g.Dependents(w[i + k]);
    }
    assert p[0] == w[i] && p[|p| - 1] == w[j];
  }

  lemma ChainJoin(g: Registry, p: seq<Bundle>, q: seq<Bundle>)
    requires Chain(g, p) && Chain(g, q) && p[|p| - 1] == q[0]
    ensures Chain(g, p + q[1..]) && (p + q[1..])[|p + q[1..]| - 1] == q[|q| - 1]
  {
    var w := p + q[1..];
    forall k | 0 <= k < |w| - 1
      ensures w[k + 1] in g.Dependents(w[k])
    {
      if k < |p| - 1 {
        assert p[k + 1] in g.Dependents(p[k]);
      } else {
        var m := k - (|p| - 1);
        assert q[m + 1] in g.Dependents(q[m]);
        assert w[k] == q[m] && w[k + 1] == q[m + 1];
      }
    }
  }

  lemma ReachesOn(g: Registry, x: Bundle, y: Bundle, z: Bundle)
    requires Reaches(g, x, y) && Reaches(g, y, z)
    ensures Reaches(g, x, z)
  {
    var p :| Chain(g, p) && p[0] == x && p[|p| - 1] == y;
    var q :| Chain(g, q) && q[0] == y && q[|q| - 1] == z;
    ChainJoin(g, p, q);
    assert (p + q[1..])[0] == x;
  }

  /** Two different bundles that reach each other lie on a ring. */
  lemma MutualRing(g: Registry, x: Bundle, y: Bundle) returns (w: seq<Bundle>)
    requires Reaches(g, x, y) && Reaches(g, y, x) && x != y
    ensures Ring(g, w) && x in w && y in w
  {
    var p :| Chain(g, p) && p[0] == x && p[|p| - 1] == y;
    var q :| Chain(g, q) && q[0] == y && q[|q| - 1] == x;
    ChainJoin(g, p, q);
    w := p + q[1..];
    assert w[0] == x && w[|p| - 1] == y;
  }

  /** A ring stays where its bundles keep at least their exports, declarations and residents. */
  ghost predicate KeptOn(g: Tables, g': Tables, w: seq<Bundle>) {
    && (forall x :: x in w ==> x in g.registry.exports ==>
          x in g'.registry.exports && g.registry.exports[x] <= g'.registry.exports[x])
    && (forall x :: x in w ==> x in g.registry.deps ==>
          x in g'.registry.deps && g.registry.deps[x] <= g'.registry.deps[x])
    && (forall x :: x in w ==> x in g.residents ==> x in g'.residents && g'.residents[x] == g.residents[x])
  }

  lemma RingStays(g: Tables, g': Tables, w: seq<Bundle>)
    requires Ring(g.registry, w) && TwoOwners(g, w) && KeptOn(g, g', w)
    ensures Ring(g'.registry, w) && TwoOwners(g', w) && Entangled(g')
  {
    forall i | 0 <= i < |w| - 1
      ensures w[i + 1] in g'.registry.Dependents(w[i])
    {
      var x, d := w[i], w[i + 1];
      assert d in g.registry.Dependents(x);
      var c :| c in g.registry.deps[d] * g.registry.exports[x];
      assert c in g'.registry.deps[d] * g'.registry.exports[x];
    }
  }

  /** Taking down bundles off the ring leaves it alone. */
  lemma RingOutlives(g: Tables, w: seq<Bundle>, gone: set<Bundle>)
    requires Ring(g.registry, w) && TwoOwners(g, w) && forall x :: x in w ==> x !in gone
    ensures Entangled(g.Without(gone))
  {
    RingStays(g, g.Without(gone), w);
  }

  /** No direct unload takes a bundle out of a ring. */
  lemma UnloadSparesRing(g: Tables, b: Bundle, t: Thread)
    requires Entangled(g) && g.Unloads(b, t)
    ensures Entangled(g.Without({b}))
  {
    var w :| Ring(g.registry, w) && TwoOwners(g, w);
    if b in w { RingInUse(g, w, b); }
    RingOutlives(g, w, {b});
  }

  /** A cascade that would meet a ring of two owners is refused by its preflight. */
  lemma CascadeSparesRing(g: Tables, refuses: set<Bundle>, b: Bundle, t: Thread, g': Tables, log: seq<Bundle>, ok: bool)
    requires Entangled(g) && Cascaded(g, refuses, b, t, g', log, ok)
    ensures Entangled(g')
  {
    var w :| Ring(g.registry, w) && TwoOwners(g, w);
    forall x | x in w
      ensures x !in Elements(log)
    {
      if x in log { ForeignOnRing(g, w, b, t, x); }
    }
    RingOutlives(g, w, Elements(log));
  }

  lemma ForeignOnRing(g: Tables, w: seq<Bundle>, b: Bundle, t: Thread, x: Bundle)
    requires Ring(g.registry, w) && TwoOwners(g, w) && x in w && Reaches(g.registry, b, x)
    ensures exists y :: y in Closure(g.registry, b) && !g.Good(y, t)
  {
    var y, z :| y in w && z in w && y in g.residents && z in g.residents && g.residents[y] != g.residents[z];
    var other := if g.residents[y] != t then y else z;
    RingReaches(g.registry, w, x, other);
    ReachesOn(g.registry, b, x, other);
    ReachedInClosure(g.registry, b, other);
  }

  // ------------------------------------------------------- what can be taken down

  /** Every declaration belongs to a loaded bundle. */
  ghost predicate DeclaredLoaded(g: Registry) { g.deps.Keys <= g.exports.Keys }

  /** Everything that depends on `m` is depended on by `m`. */
  ghost predicate Last(g: Registry, m: Bundle) { forall x :: x in Closure(g, m) ==> Reaches(g, x, m) }

  lemma ClosureShrinks(g: Registry, a: Bundle, x: Bundle)
    requires x in Closure(g, a) && !Reaches(g, x, a)
    ensures |Closure(g, x)| < |Closure(g, a)|
  {
    forall y | y in Closure(g, x)
      ensures y in Closure(g, a)
    {
      ReachesOn(g, a, x, y);
      ReachedInClosure(g, a, y);
    }
    ReachesSelf(g, a);
    ReachedInClosure(g, a, a);
    SmallerSet(Closure(g, x), Closure(g, a)) by { assert a in Closure(g, a) && a !in Closure(g, x); }
  }

  lemma ClosureLoaded(g: Registry, a: Bundle, x: Bundle)
    requires DeclaredLoaded(g) && g.Loaded(a) && x in Closure(g, a)
    ensures g.Loaded(x)
  {
  }

  /** Some bundle that depends on `b`, or `b`, has only dependents that it depends on itself. */
  lemma {:induction false} FindLast(g: Registry, b: Bundle) returns (m: Bundle)
    requires DeclaredLoaded(g) && g.Loaded(b)
    ensures g.Loaded(m) && Last(g, m)
    decreases |Closure(g, b)|
  {
    if x :| x in Closure(g, b) && !Reaches(g, x, b) {
      ClosureShrinks(g, b, x);
      ClosureLoaded(g, b, x);
      m := FindLast(g, x);
    } else {
      m := b;
    }
  }

  /** Without a cycle of two owners, one thread may take down all that depends on such a bundle. */
  lemma OneOwner(g: Tables, m: Bundle) returns (t: Thread)
    requires !Entangled(g) && Last(g.registry, m)
    ensures forall x :: x in Closure(g.registry, m) ==> g.AffinityHolds(x, t)
  {
    if y :| y in Closure(g.registry, m) && y in g.residents {
      t := g.residents[y];
      forall x | x in Closure(g.registry, m)
        ensures g.AffinityHolds(x, t)
      {
        if x in g.residents && x != y {
          ReachesOn(g.registry, x, m, y);
          ReachesOn(g.registry, y, m, x);
          var w := MutualRing(g.registry, x, y);
          assert !TwoOwners(g, w);
        }
      }
    } else {
      t := 0;
    }
  }

  /** Some order of a set of bundles. */
  lemma {:induction false} Listing(s: set<Bundle>) returns (log: seq<Bundle>)
    ensures Elements(log) == s && Distinct(log)
    decreases |s|
  {
    if s == {} {
      log := [];
    } else {
      var x :| x in s;
      var rest := Listing(s - {x});
      log := rest + [x];
      ElementsSnoc(rest, x);
      assert x !in Elements(rest);
    }
  }

  /** A closure of more than one bundle that depend on each other is no acyclic one. */
  lemma LastIsCyclic(g: Registry, m: Bundle, x: Bundle)
    requires Last(g, m) && x in Closure(g, m) && x != m
    ensures !AcyclicBelow(g, m)
  {
    var w := MutualRing(g, m, x);
    RingReaches(g, w, m, w[0]);
  }

  lemma LoneClosure(g: Registry, m: Bundle)
    requires Closure(g, m) == {m}
    ensures g.Dependents(m) == {}
  {
    forall d | d in g.Dependents(m)
      ensures false
    {
      assert Chain(g, [m, d]);
      assert Reaches(g, m, d) by { assert [m, d][1] == d; }
      ReachedInClosure(g, m, d);
    }
  }

  /** The cascade that takes down all of the closure. */
  lemma CascadeGoesThrough(g: Tables, m: Bundle, t: Thread) returns (log: seq<Bundle>)
    requires Last(g.registry, m)
    requires forall x :: x in Closure(g.registry, m) ==> g.Good(x, t) && !g.Busy(x)
    ensures Elements(log) == Closure(g.registry, m) && Distinct(log)
    ensures Cascaded(g, {}, m, t, g.Without(Elements(log)), log, true)
  {
    var all := Closure(g.registry, m);
    ReachesSelf(g.registry, m);
    ReachedInClosure(g.registry, m, m);
    log := Listing(all);
    if x :| x in all && x != m {
      LastIsCyclic(g.registry, m, x);
    } else {
      assert all == {m};
      LoneClosure(g.registry, m);
      LoneLog(log, m);
      assert DependentsFirst(g.registry, log);
      DependentsFirstOnlyIfAcyclic(g.registry, m, log);
    }
    if DependentsFirst(g.registry, log) { DependentsFirstOnlyIfAcyclic(g.registry, m, log); }
    var cur := g.Without(Elements(log));
    assert forall x :: x in log ==> x in Elements(log);
    assert Removed(g, m, cur, log);
    if AcyclicBelow(g.registry, m) { CascadeIsOrderly(g, m, cur, log); }
  }

  /** What is taken down opens no new cycle. */
  lemma RemovalUntangles(g: Tables, gone: set<Bundle>)
    requires !Entangled(g)
    ensures !Entangled(g.Without(gone))
  {
    var g' := g.Without(gone);
    if w :| Ring(g'.registry, w) && TwoOwners(g', w) {
      RingStays(g', g, w);
    }
  }

  // ------------------------------------------------------- two owners in a cycle

  /** Two bundles that depend on each other, with residents of two threads. */
  const TWO_OWNERS := CYCLE.(residents := map[0 := 1, 1 := 2])

  lemma TwoOwnersEntangled()
    ensures Entangled(TWO_OWNERS)
  {
    CycleFacts();
    var w := [0, 1, 0];
    assert Chain(TWO_OWNERS.registry, w);
    assert w[0] in w && w[1] in w;
    assert TwoOwners(TWO_OWNERS, w);
  }

  /** Concretely: neither kind of unload, of any bundle on any thread, changes anything there. */
  method UnloadTwoOwners(b: Bundle, t: Thread) returns (direct: Outcome, cascade: Outcome, after: Tables)
    ensures Entangled(TWO_OWNERS) && direct.Err? && cascade.Err? && after == TWO_OWNERS
  {
    TwoOwnersEntangled();
    var runtime := new Runtime(TWO_OWNERS, {});
    StuckDirect(b, t);
    direct := runtime.UnloadBundle(b, t);
    ghost var log;
    StuckCascade(b, t);
    cascade, log := runtime.UnloadBundleCascade(b, t);
    WithoutNone(TWO_OWNERS);
    after := runtime.State();
  }

  lemma StuckDirect(b: Bundle, t: Thread)
    ensures !TWO_OWNERS.Unloads(b, t)
  {
    CycleFacts();
    if b == 0 { assert 1 in TWO_OWNERS.registry.Dependents(0); }
    if b == 1 { assert 0 in TWO_OWNERS.registry.Dependents(1); }
  }

  lemma StuckCascade(b: Bundle, t: Thread)
    ensures exists x :: x in Closure(TWO_OWNERS.registry, b) && !TWO_OWNERS.Good(x, t)
  {
    CycleFacts();
    ReachesSelf(TWO_OWNERS.registry, b);
    ReachedInClosure(TWO_OWNERS.registry, b, b);
    var other := if t == 1 then 1 else 0;
    if b == 0 || b == 1 {
      assert Chain(TWO_OWNERS.registry, [0, 1, 0]);
      RingReaches(TWO_OWNERS.registry, [0, 1, 0], b, other);
      ReachedInClosure(TWO_OWNERS.registry, b, other);
    }
  }
}
