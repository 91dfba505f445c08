/**
  The dependency relation that unload and its cascade walk: a bundle depends on
  another when it declared a contract the other exports. A declaration may outlive
  or precede its bundle, so `deps` can name bundles that are not loaded.
 */
module DependencyGraph {

  type Bundle = nat
  type Contract = nat

  datatype Registry = Registry(exports: map<Bundle, set<Contract>>, deps: map<Bundle, set<Contract>>)
  {
    predicate Loaded(b: Bundle) { b in exports }

    /** Declared dependents of `b` other than `b` itself. */
    function Dependents(b: Bundle): set<Bundle> {
      set d | d in deps && d != b && b in exports && deps[d] * exports[b] != {}
    }

    function Without(gone: set<Bundle>): Registry {
      Registry(exports - gone, deps - gone)
    }
  }

  /** A dependent is another bundle that declared a contract which `b`, loaded, exports. */
  lemma DependentsMeans(g: Registry, b: Bundle)
    ensures forall d :: d in g.Dependents(b) <==>
      d != b && d in g.deps && b in g.exports && exists c :: c in g.deps[d] && c in g.exports[b]
  {
    forall d | d in g.deps && b in g.exports
      ensures g.deps[d] * g.exports[b] != {} <==> exists c :: c in g.deps[d] && c in g.exports[b]
    {
      if c :| c in g.deps[d] && c in g.exports[b] { assert c in g.deps[d] * g.exports[b]; }
    }
  }

  /** A walk along the dependents relation. */
  ghost predicate Chain(g: Registry, p: seq<Bundle>) {
    |p| > 0 && forall i :: 0 <= i < |p| - 1 ==> p[i + 1] in g.Dependents(p[i])
  }

  ghost predicate Reaches(g: Registry, a: Bundle, x: Bundle) {
    exists p :: Chain(g, p) && p[0] == a && p[|p| - 1] == x
  }

  /** `a` and all its transitive dependents. */
  ghost function Closure(g: Registry, a: Bundle): set<Bundle> {
    set x | x in g.deps.Keys + {a} && Reaches(g, a, x)
  }

  /** No bundle in the closure of `a` depends on itself through others. */
  ghost predicate AcyclicBelow(g: Registry, a: Bundle) {
    forall p :: Chain(g, p) && |p| > 1 && Reaches(g, a, p[0]) ==> p[0] != p[|p| - 1]
  }

  lemma ReachesSelf(g: Registry, a: Bundle)
    ensures Reaches(g, a, a)
  {
    assert Chain(g, [a]);
  }

  /** What is reached lies in the closure set. */
  lemma ReachedInClosure(g: Registry, a: Bundle, x: Bundle)
    requires Reaches(g, a, x)
    ensures x in Closure(g, a)
  {
    var p :| Chain(g, p) && p[0] == a && p[|p| - 1] == x;
    if |p| > 1 { assert p[|p| - 2 + 1] in g.Dependents(p[|p| - 2]); }
  }

  /** A set that holds `a` and is closed under dependents holds the whole closure. */
  lemma {:induction false} ClosedHoldsChain(g: Registry, s: set<Bundle>, p: seq<Bundle>, i: nat)
    requires Chain(g, p) && p[0] in s && i < |p|
    requires forall x :: x in s ==> g.Dependents(x) <= s
    ensures p[i] in s
  {
    if i > 0 {
      ClosedHoldsChain(g, s, p, i - 1);
      assert p[i - 1 + 1] in g.Dependents(p[i - 1]);
    }
  }

  /** The closure is the least set that holds `a` and is closed under dependents. */
  lemma ClosureIsLeast(g: Registry, a: Bundle, s: set<Bundle>)
    requires a in s && (forall x :: x in s ==> g.Dependents(x) <= s)
    requires forall x :: x in s ==> Reaches(g, a, x)
    ensures s == Closure(g, a)
  {
    forall x | x in s
      ensures x in Closure(g, a)
    {
      ReachedInClosure(g, a, x);
    }
    forall x | x in Closure(g, a)
      ensures x in s
    {
      var p :| Chain(g, p) && p[0] == a && p[|p| - 1] == x;
      ClosedHoldsChain(g, s, p, |p| - 1);
    }
  }

  function Elements(s: seq<Bundle>): set<Bundle> { set x | x in s }

  /** Every bundle in `log` appears after all its dependents. */
  ghost predicate DependentsFirst(g: Registry, log: seq<Bundle>) {
    forall i :: 0 <= i < |log| ==> g.Dependents(log[i]) <= Elements(log[..i])
  }

  ghost predicate Distinct(s: seq<Bundle>) {
    forall i, j :: 0 <= i < j < |s| ==> s[i] != s[j]
  }

  /** What was removed, even by a walk cut short, never leaves a dependent behind. */
  lemma RemovedIsClosed(g: Registry, log: seq<Bundle>)
    requires DependentsFirst(g, log)
    ensures forall x :: x in log ==> g.Dependents(x) <= Elements(log)
  {
    forall x | x in log
      ensures g.Dependents(x) <= Elements(log)
    {
      var i :| 0 <= i < |log| && log[i] == x;
      assert g.Dependents(log[i]) <= Elements(log[..i]);
    }
  }

  /** Each removal would also have passed the check that refuses a bundle in use. */
  lemma EachStepUnused(g: Registry, log: seq<Bundle>, i: nat)
    requires DependentsFirst(g, log) && i < |log|
    ensures g.Without(Elements(log[..i])).Dependents(log[i]) == {}
  {
    assert g.Dependents(log[i]) <= Elements(log[..i]);
  }

  /** Along a walk, positions in a dependents-first log strictly fall. */
  lemma {:induction false} PositionsFall(g: Registry, log: seq<Bundle>, p: seq<Bundle>, i: nat, k: nat)
      returns (k': nat)
    requires DependentsFirst(g, log) && Chain(g, p) && 0 < i < |p| && k < |log| && log[k] == p[0]
    ensures k' < k && log[k'] == p[i]
  {
    var j := k;
    if i > 1 { j := PositionsFall(g, log, p, i - 1, k); }
    assert p[i - 1 + 1] in g.Dependents(p[i - 1]);
    assert g.Dependents(log[j]) <= Elements(log[..j]);
    assert p[i] in Elements(log[..j]);
    k' :| 0 <= k' < j && log[k'] == p[i];
  }

  /** A dependents-first log of the whole closure exists only when the closure has no cycle. */
  lemma DependentsFirstOnlyIfAcyclic(g: Registry, a: Bundle, log: seq<Bundle>)
    requires Distinct(log) && Elements(log) == Closure(g, a) && DependentsFirst(g, log)
    ensures AcyclicBelow(g, a)
  {
    forall p | Chain(g, p) && |p| > 1 && Reaches(g, a, p[0])
      ensures p[0] != p[|p| - 1]
    {
      ReachedInClosure(g, a, p[0]);
      var k :| 0 <= k < |log| && log[k] == p[0];
      var k' := PositionsFall(g, log, p, |p| - 1, k);
    }
  }
}
