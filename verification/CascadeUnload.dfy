/**
  Unloading a bundle, refusing while a loaded bundle depends on it, and the
  cascade that removes dependents first after a preflight over the same closure.

  Host callbacks and loader hooks do not re-enter the runtime here, and no other
  thread mutates the registry during the call. `loaderRefuses` are the bundles
  whose loader hook fails after the bundle was already invalidated.
 */
module CascadeUnload {
  import opened DependencyGraph

  type Thread = nat

  datatype Error =
    | BundleNotFound(bundle: Bundle)
    | DependencyInUse(bundle: Bundle)
    | WrongThread(bundle: Bundle)
    | InternalPluginInUse(bundle: Bundle)
    | LoaderFailed(bundle: Bundle)

  datatype Outcome = Ok | Err(error: Error)

  /** Everything unload changes, as a value. */
  datatype Tables = Tables(
    registry: Registry,
    residents: map<Bundle, Thread>,
    internal: set<Bundle>,
    live: map<Bundle, nat>)
  {
    predicate AffinityHolds(b: Bundle, t: Thread) { b in residents ==> residents[b] == t }

    /** Internal backing that instances or constructors still use. */
    predicate Busy(b: Bundle) { (b in internal || b in residents) && b in live && live[b] > 0 }

    /** Bundles the preflight accepts. */
    predicate Good(b: Bundle, t: Thread) { registry.Loaded(b) && AffinityHolds(b, t) }

    /** Another loaded bundle declared one of its contracts. */
    predicate InUse(b: Bundle) { exists d | d in registry.Dependents(b) :: registry.Loaded(d) }

    /** What a direct unload on thread `t` accepts. */
    predicate Unloads(b: Bundle, t: Thread) { Good(b, t) && !InUse(b) && !Busy(b) }

    function Without(gone: set<Bundle>): Tables {
      Tables(registry.Without(gone), residents - gone, internal - gone, live - gone)
    }
  }

  lemma WithoutNone(s: Tables)
    ensures s.Without({}) == s
  {
    assert s.registry.exports - {} == s.registry.exports && s.registry.deps - {} == s.registry.deps;
    assert s.residents - {} == s.residents && s.live - {} == s.live;
  }

  lemma WithoutOneMore(s: Tables, gone: set<Bundle>, b: Bundle)
    ensures s.Without(gone).Without({b}) == s.Without(gone + {b})
  {
    assert (s.registry.exports - gone) - {b} == s.registry.exports - (gone + {b});
    assert (s.registry.deps - gone) - {b} == s.registry.deps - (gone + {b});
    assert (s.residents - gone) - {b} == s.residents - (gone + {b});
    assert (s.live - gone) - {b} == s.live - (gone + {b});
  }

  /**
    The state of a cascade over the initial tables `g`: `log` was removed since the
    start, `stack` are the bundles whose unload is still open, outermost first.
   */
  ghost predicate Walking(g: Tables, cur: Tables, log: seq<Bundle>, stack: seq<Bundle>, visited: set<Bundle>) {
    && cur == g.Without(Elements(log))
    && visited == Elements(log) + Elements(stack)
    && Distinct(log)
    && (forall x :: x in stack ==> x !in log)
    && (forall x :: x in log ==> g.registry.Dependents(x) <= visited)
  }

  /** The open calls form a walk from the outermost bundle. */
  ghost predicate OpenWalk(g: Registry, stack: seq<Bundle>, b: Bundle) {
    Chain(g, stack + [b])
  }

  lemma OpenWalkReaches(g: Registry, stack: seq<Bundle>, b: Bundle)
    requires OpenWalk(g, stack, b)
    ensures Reaches(g, (stack + [b])[0], b)
  {
    assert (stack + [b])[|stack + [b]| - 1] == b;
  }

  /** A dependent of the innermost open bundle that is itself open closes a loop. */
  lemma LoopThrough(g: Registry, w: seq<Bundle>, i: nat, d: Bundle) returns (loop: seq<Bundle>)
    requires Chain(g, w) && i < |w| && w[i] == d && d in g.Dependents(w[|w| - 1])
    ensures Chain(g, loop) && |loop| > 1 && Reaches(g, w[0], loop[0]) && loop[0] == loop[|loop| - 1]
  {
    loop := w[i..] + [d];
    forall k | 0 <= k < |loop| - 1
      ensures loop[k + 1] in g.Dependents(loop[k])
    {
      if k < |w| - i - 1 { assert w[i + k + 1] in g.Dependents(w[i + k]); }
    }
    var up := w[..i + 1];
    assert Chain(g, up) && up[0] == w[0] && up[|up| - 1] == loop[0];
  }

  /** On an acyclic closure no dependent of the innermost open bundle is itself open. */
  lemma NoDependentIsOpen(g: Registry, stack: seq<Bundle>, b: Bundle, d: Bundle)
    requires OpenWalk(g, stack, b) && AcyclicBelow(g, (stack + [b])[0]) && d in g.Dependents(b)
    ensures d !in stack + [b]
  {
    var w := stack + [b];
    if d in w {
      var i :| 0 <= i < |w| && w[i] == d;
      var loop := LoopThrough(g, w, i, d);
      assert false;
    }
  }

  lemma ElementsSnoc(log: seq<Bundle>, b: Bundle)
    ensures Elements(log + [b]) == Elements(log) + {b}
  {
  }

  lemma DependentsFirstSnoc(g: Registry, log: seq<Bundle>, b: Bundle)
    requires DependentsFirst(g, log) && g.Dependents(b) <= Elements(log)
    ensures DependentsFirst(g, log + [b])
  {
    var l := log + [b];
    forall i | 0 <= i < |l|
      ensures g.Dependents(l[i]) <= Elements(l[..i])
    {
      if i < |log| { assert l[..i] == log[..i]; } else { assert l[..i] == log; }
    }
  }

  /** What holds of a cascade from `root` whether it goes on, succeeded or stopped at an error. */
  ghost predicate Removed(g: Tables, root: Bundle, cur: Tables, log: seq<Bundle>) {
    && cur == g.Without(Elements(log))
    && Distinct(log)
    && (forall x :: x in log ==> Reaches(g.registry, root, x))
    && (AcyclicBelow(g.registry, root) ==> DependentsFirst(g.registry, log))
  }

  /** No removal left a dependent behind, and each would have passed the check that refuses a bundle in use. */
  ghost predicate Orderly(g: Registry, log: seq<Bundle>) {
    && (forall x :: x in log ==> g.Dependents(x) <= Elements(log))
    && (forall i :: 0 <= i < |log| ==> g.Without(Elements(log[..i])).Dependents(log[i]) == {})
  }

  /** A cascade over an acyclic closure is orderly, also when it stopped at an error. */
  lemma CascadeIsOrderly(g: Tables, root: Bundle, cur: Tables, log: seq<Bundle>)
    requires Removed(g, root, cur, log) && AcyclicBelow(g.registry, root)
    ensures Orderly(g.registry, log)
  {
    RemovedIsClosed(g.registry, log);
    forall i | 0 <= i < |log|
      ensures g.registry.Without(Elements(log[..i])).Dependents(log[i]) == {}
    {
      EachStepUnused(g.registry, log, i);
    }
  }

  /** What a cascade unload of `b` on thread `t` does, `log` removed in this order, `ok` reported. */
  ghost predicate Cascaded(g: Tables, refuses: set<Bundle>, b: Bundle, t: Thread, cur: Tables, log: seq<Bundle>,
      ok: bool)
  {
    && Removed(g, b, cur, log)
    && (AcyclicBelow(g.registry, b) ==> Orderly(g.registry, log))
    && (ok <==> forall x :: x in Closure(g.registry, b) ==> g.Good(x, t) && Removable(g, refuses, x))
    && (ok ==> Elements(log) == Closure(g.registry, b))
    && (ok ==> (DependentsFirst(g.registry, log) <==> AcyclicBelow(g.registry, b)))
    && ((exists x :: x in Closure(g.registry, b) && !g.Good(x, t)) ==> log == [])
  }

  /** Bundles that the removing walk can take down without an error, once the preflight accepted them. */
  predicate Removable(g: Tables, refuses: set<Bundle>, b: Bundle) { !g.Busy(b) && b !in refuses }

  ghost predicate Progress(g: Tables, refuses: set<Bundle>, root: Bundle, cur: Tables, log: seq<Bundle>,
                           stack: seq<Bundle>, visited: set<Bundle>) {
    && Removed(g, root, cur, log)
    && Walking(g, cur, log, stack, visited)
    && (forall x :: x in log ==> Removable(g, refuses, x))
  }

  lemma OpenOne(g: Tables, refuses: set<Bundle>, root: Bundle, cur: Tables, log: seq<Bundle>,
                stack: seq<Bundle>, b: Bundle, visited: set<Bundle>)
    requires Progress(g, refuses, root, cur, log, stack, visited) && b !in visited
    ensures Progress(g, refuses, root, cur, log, stack + [b], visited + {b})
    ensures cur.registry.Dependents(b) == g.registry.Dependents(b) - Elements(log)
    ensures cur.registry.Loaded(b) == g.registry.Loaded(b)
  {
    ElementsSnoc(stack, b);
  }

  /** Removing the innermost open bundle keeps the order of removal, whether or not its loader then fails. */
  lemma RemoveOne(g: Tables, root: Bundle, cur: Tables, log: seq<Bundle>, stack: seq<Bundle>, b: Bundle,
      visited: set<Bundle>)
    requires Removed(g, root, cur, log) && Walking(g, cur, log, stack + [b], visited) && b !in stack
    requires OpenWalk(g.registry, stack, b) && root == (stack + [b])[0] && g.registry.Dependents(b) <= visited
    ensures Removed(g, root, cur.Without({b}), log + [b])
    ensures Walking(g, cur.Without({b}), log + [b], stack, visited)
  {
    WithoutOneMore(g, Elements(log), b);
    ElementsSnoc(log, b);
    ElementsSnoc(stack, b);
    OpenWalkReaches(g.registry, stack, b);
    assert b in stack + [b];
    if AcyclicBelow(g.registry, root) {
      forall d | d in g.registry.Dependents(b)
        ensures d in Elements(log)
      {
        NoDependentIsOpen(g.registry, stack, b, d);
      }
      DependentsFirstSnoc(g.registry, log, b);
    }
  }

  /** An open bundle's own rows are still those of the start. */
  lemma RowsUntouched(g: Tables, cur: Tables, log: seq<Bundle>, stack: seq<Bundle>, b: Bundle, visited: set<Bundle>,
      t: Thread)
    requires Walking(g, cur, log, stack + [b], visited)
    ensures cur.Busy(b) == g.Busy(b) && cur.AffinityHolds(b, t) == g.AffinityHolds(b, t)
  {
    assert b in stack + [b];
  }

  /** A dependent of the innermost open bundle may be opened next. */
  lemma ChildOpens(g: Registry, stack: seq<Bundle>, b: Bundle, d: Bundle)
    requires OpenWalk(g, stack, b) && d in g.Dependents(b)
    ensures OpenWalk(g, stack + [b], d) && (stack + [b] + [d])[0] == (stack + [b])[0]
  {
    var w := stack + [b];
    forall i | 0 <= i < |w + [d]| - 1
      ensures (w + [d])[i + 1] in g.Dependents((w + [d])[i])
    {
      if i < |w| - 1 { assert w[i + 1] in g.Dependents(w[i]); }
    }
  }

  /** The innermost open bundle, all its dependents visited, is about to be unloaded. */
  lemma ReadyToRemove(g: Tables, refuses: set<Bundle>, root: Bundle, cur: Tables, log: seq<Bundle>, stack: seq<Bundle>,
      b: Bundle, visited: set<Bundle>, t: Thread)
    requires Progress(g, refuses, root, cur, log, stack + [b], visited) && b !in stack
    requires g.registry.Dependents(b) <= visited
    requires OpenWalk(g.registry, stack, b) && root == (stack + [b])[0]
    ensures cur.Busy(b) == g.Busy(b) && cur.AffinityHolds(b, t) == g.AffinityHolds(b, t)
    ensures Removed(g, root, cur.Without({b}), log + [b])
    ensures Removable(g, refuses, b) ==> Progress(g, refuses, root, cur.Without({b}), log + [b], stack, visited)
  {
    RowsUntouched(g, cur, log, stack, b, visited, t);
    RemoveOne(g, root, cur, log, stack, b, visited);
  }

  lemma SmallerSet<T>(a: set<T>, b: set<T>)
    requires a < b
    ensures |a| < |b|
  {
    assert b == a + (b - a);
  }

  lemma ReachesThrough(g: Registry, b: Bundle, d: Bundle, x: Bundle)
    requires d in g.Dependents(b) && Reaches(g, d, x)
    ensures Reaches(g, b, x)
  {
    var p :| Chain(g, p) && p[0] == d && p[|p| - 1] == x;
    var q := [b] + p;
    assert forall i :: 0 < i < |q| ==> q[i] == p[i - 1];
    assert Chain(g, q) && q[0] == b && q[|q| - 1] == x;
  }

  /** What goes with the closure of `b`, in terms of declarations and exports alone. */
  ghost predicate Clean(g: Registry, b: Bundle, gone: set<Bundle>) {
    && b in gone
    && (forall x, d, c :: x in gone && x in g.exports && c in g.exports[x] && d in g.deps && c in g.deps[d] ==>
         d in gone)
    && (forall x :: x in gone && x != b ==> exists y, c ::
          y in gone && y != x && y in g.exports && c in g.exports[y] && x in g.deps && c in g.deps[x])
  }

  /**
    The closure takes along every bundle that declared a contract of one in it, and besides
    `b` nothing but bundles that did.
   */
  lemma ClosureIsClean(g: Registry, b: Bundle)
    ensures Clean(g, b, Closure(g, b))
  {
    ReachesSelf(g, b);
    ReachedInClosure(g, b, b);
    var gone := Closure(g, b);
    forall x, d, c | x in gone && x in g.exports && c in g.exports[x] && d in g.deps && c in g.deps[d]
      ensures d in gone
    {
      if d != x {
        assert c in g.deps[d] * g.exports[x];
        DependentReached(g, b, x, d);
      }
    }
    forall x | x in gone && x != b
      ensures exists y, c :: y in gone && y != x && y in g.exports && c in g.exports[y] && x in g.deps && c in g.deps[x]
    {
      var p :| Chain(g, p) && p[0] == b && p[|p| - 1] == x;
      var y := p[|p| - 2];
      assert p[|p| - 2 + 1] in g.Dependents(y);
      var early := p[..|p| - 1];
      assert Chain(g, early) && early[0] == b && early[|early| - 1] == y;
      ReachedInClosure(g, b, y);
      var c :| c in g.deps[x] * g.exports[y];
    }
  }

  lemma DependentReached(g: Registry, b: Bundle, x: Bundle, d: Bundle)
    requires x in Closure(g, b) && d in g.Dependents(x)
    ensures d in Closure(g, b)
  {
    var p :| Chain(g, p) && p[0] == b && p[|p| - 1] == x;
    var q := p + [d];
    assert Chain(g, q) && q[0] == b && q[|q| - 1] == d;
    ReachedInClosure(g, b, d);
  }

  /** The removing walk is over, having passed its preflight: it succeeded, or stopped at `bad`. */
  lemma CascadeEnds(g: Tables, refuses: set<Bundle>, b: Bundle, t: Thread, cur: Tables, log: seq<Bundle>, ok: bool,
      visited: set<Bundle>, bad: Bundle)
    requires Removed(g, b, cur, log) && forall x :: x in Closure(g.registry, b) ==> g.Good(x, t)
    requires ok ==> Progress(g, refuses, b, cur, log, [], visited) && b in visited
    requires !ok ==> Reaches(g.registry, b, bad) && !(g.Good(bad, t) && Removable(g, refuses, bad))
    ensures Cascaded(g, refuses, b, t, cur, log, ok) && (ok ==> Clean(g.registry, b, Elements(log)))
  {
    if AcyclicBelow(g.registry, b) { CascadeIsOrderly(g, b, cur, log); }
    if ok {
      assert visited == Elements(log);
      ClosureIsLeast(g.registry, b, visited);
      ClosureIsClean(g.registry, b);
      if DependentsFirst(g.registry, log) { DependentsFirstOnlyIfAcyclic(g.registry, b, log); }
    } else {
      ReachedInClosure(g.registry, b, bad);
    }
  }

  /** One runtime's bundle lifecycle. */
  class Runtime {
    var registry: Registry
    var residents: map<Bundle, Thread>
    var internal: set<Bundle>
    var live: map<Bundle, nat>
    /** Every bundle invalidated so far, in order. */
    var removed: seq<Bundle>
    const loaderRefuses: set<Bundle>

    constructor (s: Tables, loaderRefuses: set<Bundle>)
      ensures State() == s && this.loaderRefuses == loaderRefuses && removed == []
    {
      registry, residents, internal, live := s.registry, s.residents, s.internal, s.live;
      this.loaderRefuses, removed := loaderRefuses, [];
    }

    function State(): Tables
      reads this
    {
      Tables(registry, residents, internal, live)
    }

    /** The boundary every unload goes through: affinity, in-use check, invalidate, reclaim. */
    method UnloadRegistered(b: Bundle, t: Thread) returns (res: Outcome)
      modifies this
      ensures var s := old(State());
        if b in s.residents && s.residents[b] != t
        then res == Err(WrongThread(b)) && State() == s && removed == old(removed)
        else if (b in s.internal || b in s.residents) && b in s.live && s.live[b] > 0
        then res == Err(InternalPluginInUse(b)) && State() == s && removed == old(removed)
        else State() == s.Without({b}) && removed == old(removed) + [b]
             && res == if b in loaderRefuses then Err(LoaderFailed(b)) else Ok
    {
      if b in residents && residents[b] != t { return Err(WrongThread(b)); }
      var n := if b in live then live[b] else 0;
      if (b in internal || b in residents) && n > 0 { return Err(InternalPluginInUse(b)); }
      residents := residents - {b};
      registry := registry.Without({b});
      internal := internal - {b};
      live := live - {b};
      removed := removed + [b];
      res := if b in loaderRefuses then Err(LoaderFailed(b)) else Ok;
    }

    /** Direct unload: refused exactly while another loaded bundle declared one of its contracts. */
    method UnloadBundle(b: Bundle, t: Thread) returns (res: Outcome)
      modifies this
      ensures res == Err(BundleNotFound(b)) <==> b !in old(registry.exports)
      ensures b in old(registry.exports) ==> (res == Err(DependencyInUse(b)) <==>
        exists d, c :: d != b && d in old(registry.exports) && d in old(registry.deps) &&
          c in old(registry.deps[d]) && c in old(registry.exports[b]))
      ensures res == Ok <==> old(State()).Unloads(b, t) && b !in loaderRefuses
      ensures res == Err(LoaderFailed(b)) <==> old(State()).Unloads(b, t) && b in loaderRefuses
      ensures
        if old(State()).Unloads(b, t)
        then State() == old(State()).Without({b}) && removed == old(removed) + [b]
        else State() == old(State()) && removed == old(removed)
    {
      if !registry.Loaded(b) { return Err(BundleNotFound(b)); }
      DependentsMeans(registry, b);
      var using := set d | d in registry.Dependents(b) && registry.Loaded(d);
      if using != {} {
        var d :| d in using;
        return Err(DependencyInUse(b));
      }
      assert forall d :: d in registry.Dependents(b) && registry.Loaded(d) ==> d in using;
      res := UnloadRegistered(b, t);
    }

    /** The preflight walk: cut short at the first bundle that is missing or owned by another thread. */
    method EnsureAffinity(b: Bundle, t: Thread, visited: set<Bundle>, ghost universe: set<Bundle>)
      returns (res: Outcome, visited': set<Bundle>)
      requires visited <= universe && b in universe && registry.deps.Keys <= universe
      ensures visited <= visited' <= universe
      ensures res == Ok ==> b in visited'
      ensures res == Ok ==> forall x :: x in visited' - visited ==>
        State().Good(x, t) && registry.Dependents(x) <= visited' && Reaches(registry, b, x)
      ensures res.Err? ==> Reaches(registry, b, res.error.bundle) && !State().Good(res.error.bundle, t)
      ensures res.Err? ==> res.error.BundleNotFound? || res.error.WrongThread?
      decreases |universe - visited|
    {
      visited' := visited;
      if b in visited { return Ok, visited'; }
      ReachesSelf(registry, b);
      visited' := visited + {b};
      if !registry.Loaded(b) { return Err(BundleNotFound(b)), visited'; }
      if !State().AffinityHolds(b, t) { return Err(WrongThread(b)), visited'; }
      var rest := registry.Dependents(b);
      while rest != {}
        invariant visited + {b} <= visited' <= universe
        invariant rest <= registry.Dependents(b) <= visited' + rest
        invariant forall x :: x in visited' - visited ==> State().Good(x, t) && Reaches(registry, b, x)
        invariant forall x :: x in visited' - visited && x != b ==> registry.Dependents(x) <= visited'
        decreases rest
      {
        var d :| d in rest;
        ghost var before := visited';
        SmallerSet(universe - before, universe - visited) by { assert b in universe - visited; }
        res, visited' := EnsureAffinity(d, t, visited', universe);
        if res.Err? {
          ReachesThrough(registry, b, d, res.error.bundle);
          return;
        }
        forall x | x in visited' - before
          ensures Reaches(registry, b, x)
        {
          ReachesThrough(registry, b, d, x);
        }
        rest := rest - {d};
      }
      res := Ok;
    }

    /**
      The removing walk. Ghost state: `g` are the tables when the cascade began, `base`
      what was removed before it, `log` since then, `stack` the calls open above this one.
     */
    method CascadeWithVisited(b: Bundle, t: Thread, visited: set<Bundle>, ghost g: Tables, ghost base: seq<Bundle>,
                              ghost log: seq<Bundle>, ghost stack: seq<Bundle>, ghost universe: set<Bundle>)
      returns (res: Outcome, visited': set<Bundle>, ghost log': seq<Bundle>)
      requires visited <= universe && b in universe && g.registry.deps.Keys <= universe && removed == base + log
      requires Progress(g, loaderRefuses, (stack + [b])[0], State(), log, stack, visited)
      requires OpenWalk(g.registry, stack, b)
      modifies this
      ensures removed == base + log' && visited <= visited' <= universe
      ensures res == Ok ==> b in visited'
      ensures res == Ok ==> Progress(g, loaderRefuses, (stack + [b])[0], State(), log', stack, visited')
      ensures Removed(g, (stack + [b])[0], State(), log')
      ensures res.Err? ==> var x := res.error.bundle;
        Reaches(g.registry, (stack + [b])[0], x) && !(g.Good(x, t) && Removable(g, loaderRefuses, x))
      decreases |universe - visited|
    {
      ghost var root := (stack + [b])[0];
      visited', log' := visited, log;
      if b in visited { return Ok, visited', log'; }
      OpenWalkReaches(g.registry, stack, b);
      OpenOne(g, loaderRefuses, root, State(), log, stack, b, visited);
      visited' := visited + {b};
      if !registry.Loaded(b) { return Err(BundleNotFound(b)), visited', log'; }
      var rest := registry.Dependents(b);
      while rest != {}
        invariant visited + {b} <= visited' <= universe && removed == base + log'
        invariant rest <= g.registry.Dependents(b) <= visited' + rest
        invariant Progress(g, loaderRefuses, root, State(), log', stack + [b], visited')
        decreases rest
      {
        var d :| d in rest;
        ChildOpens(g.registry, stack, b, d);
        SmallerSet(universe - visited', universe - visited) by { assert b in universe - visited; }
        res, visited', log' := CascadeWithVisited(d, t, visited', g, base, log', stack + [b], universe);
        if res.Err? { return; }
        rest := rest - {d};
      }
      ReadyToRemove(g, loaderRefuses, root, State(), log', stack, b, visited', t);
      ghost var before := removed;
      res := UnloadRegistered(b, t);
      if removed != before { log' := log' + [b]; }
    }

    /**
      Cascade unload. A missing bundle or a foreign resident anywhere in the closure fails
      it with nothing changed; it succeeds exactly when every bundle of the closure can be
      removed, and then removes exactly the closure.
     */
    method UnloadBundleCascade(b: Bundle, t: Thread) returns (res: Outcome, ghost log: seq<Bundle>)
      modifies this
      ensures removed == old(removed) + log
      ensures Cascaded(old(State()), loaderRefuses, b, t, State(), log, res == Ok)
      ensures res == Ok ==> Clean(old(registry), b, Elements(log))
    {
      ghost var universe := registry.deps.Keys + {b};
      ghost var g := State();
      WithoutNone(g);
      log := [];
      var seen;
      res, seen := EnsureAffinity(b, t, {}, universe);
      if res.Err? {
        ReachedInClosure(registry, b, res.error.bundle);
        assert Removed(g, b, State(), []);
        return;
      }
      ClosureIsLeast(registry, b, seen);
      var visited;
      res, visited, log := CascadeWithVisited(b, t, {}, g, removed, [], [], universe);
      CascadeEnds(g, loaderRefuses, b, t, State(), log, res == Ok, visited, if res == Ok then b else res.error.bundle);
    }
  }

  // ------------------------------------------------------- a cycle

  /** Two bundles that depend on each other. */
  const CYCLE := Tables(Registry(map[0 := {0}, 1 := {1}], map[0 := {1}, 1 := {0}]), map[], {}, map[])

  lemma CycleFacts()
    ensures CYCLE.registry.Dependents(0) == {1} && CYCLE.registry.Dependents(1) == {0}
    ensures Closure(CYCLE.registry, 0) == {0, 1} && !AcyclicBelow(CYCLE.registry, 0)
  {
    var g := CYCLE.registry;
    assert 1 in g.Dependents(0) by { assert 0 in g.deps[1] * g.exports[0]; }
    assert 0 in g.Dependents(1) by { assert 1 in g.deps[0] * g.exports[1]; }
    ReachesSelf(g, 0);
    assert Chain(g, [0, 1]) && Chain(g, [0, 1, 0]);
    assert Reaches(g, 0, 1) by { assert [0, 1][1] == 1; }
    ClosureIsLeast(g, 0, {0, 1});
    assert [0, 1, 0][0] == [0, 1, 0][2];
  }

  /** Concretely: cascade unload of a cycle succeeds, and removes a bundle before its dependent. */
  method UnloadCycle(t: Thread) returns (res: Outcome, ghost log: seq<Bundle>)
    ensures res == Ok && Elements(log) == {0, 1}
    ensures exists i :: 0 <= i < |log| && !(CYCLE.registry.Dependents(log[i]) <= Elements(log[..i]))
  {
    var runtime := new Runtime(CYCLE, {});
    CycleFacts();
    res, log := runtime.UnloadBundleCascade(0, t);
    assert !DependentsFirst(CYCLE.registry, log);
  }

  // ------------------------------------------------------- a provider and its consumer

  lemma LoneLog(log: seq<Bundle>, m: Bundle)
    requires Elements(log) == {m} && Distinct(log)
    ensures log == [m]
  {
    assert m in Elements(log);
    forall i | 0 <= i < |log|
      ensures log[i] == m && i == 0
    {
      assert log[i] in Elements(log) && log[0] in Elements(log);
    }
    assert log[|log| - 1] == m;
  }

  /** Bundle 0 exports contract 7, which bundle 1 declared. */
  const PAIR := Tables(Registry(map[0 := {7}, 1 := {}], map[0 := {}, 1 := {7}]), map[], {}, map[])

  lemma PairFacts()
    ensures Closure(PAIR.registry, 0) == {0, 1} && Closure(PAIR.registry, 1) == {1}
    ensures AcyclicBelow(PAIR.registry, 0)
  {
    var g := PAIR.registry;
    ClosureIsClean(g, 0);
    ClosureIsClean(g, 1);
    assert 1 in Closure(g, 0) by { assert 7 in g.exports[0] && 7 in g.deps[1]; }
    DependentsFirstOnlyIfAcyclic(g, 0, [1, 0]);
  }

  lemma PairOrder(log: seq<Bundle>)
    requires Distinct(log) && Elements(log) == {0, 1} && DependentsFirst(PAIR.registry, log)
    ensures log == [1, 0]
  {
    assert 1 in PAIR.registry.Dependents(0) by { assert 7 in PAIR.registry.deps[1] * PAIR.registry.exports[0]; }
    assert 0 in Elements(log) && 1 in Elements(log);
    var i :| 0 <= i < |log| && log[i] == 0;
    assert 1 in Elements(log[..i]);
    var j :| 0 <= j < i && log[..i][j] == 1;
    assert log[j] == 1;
    assert log[0] in Elements(log) && log[1] in Elements(log) && log[|log| - 1] in Elements(log);
    assert j == 0 && i == 1;
  }

  /** Concretely: a loaded bundle that declared the contract holds its provider, and goes first in a cascade. */
  method UnloadProvider(t: Thread) returns (direct: Outcome, removed: seq<Bundle>)
    ensures direct == Err(DependencyInUse(0)) && removed == [1, 0]
  {
    var runtime := new Runtime(PAIR, {});
    PairFacts();
    assert 7 in PAIR.registry.deps[1] && 7 in PAIR.registry.exports[0];
    direct := runtime.UnloadBundle(0, t);
    var cascade;
    ghost var log;
    cascade, log := runtime.UnloadBundleCascade(0, t);
    PairOrder(log);
    removed := runtime.removed;
  }

  /** Concretely: the consumer goes alone, directly and in a cascade. */
  method UnloadConsumer(t: Thread) returns (direct: Outcome, removed: seq<Bundle>)
    ensures direct == Ok && removed == [1]
  {
    var first := new Runtime(PAIR, {});
    direct := first.UnloadBundle(1, t);
    var runtime := new Runtime(PAIR, {});
    PairFacts();
    var cascade;
    ghost var log;
    cascade, log := runtime.UnloadBundleCascade(1, t);
    LoneLog(log, 1);
    removed := runtime.removed;
  }
}
