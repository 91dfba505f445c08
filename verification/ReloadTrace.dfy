/**
  Derivations of a cascading reload. A call is a tree: where it stopped, or, once the
  swap committed, the dependents it then considered in name order. The theorems are
  about every tree that follows the rules, whatever the graph and whatever fails.

  A bundle is named by its rank in name order. A manifest on disk keeps its bundle name.
 */
module ReloadTrace {
  import opened DependencyGraph

  /** What a committed reload installs: exported contracts, declared dependencies, the cascade opt-in. */
  datatype Version = Version(exports: set<Contract>, deps: set<Contract>, reinit: bool)

  /** The registry and the cached manifests, reduced to their opt-in flag. */
  datatype Catalog = Catalog(registry: Registry, manifests: map<Bundle, bool>)
  {
    function Install(b: Bundle, v: Version): Catalog {
      Catalog(Registry(registry.exports[b := v.exports], registry.deps[b := v.deps]), manifests[b := v.reinit])
    }

    /** Dependents of `b` that asked to be re-initialised when a dependency reloads. */
    function Candidates(b: Bundle): set<Bundle> {
      set d | d in registry.Dependents(b) && d in manifests && manifests[d]
    }
  }

  datatype Event = Preparing(b: Bundle) | Failed(b: Bundle) | Reloaded(b: Bundle)

  datatype Tree =
    | Silent(b: Bundle)
    | Refused(b: Bundle)
    | Broken(b: Bundle)
    | Done(b: Bundle, version: Version, kids: Kids)

  /** The dependents a reload considered so far. */
  datatype Kids = Start | Then(early: Kids, last: Kid)

  datatype Kid = Skipped(bundle: Bundle) | Attempted(tree: Tree)
  {
    function Name(): Bundle { if Skipped? then bundle else tree.b }
  }

  predicate IsLeast(s: set<Bundle>, m: Bundle) { m in s && forall x :: x in s ==> m <= x }

  lemma {:induction false} HasLeast(s: set<Bundle>)
    requires s != {}
    ensures exists m :: IsLeast(s, m)
  {
    var y :| y in s;
    var rest := s - {y};
    if rest == {} {
      assert s == {y} && IsLeast(s, y);
    } else {
      HasLeast(rest);
      var m :| IsLeast(rest, m);
      assert s == rest + {y};
      assert IsLeast(s, if y < m then y else m);
    }
  }

  predicate Rising(r: seq<Bundle>) { forall i, j :: 0 <= i < j < |r| ==> r[i] < r[j] }

  /** The members of `s`, least first. */
  function Ascending(s: set<Bundle>): (r: seq<Bundle>)
    ensures (forall x :: x in s <==> x in r) && Rising(r)
  {
    if s == {} then [] else
      HasLeast(s);
      var m :| IsLeast(s, m);
      [m] + Ascending(s - {m})
  }

  // --------------------------------------------------------- what a tree says

  /** The callbacks a call fires, in order. */
  ghost function Events(t: Tree): seq<Event>
    decreases t
  {
    match t
    case Silent(_) => []
    case Refused(b) => [Failed(b)]
    case Broken(b) => [Preparing(b), Failed(b)]
    case Done(b, _, kids) => [Preparing(b)] + KidEvents(kids) + [Reloaded(b)]
  }

  ghost function KidEvents(kids: Kids): seq<Event>
    decreases kids
  {
    if kids.Start? then [] else
      KidEvents(kids.early) + match kids.last case Skipped(_) => [] case Attempted(t) => Events(t)
  }

  /** The bundles whose swap committed. */
  ghost function Swaps(t: Tree): set<Bundle>
    decreases t
  {
    if t.Done? then {t.b} + KidSwaps(t.kids) else {}
  }

  ghost function KidSwaps(kids: Kids): set<Bundle>
    decreases kids
  {
    if kids.Start? then {} else
      KidSwaps(kids.early) + match kids.last case Skipped(_) => {} case Attempted(t) => Swaps(t)
  }

  /** The catalog a call leaves behind. */
  ghost function Final(t: Tree, c: Catalog): Catalog
    decreases t
  {
    if t.Done? then KidFinal(t.kids, c.Install(t.b, t.version)) else c
  }

  ghost function KidFinal(kids: Kids, c: Catalog): Catalog
    decreases kids
  {
    if kids.Start? then c else
      var c1 := KidFinal(kids.early, c);
      match kids.last case Skipped(_) => c1 case Attempted(t) => Final(t, c1)
  }

  /** A legal call: dependents are considered in name order, and skipped exactly when already swapped. */
  ghost predicate Follows(t: Tree, c: Catalog, seen: set<Bundle>)
    decreases t
  {
    t.b !in seen &&
    (t.Done? ==>
       && KidsFollow(t.kids, c.Install(t.b, t.version), seen + {t.b})
       && Names(t.kids) == Ascending(c.Install(t.b, t.version).Candidates(t.b)))
  }

  ghost predicate KidsFollow(kids: Kids, c: Catalog, seen: set<Bundle>)
    decreases kids
  {
    kids.Start? || (
      && KidsFollow(kids.early, c, seen)
      && match kids.last
         case Skipped(x) => x in seen + KidSwaps(kids.early)
         case Attempted(t) => Follows(t, KidFinal(kids.early, c), seen + KidSwaps(kids.early)))
  }

  ghost function Names(kids: Kids): seq<Bundle> {
    if kids.Start? then [] else Names(kids.early) + [kids.last.Name()]
  }

  /** `k` is one of the dependents considered. */
  ghost predicate Has(kids: Kids, k: Kid) {
    kids.Then? && (kids.last == k || Has(kids.early, k))
  }

  /** How one attempt at a bundle ends. */
  datatype Verdict = Quiet | Reject | Break | Commit(version: Version)

  ghost function VerdictIn(t: Tree): Verdict {
    match t
    case Silent(_) => Quiet
    case Refused(_) => Reject
    case Broken(_) => Break
    case Done(_, v, _) => Commit(v)
  }

  /** How many attempts a call makes, its own included. */
  ghost function Tries(t: Tree): nat
    decreases t
  {
    1 + if t.Done? then KidTries(t.kids) else 0
  }

  ghost function KidTries(kids: Kids): nat
    decreases kids
  {
    if kids.Start? then 0 else
      KidTries(kids.early) + match kids.last case Skipped(_) => 0 case Attempted(t) => Tries(t)
  }

  /** Every attempt of the call, the first of which is number `n`, ended as `ends` says. */
  ghost predicate Honest(t: Tree, n: nat, ends: (Bundle, nat) -> Verdict)
    decreases t
  {
    VerdictIn(t) == ends(t.b, n) && (t.Done? ==> KidsHonest(t.kids, n + 1, ends))
  }

  ghost predicate KidsHonest(kids: Kids, n: nat, ends: (Bundle, nat) -> Verdict)
    decreases kids
  {
    kids.Start? || (
      && KidsHonest(kids.early, n, ends)
      && (kids.last.Attempted? ==> Honest(kids.last.tree, n + KidTries(kids.early), ends)))
  }

  /** The rules and the outcomes of the attempts determine the whole call. */
  lemma {:induction false} CallIsDetermined(t: Tree, u: Tree, c: Catalog, seen: set<Bundle>, n: nat,
      ends: (Bundle, nat) -> Verdict)
    requires t.b == u.b && Follows(t, c, seen) && Follows(u, c, seen) && Honest(t, n, ends) && Honest(u, n, ends)
    ensures t == u
    decreases t
  {
    if t.Done? {
      KidsAreDetermined(t.kids, u.kids, c.Install(t.b, t.version), seen + {t.b}, n + 1, ends);
    }
  }

  lemma {:induction false} KidsAreDetermined(k: Kids, l: Kids, c: Catalog, seen: set<Bundle>, n: nat,
      ends: (Bundle, nat) -> Verdict)
    requires Names(k) == Names(l) && KidsFollow(k, c, seen) && KidsFollow(l, c, seen) && KidsHonest(k, n, ends)
    requires KidsHonest(l, n, ends)
    ensures k == l
    decreases k
  {
    if k.Then? {
      assert l.Then?;
      var a, b := Names(k), Names(l);
      assert a[|a| - 1] == k.last.Name() && b[|b| - 1] == l.last.Name();
      assert a[..|a| - 1] == Names(k.early) && b[..|b| - 1] == Names(l.early);
      KidsAreDetermined(k.early, l.early, c, seen, n, ends);
      if k.last.Attempted? && l.last.Attempted? {
        CallIsDetermined(k.last.tree, l.last.tree, KidFinal(k.early, c), seen + KidSwaps(k.early),
          n + KidTries(k.early), ends);
      }
    }
  }

  // ------------------------------------------------------- each bundle once

  lemma {:induction false} SwapsAreNew(t: Tree, c: Catalog, seen: set<Bundle>)
    requires Follows(t, c, seen)
    ensures Swaps(t) !! seen
    decreases t
  {
    if t.Done? { KidSwapsAreNew(t.kids, c.Install(t.b, t.version), seen + {t.b}); }
  }

  lemma {:induction false} KidSwapsAreNew(kids: Kids, c: Catalog, seen: set<Bundle>)
    requires KidsFollow(kids, c, seen)
    ensures KidSwaps(kids) !! seen
    decreases kids
  {
    if kids.Then? {
      KidSwapsAreNew(kids.early, c, seen);
      if kids.last.Attempted? {
        SwapsAreNew(kids.last.tree, KidFinal(kids.early, c), seen + KidSwaps(kids.early));
      }
    }
  }

  function Count(events: seq<Event>, e: Event): nat {
    if events == [] then 0 else (if events[0] == e then 1 else 0) + Count(events[1..], e)
  }

  lemma {:induction false} CountConcat(a: seq<Event>, b: seq<Event>, e: Event)
    ensures Count(a + b, e) == Count(a, e) + Count(b, e)
  {
    if a == [] {
      assert a + b == b;
    } else {
      CountConcat(a[1..], b, e);
      assert (a + b)[1..] == a[1..] + b;
    }
  }

  /** A call reports each bundle it swapped as reloaded exactly once, and no other. */
  lemma {:induction false} ReloadedOnce(t: Tree, c: Catalog, seen: set<Bundle>, x: Bundle)
    requires Follows(t, c, seen)
    ensures Count(Events(t), Reloaded(x)) == if x in Swaps(t) then 1 else 0
    decreases t
  {
    if t.Done? {
      var c1 := c.Install(t.b, t.version);
      KidsReloadedOnce(t.kids, c1, seen + {t.b}, x);
      KidSwapsAreNew(t.kids, c1, seen + {t.b});
      CountConcat([Preparing(t.b)], KidEvents(t.kids), Reloaded(x));
      CountConcat([Preparing(t.b)] + KidEvents(t.kids), [Reloaded(t.b)], Reloaded(x));
      assert Count([Preparing(t.b)], Reloaded(x)) == 0;
      assert Count([Reloaded(t.b)], Reloaded(x)) == if t.b == x then 1 else 0;
    } else if t.Broken? {
      assert Events(t)[1..] == [Failed(t.b)];
      assert Count([Failed(t.b)], Reloaded(x)) == 0;
    }
  }

  lemma {:induction false} KidsReloadedOnce(kids: Kids, c: Catalog, seen: set<Bundle>, x: Bundle)
    requires KidsFollow(kids, c, seen)
    ensures Count(KidEvents(kids), Reloaded(x)) == if x in KidSwaps(kids) then 1 else 0
    decreases kids
  {
    if kids.Then? {
      var early := kids.early;
      KidsReloadedOnce(early, c, seen, x);
      if kids.last.Attempted? {
        var t, c1, now := kids.last.tree, KidFinal(early, c), seen + KidSwaps(early);
        ReloadedOnce(t, c1, now, x);
        SwapsAreNew(t, c1, now);
        CountConcat(KidEvents(early), Events(t), Reloaded(x));
      } else {
        assert KidEvents(kids) == KidEvents(early);
      }
    }
  }

  // ------------------------------------------------------------- nesting

  /** Brackets still open, innermost last; `just` means nothing was reported since the innermost opened. */
  datatype Nest = Nest(open: seq<Bundle>, just: bool) | Ill

  /** One callback seen by an observer that knows nothing of the cascade. */
  function Observe(n: Nest, e: Event): Nest {
    if n.Ill? then Ill else
      match e
      case Preparing(b) => if b in n.open then Ill else Nest(n.open + [b], true)
      case Reloaded(b) =>
        if n.open != [] && n.open[|n.open| - 1] == b then Nest(n.open[..|n.open| - 1], false) else Ill
      case Failed(b) =>
        if n.just && n.open != [] && n.open[|n.open| - 1] == b then Nest(n.open[..|n.open| - 1], false)
        else if b in n.open then Ill else Nest(n.open, false)
  }

  function ObserveAll(n: Nest, events: seq<Event>): Nest
    decreases |events|
  {
    if events == [] then n else ObserveAll(Observe(n, events[0]), events[1..])
  }

  lemma {:induction false} ObserveConcat(n: Nest, a: seq<Event>, b: seq<Event>)
    ensures ObserveAll(n, a + b) == ObserveAll(ObserveAll(n, a), b)
    decreases |a|
  {
    if a == [] {
      assert a + b == b;
    } else {
      ObserveConcat(Observe(n, a[0]), a[1..], b);
      assert (a + b)[1..] == a[1..] + b && (a + b)[0] == a[0];
    }
  }

  function Settled(open: seq<Bundle>, just: bool, events: seq<Event>): Nest { Nest(open, just && events == []) }

  /**
    A whole call is well nested inside any open brackets: it closes what it opens, in
    order, and no bundle with an open bracket is reported again inside it.
   */
  lemma {:induction false} WellNested(t: Tree, c: Catalog, seen: set<Bundle>, open: seq<Bundle>, just: bool)
    requires Follows(t, c, seen) && forall x :: x in open ==> x in seen
    ensures ObserveAll(Nest(open, just), Events(t)) == Settled(open, just, Events(t))
    decreases t
  {
    match t
    case Silent(_) =>
    case Refused(b) =>
      assert ObserveAll(Nest(open, just), [Failed(b)]) == ObserveAll(Nest(open, false), []);
    case Broken(b) =>
      var inner := Nest(open + [b], true);
      assert (open + [b])[..|open|] == open;
      assert Observe(inner, Failed(b)) == Nest(open, false);
      assert [Preparing(b), Failed(b)][1..] == [Failed(b)];
      assert ObserveAll(inner, [Failed(b)]) == ObserveAll(Nest(open, false), []);
    case Done(b, v, kids) =>
      var mid := KidEvents(kids);
      KidsWellNested(kids, c.Install(b, v), seen + {b}, open + [b], true);
      ObserveConcat(Nest(open, just), [Preparing(b)] + mid, [Reloaded(b)]);
      ObserveConcat(Nest(open, just), [Preparing(b)], mid);
      assert ObserveAll(Nest(open, just), [Preparing(b)]) == ObserveAll(Nest(open + [b], true), []);
      assert (open + [b])[..|open|] == open;
      assert ObserveAll(Settled(open + [b], true, mid), [Reloaded(b)]) == ObserveAll(Nest(open, false), []);
  }

  lemma {:induction false} KidsWellNested(kids: Kids, c: Catalog, seen: set<Bundle>, open: seq<Bundle>, just: bool)
    requires KidsFollow(kids, c, seen) && forall x :: x in open ==> x in seen
    ensures ObserveAll(Nest(open, just), KidEvents(kids)) == Settled(open, just, KidEvents(kids))
    decreases kids
  {
    if kids.Then? {
      var early := kids.early;
      KidsWellNested(early, c, seen, open, just);
      if kids.last.Attempted? {
        var t := kids.last.tree;
        var mid := Settled(open, just, KidEvents(early));
        WellNested(t, KidFinal(early, c), seen + KidSwaps(early), open, mid.just);
        ObserveConcat(Nest(open, just), KidEvents(early), Events(t));
      } else {
        assert KidEvents(kids) == KidEvents(early);
      }
    }
  }

  /** A call is a success exactly when its last callback reports its own bundle reloaded. */
  lemma OkIsTheLastForm(t: Tree)
    ensures t.Done? <==> |Events(t)| > 0 && Events(t)[|Events(t)| - 1] == Reloaded(t.b)
    ensures t.Done? ==> Events(t)[0] == Preparing(t.b)
    ensures !t.Done? ==> Events(t) in {[], [Failed(t.b)], [Preparing(t.b), Failed(t.b)]}
  {
  }

  // ------------------------------------------------------------- coverage

  /** `n` is a call made somewhere below `t`, or `t` itself. */
  ghost predicate Within(n: Tree, t: Tree)
    decreases t
  {
    n == t || (t.Done? && WithinKids(n, t.kids))
  }

  ghost predicate WithinKids(n: Tree, kids: Kids)
    decreases kids
  {
    kids.Then? && (WithinKids(n, kids.early) || (kids.last.Attempted? && Within(n, kids.last.tree)))
  }

  /**
    Every call below a legal call is itself legal, from a set of already reloaded bundles
    that lies between the start's and the end's.
   */
  lemma {:induction false} NestedFollows(n: Tree, t: Tree, c: Catalog, seen: set<Bundle>)
      returns (c1: Catalog, now: set<Bundle>)
    requires Follows(t, c, seen) && Within(n, t)
    ensures Follows(n, c1, now) && seen <= now && now + Swaps(n) <= seen + Swaps(t)
    decreases t
  {
    if n == t {
      c1, now := c, seen;
    } else {
      c1, now := NestedKidFollows(n, t.kids, c.Install(t.b, t.version), seen + {t.b});
    }
  }

  lemma {:induction false} NestedKidFollows(n: Tree, kids: Kids, c: Catalog, seen: set<Bundle>)
      returns (c1: Catalog, now: set<Bundle>)
    requires KidsFollow(kids, c, seen) && WithinKids(n, kids)
    ensures Follows(n, c1, now) && seen <= now && now + Swaps(n) <= seen + KidSwaps(kids)
    decreases kids
  {
    if WithinKids(n, kids.early) {
      c1, now := NestedKidFollows(n, kids.early, c, seen);
    } else {
      c1, now := NestedFollows(n, kids.last.tree, KidFinal(kids.early, c), seen + KidSwaps(kids.early));
    }
  }

  /** A considered dependent was attempted, or was already swapped. */
  lemma {:induction false} ConsideredIsTreated(kids: Kids, c: Catalog, seen: set<Bundle>, d: Bundle) returns (k: Kid)
    requires KidsFollow(kids, c, seen) && d in Names(kids)
    ensures Has(kids, k) && k.Name() == d
    ensures k.Skipped? ==> d in seen + KidSwaps(kids)
  {
    if kids.last.Name() == d {
      k := kids.last;
    } else {
      k := ConsideredIsTreated(kids.early, c, seen, d);
    }
  }

  /**
    Another bundle whose cached manifest asks for re-initialisation and which declared a
    contract that `b` exports.
   */
  ghost predicate Asks(c: Catalog, b: Bundle, d: Bundle) {
    && d != b && d in c.manifests && c.manifests[d] && d in c.registry.deps && b in c.registry.exports
    && exists k :: k in c.registry.deps[d] && k in c.registry.exports[b]
  }

  /** The candidates of a cascade are the bundles that ask. */
  lemma CandidatesAsk(c: Catalog, b: Bundle)
    ensures forall d :: d in c.Candidates(b) <==> Asks(c, b, d)
  {
    DependentsMeans(c.registry, b);
  }

  /** The call `n` attempted `d` as a dependent. */
  ghost predicate Attempts(n: Tree, d: Bundle) {
    n.Done? && exists k :: Has(n.kids, k) && k.Attempted? && k.Name() == d
  }

  /**
    Of every bundle reloaded in a top-level call, every bundle that asks, by the catalog right
    after its swap, is attempted by that reload, or was itself swapped in the same call, in which
    case it is reported reloaded exactly once.
   */
  lemma DependentsAreAttempted(n: Tree, t: Tree, c: Catalog) returns (base: Catalog, now: set<Bundle>)
    requires Follows(t, c, {}) && Within(n, t) && n.Done?
    ensures Follows(n, base, now) && (n == t ==> base == c)
    ensures forall d :: Asks(base.Install(n.b, n.version), n.b, d) ==>
      Attempts(n, d) || Count(Events(t), Reloaded(d)) == 1
  {
    if n == t { base, now := c, {}; } else { base, now := NestedFollows(n, t, c, {}); }
    var after := base.Install(n.b, n.version);
    CandidatesAsk(after, n.b);
    if n == t { assert now + Swaps(n) <= Swaps(t); }
    forall d | Asks(after, n.b, d)
      ensures Attempts(n, d) || Count(Events(t), Reloaded(d)) == 1
    {
      var k := ConsideredIsTreated(n.kids, after, now + {n.b}, d);
      ReloadedOnce(t, c, {}, d);
    }
  }

  /** The bundle's cached manifest does not ask for re-initialisation, or there is none. */
  predicate Declines(c: Catalog, d: Bundle) { d !in c.manifests || !c.manifests[d] }

  /** A bundle that declines appears in no call that did not start at it. */
  lemma {:induction false} DeclinerIsLeftAlone(t: Tree, c: Catalog, seen: set<Bundle>, d: Bundle)
    requires Follows(t, c, seen) && d != t.b && Declines(c, d)
    ensures d !in Swaps(t) && forall e :: e in Events(t) ==> e.b != d
    decreases t
  {
    if t.Done? {
      var after := c.Install(t.b, t.version);
      CandidatesAsk(after, t.b);
      KidsLeaveDecliner(t.kids, after, seen + {t.b}, d);
    }
  }

  lemma {:induction false} KidsLeaveDecliner(kids: Kids, c: Catalog, seen: set<Bundle>, d: Bundle)
    requires KidsFollow(kids, c, seen) && Declines(c, d) && d !in Names(kids)
    ensures d !in KidSwaps(kids) && forall e :: e in KidEvents(kids) ==> e.b != d
    decreases kids
  {
    if kids.Then? {
      KidsLeaveDecliner(kids.early, c, seen, d);
      if kids.last.Attempted? {
        KidsKeepVersions(kids.early, c, d);
        assert kids.last.Name() in Names(kids);
        DeclinerIsLeftAlone(kids.last.tree, KidFinal(kids.early, c), seen + KidSwaps(kids.early), d);
      }
    }
  }

  // ------------------------------------------------------------- frame

  predicate AgreeAt(c: Catalog, d: Catalog, x: Bundle) {
    && (x in c.registry.exports <==> x in d.registry.exports) &&
         (x in c.registry.exports ==> c.registry.exports[x] == d.registry.exports[x])
    && (x in c.registry.deps <==> x in d.registry.deps) &&
         (x in c.registry.deps ==> c.registry.deps[x] == d.registry.deps[x])
    && (x in c.manifests <==> x in d.manifests) && (x in c.manifests ==> c.manifests[x] == d.manifests[x])
  }

  /** A call changes the registry and the manifest cache for the bundles it swapped only. */
  lemma {:induction false} OthersKeepTheirVersion(t: Tree, c: Catalog, x: Bundle)
    requires x !in Swaps(t)
    ensures AgreeAt(c, Final(t, c), x)
    decreases t
  {
    if t.Done? { KidsKeepVersions(t.kids, c.Install(t.b, t.version), x); }
  }

  lemma {:induction false} KidsKeepVersions(kids: Kids, c: Catalog, x: Bundle)
    requires x !in KidSwaps(kids)
    ensures AgreeAt(c, KidFinal(kids, c), x)
    decreases kids
  {
    if kids.Then? {
      KidsKeepVersions(kids.early, c, x);
      if kids.last.Attempted? { OthersKeepTheirVersion(kids.last.tree, KidFinal(kids.early, c), x); }
    }
  }
}
