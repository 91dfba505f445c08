/**
  Hot reload of a bundle and the cascade to its opted-in dependents, as the runtime
  performs it: one attempt at a time, with a growing visited set, a callback at each
  stage, and a failed dependent that is logged and passed over.

  `disk` says what attempt number `k` at a bundle meets: what is on disk, which loader
  answers, and how init and swap end. Nothing else loads or unloads bundles meanwhile,
  and callbacks do not start reloads of their own.
 */
module ReloadCascade {
  import opened DependencyGraph
  import opened ReloadTrace

  /** What one attempt at a bundle meets, in the order the runtime looks. */
  datatype Disk = Disk(
    parses: bool,
    valid: bool,
    loader: bool,
    reloadable: bool,
    present: bool,
    versionOk: bool,
    inits: bool,
    swaps: bool,
    version: Version)

  /** The attempt gets as far as the swap and the swap commits. */
  predicate Commits(d: Disk) {
    d.parses && d.valid && d.loader && d.reloadable && d.present && d.versionOk && d.inits && d.swaps
  }

  /** How an attempt that meets `d` ends: the first check that fails decides. */
  function VerdictOf(enabled: bool, d: Disk): Verdict {
    if !enabled || !d.parses then Quiet
    else if !d.valid then Reject
    else if !d.loader || !d.reloadable then Quiet
    else if !d.present then Reject
    else if !d.versionOk then Quiet
    else if !d.inits || !d.swaps then Break
    else Commit(d.version)
  }

  /**
    Which failures the host hears of: none if the manifest cannot be read, no loader takes it or
    its version does not parse; a failure alone if it is invalid or its files are gone; a
    failure after a preparing callback if init or swap fail.
   */
  lemma VerdictMeans(enabled: bool, d: Disk)
    ensures VerdictOf(enabled, d) == Quiet <==>
      !enabled || !d.parses || (d.valid && !(d.loader && d.reloadable && (!d.present || d.versionOk)))
    ensures VerdictOf(enabled, d) == Reject <==>
      enabled && d.parses && (d.valid ==> d.loader && d.reloadable && !d.present)
    ensures VerdictOf(enabled, d) == Break <==>
      && enabled && d.parses && d.valid && d.loader && d.reloadable && d.present && d.versionOk
      && !(d.inits && d.swaps)
    ensures VerdictOf(enabled, d) == Commit(d.version) <==>
      && enabled && d.parses && d.valid && d.loader && d.reloadable && d.present && d.versionOk
      && d.inits && d.swaps
  {
  }

  /** The call that derivation `t` describes took catalog, trace and visited set from one state to the other. */
  ghost predicate Ran(t: Tree, b: Bundle, from: State, to: State, ends: (Bundle, nat) -> Verdict) {
    && t.b == b && Follows(t, from.catalog, from.visited) && Honest(t, from.attempts, ends)
    && to == State(Final(t, from.catalog), from.trace + Events(t), from.visited + Swaps(t), from.attempts + Tries(t))
  }

  ghost predicate KidsRan(kids: Kids, names: seq<Bundle>, from: State, to: State, ends: (Bundle, nat) -> Verdict) {
    && KidsFollow(kids, from.catalog, from.visited) && Names(kids) == names && KidsHonest(kids, from.attempts, ends)
    && to == State(KidFinal(kids, from.catalog), from.trace + KidEvents(kids), from.visited + KidSwaps(kids),
         from.attempts + KidTries(kids))
  }

  /** What a reload reads and changes, as a value. */
  datatype State = State(catalog: Catalog, trace: seq<Event>, visited: set<Bundle>, attempts: nat)

  lemma RanSilent(b: Bundle, from: State, ends: (Bundle, nat) -> Verdict)
    requires b !in from.visited && ends(b, from.attempts) == Quiet
    ensures Ran(Silent(b), b, from, from.(attempts := from.attempts + 1), ends)
  {
    assert from.trace + [] == from.trace && from.visited + {} == from.visited;
  }

  lemma RanRefused(b: Bundle, from: State, ends: (Bundle, nat) -> Verdict)
    requires b !in from.visited && ends(b, from.attempts) == Reject
    ensures Ran(Refused(b), b, from, from.(trace := from.trace + [Failed(b)], attempts := from.attempts + 1), ends)
  {
    assert from.visited + {} == from.visited;
  }

  lemma RanBroken(b: Bundle, from: State, ends: (Bundle, nat) -> Verdict)
    requires b !in from.visited && ends(b, from.attempts) == Break
    ensures Ran(Broken(b), b, from,
      from.(trace := from.trace + [Preparing(b)] + [Failed(b)], attempts := from.attempts + 1), ends)
  {
    assert from.visited + {} == from.visited;
    assert from.trace + [Preparing(b)] + [Failed(b)] == from.trace + [Preparing(b), Failed(b)];
  }

  /** The state right after the swap of `b` committed. */
  function Committed(from: State, b: Bundle, v: Version): State {
    State(from.catalog.Install(b, v), from.trace + [Preparing(b)], from.visited + {b}, from.attempts + 1)
  }

  lemma RanDone(b: Bundle, v: Version, kids: Kids, from: State, mid: State, ends: (Bundle, nat) -> Verdict)
    requires b !in from.visited && ends(b, from.attempts) == Commit(v)
    requires KidsRan(kids, Ascending(from.catalog.Install(b, v).Candidates(b)), Committed(from, b, v), mid, ends)
    ensures Ran(Done(b, v, kids), b, from, mid.(trace := mid.trace + [Reloaded(b)]), ends)
  {
    var t := Done(b, v, kids);
    AssociateEvents(from.trace, [Preparing(b)], KidEvents(kids));
    AssociateEvents(from.trace, [Preparing(b)] + KidEvents(kids), [Reloaded(b)]);
    AssociateSets(from.visited, {b}, KidSwaps(kids));
    assert Events(t) == [Preparing(b)] + KidEvents(kids) + [Reloaded(b)] && Swaps(t) == {b} + KidSwaps(kids);
  }

  lemma KidsRanStart(from: State, ends: (Bundle, nat) -> Verdict)
    ensures KidsRan(Start, [], from, from, ends)
  {
    assert from.trace + [] == from.trace && from.visited + {} == from.visited;
  }

  lemma KidsRanSkip(kids: Kids, names: seq<Bundle>, d: Bundle, from: State, to: State, ends: (Bundle, nat) -> Verdict)
    requires KidsRan(kids, names, from, to, ends) && d in to.visited
    ensures KidsRan(Then(kids, Skipped(d)), names + [d], from, to, ends)
  {
    assert KidEvents(kids) + [] == KidEvents(kids) && KidSwaps(kids) + {} == KidSwaps(kids);
  }

  lemma KidsRanAttempt(kids: Kids, names: seq<Bundle>, d: Bundle, t: Tree, from: State, mid: State, to: State,
      ends: (Bundle, nat) -> Verdict)
    requires KidsRan(kids, names, from, mid, ends) && Ran(t, d, mid, to, ends)
    ensures KidsRan(Then(kids, Attempted(t)), names + [d], from, to, ends)
  {
    var more := Then(kids, Attempted(t));
    AssociateEvents(from.trace, KidEvents(kids), Events(t));
    AssociateSets(from.visited, KidSwaps(kids), Swaps(t));
    assert KidEvents(more) == KidEvents(kids) + Events(t) && KidSwaps(more) == KidSwaps(kids) + Swaps(t);
    assert Names(more) == names + [d];
    assert KidsFollow(more, from.catalog, from.visited) && KidsHonest(more, from.attempts, ends);
  }

  lemma AssociateEvents(a: seq<Event>, b: seq<Event>, c: seq<Event>)
    ensures a + b + c == a + (b + c)
  {
  }

  lemma AssociateSets(a: set<Bundle>, b: set<Bundle>, c: set<Bundle>)
    ensures a + b + c == a + (b + c)
  {
  }

  lemma Shrinks(a: set<Bundle>, b: set<Bundle>)
    requires a <= b
    ensures |a| <= |b| && (a < b ==> |a| < |b|)
  {
    assert b == a + (b - a);
  }

  /** The cached manifest of `d` asks for re-initialisation, and it declared one of these contracts. */
  ghost predicate Entitled(c: Catalog, exports: set<Contract>, d: Bundle) {
    d in c.manifests && c.manifests[d] && d in c.registry.deps && exists k :: k in c.registry.deps[d] && k in exports
  }

  /** What the top-level call owes those who ask, in terms of the catalog it started from. */
  lemma AskersAreTreated(t: Tree, c: Catalog)
    requires Follows(t, c, {})
    ensures t.Done? ==> forall d :: d != t.b && Entitled(c, t.version.exports, d) ==>
      Attempts(t, d) || Count(Events(t), Reloaded(d)) == 1
  {
    if t.Done? {
      var base, now := DependentsAreAttempted(t, t, c);
      forall d | d != t.b && Entitled(c, t.version.exports, d)
        ensures Attempts(t, d) || Count(Events(t), Reloaded(d)) == 1
      {
        assert Asks(c.Install(t.b, t.version), t.b, d);
      }
    }
  }

  /** After a successful call its bundle is at the version that the call installed. */
  lemma VersionIsInstalled(t: Tree, c: Catalog)
    requires Follows(t, c, {}) && t.Done?
    ensures var g := Final(t, c);
      && t.b in g.registry.exports && g.registry.exports[t.b] == t.version.exports
      && t.b in g.registry.deps && g.registry.deps[t.b] == t.version.deps
      && t.b in g.manifests && g.manifests[t.b] == t.version.reinit
  {
    var after := c.Install(t.b, t.version);
    assert {} + {t.b} == {t.b};
    KidSwapsAreNew(t.kids, after, {t.b});
    KidsKeepVersions(t.kids, after, t.b);
  }

  class Reloader {
    const enabled: bool
    const disk: (Bundle, nat) -> Disk
    var catalog: Catalog
    var attempts: nat
    /** The callbacks fired so far. */
    var trace: seq<Event>

    constructor (enabled: bool, disk: (Bundle, nat) -> Disk, catalog: Catalog)
      ensures this.enabled == enabled && this.disk == disk && this.catalog == catalog && trace == []
    {
      this.enabled, this.disk, this.catalog := enabled, disk, catalog;
      attempts, trace := 0, [];
    }

    ghost function Now(visited: set<Bundle>): State
      reads this
    {
      State(catalog, trace, visited, attempts)
    }

    /** How attempt `n` at a bundle ends. */
    ghost function Ends(): (Bundle, nat) -> Verdict {
      (b: Bundle, n: nat) => VerdictOf(enabled, disk(b, n))
    }

    /**
      A top-level reload. It succeeds exactly when its own attempt commits, whatever its
      dependents do. Its derivation is the one legal derivation that the outcomes of the
      attempts allow; it fires that derivation's callbacks and leaves its catalog.
     */
    method ReloadBundle(b: Bundle) returns (ok: bool, ghost t: Tree)
      modifies this
      ensures ok <==> enabled && Commits(disk(b, old(attempts)))
      ensures ok <==> t.Done?
      ensures t.b == b && Follows(t, old(catalog), {}) && Honest(t, old(attempts), Ends())
      ensures forall u: Tree :: u.b == b && Follows(u, old(catalog), {}) && Honest(u, old(attempts), Ends()) ==> u == t
      ensures trace == old(trace) + Events(t) && catalog == Final(t, old(catalog))
      ensures ok ==> forall d :: d != b && Entitled(old(catalog), disk(b, old(attempts)).version.exports, d) ==>
        Attempts(t, d) || Count(Events(t), Reloaded(d)) == 1
      ensures ok ==> var v := disk(b, old(attempts)).version;
        && b in catalog.registry.exports && catalog.registry.exports[b] == v.exports
        && b in catalog.registry.deps && catalog.registry.deps[b] == v.deps
        && b in catalog.manifests && catalog.manifests[b] == v.reinit
      ensures forall d, e :: d != b && Declines(old(catalog), d) && e in Events(t) ==> e.b != d
      ensures ObserveAll(Nest([], false), Events(t)) == Nest([], false)
      ensures forall x :: Count(Events(t), Reloaded(x)) <= 1
    {
      var visited;
      ghost var start, first := catalog, attempts;
      ok, visited, t := ReloadWithVisited(b, {}, catalog.manifests.Keys + {b});
      WellNested(t, start, {}, [], false);
      AskersAreTreated(t, start);
      if ok { VersionIsInstalled(t, start); }
      forall d, e | d != b && Declines(start, d) && e in Events(t)
        ensures e.b != d
      {
        DeclinerIsLeftAlone(t, start, {}, d);
      }
      forall x
        ensures Count(Events(t), Reloaded(x)) <= 1
      {
        ReloadedOnce(t, start, {}, x);
      }
      forall u: Tree | u.b == b && Follows(u, start, {}) && Honest(u, first, Ends())
        ensures u == t
      {
        CallIsDetermined(u, t, start, {}, first, Ends());
      }
    }

    method ReloadWithVisited(b: Bundle, visited: set<Bundle>, ghost known: set<Bundle>)
      returns (ok: bool, visited': set<Bundle>, ghost t: Tree)
      requires b in known && b !in visited && catalog.manifests.Keys <= known
      modifies this
      ensures ok <==> enabled && Commits(disk(b, old(attempts)))
      ensures ok <==> t.Done?
      ensures Ran(t, b, old(Now(visited)), Now(visited'), Ends())
      ensures catalog.manifests.Keys <= known && visited <= visited'
      decreases |known - visited|, 1
    {
      ghost var from, ends := Now(visited), Ends();
      ok, visited', t := false, visited, Silent(b);
      var verdict := Attempt(b);
      assert ends(b, from.attempts) == verdict;
      match verdict
      case Quiet => RanSilent(b, from, ends);
      case Reject =>
        t := Refused(b);
        RanRefused(b, from, ends);
      case Break =>
        t := Broken(b);
        RanBroken(b, from, ends);
      case Commit(version) =>
        ok := true;
        visited', t := Cascade(b, version, visited, known, from);
    }

    /** The committed branch: install, mark visited, cascade, report. */
    method Cascade(b: Bundle, version: Version, visited: set<Bundle>, ghost known: set<Bundle>, ghost from: State)
      returns (visited': set<Bundle>, ghost t: Tree)
      requires b in known && b !in visited && catalog.manifests.Keys <= known
      requires Now(visited) == from.(trace := from.trace + [Preparing(b)], attempts := from.attempts + 1)
      requires Ends()(b, from.attempts) == Commit(version)
      modifies this
      ensures t.Done? && Ran(t, b, from, Now(visited'), Ends())
      ensures catalog.manifests.Keys <= known && visited <= visited'
      decreases |known - visited|, 0
    {
      catalog := catalog.Install(b, version);
      visited' := visited + {b};
      assert Now(visited') == Committed(from, b, version);
      Shrinks(known - visited', known - visited) by { assert b in known - visited && b !in known - visited'; }
      ghost var kids;
      visited', kids := CascadeDependents(b, visited', known);
      ghost var mid := Now(visited');
      trace := trace + [Reloaded(b)];
      t := Done(b, version, kids);
      RanDone(b, version, kids, from, mid, Ends());
    }

    /** Everything up to and including the swap, with the callbacks fired on the way. */
    method Attempt(b: Bundle) returns (verdict: Verdict)
      modifies this`attempts, this`trace
      ensures verdict == VerdictOf(enabled, disk(b, old(attempts))) && attempts == old(attempts) + 1
      ensures verdict.Commit? <==> enabled && Commits(disk(b, old(attempts)))
      ensures match verdict
              case Quiet => trace == old(trace)
              case Reject => trace == old(trace) + [Failed(b)]
              case Break => trace == old(trace) + [Preparing(b)] + [Failed(b)]
              case Commit(_) => trace == old(trace) + [Preparing(b)]
    {
      var found := disk(b, attempts);
      attempts := attempts + 1;
      if !enabled { return Quiet; }
      if !found.parses { return Quiet; }
      if !found.valid {
        trace := trace + [Failed(b)];
        return Reject;
      }
      if !found.loader { return Quiet; }
      if !found.reloadable { return Quiet; }
      if !found.present {
        trace := trace + [Failed(b)];
        return Reject;
      }
      if !found.versionOk { return Quiet; }
      trace := trace + [Preparing(b)];
      if !found.inits {
        trace := trace + [Failed(b)];
        return Break;
      }
      if !found.swaps {
        trace := trace + [Failed(b)];
        return Break;
      }
      return Commit(found.version);
    }

    method CascadeDependents(b: Bundle, visited: set<Bundle>, ghost known: set<Bundle>)
      returns (visited': set<Bundle>, ghost kids: Kids)
      requires b in visited && catalog.manifests.Keys <= known
      modifies this
      ensures KidsRan(kids, Ascending(old(catalog).Candidates(b)), old(Now(visited)), Now(visited'), Ends())
      ensures catalog.manifests.Keys <= known && visited <= visited'
      decreases |known - visited|, 2
    {
      visited', kids := visited, Start;
      var candidates := Ascending(catalog.Candidates(b));
      KidsRanStart(Now(visited), Ends());
      for i := 0 to |candidates|
        invariant KidsRan(kids, candidates[..i], old(Now(visited)), Now(visited'), Ends())
        invariant catalog.manifests.Keys <= known && visited <= visited'
      {
        var d := candidates[i];
        assert candidates[..i + 1] == candidates[..i] + [d];
        ghost var mid := Now(visited');
        if d in visited' {
          KidsRanSkip(kids, candidates[..i], d, old(Now(visited)), mid, Ends());
          kids := Then(kids, Skipped(d));
        } else {
          assert d in old(catalog).Candidates(b);
          Shrinks(known - visited', known - visited);
          var ok;
          ghost var t;
          ok, visited', t := ReloadWithVisited(d, visited', known);
          KidsRanAttempt(kids, candidates[..i], d, t, old(Now(visited)), mid, Now(visited'), Ends());
          kids := Then(kids, Attempted(t));
        }
      }
      assert candidates[..|candidates|] == candidates;
    }
  }
}
