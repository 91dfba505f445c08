/**
  Whether a refused destroy can ever be followed by one that succeeds. The transaction world
  is joined by the declared dependencies and the live-instance counts, which decide what an
  unload refuses; cascades, constructors and instance destroys are moves beside the calls.
 */
module DestroyRetry {
  import opened Basics
  import opened ThreadLists
  import opened RegistryStore
  import opened RegistryInvariant
  import opened StoreEffects
  import opened Transactions
  import opened ResidentRuns
  import G = DependencyGraph
  import U = CascadeUnload
  import R = ResidentCycles

  /** Contracts under which the find index lists a slot of the bundle. */
  function Exports(d: Data, b: Bundle): set<Contract> {
    set c | c in d.index && exists i | i in d.index[c] :: i in Slots(d, b)
  }

  datatype Host = Host(w: World, deps: map<Bundle, set<Contract>>, live: map<Bundle, nat>)
  {
    /** What unload and its cascade consult. */
    function Tables(): U.Tables {
      U.Tables(G.Registry(map b | b in w.store.bundles :: Exports(w.store, b), deps),
               map b | b in w.residents :: w.residents[b].owner, w.marks, live)
    }

    function Live(b: Bundle): nat { if b in live then live[b] else 0 }

    function Declared(b: Bundle): set<Contract> { if b in deps then deps[b] else {} }
  }

  const START := Host(FRESH, map[], map[])

  /** The invalidation of one bundle, and the release of its resident on thread `t`. */
  function Gone(h: Host, t: Thread, b: Bundle): Host {
    Host(Drop(Invalidate(h.w, b), t, Previous(h.w, b)), h.deps - {b}, h.live - {b})
  }

  function GoneAll(h: Host, t: Thread, log: seq<Bundle>): Host
    decreases |log|
  {
    if log == [] then h else GoneAll(Gone(h, t, log[0]), t, log[1..])
  }

  datatype Move =
    | Plain(c: Call, declared: set<Contract>)
    | Declare(b: Bundle, contracts: set<Contract>)
    | UnloadOne(t: Thread, b: Bundle)
    | UnloadAll(t: Thread, b: Bundle, refuses: set<Bundle>, log: seq<Bundle>, ok: bool)
    | Construct(b: Bundle)
    | Finish(b: Bundle)

  /** The bundle that a commit or load publishes. */
  function Target(c: Call): Bundle {
    if c.CallCommit? || c.CallCommitInto? || c.CallLoad? then c.b else 0
  }

  /** A commit or load that publishes stores the declared dependencies, replacing any. */
  ghost function AfterCall(h: Host, c: Call, declared: set<Contract>): Host {
    var (w', reply) := Apply(h.w, c);
    Host(w', if reply.Handles? then h.deps[Target(c) := declared] else h.deps, h.live)
  }

  ghost predicate Moves(h: Host, m: Move, h': Host) {
    && !h.w.destroyed && !h.w.aborted
    && match m
       case Plain(c, declared) => !c.CallUnload? && !c.CallDestroy? && h' == AfterCall(h, c, declared)
       case Declare(b, contracts) => h' == h.(deps := h.deps[b := h.Declared(b) + contracts])
       case UnloadOne(t, b) => h' == if h.Tables().Unloads(b, t) then Gone(h, t, b) else h
       case UnloadAll(t, b, refuses, log, ok) =>
         h' == GoneAll(h, t, log) && U.Cascaded(h.Tables(), refuses, b, t, h'.Tables(), log, ok)
       case Construct(b) => h' == if b in h.w.store.bundles then h.(live := h.live[b := h.Live(b) + 1]) else h
       case Finish(b) => h' == if h.Live(b) > 0 then h.(live := h.live[b := h.Live(b) - 1]) else h
  }

  ghost predicate Path(p: seq<Host>, ms: seq<Move>) {
    |p| == |ms| + 1 && forall i {:trigger ms[i]} :: 0 <= i < |ms| ==> Moves(p[i], ms[i], p[i + 1])
  }

  ghost predicate Run(p: seq<Host>, ms: seq<Move>) { Path(p, ms) && p[0] == START }

  ghost predicate Ok(h: Host) { Core(h.w) && !h.w.destroyed }

  // ------------------------------------------------------- exports

  lemma ExportsBySlots(d: Data, b: Bundle, c: Contract)
    requires Consistent(d, {})
    ensures c in Exports(d, b) <==> exists i :: i in Slots(d, b) && RegAt(d, i).contract == c
  {
    if c in Exports(d, b) {
      var i :| i in d.index[c] && i in Slots(d, b);
      assert i in Indexed(d, c);
    }
    if i :| i in Slots(d, b) && RegAt(d, i).contract == c {
      assert SlotLinked(d, {}, i);
      assert i in Indexed(d, c);
    }
  }

  /** Slots that stay, with what they hold, keep a bundle's exports. */
  lemma ExportsStay(d: Data, d': Data, b: Bundle)
    requires Consistent(d, {}) && Consistent(d', {})
    requires forall i :: i in Slots(d, b) ==>
      i in Slots(d', b) && i < |d.slots| && i < |d'.slots| && d'.slots[i] == d.slots[i]
    ensures Exports(d, b) <= Exports(d', b)
  {
    forall c | c in Exports(d, b)
      ensures c in Exports(d', b)
    {
      ExportsBySlots(d, b, c);
      ExportsBySlots(d', b, c);
    }
  }

  // ------------------------------------------------------- removing a bundle

  lemma GoneIsUnload(h: Host, t: Thread, b: Bundle)
    requires b in h.w.store.bundles && h.Tables().AffinityHolds(b, t)
    ensures Unload(h.w, t, b, false) == (Gone(h, t, b).w, Done)
  {
    if b in h.w.residents { assert h.Tables().residents[b] == h.w.residents[b].owner; }
  }

  lemma GoneExports(d: Data, b: Bundle, x: Bundle)
    requires Consistent(d, {}) && b in d.bundles && x != b
    ensures Exports(InvalidateBundle(d, b), x) == Exports(d, x)
  {
    var d' := InvalidateBundle(d, b);
    InvalidateTheorem(d, b, {});
    forall i | i in Slots(d, x)
      ensures i !in Slots(d, b)
    {
      assert RegAt(d, i).bundle == x;
    }
    ExportsStay(d, d', x);
    ExportsStay(d', d, x);
  }

  lemma GoneExportsAll(d: Data, b: Bundle)
    requires Consistent(d, {}) && b in d.bundles
    ensures InvalidateBundle(d, b).bundles.Keys == d.bundles.Keys - {b}
    ensures forall x :: x in d.bundles && x != b ==> Exports(InvalidateBundle(d, b), x) == Exports(d, x)
  {
    InvalidateTheorem(d, b, {});
    forall x | x in d.bundles && x != b
      ensures Exports(InvalidateBundle(d, b), x) == Exports(d, x)
    {
      GoneExports(d, b, x);
    }
  }

  lemma GoneRegistry(h: Host, t: Thread, b: Bundle)
    requires StoreOk(h.w) && b in h.w.store.bundles
    ensures Gone(h, t, b).Tables() == h.Tables().Without({b})
  {
    var g, g' := h.Tables(), Gone(h, t, b).Tables();
    GoneExportsAll(h.w.store, b);
    assert g'.registry.exports == g.registry.exports - {b};
    assert g'.residents == g.residents - {b};
  }

  lemma GoneTables(h: Host, t: Thread, b: Bundle)
    requires Ok(h) && h.Tables().Good(b, t)
    ensures Ok(Gone(h, t, b)) && Gone(h, t, b).Tables() == h.Tables().Without({b})
  {
    assert b in h.w.store.bundles;
    GoneIsUnload(h, t, b);
    UnloadCore(h.w, t, b, false);
    GoneRegistry(h, t, b);
  }

  lemma StillGood(g: U.Tables, t: Thread, log: seq<Bundle>)
    requires log != [] && G.Distinct(log) && forall x :: x in log ==> g.Good(x, t)
    ensures G.Distinct(log[1..]) && forall x :: x in log[1..] ==> g.Without({log[0]}).Good(x, t)
  {
    var rest := log[1..];
    forall x | x in rest
      ensures g.Without({log[0]}).Good(x, t)
    {
      var k :| 0 <= k < |rest| && rest[k] == x;
      assert log[k + 1] == x && x in log;
    }
  }

  lemma {:induction false} GoneAllTables(h: Host, t: Thread, log: seq<Bundle>)
    requires Ok(h) && G.Distinct(log)
    requires forall x :: x in log ==> h.Tables().Good(x, t)
    ensures Ok(GoneAll(h, t, log)) && GoneAll(h, t, log).Tables() == h.Tables().Without(G.Elements(log))
    decreases |log|
  {
    var g := h.Tables();
    if log == [] {
      U.WithoutNone(g);
    } else {
      assert log[0] in log;
      GoneTables(h, t, log[0]);
      StillGood(g, t, log);
      GoneAllTables(Gone(h, t, log[0]), t, log[1..]);
      TwoWithouts(g, log[0], G.Elements(log[1..]));
      assert G.Elements(log) == {log[0]} + G.Elements(log[1..]);
    }
  }

  lemma TwoWithouts(g: U.Tables, b: Bundle, gone: set<Bundle>)
    ensures g.Without({b}).Without(gone) == g.Without({b} + gone)
  {
    assert (g.registry.exports - {b}) - gone == g.registry.exports - ({b} + gone);
    assert (g.registry.deps - {b}) - gone == g.registry.deps - ({b} + gone);
    assert (g.residents - {b}) - gone == g.residents - ({b} + gone);
    assert (g.internal - {b}) - gone == g.internal - ({b} + gone);
    assert (g.live - {b}) - gone == g.live - ({b} + gone);
  }

  /** What a cascade removed had passed its preflight. */
  lemma RemovedWereGood(g: U.Tables, refuses: set<Bundle>, b: Bundle, t: Thread, g': U.Tables, log: seq<Bundle>,
      ok: bool)
    requires U.Cascaded(g, refuses, b, t, g', log, ok)
    ensures forall x :: x in log ==> g.Good(x, t)
  {
    forall x | x in log
      ensures g.Good(x, t)
    {
      G.ReachedInClosure(g.registry, b, x);
    }
  }

  lemma MoveOk(h: Host, m: Move, h': Host)
    requires Ok(h) && Moves(h, m, h')
    ensures Ok(h')
  {
    match m
    case Plain(c, _) => CallKeepsCore(h.w, c);
    case UnloadOne(t, b) => if h.Tables().Unloads(b, t) { GoneTables(h, t, b); }
    case UnloadAll(t, b, refuses, log, ok) =>
      RemovedWereGood(h.Tables(), refuses, b, t, h'.Tables(), log, ok);
      GoneAllTables(h, t, log);
    case _ =>
  }

  lemma {:induction false} PathOk(p: seq<Host>, ms: seq<Move>, i: nat)
    requires Path(p, ms) && i < |p| && Ok(p[0])
    ensures Ok(p[i])
  {
    if i > 0 {
      PathOk(p, ms, i - 1);
      MoveOk(p[i - 1], ms[i - 1], p[i]);
    }
  }

  // ------------------------------------------------------- cycles of two owners stay

  /** A call adds to what bundles export and changes no live resident. */
  ghost predicate Grows(w: World, w': World) {
    && (forall x :: x in w.store.bundles ==> x in w'.store.bundles && Exports(w.store, x) <= Exports(w'.store, x))
    && (forall x :: x in w.residents ==> x in w'.residents && w'.residents[x] == w.residents[x])
  }

  lemma StoreGrows(d: Data, d': Data)
    requires Consistent(d, {}) && Consistent(d', {}) && LiveKept(d, d')
    requires forall x, i :: i in Slots(d, x) ==> i in Slots(d', x)
    ensures forall x :: Exports(d, x) <= Exports(d', x)
  {
    forall x
      ensures Exports(d, x) <= Exports(d', x)
    {
      forall i | i in Slots(d, x)
        ensures i in Slots(d', x) && i < |d.slots| && i < |d'.slots| && d'.slots[i] == d.slots[i]
      {
        assert LiveAt(d, i);
      }
      ExportsStay(d, d', x);
    }
  }

  lemma StageGrows(w: World, t: Thread, x: Provider)
    requires Core(w) && !w.destroyed
    ensures Grows(w, Stage(w, t, x).0) && !Stage(w, t, x).1.Handles?
  {
    var s := Stack(w, t);
    if s != [] && OpenAt(w, t, s[|s| - 1]).None? && Register(w.store, x.For(s[|s| - 1])).Some? {
      AddTheorem(w.store, x.For(s[|s| - 1]), {});
      StoreGrows(w.store, Stage(w, t, x).0.store);
    }
  }

  lemma PublishedGrows(d: Data, d': Data, b: Bundle, regs: seq<Registration>, hs: seq<Handle>)
    requires Consistent(d, {}) && Consistent(d', {}) && b !in d.bundles && Stored(EnsureBundle(d, b), d', b, regs, hs)
    ensures forall x :: x in d.bundles ==> x in d'.bundles && Exports(d, x) <= Exports(d', x)
  {
    var d1 := EnsureBundle(d, b);
    assert forall x :: Slots(d1, x) == Slots(d, x);
    assert LiveKept(d, d') by { assert forall i: Index :: LiveAt(d, i) == LiveAt(d1, i); }
    StoreGrows(d, d');
  }

  lemma PublishGrows(w: World, t: Thread, k: nat, accepted: bool)
    requires Core(w) && !w.destroyed && k < |Prepared(w, t)|
    ensures Grows(w, PublishTxn(Take(w, t, k), t, Prepared(w, t)[k], accepted).0)
    ensures PublishTxn(Take(w, t, k), t, Prepared(w, t)[k], accepted).1.Handles? ==>
      Prepared(w, t)[k].bundle !in w.store.bundles
  {
    var txn := Prepared(w, t)[k];
    var (w', reply) := PublishTxn(Take(w, t, k), t, txn, accepted);
    PublishCore(w, t, k, accepted);
    if reply.Handles? {
      PublishedGrows(w.store, w'.store, txn.bundle, Bind(txn.bundle, txn.providers), reply.handles);
    }
  }

  lemma CommitGrows(w: World, t: Thread, b: Bundle, accepted: bool)
    requires Core(w) && !w.destroyed
    ensures Grows(w, Commit(w, t, b, accepted).0)
    ensures Commit(w, t, b, accepted).1.Handles? ==> b !in w.store.bundles
  {
    if OpenAt(w, t, b).Some? { PublishGrows(w, t, OpenAt(w, t, b).value, accepted); }
  }

  lemma LoadGrows(w: World, b: Bundle, providers: seq<Provider>, accepted: bool)
    requires Core(w) && !w.destroyed
    ensures Grows(w, Load(w, b, providers, accepted).0)
    ensures Load(w, b, providers, accepted).1.Handles? ==> b !in w.store.bundles
  {
    LoadCore(w, b, providers, accepted);
    var (w', reply) := Load(w, b, providers, accepted);
    if reply.Handles? { PublishedGrows(w.store, w'.store, b, Bind(b, providers), reply.handles); }
  }

  lemma CallGrows(w: World, c: Call)
    requires Core(w) && !w.destroyed && !c.CallUnload? && !c.CallDestroy?
    ensures Grows(w, Apply(w, c).0) && (Apply(w, c).1.Handles? ==> Target(c) !in w.store.bundles)
  {
    match c
    case CallStage(t, x) => StageGrows(w, t, x);
    case CallCommit(t, b, accepted) => CommitGrows(w, t, b, accepted);
    case CallCommitInto(t, b, _, accepted) => CommitGrows(w, t, b, accepted);
    case CallLoad(_, b, providers, accepted) => LoadGrows(w, b, providers, accepted);
    case _ =>
  }

  lemma CallKeepsRing(h: Host, c: Call, declared: set<Contract>)
    requires Ok(h) && !c.CallUnload? && !c.CallDestroy? && R.Entangled(h.Tables())
    ensures R.Entangled(AfterCall(h, c, declared).Tables())
  {
    var h', g := AfterCall(h, c, declared), h.Tables();
    CallGrows(h.w, c);
    var w :| R.Ring(g.registry, w) && R.TwoOwners(g, w);
    forall x | x in w
      ensures x in h.w.store.bundles
    {
      R.RingInUse(g, w, x);
    }
    R.RingStays(g, h'.Tables(), w);
  }

  lemma MoveKeepsRing(h: Host, m: Move, h': Host)
    requires Ok(h) && Moves(h, m, h') && R.Entangled(h.Tables())
    ensures R.Entangled(h'.Tables())
  {
    var g := h.Tables();
    match m
    case Plain(c, declared) => CallKeepsRing(h, c, declared);
    case UnloadOne(t, b) =>
      if g.Unloads(b, t) {
        GoneTables(h, t, b);
        R.UnloadSparesRing(g, b, t);
      }
    case UnloadAll(t, b, refuses, log, ok) => R.CascadeSparesRing(g, refuses, b, t, h'.Tables(), log, ok);
    case _ =>
      var w :| R.Ring(g.registry, w) && R.TwoOwners(g, w);
      R.RingStays(g, h'.Tables(), w);
  }

  lemma {:induction false} RingIsForever(p: seq<Host>, ms: seq<Move>, i: nat)
    requires Path(p, ms) && i < |p| && Ok(p[0]) && R.Entangled(p[0].Tables())
    ensures R.Entangled(p[i].Tables())
  {
    if i > 0 {
      RingIsForever(p, ms, i - 1);
      PathOk(p, ms, i - 1);
      MoveKeepsRing(p[i - 1], ms[i - 1], p[i]);
    }
  }

  /** While residents of two owners are live, no thread may destroy. */
  lemma RingRefusesDestroy(h: Host, t: Thread)
    requires R.Entangled(h.Tables())
    ensures !OwnedBy(h.w, t)
  {
    var g := h.Tables();
    var w :| R.Ring(g.registry, w) && R.TwoOwners(g, w);
    var x, y :| x in w && y in w && x in g.residents && y in g.residents && g.residents[x] != g.residents[y];
    assert At(h.w, InBundle(x)).value.owner != At(h.w, InBundle(y)).value.owner;
  }

  // ------------------------------------------------------- what can be cleared

  /** Some moves lead from `h` to `h'`. */
  ghost predicate Leads(h: Host, h': Host) {
    exists p, ms :: Path(p, ms) && p[0] == h && p[|ms|] == h'
  }

  lemma LeadsSelf(h: Host)
    ensures Leads(h, h)
  {
    var p, ms: seq<Move> := [h], [];
    assert Path(p, ms) && p[|ms|] == h;
  }

  lemma LeadsCons(h: Host, m: Move, h1: Host, h2: Host)
    requires Moves(h, m, h1) && Leads(h1, h2)
    ensures Leads(h, h2)
  {
    var p, ms :| Path(p, ms) && p[0] == h1 && p[|ms|] == h2;
    var q, all := [h] + p, [m] + ms;
    forall i | 0 <= i < |all|
      ensures Moves(q[i], all[i], q[i + 1])
    {
      if i > 0 { assert all[i] == ms[i - 1]; }
    }
    assert Path(q, all) && q[|all|] == h2;
  }

  lemma LeadsOne(h: Host, m: Move, h': Host)
    requires Moves(h, m, h')
    ensures Leads(h, h')
  {
    LeadsSelf(h');
    LeadsCons(h, m, h', h');
  }

  lemma LeadsOn(h: Host, h1: Host, h2: Host)
    requires Leads(h, h1) && Leads(h1, h2)
    ensures Leads(h, h2)
  {
    var p, ms :| Path(p, ms) && p[0] == h && p[|ms|] == h1;
    var q, ns :| Path(q, ns) && q[0] == h1 && q[|ns|] == h2;
    JoinPaths(p, ms, q, ns);
  }

  lemma JoinPaths(p: seq<Host>, ms: seq<Move>, q: seq<Host>, ns: seq<Move>)
    requires Path(p, ms) && Path(q, ns) && p[|ms|] == q[0]
    ensures Leads(p[0], q[|ns|])
  {
    var all, made := p + q[1..], ms + ns;
    forall i | 0 <= i < |made|
      ensures Moves(all[i], made[i], all[i + 1])
    {
      if i < |ms| {
        assert made[i] == ms[i];
      } else {
        assert made[i] == ns[i - |ms|] && all[i] == q[i - |ms|];
      }
    }
    assert Path(all, made) && all[|made|] == q[|ns|];
  }

  /** Instances of one bundle end, one by one. */
  lemma {:induction false} DrainOne(h: Host, b: Bundle) returns (h': Host)
    requires Ok(h)
    ensures Leads(h, h') && h' == h.(live := h'.live) && h'.Live(b) == 0
    ensures forall x :: h'.Live(x) <= h.Live(x)
    decreases h.Live(b)
  {
    h' := h;
    LeadsSelf(h);
    if h.Live(b) > 0 {
      var h1 := h.(live := h.live[b := h.Live(b) - 1]);
      assert Moves(h, Finish(b), h1);
      h' := DrainOne(h1, b);
      LeadsCons(h, Finish(b), h1, h');
    }
  }

  lemma {:induction false} DrainAll(h: Host, s: set<Bundle>) returns (h': Host)
    requires Ok(h)
    ensures Leads(h, h') && h' == h.(live := h'.live) && forall x :: x in s ==> h'.Live(x) == 0
    ensures forall x :: h'.Live(x) <= h.Live(x)
    decreases |s|
  {
    h' := h;
    LeadsSelf(h);
    if s != {} {
      var b :| b in s;
      var h1 := DrainOne(h, b);
      h' := DrainAll(h1, s - {b});
      LeadsOn(h, h1, h');
    }
  }

  /** Nothing hinders the cascades: no cycle of two owners, and no declaration of a bundle that is not loaded. */
  ghost predicate Free(h: Host) { Ok(h) && !R.Entangled(h.Tables()) && R.DeclaredLoaded(h.Tables().registry) }

  lemma LiveIrrelevant(g: U.Tables, g': U.Tables)
    requires g' == g.(live := g'.live) && !R.Entangled(g)
    ensures !R.Entangled(g')
  {
    if w :| R.Ring(g'.registry, w) && R.TwoOwners(g', w) { R.RingStays(g', g, w); }
  }

  lemma FewerBundles(h: Host, log: seq<Bundle>, h': Host)
    requires h'.Tables() == h.Tables().Without(G.Elements(log)) && log != [] && log[0] in h.w.store.bundles
    ensures |h'.w.store.bundles| < |h.w.store.bundles|
  {
    var a, b := h.w.store.bundles.Keys, h'.w.store.bundles.Keys;
    assert b == h'.Tables().registry.exports.Keys && a == h.Tables().registry.exports.Keys;
    assert log[0] in G.Elements(log);
    U.SmallerSet(b, a) by { assert log[0] in a && log[0] !in b; }
  }

  /** From a state in which all of a closure may go, one cascade takes it down. */
  lemma CascadeMoves(h: Host, m: Bundle, t: Thread) returns (h': Host)
    requires Free(h) && R.Last(h.Tables().registry, m) && m in h.w.store.bundles
    requires forall x :: x in G.Closure(h.Tables().registry, m) ==> h.Tables().Good(x, t) && !h.Tables().Busy(x)
    ensures Leads(h, h') && Free(h') && |h'.w.store.bundles| < |h.w.store.bundles|
  {
    var g := h.Tables();
    var log := R.CascadeGoesThrough(g, m, t);
    assert forall x :: x in log ==> x in G.Elements(log);
    h' := GoneAll(h, t, log);
    GoneAllTables(h, t, log);
    LeadsOne(h, UnloadAll(t, m, {}, log, true), h');
    R.RemovalUntangles(g, G.Elements(log));
    G.ReachesSelf(g.registry, m);
    G.ReachedInClosure(g.registry, m, m);
    assert m in G.Elements(log);
    assert log[0] in G.Elements(log);
    R.ClosureLoaded(g.registry, m, log[0]);
    FewerBundles(h, log, h');
  }

  lemma TakeDown(h: Host) returns (h': Host)
    requires Free(h) && h.w.store.bundles != map[]
    ensures Leads(h, h') && Free(h') && |h'.w.store.bundles| < |h.w.store.bundles|
  {
    var g := h.Tables();
    var b :| b in h.w.store.bundles;
    assert g.registry.Loaded(b);
    var m := R.FindLast(g.registry, b);
    var t := R.OneOwner(g, m);
    var h1 := DrainAll(h, G.Closure(g.registry, m));
    LiveIrrelevant(g, h1.Tables());
    forall x | x in G.Closure(g.registry, m)
      ensures h1.Tables().Good(x, t) && !h1.Tables().Busy(x)
    {
      R.ClosureLoaded(g.registry, m, x);
      assert h1.Live(x) == 0;
    }
    h' := CascadeMoves(h1, m, t);
    LeadsOn(h, h1, h');
  }

  lemma {:induction false} ClearBundles(h: Host) returns (h': Host)
    requires Free(h)
    ensures Leads(h, h') && Ok(h') && h'.w.residents == map[]
    decreases |h.w.store.bundles|
  {
    if h.w.store.bundles == map[] {
      LeadsSelf(h);
      assert h.w.residents.Keys == {};
      h' := h;
    } else {
      var h1 := TakeDown(h);
      h' := ClearBundles(h1);
      LeadsOn(h, h1, h');
    }
  }

  lemma TakeLightens(w: World, t: Thread, k: nat)
    requires k < |Prepared(w, t)|
    ensures Total(Take(w, t, k).prepared) == Total(w.prepared) - 1
  {
    var rest := Without(Prepared(w, t), k);
    TotalPut(w.prepared, t, rest);
    TotalCut(w.prepared, t);
  }

  lemma AbortLightens(w: World, t: Thread)
    requires Core(w) && !w.destroyed && Prepared(w, t) != []
    ensures var w' := Abort(w, t, Prepared(w, t)[|Prepared(w, t)| - 1].bundle);
      Total(w'.prepared) < Total(w.prepared) && w'.residents == w.residents
  {
    var s := Prepared(w, t);
    assert OpenAt(w, t, s[|s| - 1].bundle) == Some(|s| - 1);
    TakeLightens(w, t, |s| - 1);
  }

  /** Threads abort what they staged. */
  lemma {:induction false} ClearStaged(h: Host) returns (h': Host)
    requires Ok(h) && h.w.residents == map[]
    ensures Leads(h, h') && Ok(h') && forall q :: At(h'.w, q).None?
    decreases Total(h.w.prepared)
  {
    if q :| At(h.w, q).Some? {
      var s := Prepared(h.w, q.t);
      var c := CallAbort(q.t, s[|s| - 1].bundle);
      var h1 := AfterCall(h, c, {});
      AbortLightens(h.w, q.t);
      MoveOk(h, Plain(c, {}), h1);
      h' := ClearStaged(h1);
      LeadsCons(h, Plain(c, {}), h1, h');
    } else {
      LeadsSelf(h);
      h' := h;
    }
  }

  lemma GhostCall(h: Host, b: Bundle)
    requires b !in h.w.store.bundles
    ensures AfterCall(h, CallLoad(0, b, [], true), {}) ==
      Host(h.w.(store := EnsureBundle(h.w.store, b)), h.deps[b := {}], h.live)
  {
    assert Bind(b, []) == [];
    assert RegisterPrepared(h.w.store, b, []) == Some((EnsureBundle(h.w.store, b), []));
  }

  lemma GhostTables(h: Host, b: Bundle)
    requires b !in h.w.store.bundles
    ensures var g, g' := h.Tables(), Host(h.w.(store := EnsureBundle(h.w.store, b)), h.deps[b := {}], h.live).Tables();
      && g'.registry == G.Registry(g.registry.exports[b := {}], g.registry.deps[b := {}])
      && g'.residents == g.residents
  {
    var d, d' := h.w.store, EnsureBundle(h.w.store, b);
    assert forall x :: Slots(d', x) == Slots(d, x);
    assert forall x :: Exports(d', x) == Exports(d, x);
    assert Exports(d', b) == {};
  }

  /** A bundle that declared dependencies before it was loaded is loaded without any. */
  lemma LoadGhost(h: Host, b: Bundle) returns (h': Host)
    requires Ok(h) && !R.Entangled(h.Tables()) && b !in h.w.store.bundles
    ensures Leads(h, h') && Ok(h') && !R.Entangled(h'.Tables())
    ensures h'.deps.Keys == h.deps.Keys + {b} && h'.w.store.bundles.Keys == h.w.store.bundles.Keys + {b}
  {
    var m := Plain(CallLoad(0, b, [], true), {});
    h' := AfterCall(h, m.c, {});
    MoveOk(h, m, h');
    LeadsOne(h, m, h');
    GhostCall(h, b);
    GhostTables(h, b);
    LoneBundle(h.Tables(), h'.Tables(), b);
  }

  /** A bundle that exports and declares nothing is on no cycle. */
  lemma LoneBundle(g: U.Tables, g': U.Tables, b: Bundle)
    requires !R.Entangled(g) && g'.residents == g.residents
    requires g'.registry == G.Registry(g.registry.exports[b := {}], g.registry.deps[b := {}])
    ensures !R.Entangled(g')
  {
    if w :| R.Ring(g'.registry, w) && R.TwoOwners(g', w) {
      if b in w { R.RingInUse(g', w, b); }
      assert b !in w;
      R.RingStays(g', g, w);
    }
  }

  lemma {:induction false} LoadGhosts(h: Host) returns (h': Host)
    requires Ok(h) && !R.Entangled(h.Tables())
    ensures Leads(h, h') && Free(h')
    decreases |h.deps.Keys - h.w.store.bundles.Keys|
  {
    if b :| b in h.deps && b !in h.w.store.bundles {
      var h1 := LoadGhost(h, b);
      U.SmallerSet(h1.deps.Keys - h1.w.store.bundles.Keys, h.deps.Keys - h.w.store.bundles.Keys) by {
        assert b in h.deps.Keys - h.w.store.bundles.Keys;
      }
      h' := LoadGhosts(h1);
      LeadsOn(h, h1, h');
    } else {
      LeadsSelf(h);
      assert h.Tables().registry.exports.Keys == h.w.store.bundles.Keys;
      h' := h;
    }
  }

  /** Without a cycle of two owners, everything can be cleared. */
  lemma ClearAll(h: Host, t: Thread) returns (h': Host)
    requires Ok(h) && !R.Entangled(h.Tables())
    ensures Leads(h, h') && Ok(h') && Destroy(h'.w, t).1
  {
    var h1 := LoadGhosts(h);
    var h2 := ClearBundles(h1);
    h' := ClearStaged(h2);
    LeadsOn(h, h1, h2);
    LeadsOn(h, h2, h');
  }

  lemma LeadsOk(h: Host, h': Host)
    requires Ok(h) && Leads(h, h')
    ensures Ok(h') && (R.Entangled(h.Tables()) ==> R.Entangled(h'.Tables()))
  {
    var p, ms :| Path(p, ms) && p[0] == h && p[|ms|] == h';
    PathOk(p, ms, |ms|);
    if R.Entangled(h.Tables()) { RingIsForever(p, ms, |ms|); }
  }

  lemma StartOk()
    ensures Ok(START)
  {
    FreshCore();
  }

  // ------------------------------------------------------- theorem

  /** Some continuation ends in a state whose destroy, on thread `t`, succeeds. */
  ghost predicate CanDestroy(h: Host, t: Thread) { exists h' :: Leads(h, h') && Destroy(h'.w, t).1 }

  /**
    In every reachable state, whatever thread asks: a destroy is refused, without effect,
    exactly while some resident belongs to another thread; a later one can succeed if and only
    if no dependency cycle passes through residents of two owners; and one that succeeds has
    released every resident ever attached exactly once.
   */
  lemma DestroyIsRetryable(p: seq<Host>, ms: seq<Move>, i: nat, t: Thread)
    requires Run(p, ms) && i < |p|
    ensures Destroy(p[i].w, t).1 <==> OwnedBy(p[i].w, t)
    ensures !Destroy(p[i].w, t).1 ==> Destroy(p[i].w, t).0 == p[i].w
    ensures CanDestroy(p[i], t) <==> !R.Entangled(p[i].Tables())
    ensures Destroy(p[i].w, t).1 ==>
      var end := Destroy(p[i].w, t).0; forall n: nat :: end.released[n] == if n < end.attached then 1 else 0
  {
    var h := p[i];
    StartOk();
    PathOk(p, ms, i);
    DestroyCore(h.w, t);
    if R.Entangled(h.Tables()) {
      StuckForever(h, t);
    } else {
      var h' := ClearAll(h, t);
    }
  }

  lemma StuckForever(h: Host, t: Thread)
    requires Ok(h) && R.Entangled(h.Tables())
    ensures !CanDestroy(h, t)
  {
    if h' :| Leads(h, h') && Destroy(h'.w, t).1 {
      LeadsOk(h, h');
      RingRefusesDestroy(h', t);
    }
  }
}
