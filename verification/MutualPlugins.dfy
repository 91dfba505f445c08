/**
  How a cycle of two owners comes about: two threads register internal plugins that depend on
  each other, each with a resident. Nothing in the registration refuses the cycle.
 */
module MutualPlugins {
  import opened Basics
  import opened ThreadLists
  import opened RegistryStore
  import opened RegistryInvariant
  import opened StoreEffects
  import opened Transactions
  import opened ResidentRuns
  import opened DestroyRetry
  import R = ResidentCycles

  /** The thread has just the transaction `txn` open, and its bundle on its stack. */
  predicate Holds(w: World, t: Thread, txn: Txn) { Prepared(w, t) == [txn] && Stack(w, t) == [txn.bundle] }

  predicate Idle(w: World, t: Thread) { Prepared(w, t) == [] && Stack(w, t) == [] }

  /** Nothing but the lists of thread `t` and the attach counter changed. */
  ghost predicate OnlyOf(h: Host, h': Host, t: Thread) {
    && h' == h.(w := h.w.(prepared := h'.w.prepared, stacks := h'.w.stacks, marks := h'.w.marks, attached :=
         h'.w.attached))
    && forall u :: u != t ==> Prepared(h'.w, u) == Prepared(h.w, u) && Stack(h'.w, u) == Stack(h.w, u)
  }

  lemma BeginHolds(h: Host, t: Thread, b: Bundle) returns (h': Host)
    requires Ok(h) && Idle(h.w, t) && b !in h.w.store.bundles
    ensures Leads(h, h') && Ok(h') && OnlyOf(h, h', t) && Holds(h'.w, t, Txn(b, [], None))
  {
    var m := Plain(CallBegin(t, b, true), {});
    h' := AfterCall(h, m.c, {});
    MoveOk(h, m, h');
    LeadsOne(h, m, h');
    assert [] + [Txn(b, [], None)] == [Txn(b, [], None)] && [] + [b] == [b];
  }

  lemma StageHolds(h: Host, t: Thread, txn: Txn, x: Provider) returns (h': Host)
    requires Ok(h) && Holds(h.w, t, txn)
    ensures Leads(h, h') && Ok(h') && OnlyOf(h, h', t) && Holds(h'.w, t, txn.(providers := txn.providers + [x]))
  {
    var m := Plain(CallStage(t, x), {});
    h' := AfterCall(h, m.c, {});
    MoveOk(h, m, h');
    LeadsOne(h, m, h');
    var txn' := txn.(providers := txn.providers + [x]);
    assert OpenAt(h.w, t, txn.bundle) == Some(0) && [txn][0 := txn'] == [txn'];
    PutOf(h.w.prepared, t, [txn']);
  }

  lemma AttachHolds(h: Host, t: Thread, txn: Txn) returns (h': Host)
    requires Ok(h) && Holds(h.w, t, txn) && txn.resident.None?
    ensures Leads(h, h') && Ok(h') && OnlyOf(h, h', t)
    ensures Holds(h'.w, t, txn.(resident := Some(Resident(h.w.attached, t))))
  {
    var m := Plain(CallAttach(t, txn.bundle, t, true), {});
    h' := AfterCall(h, m.c, {});
    MoveOk(h, m, h');
    LeadsOne(h, m, h');
    var txn' := txn.(resident := Some(Resident(h.w.attached, t)));
    assert OpenAt(h.w, t, txn.bundle) == Some(0) && [txn][0 := txn'] == [txn'];
    PutOf(h.w.prepared, t, [txn']);
  }

  /** Bundle `b` exports contract `c`, depends on `d` and has a resident of `t`. */
  ghost predicate Registered(h: Host, t: Thread, b: Bundle, c: Contract, d: Contract) {
    && b in h.w.store.bundles && c in Exports(h.w.store, b) && b in h.deps && d in h.deps[b]
    && b in h.w.residents && h.w.residents[b].owner == t
  }

  lemma SoleProviderTaken(d: Data, b: Bundle, x: Provider)
    requires b !in d.bundles && Indexed(d, x.contract) == []
    ensures RegisterPrepared(d, b, Bind(b, [x])).Some?
  {
    assert forall r :: r in Bind(b, [x]) ==> r == x.For(b);
  }

  lemma SoleIndex(d: Data, b: Bundle, x: Provider)
    requires b !in d.bundles && b !in d.reloading && RegisterPrepared(d, b, Bind(b, [x])).Some?
    ensures forall c :: c != x.contract ==> Indexed(RegisterPrepared(d, b, Bind(b, [x])).value.0, c) == Indexed(d, c)
  {
    var d1, r := EnsureBundle(d, b), x.For(b);
    assert Bind(b, [x]) == [r] && [r][1..] == [];
    assert InsertAll(d1, b, [r], true).0 == Insert(d1, r, true).0;
  }

  /** The store section of such a commit. */
  lemma SoleStored(d: Data, b: Bundle, x: Provider)
    requires Consistent(d, {}) && d.reloading == {} && b !in d.bundles && Indexed(d, x.contract) == []
    ensures RegisterPrepared(d, b, Bind(b, [x])).Some?
    ensures var d' := RegisterPrepared(d, b, Bind(b, [x])).value.0;
      && x.contract in Exports(d', b) && d'.bundles.Keys == d.bundles.Keys + {b}
      && forall c :: c != x.contract ==> Indexed(d', c) == Indexed(d, c)
  {
    SoleProviderTaken(d, b, x);
    PublishKeepsStore(d, b, [x]);
    SoleIndex(d, b, x);
    var (d', hs) := RegisterPrepared(d, b, Bind(b, [x])).value;
    assert HandleHolds(d', hs[0], Bind(b, [x])[0]);
    assert Indexes(hs)[0] in Slots(d', b);
    ExportsBySlots(d', b, x.contract);
  }

  lemma CommitLists(w: World, t: Thread, b: Bundle, accepted: bool)
    ensures var w' := Commit(w, t, b, accepted).0;
      forall u :: u != t ==> Prepared(w', u) == Prepared(w, u) && Stack(w', u) == Stack(w, u)
  {
    PoppedOf(w.stacks, t);
    if OpenAt(w, t, b).Some? { TakeEnds(w, t, OpenAt(w, t, b).value); }
  }

  lemma CommitStores(w: World, t: Thread, txn: Txn, accepted: bool)
    requires Core(w) && Holds(w, t, txn) && txn.resident.Some? && accepted
    requires RegisterPrepared(w.store, txn.bundle, Bind(txn.bundle, txn.providers)).Some?
    ensures var (w', reply) := Commit(w, t, txn.bundle, accepted);
      && reply.Handles? && w'.store == RegisterPrepared(w.store, txn.bundle, Bind(txn.bundle, txn.providers)).value.0
      && txn.bundle in w'.residents && w'.residents[txn.bundle].owner == t
  {
    assert Prepared(w, t)[0] == txn;
    assert OpenAt(w, t, txn.bundle) == Some(0);
  }

  lemma CommitHolds(h: Host, t: Thread, txn: Txn, x: Provider, d: Contract) returns (h': Host)
    requires Ok(h) && Holds(h.w, t, txn) && txn.providers == [x] && txn.resident.Some?
    requires txn.bundle !in h.w.store.bundles && Indexed(h.w.store, x.contract) == []
    ensures Leads(h, h') && Ok(h') && Registered(h', t, txn.bundle, x.contract, d)
    ensures Grows(h.w, h'.w) && h'.deps == h.deps[txn.bundle := {d}]
    ensures forall u :: u != t ==> Prepared(h'.w, u) == Prepared(h.w, u) && Stack(h'.w, u) == Stack(h.w, u)
    ensures h'.w.store.bundles.Keys == h.w.store.bundles.Keys + {txn.bundle}
    ensures forall c :: c != x.contract ==> Indexed(h'.w.store, c) == Indexed(h.w.store, c)
  {
    var m := Plain(CallCommit(t, txn.bundle, true), {d});
    SoleStored(h.w.store, txn.bundle, x);
    CommitStores(h.w, t, txn, true);
    CommitLists(h.w, t, txn.bundle, true);
    CommitGrows(h.w, t, txn.bundle, true);
    h' := AfterCall(h, m.c, {d});
    MoveOk(h, m, h');
    LeadsOne(h, m, h');
  }

  /** Thread `t` registers a bundle that provides `c` and depends on `d`, with a resident. */
  lemma RegisterOne(h: Host, t: Thread, b: Bundle, x: Provider, d: Contract) returns (h': Host)
    requires Ok(h) && Idle(h.w, t) && b !in h.w.store.bundles && Indexed(h.w.store, x.contract) == []
    ensures Leads(h, h') && Ok(h') && Registered(h', t, b, x.contract, d)
    ensures Grows(h.w, h'.w) && h'.deps == h.deps[b := {d}]
    ensures forall u :: u != t && Idle(h.w, u) ==> Idle(h'.w, u)
    ensures h'.w.store.bundles.Keys == h.w.store.bundles.Keys + {b}
    ensures forall c :: c != x.contract ==> Indexed(h'.w.store, c) == Indexed(h.w.store, c)
  {
    var h1 := BeginHolds(h, t, b);
    var h2 := StageHolds(h1, t, Txn(b, [], None), x);
    assert [] + [x] == [x];
    var h3 := AttachHolds(h2, t, Txn(b, [x], None));
    h' := CommitHolds(h3, t, Txn(b, [x], Some(Resident(h2.w.attached, t))), x, d);
    LeadsOn(h, h1, h2);
    LeadsOn(h, h2, h3);
    LeadsOn(h, h3, h');
  }

  lemma MutualEntangled(h: Host, t: Thread, a: Bundle, c: Contract, u: Thread, b: Bundle, d: Contract)
    requires Registered(h, t, a, c, d) && Registered(h, u, b, d, c) && t != u && a != b
    ensures R.Entangled(h.Tables())
  {
    var g, w := h.Tables(), [a, b, a];
    assert b in g.registry.Dependents(a) by { assert c in g.registry.deps[b] * g.registry.exports[a]; }
    assert a in g.registry.Dependents(b) by { assert d in g.registry.deps[a] * g.registry.exports[b]; }
    assert R.Ring(g.registry, w);
    assert w[0] in w && w[1] in w;
    assert R.TwoOwners(g, w);
  }

  /**
    Concretely: two threads register plugins that depend on each other, each with a resident
    of its own. From then on no thread can ever destroy the runtime.
   */
  lemma MutualPluginsPinRuntime(t: Thread, u: Thread, a: Bundle, b: Bundle, x: Provider, y: Provider)
      returns (h: Host)
    requires t != u && a != b && x.contract != y.contract
    ensures Leads(START, h) && forall v :: !CanDestroy(h, v)
  {
    StartOk();
    var h1 := RegisterOne(START, t, a, x, y.contract);
    h := RegisterOne(h1, u, b, y, x.contract);
    LeadsOn(START, h1, h);
    assert Registered(h, t, a, x.contract, y.contract);
    MutualEntangled(h, t, a, x.contract, u, b, y.contract);
    forall v
      ensures !CanDestroy(h, v)
    {
      StuckForever(h, v);
    }
  }
}
