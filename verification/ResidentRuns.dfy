/**
  What every run of transaction calls keeps, whatever their order and overlap: the
  published store is consistent, and every attached resident is held in exactly one place
  or was released exactly once, by its owner's thread.
 */
module ResidentRuns {
  import opened Basics
  import opened ThreadLists
  import opened RegistryStore
  import opened RegistryInvariant
  import opened StoreEffects
  import opened Transactions

  // -------------------------------------------------------------- invariant

  ghost predicate StoreOk(w: World) {
    && Consistent(w.store, {}) && w.store.reloading == {}
    && w.internal <= w.store.bundles.Keys && w.residents.Keys <= w.internal
  }

  ghost predicate StagedByOwner(w: World) {
    forall t, k :: 0 <= k < |Prepared(w, t)| && Prepared(w, t)[k].resident.Some? ==>
      Prepared(w, t)[k].resident.value.owner == t
  }

  ghost predicate IsHeld(w: World, n: nat) { exists p :: At(w, p).Some? && At(w, p).value.id == n }

  /** Every attached resident is in exactly one place, or was released exactly once. */
  ghost predicate Conserved(w: World) {
    && (forall p, q :: At(w, p).Some? && At(w, q).Some? && At(w, p).value.id == At(w, q).value.id ==> p == q)
    && (forall p :: At(w, p).Some? ==> At(w, p).value.id < w.attached && w.released[At(w, p).value.id] == 0)
    && (forall n :: w.released[n] <= 1 && (w.released[n] == 1 ==> n < w.attached))
    && (forall n: nat :: n < w.attached ==> w.released[n] == 1 || IsHeld(w, n))
  }

  ghost predicate Core(w: World) {
    && StoreOk(w) && StagedByOwner(w) && Conserved(w) && !w.aborted
    && (w.destroyed ==> forall p :: At(w, p).None?)
  }

  // ------------------------------------------------------- resident moves

  /** No resident is in two places. */
  ghost predicate Apart(w: World) {
    forall p, q :: At(w, p).Some? && At(w, q).Some? && At(w, p).value.id == At(w, q).value.id ==> p == q
  }

  lemma HeldIsUnreleased(w: World, n: nat)
    requires Conserved(w) && IsHeld(w, n)
    ensures n < w.attached && w.released[n] == 0
  {
    var p :| At(w, p).Some? && At(w, p).value.id == n;
  }

  /** Residents change places one to one; those in `lost` are released. */
  lemma RelocateConserves(w: World, w': World, lost: set<nat>)
    requires Conserved(w) && Apart(w') && w'.attached == w.attached && w'.released == w.released + multiset(lost)
    requires forall n :: IsHeld(w', n) ==> IsHeld(w, n)
    requires forall n :: IsHeld(w, n) ==> IsHeld(w', n) || n in lost
    requires forall n :: n in lost ==> IsHeld(w, n) && !IsHeld(w', n)
    ensures Conserved(w')
  {
    forall n | n in lost
      ensures n < w.attached && w.released[n] == 0
    {
      HeldIsUnreleased(w, n);
    }
    forall q | At(w', q).Some?
      ensures At(w', q).value.id < w'.attached && w'.released[At(w', q).value.id] == 0
    {
      assert IsHeld(w', At(w', q).value.id);
      HeldIsUnreleased(w, At(w', q).value.id);
    }
  }

  lemma UnmovedConserves(w: World, w': World)
    requires Conserved(w) && (forall p :: At(w', p) == At(w, p)) && w'.attached == w.attached &&
      w'.released == w.released
    ensures Conserved(w')
  {
    assert w.released + multiset({}) == w.released;
    SameHeld(w, w');
    RelocateConserves(w, w', {});
  }

  /** The core depends on lists, residents and store only. */
  lemma StillCore(w: World, w': World)
    requires Core(w) && StoreOk(w') && w'.prepared == w.prepared && w'.residents == w.residents
    requires w'.attached == w.attached
    requires w'.released == w.released && w'.aborted == w.aborted && w'.destroyed == w.destroyed
    ensures Core(w')
  {
    assert forall u :: Prepared(w', u) == Prepared(w, u);
    assert forall p :: At(w', p) == At(w, p);
    UnmovedConserves(w, w');
  }

  lemma SameHeld(w: World, w': World)
    requires forall p :: At(w', p) == At(w, p)
    ensures forall n :: IsHeld(w', n) <==> IsHeld(w, n)
  {
    forall n
      ensures IsHeld(w', n) <==> IsHeld(w, n)
    {
      if IsHeld(w, n) {
        var p :| At(w, p).Some? && At(w, p).value.id == n;
        assert At(w', p).value.id == n;
      }
      if IsHeld(w', n) {
        var p :| At(w', p).Some? && At(w', p).value.id == n;
        assert At(w, p).value.id == n;
      }
    }
  }

  /** A new resident at `p`. */
  lemma AttachConserves(w: World, w': World, p: Place, owner: Thread)
    requires Conserved(w) && At(w, p).None? && At(w', p) == Some(Resident(w.attached, owner))
    requires forall q :: q != p ==> At(w', q) == At(w, q)
    requires w'.attached == w.attached + 1 && w'.released == w.released
    ensures Conserved(w') && IsHeld(w', w.attached)
  {
    assert At(w', p).value.id == w.attached;
    forall n: nat | n < w'.attached
      ensures w'.released[n] == 1 || IsHeld(w', n)
    {
      if n < w.attached && w.released[n] != 1 {
        assert IsHeld(w, n);
        var q :| At(w, q).Some? && At(w, q).value.id == n;
        assert At(w', q) == At(w, q);
      }
    }
  }

  /** Where a place after the removal of entry `k` of thread `t` was before it. */
  function Back(t: Thread, k: nat, q: Place): Place {
    if q.InTxn? && q.t == t && q.k >= k then InTxn(t, q.k + 1) else q
  }

  /** Where a place other than the removed entry is after the removal. */
  function Forth(t: Thread, k: nat, p: Place): Place {
    if p.InTxn? && p.t == t && p.k > k then InTxn(t, p.k - 1) else p
  }

  lemma BackAndForth(t: Thread, k: nat, p: Place)
    ensures p != InTxn(t, k) ==> Back(t, k, Forth(t, k, p)) == p
    ensures Back(t, k, p) != InTxn(t, k) && Forth(t, k, Back(t, k, p)) == p
  {
  }

  /** The lists lost entry `k` of thread `t` and changed nowhere else. */
  ghost predicate Ended(w: World, w': World, t: Thread, k: nat) {
    && k < |Prepared(w, t)|
    && (forall u :: Prepared(w', u) == if u == t then Without(Prepared(w, t), k) else Prepared(w, u))
  }

  lemma TakeEnds(w: World, t: Thread, k: nat)
    requires k < |Prepared(w, t)|
    ensures Ended(w, Take(w, t, k), t, k)
  {
    PutOf(w.prepared, t, Without(Prepared(w, t), k));
  }

  lemma WithoutAt(s: seq<Txn>, k: nat, j: nat)
    requires k < |s| && j < |s| - 1
    ensures |Without(s, k)| == |s| - 1 && Without(s, k)[j] == if j < k then s[j] else s[j + 1]
  {
  }

  lemma EndedAt(w: World, w': World, t: Thread, k: nat, u: Thread, j: nat)
    requires Ended(w, w', t, k)
    ensures At(w', InTxn(u, j)) == At(w, Back(t, k, InTxn(u, j)))
  {
    if u == t && j < |Prepared(w, t)| - 1 { WithoutAt(Prepared(w, t), k, j); }
  }

  /** Which residents are left in transactions, and that none doubled. */
  lemma EndedHeld(w: World, w': World, t: Thread, k: nat)
    requires Ended(w, w', t, k)
    ensures forall q: Place :: q.InTxn? ==> At(w', q) == At(w, Back(t, k, q))
    ensures forall p: Place :: p.InTxn? && p != InTxn(t, k) ==> At(w', Forth(t, k, p)) == At(w, p)
  {
    forall q: Place | q.InTxn?
      ensures At(w', q) == At(w, Back(t, k, q))
    {
      EndedAt(w, w', t, k, q.t, q.k);
    }
    forall p: Place | p.InTxn? && p != InTxn(t, k)
      ensures At(w', Forth(t, k, p)) == At(w, p)
    {
      BackAndForth(t, k, p);
      assert Forth(t, k, p).InTxn?;
    }
  }

  /** Ending a transaction with its resident dropped. */
  lemma EndReleases(w: World, w': World, t: Thread, k: nat, r: Option<Resident>)
    requires Conserved(w) && Ended(w, w', t, k) && w'.residents == w.residents && w'.attached == w.attached
    requires r == Prepared(w, t)[k].resident
    requires w'.released == match r case None => w.released case Some(x) => w.released + multiset{x.id}
    ensures Conserved(w')
  {
    EndedHeld(w, w', t, k);
    var lost: set<nat> := if r.Some? then {r.value.id} else {};
    assert At(w, InTxn(t, k)) == r;
    forall q
      ensures At(w', q) == At(w, Back(t, k, q)) && Back(t, k, q) != InTxn(t, k)
    {
      BackAndForth(t, k, q);
    }
    DroppedHeld(w, w', t, k, r, lost);
    RelocateConserves(w, w', lost);
  }

  lemma DroppedHeld(w: World, w': World, t: Thread, k: nat, r: Option<Resident>, lost: set<nat>)
    requires Conserved(w) && At(w, InTxn(t, k)) == r && lost == if r.Some? then {r.value.id} else {}
    requires forall q :: At(w', q) == At(w, Back(t, k, q)) && Back(t, k, q) != InTxn(t, k)
    ensures Apart(w') && (forall n :: IsHeld(w', n) ==> IsHeld(w, n))
    ensures forall n :: IsHeld(w, n) ==> IsHeld(w', n) || n in lost
    ensures forall n :: n in lost ==> IsHeld(w, n) && !IsHeld(w', n)
  {
    forall p, q | At(w', p).Some? && At(w', q).Some? && At(w', p).value.id == At(w', q).value.id
      ensures p == q
    {
      BackAndForth(t, k, p);
      BackAndForth(t, k, q);
    }
    forall n | IsHeld(w', n)
      ensures IsHeld(w, n) && n !in lost
    {
      var q :| At(w', q).Some? && At(w', q).value.id == n;
      assert At(w, Back(t, k, q)).value.id == n;
    }
    forall n | IsHeld(w, n)
      ensures IsHeld(w', n) || n in lost
    {
      var p :| At(w, p).Some? && At(w, p).value.id == n;
      if p != InTxn(t, k) {
        BackAndForth(t, k, p);
        assert At(w', Forth(t, k, p)) == At(w, p);
      }
    }
  }

  /** Ending a transaction whose resident, if any, becomes the live one of `b`. */
  lemma EndAdopts(w: World, w': World, t: Thread, k: nat, b: Bundle, r: Option<Resident>)
    requires Conserved(w) && Ended(w, w', t, k) && b !in w.residents && w'.attached == w.attached
    requires w'.released == w.released
    requires r == Prepared(w, t)[k].resident
    requires w'.residents == match r case None => w.residents case Some(x) => w.residents[b := x]
    ensures Conserved(w')
  {
    match r
    case None => EndReleases(w, w', t, k, r);
    case Some(x) => EndMoves(w, w', t, k, b, x);
  }

  lemma EndMoves(w: World, w': World, t: Thread, k: nat, b: Bundle, x: Resident)
    requires Conserved(w) && Ended(w, w', t, k) && b !in w.residents && w'.attached == w.attached
    requires w'.released == w.released
    requires Prepared(w, t)[k].resident == Some(x) && w'.residents == w.residents[b := x]
    ensures Conserved(w')
  {
    EndedHeld(w, w', t, k);
    forall q | q != InBundle(b)
      ensures At(w', q) == At(w, Back(t, k, q))
    {
      if q.InBundle? { assert At(w', InBundle(q.b)) == At(w, InBundle(q.b)); }
    }
    CarriedConserves(w, w', t, k, InBundle(b));
  }

  /** Where the place `q` was before entry `k` of `t` was carried to place `r`. */
  function Origin(t: Thread, k: nat, r: Place, q: Place): Place {
    if q == r then InTxn(t, k) else Back(t, k, q)
  }

  /** The resident of entry `k` of thread `t` was carried to place `r`, and the entries above moved down. */
  lemma CarriedConserves(w: World, w': World, t: Thread, k: nat, r: Place)
    requires Conserved(w) && w'.attached == w.attached && w'.released == w.released
    requires At(w', r) == At(w, InTxn(t, k)) && At(w, Back(t, k, r)) == None
    requires forall q :: q != r ==> At(w', q) == At(w, Back(t, k, q))
    ensures Conserved(w')
  {
    CarriedHeld(w, w', t, k, r);
    assert w.released + multiset({}) == w.released;
    RelocateConserves(w, w', {});
  }

  lemma CarriedHeld(w: World, w': World, t: Thread, k: nat, r: Place)
    requires Conserved(w) && At(w', r) == At(w, InTxn(t, k)) && At(w, Back(t, k, r)) == None
    requires forall q :: q != r ==> At(w', q) == At(w, Back(t, k, q))
    ensures Apart(w') && forall n :: IsHeld(w', n) <==> IsHeld(w, n)
  {
    assert forall q :: At(w', q) == At(w, Origin(t, k, r, q));
    forall p, q | At(w', p).Some? && At(w', q).Some? && At(w', p).value.id == At(w', q).value.id
      ensures p == q
    {
      BackAndForth(t, k, p);
      BackAndForth(t, k, q);
      assert Origin(t, k, r, p) == Origin(t, k, r, q);
    }
    forall n
      ensures IsHeld(w', n) <==> IsHeld(w, n)
    {
      if IsHeld(w', n) {
        var q :| At(w', q).Some? && At(w', q).value.id == n;
        assert At(w, Origin(t, k, r, q)).value.id == n;
      }
      if IsHeld(w, n) {
        var p :| At(w, p).Some? && At(w, p).value.id == n;
        var q := if p == InTxn(t, k) then r else Forth(t, k, p);
        BackAndForth(t, k, p);
        assert p == InTxn(t, k) || q != r;
        assert Origin(t, k, r, q) == p && At(w', q) == At(w, p);
      }
    }
  }

  /** Releasing the live resident of `b`. */
  lemma LeaveReleases(w: World, w': World, b: Bundle)
    requires Conserved(w) && w'.prepared == w.prepared && w'.residents == w.residents - {b} && w'.attached == w.attached
    requires w'.released == match Previous(w, b) case None => w.released case Some(x) => w.released + multiset{x.id}
    ensures Conserved(w')
  {
    var lost: set<nat> := if b in w.residents then {w.residents[b].id} else {};
    assert forall q :: q != InBundle(b) ==> At(w', q) == At(w, q);
    assert At(w, InBundle(b)) == Previous(w, b) && At(w', InBundle(b)) == None;
    forall n | IsHeld(w, n)
      ensures IsHeld(w', n) || n in lost
    {
      var p :| At(w, p).Some? && At(w, p).value.id == n;
      if p != InBundle(b) { assert At(w', p) == At(w, p); }
    }
    forall n | n in lost
      ensures IsHeld(w, n) && !IsHeld(w', n)
    {
      assert At(w, InBundle(b)).value.id == n;
    }
    forall n | IsHeld(w', n)
      ensures IsHeld(w, n)
    {
      var q :| At(w', q).Some? && At(w', q).value.id == n;
      assert At(w, q) == At(w', q);
    }
    RelocateConserves(w, w', lost);
  }

  // -------------------------------------------------------------- calls

  lemma BeginCore(w: World, t: Thread, b: Bundle, valid: bool)
    requires Core(w) && !w.destroyed
    ensures Core(Begin(w, t, b, valid).0)
  {
    var (w', reply) := Begin(w, t, b, valid);
    if reply.Done? {
      PushedOf(w.prepared, t, Txn(b, [], None));
      forall u, j | 0 <= j < |Prepared(w', u)| && Prepared(w', u)[j].resident.Some?
        ensures Prepared(w', u)[j].resident.value.owner == u
      {
        assert j < |Prepared(w, u)| && Prepared(w', u)[j] == Prepared(w, u)[j];
      }
      assert forall p :: At(w', p) == At(w, p);
      UnmovedConserves(w, w');
    }
  }

  /** Changing entry `k` in place keeps who owns what is staged. */
  lemma UpdateStaged(w: World, w': World, t: Thread, k: nat, txn: Txn)
    requires StagedByOwner(w) && k < |Prepared(w, t)| && (txn.resident.Some? ==> txn.resident.value.owner == t)
    requires w'.prepared == Put(w.prepared, t, Prepared(w, t)[k := txn]) && w'.residents == w.residents
    ensures StagedByOwner(w')
    ensures forall u :: Prepared(w', u) == if u == t then Prepared(w, t)[k := txn] else Prepared(w, u)
    ensures At(w', InTxn(t, k)) == txn.resident && forall q :: q != InTxn(t, k) ==> At(w', q) == At(w, q)
  {
    PutOf(w.prepared, t, Prepared(w, t)[k := txn]);
    forall u, j | 0 <= j < |Prepared(w', u)| && Prepared(w', u)[j].resident.Some?
      ensures Prepared(w', u)[j].resident.value.owner == u
    {
      if u != t || j != k { assert Prepared(w', u)[j] == Prepared(w, u)[j]; }
    }
  }

  /** A provider staged straight into the store. */
  lemma DirectCore(w: World, b: Bundle, x: Provider)
    requires Core(w) && Register(w.store, x.For(b)).Some?
    ensures Core(w.(store := Register(w.store, x.For(b)).value.0))
  {
    AddTheorem(w.store, x.For(b), {});
    StillCore(w, w.(store := Register(w.store, x.For(b)).value.0));
  }

  lemma StageCore(w: World, t: Thread, x: Provider)
    requires Core(w) && !w.destroyed
    ensures Core(Stage(w, t, x).0)
  {
    var s, w' := Stack(w, t), Stage(w, t, x).0;
    if s != [] {
      var b := s[|s| - 1];
      match OpenAt(w, t, b)
      case Some(k) =>
        var txn := Prepared(w, t)[k];
        UpdateStaged(w, w', t, k, txn.(providers := txn.providers + [x]));
        assert forall p :: At(w', p) == At(w, p);
        UnmovedConserves(w, w');
      case None =>
        if Register(w.store, x.For(b)).Some? { DirectCore(w, b, x); }
    }
  }

  lemma AttachCore(w: World, t: Thread, b: Bundle, owner: Thread, wellFormed: bool)
    requires Core(w) && !w.destroyed
    ensures Core(Attach(w, t, b, owner, wellFormed).0)
    ensures Attach(w, t, b, owner, wellFormed).1.Done? ==> IsHeld(Attach(w, t, b, owner, wellFormed).0, w.attached)
  {
    var (w', reply) := Attach(w, t, b, owner, wellFormed);
    if reply.Done? {
      var k := OpenAt(w, t, b).value;
      var txn := Prepared(w, t)[k].(resident := Some(Resident(w.attached, owner)));
      UpdateStaged(w, w', t, k, txn);
      AttachConserves(w, w', InTxn(t, k), owner);
    }
  }

  /** Dropping what transaction `k` held. */
  lemma DropCore(w: World, t: Thread, k: nat)
    requires Core(w) && !w.destroyed && k < |Prepared(w, t)|
    ensures Core(Drop(Take(w, t, k), t, Prepared(w, t)[k].resident))
  {
    var r := Prepared(w, t)[k].resident;
    var w' := Drop(Take(w, t, k), t, r);
    TakeEnds(w, t, k);
    EndReleases(w, w', t, k, r);
    EndedStaged(w, w', t, k);
  }

  lemma EndedStaged(w: World, w': World, t: Thread, k: nat)
    requires StagedByOwner(w) && Ended(w, w', t, k)
    ensures StagedByOwner(w')
  {
    forall u, j | 0 <= j < |Prepared(w', u)| && Prepared(w', u)[j].resident.Some?
      ensures Prepared(w', u)[j].resident.value.owner == u
    {
      if u == t { WithoutAt(Prepared(w, t), k, j); }
    }
  }

  /** Stacks and markers are no part of the core. */
  lemma SameCore(w: World, w': World)
    requires Core(w) && w' == w.(stacks := w'.stacks, marks := w'.marks)
    ensures Core(w')
  {
    StillCore(w, w');
  }

  lemma AbortCore(w: World, t: Thread, b: Bundle)
    requires Core(w) && !w.destroyed
    ensures Core(Abort(w, t, b))
  {
    match OpenAt(w, t, b)
    case None =>
    case Some(k) =>
      DropCore(w, t, k);
      SameCore(Drop(Take(w, t, k), t, Prepared(w, t)[k].resident), Abort(w, t, b));
  }

  /** What a successful commit publishes. */
  ghost predicate PublishedAs(w: World, w': World, b: Bundle, providers: seq<Provider>, handles: seq<Handle>) {
    && b !in w.store.bundles
    && Stored(EnsureBundle(w.store, b), w'.store, b, Bind(b, providers), handles)
  }

  /** Field by field: handle `k` names a slot with what the provider number `k` was staged with, and resolves to it. */
  lemma PublishedFields(w: World, w': World, b: Bundle, providers: seq<Provider>, handles: seq<Handle>, k: nat)
    requires PublishedAs(w, w', b, providers, handles) && k < |providers|
    ensures |handles| == |providers| && LiveAt(w'.store, handles[k].index)
    ensures var r, x := RegAt(w'.store, handles[k].index), providers[k];
      && r.bundle == b && r.contract == x.contract && r.name == x.name && r.major == x.major
      && r.descriptor == x.descriptor && r.interface == x.interface
    ensures Resolve(w'.store, handles[k]) == Interface(providers[k].interface)
  {
    assert HandleHolds(w'.store, handles[k], Bind(b, providers)[k]);
  }

  lemma PublishKeepsStore(d: Data, b: Bundle, providers: seq<Provider>)
    requires Consistent(d, {}) && d.reloading == {} && RegisterPrepared(d, b, Bind(b, providers)).Some?
    ensures var (d', hs) := RegisterPrepared(d, b, Bind(b, providers)).value;
      && b !in d.bundles && Stored(EnsureBundle(d, b), d', b, Bind(b, providers), hs)
      && Consistent(d', {}) && d'.reloading == {} && d'.bundles.Keys == d.bundles.Keys + {b}
  {
    PreparedTheorem(d, b, Bind(b, providers), {});
  }

  /** What a publishing section publishes, read off the state before it. */
  predicate Publishable(d: Data, txn: Txn, accepted: bool) {
    var regs := Bind(txn.bundle, txn.providers);
    accepted && txn.bundle !in d.bundles && !StagedClash(regs) && forall r :: r in regs ==> !Collides(d, r)
  }

  lemma PublishReplies(w: World, t: Thread, txn: Txn, accepted: bool)
    requires Consistent(w.store, {})
    ensures PublishTxn(w, t, txn, accepted).1.Handles? <==> Publishable(w.store, txn, accepted)
  {
    PreparedTheorem(w.store, txn.bundle, Bind(txn.bundle, txn.providers), {});
  }

  /** The publishing section on transaction `k`. */
  lemma PublishCore(w: World, t: Thread, k: nat, accepted: bool)
    requires Core(w) && !w.destroyed && k < |Prepared(w, t)|
    ensures var txn := Prepared(w, t)[k];
      var (w', reply) := PublishTxn(Take(w, t, k), t, txn, accepted);
      Core(w') && (reply.Handles? ==> PublishedAs(w, w', txn.bundle, txn.providers, reply.handles))
  {
    var txn := Prepared(w, t)[k];
    var (w', reply) := PublishTxn(Take(w, t, k), t, txn, accepted);
    TakeEnds(w, t, k);
    if reply.Refusal? {
      DropCore(w, t, k);
    } else {
      PublishKeepsStore(w.store, txn.bundle, txn.providers);
      assert txn.bundle !in w.residents;
      EndAdopts(w, w', t, k, txn.bundle, txn.resident);
      EndedStaged(w, w', t, k);
    }
  }

  lemma CommitCore(w: World, t: Thread, b: Bundle, accepted: bool)
    requires Core(w) && !w.destroyed
    ensures Core(Commit(w, t, b, accepted).0)
  {
    match OpenAt(w, t, b)
    case None => SameCore(w, Commit(w, t, b, accepted).0);
    case Some(k) =>
      PublishCore(w, t, k, accepted);
      SameCore(CommitPrepared(w, t, b, accepted).0, Commit(w, t, b, accepted).0);
  }

  lemma LoadCore(w: World, b: Bundle, providers: seq<Provider>, accepted: bool)
    requires Core(w) && !w.destroyed
    ensures var (w', reply) := Load(w, b, providers, accepted);
      Core(w') && (if reply.Handles? then PublishedAs(w, w', b, providers, reply.handles) else w' == w)
  {
    var (w', reply) := Load(w, b, providers, accepted);
    if reply.Handles? {
      PublishKeepsStore(w.store, b, providers);
      StillCore(w, w');
    }
  }

  lemma UnloadCore(w: World, t: Thread, b: Bundle, busy: bool)
    requires Core(w) && !w.destroyed
    ensures Core(Unload(w, t, b, busy).0)
  {
    var (w', reply) := Unload(w, t, b, busy);
    if reply.Done? {
      InvalidateTheorem(w.store, b, {});
      LeaveReleases(w, w', b);
      assert forall u :: Prepared(w', u) == Prepared(w, u);
    }
  }

  lemma HeldIsHeld(w: World, n: nat)
    ensures n in Held(w) <==> IsHeld(w, n)
  {
    if IsHeld(w, n) {
      var p :| At(w, p).Some? && At(w, p).value.id == n;
      match p
      case InBundle(b) => assert b in w.residents && w.residents[b].id == n;
      case InTxn(t, k) => assert t in w.prepared && w.prepared[t][k].resident.value.id == n;
    }
    if n in Held(w) {
      if b :| b in w.residents && w.residents[b].id == n {
        assert At(w, InBundle(b)).value.id == n;
      } else {
        var t, k :| t in w.prepared && 0 <= k < |w.prepared[t]| && w.prepared[t][k].resident.Some?
                    && w.prepared[t][k].resident.value.id == n;
        assert At(w, InTxn(t, k)).value.id == n;
      }
    }
  }

  /** Destruction is refused without effect, or releases all that is left, each resident once. */
  lemma DestroyCore(w: World, t: Thread)
    requires Core(w)
    ensures var (w', ok) := Destroy(w, t);
      && Core(w') && (ok <==> !w.destroyed && OwnedBy(w, t)) && (!ok ==> w' == w)
      && (ok ==> forall n: nat :: w'.released[n] == if n < w'.attached then 1 else 0)
  {
    var (w', ok) := Destroy(w, t);
    if ok {
      assert forall p :: At(w', p).None?;
      forall n
        ensures n in Held(w) <==> IsHeld(w, n)
      {
        HeldIsHeld(w, n);
      }
      RelocateConserves(w, w', Held(w));
    }
  }

  lemma CallKeepsCore(w: World, c: Call)
    requires Core(w) && !w.destroyed
    ensures Core(Apply(w, c).0)
  {
    match c
    case CallBegin(t, b, valid) => BeginCore(w, t, b, valid);
    case CallStage(t, x) => StageCore(w, t, x);
    case CallAttach(t, b, owner, wellFormed) => AttachCore(w, t, b, owner, wellFormed);
    case CallCommit(t, b, accepted) => CommitCore(w, t, b, accepted);
    case CallCommitInto(t, b, capacity, accepted) =>
      AbortCore(w, t, b);
      CommitCore(w, t, b, accepted);
    case CallAbort(t, b) => AbortCore(w, t, b);
    case CallLoad(t, b, providers, accepted) => LoadCore(w, b, providers, accepted);
    case CallUnload(t, b, busy) => UnloadCore(w, t, b, busy);
    case CallDestroy(t) => DestroyCore(w, t);
  }

  lemma FreshCore()
    ensures Core(FRESH)
  {
    assert forall t :: Stack(FRESH, t) == [] && Prepared(FRESH, t) == [];
    assert forall p :: At(FRESH, p).None?;
  }

  lemma {:induction false} RunKeepsCore(p: seq<World>, calls: seq<Call>, i: nat)
    requires Run(p, calls) && i < |p|
    ensures Core(p[i])
  {
    if i == 0 {
      FreshCore();
    } else {
      RunKeepsCore(p, calls, i - 1);
      CallKeepsCore(p[i - 1], calls[i - 1]);
    }
  }

  // -------------------------------------------------------------- theorems

  /**
    In every run, transactions overlapping and ending in any order: no resident is released
    twice or by a thread other than its owner's; one that is not released is held in exactly
    one place; a refused attach or destroy changes nothing; and a destroy that returns true
    has released every resident ever attached.
   */
  lemma ResidentsReleasedOnce(p: seq<World>, calls: seq<Call>, i: nat)
    requires Run(p, calls) && i < |p|
    ensures !p[i].aborted && forall n: nat :: p[i].released[n] <= 1
    ensures forall n: nat :: n < p[i].attached ==> (p[i].released[n] == 1 <==> !IsHeld(p[i], n))
    ensures p[i].destroyed ==> forall n: nat :: n < p[i].attached ==> p[i].released[n] == 1
    ensures i < |calls| && (calls[i].CallAttach? || calls[i].CallDestroy?) && Apply(p[i], calls[i]).1.Refusal? ==>
      p[i + 1] == p[i]
    ensures i < |calls| && calls[i].CallAttach? && Apply(p[i], calls[i]).1.Done? ==> IsHeld(p[i + 1], p[i].attached)
  {
    RunKeepsCore(p, calls, i);
    assert Conserved(p[i]);
    if i < |calls| && calls[i].CallAttach? {
      AttachCore(p[i], calls[i].t, calls[i].b, calls[i].owner, calls[i].wellFormed);
    }
  }
}
