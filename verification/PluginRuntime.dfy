/**
  The runtime object behind the internal-plugin calls: lists, sets and maps updated in
  place, proved against the transaction functions whose runs are reasoned about.
 */
module PluginRuntime {
  import opened Basics
  import opened ThreadLists
  import opened RegistryStore
  import opened Transactions

  class Runtime {
    var store: Data
    var internal: set<Bundle>
    var prepared: Lists<Txn>
    var marks: set<Bundle>
    var stacks: Lists<Bundle>
    var residents: map<Bundle, Resident>
    var attached: nat
    var released: multiset<nat>
    var aborted: bool
    var destroyed: bool

    ghost function Now(): World
      reads this
    {
      World(store, internal, prepared, marks, stacks, residents, attached, released, aborted, destroyed)
    }

    constructor ()
      ensures Now() == FRESH
    {
      store, internal, prepared, marks, stacks, residents := Data([], map[], map[], {}), {}, map[], {}, map[], map[];
      attached, released, aborted, destroyed := 0, multiset{}, false, false;
    }

    method PopInit(t: Thread)
      modifies this`stacks
      ensures Now() == Pop(old(Now()), t)
    {
      if t in stacks {
        var s := stacks[t];
        if s != [] { s := s[..|s| - 1]; }
        stacks := if s == [] then stacks - {t} else stacks[t := s];
      }
    }

    /** The innermost transaction of `b` on thread `t`. */
    method FindPrepared(t: Thread, b: Bundle) returns (k: Option<nat>)
      ensures k == OpenAt(Now(), t, b)
    {
      if t !in prepared { return None; }
      var s := prepared[t];
      var n: nat := |s|;
      assert s[..n] == s;
      while n > 0
        invariant n <= |s| && LastIndex(s, b) == LastIndex(s[..n], b)
      {
        assert s[..n][..n - 1] == s[..n - 1];
        if s[n - 1].bundle == b { return Some(n - 1); }
        n := n - 1;
      }
      assert s[..n] == [];
      return None;
    }

    method BeginInternalPlugin(t: Thread, b: Bundle, valid: bool) returns (reply: Reply)
      modifies this
      ensures (Now(), reply) == Begin(old(Now()), t, b, valid)
    {
      if !valid { return Refusal; }
      if b in store.bundles { return Refusal; }
      prepared := prepared[t := (if t in prepared then prepared[t] else []) + [Txn(b, [], None)]];
      marks := marks + {b};
      stacks := stacks[t := (if t in stacks then stacks[t] else []) + [b]];
      return Done;
    }

    method TakePrepared(t: Thread, k: nat) returns (txn: Txn)
      requires k < |Prepared(Now(), t)|
      modifies this`prepared
      ensures txn == Prepared(old(Now()), t)[k] && Now() == Take(old(Now()), t, k)
    {
      var s := prepared[t];
      txn := s[k];
      s := s[..k] + s[k + 1..];
      prepared := if s == [] then prepared - {t} else prepared[t := s];
    }

    method ReleaseResident(t: Thread, r: Option<Resident>)
      modifies this`released, this`aborted
      ensures Now() == Drop(old(Now()), t, r)
    {
      if r.Some? {
        if r.value.owner == t { released := released + multiset{r.value.id}; } else { aborted := true; }
      }
    }

    method AttachResident(t: Thread, b: Bundle, owner: Thread, wellFormed: bool) returns (reply: Reply)
      modifies this`prepared, this`attached
      ensures (Now(), reply) == Attach(old(Now()), t, b, owner, wellFormed)
    {
      if !wellFormed { return Refusal; }
      if owner != t { return Refusal; }
      var k := FindPrepared(t, b);
      if k.None? { return Refusal; }
      var s := prepared[t];
      if s[k.value].resident.Some? { return Refusal; }
      prepared := prepared[t := s[k.value := s[k.value].(resident := Some(Resident(attached, owner)))]];
      attached := attached + 1;
      return Done;
    }

    /** Validates and publishes in one store section, or drops what was staged. */
    method CommitTransaction(t: Thread, b: Bundle, accepted: bool) returns (reply: Reply)
      modifies this
      ensures (Now(), reply) == CommitPrepared(old(Now()), t, b, accepted)
    {
      var k := FindPrepared(t, b);
      if k.None? { return Refusal; }
      var txn := TakePrepared(t, k.value);
      assert txn.bundle == b;
      if !accepted {
        ReleaseResident(t, txn.resident);
        return Refusal;
      }
      var done := RegisterPrepared(store, b, Bind(b, txn.providers));
      if done.None? {
        ReleaseResident(t, txn.resident);
        return Refusal;
      }
      store := done.value.0;
      internal := internal + {b};
      if txn.resident.Some? {
        ReleaseResident(t, if b in residents then Some(residents[b]) else None);
        residents := residents[b := txn.resident.value];
      }
      return Handles(done.value.1);
    }

    method CommitInternalPlugin(t: Thread, b: Bundle, accepted: bool) returns (reply: Reply)
      modifies this
      ensures (Now(), reply) == Commit(old(Now()), t, b, accepted)
    {
      reply := CommitTransaction(t, b, accepted);
      PopInit(t);
      if reply.Refusal? { marks := marks - {b}; }
    }

    method AbortInternalPlugin(t: Thread, b: Bundle)
      modifies this
      ensures Now() == Abort(old(Now()), t, b)
    {
      var k := FindPrepared(t, b);
      if k.Some? {
        var txn := TakePrepared(t, k.value);
        ReleaseResident(t, txn.resident);
        marks := marks - {b};
        PopInit(t);
      }
    }

    /** The caller's buffer is filled exactly on success, in staging order. */
    method CommitIntoHandles(t: Thread, b: Bundle, out: array<Handle>, accepted: bool) returns (reply: Reply)
      modifies this, out
      ensures (Now(), reply) == CommitInto(old(Now()), t, b, out.Length, accepted)
      ensures out[..] == if reply.Handles? then reply.handles else old(out[..])
    {
      var k := FindPrepared(t, b);
      if k.None? || |prepared[t][k.value].providers| != out.Length {
        AbortInternalPlugin(t, b);
        return Refusal;
      }
      reply := CommitInternalPlugin(t, b, accepted);
      if reply.Handles? {
        forall i | 0 <= i < out.Length {
          out[i] := reply.handles[i];
        }
      }
    }

    method UnloadRegistered(t: Thread, b: Bundle, busy: bool) returns (reply: Reply)
      modifies this
      ensures (Now(), reply) == Unload(old(Now()), t, b, busy)
    {
      if b !in store.bundles || busy { return Refusal; }
      if b in residents && residents[b].owner != t { return Refusal; }
      var resident := if b in residents then Some(residents[b]) else None;
      residents := residents - {b};
      store := InvalidateBundle(store, b);
      internal := internal - {b};
      marks := marks - {b};
      ReleaseResident(t, resident);
      return Done;
    }

    /** Registration by the bundle that is in init on the calling thread. */
    method StageProvider(t: Thread, x: Provider) returns (reply: Reply)
      modifies this
      ensures (Now(), reply) == Stage(old(Now()), t, x)
    {
      if t !in stacks || stacks[t] == [] { return Refusal; }
      var b := stacks[t][|stacks[t]| - 1];
      var k := FindPrepared(t, b);
      if k.Some? {
        var s := prepared[t];
        prepared := prepared[t := s[k.value := s[k.value].(providers := s[k.value].providers + [x])]];
        return Done;
      }
      var done := Register(store, x.For(b));
      if done.None? { return Refusal; }
      store := done.value.0;
      return Done;
    }

    /** Whether every resident, live or staged, belongs to thread `t`. */
    method CanDestroyOn(t: Thread) returns (ok: bool)
      ensures ok == OwnedBy(Now(), t)
    {
      OwnedByScan(Now(), t);
      if exists b | b in residents :: residents[b].owner != t { return false; }
      ok := !exists u, k | u in prepared && 0 <= k < |prepared[u]| ::
          prepared[u][k].resident.Some? && prepared[u][k].resident.value.owner != t;
    }

    /** False leaves everything in place for the owner's thread to retry; true consumes the runtime. */
    method DestroyRuntime(t: Thread) returns (consumed: bool)
      requires !destroyed
      modifies this
      ensures (Now(), consumed) == Destroy(old(Now()), t)
    {
      consumed := CanDestroyOn(t);
      if consumed {
        var held := Held(World(store, internal, prepared, marks, stacks, residents, attached, released, aborted,
          destroyed));
        released := released + multiset(held);
        residents, prepared, destroyed := map[], map[], true;
      }
    }
  }

  /** Scanning the live and the staged residents decides ownership. */
  lemma OwnedByScan(w: World, t: Thread)
    ensures OwnedBy(w, t) <==>
      && (forall b :: b in w.residents ==> w.residents[b].owner == t)
      && (forall u, k :: u in w.prepared && 0 <= k < |w.prepared[u]| && w.prepared[u][k].resident.Some? ==>
           w.prepared[u][k].resident.value.owner == t)
  {
    if OwnedBy(w, t) {
      forall b | b in w.residents
        ensures w.residents[b].owner == t
      {
        assert At(w, InBundle(b)) == Some(w.residents[b]);
      }
      forall u, k | u in w.prepared && 0 <= k < |w.prepared[u]| && w.prepared[u][k].resident.Some?
        ensures w.prepared[u][k].resident.value.owner == t
      {
        assert At(w, InTxn(u, k)) == w.prepared[u][k].resident;
      }
    }
  }
}
