/**
  The store itself: fields changed in place under the write lock, and the read view
  that each completed section publishes. Every method is proved against the registry
  function that the theorems about runs speak of.
 */
module RuntimeStore {
  import opened Basics
  import opened RegistryStore

  class Store {
    var slots: seq<Slot>
    var index: map<Contract, seq<Index>>
    var bundles: map<Bundle, seq<Index>>
    var reloading: set<Bundle>
    /** What lock-free readers load. */
    var published: Data

    ghost function Now(): Data
      reads this
    {
      Data(slots, index, bundles, reloading)
    }

    constructor ()
      ensures Now() == Data([], map[], map[], {}) && published == Now()
    {
      slots, index, bundles, reloading := [], map[], map[], {};
      published := Data([], map[], map[], {});
    }

    method Publish()
      modifies this`published
      ensures published == Now()
    {
      published := Data(slots, index, bundles, reloading);
    }

    method Vacate(i: Index)
      modifies this`slots, this`index
      ensures Now() == VacateSlot(old(Now()), i)
    {
      if i >= |slots| { return; }
      if slots[i].reg.Some? {
        Forget(slots[i].reg.value.contract, i);
      }
      slots := slots[i := Slot(None, (slots[i].generation + 1) % GENERATIONS)];
    }

    /** Drops slot `i` from the find list of `c`, and the list when it empties. */
    method Forget(c: Contract, i: Index)
      modifies this`index
      ensures Now() == Unindex(old(Now()), c, i)
    {
      if c in index {
        var rest := Retain(index[c], i);
        index := if rest == [] then index - {c} else index[c := rest];
      }
    }

    method Disown(b: Bundle, i: Index)
      modifies this`bundles
      ensures Now() == DropOwned(old(Now()), b, i)
    {
      if b in bundles { bundles := bundles[b := Retain(bundles[b], i)]; }
    }

    method InsertPrepared(r: Registration, publish: bool) returns (h: Handle)
      requires r.bundle in bundles
      modifies this`slots, this`index, this`bundles
      ensures (Now(), h) == Insert(old(Now()), r, publish)
    {
      var n := 0;
      while n < |slots| && slots[n].reg.Some?
        invariant n <= |slots|
        invariant FirstVacant(slots) == n + FirstVacant(slots[n..])
      {
        assert slots[n..][1..] == slots[n + 1..];
        n := n + 1;
      }
      if n == |slots| { slots := slots + [Slot(None, 0)]; }
      h := Handle(n, slots[n].generation);
      slots := slots[n := slots[n].(reg := Some(r))];
      if publish {
        index := index[r.contract := (if r.contract in index then index[r.contract] else []) + [n]];
      }
      bundles := bundles[r.bundle := bundles[r.bundle] + [n]];
    }

    /** Whether a published contract of the same id has another name, or is the bundle's own outside a reload. */
    method IsRefused(r: Registration) returns (refused: bool)
      ensures refused == Refused(Now(), r)
    {
      var list := if r.contract in index then index[r.contract] else [];
      assert list == Indexed(Now(), r.contract);
      for k := 0 to |list|
        invariant forall j :: 0 <= j < k && LiveAt(Now(), list[j]) ==>
          RegAt(Now(), list[j]).name == r.name && (RegAt(Now(), list[j]).bundle != r.bundle || r.bundle in reloading)
      {
        if list[k] < |slots| && slots[list[k]].reg.Some? {
          var existing := slots[list[k]].reg.value;
          assert list[k] in Indexed(Now(), r.contract);
          if existing.name != r.name { return true; }
          if existing.bundle == r.bundle && r.bundle !in reloading { return true; }
        }
      }
      return false;
    }

    method RegisterGuestContract(r: Registration) returns (h: Option<Handle>)
      modifies this
      ensures match Register(old(Now()), r)
              case None => h == None && Now() == old(Now()) && published == old(published)
              case Some(done) => h == Some(done.1) && Now() == done.0 && published == Now()
    {
      var pending := r.bundle in reloading;
      var refused := IsRefused(r);
      if refused { return None; }
      if r.bundle !in bundles { bundles := bundles[r.bundle := []]; }
      assert Now() == EnsureBundle(old(Now()), r.bundle);
      var minted := InsertPrepared(r, !pending);
      Publish();
      return Some(minted);
    }

    /** Whether two staged registrations clash. */
    static method ClashIn(regs: seq<Registration>) returns (clash: bool)
      ensures clash == StagedClash(regs)
    {
      for j := 0 to |regs|
        invariant forall i, k :: 0 <= i < k < j ==> !Clash(regs[i], regs[k])
      {
        for i := 0 to j
          invariant forall k :: 0 <= k < i ==> !Clash(regs[k], regs[j])
        {
          if regs[i].contract == regs[j].contract {
            if regs[i].name != regs[j].name { return true; }
            if regs[i].descriptor == regs[j].descriptor { return true; }
          }
        }
      }
      return false;
    }

    /** One published view exposes the whole staged bundle, or nothing changes. */
    method RegisterPreparedBundle(b: Bundle, regs: seq<Registration>) returns (hs: Option<seq<Handle>>)
      requires forall r :: r in regs ==> r.bundle == b
      modifies this
      ensures match RegisterPrepared(old(Now()), b, regs)
              case None => hs == None && Now() == old(Now()) && published == old(published)
              case Some(done) => hs == Some(done.1) && Now() == done.0 && published == Now()
    {
      var clash := ClashIn(regs);
      if clash { return None; }
      var visible := b !in reloading;
      for k := 0 to |regs|
        invariant forall j :: 0 <= j < k ==> !Refused(Now(), regs[j])
        invariant Now() == old(Now()) && published == old(published)
      {
        var refused := IsRefused(regs[k]);
        if refused {
          assert regs[k] in regs;
          return None;
        }
      }
      if b in bundles { return None; }
      bundles := bundles[b := []];
      ghost var start := Now();
      var minted := InsertStaged(b, regs, visible);
      assert start == EnsureBundle(old(Now()), b);
      Publish();
      return Some(minted);
    }

    method InsertStaged(b: Bundle, regs: seq<Registration>, visible: bool) returns (hs: seq<Handle>)
      requires b in bundles && forall r :: r in regs ==> r.bundle == b
      modifies this`slots, this`index, this`bundles
      ensures (Now(), hs) == InsertAll(old(Now()), b, regs, visible)
    {
      hs := [];
      ghost var all := InsertAll(Now(), b, regs, visible);
      assert regs[0..] == regs && [] + all.1 == all.1;
      for k := 0 to |regs|
        invariant b in bundles
        invariant InsertAll(Now(), b, regs[k..], visible).0 == all.0
        invariant hs + InsertAll(Now(), b, regs[k..], visible).1 == all.1
      {
        ghost var before := Now();
        assert regs[k] in regs && regs[k..][0] == regs[k] && regs[k..][1..] == regs[k + 1..];
        var h := InsertPrepared(regs[k], visible);
        ghost var rest := InsertAll(Now(), b, regs[k + 1..], visible).1;
        assert InsertAll(before, b, regs[k..], visible).1 == [h] + rest;
        assert hs + ([h] + rest) == hs + [h] + rest;
        hs := hs + [h];
      }
      assert regs[|regs|..] == [] && hs + [] == hs;
    }

    method OpenReload(b: Bundle)
      modifies this
      ensures Now() == BeginReload(old(Now()), b) && published == Now()
    {
      reloading := reloading + {b};
      Publish();
    }

    /** Reconciles one old slot. */
    method Reconcile(b: Bundle, o: Index, arrived: seq<Index>) returns (ok: bool)
      modifies this`slots, this`index, this`bundles
      ensures (Now(), ok) == SwapOne(old(Now()), b, o, arrived)
    {
      if o >= |slots| || slots[o].reg.None? { return false; }
      var c := slots[o].reg.value.contract;
      var m := FirstMatch(Data(slots, index, bundles, reloading), arrived, c);
      if m.None? {
        Vacate(o);
        Disown(b, o);
        return true;
      }
      var n := m.value;
      if n >= |slots| || slots[n].reg.None? || n == o { return false; }
      var moved := slots[n].reg;
      slots := slots[n := Slot(None, (slots[n].generation + 1) % GENERATIONS)];
      slots := slots[o := slots[o].(reg := moved)];
      if c in index { index := index[c := Retain(index[c], n)]; }
      Disown(b, n);
      assert slots == MoveInto(old(Now()), b, o, n).slots;
      return true;
    }

    method PublishArrivals(arrived: seq<Index>)
      modifies this`index
      ensures Now() == PublishFresh(old(Now()), arrived)
    {
      for k := 0 to |arrived|
        invariant PublishFresh(Now(), arrived[k..]) == PublishFresh(old(Now()), arrived)
      {
        var n := arrived[k];
        assert arrived[k..][0] == n && arrived[k..][1..] == arrived[k + 1..];
        if n < |slots| && slots[n].reg.Some? {
          var c := slots[n].reg.value.contract;
          var list := if c in index then index[c] else [];
          if n !in list { index := index[c := list + [n]]; }
        }
      }
    }

    /** Readers see the reconciled registry only when the whole swap succeeded. */
    method ApplyReloadSwap(b: Bundle, before: seq<Index>) returns (outcome: SwapOutcome)
      modifies this
      ensures (Now(), outcome) == ApplySwap(old(Now()), b, before)
      ensures published == if outcome.Swapped? then Now() else old(published)
    {
      reloading := reloading - {b};
      var arrived := Minus(if b in bundles then bundles[b] else [], before);
      ghost var start := Now();
      for k := 0 to |before|
        invariant SwapAll(Now(), b, before[k..], arrived) == SwapAll(start, b, before, arrived)
        invariant published == old(published)
      {
        assert before[k..][0] == before[k] && before[k..][1..] == before[k + 1..];
        var ok := Reconcile(b, before[k], arrived);
        if !ok { return InvalidHandle; }
      }
      PublishArrivals(arrived);
      if b !in bundles { return MissingBundle; }
      Publish();
      return Swapped;
    }

    method Purge(b: Bundle, n: Index)
      modifies this`slots, this`index, this`bundles
      ensures Now() == PurgeOne(old(Now()), b, n)
    {
      var reg := if n < |slots| then slots[n].reg else None;
      if n < |slots| { slots := slots[n := slots[n].(reg := None)]; }
      if reg.Some? { Forget(reg.value.contract, n); }
      Disown(b, n);
    }

    method AbandonReload(b: Bundle, before: seq<Index>)
      modifies this
      ensures Now() == AbortReload(old(Now()), b, before) && published == Now()
    {
      reloading := reloading - {b};
      var pending := Minus(if b in bundles then bundles[b] else [], before);
      ghost var start := Now();
      for k := 0 to |pending|
        invariant PurgeAll(Now(), b, pending[k..]) == PurgeAll(start, b, pending)
      {
        var n := pending[k];
        assert pending[k..][0] == n && pending[k..][1..] == pending[k + 1..];
        Purge(b, n);
      }
      Publish();
    }

    method Invalidate(b: Bundle) returns (count: nat)
      modifies this
      ensures Now() == InvalidateBundle(old(Now()), b) && count == |Slots(old(Now()), b)|
      ensures published == if b in old(bundles) then Now() else old(published)
    {
      if b !in bundles { return 0; }
      var list := bundles[b];
      for k := 0 to |list|
        invariant VacateAll(Now(), list[k..]) == VacateAll(old(Now()), list)
        invariant bundles == old(bundles)
      {
        assert list[k..][0] == list[k] && list[k..][1..] == list[k + 1..];
        Vacate(list[k]);
      }
      bundles := bundles - {b};
      Publish();
      return |list|;
    }

    /** Lock-free: answers from the published view. */
    method FindGuestContract(c: Contract, floor: nat) returns (h: Option<Handle>)
      requires forall i :: i in Indexed(published, c) ==> i < |published.slots|
      ensures h == Find(published, c, floor)
      ensures h.Some? ==> exists k :: FirstFit(published, Indexed(published, c), floor, k, h.value)
      ensures h.None? ==> forall i :: i in Indexed(published, c) && published.slots[i].reg.Some? ==>
        published.slots[i].reg.value.major < floor
    {
      FirstLiveMeans(published, Indexed(published, c), floor);
      var list := if c in published.index then published.index[c] else [];
      assert list == Indexed(published, c);
      for k := 0 to |list|
        invariant FirstLive(published, list[k..], floor) == FirstLive(published, list, floor)
      {
        assert list[k..][0] == list[k] && list[k..][1..] == list[k + 1..];
        assert list[k] in list;
        if published.slots[list[k]].reg.Some? && published.slots[list[k]].reg.value.major >= floor {
          return Some(Handle(list[k], published.slots[list[k]].generation));
        }
      }
      return None;
    }
  }
}
