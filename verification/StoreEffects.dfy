/**
  The effect of whole store sections on a consistent registry: closing a reload
  window by swap or abort, invalidating a bundle, publishing a staged bundle.
 */
module StoreEffects {
  import opened Basics
  import opened RegistryStore
  import opened RegistryInvariant
  import opened ReloadSwap

  /** `b`'s reload window is open: `before` were its slots, `pending` are hidden arrivals. */
  ghost predicate WindowOpen(d: Data, b: Bundle, before: seq<Index>, pending: seq<Index>) {
    Slots(d, b) == before + pending && Consistent(d, Members(pending))
  }

  /** Other bundles keep their slot lists, and slots outside `touched` are untouched. */
  ghost predicate Frame(d: Data, d': Data, b: Bundle, touched: seq<Index>) {
    && |d'.slots| >= |d.slots|
    && (forall x :: x != b ==> Slots(d', x) == Slots(d, x))
    && (forall i: Index :: i < |d.slots| && i !in touched ==> d'.slots[i] == d.slots[i])
  }

  // ------------------------------------------------------------ publishing

  /** Publishing what arrived leaves nothing pending. */
  lemma {:induction false} PublishFreshKeeps(d: Data, arrived: seq<Index>, pending: set<Index>)
    requires Consistent(d, pending) && forall i :: i in pending ==> i in arrived
    ensures var d' := PublishFresh(d, arrived);
      Consistent(d', {}) && d'.slots == d.slots && d'.bundles == d.bundles && d'.reloading == d.reloading
    decreases |arrived|
  {
    if arrived == [] {
      assert pending == {};
    } else {
      var n := arrived[0];
      assert arrived == [n] + arrived[1..];
      assert SlotLinked(d, pending, n);
      if n in pending {
        PublishOneKeeps(d, n, pending);
        PublishFreshKeeps(PublishOne(d, n), arrived[1..], pending - {n});
      } else {
        PublishFreshKeeps(d, arrived[1..], pending);
      }
    }
  }

  // ------------------------------------------------------------------ swap

  lemma DisjointParts(s: seq<Index>, t: seq<Index>)
    requires NoDup(s + t)
    ensures forall x :: x in t ==> x !in s
  {
    assert forall k :: 0 <= k < |s| ==> (s + t)[k] == s[k];
    assert forall k :: 0 <= k < |t| ==> (s + t)[|s| + k] == t[k];
  }

  lemma OpenIsMid(d: Data, b: Bundle, before: seq<Index>, pending: seq<Index>)
    requires WindowOpen(d, b, before, pending) && b in d.bundles
    ensures Minus(Slots(d, b), before) == pending
    ensures Mid(d.(reloading := d.reloading - {b}), b, [], before, pending, pending)
  {
    var d0 := d.(reloading := d.reloading - {b});
    var all := before + pending;
    assert NoDup(Slots(d, b));
    DisjointParts(before, pending);
    MinusPrefix(before, pending, before);
    ReloadingIrrelevant(d, d0, Members(pending));
    assert [] + before + pending == all;
    forall n | n in pending
      ensures LiveAt(d0, n)
    {
      assert n in all && n in Slots(d, b);
    }
  }

  lemma ReloadingIrrelevant(d: Data, d': Data, pending: set<Index>)
    requires Consistent(d, pending) && d'.slots == d.slots && d'.index == d.index && d'.bundles == d.bundles
    ensures Consistent(d', pending)
  {
    assert forall c :: Indexed(d', c) == Indexed(d, c);
    assert forall b :: Slots(d', b) == Slots(d, b);
    assert forall i: Index :: LiveAt(d', i) == LiveAt(d, i);
    forall i: Index
      ensures SlotLinked(d', pending, i)
    {
      assert SlotLinked(d, pending, i);
    }
    forall c, i | i in Indexed(d', c)
      ensures LiveAt(d', i) && RegAt(d', i).contract == c
    {
      assert i in Indexed(d, c);
    }
    forall b, i | i in Slots(d', b)
      ensures LiveAt(d', i) && RegAt(d', i).bundle == b
    {
      assert i in Slots(d, b);
    }
  }

  lemma ApplySwapIs(d: Data, b: Bundle, before: seq<Index>, pending: seq<Index>, d1: Data)
    requires Minus(Slots(d, b), before) == pending
    requires SwapAll(d.(reloading := d.reloading - {b}), b, before, pending) == (d1, true)
    requires b in PublishFresh(d1, pending).bundles
    ensures ApplySwap(d, b, before) == (PublishFresh(d1, pending), Swapped)
  {
  }

  lemma SwapShape(d: Data, b: Bundle, before: seq<Index>, pending: seq<Index>)
    returns (d0: Data, d1: Data, kept: seq<Index>, rem: seq<Index>)
    requires WindowOpen(d, b, before, pending) && b in d.bundles
    ensures d0 == d.(reloading := d.reloading - {b})
    ensures Reconciled(d0, d1, b, [], before, pending, kept, rem)
    ensures ApplySwap(d, b, before) == (PublishFresh(d1, pending), Swapped)
    ensures var d' := PublishFresh(d1, pending);
      Consistent(d', {}) && d'.slots == d1.slots && d'.bundles == d1.bundles && d'.reloading == d1.reloading
    ensures Slots(d1, b) == kept + rem && d1.bundles.Keys == d.bundles.Keys
  {
    OpenIsMid(d, b, before, pending);
    d0 := d.(reloading := d.reloading - {b});
    kept, rem := SwapReconciles(d0, b, [], before, pending, pending);
    d1 := SwapAll(d0, b, before, pending).0;
    MidPublishes(d1, b, kept, rem, pending);
    SwapAllKeys(d0, b, before, pending);
    ApplySwapIs(d, b, before, pending, d1);
  }

  lemma MidPublishes(d: Data, b: Bundle, kept: seq<Index>, rem: seq<Index>, arrived: seq<Index>)
    requires Mid(d, b, kept, [], rem, arrived)
    ensures var d' := PublishFresh(d, arrived);
      Consistent(d', {}) && d'.slots == d.slots && d'.bundles == d.bundles && d'.reloading == d.reloading
    ensures Slots(d, b) == kept + rem
  {
    PublishFreshKeeps(d, arrived, Members(rem));
    assert kept + [] + rem == kept + rem;
  }

  lemma SwapCounts(d: Data, d0: Data, d1: Data, d': Data, b: Bundle, before: seq<Index>, pending: seq<Index>,
                   kept: seq<Index>, rem: seq<Index>, q: Query)
    requires Reconciled(d0, d1, b, [], before, pending, kept, rem) && d0.slots == d.slots && d'.slots == d1.slots
    ensures CountIn(d', kept + rem, q) == CountIn(d, pending, q)
  {
    CountAppend(d', kept, rem, q);
    CountsBySlots(d1, d', kept, q);
    CountsBySlots(d1, d', rem, q);
    CountsBySlots(d, d0, pending, q);
    assert CountIn(d0, [], q) + CountIn(d0, pending, q) == CountIn(d1, kept, q) + CountIn(d1, rem, q);
  }

  lemma SwapFate(d: Data, d0: Data, d1: Data, d': Data, b: Bundle, before: seq<Index>, pending: seq<Index>,
                 kept: seq<Index>, rem: seq<Index>, j: nat)
    requires Reconciled(d0, d1, b, [], before, pending, kept, rem) && d0.slots == d.slots && d'.slots == d1.slots
    requires j < |before|
    ensures OldSlotFate(d, d', before, pending, j)
  {
    assert OldSlotFate(d0, d1, before, pending, j);
    var q := Providing(RegAt(d, before[j]).contract);
    CountsBySlots(d, d0, before[..j], q);
    CountsBySlots(d, d0, pending, q);
  }

  /**
    The swap theorem: on an open window it always succeeds, hides nothing, makes exactly
    the arrivals the bundle's registrations, and decides the fate of every old slot.
   */
  lemma SwapTheorem(d: Data, b: Bundle, before: seq<Index>, pending: seq<Index>)
    requires WindowOpen(d, b, before, pending) && b in d.bundles
    ensures var (d', outcome) := ApplySwap(d, b, before);
      && outcome == Swapped && d'.reloading == d.reloading - {b}
      && Consistent(d', {}) && d'.bundles.Keys == d.bundles.Keys
      && (forall q :: CountIn(d', Slots(d', b), q) == CountIn(d, pending, q))
      && Frame(d, d', b, before + pending)
      && (forall j :: 0 <= j < |before| ==> OldSlotFate(d, d', before, pending, j))
  {
    var d0, d1, kept, rem := SwapShape(d, b, before, pending);
    var d' := ApplySwap(d, b, before).0;
    forall q
      ensures CountIn(d', Slots(d', b), q) == CountIn(d, pending, q)
    {
      SwapCounts(d, d0, d1, d', b, before, pending, kept, rem, q);
    }
    forall j | 0 <= j < |before|
      ensures OldSlotFate(d, d', before, pending, j)
    {
      SwapFate(d, d0, d1, d', b, before, pending, kept, rem, j);
    }
    assert forall x :: x != b ==> Slots(d', x) == Slots(d1, x) && Slots(d0, x) == Slots(d, x);
    assert forall i: Index :: i !in before + pending ==> i !in before && i !in pending;
  }

  lemma {:induction false} CountsBySlots(d: Data, d': Data, s: seq<Index>, q: Query)
    requires d'.slots == d.slots
    ensures CountIn(d, s, q) == CountIn(d', s, q)
  {
    if s != [] { CountsBySlots(d, d', s[1..], q); }
  }

  lemma {:induction false} SwapAllKeys(d: Data, b: Bundle, before: seq<Index>, arrived: seq<Index>)
    ensures SwapAll(d, b, before, arrived).0.bundles.Keys == d.bundles.Keys
    decreases |before|
  {
    if before != [] {
      var (d1, ok) := SwapOne(d, b, before[0], arrived);
      assert d1.bundles.Keys == d.bundles.Keys;
      if ok { SwapAllKeys(d1, b, before[1..], arrived); }
    }
  }

  // ----------------------------------------------------------------- abort

  lemma PurgeShrinks(d: Data, b: Bundle, n: Index)
    requires LiveAt(d, n) && RegAt(d, n).bundle == b
    ensures Shrunk(d, PurgeOne(d, b, n), b, n) && PurgeOne(d, b, n).slots[n].generation == d.slots[n].generation
  {
  }

  /** Purging the pending slots changes nothing that the index leads to. */
  lemma {:induction false} PurgeTheorem(d: Data, b: Bundle, before: seq<Index>, pending: seq<Index>)
    requires WindowOpen(d, b, before, pending)
    ensures var d' := PurgeAll(d, b, pending);
      && WindowOpen(d', b, before, []) && d'.bundles.Keys == d.bundles.Keys && d'.reloading == d.reloading
      && Frame(d, d', b, pending) && (forall c :: Indexed(d', c) == Indexed(d, c))
    decreases |pending|
  {
    if pending != [] {
      var n, rest := pending[0], pending[1..];
      var d1 := PurgeOne(d, b, n);
      PurgeStep(d, b, before, pending);
      PurgeTheorem(d1, b, before, rest);
    }
  }

  lemma PurgeStep(d: Data, b: Bundle, before: seq<Index>, pending: seq<Index>)
    requires WindowOpen(d, b, before, pending) && pending != []
    ensures var d' := PurgeOne(d, b, pending[0]);
      && WindowOpen(d', b, before, pending[1..]) && d'.bundles.Keys == d.bundles.Keys && d'.reloading == d.reloading
      && |d'.slots| == |d.slots|
      && (forall x :: x != b ==> Slots(d', x) == Slots(d, x))
      && (forall i: Index :: i < |d.slots| && i != pending[0] ==> d'.slots[i] == d.slots[i])
      && (forall c :: Indexed(d', c) == Indexed(d, c))
  {
    var n, rest := pending[0], pending[1..];
    var d' := PurgeOne(d, b, n);
    assert n in before + pending && n in Slots(d, b);
    PurgeShrinks(d, b, n);
    ShrunkKeeps(d, d', b, n, Members(pending));
    PartsDistinct(d, b, before, pending);
    assert Members(pending) - {n} == Members(rest);
    RetainOut(before, pending, [], n);
    assert before + pending + [] == before + pending && before + rest + [] == before + rest;
    assert SlotLinked(d, Members(pending), n);
    RetainFacts(Indexed(d, RegAt(d, n).contract), n);
  }

  lemma PartsDistinct(d: Data, b: Bundle, before: seq<Index>, pending: seq<Index>)
    requires WindowOpen(d, b, before, pending) && pending != []
    ensures pending[0] !in before && pending[0] !in pending[1..]
  {
    assert NoDup(Slots(d, b));
    DisjointParts(before, pending);
    DisjointParts(before + [pending[0]], pending[1..]) by {
      assert before + [pending[0]] + pending[1..] == before + pending;
    }
  }

  /** A failed reload leaves the previous version in place and every lookup unchanged. */
  lemma AbortTheorem(d: Data, b: Bundle, before: seq<Index>, pending: seq<Index>)
    requires WindowOpen(d, b, before, pending)
    ensures var d' := AbortReload(d, b, before);
      && WindowOpen(d', b, before, []) && d'.bundles.Keys == d.bundles.Keys && d'.reloading == d.reloading - {b}
      && Frame(d, d', b, pending) && (forall c :: Indexed(d', c) == Indexed(d, c))
  {
    var d0 := d.(reloading := d.reloading - {b});
    ReloadingIrrelevant(d, d0, Members(pending));
    assert NoDup(Slots(d, b));
    DisjointParts(before, pending);
    MinusPrefix(before, pending, before);
    PurgeTheorem(d0, b, before, pending);
    assert forall c :: Indexed(d0, c) == Indexed(d, c);
    assert forall x :: Slots(d0, x) == Slots(d, x);
  }

  // ------------------------------------------------------------ invalidation

  /** The slots of `s` were cleared and dropped from the index; owner lists were not. */
  ghost predicate Vacated(d: Data, d': Data, s: seq<Index>) {
    && |d'.slots| == |d.slots| && d'.bundles == d.bundles && d'.reloading == d.reloading
    && (forall i: Index :: i < |d.slots| && i !in s ==> d'.slots[i] == d.slots[i])
    && (forall i :: i in s ==> i < |d.slots| && d'.slots[i] == Slot(None, Bumped(d.slots[i].generation)))
    && (forall c :: NoDup(Indexed(d', c)))
    && (forall c, i {:trigger i in Indexed(d', c)} {:trigger i in Indexed(d, c)} ::
          i in Indexed(d', c) <==> i in Indexed(d, c) && i !in s)
  }

  lemma VacateOne(d: Data, i: Index)
    requires LiveAt(d, i)
    ensures var d' := VacateSlot(d, i);
      && |d'.slots| == |d.slots| && d'.bundles == d.bundles && d'.reloading == d.reloading
      && d'.slots[i] == Slot(None, Bumped(d.slots[i].generation))
      && (forall k: Index :: k < |d.slots| && k != i ==> d'.slots[k] == d.slots[k])
      && (forall c :: Indexed(d', c) == if c == RegAt(d, i).contract then Retain(Indexed(d, c), i) else Indexed(d, c))
  {
  }

  lemma VacateFirst(d: Data, i: Index)
    requires LiveAt(d, i) && (forall c :: NoDup(Indexed(d, c)))
    requires forall c, k {:trigger k in Indexed(d, c)} :: k in Indexed(d, c) ==>
      LiveAt(d, k) && RegAt(d, k).contract == c
    ensures Vacated(d, VacateSlot(d, i), [i])
    ensures forall c, k :: k in Indexed(VacateSlot(d, i), c) ==>
      LiveAt(VacateSlot(d, i), k) && RegAt(VacateSlot(d, i), k).contract == c
  {
    VacateOne(d, i);
    var d', k := VacateSlot(d, i), RegAt(d, i).contract;
    forall c
      ensures NoDup(Indexed(d', c)) && forall n :: n in Indexed(d', c) <==> n in Indexed(d, c) && n != i
    {
      assert NoDup(Indexed(d, c));
      RetainFacts(Indexed(d, c), i);
    }
    forall c, n | n in Indexed(d', c)
      ensures LiveAt(d', n) && RegAt(d', n).contract == c
    {
      assert n in Indexed(d, c) && n != i && LiveAt(d, n);
    }
  }

  lemma {:induction false} VacateAllVacates(d: Data, s: seq<Index>)
    requires NoDup(s) && (forall i :: i in s ==> LiveAt(d, i)) && (forall c :: NoDup(Indexed(d, c)))
    requires forall c, k {:trigger k in Indexed(d, c)} :: k in Indexed(d, c) ==>
      LiveAt(d, k) && RegAt(d, k).contract == c
    ensures Vacated(d, VacateAll(d, s), s)
    decreases |s|
  {
    if s != [] {
      var i, rest, d1 := s[0], s[1..], VacateSlot(d, s[0]);
      VacateOne(d, i);
      VacateFirst(d, i);
      assert i !in rest && s == [i] + rest;
      forall k | k in rest
        ensures LiveAt(d1, k) && d1.slots[k] == d.slots[k]
      {
        assert k in s && LiveAt(d, k);
      }
      VacateAllVacates(d1, rest);
      VacatedCompose(d, d1, VacateAll(d1, rest), i, rest);
    }
  }

  lemma VacatedCompose(d: Data, d1: Data, d': Data, i: Index, rest: seq<Index>)
    requires Vacated(d, d1, [i]) && Vacated(d1, d', rest) && i !in rest
    ensures Vacated(d, d', [i] + rest)
  {
    forall n | n in [i] + rest
      ensures n < |d.slots| && d'.slots[n] == Slot(None, Bumped(d.slots[n].generation))
    {
      if n == i {
        assert i in [i] && d'.slots[i] == d1.slots[i];
      } else {
        assert n in rest && n !in [i] && d1.slots[n] == d.slots[n];
      }
    }
  }

  /** Unloading removes exactly the bundle: its handles go stale, everything else stays. */
  lemma InvalidateTheorem(d: Data, b: Bundle, pending: set<Index>)
    requires Consistent(d, pending) && b in d.bundles && forall i :: i in pending ==> i !in Slots(d, b)
    ensures var d' := InvalidateBundle(d, b);
      && Consistent(d', pending) && Frame(d, d', b, Slots(d, b)) && d'.bundles.Keys == d.bundles.Keys - {b}
      && |d'.slots| == |d.slots| && d'.reloading == d.reloading
      && (forall i :: i in Slots(d, b) ==> Retired(d, d', i))
  {
    var s := d.bundles[b];
    assert NoDup(Slots(d, b));
    forall i | i in s
      ensures LiveAt(d, i)
    {
      assert i in Slots(d, b);
    }
    VacateAllVacates(d, s);
    var d1 := VacateAll(d, s);
    VacatedConsistent(d, d1, d1.(bundles := d1.bundles - {b}), b, pending);
  }

  lemma VacatedConsistent(d: Data, d1: Data, d': Data, b: Bundle, pending: set<Index>)
    requires Consistent(d, pending) && Vacated(d, d1, Slots(d, b)) && d' == d1.(bundles := d1.bundles - {b})
    requires forall i :: i in pending ==> i !in Slots(d, b)
    ensures Consistent(d', pending)
  {
    var gone := Slots(d, b);
    assert forall x :: Slots(d', x) == if x == b then [] else Slots(d, x);
    assert forall c :: Indexed(d', c) == Indexed(d1, c);
    forall x
      ensures NoDup(Slots(d', x))
    {
      assert NoDup(Slots(d, x));
    }
    forall x, i | i in Slots(d', x)
      ensures i in Slots(d, x) && i !in gone
    {
      assert i in Slots(d, x) && RegAt(d, i).bundle == x && x != b;
    }
    VacatedLinked(d, d', b, gone, pending);
  }

  lemma VacatedLinked(d: Data, d': Data, b: Bundle, gone: seq<Index>, pending: set<Index>)
    requires Linked(d, pending) && gone == Slots(d, b) && |d'.slots| == |d.slots|
    requires forall i: Index :: i < |d.slots| && i !in gone ==> d'.slots[i] == d.slots[i]
    requires forall i :: i in gone ==> i < |d.slots| && !LiveAt(d', i)
    requires forall x :: Slots(d', x) == if x == b then [] else Slots(d, x)
    requires forall x, i {:trigger i in Slots(d', x)} :: i in Slots(d', x) ==> i in Slots(d, x) && i !in gone
    requires forall c, i {:trigger i in Indexed(d', c)} {:trigger i in Indexed(d, c)} ::
      i in Indexed(d', c) <==> i in Indexed(d, c) && i !in gone
    requires forall i :: i in pending ==> i !in gone
    ensures Linked(d', pending)
  {
    forall i: Index
      ensures SlotLinked(d', pending, i)
    {
      assert SlotLinked(d, pending, i);
    }
    forall c, i | i in Indexed(d', c)
      ensures LiveAt(d', i) && RegAt(d', i).contract == c
    {
      assert i in Indexed(d, c) && LiveAt(d, i);
    }
    forall x, i | i in Slots(d', x)
      ensures LiveAt(d', i) && RegAt(d', i).bundle == x
    {
      assert i in Slots(d, x) && LiveAt(d, i);
    }
  }

  // ------------------------------------------------------- registrations

  function CountSeq(s: seq<Registration>, q: Query): nat {
    if s == [] then 0 else (if Matches(s[0], q) then 1 else 0) + CountSeq(s[1..], q)
  }

  lemma {:induction false} CountSeqSnoc(s: seq<Registration>, r: Registration, q: Query)
    ensures CountSeq(s + [r], q) == CountSeq(s, q) + if Matches(r, q) then 1 else 0
  {
    if s == [] {
      assert [] + [r] == [r];
    } else {
      CountSeqSnoc(s[1..], r, q);
      assert (s + [r])[1..] == s[1..] + [r];
    }
  }

  function Indexes(hs: seq<Handle>): (r: seq<Index>)
    ensures |r| == |hs| && forall k :: 0 <= k < |hs| ==> r[k] == hs[k].index
  {
    seq(|hs|, k requires 0 <= k < |hs| => hs[k].index)
  }

  /** Live slots of `d` keep their content and generation in `d'`. */
  ghost predicate LiveKept(d: Data, d': Data) {
    forall i: Index :: LiveAt(d, i) ==> LiveAt(d', i) && d'.slots[i] == d.slots[i]
  }

  ghost predicate HandleHolds(d: Data, h: Handle, r: Registration) {
    LiveAt(d, h.index) && RegAt(d, h.index) == r && h.generation == d.slots[h.index].generation
  }

  /** `d'` is `d` with `regs` stored for `b`, one handle each, in order. */
  ghost predicate Stored(d: Data, d': Data, b: Bundle, regs: seq<Registration>, hs: seq<Handle>) {
    && d'.bundles.Keys == d.bundles.Keys && d'.reloading == d.reloading && LiveKept(d, d')
    && |hs| == |regs| && Slots(d', b) == Slots(d, b) + Indexes(hs)
    && (forall x :: x != b ==> Slots(d', x) == Slots(d, x))
    && (forall k :: 0 <= k < |hs| ==> HandleHolds(d', hs[k], regs[k]))
  }

  /** The bundle is not inside a reload window. */
  predicate Settled(d: Data, b: Bundle) { b !in d.reloading }

  /** The unpublished slots after an insertion. */
  function Hidden(pending: set<Index>, hs: seq<Handle>, publish: bool): set<Index> {
    if publish then pending else pending + Members(Indexes(hs))
  }

  /** Inserting registrations one by one: each handle, in order, resolves to its registration. */
  lemma {:induction false} InsertAllTheorem(d: Data, b: Bundle, regs: seq<Registration>, publish: bool,
      pending: set<Index>)
    requires Consistent(d, pending) && b in d.bundles && forall r :: r in regs ==> r.bundle == b
    ensures var (d', hs) := InsertAll(d, b, regs, publish);
      Consistent(d', Hidden(pending, hs, publish)) && Stored(d, d', b, regs, hs)
    decreases |regs|
  {
    if regs == [] {
      assert Slots(d, b) + [] == Slots(d, b);
      assert Hidden(pending, [], publish) == pending;
    } else {
      var (d1, h) := Insert(d, regs[0], publish);
      InsertKeeps(d, pending, regs[0], publish);
      InsertAllTheorem(d1, b, regs[1..], publish, Hidden(pending, [h], publish)) by { HiddenOne(pending, h, publish); }
      var (d', hs) := InsertAll(d1, b, regs[1..], publish);
      assert InsertAll(d, b, regs, publish) == (d', [h] + hs);
      StoredCompose(d, d1, d', b, regs, h, hs, publish);
      HiddenMore(pending, h, hs, publish);
    }
  }

  lemma HiddenOne(pending: set<Index>, h: Handle, publish: bool)
    ensures Hidden(pending, [h], publish) == if publish then pending else pending + {h.index}
  {
    assert Indexes([h]) == [h.index];
  }

  lemma HiddenMore(pending: set<Index>, h: Handle, hs: seq<Handle>, publish: bool)
    ensures Hidden(Hidden(pending, [h], publish), hs, publish) == Hidden(pending, [h] + hs, publish)
  {
    assert Indexes([h] + hs) == Indexes([h]) + Indexes(hs);
  }

  lemma StoredCompose(d: Data, d1: Data, d': Data, b: Bundle, regs: seq<Registration>, h: Handle, hs: seq<Handle>,
      publish: bool)
    requires regs != [] && regs[0].bundle == b && Grown(d, d1, h.index, regs[0], publish)
    requires h.generation == d1.slots[h.index].generation
    requires Stored(d1, d', b, regs[1..], hs)
    ensures Stored(d, d', b, regs, [h] + hs)
  {
    assert Indexes([h] + hs) == [h.index] + Indexes(hs);
    assert Slots(d, b) + [h.index] + Indexes(hs) == Slots(d, b) + ([h.index] + Indexes(hs));
    assert LiveAt(d1, h.index);
    forall k | 0 <= k < |[h] + hs|
      ensures HandleHolds(d', ([h] + hs)[k], regs[k])
    {
      if k > 0 { assert HandleHolds(d', hs[k - 1], regs[1..][k - 1]); }
    }
  }

  lemma {:induction false} CountHandles(d: Data, hs: seq<Handle>, regs: seq<Registration>, q: Query)
    requires |hs| == |regs| && forall k :: 0 <= k < |hs| ==> HandleHolds(d, hs[k], regs[k])
    ensures CountIn(d, Indexes(hs), q) == CountSeq(regs, q)
  {
    if hs != [] {
      assert Indexes(hs)[1..] == Indexes(hs[1..]);
      assert HandleHolds(d, hs[0], regs[0]);
      CountHandles(d, hs[1..], regs[1..], q);
    }
  }

  lemma EnsureConsistent(d: Data, b: Bundle, pending: set<Index>)
    requires Consistent(d, pending)
    ensures Consistent(EnsureBundle(d, b), pending)
    ensures forall x :: Slots(EnsureBundle(d, b), x) == Slots(d, x)
  {
    var d' := EnsureBundle(d, b);
    assert forall x :: Slots(d', x) == Slots(d, x);
    assert forall c :: Indexed(d', c) == Indexed(d, c);
    SameListsConsistent(d, d', pending);
  }

  lemma SameListsConsistent(d: Data, d': Data, pending: set<Index>)
    requires Consistent(d, pending) && d'.slots == d.slots
    requires forall x :: Slots(d', x) == Slots(d, x)
    requires forall c :: Indexed(d', c) == Indexed(d, c)
    ensures Consistent(d', pending)
  {
    forall i: Index
      ensures SlotLinked(d', pending, i)
    {
      assert SlotLinked(d, pending, i);
    }
    forall c, i | i in Indexed(d', c)
      ensures LiveAt(d', i) && RegAt(d', i).contract == c
    {
      assert i in Indexed(d, c);
    }
    forall b, i | i in Slots(d', b)
      ensures LiveAt(d', i) && RegAt(d', i).bundle == b
    {
      assert i in Slots(d, b);
    }
  }

  lemma NoDuplicateOfAbsent(d: Data, r: Registration, pending: set<Index>)
    requires Consistent(d, pending) && r.bundle !in d.bundles
    ensures !Duplicate(d, r)
  {
    forall i | i in Indexed(d, r.contract)
      ensures !(LiveAt(d, i) && RegAt(d, i).bundle == r.bundle)
    {
      assert SlotLinked(d, pending, i);
    }
  }

  /**
    Publishing a staged bundle: refused whole, exactly for a loaded bundle or a clash; or all
    of it stored with one handle each, in order, hidden only while the bundle's window is open.
   */
  lemma PreparedTheorem(d: Data, b: Bundle, regs: seq<Registration>, pending: set<Index>)
    requires Consistent(d, pending) && forall r :: r in regs ==> r.bundle == b
    ensures RegisterPrepared(d, b, regs).Some? <==>
      b !in d.bundles && !StagedClash(regs) && forall r :: r in regs ==> !Collides(d, r)
    ensures RegisterPrepared(d, b, regs).Some? ==>
      var (d', hs) := RegisterPrepared(d, b, regs).value;
      Consistent(d', Hidden(pending, hs, Settled(d, b))) && Stored(EnsureBundle(d, b), d', b, regs, hs)
  {
    if b !in d.bundles {
      forall r | r in regs
        ensures !Duplicate(d, r)
      {
        NoDuplicateOfAbsent(d, r, pending);
      }
      EnsureConsistent(d, b, pending);
      InsertAllTheorem(EnsureBundle(d, b), b, regs, Settled(d, b), pending);
    }
  }

  /** After publishing, the bundle's slots are exactly the staged registrations and other bundles keep theirs. */
  lemma PreparedContent(d: Data, d': Data, b: Bundle, regs: seq<Registration>, hs: seq<Handle>, q: Query)
    requires b !in d.bundles && Stored(EnsureBundle(d, b), d', b, regs, hs)
    ensures Slots(d', b) == Indexes(hs) && CountIn(d', Slots(d', b), q) == CountSeq(regs, q)
    ensures LiveKept(d, d') && forall x :: x != b ==> Slots(d', x) == Slots(d, x)
  {
    assert [] + Indexes(hs) == Indexes(hs);
    CountHandles(d', hs, regs, q);
    assert forall i: Index :: LiveAt(EnsureBundle(d, b), i) == LiveAt(d, i);
  }

  /** What registering inside an open window changes. */
  ghost predicate Arrived(d: Data, d': Data, r: Registration, n: Index) {
    && d'.bundles.Keys == d.bundles.Keys + {r.bundle} && d'.reloading == d.reloading && LiveKept(d, d')
    && (forall x :: x != r.bundle ==> Slots(d', x) == Slots(d, x))
    && (forall c :: Indexed(d', c) == Indexed(d, c))
    && LiveAt(d', n) && RegAt(d', n) == r
  }

  /** Registering inside the open window of its bundle: refused only for a name collision, never visible. */
  lemma ArriveTheorem(d: Data, r: Registration, before: seq<Index>, pending: seq<Index>)
    requires WindowOpen(d, r.bundle, before, pending) && r.bundle in d.reloading
    ensures Register(d, r).Some? <==> !Collides(d, r)
    ensures Register(d, r).Some? ==>
      var (d', h) := Register(d, r).value;
      WindowOpen(d', r.bundle, before, pending + [h.index]) && Arrived(d, d', r, h.index)
  {
    var d1 := EnsureBundle(d, r.bundle);
    EnsureConsistent(d, r.bundle, Members(pending));
    InsertKeeps(d1, Members(pending), r, false);
    var (d', h) := Insert(d1, r, false);
    assert before + pending + [h.index] == before + (pending + [h.index]);
    assert Members(pending + [h.index]) == Members(pending) + {h.index};
    GrownArrives(d, d1, d', r, h.index);
  }

  /** What registering outside a window changes: one more visible slot of the bundle. */
  ghost predicate Added(d: Data, d': Data, r: Registration, n: Index) {
    && d'.bundles.Keys == d.bundles.Keys + {r.bundle} && d'.reloading == d.reloading && LiveKept(d, d')
    && (forall x :: Slots(d', x) == if x == r.bundle then Slots(d, x) + [n] else Slots(d, x))
    && LiveAt(d', n) && RegAt(d', n) == r
  }

  /** Registering outside a window: refused for a collision or a duplicate, else visible at once. */
  lemma AddTheorem(d: Data, r: Registration, pending: set<Index>)
    requires Consistent(d, pending) && r.bundle !in d.reloading
    ensures Register(d, r).Some? <==> !Collides(d, r) && !Duplicate(d, r)
    ensures Register(d, r).Some? ==>
      var (d', h) := Register(d, r).value; Consistent(d', pending) && Added(d, d', r, h.index)
  {
    var d1 := EnsureBundle(d, r.bundle);
    EnsureConsistent(d, r.bundle, pending);
    InsertKeeps(d1, pending, r, true);
    var (d', h) := Insert(d1, r, true);
    assert forall x :: Slots(d1, x) == Slots(d, x);
    assert forall i: Index :: LiveAt(d1, i) == LiveAt(d, i);
  }

  lemma GrownArrives(d: Data, d1: Data, d': Data, r: Registration, n: Index)
    requires d1 == EnsureBundle(d, r.bundle) && Grown(d1, d', n, r, false)
    ensures Arrived(d, d', r, n)
  {
    assert forall c :: Indexed(d1, c) == Indexed(d, c);
    assert forall x :: Slots(d1, x) == Slots(d, x);
    assert forall i: Index :: LiveAt(d1, i) == LiveAt(d, i);
  }
}
