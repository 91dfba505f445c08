/**
  What an unload does to a reload of the same bundle that it falls into: unloading does not
  take the lock that serializes reloads, so it can come between the slot snapshot and the
  swap. The swap then finds the snapshotted slots vacant, or holding what was registered since.
 */
module OvertakenReloads {
  import opened Basics
  import opened RegistryStore
  import opened RegistryInvariant
  import opened ReloadSwap
  import opened StoreEffects
  import opened ReloadOrder
  import opened ReloadRuns

  function LiveSet(d: Data): set<Index> { set i: Index | i < |d.slots| && d.slots[i].reg.Some? }

  /** One turn of the swap: slot `x` falls vacant, which is `o` itself or an arrival that went into `o`. */
  ghost predicate OneLost(d: Data, d': Data, o: Index, x: Index, arrived: seq<Index>) {
    && |d'.slots| == |d.slots| && LiveAt(d, x) && LiveSet(d') == LiveSet(d) - {x} && (x == o || x in arrived)
    && (forall i: Index :: i < |d.slots| && i != o && i != x ==> d'.slots[i] == d.slots[i])
    && (x != o ==> o < |d.slots| && d'.slots[o].reg == d.slots[x].reg)
  }

  lemma SwapOneLoses(d: Data, b: Bundle, o: Index, arrived: seq<Index>) returns (x: Index)
    requires o !in arrived && LiveAt(d, o)
    ensures SwapOne(d, b, o, arrived).1 && OneLost(d, SwapOne(d, b, o, arrived).0, o, x, arrived)
  {
    var m := FirstMatch(d, arrived, RegAt(d, o).contract);
    FirstMatchFacts(d, arrived, RegAt(d, o).contract);
    x := if m.None? then o else m.value;
  }

  ghost predicate AllLive(d: Data, s: seq<Index>) { forall o :: o in s ==> LiveAt(d, o) }

  /** What holds from before to after the turns of a swap over `before`. */
  ghost predicate Lost(d: Data, d': Data, b: Bundle, before: seq<Index>, arrived: seq<Index>) {
    && |d'.slots| == |d.slots| && |LiveSet(d')| == |LiveSet(d)| - |before|
    && (forall i: Index :: i < |d.slots| && i !in before && i !in arrived ==> d'.slots[i] == d.slots[i])
    && (forall o :: o in before ==> o < |d'.slots| && (d'.slots[o].reg.Some? ==> d'.slots[o].reg.value.bundle == b))
  }

  /** What arrived belongs to the bundle. */
  ghost predicate OwnedBy(d: Data, b: Bundle, arrived: seq<Index>) {
    forall n :: n in arrived && LiveAt(d, n) ==> RegAt(d, n).bundle == b
  }

  lemma OneLostKeeps(d: Data, d1: Data, b: Bundle, o: Index, x: Index, rest: seq<Index>, arrived: seq<Index>)
    requires OneLost(d, d1, o, x, arrived) && o !in rest && o !in arrived && Apart(rest, arrived) &&
      OwnedBy(d, b, arrived)
    ensures OwnedBy(d1, b, arrived) && (AllLive(d1, rest) <==> AllLive(d, rest)) && |LiveSet(d1)| == |LiveSet(d)| - 1
    ensures o < |d1.slots| && (d1.slots[o].reg.Some? ==> d1.slots[o].reg.value.bundle == b)
  {
    assert x in LiveSet(d);
    forall i | i in rest
      ensures LiveAt(d1, i) <==> LiveAt(d, i)
    {
      assert i != o && i !in arrived;
    }
  }

  /** A swap goes through exactly if every snapshotted slot is live, and each costs one live slot. */
  lemma {:induction false} SwapAllLoses(d: Data, b: Bundle, before: seq<Index>, arrived: seq<Index>)
    requires NoDup(before) && Apart(before, arrived) && OwnedBy(d, b, arrived)
    ensures SwapAll(d, b, before, arrived).1 <==> AllLive(d, before)
    ensures SwapAll(d, b, before, arrived).1 ==> Lost(d, SwapAll(d, b, before, arrived).0, b, before, arrived)
    decreases |before|
  {
    if before != [] {
      var o, rest := before[0], before[1..];
      assert before == [o] + rest;
      if LiveAt(d, o) {
        var x := SwapOneLoses(d, b, o, arrived);
        var d1 := SwapOne(d, b, o, arrived).0;
        NoDupCons(o, rest);
        OneLostKeeps(d, d1, b, o, x, rest, arrived);
        SwapAllLoses(d1, b, rest, arrived);
        if AllLive(d, before) { LostCons(d, d1, SwapAll(d1, b, rest, arrived).0, b, o, x, rest, arrived); }
      }
    }
  }

  lemma LostCons(d: Data, d1: Data, d': Data, b: Bundle, o: Index, x: Index, rest: seq<Index>, arrived: seq<Index>)
    requires OneLost(d, d1, o, x, arrived) && Lost(d1, d', b, rest, arrived) && o !in rest && o !in arrived
    requires |LiveSet(d1)| == |LiveSet(d)| - 1 && o < |d1.slots|
    requires d1.slots[o].reg.Some? ==> d1.slots[o].reg.value.bundle == b
    ensures Lost(d, d', b, [o] + rest, arrived)
  {
  }

  lemma {:induction false} MinusFacts(s: seq<Index>, drop: seq<Index>)
    ensures forall i :: i in Minus(s, drop) <==> i in s && i !in drop
  {
    if s != [] { MinusFacts(s[1..], drop); }
  }

  /**
    What a swap costs, whatever happened since the snapshot: it fails exactly if some
    snapshotted slot is vacant, and otherwise as many registrations are gone after it as the
    snapshot has slots. It leaves the other bundles' slots alone exactly if no snapshotted slot
    holds a registration of another bundle.
   */
  lemma SwapCosts(d: Data, b: Bundle, before: seq<Index>, pending: set<Index>)
    requires Consistent(d, pending) && NoDup(before)
    ensures var (d', outcome) := ApplySwap(d, b, before);
      && (outcome.InvalidHandle? <==> exists o :: o in before && !LiveAt(d, o))
      && (!outcome.InvalidHandle? ==> |LiveSet(d')| == |LiveSet(d)| - |before|)
      && (!outcome.InvalidHandle? ==>
            (OthersKept(d, d', b) <==> forall o :: o in before ==> RegAt(d, o).bundle == b))
  {
    var d0, arrived := d.(reloading := d.reloading - {b}), Minus(Slots(d, b), before);
    MinusFacts(Slots(d, b), before);
    assert LiveSet(d0) == LiveSet(d);
    SwapAllLoses(d0, b, before, arrived);
    var (d1, ok) := SwapAll(d0, b, before, arrived);
    if ok {
      FreshKeepsSlots(d1, arrived);
      var d' := PublishFresh(d1, arrived);
      assert LiveSet(d') == LiveSet(d1);
      OthersKeptExactly(d, d', b, before, arrived);
    }
  }

  /** Every slot of another bundle is as it was. */
  ghost predicate OthersKept(d: Data, d': Data, b: Bundle) {
    forall i: Index :: LiveAt(d, i) && RegAt(d, i).bundle != b ==> i < |d'.slots| && d'.slots[i] == d.slots[i]
  }

  lemma OthersKeptExactly(d: Data, d': Data, b: Bundle, before: seq<Index>, arrived: seq<Index>)
    requires Lost(d.(reloading := d.reloading - {b}), d', b, before, arrived) && AllLive(d, before)
    requires forall n :: n in arrived ==> LiveAt(d, n) && RegAt(d, n).bundle == b
    ensures OthersKept(d, d', b) <==> forall o :: o in before ==> RegAt(d, o).bundle == b
  {
    if o :| o in before && RegAt(d, o).bundle != b {
      assert d'.slots[o] != d.slots[o];
    }
  }

  /** The slots of an unloaded bundle are vacant. */
  lemma UnloadVacates(d: Data, b: Bundle, pending: set<Index>)
    requires Consistent(d, pending)
    ensures forall o :: o in Slots(d, b) ==> !LiveAt(InvalidateBundle(d, b), o)
  {
    if b in d.bundles {
      assert NoDup(Slots(d, b));
      VacateAllVacates(d, d.bundles[b]);
    }
  }

  lemma WindowFacts(s: System, b: Bundle)
    requires Inv(s) && InReload(s, b)
    ensures NoDup(s.window.before) && (forall o :: o in s.window.before ==> o in Slots(s.data, b))
    ensures exists pending :: Consistent(s.data, pending)
  {
    assert NoDup(Slots(s.data, b));
    if s.window.Open? {
      var before := s.window.before;
      assert Slots(s.data, b) == before + Pending(s);
      forall i, j | 0 <= i < j < |before|
        ensures before[i] != before[j]
      {
        assert Slots(s.data, b)[i] == before[i] && Slots(s.data, b)[j] == before[j];
      }
      assert Consistent(s.data, Members(Pending(s)));
    } else {
      assert Consistent(s.data, {});
    }
  }

  /**
    An unload that falls into the reload of its own bundle, from any reachable state: every
    snapshotted slot is vacant then. Whatever store `d` the swap finds later, it fails if one
    of these slots was not taken again, and otherwise destroys one registration made since for
    each. So it succeeds without loss only if the snapshot was empty.
   */
  lemma UnloadInWindow(p: seq<System>, steps: seq<Step>, b: Bundle, d: Data, pending: set<Index>)
    requires Run(p, steps) && InReload(p[|steps|], b) && Consistent(d, pending)
    ensures var s := p[|steps|];
      && (forall o :: o in s.window.before ==> !LiveAt(InvalidateBundle(s.data, b), o))
      && var (d', outcome) := ApplySwap(d, b, s.window.before);
         && (outcome.InvalidHandle? <==> exists o :: o in s.window.before && !LiveAt(d, o))
         && (!outcome.InvalidHandle? ==> |LiveSet(d')| == |LiveSet(d)| - |s.window.before|)
  {
    var s := p[|steps|];
    RunKeepsInv(p, steps, |steps|);
    WindowFacts(s, b);
    var open :| Consistent(s.data, open);
    UnloadVacates(s.data, b, open);
    SwapCosts(d, b, s.window.before, pending);
  }

  // ------------------------------------------------------- lost registrations

  /** One bundle with one published registration in slot 0. */
  function OneLoaded(r: Registration, g: nat): Data {
    Data([Slot(Some(r), g)], map[r.contract := [0]], map[r.bundle := [0]], {})
  }

  lemma UnloadOnly(r: Registration, g: nat)
    ensures InvalidateBundle(BeginReload(OneLoaded(r, g), r.bundle), r.bundle)
         == Data([Slot(None, Bumped(g))], map[], map[], {r.bundle})
  {
    var d := BeginReload(OneLoaded(r, g), r.bundle);
    assert Retain([0], 0) == [];
    assert d.index - {r.contract} == map[] && d.bundles - {r.bundle} == map[];
    assert VacateAll(d, [0]) == VacateSlot(d, 0);
  }

  /**
    Concretely: a bundle is unloaded inside its reload window, the new version's registration
    reuses the vacant slot, and the swap, reported as a success, tears it down.
   */
  lemma ArrivalLost(r0: Registration, r1: Registration, g: nat)
    requires r0.bundle == r1.bundle
    ensures var b, d0 := r0.bundle, OneLoaded(r0, g);
      var d1 := InvalidateBundle(BeginReload(d0, b), b);
      Register(d1, r1).Some? &&
      var (d', outcome) := ApplySwap(Register(d1, r1).value.0, b, Slots(d0, b));
      outcome == Swapped && Slots(d', b) == [] && Find(d', r1.contract, 0) == None
  {
    var b := r0.bundle;
    UnloadOnly(r0, g);
    var d1 := Data([Slot(None, Bumped(g))], map[], map[], {b});
    var d2 := Data([Slot(Some(r1), Bumped(g))], map[], map[b := [0]], {b});
    assert [] + [0] == [0];
    assert Register(d1, r1).Some? && Register(d1, r1).value.0 == d2;
    var d3 := d2.(reloading := {});
    assert d2.(reloading := d2.reloading - {b}) == d3;
    assert Minus([0], [0]) == [] && Retain([0], 0) == [];
    var d4 := Data([Slot(None, Bumped(Bumped(g)))], map[], map[b := []], {});
    assert DropOwned(VacateSlot(d3, 0), b, 0) == d4;
    assert SwapOne(d3, b, 0, []) == (d4, true);
    assert SwapAll(d4, b, [], []) == (d4, true);
    assert SwapAll(d3, b, [0], []) == (d4, true);
  }

  /** The store once another bundle took the slot, and the new version's registration came after it. */
  function Mixed(x: Registration, r: Registration, g: nat): Data {
    Data([Slot(Some(x), g), Slot(Some(r), 0)], map[x.contract := [0]], map[x.bundle := [0], r.bundle := [1]],
      {r.bundle})
  }

  lemma MixedArises(x: Registration, r: Registration, g: nat)
    requires x.bundle != r.bundle && x.contract != r.contract
    ensures var d := Data([Slot(None, g)], map[], map[], {r.bundle});
      Register(d, x).Some? &&
      var d2 := Register(d, x).value.0;
      Find(d2, x.contract, 0).Some? && Register(d2, r).Some? && Register(d2, r).value.0 == Mixed(x, r, g)
  {
    var d := Data([Slot(None, g)], map[], map[], {r.bundle});
    var d2 := Data([Slot(Some(x), g)], map[x.contract := [0]], map[x.bundle := [0]], {r.bundle});
    assert [] + [0] == [0] && [] + [1] == [1];
    assert Register(d, x).Some? && Register(d, x).value.0 == d2;
    assert FirstVacant(d2.slots[1..]) == 0;
    assert FirstVacant(d2.slots) == 1;
    assert (d2.slots + [Slot(None, 0)])[1 := Slot(Some(r), 0)] == Mixed(x, r, g).slots;
  }

  lemma MixedSwaps(x: Registration, r: Registration, g: nat)
    requires x.bundle != r.bundle && x.contract != r.contract
    ensures var (d', outcome) := ApplySwap(Mixed(x, r, g), r.bundle, [0]);
      outcome == Swapped && Find(d', x.contract, 0) == None
  {
    var b, c, d := r.bundle, r.contract, Mixed(x, r, g);
    var e := d.(reloading := {});
    assert d.(reloading := d.reloading - {b}) == e;
    assert Minus([1], [0]) == [1] && Retain([0], 0) == [] && Retain([1], 0) == [1];
    var e1 := Data([Slot(None, Bumped(g)), Slot(Some(r), 0)], map[], map[x.bundle := [0], b := [1]], {});
    assert e.index - {x.contract} == map[];
    assert VacateSlot(e, 0) == e1 && DropOwned(e1, b, 0) == e1;
    assert FirstMatch(e, [1], x.contract) == None;
    assert SwapOne(e, b, 0, [1]) == (e1, true);
    assert SwapAll(e1, b, [], [1]) == (e1, true);
    assert SwapAll(e, b, [0], [1]) == (e1, true);
    var e2 := e1.(index := map[c := [1]]);
    assert [] + [1] == [1] && PublishFresh(e2, []) == e2;
    assert PublishFresh(e1, [1]) == e2;
  }

  /**
    Concretely: the vacant slot goes to another bundle instead, and the swap tears that
    bundle's registration down.
   */
  lemma BystanderLost(r0: Registration, r1: Registration, x: Registration, g: nat)
    requires r0.bundle == r1.bundle != x.bundle && r1.contract != x.contract
    ensures var b, d0 := r0.bundle, OneLoaded(r0, g);
      var d1 := InvalidateBundle(BeginReload(d0, b), b);
      Register(d1, x).Some? &&
      var d2 := Register(d1, x).value.0;
      Register(d2, r1).Some? &&
      var (d', outcome) := ApplySwap(Register(d2, r1).value.0, b, Slots(d0, b));
      outcome == Swapped && Find(d2, x.contract, 0).Some? && Find(d', x.contract, 0) == None
  {
    UnloadOnly(r0, g);
    MixedArises(x, r1, Bumped(g));
    MixedSwaps(x, r1, Bumped(g));
  }
}
