/**
  Why whole reloads are serialized: from every state in which a bundle is loaded, two reloads
  of it, each section still atomic and both reported as a success, can lose a contract that
  the loaded version and both new versions provide.
 */
module UnserializedReloads {
  import opened Basics
  import opened RegistryStore
  import opened RegistryInvariant
  import opened ReloadSwap
  import opened StoreEffects
  import opened ReloadRuns

  /** No live slot belongs to the bundle. */
  ghost predicate NoneLeft(d: Data, b: Bundle) {
    Slots(d, b) == [] && forall i: Index :: LiveAt(d, i) ==> RegAt(d, i).bundle != b
  }

  /**
    Two reloads of `b` from `d`, of versions that register `r1` and `r2`: the second takes its
    slot snapshot while the first one's arrival is pending, the first one swaps and retires
    that slot, and the second one's arrival reuses it. Its swap then finds nothing newly
    registered and tears everything down.
   */
  ghost predicate LosesBoth(d: Data, b: Bundle, r1: Registration, r2: Registration) {
    var d1 := BeginReload(d, b);
    Register(d1, r1).Some? &&
    var d2 := Register(d1, r1).value.0;
    var (d3, done1) := ApplySwap(d2, b, Slots(d, b));
    var d4 := BeginReload(d3, b);
    Register(d4, r2).Some? &&
    var d5 := Register(d4, r2).value.0;
    var (d6, done2) := ApplySwap(d5, b, Slots(d2, b));
    done1 == Swapped && done2 == Swapped && NoneLeft(d6, b)
  }

  /** A settled registry in which slot `o` is all that `b` has, with a registration of `c`. */
  ghost predicate Sole(d: Data, b: Bundle, o: Index, c: Contract) {
    && Consistent(d, {}) && d.reloading == {} && b in d.bundles && Slots(d, b) == [o]
    && LiveAt(d, o) && RegAt(d, o).contract == c
  }

  /** Slot `o` has the loaded version, slot `n` the arrival. */
  ghost predicate Both(d: Data, b: Bundle, o: Index, n: Index, r: Registration) {
    && WindowOpen(d, b, [o], [n]) && d.reloading == {b} && b in d.bundles && o != n
    && LiveAt(d, o) && LiveAt(d, n) && RegAt(d, n) == r
  }

  lemma FirstVacantIs(slots: seq<Slot>, n: Index)
    requires n < |slots| && slots[n].reg.None? && forall i: Index :: i < n ==> slots[i].reg.Some?
    ensures FirstVacant(slots) == n
  {
    VacantIsFirst(slots);
  }

  /** The arrival takes the first vacant slot. */
  lemma Arrives(d: Data, b: Bundle, o: Index, c: Contract, r: Registration)
    requires Sole(d, b, o, c) && r.bundle == b && !Collides(d, r)
    ensures var done := Register(BeginReload(d, b), r); var n := FirstVacant(d.slots);
      && done.Some? && Both(done.value.0, b, o, n, r) && LiveKept(d, done.value.0)
      && (n < |d.slots| ==> |done.value.0.slots| == |d.slots|)
      && forall i: Index :: i < |d.slots| && i != n ==> done.value.0.slots[i] == d.slots[i]
  {
    var d1, n := BeginReload(d, b), FirstVacant(d.slots);
    assert [o] + [] == [o] && Members([]) == {};
    ReloadingIrrelevant(d, d1, {});
    assert WindowOpen(d1, b, [o], []);
    assert forall i: Index :: LiveAt(d1, i) == LiveAt(d, i);
    assert Collides(d1, r) == Collides(d, r);
    ArriveTheorem(d1, r, [o], []);
    assert [] + [n] == [n];
    assert o in Slots(d, b);
  }

  /** The first swap moves the arrival into the old slot. */
  lemma FirstSwap(d: Data, b: Bundle, o: Index, n: Index, r: Registration)
    requires Both(d, b, o, n, r) && RegAt(d, o).contract == r.contract
    ensures var (d', outcome) := ApplySwap(d, b, [o]);
      && outcome == Swapped && Sole(d', b, o, r.contract) && RegAt(d', o) == r && |d'.slots| == |d.slots|
      && d'.slots[n].reg.None? && forall i: Index :: i < |d.slots| && i != o && i != n ==> d'.slots[i] == d.slots[i]
  {
    SwapTheorem(d, b, [o], [n]);
    var d0 := d.(reloading := d.reloading - {b});
    assert Minus([o] + [n], [o]) == [n] by { MinusPrefix([o], [n], [o]); }
    assert FirstMatch(d0, [n], r.contract) == Some(n);
    var d1 := MoveInto(d0, b, o, n);
    assert SwapOne(d0, b, o, [n]) == (d1, true);
    assert SwapAll(d1, b, [], [n]) == (d1, true) && [o][1..] == [];
    assert SwapAll(d0, b, [o], [n]) == (d1, true);
    assert !LiveAt(d1, n) && PublishFresh(d1, [n]) == PublishFresh(d1, []);
    assert PublishFresh(d1, []) == d1;
    assert d.reloading - {b} == {};
    assert Retain([o] + [n], n) == [o] by { RetainAppend([o], [n], n); }
  }

  /** One slot after the other falls vacant when nothing arrived. */
  lemma TearDown(d: Data, b: Bundle, o: Index, rest: seq<Index>)
    requires LiveAt(d, o) && b in d.bundles && Slots(d, b) == [o] + rest && o !in rest
    ensures var (d', ok) := SwapOne(d, b, o, []);
      && ok && |d'.slots| == |d.slots| && !LiveAt(d', o) && b in d'.bundles && Slots(d', b) == rest
      && forall i: Index :: i < |d.slots| && i != o ==> d'.slots[i] == d.slots[i]
  {
    VacateOne(d, o);
    assert Retain([o], o) == [];
    RetainAppend([o], rest, o);
    RetainFacts(rest, o);
    NotRetained(rest, o);
  }

  lemma {:induction false} NotRetained(s: seq<Index>, x: Index)
    requires x !in s
    ensures Retain(s, x) == s
  {
    if s != [] { NotRetained(s[1..], x); }
  }

  lemma {:induction false} MinusAll(s: seq<Index>, drop: seq<Index>)
    requires forall i :: i in s ==> i in drop
    ensures Minus(s, drop) == []
  {
    if s != [] { MinusAll(s[1..], drop); }
  }

  lemma TearDownBoth(d: Data, b: Bundle, o: Index, n: Index)
    requires LiveAt(d, o) && LiveAt(d, n) && o != n && b in d.bundles && Slots(d, b) == [o] + [n]
    ensures var (d', ok) := SwapAll(d, b, [o, n], []);
      && ok && |d'.slots| == |d.slots| && !LiveAt(d', o) && !LiveAt(d', n) && b in d'.bundles && Slots(d', b) == []
      && forall i: Index :: i < |d.slots| && i != o && i != n ==> d'.slots[i] == d.slots[i]
  {
    TearDown(d, b, o, [n]);
    var d1 := SwapOne(d, b, o, []).0;
    assert [n] == [n] + [];
    TearDown(d1, b, n, []);
    var d2 := SwapOne(d1, b, n, []).0;
    assert [o, n][1..] == [n] && [n][1..] == [];
    assert SwapAll(d2, b, [], []) == (d2, true);
    assert SwapAll(d1, b, [n], []) == (d2, true);
  }

  /** The second swap has both slots in its snapshot and takes both down. */
  lemma SecondSwap(d: Data, b: Bundle, o: Index, n: Index, r: Registration)
    requires Both(d, b, o, n, r)
    ensures ApplySwap(d, b, [o, n]).1 == Swapped && NoneLeft(ApplySwap(d, b, [o, n]).0, b)
  {
    var d0 := d.(reloading := d.reloading - {b});
    MinusAll([o] + [n], [o, n]);
    TearDownBoth(d0, b, o, n);
    var d2 := SwapAll(d0, b, [o, n], []).0;
    forall i: Index | LiveAt(d2, i)
      ensures RegAt(d2, i).bundle != b
    {
      assert i != o && i != n && d2.slots[i] == d.slots[i];
      assert SlotLinked(d, Members([n]), i) && i !in [o] + [n];
    }
  }

  lemma SoleLosesBoth(d: Data, b: Bundle, o: Index, c: Contract, r1: Registration, r2: Registration)
    requires Sole(d, b, o, c) && r1.bundle == r2.bundle == b && r1.contract == r2.contract == c
    requires !Collides(d, r1) && r1.name == r2.name
    ensures LosesBoth(d, b, r1, r2)
  {
    var n := FirstVacant(d.slots);
    VacantIsFirst(d.slots);
    Arrives(d, b, o, c, r1);
    var d2 := Register(BeginReload(d, b), r1).value.0;
    assert o in Slots(d, b) && d2.slots[o] == d.slots[o];
    FirstSwap(d2, b, o, n, r1);
    var d3 := ApplySwap(d2, b, [o]).0;
    assert forall i: Index :: i < n ==> d3.slots[i].reg.Some?;
    FirstVacantIs(d3.slots, n);
    StillNoCollision(d, d3, b, o, n, r1, r2);
    Arrives(d3, b, o, c, r2);
    var d5 := Register(BeginReload(d3, b), r2).value.0;
    assert Slots(d2, b) == [o] + [n] && [o] + [n] == [o, n];
    SecondSwap(d5, b, o, n, r2);
  }

  /** The published providers of the contract are those of before, but for the swapped one. */
  lemma StillNoCollision(d: Data, d': Data, b: Bundle, o: Index, n: Index, r1: Registration, r2: Registration)
    requires Consistent(d, {}) && Consistent(d', {}) && !Collides(d, r1) && r1.name == r2.name &&
      r1.contract == r2.contract
    requires LiveAt(d', o) && RegAt(d', o) == r1 && (n < |d'.slots| ==> !LiveAt(d', n))
    requires forall i: Index :: LiveAt(d', i) && i != o && i != n ==> LiveAt(d, i) && d'.slots[i] == d.slots[i]
    ensures !Collides(d', r2)
  {
    forall i | i in Indexed(d', r2.contract)
      ensures LiveAt(d', i) && RegAt(d', i).name == r2.name
    {
      if i != o {
        assert i != n && SlotLinked(d, {}, i);
        assert i in Indexed(d, r1.contract);
      }
    }
  }

  // ------------------------------------------------------- from any loaded bundle

  /** What a whole reload that registers `r` alone leaves behind. */
  function Reloaded(d: Data, b: Bundle, r: Registration): Option<Data> {
    var done := Register(BeginReload(d, b), r);
    if done.None? then None else Some(ApplySwap(done.value.0, b, Slots(d, b)).0)
  }

  lemma {:induction false} AllAlike(d: Data, s: seq<Index>, r: Registration)
    requires forall i :: i in s ==> LiveAt(d, i) && RegAt(d, i) == r
    ensures CountIn(d, s, Exactly(r)) == |s|
  {
    if s != [] { AllAlike(d, s[1..], r); }
  }

  /** A list that counts like one slot has one entry. */
  lemma OneEntry(d: Data, s: seq<Index>, d2: Data, n: Index)
    requires (forall i :: i in s ==> LiveAt(d, i)) && LiveAt(d2, n)
    requires forall q :: CountIn(d, s, q) == CountIn(d2, [n], q)
    ensures |s| == 1 && RegAt(d, s[0]) == RegAt(d2, n)
  {
    var r := RegAt(d2, n);
    assert [n][1..] == [];
    assert CountIn(d2, [n], Exactly(r)) == 1;
    forall i | i in s
      ensures RegAt(d, i) == r
    {
      CountPositive(d, s, i, Exactly(RegAt(d, i)));
      assert CountIn(d2, [n], Exactly(RegAt(d, i))) > 0;
    }
    AllAlike(d, s, r);
  }

  /** The window of `b` with `r` as its only arrival, in slot `n`. */
  ghost predicate OneArrived(d: Data, d2: Data, b: Bundle, r: Registration, n: Index) {
    && WindowOpen(d2, b, Slots(d, b), [n]) && Arrived(BeginReload(d, b), d2, r, n)
    && b in d2.bundles && d2.reloading == {b}
  }

  lemma ArriveAlone(d: Data, b: Bundle, r: Registration) returns (n: Index)
    requires Consistent(d, {}) && d.reloading == {} && b in d.bundles && r.bundle == b && !Collides(d, r)
    ensures var done := Register(BeginReload(d, b), r); done.Some? && OneArrived(d, done.value.0, b, r, n)
  {
    var d1, before := BeginReload(d, b), Slots(d, b);
    ReloadingIrrelevant(d, d1, {});
    assert before + [] == before && Members([]) == {};
    assert forall i: Index :: LiveAt(d1, i) == LiveAt(d, i);
    assert Collides(d1, r) == Collides(d, r);
    ArriveTheorem(d1, r, before, []);
    n := Register(d1, r).value.1.index;
    assert [] + [n] == [n];
  }

  lemma SwapLeavesOne(d: Data, d2: Data, b: Bundle, r: Registration, n: Index) returns (o: Index)
    requires Consistent(d, {}) && OneArrived(d, d2, b, r, n)
    ensures var d' := ApplySwap(d2, b, Slots(d, b)).0;
      Sole(d', b, o, r.contract) && RegAt(d', o) == r && Frame(d2, d', b, Slots(d, b) + [n])
  {
    SwapTheorem(d2, b, Slots(d, b), [n]);
    var d' := ApplySwap(d2, b, Slots(d, b)).0;
    OneEntry(d', Slots(d', b), d2, n);
    o := Slots(d', b)[0];
    assert Slots(d', b) == [o] && o in Slots(d', b);
    assert d2.reloading - {b} == {};
  }

  lemma ReloadLeavesOne(d: Data, b: Bundle, r: Registration) returns (o: Index)
    requires Consistent(d, {}) && d.reloading == {} && b in d.bundles && r.bundle == b && !Collides(d, r)
    ensures var after := Reloaded(d, b, r);
      after.Some? && Sole(after.value, b, o, r.contract) && RegAt(after.value, o) == r && !Collides(after.value, r)
  {
    var n := ArriveAlone(d, b, r);
    var d2 := Register(BeginReload(d, b), r).value.0;
    o := SwapLeavesOne(d, d2, b, r, n);
    OthersNamed(d, BeginReload(d, b), d2, ApplySwap(d2, b, Slots(d, b)).0, b, r, Slots(d, b), n, o);
  }

  /** The other providers of the contract are those of before the reload. */
  lemma OthersNamed(d: Data, d1: Data, d2: Data, d': Data, b: Bundle, r: Registration, before: seq<Index>, n: Index,
      o: Index)
    requires Consistent(d, {}) && Consistent(d', {}) && d1 == BeginReload(d, b) && Arrived(d1, d2, r, n) &&
      !Collides(d, r)
    requires Frame(d2, d', b, before + [n]) && before == Slots(d, b) && Slots(d2, b) == before + [n]
    requires Consistent(d2, Members([n])) && Slots(d', b) == [o] && LiveAt(d', o) && RegAt(d', o) == r && r.bundle == b
    ensures !Collides(d', r)
  {
    forall i | i in Indexed(d', r.contract)
      ensures LiveAt(d', i) && RegAt(d', i).name == r.name
    {
      var x := RegAt(d', i).bundle;
      assert SlotLinked(d', {}, i) && i in Slots(d', x);
      if x != b {
        assert i in Slots(d2, x) && i in Slots(d1, x) && i in Slots(d, x);
        assert LiveAt(d, i) && LiveAt(d1, i) && RegAt(d2, i).bundle == x;
        assert i !in before + [n];
        assert d'.slots[i] == d.slots[i];
        assert SlotLinked(d, {}, i);
        assert i in Indexed(d, r.contract);
      }
    }
  }

  /**
    From every reachable state with no reload under way, for every loaded bundle and every
    registration of it that the store takes: after a reload to that registration alone, two
    interleaved reloads that each provide the same contract both succeed and leave the bundle
    without any.
   */
  lemma InterleavedReloadsLoseContract(p: seq<System>, steps: seq<Step>, b: Bundle, r0: Registration, r1: Registration,
      r2: Registration)
    requires Run(p, steps) && p[|steps|].window.Closed? && b in p[|steps|].data.bundles
    requires r0.bundle == r1.bundle == r2.bundle == b && r0.contract == r1.contract == r2.contract
    requires r0.name == r1.name == r2.name && !Collides(p[|steps|].data, r0)
    ensures var after := Reloaded(p[|steps|].data, b, r0); after.Some? && LosesBoth(after.value, b, r1, r2)
  {
    RunKeepsInv(p, steps, |steps|);
    var d := p[|steps|].data;
    var o := ReloadLeavesOne(d, b, r0);
    var d' := Reloaded(d, b, r0).value;
    assert Collides(d', r1) == Collides(d', r0);
    SoleLosesBoth(d', b, o, r0.contract, r1, r2);
  }
}
