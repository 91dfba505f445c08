/**
  Handles over whole runs of the registry. A slot that is torn down changes its generation,
  and nothing ever turns it back: while a published slot keeps its generation it keeps its
  bundle and its contract, and a handle that went stale stays stale until the 32-bit counter
  has gone all the way round.
 */
module StaleHandles {
  import opened Basics
  import opened RegistryStore
  import opened RegistryInvariant
  import opened ReloadSwap
  import opened StoreEffects
  import opened ReloadOrder
  import opened ReloadRuns
  import opened ReloadReaders

  /** Slot `i` is as old as it was, or one teardown older. */
  predicate Ages(d: Data, d': Data, i: Index)
    requires i < |d.slots|
  {
    && i < |d'.slots|
    && (d'.slots[i].generation == d.slots[i].generation || d'.slots[i].generation == Bumped(d.slots[i].generation))
  }

  ghost predicate AllAge(d: Data, d': Data) { forall i: Index :: i < |d.slots| ==> Ages(d, d', i) }

  /** No slot was torn down. */
  ghost predicate NoneAge(d: Data, d': Data) {
    |d'.slots| >= |d.slots| && forall i: Index :: i < |d.slots| ==> d'.slots[i].generation == d.slots[i].generation
  }

  // ------------------------------------------------------- single sections

  lemma InsertAges(d: Data, r: Registration, publish: bool)
    requires r.bundle in d.bundles
    ensures NoneAge(d, Insert(d, r, publish).0)
  {
  }

  lemma {:induction false} InsertAllAges(d: Data, b: Bundle, regs: seq<Registration>, publish: bool)
    requires b in d.bundles && forall r :: r in regs ==> r.bundle == b
    ensures NoneAge(d, InsertAll(d, b, regs, publish).0)
    decreases |regs|
  {
    if regs != [] {
      InsertAges(d, regs[0], publish);
      InsertAllAges(Insert(d, regs[0], publish).0, b, regs[1..], publish);
    }
  }

  lemma RegisterAges(d: Data, r: Registration)
    ensures Register(d, r).Some? ==> NoneAge(d, Register(d, r).value.0)
  {
    if Register(d, r).Some? { InsertAges(EnsureBundle(d, r.bundle), r, r.bundle !in d.reloading); }
  }

  lemma {:induction false} PurgeAges(d: Data, b: Bundle, pending: seq<Index>)
    ensures NoneAge(d, PurgeAll(d, b, pending))
    decreases |pending|
  {
    if pending != [] { PurgeAges(PurgeOne(d, b, pending[0]), b, pending[1..]); }
  }

  lemma UnloadAges(d: Data, b: Bundle, pending: set<Index>)
    requires Consistent(d, pending)
    ensures AllAge(d, InvalidateBundle(d, b))
  {
    if b in d.bundles {
      assert NoDup(Slots(d, b));
      VacateAllVacates(d, d.bundles[b]);
    }
  }

  /** One turn of the swap tears down one slot at most: the old one, or the arrival that moves into it. */
  ghost predicate OneTorn(d: Data, d': Data, o: Index, x: Index) {
    && |d'.slots| == |d.slots| && x < |d.slots| && (x != o ==> !LiveAt(d', x))
    && (forall i: Index :: i < |d.slots| && i != x ==> d'.slots[i].generation == d.slots[i].generation)
    && (forall i: Index :: i < |d.slots| && i != x && i != o ==> d'.slots[i] == d.slots[i])
    && d'.slots[x].generation == Bumped(d.slots[x].generation)
  }

  lemma SwapOneTears(d: Data, b: Bundle, o: Index, arrived: seq<Index>) returns (x: Index)
    requires o !in arrived && LiveAt(d, o)
    ensures SwapOne(d, b, o, arrived).1 && OneTorn(d, SwapOne(d, b, o, arrived).0, o, x) && (x == o || x in arrived)
  {
    var m := FirstMatch(d, arrived, RegAt(d, o).contract);
    FirstMatchFacts(d, arrived, RegAt(d, o).contract);
    x := if m.None? then o else m.value;
  }

  /** Slots ahead of the swap, and vacant ones, are left alone; every other ages by one teardown at most. */
  ghost predicate Torn(d: Data, d': Data, before: seq<Index>) {
    && AllAge(d, d') && |d'.slots| == |d.slots|
    && forall i: Index :: i < |d.slots| && i !in before && !LiveAt(d, i) ==> d'.slots[i] == d.slots[i]
  }

  lemma {:induction false} SwapAllTears(d: Data, b: Bundle, before: seq<Index>, arrived: seq<Index>)
    requires NoDup(before) && Apart(before, arrived)
    ensures Torn(d, SwapAll(d, b, before, arrived).0, before)
    ensures forall i: Index :: i < |d.slots| && i !in before && i !in arrived ==>
      SwapAll(d, b, before, arrived).0.slots[i] == d.slots[i]
    decreases |before|
  {
    if before != [] && LiveAt(d, before[0]) {
      var o, rest := before[0], before[1..];
      assert before == [o] + rest;
      NoDupCons(o, rest);
      var x := SwapOneTears(d, b, o, arrived);
      var d1 := SwapOne(d, b, o, arrived).0;
      SwapAllTears(d1, b, rest, arrived);
      TornCons(d, d1, SwapAll(d1, b, rest, arrived).0, o, x, rest, arrived);
    }
  }

  lemma TornCons(d: Data, d1: Data, d': Data, o: Index, x: Index, rest: seq<Index>, arrived: seq<Index>)
    requires OneTorn(d, d1, o, x) && Torn(d1, d', rest) && (x == o || x in arrived) && Apart([o] + rest, arrived)
    requires o !in rest && LiveAt(d, x)
    requires forall i: Index :: i < |d1.slots| && i !in rest && i !in arrived ==> d'.slots[i] == d1.slots[i]
    ensures Torn(d, d', [o] + rest)
    ensures forall i: Index :: i < |d.slots| && i !in [o] + rest && i !in arrived ==> d'.slots[i] == d.slots[i]
  {
    assert o in [o] + rest;
    forall i: Index | i < |d.slots|
      ensures Ages(d, d', i)
    {
      assert Ages(d1, d', i);
      if i == x {
        assert i !in rest by { if x != o { assert forall y :: y in rest ==> y in [o] + rest; } }
        assert d'.slots[i] == d1.slots[i];
      }
    }
  }

  // ------------------------------------------------------- steps of a run

  /** Generations are 32-bit numbers. */
  ghost predicate Small(d: Data) { forall i: Index :: i < |d.slots| ==> d.slots[i].generation < 0x1_0000_0000 }

  lemma BumpMoves(g: nat)
    requires g < 0x1_0000_0000
    ensures Bumped(g) != g && Bumped(g) < 0x1_0000_0000
  {
  }

  /** Slot `i` belongs to the committed version of `x` and holds a registration of `c`. */
  ghost predicate Shown(s: System, i: Index, x: Bundle, c: Contract) {
    i in Stable(s, x) && LiveAt(s.data, i) && RegAt(s.data, i).contract == c
  }

  lemma SwapAges(s: System)
    requires Inv(s) && s.window.Open?
    ensures AllAge(s.data, ApplySwap(s.data, s.window.bundle, s.window.before).0)
  {
    var b, before, pending := s.window.bundle, s.window.before, Pending(s);
    ConsistentNow(s);
    assert Slots(s.data, b) == before + pending && NoDup(Slots(s.data, b));
    DisjointParts(before, pending);
    MinusPrefix(before, pending, before);
    assert NoDup(before) by {
      assert forall k :: 0 <= k < |before| ==> Slots(s.data, b)[k] == before[k];
    }
    var d0 := s.data.(reloading := s.data.reloading - {b});
    SwapAllTears(d0, b, before, pending);
    var d1, d' := SwapAll(d0, b, before, pending).0, ApplySwap(s.data, b, before).0;
    FreshKeepsSlots(d1, pending);
    assert d'.slots == d1.slots;
    forall i: Index | i < |s.data.slots|
      ensures Ages(s.data, d', i)
    {
      assert Ages(d0, d1, i);
    }
  }

  /** Every section tears a slot down at most once. */
  lemma StepAges(s: System, step: Step)
    requires Inv(s) && Enabled(s, step)
    ensures AllAge(s.data, Apply(s, step).data)
  {
    match step
    case Load(b, regs) =>
      if RegisterPrepared(s.data, b, regs).Some? {
        InsertAllAges(EnsureBundle(s.data, b), b, regs, b !in s.data.reloading);
      }
    case Unload(b) =>
      ConsistentNow(s);
      UnloadAges(s.data, b, Members(Pending(s)));
    case Add(r) => RegisterAges(s.data, r);
    case Arrive(r) => RegisterAges(s.data, r);
    case Swap => SwapAges(s);
    case Abort =>
      var d0 := s.data.(reloading := s.data.reloading - {s.window.bundle});
      PurgeAges(d0, s.window.bundle, Minus(Slots(s.data, s.window.bundle), s.window.before));
    case _ =>
  }

  lemma UntouchedShows(s: System, s': System, i: Index, x: Bundle, c: Contract)
    requires Inv(s) && Shown(s, i, x, c) && Untouched(s.data, s'.data, x) && i in Stable(s', x)
    ensures Shown(s', i, x, c)
  {
    StableLive(s, x);
  }

  lemma LoadShows(s: System, b: Bundle, regs: seq<Registration>, i: Index, x: Bundle, c: Contract)
    requires Inv(s) && Enabled(s, Load(b, regs)) && Shown(s, i, x, c)
    ensures Shown(Apply(s, Load(b, regs)), i, x, c)
  {
    ConsistentNow(s);
    PreparedTheorem(s.data, b, regs, Members(Pending(s)));
    var done := RegisterPrepared(s.data, b, regs);
    if done.Some? {
      StableLive(s, x);
      assert x != b;
      LoadFrame(s, b, regs, done.value.0, done.value.1);
      UntouchedShows(s, Apply(s, Load(b, regs)), i, x, c);
    }
  }

  lemma AddShows(s: System, r: Registration, i: Index, x: Bundle, c: Contract)
    requires Inv(s) && Enabled(s, Add(r)) && Shown(s, i, x, c)
    ensures Shown(Apply(s, Add(r)), i, x, c)
  {
    ConsistentNow(s);
    AddTheorem(s.data, r, Members(Pending(s)));
  }

  lemma ArriveShows(s: System, r: Registration, i: Index, x: Bundle, c: Contract)
    requires Inv(s) && Enabled(s, Arrive(r)) && Shown(s, i, x, c)
    ensures Shown(Apply(s, Arrive(r)), i, x, c)
  {
    ArriveWindow(s, r);
  }

  lemma UnloadShows(s: System, b: Bundle, i: Index, x: Bundle, c: Contract)
    requires Inv(s) && Small(s.data) && Enabled(s, Unload(b)) && Shown(s, i, x, c)
    requires var d' := Apply(s, Unload(b)).data; i < |d'.slots| && d'.slots[i].generation == s.data.slots[i].generation
    ensures Shown(Apply(s, Unload(b)), i, x, c)
  {
    ConsistentNow(s);
    StableLive(s, x);
    if b in s.data.bundles {
      forall k | k in Members(Pending(s))
        ensures k !in Slots(s.data, b)
      {
        assert k in Slots(s.data, s.window.bundle) && RegAt(s.data, k).bundle == s.window.bundle;
      }
      InvalidateTheorem(s.data, b, Members(Pending(s)));
      BumpMoves(s.data.slots[i].generation);
      assert x != b;
      FrameUntouched(s, InvalidateBundle(s.data, b), b, x);
      UntouchedShows(s, Apply(s, Unload(b)), i, x, c);
    }
  }

  lemma SurvivorShows(s: System, s': System, i: Index, c: Contract)
    requires Inv(s) && Small(s.data) && s.window.Open? && s.window.bundle in s.data.bundles && s' == Apply(s, Swap)
    requires Shown(s, i, s.window.bundle, c) && i < |s'.data.slots|
    requires s'.data.slots[i].generation == s.data.slots[i].generation
    ensures Shown(s', i, s.window.bundle, c)
  {
    var b, before, pending := s.window.bundle, s.window.before, Pending(s);
    SwapTheorem(s.data, b, before, pending);
    var j :| 0 <= j < |before| && before[j] == i;
    assert OldSlotFate(s.data, s'.data, before, pending, j);
    BumpMoves(s.data.slots[i].generation);
    FrameOwner(s, s'.data, i);
  }

  lemma SwapShows(s: System, i: Index, x: Bundle, c: Contract)
    requires Inv(s) && Small(s.data) && Enabled(s, Swap) && Shown(s, i, x, c)
    requires var d' := Apply(s, Swap).data; i < |d'.slots| && d'.slots[i].generation == s.data.slots[i].generation
    ensures Shown(Apply(s, Swap), i, x, c)
  {
    var b, before, pending := s.window.bundle, s.window.before, Pending(s);
    var s' := Apply(s, Swap);
    StableLive(s, x);
    assert Slots(s.data, b) == before + pending;
    if b !in s.data.bundles {
      assert before == [] && ApplySwap(s.data, b, []) == (s.data.(reloading := s.data.reloading - {b}), MissingBundle);
    } else {
      SwapTheorem(s.data, b, before, pending);
      if x == b {
        SurvivorShows(s, s', i, c);
      } else {
        FrameUntouched(s, s'.data, b, x);
        UntouchedShows(s, s', i, x, c);
      }
    }
  }

  lemma AbortShows(s: System, i: Index, x: Bundle, c: Contract)
    requires Inv(s) && Enabled(s, Abort) && Shown(s, i, x, c)
    ensures Shown(Apply(s, Abort), i, x, c)
  {
    var b, before, pending := s.window.bundle, s.window.before, Pending(s);
    var s' := Apply(s, Abort);
    AbortTheorem(s.data, b, before, pending);
    StableLive(s, x);
    if x == b {
      assert before + [] == before;
      NotPending(s, b, i);
    } else {
      FrameWeaken(s.data, s'.data, b, before, pending);
      FrameUntouched(s, s'.data, b, x);
      UntouchedShows(s, s', i, x, c);
    }
  }

  /** A committed slot that is not torn down goes on holding a registration of its bundle and contract. */
  lemma StepShows(s: System, step: Step, i: Index, x: Bundle, c: Contract)
    requires Inv(s) && Small(s.data) && Enabled(s, step) && Shown(s, i, x, c)
    requires var d' := Apply(s, step).data; i < |d'.slots| && d'.slots[i].generation == s.data.slots[i].generation
    ensures Shown(Apply(s, step), i, x, c)
  {
    match step
    case Load(b, regs) => LoadShows(s, b, regs, i, x, c);
    case Unload(b) => UnloadShows(s, b, i, x, c);
    case Add(r) => AddShows(s, r, i, x, c);
    case Arrive(r) => ArriveShows(s, r, i, x, c);
    case Swap => SwapShows(s, i, x, c);
    case Abort => AbortShows(s, i, x, c);
    case _ =>
  }

  lemma AgedSmall(d: Data, d': Data)
    requires Small(d) && AllAge(d, d') && forall i: Index :: |d.slots| <= i < |d'.slots| ==> d'.slots[i].generation == 0
    ensures Small(d')
  {
    forall i: Index | i < |d'.slots|
      ensures d'.slots[i].generation < 0x1_0000_0000
    {
      if i < |d.slots| {
        assert Ages(d, d', i);
        BumpMoves(d.slots[i].generation);
      }
    }
  }

  /** Slots are added at generation 0. */
  ghost predicate NewAtZero(d: Data, d': Data) {
    forall i: Index :: |d.slots| <= i < |d'.slots| ==> d'.slots[i].generation == 0
  }

  lemma {:induction false} InsertAllNew(d: Data, b: Bundle, regs: seq<Registration>, publish: bool)
    requires b in d.bundles && forall r :: r in regs ==> r.bundle == b
    ensures NewAtZero(d, InsertAll(d, b, regs, publish).0)
    decreases |regs|
  {
    if regs != [] {
      var d1 := Insert(d, regs[0], publish).0;
      InsertAges(d, regs[0], publish);
      InsertAllNew(d1, b, regs[1..], publish);
      InsertAllAges(d1, b, regs[1..], publish);
    }
  }

  lemma {:induction false} PurgeNew(d: Data, b: Bundle, pending: seq<Index>)
    ensures |PurgeAll(d, b, pending).slots| == |d.slots|
    decreases |pending|
  {
    if pending != [] { PurgeNew(PurgeOne(d, b, pending[0]), b, pending[1..]); }
  }

  lemma SwapNew(s: System)
    requires Inv(s) && s.window.Open?
    ensures |ApplySwap(s.data, s.window.bundle, s.window.before).0.slots| == |s.data.slots|
  {
    var b, before, pending := s.window.bundle, s.window.before, Pending(s);
    ConsistentNow(s);
    assert Slots(s.data, b) == before + pending && NoDup(Slots(s.data, b));
    DisjointParts(before, pending);
    MinusPrefix(before, pending, before);
    assert NoDup(before) by {
      assert forall k :: 0 <= k < |before| ==> Slots(s.data, b)[k] == before[k];
    }
    var d0 := s.data.(reloading := s.data.reloading - {b});
    SwapAllTears(d0, b, before, pending);
    FreshKeepsSlots(SwapAll(d0, b, before, pending).0, pending);
  }

  lemma StepNew(s: System, step: Step)
    requires Inv(s) && Enabled(s, step)
    ensures NewAtZero(s.data, Apply(s, step).data)
  {
    match step
    case Load(b, regs) =>
      if RegisterPrepared(s.data, b, regs).Some? {
        InsertAllNew(EnsureBundle(s.data, b), b, regs, b !in s.data.reloading);
      }
    case Unload(b) =>
      ConsistentNow(s);
      if b in s.data.bundles {
        assert NoDup(Slots(s.data, b));
        VacateAllVacates(s.data, s.data.bundles[b]);
      }
    case Swap => SwapNew(s);
    case Abort =>
      var d0 := s.data.(reloading := s.data.reloading - {s.window.bundle});
      PurgeNew(d0, s.window.bundle, Minus(Slots(s.data, s.window.bundle), s.window.before));
    case _ =>
  }

  lemma {:induction false} RunSmall(p: seq<System>, steps: seq<Step>, n: nat)
    requires Run(p, steps) && n < |p|
    ensures Small(p[n].data)
  {
    if n > 0 {
      RunSmall(p, steps, n - 1);
      RunKeepsInv(p, steps, n - 1);
      StepAges(p[n - 1], steps[n - 1]);
      StepNew(p[n - 1], steps[n - 1]);
      AgedSmall(p[n - 1].data, p[n].data);
    }
  }

  // ------------------------------------------------------- theorems

  /** Over a stretch of a run a slot ages by one teardown a step at most, and without one shows the same. */
  lemma {:induction false} AgeOverRun(p: seq<System>, steps: seq<Step>, lo: nat, hi: nat, i: Index) returns (k: nat)
    requires Run(p, steps) && lo <= hi < |p| && i < |p[lo].data.slots|
    ensures i < |p[hi].data.slots| && k <= hi - lo
    ensures p[hi].data.slots[i].generation == BumpedBy(p[lo].data.slots[i].generation, k)
    ensures k == 0 ==> forall x, c :: Shown(p[lo], i, x, c) ==> Shown(p[hi], i, x, c)
  {
    k := 0;
    if lo < hi {
      k := AgeOverRun(p, steps, lo, hi - 1, i);
      var s, s', step := p[hi - 1], p[hi], steps[hi - 1];
      assert Enabled(s, step) && s' == Apply(s, step);
      RunKeepsInv(p, steps, hi - 1);
      RunSmall(p, steps, hi - 1);
      StepAges(s, step);
      assert Ages(s.data, s'.data, i);
      if s'.data.slots[i].generation != s.data.slots[i].generation {
        k := k + 1;
      } else if k == 0 {
        forall x, c | Shown(p[lo], i, x, c)
          ensures Shown(s', i, x, c)
        {
          StepShows(s, step, i, x, c);
        }
      }
    }
  }

  lemma {:induction false} BumpsAdd(g: nat, a: nat, b: nat)
    ensures BumpedBy(BumpedBy(g, a), b) == BumpedBy(g, a + b)
  {
    if b > 0 { BumpsAdd(g, a, b - 1); }
  }

  /**
    A handle of a committed slot, at any later point of the run less than 2^32 steps away: if
    it resolves, then to what the same bundle has committed for the same contract; and once it
    does not resolve it is stale ever after.
   */
  lemma HandleMeansTheSame(p: seq<System>, steps: seq<Step>, lo: nat, mid: nat, hi: nat, i: Index, x: Bundle,
      c: Contract)
    requires Run(p, steps) && lo <= mid <= hi < |p| && hi - lo < 0x1_0000_0000 && Shown(p[lo], i, x, c)
    ensures var h := Handle(i, p[lo].data.slots[i].generation);
      && (Resolve(p[hi].view, h).Interface? ==> ResolvesFor(p[hi], h, x, c))
      && (!Resolve(p[mid].view, h).Interface? ==> Resolve(p[hi].view, h) == StaleHandle)
  {
    var g := p[lo].data.slots[i].generation;
    RunKeepsInv(p, steps, mid);
    RunKeepsInv(p, steps, hi);
    RunSmall(p, steps, lo);
    var k1 := AgeOverRun(p, steps, lo, mid, i);
    var k2 := AgeOverRun(p, steps, mid, hi, i);
    BumpsAdd(g, k1, k2);
    GenerationsDiffer(g, k1);
    GenerationsDiffer(g, k1 + k2);
    var s, h := p[hi], Handle(i, g);
    if k1 + k2 == 0 { CommittedResolves(s, i, x, c); }
  }

  lemma GenerationsDiffer(g: nat, k: nat)
    requires g < 0x1_0000_0000 && k < 0x1_0000_0000
    ensures BumpedBy(g, k) == g <==> k == 0
  {
    StaleUntilWrapped(g, k);
  }

  /** The handle resolves to what the bundle has committed for the contract. */
  ghost predicate ResolvesFor(s: System, h: Handle, x: Bundle, c: Contract) {
    exists r :: r in Committed(s, x) && r.contract == c && Resolve(s.view, h) == Interface(r.interface)
  }

  lemma CommittedResolves(s: System, i: Index, x: Bundle, c: Contract)
    requires Inv(s) && Shown(s, i, x, c)
    ensures ResolvesFor(s, Handle(i, s.data.slots[i].generation), x, c)
  {
    SlotIsCounted(s.data, Stable(s, x), i);
    assert CountsMatch(s, x);
    CountedIsMember(Committed(s, x), RegAt(s.data, i));
  }

  /** What a reader finds is a handle of a committed slot. */
  lemma FoundIsShown(p: seq<System>, steps: seq<Step>, n: nat, c: Contract, floor: nat)
    requires Run(p, steps) && n < |p| && Find(p[n].view, c, floor).Some?
    ensures var h := Find(p[n].view, c, floor).value;
      h.index < |p[n].data.slots| && h.generation == p[n].data.slots[h.index].generation &&
      exists x :: Shown(p[n], h.index, x, c)
  {
    RunKeepsInv(p, steps, n);
    var s, h := p[n], Find(p[n].view, c, floor).value;
    ConsistentNow(s);
    FirstLiveMeans(s.view, Indexed(s.view, c), floor);
    var k :| FirstFit(s.view, Indexed(s.view, c), floor, k, h);
    assert h.index in Indexed(s.data, c);
    VisibleIsStable(s, RegAt(s.data, h.index).bundle, h.index);
    assert Shown(s, h.index, RegAt(s.data, h.index).bundle, c);
  }

  /**
    Concretely, what an aborted reload hands out is not protected so: a handle returned to the
    failed init outlives the purge of its slot, and resolves to whatever is registered there next.
   */
  lemma PurgedHandleRevives(r: Registration, x: Registration)
    requires r.bundle != x.bundle
    ensures var d1 := BeginReload(EMPTY, r.bundle);
      Register(d1, r).Some? &&
      var (d2, h) := Register(d1, r).value;
      var d3 := AbortReload(d2, r.bundle, []);
      Register(d3, x).Some? && Resolve(Register(d3, x).value.0, h) == Interface(x.interface)
  {
    var b, d1 := r.bundle, BeginReload(EMPTY, r.bundle);
    var d2 := Data([Slot(Some(r), 0)], map[], map[b := [0]], {b});
    assert [] + [0] == [0] && [] + [Slot(None, 0)] == [Slot(None, 0)];
    assert !Refused(d1, r) && EnsureBundle(d1, b).bundles == map[b := []];
    assert [Slot(None, 0)][0 := Slot(Some(r), 0)] == [Slot(Some(r), 0)];
    assert Insert(EnsureBundle(d1, b), r, false).0 == d2;
    assert Register(d1, r) == Some((d2, Handle(0, 0)));
    var d3 := Data([Slot(None, 0)], map[], map[b := []], {});
    assert Minus([0], []) == [0] && Retain([0], 0) == [];
    var e := d2.(reloading := {});
    assert d2.(reloading := d2.reloading - {b}) == e;
    assert PurgeOne(e, b, 0) == d3 && PurgeAll(d3, b, []) == d3;
    assert PurgeAll(e, b, [0]) == d3;
    assert AbortReload(d2, b, []) == d3;
  }
}
