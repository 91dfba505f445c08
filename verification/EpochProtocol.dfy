/**
  The publish / defer / reclaim protocol as a state machine over any number of
  readers, writers and slots. Every mutex section and every atomic access is one
  step, so the swap of a publication and its deferral are two steps. Each
  publication uses a slot that was never published before.
 */
module EpochProtocol {
  import opened EpochCollector

  type ReaderId = nat

  /**
    Where a reader is. `Checked` is a reader that dereferenced while pinned;
    `Dangling` one that dropped its guard first. `ok` is the `alive` flag it saw.
   */
  datatype Reader =
    | Pinned(guard: Guard)
    | Loaded(guard: Guard, slot: Slot)
    | Checked(guard: Guard, ok: bool)
    | Dangling(slot: Slot)
    | Done(pinnedAcross: bool, ok: bool)
  {
    predicate HoldsGuard() { Pinned? || Loaded? || Checked? }
  }

  /**
    `superseded` holds the pointers of writers between their swap and their mutex
    section; `used` is every slot that was ever published.
   */
  datatype State = State(
    published: Slot,
    superseded: multiset<Slot>,
    collector: Collector,
    readers: map<ReaderId, Reader>,
    used: set<Slot>)

  datatype Step =
    | Pin(r: ReaderId)
    | Load(r: ReaderId)
    | Check(r: ReaderId)
    | Unpin(r: ReaderId)
    | UnpinEarly(r: ReaderId)
    | CheckLate(r: ReaderId)
    | Swap(slot: Slot)
    | Defer(slot: Slot)

  predicate Alive(w: State, s: Slot) { s !in w.collector.freed }

  predicate Init(w: State) {
    w.superseded == multiset{} && w.collector == Collector(0, [], [], []) && w.readers == map[] &&
      w.used == {w.published}
  }

  predicate Enabled(w: State, step: Step) {
    match step
    case Pin(r) => r !in w.readers
    case Load(r) => r in w.readers && w.readers[r].Pinned?
    case Check(r) => r in w.readers && w.readers[r].Loaded?
    case Unpin(r) => r in w.readers && w.readers[r].Checked?
    case UnpinEarly(r) => r in w.readers && w.readers[r].Loaded?
    case CheckLate(r) => r in w.readers && w.readers[r].Dangling?
    case Swap(s) => s !in w.used
    case Defer(s) => s in w.superseded
  }

  function Apply(w: State, step: Step): State
    requires Enabled(w, step)
  {
    match step
    case Pin(r) =>
      w.(readers := w.readers[r := Pinned(w.collector.nextGuard)], collector := PinSection(w.collector))
    case Load(r) =>
      w.(readers := w.readers[r := Loaded(w.readers[r].guard, w.published)])
    case Check(r) =>
      w.(readers := w.readers[r := Checked(w.readers[r].guard, Alive(w, w.readers[r].slot))])
    case Unpin(r) =>
      w.(readers := w.readers[r := Done(true, w.readers[r].ok)],
         collector := UnpinSection(w.collector, w.readers[r].guard))
    case UnpinEarly(r) =>
      w.(readers := w.readers[r := Dangling(w.readers[r].slot)],
         collector := UnpinSection(w.collector, w.readers[r].guard))
    case CheckLate(r) =>
      w.(readers := w.readers[r := Done(false, Alive(w, w.readers[r].slot))])
    case Swap(s) =>
      w.(published := s, superseded := w.superseded + multiset{w.published}, used := w.used + {s})
    case Defer(s) =>
      w.(superseded := w.superseded - multiset{s}, collector := DeferSection(w.collector, s))
  }

  ghost predicate Next(w: State, w': State) {
    exists step :: Enabled(w, step) && w' == Apply(w, step)
  }

  ghost predicate Path(p: seq<State>) {
    |p| > 0 && forall i :: 0 <= i < |p| - 1 ==> Next(p[i], p[i + 1])
  }

  ghost predicate Run(p: seq<State>) { Path(p) && Init(p[0]) }

  // ---------------------------------------------------------------- invariant

  /** The slots that were handed to the collector. */
  ghost function Pool(c: Collector): multiset<Slot> { multiset(SlotsOf(c.deferred)) + multiset(c.freed) }

  /** All slots ever published, each counted once in whichever place holds it. */
  ghost function Ledger(w: State): multiset<Slot> {
    multiset{w.published} + w.superseded + Pool(w.collector)
  }

  /** Why a pinned reader's slot cannot be reclaimed now. */
  ghost predicate Protected(w: State, g: Guard, s: Slot) {
    s == w.published || s in w.superseded ||
    exists d :: d in w.collector.deferred && d.slot == s && g in d.guards
  }

  ghost predicate ReaderSafe(w: State, r: ReaderId)
    requires r in w.readers
  {
    match w.readers[r]
    case Pinned(g) => g in w.collector.active
    case Loaded(g, s) => g in w.collector.active && s in w.used && Protected(w, g, s)
    case Checked(g, ok) => g in w.collector.active && ok
    case Dangling(s) => s in w.used
    case Done(pinnedAcross, ok) => pinnedAcross ==> ok
  }

  predicate Holds(w: State, r: ReaderId) { r in w.readers && w.readers[r].HoldsGuard() }

  ghost predicate GuardsOwned(w: State) {
    && (forall g :: g in w.collector.active ==> g < w.collector.nextGuard)
    && (forall g :: g in w.collector.active ==> exists r :: Holds(w, r) && w.readers[r].guard == g)
    && (forall r, q :: Holds(w, r) && Holds(w, q) && r != q ==> w.readers[r].guard != w.readers[q].guard)
  }

  ghost predicate Inv(w: State) {
    && Ledger(w) == multiset(w.used)
    && GuardsOwned(w)
    && (forall r :: r in w.readers ==> ReaderSafe(w, r))
    && (forall d :: d in w.collector.deferred ==> StillPinned(d, w.collector.active))
  }

  lemma InitInv(w: State)
    requires Init(w)
    ensures Inv(w)
  {
  }

  /** Reclaiming keeps the ledger and never touches a slot that an active guard's snapshot protects. */
  lemma ReclaimFacts(c: Collector)
    ensures var c' := Reclaimed(c);
      && Pool(c') == Pool(c)
      && (forall d :: d in c'.deferred <==> d in c.deferred && StillPinned(d, c.active))
      && c'.active == c.active && c'.nextGuard == c.nextGuard
  {
    ReclaimConserves(c.deferred, c.active);
    KeptMembers(c.deferred, c.active);
    assert multiset(Reclaimed(c).freed) == multiset(c.freed) + multiset(Expired(c.deferred, c.active));
  }

  /** Steps that move a reader without releasing a guard. */
  predicate ReaderStep(step: Step) { step.Pin? || step.Load? || step.Check? || step.CheckLate? }

  lemma ReaderStepKeepsGuards(w: State, step: Step)
    requires Inv(w) && Enabled(w, step) && ReaderStep(step)
    ensures GuardsOwned(Apply(w, step))
  {
    var w' := Apply(w, step);
    forall g | g in w'.collector.active
      ensures exists r :: Holds(w', r) && w'.readers[r].guard == g
    {
      if step.Pin? && g == w.collector.nextGuard {
        assert Holds(w', step.r) && w'.readers[step.r].guard == g;
      } else {
        var r :| Holds(w, r) && w.readers[r].guard == g;
        assert Holds(w', r) && w'.readers[r].guard == g;
      }
    }
    forall r | Holds(w, r)
      ensures w.readers[r].guard < w.collector.nextGuard
    {
      assert ReaderSafe(w, r);
    }
  }

  lemma ReaderStepKeepsInv(w: State, step: Step)
    requires Inv(w) && Enabled(w, step) && ReaderStep(step)
    ensures Inv(Apply(w, step))
  {
    var w' := Apply(w, step);
    ReaderStepKeepsGuards(w, step);
    forall r | r in w'.readers
      ensures ReaderSafe(w', r)
    {
      if r in w.readers { assert ReaderSafe(w, r); }
      if step.Check? && r == step.r { ProtectedIsAlive(w, w.readers[r].guard, w.readers[r].slot); }
      if step.Load? && r == step.r { PublishedIsUsed(w); }
    }
    forall d | d in w'.collector.deferred
      ensures StillPinned(d, w'.collector.active)
    {
      assert StillPinned(d, w.collector.active);
      var g :| g in d.guards && g in w.collector.active;
      assert g in w'.collector.active;
    }
  }

  lemma PublishedIsUsed(w: State)
    requires Inv(w)
    ensures w.published in w.used
  {
    assert w.published in Ledger(w);
  }

  lemma SwapKeepsLedger(w: State, s: Slot)
    requires Ledger(w) == multiset(w.used) && s !in w.used
    ensures var w' := Apply(w, Swap(s)); Ledger(w') == multiset(w'.used)
  {
    assert multiset(w.used + {s}) == multiset(w.used) + multiset{s};
  }

  lemma DeferGrowsPool(c: Collector, s: Slot)
    ensures Pool(DeferSection(c, s)) == Pool(c) + multiset{s}
  {
    var ds := c.deferred + [Deferral(s, c.active)];
    assert ds[..|ds| - 1] == c.deferred;
    assert multiset(SlotsOf(ds)) == multiset(SlotsOf(c.deferred)) + multiset{s};
    ReclaimFacts(c.(deferred := ds));
  }

  lemma DeferKeepsLedger(w: State, s: Slot)
    requires Ledger(w) == multiset(w.used) && s in w.superseded
    ensures var w' := Apply(w, Defer(s)); Ledger(w') == multiset(w'.used)
  {
    DeferGrowsPool(w.collector, s);
    MoveBetween(multiset{w.published}, w.superseded, Pool(w.collector), s);
  }

  lemma MoveBetween(a: multiset<Slot>, b: multiset<Slot>, c: multiset<Slot>, s: Slot)
    requires s in b
    ensures a + (b - multiset{s}) + (c + multiset{s}) == a + b + c
  {
  }

  lemma WriterStepKeepsInv(w: State, step: Step)
    requires Inv(w) && Enabled(w, step) && (step.Swap? || step.Defer?)
    ensures Inv(Apply(w, step))
  {
    var w' := Apply(w, step);
    if step.Swap? { SwapKeepsLedger(w, step.slot); } else { DeferKeepsLedger(w, step.slot); }
    var waiting := w.collector.deferred + [Deferral(step.slot, w.collector.active)];
    ReclaimFacts(if step.Defer? then w.collector.(deferred := waiting) else w.collector);
    assert GuardsOwned(w') by {
      assert forall r :: Holds(w', r) == Holds(w, r);
    }
    forall r | r in w'.readers
      ensures ReaderSafe(w', r)
    {
      assert ReaderSafe(w, r);
      if w.readers[r].Loaded? { ProtectionMoves(w, step, w.readers[r].guard, w.readers[r].slot); }
    }
  }

  /** A writer's step hands a protected slot from one place to the next without a gap. */
  lemma ProtectionMoves(w: State, step: Step, g: Guard, s: Slot)
    requires Inv(w) && Enabled(w, step) && (step.Swap? || step.Defer?)
    requires g in w.collector.active && Protected(w, g, s)
    ensures Protected(Apply(w, step), g, s)
  {
    if step.Defer? {
      var entry := Deferral(step.slot, w.collector.active);
      var c := w.collector.(deferred := w.collector.deferred + [entry]);
      ReclaimFacts(c);
      var c' := Reclaimed(c);
      if d :| d in w.collector.deferred && d.slot == s && g in d.guards {
        assert StillPinned(d, c.active) && d in c'.deferred;
      } else if s == step.slot {
        assert entry in c.deferred && StillPinned(entry, c.active) && entry in c'.deferred;
      }
    }
  }

  /** How often each place counts a slot; the ledger holds a used slot once. */
  lemma LedgerCount(w: State, s: Slot)
    requires Inv(w)
    ensures multiset{w.published}[s] + w.superseded[s] + multiset(SlotsOf(w.collector.deferred))[s]
              + multiset(w.collector.freed)[s] == if s in w.used then 1 else 0
    ensures multiset(SlotsOf(w.collector.deferred))[s] > 0 <==> s in SlotsOf(w.collector.deferred)
    ensures multiset(w.collector.freed)[s] > 0 <==> s in w.collector.freed
  {
    assert Ledger(w)[s] == multiset(w.used)[s];
  }

  /** A protected slot is counted outside `freed`, so it is not counted there. */
  lemma ProtectedIsAlive(w: State, g: Guard, s: Slot)
    requires Inv(w) && Protected(w, g, s)
    ensures Alive(w, s)
  {
    SlotsOfMember(w.collector.deferred, s);
    LedgerCount(w, s);
  }

  lemma UnpinKeepsGuards(w: State, step: Step)
    requires Inv(w) && Enabled(w, step) && (step.Unpin? || step.UnpinEarly?)
    ensures GuardsOwned(Apply(w, step))
  {
    var w', id := Apply(w, step), w.readers[step.r].guard;
    WithoutMembers(w.collector.active, id);
    assert Holds(w, step.r);
    forall g | g in w'.collector.active
      ensures exists r :: Holds(w', r) && w'.readers[r].guard == g
    {
      var r :| Holds(w, r) && w.readers[r].guard == g;
      assert Holds(w', r) && w'.readers[r].guard == g;
    }
    assert forall r :: Holds(w', r) ==> Holds(w, r) && w'.readers[r] == w.readers[r];
  }

  /** Releasing one guard keeps every deferral that another pinned guard is part of. */
  lemma UnpinKeepsDeferral(c: Collector, id: Guard, d: Deferral, g: Guard)
    requires d in c.deferred && g in d.guards && g in c.active && g != id
    ensures d in UnpinSection(c, id).deferred
  {
    var c' := c.(active := Without(c.active, id));
    WithoutMembers(c.active, id);
    assert g in c'.active;
    KeptMembers(c'.deferred, c'.active);
  }

  lemma UnpinKeepsProtection(w: State, step: Step, r: ReaderId)
    requires Inv(w) && Enabled(w, step) && (step.Unpin? || step.UnpinEarly?)
    requires r in w.readers && r != step.r && w.readers[r].Loaded?
    ensures ReaderSafe(Apply(w, step), r)
  {
    var g, s, id := w.readers[r].guard, w.readers[r].slot, w.readers[step.r].guard;
    assert ReaderSafe(w, r);
    assert g != id by { assert Holds(w, r) && Holds(w, step.r); }
    WithoutMembers(w.collector.active, id);
    if s != w.published && s !in w.superseded {
      var d :| d in w.collector.deferred && d.slot == s && g in d.guards;
      UnpinKeepsDeferral(w.collector, id, d, g);
    }
  }

  lemma UnpinKeepsReader(w: State, step: Step, r: ReaderId)
    requires Inv(w) && Enabled(w, step) && (step.Unpin? || step.UnpinEarly?) && r in w.readers
    ensures ReaderSafe(Apply(w, step), r)
  {
    assert ReaderSafe(w, r);
    if r != step.r {
      if w.readers[r].Loaded? {
        UnpinKeepsProtection(w, step, r);
      } else if Holds(w, r) {
        assert Holds(w, step.r);
        WithoutMembers(w.collector.active, w.readers[step.r].guard);
      }
    }
  }

  lemma UnpinKeepsInv(w: State, step: Step)
    requires Inv(w) && Enabled(w, step) && (step.Unpin? || step.UnpinEarly?)
    ensures Inv(Apply(w, step))
  {
    var w' := Apply(w, step);
    UnpinKeepsGuards(w, step);
    assert Ledger(w') == multiset(w'.used) && forall d :: d in w'.collector.deferred ==>
      StillPinned(d, w'.collector.active) by {
      ReclaimFacts(w.collector.(active := Without(w.collector.active, w.readers[step.r].guard)));
    }
    forall r | r in w'.readers
      ensures ReaderSafe(w', r)
    {
      UnpinKeepsReader(w, step, r);
    }
  }

  lemma StepKeepsInv(w: State, step: Step)
    requires Inv(w) && Enabled(w, step)
    ensures Inv(Apply(w, step))
  {
    match step
    case Pin(_) | Load(_) | Check(_) | CheckLate(_) => ReaderStepKeepsInv(w, step);
    case Unpin(_) | UnpinEarly(_) => UnpinKeepsInv(w, step);
    case Swap(_) | Defer(_) => WriterStepKeepsInv(w, step);
  }

  lemma {:induction false} PathKeepsInv(p: seq<State>, i: nat)
    requires Path(p) && Inv(p[0]) && i < |p|
    ensures Inv(p[i])
  {
    if i > 0 {
      PathKeepsInv(p, i - 1);
      assert Next(p[i - 1], p[i]);
      var step :| Enabled(p[i - 1], step) && p[i] == Apply(p[i - 1], step);
      StepKeepsInv(p[i - 1], step);
    }
  }

  // ---------------------------------------------------------- safety theorems

  /**
    In every interleaving, a reader that pinned before loading and has not unpinned
    holds a live slot, for one of three reasons; and no reader that dereferenced
    under its guard ever saw a reclaimed slot.
   */
  lemma PinnedReaderHoldsLiveSlot(p: seq<State>, i: nat, r: ReaderId)
    requires Run(p) && i < |p| && r in p[i].readers
    ensures p[i].readers[r].Loaded? ==>
      Alive(p[i], p[i].readers[r].slot) && Protected(p[i], p[i].readers[r].guard, p[i].readers[r].slot)
    ensures p[i].readers[r].Checked? ==> p[i].readers[r].ok
    ensures p[i].readers[r].Done? && p[i].readers[r].pinnedAcross ==> p[i].readers[r].ok
  {
    InitInv(p[0]);
    PathKeepsInv(p, i);
    assert ReaderSafe(p[i], r);
    if p[i].readers[r].Loaded? {
      ProtectedIsAlive(p[i], p[i].readers[r].guard, p[i].readers[r].slot);
    }
  }

  lemma NothingWaitsUnguarded(w: State)
    requires Inv(w)
    ensures w.collector.active == [] ==> w.collector.deferred == []
  {
    assert w.collector.deferred != [] ==> w.collector.deferred[0] in w.collector.deferred;
    assert forall d :: d in w.collector.deferred ==> StillPinned(d, w.collector.active);
  }

  datatype Phase = Fresh | Published | SwappedOut | AwaitingGuards | Freed

  ghost predicate InPhase(w: State, s: Slot, ph: Phase) {
    match ph
    case Fresh => s !in w.used
    case Published => s == w.published
    case SwappedOut => s in w.superseded
    case AwaitingGuards => s in SlotsOf(w.collector.deferred)
    case Freed => s in w.collector.freed
  }

  /**
    In every reachable state each slot is in exactly one phase, it is alive unless
    reclaimed, it was reclaimed at most once, and with no guard active nothing waits.
   */
  lemma ExactlyOnePhase(p: seq<State>, i: nat, s: Slot)
    requires Run(p) && i < |p|
    ensures exists ph :: InPhase(p[i], s, ph) && forall q :: InPhase(p[i], s, q) ==> q == ph
    ensures Alive(p[i], s) <==> !InPhase(p[i], s, Freed)
    ensures multiset(p[i].collector.freed)[s] <= 1
    ensures p[i].collector.active == [] ==> p[i].collector.deferred == []
  {
    InitInv(p[0]);
    PathKeepsInv(p, i);
    var w := p[i];
    LedgerCount(w, s);
    var ph := if s !in w.used then Fresh else if s == w.published then Published
              else if s in w.superseded then SwappedOut
              else if s in SlotsOf(w.collector.deferred) then AwaitingGuards else Freed;
    assert InPhase(w, s, ph);
    NothingWaitsUnguarded(w);
  }

  // ------------------------------------------------------ pinning is necessary

  lemma PathAppend(p: seq<State>, q: seq<State>)
    requires Path(p) && Path(q) && p[|p| - 1] == q[0]
    ensures Path(p + q[1..])
  {
    var t := p + q[1..];
    forall i | 0 <= i < |t| - 1
      ensures Next(t[i], t[i + 1])
    {
      if i >= |p| - 1 {
        assert t[i] == q[i - |p| + 1] && t[i + 1] == q[i - |p| + 2];
      }
    }
  }

  lemma PathSnoc(p: seq<State>, step: Step)
    requires Path(p) && Enabled(p[|p| - 1], step)
    ensures Path(p + [Apply(p[|p| - 1], step)])
  {
    var w := p[|p| - 1];
    assert Next(w, Apply(w, step));
  }

  /** Reader `r` takes no step along `p`. */
  ghost predicate Idle(p: seq<State>, r: ReaderId) {
    forall i :: 0 <= i < |p| ==> r in p[i].readers && r in p[0].readers && p[i].readers[r] == p[0].readers[r]
  }

  lemma IdleAppend(p: seq<State>, q: seq<State>, r: ReaderId)
    requires |p| > 0 && |q| > 0 && p[|p| - 1] == q[0] && Idle(p, r) && Idle(q, r)
    ensures Idle(p + q[1..], r)
    ensures (p + q[1..])[|p| + |q| - 2] == q[|q| - 1]
  {
  }

  /** Another reader can always run to completion, releasing its guard. */
  lemma FinishReader(w: State, r: ReaderId, q: ReaderId) returns (p: seq<State>)
    requires Inv(w) && r in w.readers && q in w.readers && q != r && w.readers[q].HoldsGuard()
    ensures Path(p) && p[0] == w && Idle(p, r)
    ensures |p[|p| - 1].collector.active| < |w.collector.active|
    ensures p[|p| - 1].used == w.used
  {
    p := [w];
    if w.readers[q].Pinned? {
      PathSnoc(p, Load(q));
      p := p + [Apply(p[|p| - 1], Load(q))];
    }
    if p[|p| - 1].readers[q].Loaded? {
      PathSnoc(p, Check(q));
      p := p + [Apply(p[|p| - 1], Check(q))];
    }
    assert ReaderSafe(w, q);
    WithoutMembers(w.collector.active, w.readers[q].guard);
    PathSnoc(p, Unpin(q));
    p := p + [Apply(p[|p| - 1], Unpin(q))];
  }

  /** Every guard can be released without reader `r` moving. */
  lemma {:induction false} DrainGuards(w: State, r: ReaderId) returns (p: seq<State>)
    requires Inv(w) && r in w.readers && !w.readers[r].HoldsGuard()
    ensures Path(p) && p[0] == w && Idle(p, r)
    ensures p[|p| - 1].collector.active == [] && p[|p| - 1].used == w.used
    decreases |w.collector.active|
  {
    if w.collector.active == [] {
      p := [w];
    } else {
      assert w.collector.active[0] in w.collector.active;
      var q :| Holds(w, q) && w.readers[q].guard == w.collector.active[0];
      var p1 := FinishReader(w, r, q);
      PathKeepsInv(p1, |p1| - 1);
      var p2 := DrainGuards(p1[|p1| - 1], r);
      PathAppend(p1, p2);
      IdleAppend(p1, p2, r);
      p := p1 + p2[1..];
    }
  }

  lemma FreshSlotExists(used: set<Slot>) returns (s: Slot)
    ensures forall x :: x in used ==> x < s
  {
    if used == {} {
      s := 0;
    } else {
      var x :| x in used;
      var t := FreshSlotExists(used - {x});
      s := if x < t then t else x + 1;
      assert used == used - {x} + {x};
    }
  }

  /** With no guard pinned, a used slot can be reclaimed by writers alone. */
  lemma WritersReclaim(w: State, r: ReaderId, s: Slot) returns (p: seq<State>)
    requires Inv(w) && w.collector.active == [] && r in w.readers && s in w.used
    ensures Path(p) && p[0] == w && Idle(p, r) && !Alive(p[|p| - 1], s)
  {
    NothingWaitsUnguarded(w);
    LedgerCount(w, s);
    p := [w];
    if s == w.published {
      var n := FreshSlotExists(w.used);
      PathSnoc(p, Swap(n));
      p := p + [Apply(w, Swap(n))];
    }
    var v := p[|p| - 1];
    if s in v.superseded {
      PathSnoc(p, Defer(s));
      assert v.collector.deferred + [Deferral(s, [])] == [Deferral(s, [])];
      assert Expired([Deferral(s, [])], []) == [s];
      p := p + [Apply(v, Defer(s))];
    }
  }

  /**
    Pinning across the dereference is necessary everywhere: from every reachable state
    in which a reader dropped its guard before dereferencing, some continuation in
    which that reader does not move reclaims its slot, and the reader then sees it.
   */
  lemma UnpinnedReaderCanObserveReclaim(run: seq<State>, i: nat, r: ReaderId) returns (p: seq<State>)
    requires Run(run) && i < |run| && r in run[i].readers && run[i].readers[r].Dangling?
    ensures Path(p) && p[0] == run[i] && Idle(p, r)
    ensures !Alive(p[|p| - 1], run[i].readers[r].slot)
    ensures Apply(p[|p| - 1], CheckLate(r)).readers[r] == Done(false, false)
  {
    InitInv(run[0]);
    PathKeepsInv(run, i);
    assert ReaderSafe(run[i], r);
    var p1 := DrainGuards(run[i], r);
    PathKeepsInv(p1, |p1| - 1);
    var p2 := WritersReclaim(p1[|p1| - 1], r, run[i].readers[r].slot);
    PathAppend(p1, p2);
    IdleAppend(p1, p2, r);
    p := p1 + p2[1..];
  }
}
