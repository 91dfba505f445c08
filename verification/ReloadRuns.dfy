/**
  Runs of the registry with whole reloads serialized: readers look at the published
  view between any two sections, other bundles load and unload at any time, and at
  most one bundle is inside its snapshot-to-swap sequence. A bundle is not unloaded
  or loaded, and registers nothing of its own accord, while its own reload is in progress.

  `committed` records what each bundle's last successful load or reload registered, and
  what it added since.
 */
module ReloadRuns {
  import opened Basics
  import opened RegistryStore
  import opened RegistryInvariant
  import opened ReloadSwap
  import opened StoreEffects

  datatype Window =
    | Closed
    | Snapshotted(bundle: Bundle, before: seq<Index>)
    | Open(bundle: Bundle, before: seq<Index>, arrived: seq<Registration>)

  datatype System = System(data: Data, view: Data, window: Window, committed: map<Bundle, seq<Registration>>)

  datatype Step =
    | Load(b: Bundle, regs: seq<Registration>)
    | Unload(b: Bundle)
    | Add(r: Registration)
    | Snapshot(b: Bundle)
    | OpenWindow
    | Arrive(r: Registration)
    | Swap
    | Abort

  predicate InReload(s: System, b: Bundle) { !s.window.Closed? && s.window.bundle == b }

  predicate Enabled(s: System, step: Step) {
    match step
    case Load(b, regs) => !InReload(s, b) && forall r | r in regs :: r.bundle == b
    case Unload(b) => !InReload(s, b)
    case Add(r) => !InReload(s, r.bundle)
    case Snapshot(_) => s.window.Closed?
    case OpenWindow => s.window.Snapshotted?
    case Arrive(r) => s.window.Open? && r.bundle == s.window.bundle
    case Swap => s.window.Open?
    case Abort => s.window.Open?
  }

  function Publish(s: System, d: Data): System { s.(data := d, view := d) }

  function Apply(s: System, step: Step): System
    requires Enabled(s, step)
  {
    match step
    case Load(b, regs) =>
      var done := RegisterPrepared(s.data, b, regs);
      if done.None? then s else Publish(s, done.value.0).(committed := s.committed[b := regs])
    case Unload(b) =>
      Publish(s, InvalidateBundle(s.data, b)).(committed := s.committed - {b})
    case Add(r) =>
      var done := Register(s.data, r);
      if done.None? then s
      else Publish(s, done.value.0).(committed := s.committed[r.bundle := Committed(s, r.bundle) + [r]])
    case Snapshot(b) =>
      s.(window := Snapshotted(b, Slots(s.data, b)))
    case OpenWindow =>
      Publish(s, BeginReload(s.data, s.window.bundle)).(window := Open(s.window.bundle, s.window.before, []))
    case Arrive(r) =>
      var done := Register(s.data, r);
      if done.None? then s
      else Publish(s, done.value.0).(window := s.window.(arrived := s.window.arrived + [r]))
    case Swap =>
      var (d, outcome) := ApplySwap(s.data, s.window.bundle, s.window.before);
      if outcome.Swapped?
      then Publish(s, d).(window := Closed, committed := s.committed[s.window.bundle := s.window.arrived])
      else s.(data := d, window := Closed)
    case Abort =>
      Publish(s, AbortReload(s.data, s.window.bundle, s.window.before)).(window := Closed)
  }

  const EMPTY := Data([], map[], map[], {})

  ghost predicate Init(s: System) { s == System(EMPTY, EMPTY, Closed, map[]) }

  ghost predicate Run(p: seq<System>, steps: seq<Step>) {
    && |p| == |steps| + 1 && Init(p[0])
    && forall i {:trigger steps[i]} :: 0 <= i < |steps| ==> Enabled(p[i], steps[i]) && p[i + 1] == Apply(p[i], steps[i])
  }

  // -------------------------------------------------------------- invariant

  function Committed(s: System, b: Bundle): seq<Registration> { if b in s.committed then s.committed[b] else [] }

  /** The slots of `b` that belong to its committed version. */
  function Stable(s: System, b: Bundle): seq<Index> {
    if s.window.Open? && s.window.bundle == b then s.window.before else Slots(s.data, b)
  }

  /** The hidden arrivals of the open window. */
  function Pending(s: System): seq<Index> {
    if s.window.Open? && |s.window.before| <= |Slots(s.data, s.window.bundle)|
    then Slots(s.data, s.window.bundle)[|s.window.before|..] else []
  }

  ghost predicate WindowOk(s: System) {
    match s.window
    case Closed => s.data.reloading == {} && Consistent(s.data, {})
    case Snapshotted(b, before) => s.data.reloading == {} && Consistent(s.data, {}) && before == Slots(s.data, b)
    case Open(b, before, arrived) =>
      && s.data.reloading == {b}
      && WindowOpen(s.data, b, before, Pending(s))
      && (Pending(s) != [] ==> b in s.data.bundles)
      && forall q :: CountIn(s.data, Pending(s), q) == CountSeq(arrived, q)
  }

  ghost predicate CountsMatch(s: System, b: Bundle) {
    forall q :: CountIn(s.data, Stable(s, b), q) == CountSeq(Committed(s, b), q)
  }

  ghost predicate Inv(s: System) {
    && s.view.slots == s.data.slots && s.view.index == s.data.index
    && WindowOk(s)
    && (forall b :: CountsMatch(s, b))
    && (forall b :: b in s.committed ==> b in s.data.bundles)
  }

  lemma InitInv(s: System)
    requires Init(s)
    ensures Inv(s)
  {
    assert Consistent(EMPTY, {});
  }

  /** The pending slots as a set, in every phase of a reload. */
  lemma ConsistentNow(s: System)
    requires Inv(s)
    ensures Consistent(s.data, Members(Pending(s)))
  {
    assert Members([]) == {};
  }

  /** Another bundle's slots and their content are the same in `d'`. */
  ghost predicate Untouched(d: Data, d': Data, x: Bundle) {
    Slots(d', x) == Slots(d, x) && forall i :: i in Slots(d, x) ==>
      i < |d.slots| && i < |d'.slots| && d'.slots[i] == d.slots[i]
  }

  lemma UntouchedCounts(d: Data, d': Data, x: Bundle, list: seq<Index>)
    requires Untouched(d, d', x) && forall i :: i in list ==> i in Slots(d, x)
    ensures forall q :: CountIn(d', list, q) == CountIn(d, list, q)
  {
    SameCounts(d, d', list);
  }

  /** A section that concerns only bundle `b`, while `b` is not being reloaded. */
  lemma OtherBundleStep(s: System, d': Data, b: Bundle, committed: map<Bundle, seq<Registration>>)
    requires Inv(s) && !InReload(s, b)
    requires Consistent(d', Members(Pending(s))) && d'.reloading == s.data.reloading
    requires forall x :: x != b ==> Untouched(s.data, d', x)
    requires forall x :: x != b ==> (x in d'.bundles <==> x in s.data.bundles) && (x in committed <==> x in s.committed)
    requires forall x :: x in committed && x != b ==> committed[x] == s.committed[x]
    requires b in committed ==> b in d'.bundles
    requires forall q :: CountIn(d', Slots(d', b), q) == CountSeq(if b in committed then committed[b] else [], q)
    ensures Inv(Publish(s, d').(committed := committed))
  {
    var s' := Publish(s, d').(committed := committed);
    OtherBundleWindow(s, d', b, s');
    forall x
      ensures CountsMatch(s', x)
    {
      if x != b {
        assert Untouched(s.data, d', x);
        OtherBundleCounts(s, s', x);
      }
    }
  }

  lemma OtherBundleWindow(s: System, d': Data, b: Bundle, s': System)
    requires Inv(s) && !InReload(s, b) && s'.window == s.window && s'.data == d'
    requires Consistent(d', Members(Pending(s))) && d'.reloading == s.data.reloading
    requires forall x :: x != b ==> Untouched(s.data, d', x)
    requires forall x :: x != b ==> (x in d'.bundles <==> x in s.data.bundles)
    ensures WindowOk(s')
  {
    if !s.window.Closed? { assert Untouched(s.data, d', s.window.bundle); }
    assert Pending(s') == Pending(s);
    if s.window.Open? {
      UntouchedCounts(s.data, d', s.window.bundle, Pending(s));
    } else {
      assert Members(Pending(s)) == {};
    }
  }

  lemma OtherBundleCounts(s: System, s': System, x: Bundle)
    requires Inv(s) && Untouched(s.data, s'.data, x) && s'.window == s.window && Committed(s', x) == Committed(s, x)
    ensures CountsMatch(s', x)
  {
    assert CountsMatch(s, x) && Stable(s', x) == Stable(s, x);
    StableLive(s, x);
    UntouchedCounts(s.data, s'.data, x, Stable(s, x));
  }

  lemma OthersUntouched(d: Data, d': Data, pending: set<Index>, x: Bundle)
    requires Consistent(d, pending) && Slots(d', x) == Slots(d, x)
    requires forall i: Index :: LiveAt(d, i) && RegAt(d, i).bundle == x ==> i < |d'.slots| && d'.slots[i] == d.slots[i]
    ensures Untouched(d, d', x)
  {
    forall i | i in Slots(d, x)
      ensures i < |d.slots| && i < |d'.slots| && d'.slots[i] == d.slots[i]
    {
      assert LiveAt(d, i) && RegAt(d, i).bundle == x;
    }
  }

  lemma LoadKeepsInv(s: System, b: Bundle, regs: seq<Registration>)
    requires Inv(s) && Enabled(s, Load(b, regs))
    ensures Inv(Apply(s, Load(b, regs)))
  {
    ConsistentNow(s);
    assert b !in s.data.reloading;
    PreparedTheorem(s.data, b, regs, Members(Pending(s)));
    var done := RegisterPrepared(s.data, b, regs);
    if done.Some? {
      LoadFrame(s, b, regs, done.value.0, done.value.1);
      OtherBundleStep(s, done.value.0, b, s.committed[b := regs]);
    }
  }

  /** A load fills its own bundle and leaves the others alone. */
  lemma LoadFrame(s: System, b: Bundle, regs: seq<Registration>, d': Data, hs: seq<Handle>)
    requires Inv(s) && b !in s.data.bundles && Stored(EnsureBundle(s.data, b), d', b, regs, hs)
    ensures forall q :: CountIn(d', Slots(d', b), q) == CountSeq(regs, q)
    ensures forall x :: x != b ==> Untouched(s.data, d', x)
  {
    ConsistentNow(s);
    forall q
      ensures CountIn(d', Slots(d', b), q) == CountSeq(regs, q)
    {
      PreparedContent(s.data, d', b, regs, hs, q);
    }
    PreparedContent(s.data, d', b, regs, hs, Providing(0));
    KeptUntouched(s, d', b);
  }

  /** A section that keeps live slots and the other bundles' lists leaves them alone. */
  lemma KeptUntouched(s: System, d': Data, b: Bundle)
    requires Inv(s) && LiveKept(s.data, d') && forall x :: x != b ==> Slots(d', x) == Slots(s.data, x)
    ensures forall x :: x != b ==> Untouched(s.data, d', x)
  {
    ConsistentNow(s);
    forall x | x != b
      ensures Untouched(s.data, d', x)
    {
      OthersUntouched(s.data, d', Members(Pending(s)), x);
    }
  }

  lemma AddKeepsInv(s: System, r: Registration)
    requires Inv(s) && Enabled(s, Add(r))
    ensures Inv(Apply(s, Add(r)))
  {
    ConsistentNow(s);
    assert r.bundle !in s.data.reloading;
    AddTheorem(s.data, r, Members(Pending(s)));
    var done := Register(s.data, r);
    if done.Some? {
      var (d', h) := done.value;
      AddCounts(s, r, d', h.index);
      KeptUntouched(s, d', r.bundle);
      OtherBundleStep(s, d', r.bundle, s.committed[r.bundle := Committed(s, r.bundle) + [r]]);
    }
  }

  lemma AddCounts(s: System, r: Registration, d': Data, n: Index)
    requires Inv(s) && !InReload(s, r.bundle) && Added(s.data, d', r, n)
    ensures forall q :: CountIn(d', Slots(d', r.bundle), q) == CountSeq(Committed(s, r.bundle) + [r], q)
  {
    var b := r.bundle;
    StableLive(s, b);
    KeptCounts(s.data, d', Slots(s.data, b));
    assert CountsMatch(s, b);
    forall q
      ensures CountIn(d', Slots(d', b), q) == CountSeq(Committed(s, b) + [r], q)
    {
      CountAppend(d', Slots(s.data, b), [n], q);
      CountSeqSnoc(Committed(s, b), r, q);
      assert CountIn(d', [n], q) == One(d', n, q);
    }
  }

  lemma UnloadKeepsInv(s: System, b: Bundle)
    requires Inv(s) && Enabled(s, Unload(b))
    ensures Inv(Apply(s, Unload(b)))
  {
    ConsistentNow(s);
    var d' := InvalidateBundle(s.data, b);
    if b in s.data.bundles {
      forall i | i in Members(Pending(s))
        ensures i !in Slots(s.data, b)
      {
        assert i in Slots(s.data, s.window.bundle) && RegAt(s.data, i).bundle == s.window.bundle;
      }
      InvalidateTheorem(s.data, b, Members(Pending(s)));
      forall x | x != b
        ensures Untouched(s.data, d', x)
      {
        forall i: Index | LiveAt(s.data, i) && RegAt(s.data, i).bundle == x
          ensures i < |d'.slots| && d'.slots[i] == s.data.slots[i]
        {
          assert i !in Slots(s.data, b);
        }
        OthersUntouched(s.data, d', Members(Pending(s)), x);
      }
    } else {
      forall x | x != b
        ensures Untouched(s.data, d', x)
      {
        OthersUntouched(s.data, d', Members(Pending(s)), x);
      }
    }
    OtherBundleStep(s, d', b, s.committed - {b});
  }

  lemma OpenKeepsInv(s: System)
    requires Inv(s) && Enabled(s, OpenWindow)
    ensures Inv(Apply(s, OpenWindow))
  {
    var s' := Apply(s, OpenWindow);
    var b, before := s.window.bundle, s.window.before;
    ReloadingIrrelevant(s.data, s'.data, {});
    assert Pending(s') == [] && before + [] == before && Members([]) == {};
    SameSlotsCounts(s, s');
  }

  lemma SameSlotsCounts(s: System, s': System)
    requires Inv(s) && s'.data.slots == s.data.slots && s'.committed == s.committed
    requires forall x :: Stable(s', x) == Stable(s, x)
    ensures forall x :: CountsMatch(s', x)
  {
    forall x
      ensures CountsMatch(s', x)
    {
      assert CountsMatch(s, x);
      forall q
        ensures CountIn(s'.data, Stable(s', x), q) == CountSeq(Committed(s', x), q)
      {
        CountsBySlots(s.data, s'.data, Stable(s, x), q);
      }
    }
  }

  lemma ArriveKeepsInv(s: System, r: Registration)
    requires Inv(s) && Enabled(s, Arrive(r))
    ensures Inv(Apply(s, Arrive(r)))
  {
    ArriveWindow(s, r);
    if !Collides(s.data, r) {
      var s' := Apply(s, Arrive(r));
      forall x
        ensures CountsMatch(s', x)
      {
        KeptStableCounts(s, s', x);
      }
    }
  }

  lemma ArriveWindow(s: System, r: Registration)
    requires Inv(s) && Enabled(s, Arrive(r))
    ensures Register(s.data, r).Some? <==> !Collides(s.data, r)
    ensures WindowOk(Apply(s, Arrive(r)))
    ensures Register(s.data, r).Some? ==>
      var d' := Register(s.data, r).value.0;
      LiveKept(s.data, d') && d'.bundles.Keys == s.data.bundles.Keys + {r.bundle}
      && forall x :: x != r.bundle ==> Slots(d', x) == Slots(s.data, x)
  {
    var b, before, pending := s.window.bundle, s.window.before, Pending(s);
    ArriveTheorem(s.data, r, before, pending);
    if Collides(s.data, r) { return; }
    var (d', h) := Register(s.data, r).value;
    var s' := Apply(s, Arrive(r));
    assert Pending(s') == pending + [h.index];
    forall q
      ensures CountIn(d', Pending(s'), q) == CountSeq(s'.window.arrived, q)
    {
      ArrivedCounts(s, d', r, h.index, q);
    }
  }

  lemma ArrivedCounts(s: System, d': Data, r: Registration, n: Index, q: Query)
    requires Inv(s) && s.window.Open? && LiveKept(s.data, d') && LiveAt(d', n) && RegAt(d', n) == r
    ensures CountIn(d', Pending(s) + [n], q) == CountSeq(s.window.arrived + [r], q)
  {
    ConsistentNow(s);
    forall i | i in Pending(s)
      ensures LiveAt(s.data, i)
    {
      assert i in Slots(s.data, s.window.bundle);
    }
    KeptCounts(s.data, d', Pending(s));
    CountAppend(d', Pending(s), [n], q);
    CountSeqSnoc(s.window.arrived, r, q);
    assert CountIn(d', [n], q) == One(d', n, q);
  }

  lemma KeptStableCounts(s: System, s': System, x: Bundle)
    requires Inv(s) && LiveKept(s.data, s'.data) && Committed(s', x) == Committed(s, x) && Stable(s', x) == Stable(s, x)
    ensures CountsMatch(s', x)
  {
    assert CountsMatch(s, x);
    StableLive(s, x);
    KeptCounts(s.data, s'.data, Stable(s, x));
  }

  lemma KeptCounts(d: Data, d': Data, list: seq<Index>)
    requires LiveKept(d, d') && forall i :: i in list ==> LiveAt(d, i)
    ensures forall q :: CountIn(d', list, q) == CountIn(d, list, q)
  {
    SameCounts(d, d', list);
  }

  lemma StableLive(s: System, x: Bundle)
    requires Inv(s)
    ensures forall i :: i in Stable(s, x) ==> i in Slots(s.data, x) && LiveAt(s.data, i)
  {
    ConsistentNow(s);
    assert forall i :: i in Stable(s, x) ==> i in Slots(s.data, x);
  }

  lemma SwapKeepsInv(s: System)
    requires Inv(s) && Enabled(s, Swap)
    ensures Inv(Apply(s, Swap))
    ensures !ApplySwap(s.data, s.window.bundle, s.window.before).1.InvalidHandle?
  {
    var b, before, pending := s.window.bundle, s.window.before, Pending(s);
    var s' := Apply(s, Swap);
    ConsistentNow(s);
    if b !in s.data.bundles {
      assert before == [] && pending == [] && Members(pending) == {};
      assert ApplySwap(s.data, b, []) == (s.data.(reloading := s.data.reloading - {b}), MissingBundle);
      ReloadingIrrelevant(s.data, s'.data, {});
      SameSlotsCounts(s, s');
    } else {
      SwapTheorem(s.data, b, before, pending);
      assert before + pending == Slots(s.data, b);
      forall x
        ensures CountsMatch(s', x)
      {
        if x != b {
          FrameUntouched(s, s'.data, b, x);
          OtherBundleSwapped(s, s', x);
        }
      }
    }
  }

  /** A section that touches only slots of `b` leaves other bundles alone. */
  lemma FrameUntouched(s: System, d': Data, b: Bundle, x: Bundle)
    requires Inv(s) && Frame(s.data, d', b, Slots(s.data, b)) && x != b
    ensures Untouched(s.data, d', x)
  {
    ConsistentNow(s);
    forall i: Index | LiveAt(s.data, i) && RegAt(s.data, i).bundle == x
      ensures i < |d'.slots| && d'.slots[i] == s.data.slots[i]
    {
      assert i !in Slots(s.data, b);
    }
    OthersUntouched(s.data, d', Members(Pending(s)), x);
  }

  lemma OtherBundleSwapped(s: System, s': System, x: Bundle)
    requires Inv(s) && s.window.Open? && s'.window.Closed? && x != s.window.bundle
    requires Untouched(s.data, s'.data, x) && Committed(s', x) == Committed(s, x)
    ensures CountsMatch(s', x)
  {
    assert CountsMatch(s, x) && Stable(s', x) == Stable(s, x);
    UntouchedCounts(s.data, s'.data, x, Stable(s, x));
  }

  lemma AbortKeepsInv(s: System)
    requires Inv(s) && Enabled(s, Abort)
    ensures Inv(Apply(s, Abort))
    ensures forall c :: Indexed(Apply(s, Abort).view, c) == Indexed(s.view, c)
  {
    var b, before, pending := s.window.bundle, s.window.before, Pending(s);
    var s' := Apply(s, Abort);
    AbortTheorem(s.data, b, before, pending);
    assert before + [] == before && Members([]) == {};
    assert forall c :: Indexed(s.view, c) == Indexed(s.data, c);
    forall x
      ensures CountsMatch(s', x)
    {
      if x != b {
        FrameWeaken(s.data, s'.data, b, before, pending);
        FrameUntouched(s, s'.data, b, x);
        OtherBundleSwapped(s, s', x);
      } else {
        AbortedCounts(s, s'.data);
      }
    }
  }

  lemma FrameWeaken(d: Data, d': Data, b: Bundle, before: seq<Index>, pending: seq<Index>)
    requires Frame(d, d', b, pending) && Slots(d, b) == before + pending
    ensures Frame(d, d', b, Slots(d, b))
  {
  }

  lemma AbortedCounts(s: System, d': Data)
    requires Inv(s) && s.window.Open? && Frame(s.data, d', s.window.bundle, Pending(s))
    ensures forall q :: CountIn(d', s.window.before, q) == CountSeq(Committed(s, s.window.bundle), q)
  {
    var b, before, pending := s.window.bundle, s.window.before, Pending(s);
    assert CountsMatch(s, b);
    forall i | i in before
      ensures i < |s.data.slots| && i < |d'.slots| && d'.slots[i] == s.data.slots[i]
    {
      StableLive(s, b);
      NotPending(s, b, i);
    }
    SameCounts(s.data, d', before);
  }

  lemma NotPending(s: System, b: Bundle, i: Index)
    requires Inv(s) && i in Stable(s, b)
    ensures i !in Members(Pending(s))
  {
    StableLive(s, b);
    ConsistentNow(s);
    if s.window.Open? {
      assert NoDup(Slots(s.data, s.window.bundle));
      DisjointParts(s.window.before, Pending(s));
      assert forall k :: k in Pending(s) ==> k in Slots(s.data, s.window.bundle);
    }
  }

  lemma StepKeepsInv(s: System, step: Step)
    requires Inv(s) && Enabled(s, step)
    ensures Inv(Apply(s, step))
  {
    match step
    case Load(b, regs) => LoadKeepsInv(s, b, regs);
    case Unload(b) => UnloadKeepsInv(s, b);
    case Add(r) => AddKeepsInv(s, r);
    case Snapshot(b) => SameSlotsCounts(s, Apply(s, step));
    case OpenWindow => OpenKeepsInv(s);
    case Arrive(r) => ArriveKeepsInv(s, r);
    case Swap => SwapKeepsInv(s);
    case Abort => AbortKeepsInv(s);
  }

  lemma {:induction false} RunKeepsInv(p: seq<System>, steps: seq<Step>, i: nat)
    requires Run(p, steps) && i < |p|
    ensures Inv(p[i])
  {
    if i == 0 {
      InitInv(p[0]);
    } else {
      RunKeepsInv(p, steps, i - 1);
      StepKeepsInv(p[i - 1], steps[i - 1]);
    }
  }
}
