/**
  One name per contract. A registration is checked against the published ones only, and the
  staged ones of a bundle against each other; what arrives inside a reload window is not yet
  published. So the published names agree exactly as long as each swap brings names that agree.
 */
module ContractNames {
  import opened Basics
  import opened RegistryStore
  import opened RegistryInvariant
  import opened ReloadSwap
  import opened StoreEffects
  import opened ReloadRuns
  import opened ReloadReaders

  // ------------------------------------------------------- what is refused

  /** A collision: some published slot has the contract under another name. */
  lemma CollidesMeans(d: Data, r: Registration, pending: set<Index>)
    requires Consistent(d, pending)
    ensures Collides(d, r) <==>
      exists i :: LiveAt(d, i) && i !in pending && RegAt(d, i).contract == r.contract && RegAt(d, i).name != r.name
  {
    if i :| LiveAt(d, i) && i !in pending && RegAt(d, i).contract == r.contract && RegAt(d, i).name != r.name {
      assert SlotLinked(d, pending, i);
      assert i in Indexed(d, r.contract);
    }
    if Collides(d, r) {
      var i :| i in Indexed(d, r.contract) && LiveAt(d, i) && RegAt(d, i).name != r.name;
      assert SlotLinked(d, pending, i);
    }
  }

  /** A duplicate: one of the bundle's own published slots has the contract. */
  lemma DuplicateMeans(d: Data, r: Registration, pending: set<Index>)
    requires Consistent(d, pending)
    ensures Duplicate(d, r) <==>
      exists i :: i in Slots(d, r.bundle) && i !in pending && RegAt(d, i).contract == r.contract
  {
    if i :| i in Slots(d, r.bundle) && i !in pending && RegAt(d, i).contract == r.contract {
      assert SlotLinked(d, pending, i);
      assert i in Indexed(d, r.contract);
    }
    if Duplicate(d, r) {
      var i :| i in Indexed(d, r.contract) && LiveAt(d, i) && RegAt(d, i).bundle == r.bundle;
      assert SlotLinked(d, pending, i);
    }
  }

  /** A staged set clashes unless any two registrations of one contract have one name and two descriptors. */
  lemma StagedClashMeans(regs: seq<Registration>)
    ensures !StagedClash(regs) <==> forall i, j :: 0 <= i < j < |regs| && regs[i].contract == regs[j].contract ==>
      regs[i].name == regs[j].name && regs[i].descriptor != regs[j].descriptor
  {
    if StagedClash(regs) { var i, j :| 0 <= i < j < |regs| && Clash(regs[i], regs[j]); }
    forall i, j | 0 <= i < j < |regs| && regs[i].contract == regs[j].contract && !StagedClash(regs)
      ensures regs[i].name == regs[j].name && regs[i].descriptor != regs[j].descriptor
    {
      assert !Clash(regs[i], regs[j]);
    }
  }

  // ------------------------------------------------------- published names

  /** Any two published slots of one contract have one name. */
  ghost predicate NamesAgree(s: System) {
    forall i: Index, j: Index :: SameContract(s, i, j) ==> RegAt(s.data, i).name == RegAt(s.data, j).name
  }

  ghost predicate SameContract(s: System, i: Index, j: Index) {
    Public(s, i) && Public(s, j) && RegAt(s.data, i).contract == RegAt(s.data, j).contract
  }

  ghost predicate Public(s: System, i: Index) { LiveAt(s.data, i) && i in Indexed(s.data, RegAt(s.data, i).contract) }

  /** No published slot is new or changed. */
  lemma FewerAgree(s: System, s': System)
    requires NamesAgree(s)
    requires forall i: Index :: Public(s', i) ==> Public(s, i) && s'.data.slots[i] == s.data.slots[i]
    ensures NamesAgree(s')
  {
  }

  /** One registration more, which collides with none. */
  lemma OneMoreAgrees(s: System, s': System, r: Registration, n: Index)
    requires NamesAgree(s) && !Collides(s.data, r) &&
      (forall i :: i in Indexed(s.data, r.contract) ==> LiveAt(s.data, i))
    requires forall i: Index :: Public(s', i) ==>
      if i == n then RegAt(s'.data, i) == r else Public(s, i) && s'.data.slots[i] == s.data.slots[i]
    ensures NamesAgree(s')
  {
  }

  lemma AddAgrees(s: System, r: Registration)
    requires Inv(s) && Enabled(s, Add(r)) && NamesAgree(s)
    ensures NamesAgree(Apply(s, Add(r)))
  {
    ConsistentNow(s);
    AddTheorem(s.data, r, Members(Pending(s)));
    var done := Register(s.data, r);
    if done.Some? {
      var s', n := Apply(s, Add(r)), done.value.1.index;
      StepKeepsInv(s, Add(r));
      ConsistentNow(s');
      forall i: Index | Public(s', i)
        ensures if i == n then RegAt(s'.data, i) == r else Public(s, i) && s'.data.slots[i] == s.data.slots[i]
      {
        if i != n { AddedPublic(s, s', r, n, i); }
      }
      OneMoreAgrees(s, s', r, n);
    }
  }

  lemma AddedPublic(s: System, s': System, r: Registration, n: Index, i: Index)
    requires Inv(s) && Inv(s') && s'.window == s.window && Added(s.data, s'.data, r, n) && Public(s', i) && i != n
    requires !InReload(s, r.bundle)
    ensures Public(s, i) && s'.data.slots[i] == s.data.slots[i]
  {
    ConsistentNow(s);
    ConsistentNow(s');
    var x := RegAt(s'.data, i).bundle;
    assert SlotLinked(s'.data, Members(Pending(s')), i) && i in Slots(s'.data, x) && i in Slots(s.data, x);
    assert LiveAt(s.data, i) && Pending(s') == Pending(s);
    assert SlotLinked(s.data, Members(Pending(s)), i);
  }

  lemma LoadedPublic(s: System, s': System, b: Bundle, regs: seq<Registration>, hs: seq<Handle>, i: Index)
    requires Inv(s) && Inv(s') && s'.window == s.window && !InReload(s, b) && b !in s.data.bundles
    requires Stored(EnsureBundle(s.data, b), s'.data, b, regs, hs) && Public(s', i)
    ensures RegAt(s'.data, i) in regs || (Public(s, i) && s'.data.slots[i] == s.data.slots[i])
  {
    ConsistentNow(s);
    ConsistentNow(s');
    var e, x := EnsureBundle(s.data, b), RegAt(s'.data, i).bundle;
    assert SlotLinked(s'.data, Members(Pending(s')), i) && i in Slots(s'.data, x);
    if x == b {
      assert Slots(e, b) == [] && i in Indexes(hs);
      var k :| 0 <= k < |hs| && Indexes(hs)[k] == i;
      assert HandleHolds(s'.data, hs[k], regs[k]);
    } else {
      assert i in Slots(e, x) && i in Slots(s.data, x) && LiveAt(s.data, i) && LiveAt(e, i);
      assert Pending(s') == Pending(s);
      assert SlotLinked(s.data, Members(Pending(s)), i);
    }
  }

  lemma LoadAgrees(s: System, b: Bundle, regs: seq<Registration>)
    requires Inv(s) && Enabled(s, Load(b, regs)) && NamesAgree(s)
    ensures NamesAgree(Apply(s, Load(b, regs)))
  {
    ConsistentNow(s);
    PreparedTheorem(s.data, b, regs, Members(Pending(s)));
    var done := RegisterPrepared(s.data, b, regs);
    if done.Some? {
      var s' := Apply(s, Load(b, regs));
      StepKeepsInv(s, Load(b, regs));
      StagedClashMeans(regs);
      forall i: Index | Public(s', i)
        ensures RegAt(s'.data, i) in regs || (Public(s, i) && s'.data.slots[i] == s.data.slots[i])
      {
        LoadedPublic(s, s', b, regs, done.value.1, i);
      }
      ListAgrees(s, s', regs);
    }
  }

  /** Registrations more, which agree with each other and with what is published. */
  lemma ListAgrees(s: System, s': System, regs: seq<Registration>)
    requires NamesAgree(s) && forall r :: r in regs ==> !Collides(s.data, r)
    requires forall i: Index :: Public(s', i) ==>
      RegAt(s'.data, i) in regs || (Public(s, i) && s'.data.slots[i] == s.data.slots[i])
    requires forall i, j :: 0 <= i < j < |regs| && regs[i].contract == regs[j].contract ==> regs[i].name == regs[j].name
    ensures NamesAgree(s')
  {
    forall r, q | r in regs && q in regs && r.contract == q.contract
      ensures r.name == q.name
    {
      var i :| 0 <= i < |regs| && regs[i] == r;
      var j :| 0 <= j < |regs| && regs[j] == q;
    }
    forall r, i: Index | r in regs && Public(s, i) && RegAt(s.data, i).contract == r.contract
      ensures RegAt(s.data, i).name == r.name
    {
      assert i in Indexed(s.data, r.contract);
    }
  }

  lemma UnloadAgrees(s: System, b: Bundle)
    requires Inv(s) && Enabled(s, Unload(b)) && NamesAgree(s)
    ensures NamesAgree(Apply(s, Unload(b)))
  {
    var s' := Apply(s, Unload(b));
    StepKeepsInv(s, Unload(b));
    ConsistentNow(s);
    ConsistentNow(s');
    if b in s.data.bundles {
      forall k | k in Members(Pending(s))
        ensures k !in Slots(s.data, b)
      {
        assert k in Slots(s.data, s.window.bundle) && RegAt(s.data, k).bundle == s.window.bundle;
      }
      InvalidateTheorem(s.data, b, Members(Pending(s)));
      forall i: Index | Public(s', i)
        ensures Public(s, i) && s'.data.slots[i] == s.data.slots[i]
      {
        assert i !in Slots(s.data, b);
        assert Pending(s') == Pending(s);
        assert SlotLinked(s'.data, Members(Pending(s')), i) && SlotLinked(s.data, Members(Pending(s)), i);
      }
      FewerAgree(s, s');
    }
  }

  /** Another bundle than the reloading one has published the contract in slot `i`. */
  ghost predicate OthersShow(s: System, i: Index, c: Contract)
    requires s.window.Open?
  {
    Public(s, i) && RegAt(s.data, i).bundle != s.window.bundle && RegAt(s.data, i).contract == c
  }

  /** What arrived in the window agrees with itself and with what other bundles have published. */
  ghost predicate ArrivalsAgree(s: System)
    requires s.window.Open?
  {
    && (forall r, q :: r in s.window.arrived && q in s.window.arrived && r.contract == q.contract ==> r.name == q.name)
    && (forall r, i: Index :: r in s.window.arrived && OthersShow(s, i, r.contract) ==> RegAt(s.data, i).name == r.name)
  }

  lemma {:induction false} CountFinds(d: Data, s: seq<Index>, r: Registration) returns (i: Index)
    requires CountIn(d, s, Exactly(r)) > 0
    ensures i in s && LiveAt(d, i) && RegAt(d, i) == r
  {
    if One(d, s[0], Exactly(r)) == 1 { i := s[0]; } else { i := CountFinds(d, s[1..], r); }
  }

  lemma {:induction false} MemberIsCounted(s: seq<Registration>, r: Registration)
    requires r in s
    ensures CountSeq(s, Exactly(r)) > 0
  {
    if s[0] != r { MemberIsCounted(s[1..], r); }
  }

  /** After a swap: the bundle shows what arrived, the others what they did. */
  lemma SwappedPublic(s: System, s': System, i: Index)
    requires Inv(s) && Enabled(s, Swap) && s' == Apply(s, Swap) && s.window.bundle in s.data.bundles && Public(s', i)
    ensures if RegAt(s'.data, i).bundle == s.window.bundle then RegAt(s'.data, i) in s.window.arrived
            else Public(s, i) && s'.data.slots[i] == s.data.slots[i]
  {
    var b, before, pending := s.window.bundle, s.window.before, Pending(s);
    ConsistentNow(s);
    SwapTheorem(s.data, b, before, pending);
    var x := RegAt(s'.data, i).bundle;
    assert SlotLinked(s'.data, {}, i) && i in Slots(s'.data, x);
    if x == b {
      SlotIsCounted(s'.data, Slots(s'.data, b), i);
      CountedIsMember(s.window.arrived, RegAt(s'.data, i));
    } else {
      assert i in Slots(s.data, x) && RegAt(s.data, i).bundle == x;
      assert i !in before + pending by { assert before + pending == Slots(s.data, b); }
      assert SlotLinked(s.data, Members(pending), i);
      assert i !in Members(pending);
    }
  }

  lemma ArrivalShows(s: System, s': System, r: Registration) returns (i: Index)
    requires Inv(s) && Enabled(s, Swap) && s' == Apply(s, Swap) && s.window.bundle in s.data.bundles
    requires r in s.window.arrived
    ensures Public(s', i) && RegAt(s'.data, i) == r && r.bundle == s.window.bundle
  {
    var b := s.window.bundle;
    SwapTheorem(s.data, b, s.window.before, Pending(s));
    MemberIsCounted(s.window.arrived, r);
    i := CountFinds(s'.data, Slots(s'.data, b), r);
    assert SlotLinked(s'.data, {}, i);
  }

  lemma OtherShows(s: System, s': System, i: Index)
    requires Inv(s) && Enabled(s, Swap) && s' == Apply(s, Swap) && s.window.bundle in s.data.bundles && Public(s, i)
    requires RegAt(s.data, i).bundle != s.window.bundle
    ensures Public(s', i) && s'.data.slots[i] == s.data.slots[i]
  {
    var b, before, pending := s.window.bundle, s.window.before, Pending(s);
    ConsistentNow(s);
    SwapTheorem(s.data, b, before, pending);
    assert before + pending == Slots(s.data, b) && i !in Slots(s.data, b);
    assert SlotLinked(s'.data, {}, i);
  }

  lemma NothingArrived(s: System)
    requires Inv(s) && s.window.Open? && s.window.bundle !in s.data.bundles
    ensures s.window.arrived == [] && s.window.before == []
  {
    assert Slots(s.data, s.window.bundle) == [] && Pending(s) == [];
    if s.window.arrived != [] { MemberIsCounted(s.window.arrived, s.window.arrived[0]); }
  }

  /** From names that agree, a swap leaves names that agree if and only if its arrivals do. */
  lemma SwapAgrees(s: System)
    requires Inv(s) && Enabled(s, Swap) && NamesAgree(s)
    ensures NamesAgree(Apply(s, Swap)) <==> ArrivalsAgree(s)
  {
    var s' := Apply(s, Swap);
    if s.window.bundle !in s.data.bundles {
      NothingArrived(s);
      assert ApplySwap(s.data, s.window.bundle, []).0.slots == s.data.slots;
      FewerAgree(s, s');
    } else {
      if ArrivalsAgree(s) { ArrivalsSuffice(s, s'); }
      if NamesAgree(s') { ArrivalsNeeded(s, s'); }
    }
  }

  lemma ArrivalsSuffice(s: System, s': System)
    requires Inv(s) && Enabled(s, Swap) && s' == Apply(s, Swap) && s.window.bundle in s.data.bundles
    requires NamesAgree(s) && ArrivalsAgree(s)
    ensures NamesAgree(s')
  {
    forall i: Index, j: Index | SameContract(s', i, j)
      ensures RegAt(s'.data, i).name == RegAt(s'.data, j).name
    {
      SwappedPublic(s, s', i);
      SwappedPublic(s, s', j);
    }
  }

  lemma ArrivalsNeeded(s: System, s': System)
    requires Inv(s) && Enabled(s, Swap) && s' == Apply(s, Swap) && s.window.bundle in s.data.bundles && NamesAgree(s')
    ensures ArrivalsAgree(s)
  {
    forall r, q | r in s.window.arrived && q in s.window.arrived && r.contract == q.contract
      ensures r.name == q.name
    {
      var i := ArrivalShows(s, s', r);
      var j := ArrivalShows(s, s', q);
    }
    forall r, i: Index | r in s.window.arrived && OthersShow(s, i, r.contract)
      ensures RegAt(s.data, i).name == r.name
    {
      var j := ArrivalShows(s, s', r);
      OtherShows(s, s', i);
    }
  }

  lemma QuietAgrees(s: System, step: Step)
    requires Inv(s) && Enabled(s, step) && NamesAgree(s) &&
      (step.Snapshot? || step.OpenWindow? || step.Arrive? || step.Abort?)
    ensures NamesAgree(Apply(s, step))
  {
    var s' := Apply(s, step);
    ConsistentNow(s);
    if step.Arrive? { ArriveTheorem(s.data, step.r, s.window.before, Pending(s)); }
    if step.Abort? { AbortTheorem(s.data, s.window.bundle, s.window.before, Pending(s)); }
    forall i: Index | Public(s', i)
      ensures Public(s, i) && s'.data.slots[i] == s.data.slots[i]
    {
      var c := RegAt(s'.data, i).contract;
      assert i in Indexed(s.data, c);
      assert SlotLinked(s.data, Members(Pending(s)), i);
    }
    FewerAgree(s, s');
  }

  /** Every step keeps the published names in agreement, but for a swap whose arrivals do not agree. */
  lemma StepAgrees(s: System, step: Step)
    requires Inv(s) && Enabled(s, step) && NamesAgree(s)
    ensures NamesAgree(Apply(s, step)) <==> (step.Swap? ==> ArrivalsAgree(s))
  {
    match step
    case Load(b, regs) => LoadAgrees(s, b, regs);
    case Add(r) => AddAgrees(s, r);
    case Unload(b) => UnloadAgrees(s, b);
    case Swap => SwapAgrees(s);
    case _ => QuietAgrees(s, step);
  }

  /** In every run the published names agree up to the first swap whose arrivals do not, which breaks them. */
  lemma {:induction false} NamesAgreeUntil(p: seq<System>, steps: seq<Step>, n: nat)
    requires Run(p, steps) && n < |p|
    requires forall k :: 0 <= k < n && steps[k].Swap? ==> p[k].window.Open? && ArrivalsAgree(p[k])
    ensures NamesAgree(p[n])
    ensures n < |steps| ==> (NamesAgree(p[n + 1]) <==> (steps[n].Swap? ==> ArrivalsAgree(p[n])))
  {
    if n > 0 {
      NamesAgreeUntil(p, steps, n - 1);
      assert Enabled(p[n - 1], steps[n - 1]) && p[n] == Apply(p[n - 1], steps[n - 1]);
    }
    if n < |steps| {
      RunKeepsInv(p, steps, n);
      StepAgrees(p[n], steps[n]);
    }
  }

  /** Concretely: a reload may register one contract under two names, and readers then find both. */
  lemma TwoNamesInOneWindow(b: Bundle, r: Registration, q: Registration) returns (p: seq<System>, steps: seq<Step>)
    requires r.bundle == q.bundle == b && r.contract == q.contract && r.name != q.name
    ensures Run(p, steps) && !NamesAgree(p[|steps|])
  {
    var s;
    s, p, steps := WindowRun(b, [r, q]);
    RunKeepsInv(p, steps, |steps|);
    BothShow(s, r, q);
    RunSnoc(p, steps, Swap);
    p, steps := p + [Apply(s, Swap)], steps + [Swap];
  }

  lemma BothShow(s: System, r: Registration, q: Registration)
    requires Inv(s) && Enabled(s, Swap) && s.window.bundle in s.data.bundles && s.window.arrived == [r, q]
    requires r.contract == q.contract && r.name != q.name
    ensures !NamesAgree(Apply(s, Swap))
  {
    assert [r, q][0] == r && [r, q][1] == q;
    var i := ArrivalShows(s, Apply(s, Swap), r);
    var j := ArrivalShows(s, Apply(s, Swap), q);
    assert SameContract(Apply(s, Swap), i, j);
  }
}
