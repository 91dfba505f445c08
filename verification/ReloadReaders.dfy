/**
  What readers of the published view see over serialized runs of loads, unloads and
  reloads: exactly the committed versions, with no gap while a reload is under way.
 */
module ReloadReaders {
  import opened Basics
  import opened RegistryStore
  import opened RegistryInvariant
  import opened ReloadSwap
  import opened StoreEffects
  import opened ReloadRuns

  /** How many providers of `c`, from major version `floor` on, a reader finds that belong to `b`. */
  function Visible(s: System, b: Bundle, c: Contract, floor: nat): nat {
    CountIn(s.view, Indexed(s.view, c), From(b, c, floor))
  }

  ghost function MatchingSet(d: Data, s: seq<Index>, q: Query): set<Index> {
    if s == [] then {} else (if One(d, s[0], q) == 1 then {s[0]} else {}) + MatchingSet(d, s[1..], q)
  }

  lemma {:induction false} MatchingMembers(d: Data, s: seq<Index>, q: Query)
    ensures forall i :: i in MatchingSet(d, s, q) <==> i in s && LiveAt(d, i) && Matches(RegAt(d, i), q)
  {
    if s != [] {
      MatchingMembers(d, s[1..], q);
      assert s == [s[0]] + s[1..];
    }
  }

  lemma {:induction false} CountIsCardinality(d: Data, s: seq<Index>, q: Query)
    requires NoDup(s)
    ensures CountIn(d, s, q) == |MatchingSet(d, s, q)|
  {
    if s != [] {
      var rest := MatchingSet(d, s[1..], q);
      CountIsCardinality(d, s[1..], q);
      MatchingMembers(d, s[1..], q);
      assert s[0] !in s[1..] && s[0] !in rest;
      assert |{s[0]} + rest| == 1 + |rest| && {} + rest == rest;
    }
  }

  lemma StableDistinct(s: System, b: Bundle)
    requires Inv(s)
    ensures NoDup(Stable(s, b))
  {
    ConsistentNow(s);
    assert NoDup(Slots(s.data, b));
    if s.window.Open? && s.window.bundle == b {
      var stable, pending := Stable(s, b), Pending(s);
      assert Slots(s.data, b) == stable + pending;
      assert forall k :: 0 <= k < |stable| ==> (stable + pending)[k] == stable[k];
    }
  }

  /** Every visible slot of `b` belongs to its committed version. */
  lemma VisibleIsStable(s: System, b: Bundle, i: Index)
    requires Inv(s) && LiveAt(s.data, i) && RegAt(s.data, i).bundle == b
    requires i in Indexed(s.data, RegAt(s.data, i).contract)
    ensures i in Stable(s, b)
  {
    ConsistentNow(s);
    assert SlotLinked(s.data, Members(Pending(s)), i);
    if s.window.Open? && s.window.bundle == b {
      assert Slots(s.data, b) == s.window.before + Pending(s);
    }
  }

  /** Every slot of the committed version is visible. */
  lemma StableIsVisible(s: System, b: Bundle, i: Index)
    requires Inv(s) && i in Stable(s, b)
    ensures LiveAt(s.data, i) && i in Indexed(s.data, RegAt(s.data, i).contract)
  {
    ConsistentNow(s);
    StableLive(s, b);
    NotPending(s, b, i);
    assert SlotLinked(s.data, Members(Pending(s)), i);
  }

  lemma SameMatchingSet(s: System, b: Bundle, c: Contract, floor: nat)
    requires Inv(s)
    ensures MatchingSet(s.data, Indexed(s.data, c), From(b, c, floor)) ==
      MatchingSet(s.data, Stable(s, b), From(b, c, floor))
  {
    var q := From(b, c, floor);
    MatchingMembers(s.data, Stable(s, b), q);
    MatchingMembers(s.data, Indexed(s.data, c), q);
    forall i | i in MatchingSet(s.data, Indexed(s.data, c), q)
      ensures i in Stable(s, b)
    {
      VisibleIsStable(s, b, i);
    }
    forall i | i in MatchingSet(s.data, Stable(s, b), q)
      ensures i in Indexed(s.data, c)
    {
      StableIsVisible(s, b, i);
    }
  }

  lemma {:induction false} CountFromBundle(d: Data, s: seq<Index>, b: Bundle, c: Contract, floor: nat)
    requires forall i :: i in s ==> LiveAt(d, i) && RegAt(d, i).bundle == b
    ensures CountIn(d, s, From(b, c, floor)) == CountIn(d, s, AtLeast(c, floor))
  {
    if s != [] {
      CountFromBundle(d, s[1..], b, c, floor) by { assert forall i :: i in s[1..] ==> i in s; }
      assert s[0] in s;
    }
  }

  /**
    In every state of every serialized run, whatever a reader finds of a bundle's
    contract is exactly what the bundle's last committed version registered.
   */
  lemma ReadersSeeCommitted(p: seq<System>, steps: seq<Step>, i: nat, b: Bundle, c: Contract, floor: nat)
    requires Run(p, steps) && i < |p|
    ensures Visible(p[i], b, c, floor) == CountSeq(Committed(p[i], b), AtLeast(c, floor))
  {
    RunKeepsInv(p, steps, i);
    var s := p[i];
    ConsistentNow(s);
    SameMatchingSet(s, b, c, floor);
    StableDistinct(s, b);
    assert NoDup(Indexed(s.data, c));
    CountIsCardinality(s.data, Indexed(s.data, c), From(b, c, floor));
    CountIsCardinality(s.data, Stable(s, b), From(b, c, floor));
    CountsBySlots(s.view, s.data, Indexed(s.data, c), From(b, c, floor));
    StableLive(s, b);
    CountFromBundle(s.data, Stable(s, b), b, c, floor);
    assert CountsMatch(s, b);
  }

  lemma {:induction false} FirstLiveFinds(d: Data, s: seq<Index>, b: Bundle, c: Contract, floor: nat)
    requires CountIn(d, s, From(b, c, floor)) > 0
    ensures FirstLive(d, s, floor).Some?
  {
    if One(d, s[0], From(b, c, floor)) == 0 { FirstLiveFinds(d, s[1..], b, c, floor); }
  }

  /** Every version of `b` committed from `lo` to `hi` provides `c` from major version `floor` on. */
  ghost predicate AlwaysProvided(p: seq<System>, lo: nat, hi: nat, b: Bundle, c: Contract, floor: nat)
    requires lo <= hi < |p|
  {
    forall k :: lo <= k <= hi ==> CountSeq(Committed(p[k], b), AtLeast(c, floor)) > 0
  }

  /** The handle resolves to an interface that some committed version registered for `c`, at or above the floor. */
  ghost predicate ResolvesCommitted(s: System, h: Handle, c: Contract, floor: nat) {
    exists x, r :: r in Committed(s, x) && r.bundle == x && r.contract == c && r.major >= floor &&
      Resolve(s.view, h) == Interface(r.interface)
  }

  /** Whatever a find returns, in any state of any run, resolves to what a committed version registered. */
  lemma FoundIsCommitted(p: seq<System>, steps: seq<Step>, i: nat, c: Contract, floor: nat)
    requires Run(p, steps) && i < |p| && Find(p[i].view, c, floor).Some?
    ensures ResolvesCommitted(p[i], Find(p[i].view, c, floor).value, c, floor)
  {
    RunKeepsInv(p, steps, i);
    var s, h := p[i], Find(p[i].view, c, floor).value;
    ConsistentNow(s);
    FirstLiveMeans(s.view, Indexed(s.view, c), floor);
    var k :| FirstFit(s.view, Indexed(s.view, c), floor, k, h);
    assert h.index in Indexed(s.data, c);
    var r := RegAt(s.data, h.index);
    VisibleIsStable(s, r.bundle, h.index);
    SlotIsCounted(s.data, Stable(s, r.bundle), h.index);
    assert CountsMatch(s, r.bundle);
    CountedIsMember(Committed(s, r.bundle), r);
  }

  /**
    Over any stretch of a serialized run, reloads of any bundles included: a contract
    that every version of `b` provides stays findable, each handle found resolving to what a
    committed version registered for it, and no reader ever sees two of its slots exactly when
    no version registered it twice.
   */
  lemma ProvidedStaysFindable(p: seq<System>, steps: seq<Step>, lo: nat, hi: nat, b: Bundle, c: Contract, floor: nat)
    requires Run(p, steps) && lo <= hi < |p|
    ensures AlwaysProvided(p, lo, hi, b, c, floor) ==> forall k :: lo <= k <= hi ==>
      Find(p[k].view, c, floor).Some? && ResolvesCommitted(p[k], Find(p[k].view, c, floor).value, c, floor)
    ensures (forall k :: lo <= k <= hi ==> Visible(p[k], b, c, floor) <= 1) <==>
      (forall k :: lo <= k <= hi ==> CountSeq(Committed(p[k], b), AtLeast(c, floor)) <= 1)
  {
    forall k | lo <= k <= hi
      ensures Visible(p[k], b, c, floor) == CountSeq(Committed(p[k], b), AtLeast(c, floor))
      ensures Visible(p[k], b, c, floor) > 0 ==>
        Find(p[k].view, c, floor).Some? && ResolvesCommitted(p[k], Find(p[k].view, c, floor).value, c, floor)
    {
      ReadersSeeCommitted(p, steps, k, b, c, floor);
      if Visible(p[k], b, c, floor) > 0 {
        FirstLiveFinds(p[k].view, Indexed(p[k].view, c), b, c, floor);
        FoundIsCommitted(p, steps, k, c, floor);
      }
    }
  }

  lemma {:induction false} CountedIsMember(s: seq<Registration>, r: Registration)
    requires CountSeq(s, Exactly(r)) > 0
    ensures r in s
  {
    if s[0] != r { CountedIsMember(s[1..], r); }
  }

  lemma {:induction false} SlotIsCounted(d: Data, s: seq<Index>, i: Index)
    requires i in s && LiveAt(d, i)
    ensures CountIn(d, s, Exactly(RegAt(d, i))) > 0
  {
    if s[0] != i { SlotIsCounted(d, s[1..], i); }
  }

  /**
    What a swap does to handles obtained before it: the handle of an old slot resolves to
    an interface the new version registered for the same contract, as long as the new
    version registered that contract often enough; otherwise it is stale.
   */
  lemma HandlesAcrossSwap(p: seq<System>, steps: seq<Step>, i: nat, j: nat)
    requires Run(p, steps) && i < |steps| && steps[i] == Swap && j < |p[i].window.before|
    ensures var s, s' := p[i], p[i + 1];
      var o := s.window.before[j];
      LiveAt(s.data, o) &&
      var c, h := RegAt(s.data, o).contract, Handle(o, s.data.slots[o].generation);
      if CountIn(s.data, s.window.before[..j], Providing(c)) < CountSeq(s.window.arrived, Providing(c))
      then exists r :: r in s.window.arrived && r.contract == c && Resolve(s'.view, h) == Interface(r.interface)
      else Resolve(s'.view, h) == StaleHandle
  {
    RunKeepsInv(p, steps, i);
    var s := p[i];
    var b, before, pending := s.window.bundle, s.window.before, Pending(s);
    assert Slots(s.data, b) == before + pending;
    var o := before[j];
    assert o in before + pending && o in Slots(s.data, b) && b in s.data.bundles;
    SwapTheorem(s.data, b, before, pending);
    var d' := ApplySwap(s.data, b, before).0;
    assert OldSlotFate(s.data, d', before, pending, j);
    if Survived(s.data, d', o) {
      var r := RegAt(d', o);
      FrameOwner(s, d', o);
      SlotIsCounted(d', Slots(d', b), o);
      CountedIsMember(s.window.arrived, r);
      assert Resolve(d', Handle(o, s.data.slots[o].generation)) == Interface(r.interface);
    }
  }

  /** A slot that the swap keeps still belongs to the reloaded bundle. */
  lemma FrameOwner(s: System, d': Data, o: Index)
    requires Inv(s) && s.window.Open? && d' == ApplySwap(s.data, s.window.bundle, s.window.before).0
    requires s.window.bundle in s.data.bundles && o in s.window.before && LiveAt(d', o)
    ensures o in Slots(d', s.window.bundle)
  {
    var b, before, pending := s.window.bundle, s.window.before, Pending(s);
    SwapTheorem(s.data, b, before, pending);
    assert SlotLinked(d', {}, o);
    var x := RegAt(d', o).bundle;
    assert o in before + pending && o in Slots(s.data, b) && RegAt(s.data, o).bundle == b;
    assert o in Slots(d', x);
    assert x != b ==> o in Slots(s.data, x);
  }

  const BLANK := System(EMPTY, EMPTY, Closed, map[])

  /** The run that opens a window for `b` on an empty registry and registers `regs` in it. */
  ghost predicate Reaches(s: System, b: Bundle, regs: seq<Registration>, p: seq<System>, steps: seq<Step>) {
    && Run(p, steps) && p[|steps|] == s
    && s.window.Open? && s.window.bundle == b && s.window.arrived == regs
    && (regs != [] ==> b in s.data.bundles) && s.data.index == map[]
  }

  lemma OpenRun(b: Bundle) returns (s: System, p: seq<System>, steps: seq<Step>)
    ensures Reaches(s, b, [], p, steps)
  {
    var s1 := Apply(BLANK, Snapshot(b));
    s := Apply(s1, OpenWindow);
    p, steps := [BLANK, s1, s], [Snapshot(b), OpenWindow];
  }

  lemma ArriveRun(s: System, b: Bundle, regs: seq<Registration>, p: seq<System>, steps: seq<Step>, r: Registration)
      returns (s': System)
    requires Reaches(s, b, regs, p, steps) && r.bundle == b
    ensures Reaches(s', b, regs + [r], p + [s'], steps + [Arrive(r)])
  {
    RunKeepsInv(p, steps, |steps|);
    ArriveWindow(s, r);
    s' := Apply(s, Arrive(r));
    RunSnoc(p, steps, Arrive(r));
  }

  lemma RunSnoc(p: seq<System>, steps: seq<Step>, step: Step)
    requires Run(p, steps) && Enabled(p[|steps|], step)
    ensures Run(p + [Apply(p[|steps|], step)], steps + [step])
  {
  }

  /** A reload may register any list of contracts, duplicates included. */
  lemma {:induction false} WindowRun(b: Bundle, regs: seq<Registration>)
      returns (s: System, p: seq<System>, steps: seq<Step>)
    requires forall r :: r in regs ==> r.bundle == b
    ensures Reaches(s, b, regs, p, steps)
  {
    if regs == [] {
      s, p, steps := OpenRun(b);
    } else {
      var early, last := regs[..|regs| - 1], regs[|regs| - 1];
      var s0, p0, steps0 := WindowRun(b, early);
      s := ArriveRun(s0, b, early, p0, steps0, last);
      assert early + [last] == regs;
      p, steps := p0 + [s], steps0 + [Arrive(last)];
    }
  }

  lemma SwapCommits(s: System)
    requires Inv(s) && s.window.Open? && s.window.bundle in s.data.bundles
    ensures Committed(Apply(s, Swap), s.window.bundle) == s.window.arrived
  {
    SwapTheorem(s.data, s.window.bundle, s.window.before, Pending(s));
  }

  /** A new version that registers one contract several times is seen that many times by readers. */
  lemma RepeatedRegistrationShows(b: Bundle, regs: seq<Registration>, c: Contract, floor: nat)
      returns (p: seq<System>, steps: seq<Step>)
    requires regs != [] && forall r :: r in regs ==> r.bundle == b
    ensures Run(p, steps) && Visible(p[|steps|], b, c, floor) == CountSeq(regs, AtLeast(c, floor))
  {
    var s, p0, steps0 := WindowRun(b, regs);
    RunSnoc(p0, steps0, Swap);
    RunKeepsInv(p0, steps0, |steps0|);
    SwapCommits(s);
    p, steps := p0 + [Apply(s, Swap)], steps0 + [Swap];
    ReadersSeeCommitted(p, steps, |steps|, b, c, floor);
  }
}
