/**
  Whole runs of prepared transactions by any threads, overlapping and ending in any order:
  what is published, and exactly when the init stacks and the lifecycle markers stay right.
 */
module TransactionRuns {
  import opened Basics
  import opened ThreadLists
  import opened RegistryStore
  import opened RegistryInvariant
  import opened StoreEffects
  import opened Transactions
  import opened ResidentRuns

  // ------------------------------------------------------- what is published

  /** The providers that a publishing call would make visible. */
  function StagedFor(w: World, c: Call): seq<Provider> {
    if c.CallLoad? then c.providers
    else if !c.Closing() then []
    else match OpenAt(w, c.t, c.b) case None => [] case Some(k) => Prepared(w, c.t)[k].providers
  }

  /** The bundle on top of the thread's stack has no transaction there, and the store takes `x` for it. */
  predicate StagesDirectly(w: World, t: Thread, x: Provider) {
    var s := Stack(w, t);
    s != [] && OpenAt(w, t, s[|s| - 1]).None? && !Refused(w.store, x.For(s[|s| - 1]))
  }

  /** What a call from `w` to `w'` does to what is published. */
  ghost predicate PublishesRight(w: World, w': World, c: Call, reply: Reply) {
    && (reply.Handles? ==>
          (c.CallCommit? || c.CallCommitInto? || c.CallLoad?) &&
            PublishedAs(w, w', c.b, StagedFor(w, c), reply.handles))
    && (c.CallCommitInto? && reply.Handles? ==> |reply.handles| == c.capacity)
    && (c.CallUnload? && reply.Done? ==> w'.store == InvalidateBundle(w.store, c.b))
    && (c.CallStage? ==> (w'.store != w.store <==> StagesDirectly(w, c.t, c.x)))
    && (reply.Refusal? || !(reply.Handles? || c.CallUnload? || c.CallStage?) ==> w'.store == w.store)
  }

  lemma StagePublishesRight(w: World, t: Thread, x: Provider)
    requires StoreOk(w)
    ensures var (w', reply) := Stage(w, t, x); PublishesRight(w, w', CallStage(t, x), reply)
  {
    var s := Stack(w, t);
    if s != [] && OpenAt(w, t, s[|s| - 1]).None? {
      var r := x.For(s[|s| - 1]);
      AddTheorem(w.store, r, {});
      if Register(w.store, r).Some? {
        var (d', h) := Register(w.store, r).value;
        assert |Slots(d', r.bundle)| == |Slots(w.store, r.bundle)| + 1;
      }
    }
  }

  lemma CommitPublishesRight(w: World, t: Thread, b: Bundle, accepted: bool)
    requires Core(w) && !w.destroyed
    ensures var (w', reply) := Commit(w, t, b, accepted);
      && PublishesRight(w, w', CallCommit(t, b, accepted), reply)
      && (reply.Handles? ==> OpenAt(w, t, b).Some?)
      && (reply.Handles? ==>
           |reply.handles| == |Prepared(w, t)[OpenAt(w, t, b).value].providers|)
  {
    match OpenAt(w, t, b)
    case None =>
    case Some(k) => PublishCore(w, t, k, accepted);
  }

  lemma AbortPublishesNothing(w: World, t: Thread, b: Bundle)
    ensures Abort(w, t, b).store == w.store
  {
  }

  lemma CommitIntoPublishesRight(w: World, t: Thread, b: Bundle, capacity: nat, accepted: bool)
    requires Core(w) && !w.destroyed
    ensures var (w', reply) := CommitInto(w, t, b, capacity, accepted);
      PublishesRight(w, w', CallCommitInto(t, b, capacity, accepted), reply)
  {
    CommitPublishesRight(w, t, b, accepted);
    AbortPublishesNothing(w, t, b);
  }

  lemma CallPublishesRight(w: World, c: Call)
    requires Core(w) && !w.destroyed
    ensures PublishesRight(w, Apply(w, c).0, c, Apply(w, c).1)
  {
    match c
    case CallStage(t, x) => StagePublishesRight(w, t, x);
    case CallCommit(t, b, accepted) => CommitPublishesRight(w, t, b, accepted);
    case CallCommitInto(t, b, capacity, accepted) => CommitIntoPublishesRight(w, t, b, capacity, accepted);
    case CallLoad(t, b, providers, accepted) => LoadCore(w, b, providers, accepted);
    case CallAbort(t, b) => AbortPublishesNothing(w, t, b);
    case CallUnload(_, _, _) =>
    case CallBegin(_, _, _) =>
    case CallAttach(_, _, _, _) =>
    case CallDestroy(_) =>
  }

  /**
    All or nothing, in every run: a call that hands out handles publishes exactly the staged
    providers, one handle each, in order; an accepted unload removes exactly its bundle; a
    stage call changes what is published exactly when the bundle on top of its thread's init
    stack has no transaction there; and nothing else does.
   */
  lemma AllOrNothing(p: seq<World>, calls: seq<Call>, i: nat)
    requires Run(p, calls) && i < |calls|
    ensures PublishesRight(p[i], p[i + 1], calls[i], Apply(p[i], calls[i]).1)
  {
    RunKeepsCore(p, calls, i);
    CallPublishesRight(p[i], calls[i]);
  }

  // ------------------------------------------------------- init stacks

  function Ids(s: seq<Txn>): (r: seq<Bundle>)
    ensures |r| == |s| && forall i :: 0 <= i < |s| ==> r[i] == s[i].bundle
  {
    seq(|s|, i requires 0 <= i < |s| => s[i].bundle)
  }

  /** Every thread's init stack lists its open transactions. */
  ghost predicate StacksExact(w: World) { forall t :: StackExact(w, t) }

  ghost predicate StackExact(w: World, t: Thread) { Stack(w, t) == Ids(Prepared(w, t)) }

  predicate Innermost(w: World, t: Thread, b: Bundle) {
    var s := Prepared(w, t);
    s != [] && s[|s| - 1].bundle == b
  }

  /** A closing call meets the innermost transaction of its thread, or has nothing to pop. */
  predicate PopsRight(w: World, c: Call) {
    c.Closing() ==>
      || Innermost(w, c.t, c.b)
      || (OpenAt(w, c.t, c.b).None? && (c.CallCommit? ==> Stack(w, c.t) == []))
  }

  /** Dropping the last id and removing entry `k` agree only when `k` is last. */
  lemma DropLastOrTaken(s: seq<Txn>, k: nat)
    requires k < |s| && forall i :: k < i < |s| ==> s[i].bundle != s[k].bundle
    ensures Ids(s)[..|s| - 1] == Ids(Without(s, k)) <==> k == |s| - 1
  {
    var a, b := Ids(s)[..|s| - 1], Ids(Without(s, k));
    if k == |s| - 1 {
      assert Without(s, k) == s[..k];
      assert a == b;
    } else {
      WithoutAt(s, k, k);
      assert a[k] == s[k].bundle && b[k] == s[k + 1].bundle;
    }
  }

  /** The stacks after the close of transaction `k` of thread `t`. */
  lemma ClosedStacks(w: World, w': World, t: Thread, k: nat)
    requires StacksExact(w) && Ended(w, w', t, k) && w'.stacks == Popped(w.stacks, t)
    requires forall i :: k < i < |Prepared(w, t)| ==> Prepared(w, t)[i].bundle != Prepared(w, t)[k].bundle
    ensures StacksExact(w') <==> k == |Prepared(w, t)| - 1
  {
    var s := Prepared(w, t);
    PoppedOf(w.stacks, t);
    assert StackExact(w, t);
    DropLastOrTaken(s, k);
    assert StackExact(w', t) <==> k == |s| - 1;
    forall u | u != t
      ensures StackExact(w', u)
    {
      assert StackExact(w, u);
    }
  }

  lemma AbortStacks(w: World, t: Thread, b: Bundle)
    requires StacksExact(w) && OpenAt(w, t, b).Some?
    ensures StacksExact(Abort(w, t, b)) <==> Innermost(w, t, b)
  {
    var k := OpenAt(w, t, b).value;
    TakeEnds(w, t, k);
    ClosedStacks(w, Abort(w, t, b), t, k);
  }

  lemma CommitStacks(w: World, t: Thread, b: Bundle, accepted: bool)
    requires StacksExact(w)
    ensures StacksExact(Commit(w, t, b, accepted).0) <==> PopsRight(w, CallCommit(t, b, accepted))
  {
    var w' := Commit(w, t, b, accepted).0;
    match OpenAt(w, t, b)
    case Some(k) =>
      TakeEnds(w, t, k);
      ClosedStacks(w, w', t, k);
    case None =>
      PoppedOf(w.stacks, t);
      assert StackExact(w, t);
      assert StackExact(w', t) <==> Stack(w, t) == [];
      forall u | u != t
        ensures StackExact(w', u)
      {
        assert StackExact(w, u);
      }
  }

  lemma BeginStacks(w: World, t: Thread, b: Bundle, valid: bool)
    requires StacksExact(w)
    ensures StacksExact(Begin(w, t, b, valid).0)
  {
    var (w', reply) := Begin(w, t, b, valid);
    if reply.Done? {
      var txn := Txn(b, [], None);
      PushedOf(w.prepared, t, txn);
      PushedOf(w.stacks, t, b);
      assert Ids(Prepared(w, t) + [txn]) == Ids(Prepared(w, t)) + [b];
      forall u
        ensures StackExact(w', u)
      {
        assert StackExact(w, u);
      }
    }
  }

  /** Calls that change neither the ids of open transactions nor the stacks. */
  lemma SameStacks(w: World, w': World)
    requires w'.stacks == w.stacks && forall u :: Ids(Prepared(w', u)) == Ids(Prepared(w, u))
    ensures StacksExact(w') <==> StacksExact(w)
  {
    assert forall u :: StackExact(w', u) <==> StackExact(w, u);
  }

  lemma StageIds(w: World, t: Thread, x: Provider)
    ensures var w' := Stage(w, t, x).0; w'.stacks == w.stacks && forall u :: Ids(Prepared(w', u)) == Ids(Prepared(w, u))
  {
    var s := Stack(w, t);
    if s != [] && OpenAt(w, t, s[|s| - 1]).Some? {
      var k := OpenAt(w, t, s[|s| - 1]).value;
      var txn := Prepared(w, t)[k];
      var now := Prepared(w, t)[k := txn.(providers := txn.providers + [x])];
      PutOf(w.prepared, t, now);
      assert Ids(now) == Ids(Prepared(w, t));
    }
  }

  lemma AttachIds(w: World, t: Thread, b: Bundle, owner: Thread, wellFormed: bool)
    ensures var w' := Attach(w, t, b, owner, wellFormed).0;
      w'.stacks == w.stacks && forall u :: Ids(Prepared(w', u)) == Ids(Prepared(w, u))
  {
    if Attach(w, t, b, owner, wellFormed).1.Done? {
      var k := OpenAt(w, t, b).value;
      var now := Prepared(w, t)[k := Prepared(w, t)[k].(resident := Some(Resident(w.attached, owner)))];
      PutOf(w.prepared, t, now);
      assert Ids(now) == Ids(Prepared(w, t));
    }
  }

  /** From exact stacks, a call keeps them exact if and only if it pops right. */
  lemma StacksStep(w: World, c: Call)
    requires StacksExact(w) && !w.destroyed && !Apply(w, c).0.destroyed
    ensures StacksExact(Apply(w, c).0) <==> PopsRight(w, c)
  {
    match c
    case CallBegin(t, b, valid) => BeginStacks(w, t, b, valid);
    case CallStage(t, x) =>
      StageIds(w, t, x);
      SameStacks(w, Apply(w, c).0);
    case CallAttach(t, b, owner, wellFormed) =>
      AttachIds(w, t, b, owner, wellFormed);
      SameStacks(w, Apply(w, c).0);
    case CallCommit(t, b, accepted) => CommitStacks(w, t, b, accepted);
    case CallCommitInto(t, b, capacity, accepted) =>
      if OpenAt(w, t, b).Some? {
        CommitStacks(w, t, b, accepted);
        AbortStacks(w, t, b);
      }
    case CallAbort(t, b) => if OpenAt(w, t, b).Some? { AbortStacks(w, t, b); }
    case CallLoad(_, _, _, _) => SameStacks(w, Apply(w, c).0);
    case CallUnload(_, _, _) => SameStacks(w, Apply(w, c).0);
    case CallDestroy(_) =>
  }

  lemma FreshStacks()
    ensures StacksExact(FRESH)
  {
    forall t
      ensures StackExact(FRESH, t)
    {
      assert Stack(FRESH, t) == [] && Prepared(FRESH, t) == [];
    }
  }

  /** Up to the first call that pops wrong, stacks are exact; that call breaks them. */
  lemma {:induction false} StacksExactUntil(p: seq<World>, calls: seq<Call>, i: nat)
    requires Run(p, calls) && i < |p| && !p[i].destroyed
    requires forall j :: 0 <= j < i ==> PopsRight(p[j], calls[j])
    ensures StacksExact(p[i])
    ensures i < |calls| && !p[i + 1].destroyed ==> (StacksExact(p[i + 1]) <==> PopsRight(p[i], calls[i]))
  {
    if i == 0 {
      FreshStacks();
    } else {
      assert !p[i - 1].destroyed && p[i] == Apply(p[i - 1], calls[i - 1]).0;
      StacksExactUntil(p, calls, i - 1);
    }
    if i < |calls| && !p[i + 1].destroyed { StacksStep(p[i], calls[i]); }
  }

  /** With exact stacks every stage call goes to a transaction, so nothing is published early. */
  lemma NestedStagesStay(w: World, t: Thread, x: Provider)
    requires StacksExact(w)
    ensures !StagesDirectly(w, t, x)
  {
    assert StackExact(w, t);
    var s := Prepared(w, t);
    assert Stack(w, t) != [] ==> s[|s| - 1].bundle == Stack(w, t)[|s| - 1];
  }

  /**
    Concretely: the outer of two transactions on one thread is committed first. It pops the
    inner one's stack entry, and the next provider, meant for the inner, is published at once
    under the outer bundle.
   */
  lemma UnnestedCommitPublishesEarly(t: Thread, b1: Bundle, b2: Bundle, x: Provider)
    requires b1 != b2
    ensures var w1 := Begin(FRESH, t, b1, true).0;
      var w2 := Begin(w1, t, b2, true).0;
      var (w3, reply) := Commit(w2, t, b1, true);
      && reply.Handles? && !StacksExact(w3) && StagesEarly(w3, t, b1, b2, x)
  {
    var w2 := TwoOpen(t, b1, b2);
    var w3 := OuterCommitted(w2, t, b1, b2);
    EarlyStage(w3, t, b1, b2, x);
  }

  /** Committing the outer of the two takes the inner one's stack entry. */
  lemma OuterCommitted(w: World, t: Thread, b1: Bundle, b2: Bundle) returns (w': World)
    requires Core(w) && StacksExact(w) && !w.destroyed && w.store == FRESH.store && b1 != b2
    requires Prepared(w, t) == [Txn(b1, [], None), Txn(b2, [], None)] && OpenAt(w, t, b1) == Some(0)
    ensures w' == Commit(w, t, b1, true).0 && Commit(w, t, b1, true).1.Handles? && Core(w') && !StacksExact(w')
    ensures Prepared(w', t) == [Txn(b2, [], None)] && Stack(w', t) == [b1]
    ensures w'.store == EnsureBundle(FRESH.store, b1)
  {
    EmptyCommitSucceeds(w, t, b1, 0);
    CommitStacks(w, t, b1, true);
    CommitCore(w, t, b1, true);
    CommitShape(w, t, b1, true);
    w' := Commit(w, t, b1, true).0;
    PoppedOf(w.stacks, t);
    assert StackExact(w, t) && Ids(Prepared(w, t)) == [b1, b2] && [b1, b2][..1] == [b1];
    assert Without(Prepared(w, t), 0) == [Txn(b2, [], None)];
  }

  /** Staging `x` publishes it under `b1` while the transaction of `b2` stays open and empty. */
  ghost predicate StagesEarly(w: World, t: Thread, b1: Bundle, b2: Bundle, x: Provider) {
    var (w', reply) := Stage(w, t, x);
    reply.Done? && w'.store != w.store && |Slots(w'.store, b1)| == 1 && Prepared(w', t) == [Txn(b2, [], None)]
  }

  lemma EarlyStage(w: World, t: Thread, b1: Bundle, b2: Bundle, x: Provider)
    requires Core(w) && b1 != b2 && Prepared(w, t) == [Txn(b2, [], None)] && Stack(w, t) == [b1]
    requires w.store == EnsureBundle(Data([], map[], map[], {}), b1)
    ensures StagesEarly(w, t, b1, b2, x)
  {
    assert OpenAt(w, t, b1) == None && OpenAt(w, t, b2) == Some(0);
    AddTheorem(w.store, x.For(b1), {});
    StagePublishesRight(w, t, x);
    assert Prepared(Stage(w, t, x).0, t) == Prepared(w, t);
  }

  /** Two transactions open on one thread of a fresh runtime. */
  lemma TwoOpen(t: Thread, b1: Bundle, b2: Bundle) returns (w2: World)
    requires b1 != b2
    ensures w2 == Begin(Begin(FRESH, t, b1, true).0, t, b2, true).0 && Core(w2) && StacksExact(w2)
    ensures w2.store == FRESH.store
    ensures Prepared(w2, t) == [Txn(b1, [], None), Txn(b2, [], None)] && Stack(w2, t) == [b1, b2]
    ensures OpenAt(w2, t, b1) == Some(0) && !w2.destroyed
  {
    FreshCore();
    FreshStacks();
    var w1 := Begin(FRESH, t, b1, true).0;
    w2 := Begin(w1, t, b2, true).0;
    BeginCore(FRESH, t, b1, true);
    BeginCore(w1, t, b2, true);
    BeginStacks(FRESH, t, b1, true);
    BeginStacks(w1, t, b2, true);
    var s := [Txn(b1, [], None), Txn(b2, [], None)];
    assert Prepared(w2, t) == s;
    assert s[..1] == [Txn(b1, [], None)];
    assert LastIndex(s[..1], b1) == Some(0);
    assert LastIndex(s, b1) == LastIndex(s[..|s| - 1], b1);
  }

  /** A transaction without providers is published whenever its bundle is not. */
  lemma EmptyCommitSucceeds(w: World, t: Thread, b: Bundle, k: nat)
    requires Core(w) && OpenAt(w, t, b) == Some(k) && Prepared(w, t)[k] == Txn(b, [], None) && b !in w.store.bundles
    ensures Commit(w, t, b, true).1 == Handles([])
    ensures Commit(w, t, b, true).0.store == EnsureBundle(w.store, b)
    ensures Commit(w, t, b, true).0.internal == w.internal + {b} && Commit(w, t, b, true).0.marks == w.marks
  {
    assert Bind(b, []) == [];
    PreparedTheorem(w.store, b, [], {});
    assert !StagedClash([]);
  }

  // ------------------------------------------------------- brackets

  /** `ids` and `stack` grew by the same entries. */
  predicate Grew(ids0: seq<Bundle>, stack0: seq<Bundle>, ids: seq<Bundle>, stack: seq<Bundle>) {
    && |ids0| <= |ids| && ids[..|ids0|] == ids0
    && stack == stack0 + ids[|ids0|..]
  }

  lemma GrewPush(ids0: seq<Bundle>, stack0: seq<Bundle>, ids: seq<Bundle>, stack: seq<Bundle>, b: Bundle)
    requires Grew(ids0, stack0, ids, stack)
    ensures Grew(ids0, stack0, ids + [b], stack + [b])
  {
    assert (ids + [b])[|ids0|..] == ids[|ids0|..] + [b];
    assert stack0 + ids[|ids0|..] + [b] == stack0 + (ids[|ids0|..] + [b]);
    assert (ids + [b])[..|ids0|] == ids[..|ids0|];
  }

  lemma GrewPop(ids0: seq<Bundle>, stack0: seq<Bundle>, ids: seq<Bundle>, stack: seq<Bundle>)
    requires Grew(ids0, stack0, ids, stack) && |ids| > |ids0|
    ensures stack != [] && Grew(ids0, stack0, ids[..|ids| - 1], stack[..|stack| - 1])
  {
    var last := |ids| - 1;
    assert ids[..last][..|ids0|] == ids[..|ids0|];
    assert stack[..|stack| - 1] == stack0 + ids[..last][|ids0|..];
  }

  /** Since `w0` the thread's list and stack grew together. */
  ghost predicate Bracket(w0: World, w: World, t: Thread) {
    Grew(Ids(Prepared(w0, t)), Stack(w0, t), Ids(Prepared(w, t)), Stack(w, t))
  }

  /** Whatever other calls do, a thread's ids and stack change by its own begin and closing calls only. */
  lemma OthersKeepBracket(w: World, c: Call, t: Thread)
    requires !w.destroyed && !Apply(w, c).0.destroyed && (c.t != t || !(c.CallBegin? || c.Closing()))
    ensures Stack(Apply(w, c).0, t) == Stack(w, t) && Ids(Prepared(Apply(w, c).0, t)) == Ids(Prepared(w, t))
  {
    match c
    case CallBegin(u, b, valid) =>
      PushedOf(w.prepared, u, Txn(b, [], None));
      PushedOf(w.stacks, u, b);
    case CallStage(u, x) => StageIds(w, u, x);
    case CallAttach(u, b, owner, wellFormed) => AttachIds(w, u, b, owner, wellFormed);
    case CallCommit(u, b, _) =>
      CloseShape(w, c);
      ClosedElsewhere(w, Apply(w, c).0, u, b, true, t);
    case CallCommitInto(u, b, _, _) =>
      CloseShape(w, c);
      ClosedElsewhere(w, Apply(w, c).0, u, b, false, t);
    case CallAbort(u, b) =>
      CloseShape(w, c);
      ClosedElsewhere(w, Apply(w, c).0, u, b, false, t);
    case CallLoad(_, _, _, _) =>
    case CallUnload(_, _, _) =>
    case CallDestroy(_) =>
  }

  /** What a closing call does to lists and stacks. */
  ghost predicate Closed(w: World, w': World, t: Thread, b: Bundle, pops: bool) {
    match OpenAt(w, t, b)
    case Some(k) => Ended(w, w', t, k) && w'.stacks == Popped(w.stacks, t)
    case None => w'.prepared == w.prepared && w'.stacks == if pops then Popped(w.stacks, t) else w.stacks
  }

  lemma CommitShape(w: World, t: Thread, b: Bundle, accepted: bool)
    ensures Closed(w, Commit(w, t, b, accepted).0, t, b, true)
  {
    match OpenAt(w, t, b)
    case None =>
    case Some(k) => TakeEnds(w, t, k);
  }

  lemma AbortShape(w: World, t: Thread, b: Bundle)
    ensures Closed(w, Abort(w, t, b), t, b, false)
  {
    match OpenAt(w, t, b)
    case None =>
    case Some(k) => TakeEnds(w, t, k);
  }

  lemma CloseShape(w: World, c: Call)
    requires c.Closing()
    ensures Closed(w, Apply(w, c).0, c.t, c.b, c.CallCommit?)
  {
    AbortShape(w, c.t, c.b);
    if !c.CallAbort? { CommitShape(w, c.t, c.b, c.accepted); }
  }

  lemma ClosedElsewhere(w: World, w': World, t: Thread, b: Bundle, pops: bool, u: Thread)
    requires Closed(w, w', t, b, pops) && u != t
    ensures Prepared(w', u) == Prepared(w, u) && Stack(w', u) == Stack(w, u)
  {
    PoppedOf(w.stacks, t);
  }

  /** The thread's list kept its first `n` ids and one more, or lost its last. */
  ghost predicate Moved(w: World, w': World, c: Call, t: Thread, n: nat) {
    && (|Prepared(w', t)| >= |Prepared(w, t)| ||
        (c.Closing() && c.t == t && Innermost(w, t, c.b) && |Prepared(w', t)| == |Prepared(w, t)| - 1))
    && (|Prepared(w', t)| > n && |Prepared(w, t)| > n ==> Prepared(w', t)[n].bundle == Prepared(w, t)[n].bundle)
  }

  lemma BracketStep(w0: World, w: World, w': World, c: Call, t: Thread, n: nat)
    requires Bracket(w0, w, t) && n == |Prepared(w0, t)| < |Prepared(w, t)| && (c.t == t ==> PopsRight(w, c))
    requires !w.destroyed && !w'.destroyed && w' == Apply(w, c).0
    ensures Bracket(w0, w', t) && Moved(w, w', c, t, n)
  {
    if c.t != t || !(c.CallBegin? || c.Closing()) {
      OthersKeepBracket(w, c, t);
      SameIdsMoved(w, w', c, t, n);
    } else if c.CallBegin? {
      BracketBegin(w0, w, t, c.b, c.valid, n);
    } else {
      CloseShape(w, c);
      BracketClose(w0, w, w', c, n);
    }
  }

  lemma SameIdsMoved(w: World, w': World, c: Call, t: Thread, n: nat)
    requires Ids(Prepared(w', t)) == Ids(Prepared(w, t))
    ensures Moved(w, w', c, t, n)
  {
    var a, b := Ids(Prepared(w', t)), Ids(Prepared(w, t));
    assert |a| == |b|;
    if n < |a| { assert a[n] == b[n]; }
  }

  lemma BracketBegin(w0: World, w: World, t: Thread, b: Bundle, valid: bool, n: nat)
    requires Bracket(w0, w, t) && n == |Prepared(w0, t)| <= |Prepared(w, t)|
    ensures Bracket(w0, Begin(w, t, b, valid).0, t) && Moved(w, Begin(w, t, b, valid).0, CallBegin(t, b, valid), t, n)
  {
    var s, txn := Prepared(w, t), Txn(b, [], None);
    PushedOf(w.prepared, t, txn);
    PushedOf(w.stacks, t, b);
    assert Ids(s + [txn]) == Ids(s) + [b];
    GrewPush(Ids(Prepared(w0, t)), Stack(w0, t), Ids(s), Stack(w, t), b);
  }

  lemma BracketClose(w0: World, w: World, w': World, c: Call, n: nat)
    requires c.Closing() && Bracket(w0, w, c.t) && n == |Prepared(w0, c.t)| < |Prepared(w, c.t)| && PopsRight(w, c)
    requires Closed(w, w', c.t, c.b, c.CallCommit?)
    ensures Bracket(w0, w', c.t) && Moved(w, w', c, c.t, n)
  {
    var ids, stack := Ids(Prepared(w, c.t)), Stack(w, c.t);
    GrewPop(Ids(Prepared(w0, c.t)), Stack(w0, c.t), ids, stack);
    var last := PopsLast(w, w', c);
    if last {
      IdsDrop(w, w', c, n);
    } else {
      SameIdsMoved(w, w', c, c.t, n);
    }
  }

  lemma IdsDrop(w: World, w': World, c: Call, n: nat)
    requires Prepared(w, c.t) != [] && c.Closing() && Innermost(w, c.t, c.b)
    requires Prepared(w', c.t) == Prepared(w, c.t)[..|Prepared(w, c.t)| - 1]
    ensures Ids(Prepared(w', c.t)) == Ids(Prepared(w, c.t))[..|Prepared(w, c.t)| - 1] && Moved(w, w', c, c.t, n)
  {
  }

  /** A closing call that pops right takes the last transaction and stack entry, or leaves both lists alone. */
  lemma PopsLast(w: World, w': World, c: Call) returns (last: bool)
    requires c.Closing() && Closed(w, w', c.t, c.b, c.CallCommit?) && PopsRight(w, c)
    requires Prepared(w, c.t) != [] && Stack(w, c.t) != []
    ensures last ==> Innermost(w, c.t, c.b) && Prepared(w', c.t) == Prepared(w, c.t)[..|Prepared(w, c.t)| - 1]
    ensures last ==> Stack(w', c.t) == Stack(w, c.t)[..|Stack(w, c.t)| - 1]
    ensures !last ==> Prepared(w', c.t) == Prepared(w, c.t) && Stack(w', c.t) == Stack(w, c.t)
  {
    last := Innermost(w, c.t, c.b);
    if last { LastTaken(w, w', c.t); }
  }

  /** Closing the innermost transaction takes the last id and the last stack entry. */
  lemma LastTaken(w: World, w': World, t: Thread)
    requires Prepared(w, t) != [] && Stack(w, t) != []
    requires Ended(w, w', t, |Prepared(w, t)| - 1) && w'.stacks == Popped(w.stacks, t)
    ensures Prepared(w', t) == Prepared(w, t)[..|Prepared(w, t)| - 1]
    ensures Stack(w', t) == Stack(w, t)[..|Stack(w, t)| - 1]
    ensures Ids(Prepared(w', t)) == Ids(Prepared(w, t))[..|Prepared(w, t)| - 1]
  {
    var s := Prepared(w, t);
    PoppedOf(w.stacks, t);
    assert Without(s, |s| - 1) == s[..|s| - 1];
  }

  /** From `lo` up to `hi` the thread has more than `n` transactions open and its own calls pop right. */
  ghost predicate Inside(p: seq<World>, calls: seq<Call>, t: Thread, n: nat, lo: nat, hi: nat)
    requires hi <= |calls| < |p|
  {
    forall m {:trigger calls[m]} :: lo <= m < hi ==>
      |Prepared(p[m], t)| > n && (calls[m].t == t ==> PopsRight(p[m], calls[m]))
  }

  lemma InsideAt(p: seq<World>, calls: seq<Call>, t: Thread, n: nat, lo: nat, hi: nat, m: nat)
    requires lo <= m < hi <= |calls| < |p| && Inside(p, calls, t, n, lo, hi)
    ensures |Prepared(p[m], t)| > n && (calls[m].t == t ==> PopsRight(p[m], calls[m]))
  {
    var c := calls[m];
  }

  /** Entry `n` of the thread's list is the transaction of `b`. */
  predicate Holds(w: World, t: Thread, n: nat, b: Bundle) { |Prepared(w, t)| > n ==> Prepared(w, t)[n].bundle == b }

  /** The transaction of `b` opened at `w0` heads what the thread opened since. */
  ghost predicate Opened(w0: World, w: World, t: Thread, b: Bundle) {
    Bracket(w0, w, t) && Holds(w, t, |Prepared(w0, t)|, b)
  }

  /** One call inside the bracket. */
  lemma OpenedStep(p: seq<World>, calls: seq<Call>, w0: World, t: Thread, b: Bundle, m: nat)
    requires Path(p, calls) && m < |calls| && !p[m + 1].destroyed && Opened(w0, p[m], t, b)
    requires |Prepared(p[m], t)| > |Prepared(w0, t)| && (calls[m].t == t ==> PopsRight(p[m], calls[m]))
    ensures Opened(w0, p[m + 1], t, b) && Moved(p[m], p[m + 1], calls[m], t, |Prepared(w0, t)|)
  {
    BracketStep(w0, p[m], p[m + 1], calls[m], t, |Prepared(w0, t)|);
  }

  /** From a begin on, while its transaction is open and its thread's calls pop right, list and stack grow together. */
  lemma {:induction false} OpenedStays(p: seq<World>, w0: World, t: Thread, b: Bundle, lo: nat, hi: nat)
    requires lo <= hi < |p| && Opened(w0, p[lo], t, b)
    requires forall m :: lo <= m < hi && Opened(w0, p[m], t, b) ==> Opened(w0, p[m + 1], t, b)
    ensures Opened(w0, p[hi], t, b)
  {
    if lo < hi { OpenedStays(p, w0, t, b, lo, hi - 1); }
  }

  lemma BeginBracket(w: World, t: Thread, b: Bundle)
    requires Begin(w, t, b, true).1.Done?
    ensures Opened(w, Begin(w, t, b, true).0, t, b)
  {
    var ids := Ids(Prepared(w, t));
    assert ids[..|ids|] == ids && Stack(w, t) + [] == Stack(w, t) && ids[|ids|..] == [];
    BracketBegin(w, w, t, b, true, |ids|);
    PushedOf(w.prepared, t, Txn(b, [], None));
  }

  /**
    However a transaction ends, by commit or abort, accepted or not, with whatever nested in
    it and whatever other threads do: when the thread's list of transactions is back to its
    length before the begin, it was a closing call of that bundle, and the thread's init
    stack and open ids are what they were. This needs only that the thread's own calls in
    between pop right.
   */
  lemma EndRestoresStack(p: seq<World>, calls: seq<Call>, i: nat, j: nat, t: Thread, b: Bundle)
    requires Run(p, calls) && i < j < |calls| && !p[j + 1].destroyed
    requires calls[i] == CallBegin(t, b, true) && Begin(p[i], t, b, true).1.Done?
    requires Inside(p, calls, t, |Prepared(p[i], t)|, i + 1, j + 1) && |Prepared(p[j + 1], t)| == |Prepared(p[i], t)|
    ensures calls[j].Closing() && calls[j].t == t && calls[j].b == b
    ensures Stack(p[j + 1], t) == Stack(p[i], t) && Ids(Prepared(p[j + 1], t)) == Ids(Prepared(p[i], t))
  {
    BeginBracket(p[i], t, b);
    assert p[i + 1] == Apply(p[i], calls[i]).0;
    forall m | i + 1 <= m < j && Opened(p[i], p[m], t, b)
      ensures Opened(p[i], p[m + 1], t, b)
    {
      assert !p[m + 1].destroyed by { var c := calls[m + 1]; }
      InsideAt(p, calls, t, |Prepared(p[i], t)|, i + 1, j + 1, m);
      OpenedStep(p, calls, p[i], t, b, m);
    }
    OpenedStays(p, p[i], t, b, i + 1, j);
    InsideAt(p, calls, t, |Prepared(p[i], t)|, i + 1, j + 1, j);
    OpenedStep(p, calls, p[i], t, b, j);
    GrewBack(Ids(Prepared(p[i], t)), Stack(p[i], t), Ids(Prepared(p[j + 1], t)), Stack(p[j + 1], t));
  }

  lemma GrewBack(ids0: seq<Bundle>, stack0: seq<Bundle>, ids: seq<Bundle>, stack: seq<Bundle>)
    requires Grew(ids0, stack0, ids, stack) && |ids| == |ids0|
    ensures ids == ids0 && stack == stack0
  {
    assert ids[..|ids0|] == ids;
  }

  // ------------------------------------------------------- lifecycle markers

  ghost predicate IsOpen(w: World, b: Bundle) {
    exists t, k :: OpenHere(w, b, t, k)
  }

  predicate OpenHere(w: World, b: Bundle, t: Thread, k: nat) {
    k < |Prepared(w, t)| && Prepared(w, t)[k].bundle == b
  }

  /** A transaction of `b` other than entry `k` of thread `t` is open. */
  ghost predicate OpenElsewhere(w: World, b: Bundle, t: Thread, k: nat) {
    exists u, j :: OpenHere(w, b, u, j) && !(u == t && j == k)
  }

  /** The marked bundles are the open and the published internal ones. */
  ghost predicate MarksExact(w: World) {
    forall b :: b in w.marks <==> b in w.internal || IsOpen(w, b)
  }

  lemma {:induction false} SameOpen(w: World, w': World)
    requires forall u :: Ids(Prepared(w', u)) == Ids(Prepared(w, u))
    ensures forall b :: IsOpen(w', b) <==> IsOpen(w, b)
  {
    forall b, u, k: nat
      ensures OpenHere(w', b, u, k) <==> OpenHere(w, b, u, k)
    {
      assert Ids(Prepared(w', u)) == Ids(Prepared(w, u));
      assert |Prepared(w', u)| == |Prepared(w, u)|;
      if k < |Prepared(w, u)| { assert Ids(Prepared(w', u))[k] == Ids(Prepared(w, u))[k]; }
    }
  }

  /** What is open once entry `k` of thread `t`, of bundle `b`, is gone. */
  lemma OpenAfter(w: World, w': World, t: Thread, k: nat, c: Bundle)
    requires Ended(w, w', t, k)
    ensures IsOpen(w', c) <==> OpenElsewhere(w, c, t, k)
  {
    if IsOpen(w', c) {
      var u, j: nat :| OpenHere(w', c, u, j);
      OpenBefore(w, w', t, k, c, u, j);
    }
    if OpenElsewhere(w, c, t, k) {
      var u, j: nat :| OpenHere(w, c, u, j) && !(u == t && j == k);
      OpenStill(w, w', t, k, c, u, j);
    }
  }

  lemma OpenBefore(w: World, w': World, t: Thread, k: nat, c: Bundle, u: Thread, j: nat)
    requires Ended(w, w', t, k) && OpenHere(w', c, u, j)
    ensures OpenElsewhere(w, c, t, k)
  {
    if u == t { WithoutAt(Prepared(w, t), k, j); }
    assert OpenHere(w, c, u, if u == t && j >= k then j + 1 else j);
  }

  lemma OpenStill(w: World, w': World, t: Thread, k: nat, c: Bundle, u: Thread, j: nat)
    requires Ended(w, w', t, k) && OpenHere(w, c, u, j) && !(u == t && j == k)
    ensures IsOpen(w', c)
  {
    var j' := if u == t && j > k then j - 1 else j;
    if u == t { WithoutAt(Prepared(w, t), k, j'); }
    assert OpenHere(w', c, u, j');
  }

  /** Closing entry `k` of `b`: every other bundle is as open as before. */
  lemma OthersAsOpen(w: World, t: Thread, k: nat, b: Bundle, c: Bundle)
    requires OpenHere(w, b, t, k) && c != b
    ensures OpenElsewhere(w, c, t, k) <==> IsOpen(w, c)
  {
  }

  /**
    Whose marker survives a close that publishes nothing, transactions overlapping as they
    may: the markers stay right exactly when the bundle is not published and has no other
    open transaction.
   */
  lemma DroppedMarker(w: World, w': World, t: Thread, b: Bundle, k: nat)
    requires MarksExact(w) && OpenHere(w, b, t, k) && Ended(w, w', t, k)
    requires w'.marks == w.marks - {b} && w'.internal == w.internal
    ensures MarksExact(w') <==> b !in w.internal && !OpenElsewhere(w, b, t, k)
  {
    forall c | c != b
      ensures c in w'.marks <==> c in w'.internal || IsOpen(w', c)
    {
      OpenAfter(w, w', t, k, c);
      OthersAsOpen(w, t, k, b, c);
    }
    OpenAfter(w, w', t, k, b);
  }

  lemma AbortMarks(w: World, t: Thread, b: Bundle)
    requires MarksExact(w) && OpenAt(w, t, b).Some?
    ensures MarksExact(Abort(w, t, b)) <==> b !in w.internal && !OpenElsewhere(w, b, t, OpenAt(w, t, b).value)
  {
    var k := OpenAt(w, t, b).value;
    TakeEnds(w, t, k);
    DroppedMarker(w, Abort(w, t, b), t, b, k);
  }

  lemma CommitMarks(w: World, t: Thread, b: Bundle, accepted: bool)
    requires MarksExact(w)
    ensures var (w', reply) := Commit(w, t, b, accepted);
      MarksExact(w') <==> reply.Handles? || CloseSpares(w, t, b, true)
  {
    var (w', reply) := Commit(w, t, b, accepted);
    match OpenAt(w, t, b)
    case None =>
      SameOpen(w, w');
      assert w'.marks == w.marks - {b} && w'.internal == w.internal;
    case Some(k) =>
      TakeEnds(w, t, k);
      if reply.Handles? {
        forall c
          ensures c in w'.marks <==> c in w'.internal || IsOpen(w', c)
        {
          OpenAfter(w, w', t, k, c);
          assert OpenHere(w, b, t, k) && IsOpen(w, b);
          if c != b { OthersAsOpen(w, t, k, b, c); }
        }
      } else {
        DroppedMarker(w, w', t, b, k);
      }
  }

  /** A closing call that publishes nothing takes no marker that is still due. */
  ghost predicate CloseSpares(w: World, t: Thread, b: Bundle, alwaysUnmarks: bool) {
    match OpenAt(w, t, b)
    case None => alwaysUnmarks ==> b !in w.marks
    case Some(k) => b !in w.internal && !OpenElsewhere(w, b, t, k)
  }

  /** A commit on thread `t` would publish its transaction of `b`. */
  predicate CommitPublishes(w: World, t: Thread, b: Bundle, accepted: bool) {
    OpenAt(w, t, b).Some? && Publishable(w.store, Prepared(w, t)[OpenAt(w, t, b).value], accepted)
  }

  /** The transaction of `b` has exactly `capacity` providers. */
  predicate Fits(w: World, t: Thread, b: Bundle, capacity: nat) {
    OpenAt(w, t, b).Some? && |Prepared(w, t)[OpenAt(w, t, b).value].providers| == capacity
  }

  /** An unload of `b` on thread `t` would go through. */
  predicate Unloads(w: World, t: Thread, b: Bundle, busy: bool) {
    b in w.store.bundles && !busy && (b in w.residents ==> w.residents[b].owner == t)
  }

  lemma CommitReplies(w: World, t: Thread, b: Bundle, accepted: bool)
    requires StoreOk(w)
    ensures Commit(w, t, b, accepted).1.Handles? <==> CommitPublishes(w, t, b, accepted)
  {
    match OpenAt(w, t, b)
    case None =>
    case Some(k) => PublishReplies(Take(w, t, k), t, Prepared(w, t)[k], accepted);
  }

  /** Exactly the calls that keep the markers right, read off the state before the call. */
  ghost predicate MarksSafe(w: World, c: Call) {
    match c
    case CallCommit(t, b, accepted) => CommitPublishes(w, t, b, accepted) || CloseSpares(w, t, b, true)
    case CallCommitInto(t, b, capacity, accepted) =>
      (Fits(w, t, b, capacity) && CommitPublishes(w, t, b, accepted)) || CloseSpares(w, t, b, false)
    case CallAbort(t, b) => CloseSpares(w, t, b, false)
    case CallUnload(t, b, busy) => Unloads(w, t, b, busy) ==> !IsOpen(w, b)
    case CallBegin(_, _, _) => true
    case CallStage(_, _) => true
    case CallAttach(_, _, _, _) => true
    case CallLoad(_, _, _, _) => true
    case CallDestroy(_) => true
  }

  lemma BeginMarks(w: World, t: Thread, b: Bundle, valid: bool)
    requires MarksExact(w)
    ensures MarksExact(Begin(w, t, b, valid).0)
  {
    var (w', reply) := Begin(w, t, b, valid);
    if reply.Done? {
      var txn := Txn(b, [], None);
      PushedOf(w.prepared, t, txn);
      forall c
        ensures IsOpen(w', c) <==> IsOpen(w, c) || c == b
      {
        OpenAfterBegin(w, w', t, txn, c);
      }
    }
  }

  lemma OpenAfterBegin(w: World, w': World, t: Thread, txn: Txn, c: Bundle)
    requires forall u :: Prepared(w', u) == if u == t then Prepared(w, t) + [txn] else Prepared(w, u)
    ensures IsOpen(w', c) <==> IsOpen(w, c) || c == txn.bundle
  {
    if IsOpen(w, c) {
      var u, j: nat :| OpenHere(w, c, u, j);
      assert OpenHere(w', c, u, j);
    }
    if c == txn.bundle { assert OpenHere(w', c, t, |Prepared(w, t)|); }
    if IsOpen(w', c) {
      var u, j: nat :| OpenHere(w', c, u, j);
      if u != t || j < |Prepared(w, t)| { assert OpenHere(w, c, u, j); }
    }
  }

  /** From right markers, a call keeps them right if and only if it is safe. */
  lemma MarksStep(w: World, c: Call)
    requires MarksExact(w) && StoreOk(w) && !w.destroyed && !Apply(w, c).0.destroyed
    ensures MarksExact(Apply(w, c).0) <==> MarksSafe(w, c)
  {
    match c
    case CallBegin(t, b, valid) => BeginMarks(w, t, b, valid);
    case CallStage(t, x) =>
      StageIds(w, t, x);
      SameOpen(w, Apply(w, c).0);
    case CallAttach(t, b, owner, wellFormed) =>
      AttachIds(w, t, b, owner, wellFormed);
      SameOpen(w, Apply(w, c).0);
    case CallCommit(t, b, accepted) =>
      CommitReplies(w, t, b, accepted);
      CommitMarks(w, t, b, accepted);
    case CallCommitInto(t, b, capacity, accepted) =>
      CommitReplies(w, t, b, accepted);
      CommitIntoMarks(w, t, b, capacity, accepted);
    case CallAbort(t, b) => if OpenAt(w, t, b).Some? { AbortMarks(w, t, b); }
    case CallLoad(_, _, _, _) => SameOpen(w, Apply(w, c).0);
    case CallUnload(t, b, busy) => UnloadMarks(w, t, b, busy);
    case CallDestroy(_) =>
  }

  lemma CommitIntoMarks(w: World, t: Thread, b: Bundle, capacity: nat, accepted: bool)
    requires MarksExact(w)
    ensures var (w', reply) := CommitInto(w, t, b, capacity, accepted);
      MarksExact(w') <==> reply.Handles? || CloseSpares(w, t, b, false)
  {
    if OpenAt(w, t, b).Some? {
      CommitMarks(w, t, b, accepted);
      AbortMarks(w, t, b);
    }
  }

  lemma UnloadMarks(w: World, t: Thread, b: Bundle, busy: bool)
    requires MarksExact(w)
    ensures var (w', reply) := Unload(w, t, b, busy); MarksExact(w') <==> (reply.Done? ==> !IsOpen(w, b))
  {
    var (w', reply) := Unload(w, t, b, busy);
    assert w'.prepared == w.prepared;
    SameOpen(w, w');
  }

  lemma FreshMarks()
    ensures MarksExact(FRESH)
  {
    assert forall t :: Prepared(FRESH, t) == [];
  }

  /** In any run markers are right up to the first unsafe call, which breaks them. */
  lemma {:induction false} MarksExactUntil(p: seq<World>, calls: seq<Call>, i: nat)
    requires Run(p, calls) && i < |p| && !p[i].destroyed
    requires forall j :: 0 <= j < i ==> MarksSafe(p[j], calls[j])
    ensures MarksExact(p[i])
    ensures i < |calls| && !p[i + 1].destroyed ==> (MarksExact(p[i + 1]) <==> MarksSafe(p[i], calls[i]))
  {
    if i == 0 {
      FreshMarks();
    } else {
      assert !p[i - 1].destroyed && p[i] == Apply(p[i - 1], calls[i - 1]).0;
      MarksExactUntil(p, calls, i - 1);
    }
    if i < |calls| && !p[i + 1].destroyed {
      RunKeepsCore(p, calls, i);
      MarksStep(p[i], calls[i]);
    }
  }
}
