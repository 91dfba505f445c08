/**
  Runs in which callers keep what the documentation asks: transactions of one bundle id do
  not overlap, those of a thread nest, and a commit follows its begin. Then stacks and
  markers are always right. The lemmas at the end show what single slips do.
 */
module TransactionDiscipline {
  import opened Basics
  import opened ThreadLists
  import opened RegistryStore
  import opened RegistryInvariant
  import opened StoreEffects
  import opened Transactions
  import opened ResidentRuns
  import opened TransactionRuns

  /** What callers promise of a call, readable off the state before it. */
  ghost predicate Orderly(w: World, c: Call) {
    match c
    case CallBegin(_, b, _) => !IsOpen(w, b)
    case CallLoad(_, b, _, _) => !IsOpen(w, b)
    case CallCommit(t, b, _) => Innermost(w, t, b)
    case CallCommitInto(t, b, _, _) => Innermost(w, t, b) || OpenAt(w, t, b).None?
    case CallAbort(t, b) => Innermost(w, t, b) || OpenAt(w, t, b).None?
    case CallStage(_, _) => true
    case CallAttach(_, _, _, _) => true
    case CallUnload(_, _, _) => true
    case CallDestroy(_) => true
  }

  /** No bundle has two transactions open. */
  ghost predicate OpenOnce(w: World) {
    forall b, t, k, u, j :: OpenHere(w, b, t, k) && OpenHere(w, b, u, j) ==> t == u && k == j
  }

  ghost predicate OpenUnpublished(w: World) { forall b :: IsOpen(w, b) ==> b !in w.store.bundles }

  ghost predicate Books(w: World) {
    StacksExact(w) && MarksExact(w) && OpenOnce(w) && OpenUnpublished(w)
  }

  lemma OrderlyPopsRight(w: World, c: Call)
    requires Orderly(w, c)
    ensures PopsRight(w, c)
  {
  }

  /** With the books right, an orderly call takes no marker that is still due. */
  lemma OrderlyIsSafe(w: World, c: Call)
    requires Books(w) && StoreOk(w) && Orderly(w, c)
    ensures MarksSafe(w, c)
  {
    if c.Closing() {
      match OpenAt(w, c.t, c.b)
      case None =>
      case Some(k) =>
        assert OpenHere(w, c.b, c.t, k) && IsOpen(w, c.b);
    }
  }

  lemma SameIdsBooks(w: World, w': World)
    requires OpenOnce(w) && forall u :: Ids(Prepared(w', u)) == Ids(Prepared(w, u))
    ensures OpenOnce(w')
  {
    forall b, u, k: nat
      ensures OpenHere(w', b, u, k) <==> OpenHere(w, b, u, k)
    {
      assert |Ids(Prepared(w', u))| == |Ids(Prepared(w, u))|;
      if k < |Prepared(w, u)| { assert Ids(Prepared(w', u))[k] == Ids(Prepared(w, u))[k]; }
    }
  }

  /** Which positions are open after an entry went. */
  lemma EndedOnce(w: World, w': World, t: Thread, k: nat)
    requires OpenOnce(w) && Ended(w, w', t, k)
    ensures OpenOnce(w')
  {
    forall b, u, j: nat | OpenHere(w', b, u, j)
      ensures OpenHere(w, b, u, if u == t && j >= k then j + 1 else j)
    {
      if u == t { WithoutAt(Prepared(w, t), k, j); }
    }
    forall b, u, j: nat, v, i: nat | OpenHere(w', b, u, j) && OpenHere(w', b, v, i)
      ensures u == v && j == i
    {
      assert OpenHere(w, b, u, if u == t && j >= k then j + 1 else j);
      assert OpenHere(w, b, v, if v == t && i >= k then i + 1 else i);
    }
  }

  lemma BegunOnce(w: World, t: Thread, b: Bundle, valid: bool)
    requires OpenOnce(w) && !IsOpen(w, b)
    ensures OpenOnce(Begin(w, t, b, valid).0)
  {
    var (w', reply) := Begin(w, t, b, valid);
    if reply.Done? {
      PushedOf(w.prepared, t, Txn(b, [], None));
      forall c, u, j: nat | OpenHere(w', c, u, j)
        ensures if u == t && j == |Prepared(w, t)| then c == b else OpenHere(w, c, u, j) && c != b
      {
        if u != t || j < |Prepared(w, t)| { assert OpenHere(w, c, u, j); }
      }
    }
  }

  lemma ClosedOnce(w: World, w': World, t: Thread, b: Bundle, pops: bool)
    requires OpenOnce(w) && Closed(w, w', t, b, pops)
    ensures OpenOnce(w')
  {
    match OpenAt(w, t, b)
    case None => SameIdsBooks(w, w');
    case Some(k) => EndedOnce(w, w', t, k);
  }

  lemma CallOnce(w: World, c: Call)
    requires OpenOnce(w) && Orderly(w, c) && !w.destroyed && !Apply(w, c).0.destroyed
    ensures OpenOnce(Apply(w, c).0)
  {
    var w' := Apply(w, c).0;
    if c.Closing() {
      CloseShape(w, c);
      ClosedOnce(w, w', c.t, c.b, c.CallCommit?);
    } else {
      match c
      case CallBegin(t, b, valid) => BegunOnce(w, t, b, valid);
      case CallStage(t, x) =>
        StageIds(w, t, x);
        SameIdsBooks(w, w');
      case CallAttach(t, b, owner, wellFormed) =>
        AttachIds(w, t, b, owner, wellFormed);
        SameIdsBooks(w, w');
      case CallLoad(_, _, _, _) => SameIdsBooks(w, w');
      case CallUnload(_, _, _) => SameIdsBooks(w, w');
      case CallDestroy(_) =>
    }
  }

  /** A closing call opens nothing, and what it publishes is open nowhere. */
  lemma ClosedUnpublished(w: World, c: Call)
    requires OpenOnce(w) && OpenUnpublished(w) && Core(w) && !w.destroyed && c.Closing()
    ensures OpenUnpublished(Apply(w, c).0)
  {
    var (w', reply) := Apply(w, c);
    CloseShape(w, c);
    CallPublishesRight(w, c);
    match OpenAt(w, c.t, c.b)
    case None => SameOpen(w, w');
    case Some(k) =>
      forall b | IsOpen(w', b)
        ensures b !in w'.store.bundles
      {
        OpenAfter(w, w', c.t, k, b);
        assert IsOpen(w, b) && OpenHere(w, c.b, c.t, k);
      }
  }

  lemma CallUnpublished(w: World, c: Call)
    requires Books(w) && Core(w) && Orderly(w, c) && !w.destroyed && !Apply(w, c).0.destroyed
    ensures OpenUnpublished(Apply(w, c).0)
  {
    var w' := Apply(w, c).0;
    if c.Closing() {
      ClosedUnpublished(w, c);
    } else {
      match c
      case CallBegin(t, b, valid) =>
        if Begin(w, t, b, valid).1.Done? {
          PushedOf(w.prepared, t, Txn(b, [], None));
          forall x
            ensures IsOpen(w', x) ==> x !in w'.store.bundles
          {
            OpenAfterBegin(w, w', t, Txn(b, [], None), x);
          }
        }
      case CallStage(t, x) =>
        StageIds(w, t, x);
        NestedStagesStay(w, t, x);
        StagePublishesRight(w, t, x);
        SameOpen(w, w');
      case CallAttach(t, b, owner, wellFormed) =>
        AttachIds(w, t, b, owner, wellFormed);
        SameOpen(w, w');
      case CallLoad(t, b, providers, accepted) =>
        LoadCore(w, b, providers, accepted);
        SameOpen(w, w');
      case CallUnload(t, b, busy) =>
        if Unload(w, t, b, busy).1.Done? { InvalidateTheorem(w.store, b, {}); }
        SameOpen(w, w');
      case CallDestroy(_) =>
    }
  }

  lemma CallKeepsBooks(w: World, c: Call)
    requires Books(w) && Core(w) && Orderly(w, c) && !w.destroyed && !Apply(w, c).0.destroyed
    ensures Books(Apply(w, c).0)
  {
    OrderlyPopsRight(w, c);
    StacksStep(w, c);
    OrderlyIsSafe(w, c);
    MarksStep(w, c);
    CallOnce(w, c);
    CallUnpublished(w, c);
  }

  lemma FreshBooks()
    ensures Books(FRESH)
  {
    FreshStacks();
    FreshMarks();
    assert forall t :: Prepared(FRESH, t) == [];
  }

  /** In an orderly run, stacks list the open transactions, and markers the open and published internal bundles. */
  lemma {:induction false} OrderlyRunsKeepBooks(p: seq<World>, calls: seq<Call>, i: nat)
    requires Run(p, calls) && i < |p| && !p[i].destroyed && forall j :: 0 <= j < i ==> Orderly(p[j], calls[j])
    ensures Books(p[i])
  {
    if i == 0 {
      FreshBooks();
    } else {
      assert !p[i - 1].destroyed && p[i] == Apply(p[i - 1], calls[i - 1]).0;
      OrderlyRunsKeepBooks(p, calls, i - 1);
      RunKeepsCore(p, calls, i - 1);
      CallKeepsBooks(p[i - 1], calls[i - 1]);
    }
  }

  /** An abort does nothing exactly when its thread has no transaction of that bundle. */
  lemma AbortDoesNothing(w: World, t: Thread, b: Bundle)
    ensures Abort(w, t, b) == w <==> OpenAt(w, t, b).None?
  {
    AbortShape(w, t, b);
    if OpenAt(w, t, b).Some? {
      assert |Without(Prepared(w, t), OpenAt(w, t, b).value)| == |Prepared(w, t)| - 1;
    }
  }

  /** So in an orderly run aborting a published bundle, on any thread, does nothing. */
  lemma AbortAfterCommit(p: seq<World>, calls: seq<Call>, i: nat, t: Thread, b: Bundle)
    requires Run(p, calls) && i < |p| && !p[i].destroyed && forall j :: 0 <= j < i ==> Orderly(p[j], calls[j])
    requires b in p[i].store.bundles
    ensures Abort(p[i], t, b) == p[i]
  {
    OrderlyRunsKeepBooks(p, calls, i);
    AbortDoesNothing(p[i], t, b);
    assert OpenAt(p[i], t, b).Some? ==> OpenHere(p[i], b, t, OpenAt(p[i], t, b).value);
  }

  // ------------------------------------------------------- single slips

  /**
    A commit with no open transaction is refused, but still pops the thread's init stack and
    drops the bundle's marker: each stays right only if there was nothing to lose.
   */
  lemma CommitWithoutBegin(w: World, t: Thread, b: Bundle, accepted: bool)
    requires Books(w) && !w.destroyed && OpenAt(w, t, b).None?
    ensures var (w', reply) := Commit(w, t, b, accepted);
      && reply.Refusal? && w'.store == w.store
      && (StacksExact(w') <==> Stack(w, t) == []) && (MarksExact(w') <==> b !in w.marks)
  {
    CommitStacks(w, t, b, accepted);
    CommitMarks(w, t, b, accepted);
    assert !Innermost(w, t, b);
  }

  /** One empty transaction of `b` on a fresh runtime, committed. */
  lemma CommittedOnce(t: Thread, b: Bundle) returns (w: World)
    ensures w == Commit(Begin(FRESH, t, b, true).0, t, b, true).0
    ensures Books(w) && Core(w) && !w.destroyed && b in w.internal && b in w.marks && OpenAt(w, t, b).None?
  {
    FreshCore();
    FreshBooks();
    var w1 := Begin(FRESH, t, b, true).0;
    assert forall u :: Prepared(FRESH, u) == [];
    assert Orderly(FRESH, CallBegin(t, b, true));
    CallKeepsBooks(FRESH, CallBegin(t, b, true));
    BeginCore(FRESH, t, b, true);
    assert Prepared(w1, t) == [Txn(b, [], None)] && OpenAt(w1, t, b) == Some(0);
    EmptyCommitSucceeds(w1, t, b, 0);
    CallKeepsBooks(w1, CallCommit(t, b, true));
    CommitCore(w1, t, b, true);
    w := Commit(w1, t, b, true).0;
    CommitShape(w1, t, b, true);
    assert Without(Prepared(w1, t), 0) == [];
  }

  /** Concretely: committing twice leaves a published internal bundle without its marker. */
  lemma SecondCommitLosesMarker(t: Thread, b: Bundle)
    ensures var w2 := Commit(Begin(FRESH, t, b, true).0, t, b, true).0;
      var w3 := Commit(w2, t, b, true).0;
      b in w2.internal && b in w2.marks && b in w3.internal && b !in w3.marks && !MarksExact(w3)
  {
    var w2 := CommittedOnce(t, b);
    CommitWithoutBegin(w2, t, b, true);
  }

  /** Concretely: two threads open the same bundle; the loser's refused commit drops the winner's marker. */
  lemma OverlapLosesMarker(t: Thread, u: Thread, b: Bundle)
    requires t != u
    ensures var w1 := Begin(FRESH, t, b, true).0;
      var w2 := Begin(w1, u, b, true).0;
      var w3 := Commit(w2, t, b, true).0;
      var (w4, reply) := Commit(w3, u, b, true);
      MarksExact(w3) && reply.Refusal? && b in w4.internal && b !in w4.marks && !MarksExact(w4)
  {
    FreshCore();
    FreshMarks();
    var w1 := Begin(FRESH, t, b, true).0;
    var w2 := Begin(w1, u, b, true).0;
    BeginCore(FRESH, t, b, true);
    BeginCore(w1, u, b, true);
    BeginMarks(FRESH, t, b, true);
    BeginMarks(w1, u, b, true);
    var txn := Txn(b, [], None);
    assert Prepared(w2, t) == [txn] && Prepared(w2, u) == [txn] && OpenAt(w2, t, b) == Some(0);
    EmptyCommitSucceeds(w2, t, b, 0);
    CommitMarks(w2, t, b, true);
    CommitShape(w2, t, b, true);
    var w3 := Commit(w2, t, b, true).0;
    assert Prepared(w3, u) == [txn] && OpenAt(w3, u, b) == Some(0) && b in w3.store.bundles;
    assert Commit(w3, u, b, true).1.Refusal?;
    CommitMarks(w3, u, b, true);
  }
}
