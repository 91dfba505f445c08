/**
  The lock sections of one thread, with no section of another thread in between, are the whole
  call: what the two views of transactions say is about the same calls.
 */
module WholeCalls {
  import opened Basics
  import opened ThreadLists
  import opened RegistryStore
  import opened Transactions
  import opened ResidentRuns
  import opened TransactionSections

  /** These sections, one after the other, lead from `s` to `end`. */
  ghost predicate Runs(s: System, cs: seq<Section>, end: System)
    decreases |cs|
  {
    if cs == [] then s == end
    else !s.w.aborted && Enabled(s, cs[0]) && Runs(TransactionSections.Apply(s, cs[0]), cs[1..], end)
  }

  lemma RunsCons(s: System, c: Section, mid: System, cs: seq<Section>, end: System)
    requires Leads(s, c, mid) && Runs(mid, cs, end)
    ensures Runs(s, [c] + cs, end)
  {
    assert ([c] + cs)[1..] == cs;
  }

  lemma RunsOne(s: System, c: Section, end: System)
    requires Leads(s, c, end)
    ensures Runs(s, [c], end)
  {
    assert Runs(end, [], end) && [c] + [] == [c];
    RunsCons(s, c, end, [], end);
  }

  lemma RunsTwo(s: System, a: Section, mid: System, b: Section, end: System)
    requires Leads(s, a, mid) && Leads(mid, b, end)
    ensures Runs(s, [a, b], end)
  {
    RunsOne(mid, b, end);
    RunsCons(s, a, mid, [b], end);
    assert [a] + [b] == [a, b];
  }

  lemma RunsThree(s: System, a: Section, s1: System, b: Section, s2: System, c: Section, end: System)
    requires Leads(s, a, s1) && Leads(s1, b, s2) && Leads(s2, c, end)
    ensures Runs(s, [a, b, c], end)
  {
    RunsTwo(s1, b, s2, c, end);
    RunsCons(s, a, s1, [b, c], end);
    assert [a] + [b, c] == [a, b, c];
  }

  lemma RunsFour(s: System, a: Section, s1: System, b: Section, s2: System, c: Section, s3: System, d: Section,
      end: System)
    requires Leads(s, a, s1) && Leads(s1, b, s2) && Leads(s2, c, s3) && Leads(s3, d, end)
    ensures Runs(s, [a, b, c, d], end)
  {
    RunsThree(s1, b, s2, c, s3, d, end);
    RunsCons(s, a, s1, [b, c, d], end);
    assert [a] + [b, c, d] == [a, b, c, d];
  }

  /** Setting the thread's phase any number of times and clearing it leaves the others' alone. */
  lemma PhaseCleared(phase: map<Thread, Phase>, t: Thread, a: Phase, b: Phase)
    requires t !in phase
    ensures phase[t := a] - {t} == phase && phase[t := a][t := b] == phase[t := b]
  {
  }

  function BeginSections(s: System, t: Thread, b: Bundle, valid: bool): seq<Section> {
    [BeginCheck(t, b, valid)] + if !valid || b in s.w.store.bundles then [] else [Prepare(t), Mark(t), Push(t)]
  }

  lemma BeginIsItsSections(s: System, t: Thread, b: Bundle, valid: bool)
    requires !s.w.aborted && t !in s.phase
    ensures Runs(s, BeginSections(s, t, b, valid), s.(w := Begin(s.w, t, b, valid).0))
  {
    var end := s.(w := Begin(s.w, t, b, valid).0);
    if !valid || b in s.w.store.bundles {
      RunsOne(s, BeginCheck(t, b, valid), end);
      assert BeginSections(s, t, b, valid) == [BeginCheck(t, b, valid)];
    } else {
      var w1 := s.w.(prepared := Pushed(s.w.prepared, t, Txn(b, [], None)));
      var w2 := w1.(marks := w1.marks + {b});
      var s1 := System(s.w, s.phase[t := ToPrepare(b)]);
      var s2 := System(w1, s.phase[t := ToMark(b)]);
      var s3 := System(w2, s.phase[t := ToPush(b)]);
      PhaseCleared(s.phase, t, ToPrepare(b), ToMark(b));
      PhaseCleared(s.phase, t, ToMark(b), ToPush(b));
      PhaseCleared(s.phase, t, ToPush(b), ToPush(b));
      RunsFour(s, BeginCheck(t, b, valid), s1, Prepare(t), s2, Mark(t), s3, Push(t), end);
      assert BeginSections(s, t, b, valid) == [BeginCheck(t, b, valid), Prepare(t), Mark(t), Push(t)];
    }
  }

  function CommitSections(s: System, t: Thread, b: Bundle, accepted: bool): seq<Section> {
    [CommitTake(t, b, accepted)] + (if OpenAt(s.w, t, b).Some? then [Publish(t)] else []) + [PopStack(t)] +
    if Commit(s.w, t, b, accepted).1.Handles? then [] else [DropMark(t)]
  }

  lemma CommitIsItsSections(s: System, t: Thread, b: Bundle, accepted: bool)
    requires !s.w.aborted && t !in s.phase && StagedByOwner(s.w) && StoreOk(s.w)
    ensures Runs(s, CommitSections(s, t, b, accepted), s.(w := Commit(s.w, t, b, accepted).0))
  {
    match OpenAt(s.w, t, b)
    case None => FruitlessCommit(s, t, b, accepted);
    case Some(k) => CommitOfOne(s, t, b, accepted, k);
  }

  lemma FruitlessCommit(s: System, t: Thread, b: Bundle, accepted: bool)
    requires !s.w.aborted && t !in s.phase && OpenAt(s.w, t, b).None?
    ensures Runs(s, CommitSections(s, t, b, accepted), s.(w := Commit(s.w, t, b, accepted).0))
  {
    var s1, s2 := System(s.w, s.phase[t := ToPop(b, false)]), System(Pop(s.w, t), s.phase[t := ToUnmark(b)]);
    PhaseCleared(s.phase, t, ToPop(b, false), ToUnmark(b));
    PhaseCleared(s.phase, t, ToUnmark(b), ToUnmark(b));
    RunsThree(s, CommitTake(t, b, accepted), s1, PopStack(t), s2, DropMark(t), s.(w := Commit(s.w, t, b, accepted).0));
    assert CommitSections(s, t, b, accepted) == [CommitTake(t, b, accepted), PopStack(t), DropMark(t)];
  }

  lemma TakeAndPublish(s: System, t: Thread, b: Bundle, accepted: bool, k: nat) returns (s1: System)
    requires !s.w.aborted && t !in s.phase && OpenAt(s.w, t, b) == Some(k)
    ensures var (w2, reply) := PublishTxn(Take(s.w, t, k), t, Prepared(s.w, t)[k], accepted);
      && Leads(s, CommitTake(t, b, accepted), s1)
      && Leads(s1, Publish(t), System(w2, s.phase[t := ToPop(b, reply.Handles?)]))
  {
    var txn := Prepared(s.w, t)[k];
    s1 := System(Take(s.w, t, k), s.phase[t := ToPublish(txn, accepted)]);
    var reply := PublishTxn(s1.w, t, txn, accepted).1;
    PhaseCleared(s.phase, t, ToPublish(txn, accepted), ToPop(b, reply.Handles?));
  }

  lemma PopAndUnmark(w: World, phase: map<Thread, Phase>, t: Thread, b: Bundle, ok: bool)
    requires !w.aborted && t !in phase
    ensures Runs(System(w, phase[t := ToPop(b, ok)]), if ok then [PopStack(t)] else [PopStack(t), DropMark(t)],
      System(if ok then Pop(w, t) else Unmark(Pop(w, t), b), phase))
  {
    var s := System(w, phase[t := ToPop(b, ok)]);
    PhaseCleared(phase, t, ToPop(b, ok), ToUnmark(b));
    PhaseCleared(phase, t, ToUnmark(b), ToUnmark(b));
    if ok {
      RunsOne(s, PopStack(t), System(Pop(w, t), phase));
    } else {
      RunsTwo(s, PopStack(t), System(Pop(w, t), phase[t := ToUnmark(b)]), DropMark(t),
        System(Unmark(Pop(w, t), b), phase));
    }
  }

  /** Publishing a thread's own transaction fails no owner assertion. */
  lemma PublishGoesOn(w: World, t: Thread, k: nat, accepted: bool)
    requires !w.aborted && StagedByOwner(w) && StoreOk(w) && k < |Prepared(w, t)|
    ensures !PublishTxn(Take(w, t, k), t, Prepared(w, t)[k], accepted).0.aborted
  {
  }

  lemma CommitOfOne(s: System, t: Thread, b: Bundle, accepted: bool, k: nat)
    requires !s.w.aborted && t !in s.phase && StagedByOwner(s.w) && StoreOk(s.w) && OpenAt(s.w, t, b) == Some(k)
    ensures Runs(s, CommitSections(s, t, b, accepted), s.(w := Commit(s.w, t, b, accepted).0))
  {
    var (w2, reply) := PublishTxn(Take(s.w, t, k), t, Prepared(s.w, t)[k], accepted);
    var ok := reply.Handles?;
    var last := if ok then [PopStack(t)] else [PopStack(t), DropMark(t)];
    PublishGoesOn(s.w, t, k, accepted);
    var s1 := TakeAndPublish(s, t, b, accepted, k);
    PopAndUnmark(w2, s.phase, t, b, ok);
    var s2, end := System(w2, s.phase[t := ToPop(b, ok)]), s.(w := Commit(s.w, t, b, accepted).0);
    RunsCons(s1, Publish(t), s2, last, end);
    RunsCons(s, CommitTake(t, b, accepted), s1, [Publish(t)] + last, end);
    assert CommitSections(s, t, b, accepted) == [CommitTake(t, b, accepted)] + ([Publish(t)] + last);
  }

  function AbortSections(s: System, t: Thread, b: Bundle): seq<Section> {
    [AbortTake(t, b)] + if OpenAt(s.w, t, b).Some? then [Discard(t), Forget(t), Leave(t)] else []
  }

  lemma AbortIsItsSections(s: System, t: Thread, b: Bundle)
    requires !s.w.aborted && t !in s.phase && StagedByOwner(s.w)
    ensures Runs(s, AbortSections(s, t, b), s.(w := Abort(s.w, t, b)))
  {
    var end := s.(w := Abort(s.w, t, b));
    match OpenAt(s.w, t, b)
    case None =>
      RunsOne(s, AbortTake(t, b), end);
      assert AbortSections(s, t, b) == [AbortTake(t, b)];
    case Some(k) =>
      var txn := Prepared(s.w, t)[k];
      var s1 := System(Take(s.w, t, k), s.phase[t := ToDiscard(txn)]);
      DiscardAndLeave(s1.w, s.phase, t, txn);
      RunsCons(s, AbortTake(t, b), s1, [Discard(t), Forget(t), Leave(t)], end);
      assert AbortSections(s, t, b) == [AbortTake(t, b)] + [Discard(t), Forget(t), Leave(t)];
  }

  lemma DiscardAndLeave(w: World, phase: map<Thread, Phase>, t: Thread, txn: Txn)
    requires !w.aborted && t !in phase && MayRelease(txn.resident, t)
    ensures Runs(System(w, phase[t := ToDiscard(txn)]), [Discard(t), Forget(t), Leave(t)],
      System(Pop(Unmark(Drop(w, t, txn.resident), txn.bundle), t), phase))
  {
    var b, w2 := txn.bundle, Drop(w, t, txn.resident);
    var s1, s2 := System(w, phase[t := ToDiscard(txn)]), System(w2, phase[t := ToForget(b)]);
    PhaseCleared(phase, t, ToDiscard(txn), ToForget(b));
    var end := System(Pop(Unmark(w2, b), t), phase);
    ForgetAndLeave(w2, phase, t, b);
    RunsCons(s1, Discard(t), s2, [Forget(t), Leave(t)], end);
    assert [Discard(t)] + [Forget(t), Leave(t)] == [Discard(t), Forget(t), Leave(t)];
  }

  lemma ForgetAndLeave(w: World, phase: map<Thread, Phase>, t: Thread, b: Bundle)
    requires !w.aborted && t !in phase
    ensures Runs(System(w, phase[t := ToForget(b)]), [Forget(t), Leave(t)], System(Pop(Unmark(w, b), t), phase))
  {
    PhaseCleared(phase, t, ToForget(b), ToLeave(b));
    PhaseCleared(phase, t, ToLeave(b), ToLeave(b));
    var s1 := System(Unmark(w, b), phase[t := ToLeave(b)]);
    RunsTwo(System(w, phase[t := ToForget(b)]), Forget(t), s1, Leave(t), System(Pop(Unmark(w, b), t), phase));
  }

  /** What the owner check of an unload lets through. */
  predicate MayUnload(w: World, t: Thread, b: Bundle) {
    b in w.store.bundles && (b in w.residents ==> w.residents[b].owner == t)
  }

  function UnloadSections(s: System, t: Thread, b: Bundle, busy: bool): seq<Section> {
    [UnloadCheck(t, b)] +
    if !MayUnload(s.w, t, b) then [] else [InvalidateLocked(t, busy)] + if busy then [] else [ReleaseTaken(t)]
  }

  lemma InvalidateAndRelease(s: System, t: Thread, b: Bundle)
    requires !s.w.aborted && t !in s.phase && MayUnload(s.w, t, b)
    ensures Runs(System(s.w, s.phase[t := ToInvalidate(b)]), [InvalidateLocked(t, false), ReleaseTaken(t)],
      s.(w := Unload(s.w, t, b, false).0))
  {
    var r := Previous(s.w, b);
    var s1 := System(s.w, s.phase[t := ToInvalidate(b)]);
    var s2 := System(Invalidate(s.w, b), s.phase[t := ToRelease(b, r)]);
    PhaseCleared(s.phase, t, ToInvalidate(b), ToRelease(b, r));
    PhaseCleared(s.phase, t, ToRelease(b, r), ToRelease(b, r));
    RunsTwo(s1, InvalidateLocked(t, false), s2, ReleaseTaken(t), s.(w := Unload(s.w, t, b, false).0));
  }

  lemma UnloadIsItsSections(s: System, t: Thread, b: Bundle, busy: bool)
    requires !s.w.aborted && t !in s.phase
    ensures Runs(s, UnloadSections(s, t, b, busy), s.(w := Unload(s.w, t, b, busy).0))
  {
    var end := s.(w := Unload(s.w, t, b, busy).0);
    var s1 := System(s.w, s.phase[t := ToInvalidate(b)]);
    if !MayUnload(s.w, t, b) {
      RunsOne(s, UnloadCheck(t, b), end);
      assert UnloadSections(s, t, b, busy) == [UnloadCheck(t, b)];
    } else if busy {
      PhaseCleared(s.phase, t, ToInvalidate(b), ToInvalidate(b));
      RunsTwo(s, UnloadCheck(t, b), s1, InvalidateLocked(t, busy), end);
      assert UnloadSections(s, t, b, busy) == [UnloadCheck(t, b), InvalidateLocked(t, busy)];
    } else {
      InvalidateAndRelease(s, t, b);
      RunsCons(s, UnloadCheck(t, b), s1, [InvalidateLocked(t, false), ReleaseTaken(t)], end);
      assert UnloadSections(s, t, b, busy) == [UnloadCheck(t, b)] + [InvalidateLocked(t, false), ReleaseTaken(t)];
    }
  }
}
