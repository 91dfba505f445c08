/**
  The same calls cut into their lock sections, which the sections of other threads may
  come between: a begin checks, prepares, marks and pushes; a commit takes its transaction,
  publishes, pops and unmarks; an abort takes, releases, unmarks and pops; an unload checks
  whose resident it is, invalidates under all locks, and releases afterwards. What is only
  ever touched by its own thread, the thread's transactions and init stack, needs no finer cut.
 */
module TransactionSections {
  import opened Basics
  import opened ThreadLists
  import opened RegistryStore
  import opened RegistryInvariant
  import opened StoreEffects
  import opened Transactions
  import opened ResidentRuns
  import TransactionRuns

  /** What a thread inside a call has yet to do. */
  datatype Phase =
    | ToPrepare(b: Bundle)
    | ToMark(b: Bundle)
    | ToPush(b: Bundle)
    | ToPublish(txn: Txn, accepted: bool)
    | ToPop(b: Bundle, ok: bool)
    | ToUnmark(b: Bundle)
    | ToDiscard(txn: Txn)
    | ToForget(b: Bundle)
    | ToLeave(b: Bundle)
    | ToInvalidate(b: Bundle)
    | ToRelease(b: Bundle, resident: Option<Resident>)

  datatype System = System(w: World, phase: map<Thread, Phase>)

  datatype Section =
    | BeginCheck(t: Thread, b: Bundle, valid: bool)
    | Prepare(t: Thread)
    | Mark(t: Thread)
    | Push(t: Thread)
    | StageOne(t: Thread, x: Provider)
    | AttachOne(t: Thread, b: Bundle, owner: Thread, wellFormed: bool)
    | CommitTake(t: Thread, b: Bundle, accepted: bool)
    | Publish(t: Thread)
    | PopStack(t: Thread)
    | DropMark(t: Thread)
    | AbortTake(t: Thread, b: Bundle)
    | Discard(t: Thread)
    | Forget(t: Thread)
    | Leave(t: Thread)
    | LoadWhole(t: Thread, b: Bundle, providers: seq<Provider>, accepted: bool)
    | UnloadCheck(t: Thread, b: Bundle)
    | InvalidateLocked(t: Thread, busy: bool)
    | ReleaseTaken(t: Thread)

  predicate Idle(s: System, t: Thread) { t !in s.phase }

  predicate Enabled(s: System, c: Section) {
    match c
    case BeginCheck(t, _, _) => Idle(s, t)
    case StageOne(t, _) => Idle(s, t)
    case AttachOne(t, _, _, _) => Idle(s, t)
    case CommitTake(t, _, _) => Idle(s, t)
    case AbortTake(t, _) => Idle(s, t)
    case LoadWhole(t, _, _, _) => Idle(s, t)
    case UnloadCheck(t, _) => Idle(s, t)
    case Prepare(t) => t in s.phase && s.phase[t].ToPrepare?
    case Mark(t) => t in s.phase && s.phase[t].ToMark?
    case Push(t) => t in s.phase && s.phase[t].ToPush?
    case Publish(t) => t in s.phase && s.phase[t].ToPublish?
    case PopStack(t) => t in s.phase && s.phase[t].ToPop?
    case DropMark(t) => t in s.phase && s.phase[t].ToUnmark?
    case Discard(t) => t in s.phase && s.phase[t].ToDiscard?
    case Forget(t) => t in s.phase && s.phase[t].ToForget?
    case Leave(t) => t in s.phase && s.phase[t].ToLeave?
    case InvalidateLocked(t, _) => t in s.phase && s.phase[t].ToInvalidate?
    case ReleaseTaken(t) => t in s.phase && s.phase[t].ToRelease?
  }

  function Go(s: System, t: Thread, w: World, next: Phase): System { System(w, s.phase[t := next]) }

  function Return(s: System, t: Thread, w: World): System { System(w, s.phase - {t}) }

  /** The owner assertion of a release. */
  predicate MayRelease(r: Option<Resident>, t: Thread) { r.Some? ==> r.value.owner == t }

  function Apply(s: System, c: Section): System
    requires Enabled(s, c)
  {
    var w := s.w;
    match c
    case BeginCheck(t, b, valid) => if !valid || b in w.store.bundles then s else Go(s, t, w, ToPrepare(b))
    case Prepare(t) => Go(s, t, w.(prepared := Pushed(w.prepared, t, Txn(s.phase[t].b, [], None))),
      ToMark(s.phase[t].b))
    case Mark(t) => Go(s, t, w.(marks := w.marks + {s.phase[t].b}), ToPush(s.phase[t].b))
    case Push(t) => Return(s, t, w.(stacks := Pushed(w.stacks, t, s.phase[t].b)))
    case StageOne(t, x) => s.(w := Stage(w, t, x).0)
    case AttachOne(t, b, owner, wellFormed) => s.(w := Attach(w, t, b, owner, wellFormed).0)
    case CommitTake(t, b, accepted) =>
      (match OpenAt(w, t, b)
       case None => Go(s, t, w, ToPop(b, false))
       case Some(k) => Go(s, t, Take(w, t, k), ToPublish(Prepared(w, t)[k], accepted)))
    case Publish(t) =>
      var txn := s.phase[t].txn;
      var (w', reply) := PublishTxn(w, t, txn, s.phase[t].accepted);
      Go(s, t, w', ToPop(txn.bundle, reply.Handles?))
    case PopStack(t) =>
      if s.phase[t].ok then Return(s, t, Pop(w, t)) else Go(s, t, Pop(w, t), ToUnmark(s.phase[t].b))
    case DropMark(t) => Return(s, t, Unmark(w, s.phase[t].b))
    case AbortTake(t, b) =>
      (match OpenAt(w, t, b)
       case None => s
       case Some(k) => Go(s, t, Take(w, t, k), ToDiscard(Prepared(w, t)[k])))
    case Discard(t) => Go(s, t, Drop(w, t, s.phase[t].txn.resident), ToForget(s.phase[t].txn.bundle))
    case Forget(t) => Go(s, t, Unmark(w, s.phase[t].b), ToLeave(s.phase[t].b))
    case Leave(t) => Return(s, t, Pop(w, t))
    case LoadWhole(t, b, providers, accepted) => s.(w := Load(w, b, providers, accepted).0)
    case UnloadCheck(t, b) =>
      if b !in w.store.bundles || (b in w.residents && w.residents[b].owner != t) then s
        else Go(s, t, w, ToInvalidate(b))
    case InvalidateLocked(t, busy) =>
      var b := s.phase[t].b;
      if busy then Return(s, t, w) else Go(s, t, Invalidate(w, b), ToRelease(b, Previous(w, b)))
    case ReleaseTaken(t) =>
      if MayRelease(s.phase[t].resident, t) then Return(s, t, Drop(w, t, s.phase[t].resident))
      else s.(w := w.(aborted := true))
  }

  /** One section from `s` to `s'`; after an abort there is none. */
  predicate Leads(s: System, c: Section, s': System) { !s.w.aborted && Enabled(s, c) && s' == Apply(s, c) }

  ghost predicate Run(p: seq<System>, steps: seq<Section>) {
    && |p| == |steps| + 1 && p[0] == System(FRESH, map[])
    && forall i {:trigger steps[i]} :: 0 <= i < |steps| ==> Leads(p[i], steps[i], p[i + 1])
  }

  // ------------------------------------------------------- residents in hand

  /** A transaction, or a live resident, that a thread took out and has not disposed of. */
  function InHand(s: System, t: Thread): seq<Txn> {
    if t !in s.phase then [] else
      match s.phase[t]
      case ToPublish(txn, _) => [txn]
      case ToDiscard(txn) => [txn]
      case ToRelease(b, r) => [Txn(b, [], r)]
      case _ => []
  }

  /** The world as if what a thread has in hand were the last entry of its list. */
  function Shadow(s: System): World {
    s.w.(prepared := map t | t in s.w.prepared.Keys + s.phase.Keys :: Prepared(s.w, t) + InHand(s, t))
  }

  /** `v` shows the residents of `s`, those in hand included. */
  ghost predicate Shows(v: World, s: System) {
    && v.residents == s.w.residents && v.attached == s.w.attached && v.released == s.w.released
    && forall t :: Prepared(v, t) == Prepared(s.w, t) + InHand(s, t)
  }

  lemma ShadowShows(s: System)
    ensures Shows(Shadow(s), s)
  {
  }

  /** Residents of transactions in hand belong to the thread. */
  ghost predicate OwnHands(phase: map<Thread, Phase>) {
    forall t :: t in phase && (phase[t].ToPublish? || phase[t].ToDiscard?) && phase[t].txn.resident.Some? ==>
      phase[t].txn.resident.value.owner == t
  }

  ghost predicate Sound(s: System) {
    StoreOk(s.w) && StagedByOwner(s.w) && OwnHands(s.phase) && Conserved(Shadow(s))
  }

  // ------------------------------------------------------- moves between the lists

  lemma KeptConserves(v: World, v': World)
    requires Conserved(v) && v'.residents == v.residents && v'.attached == v.attached && v'.released == v.released
    requires forall u :: Prepared(v', u) == Prepared(v, u)
    ensures Conserved(v')
  {
    assert forall p :: At(v', p) == At(v, p);
    UnmovedConserves(v, v');
  }

  lemma AppendedConserves(v: World, v': World, t: Thread, txn: Txn)
    requires Conserved(v) && v'.residents == v.residents && v'.attached == v.attached && v'.released == v.released
    requires txn.resident.None?
    requires forall u :: Prepared(v', u) == if u == t then Prepared(v, t) + [txn] else Prepared(v, u)
    ensures Conserved(v')
  {
    assert forall p :: At(v', p) == At(v, p);
    UnmovedConserves(v, v');
  }

  /** Entry `k` of thread `t` was replaced by `txn`. */
  ghost predicate Replaced(v: World, v': World, t: Thread, k: nat, txn: Txn) {
    && k < |Prepared(v, t)| && v'.residents == v.residents
    && forall u :: Prepared(v', u) == if u == t then Prepared(v, t)[k := txn] else Prepared(v, u)
  }

  lemma ReplacedAt(v: World, v': World, t: Thread, k: nat, txn: Txn)
    requires Replaced(v, v', t, k, txn)
    ensures At(v', InTxn(t, k)) == txn.resident && At(v, InTxn(t, k)) == Prepared(v, t)[k].resident
    ensures forall q :: q != InTxn(t, k) ==> At(v', q) == At(v, q)
  {
  }

  lemma RestagedConserves(v: World, v': World, t: Thread, k: nat, txn: Txn)
    requires Conserved(v) && Replaced(v, v', t, k, txn) && v'.attached == v.attached && v'.released == v.released
    requires txn.resident == Prepared(v, t)[k].resident
    ensures Conserved(v')
  {
    ReplacedAt(v, v', t, k, txn);
    UnmovedConserves(v, v');
  }

  /** Entry `k` of thread `t` was put last. */
  lemma RotatedConserves(v: World, v': World, t: Thread, k: nat)
    requires Conserved(v) && v'.residents == v.residents && v'.attached == v.attached && v'.released == v.released
    requires k < |Prepared(v, t)| && Prepared(v', t) == Without(Prepared(v, t), k) + [Prepared(v, t)[k]]
    requires forall u :: u != t ==> Prepared(v', u) == Prepared(v, u)
    ensures Conserved(v')
  {
    var list := Prepared(v, t);
    var r := InTxn(t, |list| - 1);
    forall q | q != r
      ensures At(v', q) == At(v, Back(t, k, q))
    {
      RotatedAt(v, v', t, k, q);
    }
    CarriedConserves(v, v', t, k, r);
  }

  lemma RotatedAt(v: World, v': World, t: Thread, k: nat, q: Place)
    requires v'.residents == v.residents
    requires k < |Prepared(v, t)| && Prepared(v', t) == Without(Prepared(v, t), k) + [Prepared(v, t)[k]]
    requires forall u :: u != t ==> Prepared(v', u) == Prepared(v, u)
    requires q != InTxn(t, |Prepared(v, t)| - 1)
    ensures At(v', q) == At(v, Back(t, k, q))
  {
    if q.InTxn? && q.t == t && q.k < |Prepared(v, t)| - 1 { WithoutAt(Prepared(v, t), k, q.k); }
  }

  /** The live resident of `b`, if there is one, went to the end of thread `t`'s list. */
  lemma TakenOutConserves(v: World, v': World, t: Thread, b: Bundle)
    requires Conserved(v) && v'.residents == v.residents - {b} && v'.attached == v.attached && v'.released == v.released
    requires Prepared(v', t) == Prepared(v, t) + [Txn(b, [], Previous(v, b))]
    requires forall u :: u != t ==> Prepared(v', u) == Prepared(v, u)
    ensures Conserved(v')
  {
    var r := InTxn(t, |Prepared(v, t)|);
    assert At(v', r) == At(v, InBundle(b)) && At(v, r) == None && At(v', InBundle(b)) == None;
    forall q | q != r && q != InBundle(b)
      ensures At(v', q) == At(v, q)
    {
    }
    MoveConserves(v, v', InBundle(b), r);
  }

  /** A resident, if there is one at `p`, moves to the empty place `r`. */
  lemma MoveConserves(w: World, w': World, p: Place, r: Place)
    requires Conserved(w) && p != r && At(w, r).None? && At(w', p).None? && At(w', r) == At(w, p)
    requires forall q :: q != p && q != r ==> At(w', q) == At(w, q)
    requires w'.attached == w.attached && w'.released == w.released
    ensures Conserved(w')
  {
    forall n
      ensures IsHeld(w', n) <==> IsHeld(w, n)
    {
      if IsHeld(w, n) {
        var q :| At(w, q).Some? && At(w, q).value.id == n;
        assert At(w', if q == p then r else q).value.id == n;
      }
      if IsHeld(w', n) {
        var q :| At(w', q).Some? && At(w', q).value.id == n;
        assert At(w, if q == r then p else q).value.id == n;
      }
    }
    assert w.released + multiset({}) == w.released;
    RelocateConserves(w, w', {});
  }

  // ------------------------------------------------------- what sections keep

  /** Only thread `t` changed what it has in hand, from `before` to `after`. */
  ghost predicate HandOf(s: System, s': System, t: Thread, before: seq<Txn>, after: seq<Txn>) {
    && InHand(s, t) == before && InHand(s', t) == after
    && forall u :: u != t ==> InHand(s', u) == InHand(s, u)
  }

  /** Sections that move no resident. */
  lemma QuietConserves(s: System, s': System, v: World, v': World)
    requires Conserved(v) && Shows(v, s) && Shows(v', s') && s'.w.prepared == s.w.prepared
    requires s'.w.residents == s.w.residents
    requires s'.w.attached == s.w.attached && s'.w.released == s.w.released && forall t :: InHand(s', t) == InHand(s, t)
    ensures Conserved(v')
  {
    assert forall u :: Prepared(s'.w, u) == Prepared(s.w, u);
    KeptConserves(v, v');
  }

  lemma PrepareConserves(s: System, s': System, v: World, v': World, t: Thread, txn: Txn)
    requires Conserved(v) && Shows(v, s) && Shows(v', s') && HandOf(s, s', t, [], []) && txn.resident.None?
    requires s'.w == s.w.(prepared := Pushed(s.w.prepared, t, txn))
    ensures Conserved(v')
  {
    PushedOf(s.w.prepared, t, txn);
    AppendedConserves(v, v', t, txn);
  }

  lemma UpdateReplaces(s: System, s': System, v: World, v': World, t: Thread, k: nat, txn: Txn)
    requires Shows(v, s) && Shows(v', s') && HandOf(s, s', t, [], []) && k < |Prepared(s.w, t)|
    requires s'.w.prepared == Put(s.w.prepared, t, Prepared(s.w, t)[k := txn]) && s'.w.residents == s.w.residents
    ensures Replaced(v, v', t, k, txn) && Prepared(v, t) == Prepared(s.w, t)
  {
    PutOf(s.w.prepared, t, Prepared(s.w, t)[k := txn]);
  }

  lemma StageConserves(s: System, s': System, v: World, v': World, t: Thread, x: Provider)
    requires Conserved(v) && Shows(v, s) && Shows(v', s') && HandOf(s, s', t, [], []) && s'.w == Stage(s.w, t, x).0
    ensures Conserved(v')
  {
    var stack := Stack(s.w, t);
    if stack == [] || OpenAt(s.w, t, stack[|stack| - 1]).None? {
      QuietConserves(s, s', v, v');
    } else {
      var k := OpenAt(s.w, t, stack[|stack| - 1]).value;
      var txn := Prepared(s.w, t)[k];
      var txn' := txn.(providers := txn.providers + [x]);
      UpdateReplaces(s, s', v, v', t, k, txn');
      RestagedConserves(v, v', t, k, txn');
    }
  }

  lemma AttachOneConserves(s: System, s': System, v: World, v': World, t: Thread, b: Bundle, owner: Thread,
      wellFormed: bool)
    requires Conserved(v) && Shows(v, s) && Shows(v', s') && HandOf(s, s', t, [], [])
    requires s'.w == Attach(s.w, t, b, owner, wellFormed).0
    ensures Conserved(v')
  {
    if Attach(s.w, t, b, owner, wellFormed).1.Done? {
      var k := OpenAt(s.w, t, b).value;
      var txn := Prepared(s.w, t)[k].(resident := Some(Resident(s.w.attached, owner)));
      UpdateReplaces(s, s', v, v', t, k, txn);
      ReplacedAt(v, v', t, k, txn);
      AttachConserves(v, v', InTxn(t, k), owner);
    } else {
      QuietConserves(s, s', v, v');
    }
  }

  lemma TakeConserves(s: System, s': System, v: World, v': World, t: Thread, k: nat)
    requires Conserved(v) && Shows(v, s) && Shows(v', s') && k < |Prepared(s.w, t)| && s'.w == Take(s.w, t, k)
    requires HandOf(s, s', t, [], [Prepared(s.w, t)[k]])
    ensures Conserved(v')
  {
    TakeEnds(s.w, t, k);
    assert Prepared(v, t) == Prepared(s.w, t);
    RotatedConserves(v, v', t, k);
  }

  /** What a thread has in hand is the last entry of its list. */
  lemma HandIsLast(s: System, s': System, v: World, v': World, t: Thread, txn: Txn)
    requires Shows(v, s) && Shows(v', s') && HandOf(s, s', t, [txn], []) && s'.w.prepared == s.w.prepared
    ensures Ended(v, v', t, |Prepared(s.w, t)|) && Prepared(v, t)[|Prepared(s.w, t)|] == txn
  {
    var list := Prepared(s.w, t);
    assert forall u :: Prepared(s'.w, u) == Prepared(s.w, u);
    assert Without(list + [txn], |list|) == list;
  }

  lemma DropConserves(s: System, s': System, v: World, v': World, t: Thread, txn: Txn)
    requires Conserved(v) && Shows(v, s) && Shows(v', s') && HandOf(s, s', t, [txn], [])
    requires s'.w == Drop(s.w, t, txn.resident) && MayRelease(txn.resident, t)
    ensures Conserved(v')
  {
    HandIsLast(s, s', v, v', t, txn);
    EndReleases(v, v', t, |Prepared(s.w, t)|, txn.resident);
  }

  lemma PublishConserves(s: System, s': System, v: World, v': World, t: Thread, txn: Txn, accepted: bool)
    requires Conserved(v) && Shows(v, s) && Shows(v', s') && HandOf(s, s', t, [txn], []) && StoreOk(s.w)
    requires s'.w == PublishTxn(s.w, t, txn, accepted).0 && MayRelease(txn.resident, t)
    ensures Conserved(v')
  {
    if PublishTxn(s.w, t, txn, accepted).1.Refusal? {
      DropConserves(s, s', v, v', t, txn);
    } else {
      assert txn.bundle !in s.w.store.bundles;
      assert txn.bundle !in s.w.residents;
      HandIsLast(s, s', v, v', t, txn);
      EndAdopts(v, v', t, |Prepared(s.w, t)|, txn.bundle, txn.resident);
    }
  }

  lemma InvalidateConserves(s: System, s': System, v: World, v': World, t: Thread, b: Bundle)
    requires Conserved(v) && Shows(v, s) && Shows(v', s') && HandOf(s, s', t, [], [Txn(b, [], Previous(s.w, b))])
    requires s'.w == Invalidate(s.w, b)
    ensures Conserved(v')
  {
    assert forall u :: Prepared(s'.w, u) == Prepared(s.w, u);
    TakenOutConserves(v, v', t, b);
  }

  /** Sections that touch neither lists nor residents. */
  predicate Quiet(c: Section) {
    || c.BeginCheck? || c.Mark? || c.Push? || c.PopStack? || c.DropMark? || c.Forget? || c.Leave?
    || c.LoadWhole? || c.UnloadCheck?
  }

  predicate Listing(c: Section) { c.Prepare? || c.StageOne? || c.AttachOne? }

  predicate Taking(c: Section) { c.CommitTake? || c.AbortTake? }

  lemma OthersKeepPhase(s: System, c: Section, u: Thread)
    requires Enabled(s, c) && c.t != u
    ensures (u in Apply(s, c).phase <==> u in s.phase) && (u in s.phase ==> Apply(s, c).phase[u] == s.phase[u])
  {
  }

  lemma QuietWorld(s: System, c: Section)
    requires Enabled(s, c) && Quiet(c)
    ensures var w, w' := s.w, Apply(s, c).w;
      && w'.prepared == w.prepared && w'.residents == w.residents && w'.attached == w.attached
      && w'.released == w.released && w'.aborted == w.aborted
  {
  }

  lemma QuietHands(s: System, c: Section)
    requires Enabled(s, c) && Quiet(c)
    ensures forall t :: InHand(Apply(s, c), t) == InHand(s, t)
  {
    forall t
      ensures InHand(Apply(s, c), t) == InHand(s, t)
    {
      if t != c.t { OthersKeepPhase(s, c, t); }
    }
  }

  lemma ListingHands(s: System, c: Section)
    requires Enabled(s, c) && Listing(c)
    ensures HandOf(s, Apply(s, c), c.t, [], [])
  {
  }

  lemma ListingConserves(s: System, c: Section, v: World, v': World)
    requires Enabled(s, c) && Listing(c) && Conserved(v) && Shows(v, s) && Shows(v', Apply(s, c))
    ensures Conserved(v')
  {
    ListingHands(s, c);
    match c
    case Prepare(t) => PrepareConserves(s, Apply(s, c), v, v', t, Txn(s.phase[t].b, [], None));
    case StageOne(t, x) => StageConserves(s, Apply(s, c), v, v', t, x);
    case AttachOne(t, b, owner, wellFormed) => AttachOneConserves(s, Apply(s, c), v, v', t, b, owner, wellFormed);
  }

  lemma TakingHands(s: System, c: Section)
    requires Enabled(s, c) && Taking(c)
    ensures var s', k := Apply(s, c), OpenAt(s.w, c.t, c.b);
      && (k.None? ==> s'.w == s.w && forall t :: InHand(s', t) == InHand(s, t))
      && (k.Some? ==> s'.w == Take(s.w, c.t, k.value) && HandOf(s, s', c.t, [], [Prepared(s.w, c.t)[k.value]]))
  {
  }

  lemma TakingConserves(s: System, c: Section, s': System, v: World, v': World)
    requires Enabled(s, c) && Taking(c) && s' == Apply(s, c) && Conserved(v) && Shows(v, s) && Shows(v', s')
    ensures Conserved(v')
  {
    TakingHands(s, c);
    match OpenAt(s.w, c.t, c.b)
    case None => QuietConserves(s, s', v, v');
    case Some(k) => TakeConserves(s, s', v, v', c.t, k);
  }

  lemma PublishHands(s: System, t: Thread)
    requires Enabled(s, Publish(t))
    ensures var s' := Apply(s, Publish(t));
      HandOf(s, s', t, [s.phase[t].txn], []) && s'.w == PublishTxn(s.w, t, s.phase[t].txn, s.phase[t].accepted).0
  {
  }

  /** What a discarding or releasing thread has in hand, and whether its owner assertion holds. */
  function Dropped(s: System, c: Section): (txn: Txn)
    requires Enabled(s, c) && (c.Discard? || c.ReleaseTaken?)
    ensures InHand(s, c.t) == [txn]
  {
    if c.Discard? then s.phase[c.t].txn else Txn(s.phase[c.t].b, [], s.phase[c.t].resident)
  }

  lemma DropHands(s: System, c: Section)
    requires Enabled(s, c) && (c.Discard? || c.ReleaseTaken?) && OwnHands(s.phase)
    ensures c.Discard? ==> MayRelease(Dropped(s, c).resident, c.t)
    ensures MayRelease(Dropped(s, c).resident, c.t) ==>
      HandOf(s, Apply(s, c), c.t, [Dropped(s, c)], []) && Apply(s, c).w == Drop(s.w, c.t, Dropped(s, c).resident)
    ensures !MayRelease(Dropped(s, c).resident, c.t) ==> Apply(s, c) == s.(w := s.w.(aborted := true))
  {
  }

  lemma InvalidateHands(s: System, t: Thread, busy: bool)
    requires Enabled(s, InvalidateLocked(t, busy))
    ensures var s', b := Apply(s, InvalidateLocked(t, busy)), s.phase[t].b;
      && (busy ==> s'.w == s.w && forall u :: InHand(s', u) == InHand(s, u))
      && (!busy ==> s'.w == Invalidate(s.w, b) && HandOf(s, s', t, [], [Txn(b, [], Previous(s.w, b))]))
  {
  }

  lemma HandConserves(s: System, c: Section, s': System, v: World, v': World)
    requires Enabled(s, c) && s' == Apply(s, c) && StoreOk(s.w) && OwnHands(s.phase)
    requires Conserved(v) && Shows(v, s) && Shows(v', s')
    requires c.Publish? || c.Discard? || c.ReleaseTaken? || c.InvalidateLocked?
    ensures Conserved(v')
  {
    if c.Publish? {
      PublishHands(s, c.t);
      PublishConserves(s, s', v, v', c.t, s.phase[c.t].txn, s.phase[c.t].accepted);
    } else if c.InvalidateLocked? {
      InvalidateHands(s, c.t, c.busy);
      if c.busy { QuietConserves(s, s', v, v'); } else { InvalidateConserves(s, s', v, v', c.t, s.phase[c.t].b); }
    } else {
      DropHands(s, c);
      var txn := Dropped(s, c);
      if MayRelease(txn.resident, c.t) { DropConserves(s, s', v, v', c.t, txn); } else { QuietConserves(s, s', v, v'); }
    }
  }

  lemma SectionConserves(s: System, c: Section, s': System, v: World, v': World)
    requires Enabled(s, c) && s' == Apply(s, c) && StoreOk(s.w) && OwnHands(s.phase)
    requires Conserved(v) && Shows(v, s) && Shows(v', s')
    ensures Conserved(v')
  {
    if Quiet(c) {
      QuietWorld(s, c);
      QuietHands(s, c);
      QuietConserves(s, s', v, v');
    } else if Listing(c) {
      ListingConserves(s, c, v, v');
    } else if Taking(c) {
      TakingConserves(s, c, s', v, v');
    } else {
      HandConserves(s, c, s', v, v');
    }
  }

  // ------------------------------------------------------- owners and store

  lemma SectionKeepsStore(s: System, c: Section)
    requires Enabled(s, c) && StoreOk(s.w)
    ensures StoreOk(Apply(s, c).w)
  {
    match c
    case StageOne(t, x) => StageKeepsStore(s.w, t, x);
    case Publish(t) => PublishTxnKeepsStore(s.w, t, s.phase[t].txn, s.phase[t].accepted);
    case LoadWhole(_, b, providers, accepted) =>
      if Load(s.w, b, providers, accepted).1.Handles? { PublishKeepsStore(s.w.store, b, providers); }
    case InvalidateLocked(t, _) =>
      if s.phase[t].b in s.w.store.bundles { InvalidateTheorem(s.w.store, s.phase[t].b, {}); }
    case _ =>
  }

  lemma StageKeepsStore(w: World, t: Thread, x: Provider)
    requires StoreOk(w)
    ensures StoreOk(Stage(w, t, x).0)
  {
    var stack := Stack(w, t);
    if stack != [] && Register(w.store, x.For(stack[|stack| - 1])).Some? {
      AddTheorem(w.store, x.For(stack[|stack| - 1]), {});
    }
  }

  lemma PublishTxnKeepsStore(w: World, t: Thread, txn: Txn, accepted: bool)
    requires StoreOk(w)
    ensures var (w', reply) := PublishTxn(w, t, txn, accepted);
      StoreOk(w') && (reply.Handles? ==> PublishedAs(w, w', txn.bundle, txn.providers, reply.handles))
  {
    if PublishTxn(w, t, txn, accepted).1.Handles? { PublishKeepsStore(w.store, txn.bundle, txn.providers); }
  }

  /** Lists and hands change only by an empty, an own or a taken transaction. */
  lemma SectionKeepsOwners(s: System, c: Section)
    requires Enabled(s, c) && StagedByOwner(s.w) && OwnHands(s.phase)
    ensures StagedByOwner(Apply(s, c).w) && OwnHands(Apply(s, c).phase)
  {
    var s' := Apply(s, c);
    match c
    case Prepare(t) => PushStaged(s.w, s'.w, t, Txn(s.phase[t].b, [], None));
    case StageOne(t, x) => StageStaged(s.w, t, x);
    case AttachOne(t, b, owner, wellFormed) => AttachStaged(s.w, t, b, owner, wellFormed);
    case CommitTake(t, b, _) => TakeStaged(s, c);
    case AbortTake(t, b) => TakeStaged(s, c);
    case _ => assert forall u :: Prepared(s'.w, u) == Prepared(s.w, u);
  }

  lemma PushStaged(w: World, w': World, t: Thread, txn: Txn)
    requires StagedByOwner(w) && txn.resident.None? && w'.prepared == Pushed(w.prepared, t, txn)
    ensures StagedByOwner(w')
  {
    PushedOf(w.prepared, t, txn);
    forall u, j | 0 <= j < |Prepared(w', u)| && Prepared(w', u)[j].resident.Some?
      ensures Prepared(w', u)[j].resident.value.owner == u
    {
      assert j < |Prepared(w, u)| && Prepared(w', u)[j] == Prepared(w, u)[j];
    }
  }

  lemma StageStaged(w: World, t: Thread, x: Provider)
    requires StagedByOwner(w)
    ensures StagedByOwner(Stage(w, t, x).0)
  {
    var stack, w' := Stack(w, t), Stage(w, t, x).0;
    if stack == [] || OpenAt(w, t, stack[|stack| - 1]).None? {
      assert forall u :: Prepared(w', u) == Prepared(w, u);
    } else {
      var k := OpenAt(w, t, stack[|stack| - 1]).value;
      UpdateStaged(w, w', t, k, Prepared(w, t)[k].(providers := Prepared(w, t)[k].providers + [x]));
    }
  }

  lemma AttachStaged(w: World, t: Thread, b: Bundle, owner: Thread, wellFormed: bool)
    requires StagedByOwner(w)
    ensures StagedByOwner(Attach(w, t, b, owner, wellFormed).0)
  {
    var (w', reply) := Attach(w, t, b, owner, wellFormed);
    if reply.Done? {
      var k := OpenAt(w, t, b).value;
      UpdateStaged(w, w', t, k, Prepared(w, t)[k].(resident := Some(Resident(w.attached, owner))));
    }
  }

  lemma TakeStaged(s: System, c: Section)
    requires Taking(c) && Enabled(s, c) && StagedByOwner(s.w) && OwnHands(s.phase)
    ensures StagedByOwner(Apply(s, c).w) && OwnHands(Apply(s, c).phase)
  {
    match OpenAt(s.w, c.t, c.b)
    case None =>
    case Some(k) =>
      TakeEnds(s.w, c.t, k);
      EndedStaged(s.w, Take(s.w, c.t, k), c.t, k);
  }

  lemma SectionKeepsSound(s: System, c: Section)
    requires Sound(s) && Enabled(s, c)
    ensures Sound(Apply(s, c))
  {
    SectionKeepsStore(s, c);
    SectionKeepsOwners(s, c);
    ShadowShows(s);
    ShadowShows(Apply(s, c));
    SectionConserves(s, c, Apply(s, c), Shadow(s), Shadow(Apply(s, c)));
  }

  lemma StartIsSound()
    ensures Sound(System(FRESH, map[]))
  {
    var s := System(FRESH, map[]);
    assert forall p :: At(Shadow(s), p).None?;
    assert forall t :: Prepared(FRESH, t) == [];
  }

  lemma {:induction false} RunKeepsSound(p: seq<System>, steps: seq<Section>, i: nat)
    requires Run(p, steps) && i < |p|
    ensures Sound(p[i])
  {
    if i == 0 {
      StartIsSound();
    } else {
      RunKeepsSound(p, steps, i - 1);
      SectionKeepsSound(p[i - 1], steps[i - 1]);
    }
  }

  // ------------------------------------------------------- what is published

  /** What a section from `s` to `s'` does to what is published. */
  ghost predicate SectionPublishesRight(s: System, s': System, c: Section)
    requires Enabled(s, c)
  {
    match c
    case Publish(t) =>
      var txn, reply := s.phase[t].txn, PublishTxn(s.w, t, s.phase[t].txn, s.phase[t].accepted).1;
      PublishesOrNot(s.w, s'.w, txn.bundle, txn.providers, reply)
    case LoadWhole(t, b, providers, accepted) =>
      PublishesOrNot(s.w, s'.w, b, providers, Load(s.w, b, providers, accepted).1)
    case InvalidateLocked(t, busy) =>
      s'.w.store == if busy then s.w.store else InvalidateBundle(s.w.store, s.phase[t].b)
    case StageOne(t, x) => s'.w.store != s.w.store <==> TransactionRuns.StagesDirectly(s.w, t, x)
    case _ => s'.w.store == s.w.store
  }

  /** The whole list is published, one handle each, or nothing. */
  ghost predicate PublishesOrNot(w: World, w': World, b: Bundle, providers: seq<Provider>, reply: Reply) {
    if reply.Handles? then PublishedAs(w, w', b, providers, reply.handles) else w'.store == w.store
  }

  lemma LoadPublishes(w: World, b: Bundle, providers: seq<Provider>, accepted: bool)
    requires StoreOk(w)
    ensures PublishesOrNot(w, Load(w, b, providers, accepted).0, b, providers, Load(w, b, providers, accepted).1)
  {
    if Load(w, b, providers, accepted).1.Handles? { PublishKeepsStore(w.store, b, providers); }
  }

  /** In every interleaving, each lock section publishes whole lists or nothing. */
  lemma SectionsPublishWhole(p: seq<System>, steps: seq<Section>, i: nat)
    requires Run(p, steps) && i < |steps|
    ensures SectionPublishesRight(p[i], p[i + 1], steps[i])
  {
    RunKeepsSound(p, steps, i);
    match steps[i]
    case Publish(t) => PublishTxnKeepsStore(p[i].w, t, p[i].phase[t].txn, p[i].phase[t].accepted);
    case LoadWhole(_, b, providers, accepted) => LoadPublishes(p[i].w, b, providers, accepted);
    case StageOne(t, x) => TransactionRuns.StagePublishesRight(p[i].w, t, x);
    case _ =>
  }

  /** A section of another thread leaves a thread's transactions, init stack and hand alone. */
  ghost predicate SameFor(s: System, s': System, u: Thread) {
    && Prepared(s'.w, u) == Prepared(s.w, u) && Stack(s'.w, u) == Stack(s.w, u)
    && (u in s'.phase <==> u in s.phase) && (u in s.phase ==> s'.phase[u] == s.phase[u])
  }

  lemma OthersKeepLists(s: System, c: Section, u: Thread)
    requires Enabled(s, c) && c.t != u
    ensures Prepared(Apply(s, c).w, u) == Prepared(s.w, u)
  {
    if Quiet(c) { QuietWorld(s, c); }
  }

  lemma OthersKeepStacks(s: System, c: Section, u: Thread)
    requires Enabled(s, c) && c.t != u
    ensures Stack(Apply(s, c).w, u) == Stack(s.w, u)
  {
    if c.PopStack? || c.Leave? { PoppedOf(s.w.stacks, c.t); }
  }

  lemma OthersLeaveAlone(s: System, c: Section, u: Thread)
    requires Enabled(s, c) && c.t != u
    ensures SameFor(s, Apply(s, c), u)
  {
    OthersKeepLists(s, c, u);
    OthersKeepStacks(s, c, u);
    OthersKeepPhase(s, c, u);
  }

  lemma {:induction false} UntouchedBetween(p: seq<System>, steps: seq<Section>, t: Thread, i: nat, j: nat)
    requires Run(p, steps) && i <= j < |p| && forall m {:trigger steps[m]} :: i <= m < j ==> steps[m].t != t
    ensures SameFor(p[i], p[j], t)
  {
    if i < j {
      UntouchedBetween(p, steps, t, i, j - 1);
      OthersLeaveAlone(p[j - 1], steps[j - 1], t);
    }
  }

  /**
    Whatever other threads do between the take and the publish of a commit, what the publish
    makes visible is the transaction as it was when it was taken, or nothing.
   */
  lemma CommitPublishesWhatItTook(p: seq<System>, steps: seq<Section>, t: Thread, b: Bundle, i: nat, j: nat)
    requires Run(p, steps) && i < j < |steps| && steps[i].CommitTake? && steps[i].t == t && steps[i].b == b
    requires steps[j] == Publish(t)
    requires forall m {:trigger steps[m]} :: i < m < j ==> steps[m].t != t
    ensures OpenAt(p[i].w, t, b).Some? && Enabled(p[j], steps[j])
    ensures var txn := Prepared(p[i].w, t)[OpenAt(p[i].w, t, b).value];
      PublishesOrNot(p[j].w, p[j + 1].w, b, txn.providers, PublishTxn(p[j].w, t, txn, steps[i].accepted).1)
  {
    assert Leads(p[i], steps[i], p[i + 1]) && Leads(p[j], steps[j], p[j + 1]);
    UntouchedBetween(p, steps, t, i + 1, j);
    TakesOut(p[i], t, b, steps[i].accepted);
    SectionsPublishWhole(p, steps, j);
  }

  lemma TakesOut(s: System, t: Thread, b: Bundle, accepted: bool)
    requires Enabled(s, CommitTake(t, b, accepted))
    ensures var s', k := Apply(s, CommitTake(t, b, accepted)), OpenAt(s.w, t, b);
      && t in s'.phase && (s'.phase[t].ToPublish? ==> k.Some?)
      && (k.Some? ==> s'.phase[t] == ToPublish(Prepared(s.w, t)[k.value], accepted))
  {
  }

  // ------------------------------------------------------- who releases a resident

  /**
    In every interleaving, also in one that ends in an abort, a resident is released at most
    once, and until then it is in one place: staged, live, or in the hand of the one thread
    that took it out.
   */
  lemma SectionsReleaseOnce(p: seq<System>, steps: seq<Section>, i: nat)
    requires Run(p, steps) && i < |p|
    ensures forall n: nat :: p[i].w.released[n] <= 1
    ensures forall n: nat :: n < p[i].w.attached ==> (p[i].w.released[n] == 1 <==> !IsHeld(Shadow(p[i]), n))
    ensures Apart(Shadow(p[i]))
  {
    RunKeepsSound(p, steps, i);
    assert Conserved(Shadow(p[i]));
  }

  /** No owner assertion failed, and those that unloads under way are about to make will hold. */
  ghost predicate Guarded(s: System) {
    && !s.w.aborted
    && (forall t :: t in s.phase && s.phase[t].ToInvalidate? && s.phase[t].b in s.w.residents ==>
          s.w.residents[s.phase[t].b].owner == t)
    && (forall t :: t in s.phase && s.phase[t].ToRelease? ==> MayRelease(s.phase[t].resident, t))
  }

  /** A bundle comes alive with a resident while another thread's unload of it is past its owner check. */
  ghost predicate Overtakes(s: System, c: Section)
    requires Enabled(s, c)
  {
    && c.Publish? && s.phase[c.t].txn.resident.Some?
    && Publishable(s.w.store, s.phase[c.t].txn, s.phase[c.t].accepted)
    && exists u :: u in s.phase && s.phase[u] == ToInvalidate(s.phase[c.t].txn.bundle)
  }

  lemma PublishGuards(s: System, t: Thread)
    requires Sound(s) && Guarded(s) && Enabled(s, Publish(t))
    ensures Guarded(Apply(s, Publish(t))) <==> !Overtakes(s, Publish(t))
  {
    var s', txn := Apply(s, Publish(t)), s.phase[t].txn;
    PublishReplies(s.w, t, txn, s.phase[t].accepted);
    if PublishTxn(s.w, t, txn, s.phase[t].accepted).1.Handles? {
      assert txn.bundle !in s.w.store.bundles;
      assert txn.bundle !in s.w.residents;
      if Overtakes(s, Publish(t)) {
        var u :| u in s.phase && s.phase[u] == ToInvalidate(txn.bundle);
        assert u != t && u in s'.phase && s'.phase[u] == ToInvalidate(txn.bundle);
        assert s'.w.residents[txn.bundle].owner == t;
      }
    }
  }

  /** The owner assertions stay certain exactly as long as no publish overtakes an unload. */
  lemma GuardedStep(s: System, c: Section)
    requires Sound(s) && Guarded(s) && Enabled(s, c)
    ensures Guarded(Apply(s, c)) <==> !Overtakes(s, c)
  {
    if c.Publish? {
      PublishGuards(s, c.t);
    } else if Quiet(c) {
      QuietGuards(s, c);
    } else {
      OtherGuards(s, c);
    }
  }

  lemma QuietGuards(s: System, c: Section)
    requires Guarded(s) && Enabled(s, c) && Quiet(c)
    ensures Guarded(Apply(s, c))
  {
    QuietWorld(s, c);
  }

  lemma OtherGuards(s: System, c: Section)
    requires Guarded(s) && OwnHands(s.phase) && Enabled(s, c) && !Quiet(c) && !c.Publish?
    ensures Guarded(Apply(s, c))
  {
  }

  /** Once overtaken, the unload goes on to a failing owner assertion, and nothing is released. */
  lemma OvertakenAborts(s: System, t: Thread)
    requires t in s.phase && s.phase[t].ToInvalidate? && s.phase[t].b in s.w.residents
    requires s.w.residents[s.phase[t].b].owner != t
    ensures Enabled(s, InvalidateLocked(t, false))
    ensures var s1 := Apply(s, InvalidateLocked(t, false));
      && Enabled(s1, ReleaseTaken(t)) && s1.w.aborted == s.w.aborted
      && Apply(s1, ReleaseTaken(t)).w.aborted && Apply(s1, ReleaseTaken(t)).w.released == s.w.released
  {
  }

  /** In a run in which no publish overtakes an unload, no owner assertion fails. */
  lemma {:induction false} AssertionsHold(p: seq<System>, steps: seq<Section>, i: nat)
    requires Run(p, steps) && i < |p|
    requires forall m {:trigger steps[m]} :: 0 <= m < i ==> Enabled(p[m], steps[m]) && !Overtakes(p[m], steps[m])
    ensures Guarded(p[i]) && !p[i].w.aborted
  {
    if i > 0 {
      AssertionsHold(p, steps, i - 1);
      RunKeepsSound(p, steps, i - 1);
      GuardedStep(p[i - 1], steps[i - 1]);
    }
  }

  lemma Then(p: seq<System>, steps: seq<Section>, c: Section, s: System) returns (p': seq<System>, steps': seq<Section>)
    requires Run(p, steps) && Leads(p[|steps|], c, s)
    ensures steps' == steps + [c] && Run(p', steps') && p'[|steps'|] == s
  {
    p', steps' := p + [s], steps + [c];
    forall i | 0 <= i < |steps'|
      ensures Leads(p'[i], steps'[i], p'[i + 1])
    {
      if i < |steps| { assert steps'[i] == steps[i]; }
    }
  }

  lemma OvertakenLeavesForeign(s: System, t: Thread, u: Thread)
    requires Sound(s) && Enabled(s, Publish(t)) && Overtakes(s, Publish(t))
    requires u in s.phase && s.phase[u] == ToInvalidate(s.phase[t].txn.bundle)
    ensures var s', b := Apply(s, Publish(t)), s.phase[t].txn.bundle;
      && u in s'.phase && s'.phase[u] == ToInvalidate(b)
      && b in s'.w.residents && s'.w.residents[b].owner == t != u && s'.w.aborted == s.w.aborted
  {
    PublishReplies(s.w, t, s.phase[t].txn, s.phase[t].accepted);
  }

  lemma OvertakenGoesOn(s: System, t: Thread, s1: System) returns (u: Thread, s2: System, s3: System)
    requires Sound(s) && Leads(s, Publish(t), s1) && Overtakes(s, Publish(t))
    ensures u != t && Leads(s1, InvalidateLocked(u, false), s2) && Leads(s2, ReleaseTaken(u), s3)
    ensures s3.w.aborted && s3.w.released == s1.w.released
  {
    u :| u in s.phase && s.phase[u] == ToInvalidate(s.phase[t].txn.bundle);
    OvertakenLeavesForeign(s, t, u);
    OvertakenAborts(s1, u);
    s2 := Apply(s1, InvalidateLocked(u, false));
    s3 := Apply(s2, ReleaseTaken(u));
  }

  /** Every run in which a publish overtakes an unload can go on to a failing owner assertion. */
  lemma OvertakenRunGoesOn(p: seq<System>, steps: seq<Section>, t: Thread, s1: System)
      returns (u: Thread, p': seq<System>, steps': seq<Section>)
    requires Run(p, steps) && Leads(p[|steps|], Publish(t), s1) && Overtakes(p[|steps|], Publish(t))
    ensures u != t && steps' == steps + [Publish(t)] + [InvalidateLocked(u, false)] + [ReleaseTaken(u)]
    ensures Run(p', steps') && p'[|steps'|].w.aborted && p'[|steps'|].w.released == s1.w.released
  {
    RunKeepsSound(p, steps, |steps|);
    var s2, s3;
    u, s2, s3 := OvertakenGoesOn(p[|steps|], t, s1);
    p', steps' := Then(p, steps, Publish(t), s1);
    p', steps' := Then(p', steps', InvalidateLocked(u, false), s2);
    p', steps' := Then(p', steps', ReleaseTaken(u), s3);
  }

  // ------------------------------------------------------- an overtaken unload

  const IDLE: map<Thread, Phase> := map[]

  lemma LoadStep(t: Thread, b: Bundle, phase: map<Thread, Phase>)
    requires t !in phase
    ensures Leads(System(FRESH, phase), LoadWhole(t, b, [], true),
      System(FRESH.(store := Data([], map[], map[b := []], {})), phase))
  {
    assert Load(FRESH, b, [], true).0 == FRESH.(store := Data([], map[], map[b := []], {}));
  }

  lemma CheckStep(w: World, t: Thread, b: Bundle, phase: map<Thread, Phase>)
    requires !w.aborted && t !in phase && b in w.store.bundles && b !in w.residents
    ensures Leads(System(w, phase), UnloadCheck(t, b), System(w, phase[t := ToInvalidate(b)]))
  {
  }

  lemma InvalidateStep(t: Thread, b: Bundle, phase: map<Thread, Phase>)
    requires t in phase && phase[t] == ToInvalidate(b)
    ensures var w := FRESH.(store := Data([], map[], map[b := []], {}));
      Leads(System(w, phase), InvalidateLocked(t, false), System(FRESH, phase[t := ToRelease(b, None)]))
  {
    var w := FRESH.(store := Data([], map[], map[b := []], {}));
    assert Invalidate(w, b) == FRESH;
  }

  lemma ReleaseStep(w: World, t: Thread, b: Bundle, phase: map<Thread, Phase>)
    requires !w.aborted && t in phase && phase[t] == ToRelease(b, None)
    ensures Leads(System(w, phase), ReleaseTaken(t), System(w, phase - {t}))
  {
  }

  /** Thread `u` passes its owner check of a loaded bundle, which thread `t` then unloads. */
  lemma CheckedThenGone(t: Thread, u: Thread, b: Bundle) returns (p: seq<System>, steps: seq<Section>)
    requires t != u
    ensures Run(p, steps) && p[|steps|] == System(FRESH, map[u := ToInvalidate(b)])
  {
    var w := FRESH.(store := Data([], map[], map[b := []], {}));
    var one := IDLE[u := ToInvalidate(b)];
    var two := one[t := ToInvalidate(b)];
    var three := two[t := ToRelease(b, None)];
    LoadStep(t, b, IDLE);
    CheckStep(w, u, b, IDLE);
    CheckStep(w, t, b, one);
    InvalidateStep(t, b, two);
    ReleaseStep(FRESH, t, b, three);
    assert three - {t} == one;
    p, steps := Then([System(FRESH, IDLE)], [], LoadWhole(t, b, [], true), System(w, IDLE));
    p, steps := Then(p, steps, UnloadCheck(u, b), System(w, one));
    p, steps := Then(p, steps, UnloadCheck(t, b), System(w, two));
    p, steps := Then(p, steps, InvalidateLocked(t, false), System(FRESH, three));
    p, steps := Then(p, steps, ReleaseTaken(t), System(FRESH, one));
  }

  /** A begin, whole, on a runtime with nothing registered. */
  lemma BeginSteps(p: seq<System>, steps: seq<Section>, t: Thread, b: Bundle, phase: map<Thread, Phase>)
      returns (p': seq<System>, steps': seq<Section>)
    requires Run(p, steps) && p[|steps|] == System(FRESH, phase) && t !in phase
    ensures Run(p', steps')
    ensures p'[|steps'|] ==
      System(FRESH.(prepared := map[t := [Txn(b, [], None)]], marks := {b}, stacks := map[t := [b]]), phase)
  {
    var w1 := FRESH.(prepared := map[t := [Txn(b, [], None)]]);
    var w2 := w1.(marks := {b});
    var w3 := w2.(stacks := map[t := [b]]);
    assert [] + [Txn(b, [], None)] == [Txn(b, [], None)] && [] + [b] == [b];
    assert phase[t := ToPush(b)] - {t} == phase;
    p', steps' := Then(p, steps, BeginCheck(t, b, true), System(FRESH, phase[t := ToPrepare(b)]));
    p', steps' := Then(p', steps', Prepare(t), System(w1, phase[t := ToMark(b)]));
    p', steps' := Then(p', steps', Mark(t), System(w2, phase[t := ToPush(b)]));
    p', steps' := Then(p', steps', Push(t), System(w3, phase));
  }

  lemma AttachStep(t: Thread, b: Bundle, phase: map<Thread, Phase>)
    requires t !in phase
    ensures var w := FRESH.(prepared := map[t := [Txn(b, [], None)]], marks := {b}, stacks := map[t := [b]]);
      var w' := w.(prepared := map[t := [Txn(b, [], Some(Resident(0, t)))]], attached := 1);
      Leads(System(w, phase), AttachOne(t, b, t, true), System(w', phase))
  {
    var w := FRESH.(prepared := map[t := [Txn(b, [], None)]], marks := {b}, stacks := map[t := [b]]);
    assert OpenAt(w, t, b) == Some(0);
    assert [Txn(b, [], None)][0 := Txn(b, [], Some(Resident(0, t)))] == [Txn(b, [], Some(Resident(0, t)))];
  }

  lemma TakeStep(w: World, t: Thread, b: Bundle, txn: Txn, phase: map<Thread, Phase>)
    requires !w.aborted && t !in phase && w.prepared == map[t := [txn]] && txn.bundle == b
    ensures Leads(System(w, phase), CommitTake(t, b, true),
      System(w.(prepared := map[]), phase[t := ToPublish(txn, true)]))
  {
    assert OpenAt(w, t, b) == Some(0) && Without([txn], 0) == [];
    assert Take(w, t, 0).prepared == map[];
  }

  lemma PublishOvertakes(w: World, t: Thread, u: Thread, b: Bundle, phase: map<Thread, Phase>)
    requires w.store == FRESH.store && t in phase && phase[t] == ToPublish(Txn(b, [], Some(Resident(0, t))), true)
    requires u in phase && phase[u] == ToInvalidate(b)
    ensures Enabled(System(w, phase), Publish(t)) && Overtakes(System(w, phase), Publish(t))
  {
    assert Bind(b, []) == [];
    assert RegisterPrepared(w.store, b, []).Some?;
  }

  /**
    Concretely: `u` checks a bundle without a resident; `t` unloads it and registers it again
    with a resident of its own; `u`, past its check, takes that resident out and aborts.
   */
  lemma OvertakenUnload(t: Thread, u: Thread, b: Bundle) returns (p: seq<System>, steps: seq<Section>)
    requires t != u
    ensures Run(p, steps) && p[|steps|].w.aborted
    ensures |steps| > 2 && steps[|steps| - 3] == Publish(t) && steps[|steps| - 1].ReleaseTaken?
    ensures steps[|steps| - 1].t != t
  {
    var one := IDLE[u := ToInvalidate(b)];
    p, steps := CheckedThenGone(t, u, b);
    p, steps := BeginSteps(p, steps, t, b, one);
    var txn := Txn(b, [], Some(Resident(0, t)));
    var w := p[|steps|].w.(prepared := map[t := [txn]], attached := 1);
    AttachStep(t, b, one);
    p, steps := Then(p, steps, AttachOne(t, b, t, true), System(w, one));
    TakeStep(w, t, b, txn, one);
    var s := System(w.(prepared := map[]), one[t := ToPublish(txn, true)]);
    p, steps := Then(p, steps, CommitTake(t, b, true), s);
    PublishOvertakes(s.w, t, u, b, s.phase);
    var v;
    v, p, steps := OvertakenRunGoesOn(p, steps, t, Apply(s, Publish(t)));
  }
}
