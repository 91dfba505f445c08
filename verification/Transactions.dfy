/**
  Prepared internal-plugin transactions and the residents they own: begin, stage,
  attach, commit, abort, unload and runtime destruction, called by any threads in any
  order. Each call here takes effect as a whole; the store sections it uses are those of
  the registry.

  `accepted` stands for the verdict of provider-set, function-count and version
  validation, `busy` for live instances or dependents. A resident object is named by the
  number of its successful attach.
 */
module Transactions {
  import opened Basics
  import opened ThreadLists
  import opened RegistryStore

  /** One staged provider; its bundle is that of the transaction. */
  datatype Provider = Provider(contract: Contract, name: nat, major: nat, descriptor: nat, interface: nat)
  {
    function For(b: Bundle): Registration { Registration(b, contract, name, major, descriptor, interface) }
  }

  datatype Resident = Resident(id: nat, owner: Thread)

  datatype Txn = Txn(bundle: Bundle, providers: seq<Provider>, resident: Option<Resident>)

  datatype World = World(
    store: Data,
    internal: set<Bundle>,
    prepared: Lists<Txn>,
    marks: set<Bundle>,
    stacks: Lists<Bundle>,
    residents: map<Bundle, Resident>,
    attached: nat,
    released: multiset<nat>,
    aborted: bool,
    destroyed: bool)

  datatype Reply = Done | Handles(handles: seq<Handle>) | Refusal

  function Prepared(w: World, t: Thread): seq<Txn> { Of(w.prepared, t) }

  function Stack(w: World, t: Thread): seq<Bundle> { Of(w.stacks, t) }

  function Bind(b: Bundle, s: seq<Provider>): (r: seq<Registration>)
    ensures |r| == |s| && forall x :: x in r ==> x.bundle == b
  {
    seq(|s|, i requires 0 <= i < |s| => s[i].For(b))
  }

  /** The innermost transaction of `b` in a thread's list. */
  function LastIndex(s: seq<Txn>, b: Bundle): (k: Option<nat>)
    ensures k.Some? ==> k.value < |s| && s[k.value].bundle == b && forall i :: k.value < i < |s| ==> s[i].bundle != b
    ensures k.None? ==> forall i :: 0 <= i < |s| ==> s[i].bundle != b
  {
    if s == [] then None
    else if s[|s| - 1].bundle == b then Some(|s| - 1)
    else LastIndex(s[..|s| - 1], b)
  }

  function OpenAt(w: World, t: Thread, b: Bundle): (k: Option<nat>)
    ensures k.Some? ==> k.value < |Prepared(w, t)| && Prepared(w, t)[k.value].bundle == b
  {
    LastIndex(Prepared(w, t), b)
  }

  function Without(s: seq<Txn>, k: nat): seq<Txn>
    requires k < |s|
  {
    s[..k] + s[k + 1..]
  }

  function Take(w: World, t: Thread, k: nat): (w': World)
    requires k < |Prepared(w, t)|
    ensures w' == w.(prepared := w'.prepared)
  {
    w.(prepared := Put(w.prepared, t, Without(Prepared(w, t), k)))
  }

  function Pop(w: World, t: Thread): World { w.(stacks := Popped(w.stacks, t)) }

  function Unmark(w: World, b: Bundle): World { w.(marks := w.marks - {b}) }

  /**
    Runs a resident's release callback, if there is one, on thread `t`. Its owner is asserted
    first, and again when the failed release unwinds, so on any other thread the callback does
    not run and the process aborts.
   */
  function Drop(w: World, t: Thread, r: Option<Resident>): (w': World)
    ensures w' == w.(released := w'.released, aborted := w'.aborted)
  {
    match r
    case None => w
    case Some(x) => if x.owner == t then w.(released := w.released + multiset{x.id}) else w.(aborted := true)
  }

  function Begin(w: World, t: Thread, b: Bundle, valid: bool): (World, Reply) {
    if !valid || b in w.store.bundles then (w, Refusal)
    else (w.(prepared := Pushed(w.prepared, t, Txn(b, [], None)),
             marks := w.marks + {b},
             stacks := Pushed(w.stacks, t, b)), Done)
  }

  /** Registration by the bundle on top of the calling thread's init stack. */
  function Stage(w: World, t: Thread, x: Provider): (World, Reply) {
    var s := Stack(w, t);
    if s == [] then (w, Refusal) else
      var b := s[|s| - 1];
      match OpenAt(w, t, b)
      case Some(k) =>
        var txn := Prepared(w, t)[k];
        (w.(prepared := Put(w.prepared, t, Prepared(w, t)[k := txn.(providers := txn.providers + [x])])), Done)
      case None =>
        var done := Register(w.store, x.For(b));
        if done.None? then (w, Refusal) else (w.(store := done.value.0), Done)
  }

  function Attach(w: World, t: Thread, b: Bundle, owner: Thread, wellFormed: bool): (World, Reply) {
    if !wellFormed || owner != t then (w, Refusal) else
      match OpenAt(w, t, b)
      case None => (w, Refusal)
      case Some(k) =>
        var txn := Prepared(w, t)[k];
        if txn.resident.Some? then (w, Refusal)
        else (w.(prepared := Put(w.prepared, t,
          Prepared(w, t)[k := txn.(resident := Some(Resident(w.attached, owner)))]),
                 attached := w.attached + 1), Done)
  }

  function Previous(w: World, b: Bundle): Option<Resident> { if b in w.residents then Some(w.residents[b]) else None }

  /** Moves a committed transaction's resident into the live map. */
  function Adopt(w: World, t: Thread, b: Bundle, r: Option<Resident>): (w': World)
    ensures w' == w.(released := w'.released, aborted := w'.aborted, residents := w'.residents)
  {
    match r
    case None => w
    case Some(x) => Drop(w, t, Previous(w, b)).(residents := w.residents[b := x])
  }

  /** The publishing section of a commit: the whole transaction, or nothing and its resident is dropped. */
  function PublishTxn(w: World, t: Thread, txn: Txn, accepted: bool): (r: (World, Reply))
    ensures r.0.stacks == w.stacks && r.0.destroyed == w.destroyed && r.0.prepared == w.prepared && r.0.marks == w.marks
    ensures !r.1.Done? && (r.1.Refusal? ==> r.0 == Drop(w, t, txn.resident))
    ensures r.1.Handles? ==> |r.1.handles| == |txn.providers|
  {
    var done := RegisterPrepared(w.store, txn.bundle, Bind(txn.bundle, txn.providers));
    if !accepted || done.None? then (Drop(w, t, txn.resident), Refusal)
    else (Adopt(w.(store := done.value.0, internal := w.internal + {txn.bundle}), t, txn.bundle, txn.resident),
          Handles(done.value.1))
  }

  function CommitPrepared(w: World, t: Thread, b: Bundle, accepted: bool): (World, Reply) {
    match OpenAt(w, t, b)
    case None => (w, Refusal)
    case Some(k) => PublishTxn(Take(w, t, k), t, Prepared(w, t)[k], accepted)
  }

  /** Commit, then pop, then on failure the marker goes. */
  function Commit(w: World, t: Thread, b: Bundle, accepted: bool): (World, Reply) {
    var (w1, reply) := CommitPrepared(w, t, b, accepted);
    (if reply.Refusal? then Unmark(Pop(w1, t), b) else Pop(w1, t), reply)
  }

  function Abort(w: World, t: Thread, b: Bundle): World {
    match OpenAt(w, t, b)
    case None => w
    case Some(k) => Pop(Unmark(Drop(Take(w, t, k), t, Prepared(w, t)[k].resident), b), t)
  }

  /** Commit into a caller's buffer, whose capacity is checked before anything is published. */
  function CommitInto(w: World, t: Thread, b: Bundle, capacity: nat, accepted: bool): (World, Reply) {
    match OpenAt(w, t, b)
    case None => (Abort(w, t, b), Refusal)
    case Some(k) =>
      if |Prepared(w, t)[k].providers| != capacity then (Abort(w, t, b), Refusal)
      else Commit(w, t, b, accepted)
  }

  /** A whole loader-backed load. */
  function Load(w: World, b: Bundle, providers: seq<Provider>, accepted: bool): (World, Reply) {
    var done := RegisterPrepared(w.store, b, Bind(b, providers));
    if !accepted || done.None? then (w, Refusal) else (w.(store := done.value.0), Handles(done.value.1))
  }

  /** The locked section of an unload; the resident it takes out is released afterwards. */
  function Invalidate(w: World, b: Bundle): World {
    w.(store := InvalidateBundle(w.store, b), internal := w.internal - {b}, marks := w.marks - {b},
       residents := w.residents - {b})
  }

  function Unload(w: World, t: Thread, b: Bundle, busy: bool): (World, Reply) {
    if b !in w.store.bundles || busy then (w, Refusal)
    else if b in w.residents && w.residents[b].owner != t then (w, Refusal)
    else (Drop(Invalidate(w, b), t, Previous(w, b)), Done)
  }

  // ------------------------------------------------------- where residents are

  datatype Place = InBundle(b: Bundle) | InTxn(t: Thread, k: nat)

  function At(w: World, p: Place): Option<Resident> {
    match p
    case InBundle(b) => Previous(w, b)
    case InTxn(t, k) => if k < |Prepared(w, t)| then Prepared(w, t)[k].resident else None
  }

  function Held(w: World): set<nat> {
    (set b | b in w.residents :: w.residents[b].id) +
    (set t, k | t in w.prepared && 0 <= k < |w.prepared[t]| && w.prepared[t][k].resident.Some? ::
       w.prepared[t][k].resident.value.id)
  }

  ghost predicate OwnedBy(w: World, t: Thread) {
    forall p :: At(w, p).Some? ==> At(w, p).value.owner == t
  }

  /** Final destruction: refused unless every resident belongs to the calling thread. */
  ghost function Destroy(w: World, t: Thread): (World, bool) {
    if w.destroyed || !OwnedBy(w, t) then (w, false)
    else (w.(residents := map[], prepared := map[], released := w.released + multiset(Held(w)), destroyed := true),
      true)
  }

  // -------------------------------------------------------------- runs

  datatype Call =
    | CallBegin(t: Thread, b: Bundle, valid: bool)
    | CallStage(t: Thread, x: Provider)
    | CallAttach(t: Thread, b: Bundle, owner: Thread, wellFormed: bool)
    | CallCommit(t: Thread, b: Bundle, accepted: bool)
    | CallCommitInto(t: Thread, b: Bundle, capacity: nat, accepted: bool)
    | CallAbort(t: Thread, b: Bundle)
    | CallLoad(t: Thread, b: Bundle, providers: seq<Provider>, accepted: bool)
    | CallUnload(t: Thread, b: Bundle, busy: bool)
    | CallDestroy(t: Thread)
  {
    /** Calls that end a transaction. */
    predicate Closing() { CallCommit? || CallCommitInto? || CallAbort? }
  }

  ghost function Apply(w: World, c: Call): (World, Reply) {
    match c
    case CallBegin(t, b, valid) => Begin(w, t, b, valid)
    case CallStage(t, x) => Stage(w, t, x)
    case CallAttach(t, b, owner, wellFormed) => Attach(w, t, b, owner, wellFormed)
    case CallCommit(t, b, accepted) => Commit(w, t, b, accepted)
    case CallCommitInto(t, b, capacity, accepted) => CommitInto(w, t, b, capacity, accepted)
    case CallAbort(t, b) => (Abort(w, t, b), Done)
    case CallLoad(_, b, providers, accepted) => Load(w, b, providers, accepted)
    case CallUnload(t, b, busy) => Unload(w, t, b, busy)
    case CallDestroy(t) => var (w1, ok) := Destroy(w, t); (w1, if ok then Done else Refusal)
  }

  const FRESH := World(Data([], map[], map[], {}), {}, map[], {}, map[], map[], 0, multiset{}, false, false)

  /** Any calls by any threads in any order, as long as the runtime exists and the process runs. */
  ghost predicate Path(p: seq<World>, calls: seq<Call>) {
    && |p| == |calls| + 1
    && forall i {:trigger calls[i]} :: 0 <= i < |calls| ==>
         !p[i].destroyed && !p[i].aborted && p[i + 1] == Apply(p[i], calls[i]).0
  }

  ghost predicate Run(p: seq<World>, calls: seq<Call>) { Path(p, calls) && p[0] == FRESH }
}
