/**
  The contract registry: a slot array, the find index readers use, the slots each
  bundle owns, and the bundles whose reload window is open. Every function here is
  one write-locked section of the store.

  An interface is an opaque identity; slot content (`entry` and `interface`) is one
  optional registration, with the canonical name and the major version of its contract.
 */
module RegistryStore {
  import opened Basics

  type Bundle = nat
  type Contract = nat
  type Index = nat

  datatype Registration = Registration(
    bundle: Bundle,
    contract: Contract,
    name: nat,
    major: nat,
    descriptor: nat,
    interface: nat)

  datatype Slot = Slot(reg: Option<Registration>, generation: nat)

  datatype Handle = Handle(index: Index, generation: nat)

  datatype Data = Data(
    slots: seq<Slot>,
    index: map<Contract, seq<Index>>,
    bundles: map<Bundle, seq<Index>>,
    reloading: set<Bundle>)

  const GENERATIONS := 0x1_0000_0000

  function Bumped(generation: nat): nat { (generation + 1) % GENERATIONS }

  /** A slot's generation after it was torn down `k` times. */
  function BumpedBy(generation: nat, k: nat): nat {
    if k == 0 then generation else Bumped(BumpedBy(generation, k - 1))
  }

  /** Generations are 32-bit counters: one more each time, from the top back to zero. */
  lemma {:induction false} GenerationsWrap(g: nat, k: nat)
    requires g < 0x1_0000_0000
    ensures BumpedBy(g, k) == (g + k) % 0x1_0000_0000
  {
    if k > 0 { GenerationsWrap(g, k - 1); }
  }

  /** So an old handle is told from its slot unless the slot was torn down a multiple of 2^32 times since. */
  lemma StaleUntilWrapped(g: nat, k: nat)
    requires g < 0x1_0000_0000
    ensures BumpedBy(g, k) == g <==> k % 0x1_0000_0000 == 0
  {
    GenerationsWrap(g, k);
    var m := 0x1_0000_0000;
    var q, a := k / m, k % m;
    var r := if g + a < m then g + a else g + a - m;
    assert g + k == (if g + a < m then q else q + 1) * m + r;
    assert (g + k) % m == r;
  }

  function Slots(d: Data, b: Bundle): seq<Index> { if b in d.bundles then d.bundles[b] else [] }

  function Indexed(d: Data, c: Contract): seq<Index> { if c in d.index then d.index[c] else [] }

  predicate LiveAt(d: Data, i: Index) { i < |d.slots| && d.slots[i].reg.Some? }

  function RegAt(d: Data, i: Index): Registration
    requires LiveAt(d, i)
  {
    d.slots[i].reg.value
  }

  /** `s` without any occurrence of `x`. */
  function Retain(s: seq<Index>, x: Index): seq<Index> {
    if s == [] then [] else
      (if s[0] == x then [] else [s[0]]) + Retain(s[1..], x)
  }

  /** `s` without the members of `drop`. */
  function Minus(s: seq<Index>, drop: seq<Index>): seq<Index> {
    if s == [] then [] else
      (if s[0] in drop then [] else [s[0]]) + Minus(s[1..], drop)
  }

  function FirstVacant(slots: seq<Slot>): (n: Index)
    ensures n <= |slots| && (n < |slots| ==> slots[n].reg.None?)
  {
    if slots == [] || slots[0].reg.None? then 0 else 1 + FirstVacant(slots[1..])
  }

  /** Removes slot `i` from the find list of contract `c`, dropping the key when it empties. */
  function Unindex(d: Data, c: Contract, i: Index): Data {
    if c !in d.index then d else
      var rest := Retain(d.index[c], i);
      d.(index := if rest == [] then d.index - {c} else d.index[c := rest])
  }

  /** The teardown atom: bump the generation, clear the slot, drop it from the index. */
  function VacateSlot(d: Data, i: Index): Data {
    if i >= |d.slots| then d else
      var d1 := if d.slots[i].reg.Some? then Unindex(d, d.slots[i].reg.value.contract, i) else d;
      d1.(slots := d1.slots[i := Slot(None, Bumped(d.slots[i].generation))])
  }

  function DropOwned(d: Data, b: Bundle, i: Index): Data {
    if b in d.bundles then d.(bundles := d.bundles[b := Retain(d.bundles[b], i)]) else d
  }

  function EnsureBundle(d: Data, b: Bundle): Data {
    if b in d.bundles then d else d.(bundles := d.bundles[b := []])
  }

  /** Stores a registration in the first vacant slot, or a new one at the end. */
  function Insert(d: Data, r: Registration, publish: bool): (Data, Handle)
    requires r.bundle in d.bundles
  {
    var n := FirstVacant(d.slots);
    var slots := if n == |d.slots| then d.slots + [Slot(None, 0)] else d.slots;
    var d1 := d.(slots := slots[n := slots[n].(reg := Some(r))],
                 bundles := d.bundles[r.bundle := d.bundles[r.bundle] + [n]]);
    (if publish then d1.(index := d1.index[r.contract := Indexed(d, r.contract) + [n]]) else d1,
     Handle(n, slots[n].generation))
  }

  /** A published contract of the same id has another name. */
  predicate Collides(d: Data, r: Registration) {
    exists i | i in Indexed(d, r.contract) :: LiveAt(d, i) && RegAt(d, i).name != r.name
  }

  /** The bundle already publishes the contract. */
  predicate Duplicate(d: Data, r: Registration) {
    exists i | i in Indexed(d, r.contract) :: LiveAt(d, i) && RegAt(d, i).bundle == r.bundle
  }

  /** What the store refuses; a reloading bundle may register a contract it already publishes. */
  predicate Refused(d: Data, r: Registration) {
    Collides(d, r) || (r.bundle !in d.reloading && Duplicate(d, r))
  }

  function BeginReload(d: Data, b: Bundle): Data { d.(reloading := d.reloading + {b}) }

  /** Registration by a loader: pending while its bundle reloads, published otherwise. */
  function Register(d: Data, r: Registration): Option<(Data, Handle)> {
    if Refused(d, r) then None
    else Some(Insert(EnsureBundle(d, r.bundle), r, r.bundle !in d.reloading))
  }

  /** The first of `arrived` that still holds a registration of contract `c`. */
  function FirstMatch(d: Data, arrived: seq<Index>, c: Contract): Option<Index> {
    if arrived == [] then None
    else if LiveAt(d, arrived[0]) && RegAt(d, arrived[0]).contract == c then Some(arrived[0])
    else FirstMatch(d, arrived[1..], c)
  }

  /** Moves the registration of slot `n` into slot `o` and retires `n`. */
  function MoveInto(d: Data, b: Bundle, o: Index, n: Index): Data
    requires LiveAt(d, o) && LiveAt(d, n) && o != n
  {
    var c := RegAt(d, o).contract;
    var d1 := d.(slots := d.slots[o := d.slots[o].(reg := d.slots[n].reg)]
                                 [n := Slot(None, Bumped(d.slots[n].generation))]);
    var d2 := if c in d1.index then d1.(index := d1.index[c := Retain(d1.index[c], n)]) else d1;
    DropOwned(d2, b, n)
  }

  /** Reconciles one slot that existed before the reload; false reports an invalid handle. */
  function SwapOne(d: Data, b: Bundle, o: Index, arrived: seq<Index>): (Data, bool) {
    if !LiveAt(d, o) then (d, false) else
      var m := FirstMatch(d, arrived, RegAt(d, o).contract);
      if m.None? then (DropOwned(VacateSlot(d, o), b, o), true)
      else if !LiveAt(d, m.value) || m.value == o then (d, false)
      else (MoveInto(d, b, o, m.value), true)
  }

  function SwapAll(d: Data, b: Bundle, before: seq<Index>, arrived: seq<Index>): (Data, bool)
    decreases |before|
  {
    if before == [] then (d, true) else
      var (d1, ok) := SwapOne(d, b, before[0], arrived);
      if ok then SwapAll(d1, b, before[1..], arrived) else (d1, false)
  }

  /** Makes the registrations that no swap consumed discoverable. */
  function PublishFresh(d: Data, arrived: seq<Index>): Data
    decreases |arrived|
  {
    if arrived == [] then d else
      var n := arrived[0];
      var d1 := if LiveAt(d, n) && n !in Indexed(d, RegAt(d, n).contract)
        then d.(index := d.index[RegAt(d, n).contract := Indexed(d, RegAt(d, n).contract) + [n]])
        else d;
      PublishFresh(d1, arrived[1..])
  }

  datatype SwapOutcome = Swapped | InvalidHandle | MissingBundle

  /** Closes the window of `b` by reconciling the slots snapshotted before it opened. */
  function ApplySwap(d: Data, b: Bundle, before: seq<Index>): (Data, SwapOutcome) {
    var d0 := d.(reloading := d.reloading - {b});
    var arrived := Minus(Slots(d, b), before);
    var (d1, ok) := SwapAll(d0, b, before, arrived);
    if !ok then (d1, InvalidHandle) else
      var d2 := PublishFresh(d1, arrived);
      (d2, if b in d2.bundles then Swapped else MissingBundle)
  }

  /** Forgets one slot that was never visible; its generation stays. */
  function PurgeOne(d: Data, b: Bundle, n: Index): Data {
    var d1 := if LiveAt(d, n) then Unindex(d, RegAt(d, n).contract, n) else d;
    var d2 := if n < |d1.slots| then d1.(slots := d1.slots[n := d1.slots[n].(reg := None)]) else d1;
    DropOwned(d2, b, n)
  }

  function PurgeAll(d: Data, b: Bundle, pending: seq<Index>): Data
    decreases |pending|
  {
    if pending == [] then d else PurgeAll(PurgeOne(d, b, pending[0]), b, pending[1..])
  }

  /** Closes the window of `b` after a failed init, purging what it registered. */
  function AbortReload(d: Data, b: Bundle, before: seq<Index>): Data {
    PurgeAll(d.(reloading := d.reloading - {b}), b, Minus(Slots(d, b), before))
  }

  function VacateAll(d: Data, s: seq<Index>): Data
    decreases |s|
  {
    if s == [] then d else VacateAll(VacateSlot(d, s[0]), s[1..])
  }

  function InvalidateBundle(d: Data, b: Bundle): Data {
    if b !in d.bundles then d else
      var d1 := VacateAll(d, d.bundles[b]);
      d1.(bundles := d1.bundles - {b})
  }

  function InsertAll(d: Data, b: Bundle, regs: seq<Registration>, publish: bool): (Data, seq<Handle>)
    requires b in d.bundles && forall r :: r in regs ==> r.bundle == b
    decreases |regs|
  {
    if regs == [] then (d, []) else
      var (d1, h) := Insert(d, regs[0], publish);
      var (d2, hs) := InsertAll(d1, b, regs[1..], publish);
      (d2, [h] + hs)
  }

  lemma {:induction false} InsertAllCount(d: Data, b: Bundle, regs: seq<Registration>, publish: bool)
    requires b in d.bundles && forall r :: r in regs ==> r.bundle == b
    ensures |InsertAll(d, b, regs, publish).1| == |regs|
    decreases |regs|
  {
    if regs != [] { InsertAllCount(Insert(d, regs[0], publish).0, b, regs[1..], publish); }
  }

  /** One contract under two names, or twice with the same descriptor. */
  predicate Clash(r: Registration, s: Registration) {
    r.contract == s.contract && (r.name != s.name || r.descriptor == s.descriptor)
  }

  predicate StagedClash(regs: seq<Registration>) {
    exists i, j | 0 <= i < j < |regs| :: Clash(regs[i], regs[j])
  }

  /** Publishes a staged bundle in one mutation, or refuses it without any. */
  function RegisterPrepared(d: Data, b: Bundle, regs: seq<Registration>): (done: Option<(Data, seq<Handle>)>)
    requires forall r :: r in regs ==> r.bundle == b
    ensures done.Some? ==> |done.value.1| == |regs|
  {
    InsertAllCount(EnsureBundle(d, b), b, regs, b !in d.reloading);
    if StagedClash(regs) then None
    else if exists r | r in regs :: Refused(d, r) then None
    else if b in d.bundles then None
    else Some(InsertAll(EnsureBundle(d, b), b, regs, b !in d.reloading))
  }

  /** What a reader's handle resolves to in a published snapshot. */
  datatype Resolved = Interface(id: nat) | StaleHandle | NoInterface

  function Resolve(d: Data, h: Handle): Resolved {
    if h.index >= |d.slots| then NoInterface
    else if h.generation != d.slots[h.index].generation then StaleHandle
    else if d.slots[h.index].reg.None? then NoInterface
    else Interface(d.slots[h.index].reg.value.interface)
  }

  function FirstLive(d: Data, s: seq<Index>, floor: nat): Option<Handle> {
    if s == [] then None
    else if LiveAt(d, s[0]) && RegAt(d, s[0]).major >= floor then Some(Handle(s[0], d.slots[s[0]].generation))
    else FirstLive(d, s[1..], floor)
  }

  /** The first provider of a contract whose major version reaches `floor`. */
  function Find(d: Data, c: Contract, floor: nat): Option<Handle> { FirstLive(d, Indexed(d, c), floor) }

  /** Entry `k` of a find list is live, reaches the floor and is what `h` names; no earlier entry is and does. */
  ghost predicate FirstFit(d: Data, s: seq<Index>, floor: nat, k: nat, h: Handle) {
    && k < |s| && s[k] == h.index < |d.slots| && d.slots[s[k]].generation == h.generation
    && d.slots[s[k]].reg.Some? && d.slots[s[k]].reg.value.major >= floor
    && forall j :: 0 <= j < k && s[j] < |d.slots| && d.slots[s[j]].reg.Some? ==> d.slots[s[j]].reg.value.major < floor
  }

  lemma {:induction false} FirstLiveMeans(d: Data, s: seq<Index>, floor: nat)
    ensures FirstLive(d, s, floor).Some? ==> exists k :: FirstFit(d, s, floor, k, FirstLive(d, s, floor).value)
    ensures FirstLive(d, s, floor).None? ==> forall j :: 0 <= j < |s| && s[j] < |d.slots| && d.slots[s[j]].reg.Some? ==>
      d.slots[s[j]].reg.value.major < floor
  {
    if s != [] && !(LiveAt(d, s[0]) && RegAt(d, s[0]).major >= floor) {
      FirstLiveMeans(d, s[1..], floor);
      var h := FirstLive(d, s[1..], floor);
      if h.Some? {
        var k :| FirstFit(d, s[1..], floor, k, h.value);
        FitShifts(d, s, floor, k, h.value);
      } else {
        forall j | 0 <= j < |s| && s[j] < |d.slots| && d.slots[s[j]].reg.Some?
          ensures d.slots[s[j]].reg.value.major < floor
        {
          if j > 0 { assert s[1..][j - 1] == s[j]; }
        }
      }
    } else if s != [] {
      assert FirstFit(d, s, floor, 0, FirstLive(d, s, floor).value);
    }
  }

  lemma FitShifts(d: Data, s: seq<Index>, floor: nat, k: nat, h: Handle)
    requires s != [] && FirstFit(d, s[1..], floor, k, h)
    requires s[0] < |d.slots| && d.slots[s[0]].reg.Some? ==> d.slots[s[0]].reg.value.major < floor
    ensures FirstFit(d, s, floor, k + 1, h)
  {
    forall j | 0 <= j < k + 1 && s[j] < |d.slots| && d.slots[s[j]].reg.Some?
      ensures d.slots[s[j]].reg.value.major < floor
    {
      if j > 0 { assert s[1..][j - 1] == s[j]; }
    }
  }
}
