/**
  Bookkeeping of the epoch collector: which guards are pinned, which superseded
  slots wait for reclamation, and the in-place loop that reclaims them.

  A slot's `alive` flag is modelled by the log `freed`: a slot is alive exactly
  when it does not occur there, and an occurrence is one store of `false`.
 */
module EpochCollector {

  type Slot = nat
  type Guard = nat

  /** A superseded slot with the guards that were pinned when it was handed over. */
  datatype Deferral = Deferral(slot: Slot, guards: seq<Guard>)

  predicate StillPinned(d: Deferral, active: seq<Guard>) {
    exists g | g in d.guards :: g in active
  }

  function SlotsOf(ds: seq<Deferral>): (r: seq<Slot>)
    ensures |r| == |ds|
  {
    if ds == [] then [] else SlotsOf(ds[..|ds| - 1]) + [ds[|ds| - 1].slot]
  }

  /** The deferrals that some active guard still protects, in order. */
  function Kept(ds: seq<Deferral>, active: seq<Guard>): seq<Deferral> {
    if ds == [] then [] else
      var last := ds[|ds| - 1];
      Kept(ds[..|ds| - 1], active) + if StillPinned(last, active) then [last] else []
  }

  /** The slots of the deferrals that no active guard protects, in order. */
  function Expired(ds: seq<Deferral>, active: seq<Guard>): seq<Slot> {
    if ds == [] then [] else
      var last := ds[|ds| - 1];
      Expired(ds[..|ds| - 1], active) + if StillPinned(last, active) then [] else [last.slot]
  }

  /** Filtering keeps exactly the protected deferrals. */
  lemma {:induction false} KeptMembers(ds: seq<Deferral>, active: seq<Guard>)
    ensures forall d :: d in Kept(ds, active) <==> d in ds && StillPinned(d, active)
  {
    if ds != [] {
      KeptMembers(ds[..|ds| - 1], active);
      assert ds == ds[..|ds| - 1] + [ds[|ds| - 1]];
    }
  }

  /** Nothing is lost and nothing is duplicated: every deferred slot is either kept or expired, once. */
  lemma {:induction false} ReclaimConserves(ds: seq<Deferral>, active: seq<Guard>)
    ensures multiset(SlotsOf(Kept(ds, active))) + multiset(Expired(ds, active)) == multiset(SlotsOf(ds))
  {
    if ds != [] {
      var init, last := ds[..|ds| - 1], ds[|ds| - 1];
      ReclaimConserves(init, active);
      assert SlotsOf(ds) == SlotsOf(init) + [last.slot];
      if StillPinned(last, active) {
        var k := Kept(init, active) + [last];
        assert k[..|k| - 1] == Kept(init, active);
        assert SlotsOf(k) == SlotsOf(Kept(init, active)) + [last.slot];
        assert Kept(ds, active) == k;
        assert Expired(ds, active) == Expired(init, active);
      } else {
        assert Kept(ds, active) == Kept(init, active);
        assert Expired(ds, active) == Expired(init, active) + [last.slot];
      }
    }
  }

  lemma {:induction false} SlotsOfMember(ds: seq<Deferral>, s: Slot)
    ensures s in SlotsOf(ds) <==> exists d :: d in ds && d.slot == s
  {
    if ds != [] {
      SlotsOfMember(ds[..|ds| - 1], s);
      assert ds == ds[..|ds| - 1] + [ds[|ds| - 1]];
      assert ds[|ds| - 1] in ds;
    }
  }

  function Without(active: seq<Guard>, id: Guard): seq<Guard> {
    if active == [] then [] else
      var last := active[|active| - 1];
      Without(active[..|active| - 1], id) + if last == id then [] else [last]
  }

  lemma {:induction false} WithoutMembers(active: seq<Guard>, id: Guard)
    ensures forall g :: g in Without(active, id) <==> g in active && g != id
    ensures |Without(active, id)| <= |active|
    ensures id in active ==> |Without(active, id)| < |active|
  {
    if active != [] {
      var init := active[..|active| - 1];
      WithoutMembers(init, id);
      assert active == init + [active[|active| - 1]];
    }
  }

  /** Everything the collector's mutex protects, plus the log of cleared `alive` flags. */
  datatype Collector = Collector(nextGuard: nat, active: seq<Guard>, deferred: seq<Deferral>, freed: seq<Slot>)

  function Reclaimed(c: Collector): Collector {
    c.(deferred := Kept(c.deferred, c.active), freed := c.freed + Expired(c.deferred, c.active))
  }

  function PinSection(c: Collector): Collector {
    c.(nextGuard := c.nextGuard + 1, active := c.active + [c.nextGuard])
  }

  function UnpinSection(c: Collector, id: Guard): Collector {
    Reclaimed(c.(active := Without(c.active, id)))
  }

  function DeferSection(c: Collector, superseded: Slot): Collector {
    Reclaimed(c.(deferred := c.deferred + [Deferral(superseded, c.active)]))
  }

  /** The shared object: the published pointer and the mutex-protected collector. */
  class World {
    var published: Slot
    var nextGuard: nat
    var active: seq<Guard>
    var deferred: seq<Deferral>
    var freed: seq<Slot>

    function Locked(): Collector
      reads this
    {
      Collector(nextGuard, active, deferred, freed)
    }

    constructor (initial: Slot)
      ensures published == initial && Locked() == Collector(0, [], [], [])
    {
      published, nextGuard, active, deferred, freed := initial, 0, [], [], [];
    }

    method Pin() returns (id: Guard)
      modifies this
      ensures id == old(nextGuard) && published == old(published)
      ensures Locked() == PinSection(old(Locked()))
    {
      id := nextGuard;
      nextGuard := nextGuard + 1;
      active := active + [id];
    }

    method Unpin(id: Guard)
      modifies this
      ensures published == old(published)
      ensures Locked() == UnpinSection(old(Locked()), id)
    {
      var kept: seq<Guard> := [];
      for i := 0 to |active|
        invariant kept == Without(active[..i], id)
        invariant Locked() == old(Locked()) && published == old(published)
      {
        assert active[..i + 1][..i] == active[..i];
        if active[i] != id { kept := kept + [active[i]]; }
      }
      assert active[..|active|] == active;
      active := kept;
      Reclaim();
    }

    /** The first half of publishing: one atomic exchange, outside the mutex. */
    method Swap(next: Slot) returns (superseded: Slot)
      modifies this
      ensures superseded == old(published) && published == next
      ensures Locked() == old(Locked())
    {
      superseded := published;
      published := next;
    }

    /** The second half of publishing: snapshot the guards, defer, reclaim. */
    method Defer(superseded: Slot)
      modifies this
      ensures published == old(published)
      ensures Locked() == DeferSection(old(Locked()), superseded)
    {
      deferred := deferred + [Deferral(superseded, active)];
      Reclaim();
    }

    /** Removes expired deferrals by index, in place. */
    method Reclaim()
      modifies this`deferred, this`freed
      ensures Locked() == Reclaimed(old(Locked()))
    {
      var i := 0;
      ghost var all, seen := deferred, 0;
      while i < |deferred|
        invariant 0 <= seen <= |all| && i == |Kept(all[..seen], active)|
        invariant deferred == Kept(all[..seen], active) + all[seen..]
        invariant freed == old(freed) + Expired(all[..seen], active)
        decreases |deferred| - i
      {
        ReclaimOne(all, seen, active);
        if StillPinned(deferred[i], active) {
          i := i + 1;
        } else {
          freed := freed + [deferred[i].slot];
          deferred := deferred[..i] + deferred[i + 1..];
        }
        seen := seen + 1;
      }
      assert all[..seen] == all;
    }
  }

  /** One turn of the reclaim loop, on values. */
  lemma ReclaimOne(all: seq<Deferral>, seen: nat, active: seq<Guard>)
    requires seen < |all|
    ensures var d, kept := all[seen], Kept(all[..seen], active);
      var cur, i := kept + all[seen..], |kept|;
      && cur[i] == d
      && (StillPinned(d, active) ==>
        && Kept(all[..seen + 1], active) == kept + [d]
        && cur == kept + [d] + all[seen + 1..]
        && Expired(all[..seen + 1], active) == Expired(all[..seen], active))
      && (!StillPinned(d, active) ==>
        && Kept(all[..seen + 1], active) == kept
        && cur[..i] + cur[i + 1..] == kept + all[seen + 1..]
        && Expired(all[..seen + 1], active) == Expired(all[..seen], active) + [d.slot])
  {
    assert all[..seen + 1][..seen] == all[..seen];
    assert all[seen..] == [all[seen]] + all[seen + 1..];
  }
}
