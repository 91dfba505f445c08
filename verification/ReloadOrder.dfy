/**
  In which order a reload swap hands the new registrations to the old slots, and how it leaves
  the find lists: first come, first served, and nothing that was found is moved behind a newcomer.
 */
module ReloadOrder {
  import opened Basics
  import opened RegistryStore
  import opened RegistryInvariant
  import opened ReloadSwap
  import opened StoreEffects

  /** The entry of `s` that holds the registration number `n` of contract `c` there, counting from 0. */
  function Nth(d: Data, s: seq<Index>, c: Contract, n: nat): Option<Index> {
    if s == [] then None
    else if LiveAt(d, s[0]) && RegAt(d, s[0]).contract == c then
      if n == 0 then Some(s[0]) else Nth(d, s[1..], c, n - 1)
    else Nth(d, s[1..], c, n)
  }

  /** How many of the slots hold a registration of `c`. */
  function Ahead(d: Data, s: seq<Index>, c: Contract): nat {
    if s == [] then 0 else
      Ahead(d, s[1..], c) + if LiveAt(d, s[0]) && RegAt(d, s[0]).contract == c then 1 else 0
  }

  /** What the slot of an old registration holds after the swap. */
  function Handed(d: Data, arrived: seq<Index>, c: Contract, n: nat): Option<Registration> {
    match Nth(d, arrived, c, n)
    case None => None
    case Some(i) => if LiveAt(d, i) then Some(RegAt(d, i)) else None
  }

  lemma {:induction false} FirstIsNth(d: Data, s: seq<Index>, c: Contract)
    ensures FirstMatch(d, s, c) == Nth(d, s, c, 0)
  {
    if s != [] { FirstIsNth(d, s[1..], c); }
  }

  lemma {:induction false} NthFacts(d: Data, s: seq<Index>, c: Contract, n: nat)
    ensures var m := Nth(d, s, c, n); m.Some? ==> m.value in s && LiveAt(d, m.value) && RegAt(d, m.value).contract == c
  {
    if s != [] {
      NthFacts(d, s[1..], c, n);
      if n > 0 { NthFacts(d, s[1..], c, n - 1); }
    }
  }

  /** The slots of `s` are as they were, but for `x`, which fell vacant. */
  ghost predicate LostOnly(d: Data, d1: Data, s: seq<Index>, x: Index) {
    forall i :: i in s ==>
      if i == x then !LiveAt(d1, i)
      else LiveAt(d1, i) == LiveAt(d, i) && (LiveAt(d, i) ==> RegAt(d1, i) == RegAt(d, i))
  }

  /** Without the first of its contract, number `n` is what was number `n + 1`; of another contract nothing changes. */
  lemma {:induction false} NthAfterLoss(d: Data, d1: Data, s: seq<Index>, c: Contract, x: Index, c0: Contract, n: nat)
    requires NoDup(s) && Nth(d, s, c0, 0) == Some(x) && LostOnly(d, d1, s, x)
    ensures Nth(d1, s, c, n) == if c == c0 then Nth(d, s, c, n + 1) else Nth(d, s, c, n)
  {
    NthFacts(d, s, c0, 0);
    var rest := s[1..];
    assert s == [s[0]] + rest;
    NoDupCons(s[0], rest);
    if s[0] == x {
      NthSame(d, d1, rest, c, n);
    } else {
      if LiveAt(d, s[0]) && RegAt(d, s[0]).contract == c {
        if n > 0 { NthAfterLoss(d, d1, rest, c, x, c0, n - 1); }
      } else {
        NthAfterLoss(d, d1, rest, c, x, c0, n);
      }
    }
  }

  lemma {:induction false} NthSame(d: Data, d1: Data, s: seq<Index>, c: Contract, n: nat)
    requires forall i :: i in s ==> LiveAt(d1, i) == LiveAt(d, i) && (LiveAt(d, i) ==> RegAt(d1, i) == RegAt(d, i))
    ensures Nth(d1, s, c, n) == Nth(d, s, c, n)
  {
    if s != [] {
      NthSame(d, d1, s[1..], c, n);
      if n > 0 { NthSame(d, d1, s[1..], c, n - 1); }
    }
  }

  lemma {:induction false} NoneAtAll(d: Data, s: seq<Index>, c: Contract, n: nat)
    requires Nth(d, s, c, 0) == None
    ensures Nth(d, s, c, n) == None
  {
    if s != [] { NoneAtAll(d, s[1..], c, n); }
  }

  lemma {:induction false} AheadSame(d: Data, d1: Data, s: seq<Index>, c: Contract)
    requires forall i :: i in s ==> LiveAt(d1, i) == LiveAt(d, i) && (LiveAt(d, i) ==> RegAt(d1, i) == RegAt(d, i))
    ensures Ahead(d1, s, c) == Ahead(d, s, c)
  {
    if s != [] { AheadSame(d, d1, s[1..], c); }
  }

  ghost predicate Apart(s: seq<Index>, t: seq<Index>) { forall o :: o in s ==> o !in t }

  /** One turn: the old slot gets the first of its contract, or falls vacant; nothing else changes but that arrival. */
  ghost predicate Served(d: Data, d1: Data, o: Index, arrived: seq<Index>) {
    && LiveAt(d, o) && |d1.slots| == |d.slots|
    && var c0 := RegAt(d, o).contract;
       && d1.slots[o].reg == Handed(d, arrived, c0, 0)
       && (forall i: Index :: i < |d.slots| && i != o && Some(i) != Nth(d, arrived, c0, 0) ==>
            d1.slots[i] == d.slots[i])
       && (Nth(d, arrived, c0, 0).Some? ==> !LiveAt(d1, Nth(d, arrived, c0, 0).value))
  }

  lemma SwapOneServes(d: Data, b: Bundle, o: Index, arrived: seq<Index>)
    requires o !in arrived && LiveAt(d, o)
    ensures SwapOne(d, b, o, arrived).1 && Served(d, SwapOne(d, b, o, arrived).0, o, arrived)
  {
    var c0 := RegAt(d, o).contract;
    FirstIsNth(d, arrived, c0);
    NthFacts(d, arrived, c0, 0);
  }

  /** What the later turns are handed, counted before and after the first turn. */
  lemma HandedAfter(d: Data, d1: Data, o: Index, arrived: seq<Index>, c: Contract, n: nat)
    requires Served(d, d1, o, arrived) && o !in arrived && NoDup(arrived)
    ensures Handed(d1, arrived, c, n) ==
      Handed(d, arrived, c, n + if RegAt(d, o).contract == c then 1 else 0)
  {
    var c0 := RegAt(d, o).contract;
    var m := Nth(d, arrived, c0, 0);
    NthFacts(d, arrived, c0, 0);
    NthFacts(d1, arrived, c, n);
    if m.Some? {
      NthAfterLoss(d, d1, arrived, c, m.value, c0, n);
    } else {
      NthSame(d, d1, arrived, c, n);
      NoneAtAll(d, arrived, c0, n);
      NoneAtAll(d, arrived, c0, n + 1);
    }
  }

  /** Slots that are neither old nor arrived are untouched. */
  lemma {:induction false} SwapAllFrame(d: Data, b: Bundle, before: seq<Index>, arrived: seq<Index>)
    requires NoDup(before) && Apart(before, arrived)
    ensures |SwapAll(d, b, before, arrived).0.slots| == |d.slots|
    ensures forall i: Index :: i < |d.slots| && i !in before && i !in arrived ==>
      SwapAll(d, b, before, arrived).0.slots[i] == d.slots[i]
    decreases |before|
  {
    if before != [] && LiveAt(d, before[0]) {
      var o, rest := before[0], before[1..];
      assert before == [o] + rest;
      NoDupCons(o, rest);
      SwapOneServes(d, b, o, arrived);
      NthFacts(d, arrived, RegAt(d, o).contract, 0);
      SwapAllFrame(SwapOne(d, b, o, arrived).0, b, rest, arrived);
    }
  }

  /**
    The old slot number `j` is handed the registration of its contract that arrived next after
    those the old slots ahead of it took; or, if none is left, falls vacant.
   */
  lemma {:induction false} SwapAllHands(d: Data, b: Bundle, before: seq<Index>, arrived: seq<Index>, j: nat)
    requires NoDup(before) && NoDup(arrived) && Apart(before, arrived) && j < |before|
    requires forall o :: o in before ==> LiveAt(d, o)
    ensures before[j] < |SwapAll(d, b, before, arrived).0.slots|
    ensures var c := RegAt(d, before[j]).contract;
      SwapAll(d, b, before, arrived).0.slots[before[j]].reg == Handed(d, arrived, c, Ahead(d, before[..j], c))
    decreases |before|
  {
    var o, rest := before[0], before[1..];
    assert before == [o] + rest;
    NoDupCons(o, rest);
    SwapOneServes(d, b, o, arrived);
    NthFacts(d, arrived, RegAt(d, o).contract, 0);
    var d1 := SwapOne(d, b, o, arrived).0;
    SwapAllFrame(d1, b, rest, arrived);
    if j > 0 {
      var c := RegAt(d, before[j]).contract;
      assert rest[j - 1] == before[j] && rest[j - 1] in rest;
      RestUntouched(d, d1, o, rest, arrived);
      SwapAllHands(d1, b, rest, arrived, j - 1);
      HandedShift(d, d1, o, rest, arrived, j, c);
      assert before[..j] == [o] + rest[..j - 1];
    }
  }

  lemma RestUntouched(d: Data, d1: Data, o: Index, rest: seq<Index>, arrived: seq<Index>)
    requires Served(d, d1, o, arrived) && Apart(rest, arrived) && o !in rest && forall i :: i in rest ==> LiveAt(d, i)
    ensures forall i :: i in rest ==> LiveAt(d1, i) && RegAt(d1, i) == RegAt(d, i)
  {
    NthFacts(d, arrived, RegAt(d, o).contract, 0);
    forall i | i in rest
      ensures LiveAt(d1, i) && RegAt(d1, i) == RegAt(d, i)
    {
      assert d1.slots[i] == d.slots[i];
    }
  }

  lemma HandedShift(d: Data, d1: Data, o: Index, rest: seq<Index>, arrived: seq<Index>, j: nat, c: Contract)
    requires Served(d, d1, o, arrived) && o !in arrived && NoDup(arrived) && 0 < j <= |rest|
    requires forall i :: i in rest ==> LiveAt(d, i) && LiveAt(d1, i) && RegAt(d1, i) == RegAt(d, i)
    ensures Handed(d1, arrived, c, Ahead(d1, rest[..j - 1], c)) ==
      Handed(d, arrived, c, Ahead(d, [o] + rest[..j - 1], c))
  {
    var ahead := rest[..j - 1];
    AheadSame(d, d1, ahead, c);
    HandedAfter(d, d1, o, arrived, c, Ahead(d, ahead, c));
    assert ([o] + ahead)[1..] == ahead;
  }

  /** The swap of a reload matches old slots and arrivals in order, contract by contract. */
  lemma SwapMatchesInOrder(d: Data, b: Bundle, before: seq<Index>, pending: seq<Index>, j: nat)
    requires WindowOpen(d, b, before, pending) && j < |before|
    ensures LiveAt(d, before[j]) && before[j] < |ApplySwap(d, b, before).0.slots|
    ensures var c := RegAt(d, before[j]).contract;
      ApplySwap(d, b, before).0.slots[before[j]].reg == Handed(d, pending, c, Ahead(d, before[..j], c))
  {
    var d0 := d.(reloading := d.reloading - {b});
    assert NoDup(Slots(d, b));
    DisjointParts(before, pending);
    MinusPrefix(before, pending, before);
    SubsDistinct(before, pending);
    forall o | o in before
      ensures LiveAt(d, o)
    {
      assert o in Slots(d, b);
    }
    SwapAllHands(d0, b, before, pending, j);
    var c := RegAt(d, before[j]).contract;
    NthSame(d, d0, pending, c, Ahead(d, before[..j], c));
    AheadSame(d, d0, before[..j], c);
    FreshKeepsSlots(SwapAll(d0, b, before, pending).0, pending);
  }

  lemma SubsDistinct(s: seq<Index>, t: seq<Index>)
    requires NoDup(s + t)
    ensures NoDup(s) && NoDup(t)
  {
    assert forall i :: 0 <= i < |s| ==> (s + t)[i] == s[i];
    assert forall i :: 0 <= i < |t| ==> (s + t)[|s| + i] == t[i];
  }

  predicate Begins(s: seq<Index>, t: seq<Index>) { |t| <= |s| && s[..|t|] == t }

  /** Publishing what is left appends: whatever was listed keeps its place, so the first found stays the first. */
  lemma {:induction false} FreshKeepsSlots(d: Data, arrived: seq<Index>)
    ensures PublishFresh(d, arrived).slots == d.slots && PublishFresh(d, arrived).bundles == d.bundles
    ensures forall c :: Begins(Indexed(PublishFresh(d, arrived), c), Indexed(d, c))
    decreases |arrived|
  {
    if arrived != [] {
      var n := arrived[0];
      var d1 := if LiveAt(d, n) && n !in Indexed(d, RegAt(d, n).contract)
        then d.(index := d.index[RegAt(d, n).contract := Indexed(d, RegAt(d, n).contract) + [n]])
        else d;
      FreshKeepsSlots(d1, arrived[1..]);
      var d' := PublishFresh(d, arrived);
      forall c
        ensures Begins(Indexed(d', c), Indexed(d, c))
      {
        assert Begins(Indexed(d1, c), Indexed(d, c)) && Begins(Indexed(d', c), Indexed(d1, c));
      }
    }
  }
}
