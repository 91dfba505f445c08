/**
  What a reload does to the registry: while the window is open nothing visible
  changes; the swap makes exactly the new version's registrations visible, reusing
  the old slots so that handles survive; an abort restores the previous version.
 */
module ReloadSwap {
  import opened Basics
  import opened RegistryStore
  import opened RegistryInvariant

  // ---------------------------------------------------------- one swap, midway

  /**
    Midway through a swap of bundle `b`: `kept` are reconciled slots, `before` the old
    slots still to do, `rem` the new slots not yet consumed out of `arrived`.
   */
  ghost predicate Mid(d: Data, b: Bundle, kept: seq<Index>, before: seq<Index>, rem: seq<Index>, arrived: seq<Index>) {
    && Consistent(d, Members(rem))
    && b in d.bundles && d.bundles[b] == kept + before + rem
    && (forall n :: n in arrived ==> (LiveAt(d, n) <==> n in rem))
    && (forall n :: n in rem ==> n in arrived)
  }

  lemma {:induction false} FirstMatchFacts(d: Data, arrived: seq<Index>, c: Contract)
    ensures var m := FirstMatch(d, arrived, c);
      if m.Some? then m.value in arrived && LiveAt(d, m.value) && RegAt(d, m.value).contract == c
      else forall n :: n in arrived && LiveAt(d, n) ==> RegAt(d, n).contract != c
  {
    if arrived != [] {
      FirstMatchFacts(d, arrived[1..], c);
      assert arrived == [arrived[0]] + arrived[1..];
    }
  }

  lemma {:induction false} CountZero(d: Data, s: seq<Index>, q: Query)
    requires forall n :: n in s && LiveAt(d, n) ==> !Matches(RegAt(d, n), q)
    ensures CountIn(d, s, q) == 0
  {
    if s != [] { CountZero(d, s[1..], q); }
  }

  lemma {:induction false} CountPositive(d: Data, s: seq<Index>, n: Index, q: Query)
    requires n in s && LiveAt(d, n) && Matches(RegAt(d, n), q)
    ensures CountIn(d, s, q) > 0
  {
    if s[0] != n { CountPositive(d, s[1..], n, q); }
  }

  lemma MidParts(d: Data, b: Bundle, kept: seq<Index>, before: seq<Index>, rem: seq<Index>, arrived: seq<Index>)
    requires Mid(d, b, kept, before, rem, arrived)
    ensures NoDup(kept) && NoDup(before) && NoDup(rem)
    ensures forall i :: i in kept ==> i !in before && i !in rem
    ensures forall i :: i in before ==> i !in rem && i !in arrived
    ensures forall i :: i in kept + before + rem ==> LiveAt(d, i) && RegAt(d, i).bundle == b
  {
    var all := kept + before + rem;
    assert NoDup(Slots(d, b)) && Slots(d, b) == all;
    assert forall k :: 0 <= k < |kept| ==> all[k] == kept[k];
    assert forall k :: 0 <= k < |before| ==> all[|kept| + k] == before[k];
    assert forall k :: 0 <= k < |rem| ==> all[|kept| + |before| + k] == rem[k];
    forall i | i in all
      ensures LiveAt(d, i) && RegAt(d, i).bundle == b
    {
      assert i in Slots(d, b);
    }
    assert forall i :: i in before ==> i in all;
  }

  /** What one turn of the swap does to old slot `o`: it takes a matching new registration or goes stale. */
  ghost predicate Turned(d: Data, d': Data, b: Bundle, o: Index, rem: seq<Index>, rem': seq<Index>, keeps: bool) {
    && |d'.slots| == |d.slots| && d'.reloading == d.reloading
    && (forall x :: x != b ==> Slots(d', x) == Slots(d, x))
    && (forall i: Index :: i < |d.slots| && i != o && i !in rem ==> d'.slots[i] == d.slots[i])
    && (forall i :: i in rem' ==> i in rem)
    && LiveAt(d, o)
    && (keeps <==> CountIn(d, rem, Providing(RegAt(d, o).contract)) > 0)
    && (if keeps then Survived(d, d', o) else Retired(d, d', o))
    && (forall q :: CountIn(d, rem, q) == CountIn(d', rem', q) + One(d', o, q))
  }

  /** Handles of `o` still resolve, to an interface of the same contract. */
  ghost predicate Survived(d: Data, d': Data, o: Index) {
    LiveAt(d, o) && LiveAt(d', o) && d'.slots[o].generation == d.slots[o].generation &&
      RegAt(d', o).contract == RegAt(d, o).contract
  }

  /** Handles of `o` are stale. */
  ghost predicate Retired(d: Data, d': Data, o: Index) {
    o < |d.slots| && o < |d'.slots| && !LiveAt(d', o) && d'.slots[o].generation == Bumped(d.slots[o].generation)
  }

  lemma TurnDropped(d: Data, b: Bundle, kept: seq<Index>, before: seq<Index>, rem: seq<Index>, arrived: seq<Index>)
    requires Mid(d, b, kept, before, rem, arrived) && before != [] && LiveAt(d, before[0])
    requires FirstMatch(d, arrived, RegAt(d, before[0]).contract).None?
    ensures var (d', ok) := SwapOne(d, b, before[0], arrived);
      ok && Mid(d', b, kept, before[1..], rem, arrived) && Turned(d, d', b, before[0], rem, rem, false)
  {
    MidParts(d, b, kept, before, rem, arrived);
    var o, c := before[0], RegAt(d, before[0]).contract;
    var d' := DropOwned(VacateSlot(d, o), b, o);
    FirstMatchFacts(d, arrived, c);
    VacateShrinks(d, b, o);
    ShrunkKeeps(d, d', b, o, Members(rem));
    assert Members(rem) - {o} == Members(rem);
    RetainOut(kept, before, rem, o);
    assert d'.bundles[b] == Slots(d', b);
    CountZero(d, rem, Providing(c));
    SameCounts(d, d', rem);
  }

  /** Removing the head of `before` from the three parts. */
  lemma RetainOut(kept: seq<Index>, before: seq<Index>, rem: seq<Index>, o: Index)
    requires before != [] && o == before[0] && o !in kept && o !in before[1..] && o !in rem
    ensures Retain(kept + before + rem, o) == kept + before[1..] + rem
  {
    RetainAppend(kept + before, rem, o);
    RetainAppend(kept, before, o);
    RetainFacts(kept, o);
    RetainFacts(before[1..], o);
    RetainFacts(rem, o);
    assert Retain(before, o) == before[1..];
  }

  /** Removing a consumed new slot and passing the head of `before` to `kept`. */
  lemma RetainIn(kept: seq<Index>, before: seq<Index>, rem: seq<Index>, n: Index)
    requires before != [] && n !in kept && n !in before
    ensures Retain(kept + before + rem, n) == kept + [before[0]] + before[1..] + Retain(rem, n)
  {
    var left := kept + before;
    RetainAppend(left, rem, n);
    RetainFacts(left, n);
    assert Retain(left + rem, n) == left + Retain(rem, n);
    assert left == kept + [before[0]] + before[1..];
  }

  lemma TurnConsumed(d: Data, b: Bundle, kept: seq<Index>, before: seq<Index>, rem: seq<Index>, arrived: seq<Index>,
      n: Index)
    requires Mid(d, b, kept, before, rem, arrived) && before != [] && LiveAt(d, before[0])
    requires FirstMatch(d, arrived, RegAt(d, before[0]).contract) == Some(n)
    ensures var (d', ok) := SwapOne(d, b, before[0], arrived);
      ok && Mid(d', b, kept + [before[0]], before[1..], Retain(rem, n), arrived)
      && Turned(d, d', b, before[0], rem, Retain(rem, n), true)
  {
    MidParts(d, b, kept, before, rem, arrived);
    var o := before[0];
    FirstMatchFacts(d, arrived, RegAt(d, o).contract);
    var d' := MoveInto(d, b, o, n);
    MoveMoves(d, b, o, n);
    MovedTurns(d, d', b, o, n, rem);
    MovedKeeps(d, d', b, o, n, Members(rem));
    RetainFacts(rem, n);
    assert Members(rem) - {n} == Members(Retain(rem, n));
    RetainIn(kept, before, rem, n);
    assert d'.bundles[b] == Slots(d', b);
  }

  lemma MovedTurns(d: Data, d': Data, b: Bundle, o: Index, n: Index, rem: seq<Index>)
    requires Moved(d, d', b, o, n) && NoDup(rem) && n in rem && o !in rem
    requires forall i :: i in rem ==> i < |d.slots|
    ensures Turned(d, d', b, o, rem, Retain(rem, n), true)
  {
    CountPositive(d, rem, n, Providing(RegAt(d, o).contract));
    RetainFacts(rem, n);
    forall q
      ensures CountIn(d, rem, q) == CountIn(d', Retain(rem, n), q) + One(d', o, q)
    {
      CountRetain(d, rem, n, q);
      CountFrame(d, d', Retain(rem, n), q);
    }
  }

  lemma SameCounts(d: Data, d': Data, s: seq<Index>)
    requires forall i :: i in s ==> i < |d.slots| && i < |d'.slots| && d'.slots[i] == d.slots[i]
    ensures forall q :: CountIn(d, s, q) == CountIn(d', s, q)
  {
    forall q
      ensures CountIn(d, s, q) == CountIn(d', s, q)
    {
      CountFrame(d, d', s, q);
    }
  }

  /**
    Old slot `before[j]` survives exactly when the new version registered its contract
    more often than the old slots ahead of it use up; otherwise it is retired.
   */
  ghost predicate OldSlotFate(d: Data, d': Data, before: seq<Index>, rem: seq<Index>, j: nat)
    requires j < |before|
  {
    var o := before[j];
    LiveAt(d, o) &&
    var q := Providing(RegAt(d, o).contract);
    if CountIn(d, before[..j], q) < CountIn(d, rem, q) then Survived(d, d', o) else Retired(d, d', o)
  }

  /** Two pairs of lists hold the same registrations, each as often. */
  ghost predicate SameContent(d: Data, s: seq<Index>, t: seq<Index>, d': Data, s': seq<Index>, t': seq<Index>) {
    forall q :: CountIn(d, s, q) + CountIn(d, t, q) == CountIn(d', s', q) + CountIn(d', t', q)
  }

  /** Everything a whole swap changes, relative to the state in which it started. */
  ghost predicate Reconciled(d: Data, d': Data, b: Bundle, kept: seq<Index>, before: seq<Index>, rem: seq<Index>,
                             kept': seq<Index>, rem': seq<Index>) {
    && |d'.slots| == |d.slots| && d'.reloading == d.reloading
    && (forall x :: x != b ==> Slots(d', x) == Slots(d, x))
    && (forall i: Index :: i < |d.slots| && i !in before && i !in rem ==> d'.slots[i] == d.slots[i])
    && SameContent(d, kept, rem, d', kept', rem')
    && (forall j :: 0 <= j < |before| ==> OldSlotFate(d, d', before, rem, j))
  }

  /** The fates of the later slots, seen from before the first turn. */
  lemma FateShifts(d: Data, d1: Data, d': Data, b: Bundle, before: seq<Index>, rem: seq<Index>, rem1: seq<Index>,
      keeps: bool, j: nat)
    requires before != [] && 0 < j < |before| && NoDup(before)
    requires (forall i :: i in before ==> i !in rem && LiveAt(d, i))
    requires Turned(d, d1, b, before[0], rem, rem1, keeps)
    requires OldSlotFate(d1, d', before[1..], rem1, j - 1)
    ensures OldSlotFate(d, d', before, rem, j)
  {
    var o, later := before[j], before[1..][..j - 1];
    assert before[1..][j - 1] == o && d1.slots[o] == d.slots[o];
    assert before[..j][0] == before[0] && before[..j][1..] == later;
    forall i | i in later
      ensures LiveAt(d, i) && i < |d1.slots| && d1.slots[i] == d.slots[i]
    {
      var k :| 0 <= k < j - 1 && later[k] == i;
      assert before[k + 1] == i;
    }
    var q := Providing(RegAt(d, o).contract);
    CountFrame(d, d1, later, q);
    assert CountIn(d, before[..j], q) == One(d, before[0], q) + CountIn(d1, later, q);
    assert CountIn(d, rem, q) == CountIn(d1, rem1, q) + One(d1, before[0], q);
  }

  lemma FateOfFirst(d: Data, d1: Data, d': Data, b: Bundle, before: seq<Index>, rem: seq<Index>, rem1: seq<Index>,
      keeps: bool)
    requires before != [] && NoDup(before) && before[0] !in rem && Turned(d, d1, b, before[0], rem, rem1, keeps)
    requires |d'.slots| == |d1.slots|
    requires forall i: Index :: i < |d1.slots| && i !in before[1..] && i !in rem1 ==> d'.slots[i] == d1.slots[i]
    ensures OldSlotFate(d, d', before, rem, 0)
  {
    assert before[0] !in before[1..] && before[0] !in rem1;
    assert CountIn(d, before[..0], Providing(RegAt(d, before[0]).contract)) == 0;
  }

  /** The first turn conserves the content of what is kept and what remains. */
  lemma TurnContent(d: Data, d1: Data, b: Bundle, kept: seq<Index>, o: Index, rem: seq<Index>, rem1: seq<Index>,
      keeps: bool)
    requires Turned(d, d1, b, o, rem, rem1, keeps)
    requires forall i :: i in kept ==> i < |d.slots| && i != o && i !in rem
    ensures SameContent(d, kept, rem, d1, if keeps then kept + [o] else kept, rem1)
  {
    SameCounts(d, d1, kept);
    if keeps {
      forall q
        ensures CountIn(d, kept, q) + CountIn(d, rem, q) == CountIn(d1, kept + [o], q) + CountIn(d1, rem1, q)
      {
        CountAppend(d1, kept, [o], q);
        assert CountIn(d1, [o], q) == One(d1, o, q);
      }
    }
  }

  lemma SwapStep(d: Data, d1: Data, d': Data, b: Bundle, kept: seq<Index>, before: seq<Index>, rem: seq<Index>,
                 kept1: seq<Index>, rem1: seq<Index>, kept': seq<Index>, rem': seq<Index>, keeps: bool)
    requires before != [] && NoDup(before)
    requires forall i :: i in before ==> i !in rem && LiveAt(d, i)
    requires Turned(d, d1, b, before[0], rem, rem1, keeps)
    requires SameContent(d, kept, rem, d1, kept1, rem1)
    requires Reconciled(d1, d', b, kept1, before[1..], rem1, kept', rem')
    ensures Reconciled(d, d', b, kept, before, rem, kept', rem')
  {
    forall j | 0 <= j < |before|
      ensures OldSlotFate(d, d', before, rem, j)
    {
      if j > 0 {
        FateShifts(d, d1, d', b, before, rem, rem1, keeps, j);
      } else {
        FateOfFirst(d, d1, d', b, before, rem, rem1, keeps);
      }
    }
  }

  /** A whole swap: it never fails on a consistent store, and conserves the new registrations. */
  lemma {:induction false} SwapReconciles(d: Data, b: Bundle, kept: seq<Index>, before: seq<Index>, rem: seq<Index>,
      arrived: seq<Index>)
    returns (kept': seq<Index>, rem': seq<Index>)
    requires Mid(d, b, kept, before, rem, arrived)
    ensures var (d', ok) := SwapAll(d, b, before, arrived);
      ok && Mid(d', b, kept', [], rem', arrived) && Reconciled(d, d', b, kept, before, rem, kept', rem')
    decreases |before|
  {
    if before == [] {
      kept', rem' := kept, rem;
    } else {
      var d1, kept1, rem1, keeps := SwapTurn(d, b, kept, before, rem, arrived);
      kept', rem' := SwapReconciles(d1, b, kept1, before[1..], rem1, arrived);
      var d' := SwapAll(d1, b, before[1..], arrived).0;
      assert SwapAll(d, b, before, arrived) == (d', true);
      MidParts(d, b, kept, before, rem, arrived);
      SwapStep(d, d1, d', b, kept, before, rem, kept1, rem1, kept', rem', keeps);
    }
  }

  lemma SwapTurn(d: Data, b: Bundle, kept: seq<Index>, before: seq<Index>, rem: seq<Index>, arrived: seq<Index>)
    returns (d1: Data, kept1: seq<Index>, rem1: seq<Index>, keeps: bool)
    requires Mid(d, b, kept, before, rem, arrived) && before != []
    ensures SwapOne(d, b, before[0], arrived) == (d1, true)
    ensures Mid(d1, b, kept1, before[1..], rem1, arrived)
    ensures Turned(d, d1, b, before[0], rem, rem1, keeps)
    ensures SameContent(d, kept, rem, d1, kept1, rem1)
  {
    MidParts(d, b, kept, before, rem, arrived);
    var o := before[0];
    assert o in kept + before + rem;
    assert forall i :: i in kept ==> i in kept + before + rem;
    var m := FirstMatch(d, arrived, RegAt(d, o).contract);
    d1, kept1, rem1, keeps := SwapOne(d, b, o, arrived).0, kept, rem, m.Some?;
    if m.None? {
      TurnDropped(d, b, kept, before, rem, arrived);
    } else {
      TurnConsumed(d, b, kept, before, rem, arrived, m.value);
      kept1, rem1 := kept + [o], Retain(rem, m.value);
    }
    TurnContent(d, d1, b, kept, o, rem, rem1, keeps);
  }
}
