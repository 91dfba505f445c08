/**
  What every write-locked section of the store keeps: the index, the owner lists and
  the slot array describe the same set of registrations, and exactly the slots of an
  open reload window are missing from the index.
 */
module RegistryInvariant {
  import opened Basics
  import opened RegistryStore

  ghost predicate NoDup(s: seq<Index>) {
    forall i, j :: 0 <= i < j < |s| ==> s[i] != s[j]
  }

  predicate Published(d: Data, i: Index) {
    LiveAt(d, i) && i in Indexed(d, RegAt(d, i).contract)
  }

  ghost predicate ListsDistinct(d: Data) {
    && (forall c :: NoDup(Indexed(d, c)))
    && (forall b :: NoDup(Slots(d, b)))
  }

  /** A live slot is listed by its bundle, and by its contract unless it is pending. */
  ghost predicate SlotLinked(d: Data, pending: set<Index>, i: Index) {
    LiveAt(d, i) ==> i in Slots(d, RegAt(d, i).bundle) && (Published(d, i) <==> i !in pending)
  }

  /** The lists name live slots only, and every live slot is linked. */
  ghost predicate Linked(d: Data, pending: set<Index>) {
    && (forall c, i {:trigger i in Indexed(d, c)} :: i in Indexed(d, c) ==> LiveAt(d, i) && RegAt(d, i).contract == c)
    && (forall b, i {:trigger i in Slots(d, b)} :: i in Slots(d, b) ==> LiveAt(d, i) && RegAt(d, i).bundle == b)
    && (forall i: Index :: SlotLinked(d, pending, i))
    && (forall i :: i in pending ==> LiveAt(d, i))
  }

  /** The store is consistent and `pending` are its unpublished slots. */
  ghost predicate Consistent(d: Data, pending: set<Index>) {
    ListsDistinct(d) && Linked(d, pending)
  }

  /** What a count looks for: providers of a contract, from a major version on or of one bundle, or one registration. */
  datatype Query =
    | Providing(contract: Contract)
    | AtLeast(contract: Contract, floor: nat)
    | From(bundle: Bundle, contract: Contract, floor: nat)
    | Exactly(registration: Registration)

  predicate Matches(r: Registration, q: Query) {
    match q
    case Providing(c) => r.contract == c
    case AtLeast(c, floor) => r.contract == c && r.major >= floor
    case From(b, c, floor) => r.bundle == b && r.contract == c && r.major >= floor
    case Exactly(x) => r == x
  }

  /** How many slots of a list hold a matching registration. */
  function CountIn(d: Data, s: seq<Index>, q: Query): nat {
    if s == [] then 0 else One(d, s[0], q) + CountIn(d, s[1..], q)
  }

  function One(d: Data, i: Index, q: Query): nat {
    if LiveAt(d, i) && Matches(RegAt(d, i), q) then 1 else 0
  }

  function Members(s: seq<Index>): set<Index> { set x | x in s }

  // ------------------------------------------------------------ list helpers

  lemma {:induction false} RetainFacts(s: seq<Index>, x: Index)
    ensures forall y :: y in Retain(s, x) <==> y in s && y != x
    ensures NoDup(s) ==> NoDup(Retain(s, x))
    ensures x !in s ==> Retain(s, x) == s
  {
    if s != [] {
      RetainFacts(s[1..], x);
      assert s == [s[0]] + s[1..];
      if NoDup(s) {
        assert NoDup(s[1..]) && s[0] !in s[1..];
        NoDupCons(s[0], Retain(s[1..], x));
      }
    }
  }

  lemma NoDupCons(x: Index, s: seq<Index>)
    requires NoDup(s) && x !in s
    ensures NoDup([x] + s)
  {
  }

  lemma NoDupSnoc(s: seq<Index>, x: Index)
    requires NoDup(s) && x !in s
    ensures NoDup(s + [x])
  {
  }

  lemma Associate<T>(a: seq<T>, b: seq<T>, c: seq<T>)
    ensures a + (b + c) == (a + b) + c
  {
  }

  lemma {:induction false} RetainAppend(s: seq<Index>, t: seq<Index>, x: Index)
    ensures Retain(s + t, x) == Retain(s, x) + Retain(t, x)
  {
    if s == [] {
      assert s + t == t;
    } else {
      RetainAppend(s[1..], t, x);
      assert (s + t)[1..] == s[1..] + t;
      Associate(if s[0] == x then [] else [s[0]], Retain(s[1..], x), Retain(t, x));
    }
  }

  lemma {:induction false} MinusPrefix(s: seq<Index>, t: seq<Index>, drop: seq<Index>)
    requires (forall x :: x in s ==> x in drop) && (forall x :: x in t ==> x !in drop)
    ensures Minus(s + t, drop) == t
  {
    if s != [] {
      MinusPrefix(s[1..], t, drop);
      assert (s + t)[1..] == s[1..] + t;
    } else {
      assert s + t == t;
      MinusNone(t, drop);
    }
  }

  lemma {:induction false} MinusNone(t: seq<Index>, drop: seq<Index>)
    requires forall x :: x in t ==> x !in drop
    ensures Minus(t, drop) == t
  {
    if t != [] { MinusNone(t[1..], drop); }
  }

  lemma {:induction false} CountAppend(d: Data, s: seq<Index>, t: seq<Index>, q: Query)
    ensures CountIn(d, s + t, q) == CountIn(d, s, q) + CountIn(d, t, q)
  {
    if s == [] {
      assert s + t == t;
    } else {
      CountAppend(d, s[1..], t, q);
      assert (s + t)[1..] == s[1..] + t;
    }
  }

  lemma {:induction false} CountFrame(d: Data, d': Data, s: seq<Index>, q: Query)
    requires forall i :: i in s ==> i < |d.slots| && i < |d'.slots| && d'.slots[i] == d.slots[i]
    ensures CountIn(d, s, q) == CountIn(d', s, q)
  {
    if s != [] {
      assert forall i :: i in s[1..] ==> i in s;
      CountFrame(d, d', s[1..], q);
      assert s[0] in s;
    }
  }

  /** Taking one slot out of a list takes exactly its registration. */
  lemma {:induction false} CountRetain(d: Data, s: seq<Index>, n: Index, q: Query)
    requires NoDup(s) && n in s
    ensures CountIn(d, s, q) == CountIn(d, Retain(s, n), q) + One(d, n, q)
  {
    RetainFacts(s[1..], n);
    if s[0] == n {
      assert n !in s[1..];
      assert Retain(s, n) == s[1..];
    } else {
      assert Retain(s, n) == [s[0]] + Retain(s[1..], n);
      CountRetain(d, s[1..], n, q);
    }
  }

  // ------------------------------------------------------------ store sections

  lemma {:induction false} VacantIsFirst(slots: seq<Slot>)
    ensures forall i :: 0 <= i < FirstVacant(slots) ==> slots[i].reg.Some?
  {
    if slots != [] && slots[0].reg.Some? { VacantIsFirst(slots[1..]); }
  }

  /** `d'` differs from `d` by one more slot `n`, holding `r`. */
  ghost predicate Grown(d: Data, d': Data, n: Index, r: Registration, publish: bool) {
    && !LiveAt(d, n) && LiveAt(d', n) && RegAt(d', n) == r
    && (forall i: Index :: i != n ==> LiveAt(d', i) == LiveAt(d, i) && (LiveAt(d, i) ==> d'.slots[i] == d.slots[i]))
    && (forall b :: Slots(d', b) == if b == r.bundle then Slots(d, b) + [n] else Slots(d, b))
    && (forall c :: Indexed(d', c) == if publish && c == r.contract then Indexed(d, c) + [n] else Indexed(d, c))
    && d'.bundles.Keys == d.bundles.Keys && d'.reloading == d.reloading
  }

  lemma InsertGrows(d: Data, r: Registration, publish: bool)
    requires r.bundle in d.bundles
    ensures var (d', h) := Insert(d, r, publish);
      Grown(d, d', h.index, r, publish) && h.generation == d'.slots[h.index].generation
  {
  }

  /** Inserting adds one slot to its bundle and nothing else, pending or published as asked. */
  lemma InsertKeeps(d: Data, pending: set<Index>, r: Registration, publish: bool)
    requires Consistent(d, pending) && r.bundle in d.bundles
    ensures var (d', h) := Insert(d, r, publish);
      && Consistent(d', if publish then pending else pending + {h.index})
      && Grown(d, d', h.index, r, publish) && h.generation == d'.slots[h.index].generation
  {
    var (d', h) := Insert(d, r, publish);
    InsertGrows(d, r, publish);
    GrownDistinct(d, d', h.index, r, publish, pending);
    GrownLinked(d, d', h.index, r, publish, pending);
  }

  lemma GrownDistinct(d: Data, d': Data, n: Index, r: Registration, publish: bool, pending: set<Index>)
    requires Consistent(d, pending) && Grown(d, d', n, r, publish)
    ensures ListsDistinct(d')
  {
    forall c
      ensures NoDup(Indexed(d', c))
    {
      assert NoDup(Indexed(d, c)) && n !in Indexed(d, c);
      NoDupSnoc(Indexed(d, c), n);
    }
    forall b
      ensures NoDup(Slots(d', b))
    {
      assert NoDup(Slots(d, b)) && n !in Slots(d, b);
      NoDupSnoc(Slots(d, b), n);
    }
  }

  lemma GrownLinked(d: Data, d': Data, n: Index, r: Registration, publish: bool, pending: set<Index>)
    requires Linked(d, pending) && Grown(d, d', n, r, publish)
    ensures Linked(d', if publish then pending else pending + {n})
  {
    assert n !in pending && n !in Indexed(d, r.contract);
    assert forall x, i {:trigger i in Slots(d', x)} {:trigger i in Slots(d, x)} :: i in Slots(d', x) <==>
      i in Slots(d, x) || (i == n && x == r.bundle);
    assert forall c, i {:trigger i in Indexed(d', c)} {:trigger i in Indexed(d, c)} :: i in Indexed(d', c) <==>
      i in Indexed(d, c) || (publish && i == n && c == r.contract);
    GrownLists(d, d', n, r, publish, pending);
    var pending' := if publish then pending else pending + {n};
    forall i: Index
      ensures SlotLinked(d', pending', i)
    {
      assert SlotLinked(d, pending, i);
    }
  }

  lemma GrownLists(d: Data, d': Data, n: Index, r: Registration, publish: bool, pending: set<Index>)
    requires Linked(d, pending) && !LiveAt(d, n) && LiveAt(d', n) && RegAt(d', n) == r
    requires forall i: Index :: i != n ==> LiveAt(d', i) == LiveAt(d, i) && (LiveAt(d, i) ==> d'.slots[i] == d.slots[i])
    requires forall x, i {:trigger i in Slots(d', x)} {:trigger i in Slots(d, x)} :: i in Slots(d', x) <==>
      i in Slots(d, x) || (i == n && x == r.bundle)
    requires forall c, i {:trigger i in Indexed(d', c)} {:trigger i in Indexed(d, c)} :: i in Indexed(d', c) <==>
      i in Indexed(d, c) || (publish && i == n && c == r.contract)
    ensures forall c, i {:trigger i in Indexed(d', c)} :: i in Indexed(d', c) ==>
      LiveAt(d', i) && RegAt(d', i).contract == c
    ensures forall b, i {:trigger i in Slots(d', b)} :: i in Slots(d', b) ==> LiveAt(d', i) && RegAt(d', i).bundle == b
  {
    forall c, i | i in Indexed(d', c)
      ensures LiveAt(d', i) && RegAt(d', i).contract == c
    {
      if i != n { assert i in Indexed(d, c); }
    }
    forall b, i | i in Slots(d', b)
      ensures LiveAt(d', i) && RegAt(d', i).bundle == b
    {
      if i != n { assert i in Slots(d, b); }
    }
  }

  /** `d'` differs from `d` by slot `o` of bundle `b` being cleared. */
  ghost predicate Shrunk(d: Data, d': Data, b: Bundle, o: Index) {
    && LiveAt(d, o) && RegAt(d, o).bundle == b && !LiveAt(d', o) && |d'.slots| == |d.slots|
    && (forall i: Index :: i < |d.slots| && i != o ==> d'.slots[i] == d.slots[i])
    && (forall x :: Slots(d', x) == if x == b then Retain(Slots(d, x), o) else Slots(d, x))
    && (forall c :: Indexed(d', c) == if c == RegAt(d, o).contract then Retain(Indexed(d, c), o) else Indexed(d, c))
    && d'.bundles.Keys == d.bundles.Keys && d'.reloading == d.reloading
  }

  /** `d'` differs from `d` by the registration of `n` replacing that of `o`, both of bundle `b`. */
  ghost predicate Moved(d: Data, d': Data, b: Bundle, o: Index, n: Index) {
    && LiveAt(d, o) && LiveAt(d, n) && RegAt(d, o).bundle == b && RegAt(d, n).bundle == b && o != n
    && RegAt(d, o).contract == RegAt(d, n).contract
    && |d'.slots| == |d.slots| && !LiveAt(d', n)
    && d'.slots[o] == Slot(d.slots[n].reg, d.slots[o].generation)
    && (forall i: Index :: i < |d.slots| && i != o && i != n ==> d'.slots[i] == d.slots[i])
    && (forall x :: Slots(d', x) == if x == b then Retain(Slots(d, x), n) else Slots(d, x))
    && (forall c :: Indexed(d', c) == if c == RegAt(d, o).contract then Retain(Indexed(d, c), n) else Indexed(d, c))
    && d'.bundles.Keys == d.bundles.Keys && d'.reloading == d.reloading
  }

  lemma VacateShrinks(d: Data, b: Bundle, o: Index)
    requires LiveAt(d, o) && RegAt(d, o).bundle == b
    ensures Shrunk(d, DropOwned(VacateSlot(d, o), b, o), b, o)
    ensures DropOwned(VacateSlot(d, o), b, o).slots[o].generation == Bumped(d.slots[o].generation)
  {
  }

  lemma MoveMoves(d: Data, b: Bundle, o: Index, n: Index)
    requires LiveAt(d, o) && LiveAt(d, n) && RegAt(d, o).bundle == b && RegAt(d, n).bundle == b && o != n
    requires RegAt(d, o).contract == RegAt(d, n).contract
    ensures Moved(d, MoveInto(d, b, o, n), b, o, n)
  {
  }

  /** Removing one slot from its bundle's list and from its contract's list keeps both duplicate-free. */
  lemma ListsStayDistinct(d: Data, d': Data, b: Bundle, k: Contract, n: Index)
    requires ListsDistinct(d)
    requires forall x :: Slots(d', x) == if x == b then Retain(Slots(d, x), n) else Slots(d, x)
    requires forall c :: Indexed(d', c) == if c == k then Retain(Indexed(d, c), n) else Indexed(d, c)
    ensures ListsDistinct(d')
  {
    forall c
      ensures NoDup(Indexed(d', c))
    {
      assert NoDup(Indexed(d, c));
      RetainFacts(Indexed(d, c), n);
    }
    forall x
      ensures NoDup(Slots(d', x))
    {
      assert NoDup(Slots(d, x));
      RetainFacts(Slots(d, x), n);
    }
  }

  /** `d'` lists and holds the slots of `d` other than `n`, under the same bundles and contracts. */
  ghost predicate Less(d: Data, d': Data, n: Index) {
    && LiveAt(d, n) && !LiveAt(d', n)
    && (forall i: Index :: i != n ==> LiveAt(d', i) == LiveAt(d, i))
    && (forall i: Index :: LiveAt(d', i) ==>
         RegAt(d', i).bundle == RegAt(d, i).bundle && RegAt(d', i).contract == RegAt(d, i).contract)
    && (forall x, i {:trigger i in Slots(d', x)} {:trigger i in Slots(d, x)} :: i in Slots(d', x) <==>
         i in Slots(d, x) && i != n)
    && (forall c, i {:trigger i in Indexed(d', c)} {:trigger i in Indexed(d, c)} :: i in Indexed(d', c) <==>
         i in Indexed(d, c) && i != n)
  }

  lemma LessLinked(d: Data, d': Data, n: Index, pending: set<Index>)
    requires Linked(d, pending) && Less(d, d', n)
    ensures Linked(d', pending - {n})
  {
    forall i: Index
      ensures SlotLinked(d', pending - {n}, i)
    {
      assert SlotLinked(d, pending, i);
    }
    forall x, i | i in Slots(d', x)
      ensures LiveAt(d', i) && RegAt(d', i).bundle == x
    {
      assert i in Slots(d, x);
    }
    forall c, i | i in Indexed(d', c)
      ensures LiveAt(d', i) && RegAt(d', i).contract == c
    {
      assert i in Indexed(d, c);
    }
  }

  lemma ShrunkIsLess(d: Data, d': Data, b: Bundle, o: Index, pending: set<Index>)
    requires Linked(d, pending) && Shrunk(d, d', b, o)
    ensures Less(d, d', o)
  {
    RetainFacts(Slots(d, b), o);
    RetainFacts(Indexed(d, RegAt(d, o).contract), o);
  }

  lemma MovedIsLess(d: Data, d': Data, b: Bundle, o: Index, n: Index, pending: set<Index>)
    requires Linked(d, pending) && Moved(d, d', b, o, n)
    ensures Less(d, d', n)
  {
    RetainFacts(Slots(d, b), n);
    RetainFacts(Indexed(d, RegAt(d, o).contract), n);
  }

  lemma ShrunkKeeps(d: Data, d': Data, b: Bundle, o: Index, pending: set<Index>)
    requires Consistent(d, pending) && Shrunk(d, d', b, o)
    ensures Consistent(d', pending - {o})
  {
    ListsStayDistinct(d, d', b, RegAt(d, o).contract, o);
    ShrunkIsLess(d, d', b, o, pending);
    LessLinked(d, d', o, pending);
  }

  lemma MovedKeeps(d: Data, d': Data, b: Bundle, o: Index, n: Index, pending: set<Index>)
    requires Consistent(d, pending) && Moved(d, d', b, o, n)
    ensures Consistent(d', pending - {n})
  {
    ListsStayDistinct(d, d', b, RegAt(d, o).contract, n);
    MovedIsLess(d, d', b, o, n, pending);
    LessLinked(d, d', n, pending);
  }

  /** Adds slot `n` to the find list of its contract. */
  function PublishOne(d: Data, n: Index): Data
    requires LiveAt(d, n)
  {
    d.(index := d.index[RegAt(d, n).contract := Indexed(d, RegAt(d, n).contract) + [n]])
  }

  /** Indexing one pending slot publishes it and nothing else. */
  lemma PublishOneKeeps(d: Data, n: Index, pending: set<Index>)
    requires Consistent(d, pending) && n in pending
    ensures n !in Indexed(d, RegAt(d, n).contract) && Consistent(PublishOne(d, n), pending - {n})
  {
    var k, d' := RegAt(d, n).contract, PublishOne(d, n);
    assert SlotLinked(d, pending, n);
    assert forall c :: Indexed(d', c) == if c == k then Indexed(d, k) + [n] else Indexed(d, c);
    assert forall b :: Slots(d', b) == Slots(d, b);
    forall c
      ensures NoDup(Indexed(d', c))
    {
      assert NoDup(Indexed(d, c));
      if c == k { NoDupSnoc(Indexed(d, k), n); }
    }
    forall b
      ensures NoDup(Slots(d', b))
    {
      assert NoDup(Slots(d, b));
    }
    PublishOneLinked(d, n, pending);
  }

  lemma PublishOneLinked(d: Data, n: Index, pending: set<Index>)
    requires Linked(d, pending) && n in pending
    ensures Linked(PublishOne(d, n), pending - {n})
  {
    var d' := PublishOne(d, n);
    assert d'.slots == d.slots && d'.bundles == d.bundles;
    assert forall i: Index :: LiveAt(d', i) == LiveAt(d, i);
    assert forall x :: Slots(d', x) == Slots(d, x);
    assert forall c, i {:trigger i in Indexed(d', c)} {:trigger i in Indexed(d, c)} :: i in Indexed(d', c) <==>
      i in Indexed(d, c) || (i == n && c == RegAt(d, n).contract);
    forall i: Index
      ensures SlotLinked(d', pending - {n}, i)
    {
      assert SlotLinked(d, pending, i);
    }
    PublishOneLists(d, d', n, pending);
  }

  lemma PublishOneLists(d: Data, d': Data, n: Index, pending: set<Index>)
    requires Linked(d, pending) && n in pending && d'.slots == d.slots
    requires forall x :: Slots(d', x) == Slots(d, x)
    requires forall c, i {:trigger i in Indexed(d', c)} {:trigger i in Indexed(d, c)} :: i in Indexed(d', c) <==>
      i in Indexed(d, c) || (i == n && c == RegAt(d, n).contract)
    ensures forall c, i {:trigger i in Indexed(d', c)} :: i in Indexed(d', c) ==>
      LiveAt(d', i) && RegAt(d', i).contract == c
    ensures forall b, i {:trigger i in Slots(d', b)} :: i in Slots(d', b) ==> LiveAt(d', i) && RegAt(d', i).bundle == b
  {
    forall c, i | i in Indexed(d', c)
      ensures LiveAt(d', i) && RegAt(d', i).contract == c
    {
      assert LiveAt(d, i);
    }
    forall b, i | i in Slots(d', b)
      ensures LiveAt(d', i) && RegAt(d', i).bundle == b
    {
      assert i in Slots(d, b) && LiveAt(d, i);
    }
  }
}
