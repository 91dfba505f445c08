/** A list per thread, kept in one map; an empty list is not stored. */
module ThreadLists {

  type Thread = nat
  type Lists<T> = map<Thread, seq<T>>

  function Of<T>(m: Lists<T>, t: Thread): seq<T> { if t in m then m[t] else [] }

  function Put<T>(m: Lists<T>, t: Thread, s: seq<T>): Lists<T> { if s == [] then m - {t} else m[t := s] }

  function Pushed<T>(m: Lists<T>, t: Thread, x: T): Lists<T> { m[t := Of(m, t) + [x]] }

  /** Pop is a no-op on a thread with nothing pushed, and forgets a list it empties. */
  function Popped<T>(m: Lists<T>, t: Thread): Lists<T> {
    if t !in m then m
    else if |m[t]| <= 1 then m - {t}
    else m[t := m[t][..|m[t]| - 1]]
  }

  /** All entries of all lists. */
  ghost function Total<T>(m: Lists<T>): nat
    decreases |m.Keys|
  {
    if m.Keys == {} then 0 else
      var t :| t in m.Keys;
      |m[t]| + Total(m - {t})
  }

  lemma PutOf<T>(m: Lists<T>, t: Thread, s: seq<T>)
    ensures forall u :: Of(Put(m, t, s), u) == if u == t then s else Of(m, u)
  {
  }

  lemma PushedOf<T>(m: Lists<T>, t: Thread, x: T)
    ensures forall u :: Of(Pushed(m, t, x), u) == if u == t then Of(m, t) + [x] else Of(m, u)
  {
  }

  lemma PoppedOf<T>(m: Lists<T>, t: Thread)
    ensures forall u :: u != t ==> Of(Popped(m, t), u) == Of(m, u)
    ensures Of(Popped(m, t), t) == if Of(m, t) == [] then [] else Of(m, t)[..|Of(m, t)| - 1]
  {
  }

  lemma {:induction false} TotalSplit<T>(m: Lists<T>, t: Thread)
    requires t in m
    ensures Total(m) == |m[t]| + Total(m - {t})
    decreases |m.Keys|
  {
    var u :| u in m.Keys && Total(m) == |m[u]| + Total(m - {u});
    if u != t {
      TotalSplit(m - {u}, t);
      TotalSplit(m - {t}, u);
      assert (m - {u}) - {t} == (m - {t}) - {u};
    }
  }

  lemma TotalPut<T>(m: Lists<T>, t: Thread, s: seq<T>)
    ensures Total(m[t := s]) == Total(m) - |Of(m, t)| + |s|
  {
    TotalSplit(m[t := s], t);
    if t in m {
      TotalSplit(m, t);
      assert m[t := s] - {t} == m - {t};
    } else {
      assert m[t := s] - {t} == m;
    }
  }

  lemma TotalCut<T>(m: Lists<T>, t: Thread)
    ensures Total(m - {t}) == Total(m) - |Of(m, t)|
  {
    if t in m { TotalSplit(m, t); } else { assert m - {t} == m; }
  }

  /** A push followed by the matching pop restores every list, so the outer entry is on top again. */
  lemma PushPopRestores<T>(m: Lists<T>, t: Thread, x: T)
    requires t in m ==> m[t] != []
    ensures Popped(Pushed(m, t, x), t) == m
  {
    assert (Of(m, t) + [x])[..|Of(m, t)|] == Of(m, t);
    if t !in m { assert Pushed(m, t, x) - {t} == m; }
  }
}
