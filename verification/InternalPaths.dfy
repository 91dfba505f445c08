/**
  Where the generated files of an internal plugin go: below `internal/` in a directory
  named after the bundle, its name made readable and its 64-bit id in fixed-width hex.
  A path is the list of its components as path comparison sees them: a `.` counts only
  when it comes first.
 */
module InternalPaths {
  import opened Basics
  import opened OutputWriter

  type Id = x: nat | x < 0x1_0000_0000_0000_0000

  /** A `.` and a drive come first only, the root first or after a drive. */
  predicate Canonical(p: seq<Component>) {
    forall i :: 0 < i < |p| ==> !p[i].CurDir? && !p[i].Prefix? && (p[i].RootDir? ==> i == 1 && p[0].Prefix?)
  }

  /** For instance `./a`, `/a` and, with a drive, `C:/a` or `C:a`; but no root or dot further on. */
  lemma CanonicalExamples(drive: Name, a: Name)
    ensures Canonical([CurDir, Normal(a)]) && Canonical([RootDir, Normal(a)])
    ensures Canonical([Prefix(drive), RootDir, Normal(a)]) && Canonical([Prefix(drive), Normal(a)])
    ensures !Canonical([Normal(a), RootDir]) && !Canonical([Normal(a), CurDir]) && !Canonical([RootDir, RootDir])
  {
    assert [Normal(a), RootDir][1].RootDir? && [Normal(a), CurDir][1].CurDir? && [RootDir, RootDir][1].RootDir?;
  }

  /** Component lists that a path can have. */
  type Components = p: seq<Component> | Canonical(p)

  predicate Plain(c: char) {
    'a' <= c <= 'z' || 'A' <= c <= 'Z' || '0' <= c <= '9' || c == '_' || c == '-'
  }

  function Readable(name: string): (r: string)
    ensures |r| == |name| && forall i :: 0 <= i < |r| ==> Plain(r[i])
  {
    seq(|name|, i requires 0 <= i < |name| => if Plain(name[i]) then name[i] else '_')
  }

  /** By code point: digits, upper-case and lower-case letters, hyphen and underscore. */
  lemma PlainMeans(c: char)
    ensures Plain(c) <==>
      48 <= c as int <= 57 || 65 <= c as int <= 90 || 97 <= c as int <= 122 || c as int == 45 || c as int == 95
  {
  }

  /** Plain characters are kept, every other becomes an underscore. */
  lemma ReadableMeans(name: string, i: nat)
    requires i < |name|
    ensures Readable(name)[i] == if Plain(name[i]) then name[i] else '_'
  {
  }

  const HEX_DIGITS := "0123456789abcdef"

  /** The low `width` hex digits of `n`. */
  function Hex(n: nat, width: nat): (r: string)
    ensures |r| == width
  {
    if width == 0 then [] else Hex(n / 16, width - 1) + [HEX_DIGITS[n % 16]]
  }

  function DirName(name: string, id: Id): string { Readable(name) + "-" + Hex(id, 16) }

  /** Absolute paths, and those with a drive, replace what they are joined to. */
  predicate Absolute(p: Components) { p != [] && (p[0].RootDir? || p[0].Prefix?) }

  /** The path without its leading `.`. */
  function Undotted(p: Components): Components { if p != [] && p[0].CurDir? then p[1..] else p }

  /** Joining below a directory: the joined path's `.` is no longer first, and so no longer counts. */
  function Join(p: Components, q: Components): Components
    requires p != [] && !Absolute(p)
  {
    if Absolute(q) then q else p + Undotted(q)
  }

  function BundleDir(name: string, id: Id): Components { [Normal("internal"), Normal(DirName(name, id))] }

  function Prefixed(name: string, id: Id, path: Components): Components { Join(BundleDir(name, id), path) }

  /** Concretely, where a file of a bundle called `a b`, with id 255, ends up. */
  lemma PrefixedExample()
    ensures Prefixed("a b", 255, [Normal("lib.rs")]) ==
      [Normal("internal"), Normal("a_b-00000000000000ff"), Normal("lib.rs")]
  {
    HexOf255();
    assert Readable("a b") == "a_b";
    assert DirName("a b", 255) == "a_b-00000000000000ff";
    assert Undotted([Normal("lib.rs")]) == [Normal("lib.rs")];
  }

  lemma HexOf255()
    ensures Hex(255, 16) == "00000000000000ff"
  {
    HexZeros(14);
    assert Hex(15, 15) == Hex(0, 14) + ['f'] && Hex(255, 16) == Hex(15, 15) + ['f'];
  }

  lemma {:induction false} HexZeros(width: nat)
    ensures Hex(0, width) == seq(width, i => '0')
  {
    if width > 0 { HexZeros(width - 1); }
  }

  // ------------------------------------------------------------- one component

  /** Splits a string at `/`. */
  function Split(s: string): (r: seq<string>)
    ensures |r| > 0
  {
    if s == [] then [[]]
    else
      var rest := Split(s[1..]);
      if s[0] == '/' then [[]] + rest else [[s[0]] + rest[0]] + rest[1..]
  }

  lemma {:induction false} NoSeparatorIsWhole(s: string)
    requires forall i :: 0 <= i < |s| ==> s[i] != '/'
    ensures Split(s) == [s]
  {
    if s != [] {
      NoSeparatorIsWhole(s[1..]);
      assert [s[0]] + s[1..] == s;
    }
  }

  lemma {:induction false} HexIsPlain(n: nat, width: nat)
    ensures forall i :: 0 <= i < width ==> Plain(Hex(n, width)[i])
  {
    if width > 0 { HexIsPlain(n / 16, width - 1); }
  }

  /** Whatever the bundle is called, its directory is one path component, and not a dot one. */
  lemma DirIsOneComponent(name: string, id: Id)
    ensures Split(DirName(name, id)) == [DirName(name, id)] && DirName(name, id) != "" && DirName(name, id) != "."
    ensures DirName(name, id) != ".."
  {
    HexIsPlain(id, 16);
    var d := DirName(name, id);
    forall i | 0 <= i < |d|
      ensures Plain(d[i])
    {
      if i > |name| { assert d[i] == Hex(id, 16)[i - |name| - 1]; }
    }
    NoSeparatorIsWhole(d);
    assert |d| >= 17;
  }

  // ------------------------------------------------------------- injectivity

  lemma HexDigitsDiffer(a: nat, b: nat)
    requires a < 16 && b < 16 && HEX_DIGITS[a] == HEX_DIGITS[b]
    ensures a == b
  {
  }

  /** The number that lower-case hex digits write. */
  function ValueOf(s: string): int {
    if s == [] then 0 else
      var c := s[|s| - 1];
      16 * ValueOf(s[..|s| - 1]) + if '0' <= c <= '9' then c as int - '0' as int else c as int - 'a' as int + 10
  }

  /** The directory name ends in the id, written in hex. */
  lemma {:induction false} HexWrites(n: nat, width: nat)
    requires n < Pow16(width)
    ensures ValueOf(Hex(n, width)) == n
    ensures forall i :: 0 <= i < width ==> '0' <= Hex(n, width)[i] <= '9' || 'a' <= Hex(n, width)[i] <= 'f'
  {
    if width > 0 {
      HexWrites(n / 16, width - 1);
      assert Hex(n, width)[..width - 1] == Hex(n / 16, width - 1);
      HexDigitValue(n % 16);
    }
  }

  lemma HexDigitValue(d: nat)
    requires d < 16
    ensures var c := HEX_DIGITS[d];
      if d < 10 then '0' <= c <= '9' && c as int - '0' as int == d
        else 'a' <= c <= 'f' && c as int - 'a' as int + 10 == d
  {
  }

  function Pow16(width: nat): nat { if width == 0 then 1 else 16 * Pow16(width - 1) }

  /** Fixed-width hex determines every number that fits. */
  lemma {:induction false} HexInjective(a: nat, b: nat, width: nat)
    requires a < Pow16(width) && b < Pow16(width) && Hex(a, width) == Hex(b, width)
    ensures a == b
  {
    if width > 0 {
      var x, y := Hex(a / 16, width - 1), Hex(b / 16, width - 1);
      assert Hex(a, width)[..width - 1] == x && Hex(b, width)[..width - 1] == y;
      assert Hex(a, width)[width - 1] == HEX_DIGITS[a % 16] && Hex(b, width)[width - 1] == HEX_DIGITS[b % 16];
      HexDigitsDiffer(a % 16, b % 16);
      HexInjective(a / 16, b / 16, width - 1);
    }
  }

  lemma IdFits(id: Id)
    ensures id < Pow16(16)
  {
    assert Pow16(4) == 0x1_0000;
    assert Pow16(8) == 0x1_0000_0000;
    assert Pow16(12) == 0x1_0000_0000_0000;
    assert Pow16(16) == 0x1_0000_0000_0000_0000;
  }

  /** Bundles with different ids never share a directory, whatever their names. */
  lemma DirsDiffer(n: string, i: Id, m: string, j: Id)
    requires i != j
    ensures DirName(n, i) != DirName(m, j)
  {
    var a, b := DirName(n, i), DirName(m, j);
    assert a[|a| - 16..] == Hex(i, 16) && b[|b| - 16..] == Hex(j, 16);
    IdFits(i);
    IdFits(j);
    if a == b { HexInjective(i, j, 16); }
  }

  lemma PrefixedCases(n: string, i: Id, p: Components)
    ensures Absolute(Prefixed(n, i, p)) <==> Absolute(p)
    ensures !Absolute(p) ==> |Prefixed(n, i, p)| >= 2 && Prefixed(n, i, p)[1] == Normal(DirName(n, i))
    ensures !Absolute(p) ==> Prefixed(n, i, p)[2..] == Undotted(p)
  {
  }

  /** Two prefixed paths of different bundles meet only where both were one absolute path. */
  lemma PrefixedMeet(n: string, i: Id, p: Components, m: string, j: Id, q: Components)
    requires i != j
    ensures Prefixed(n, i, p) == Prefixed(m, j, q) <==> Absolute(p) && p == q
  {
    DirsDiffer(n, i, m, j);
    PrefixedCases(n, i, p);
    PrefixedCases(m, j, q);
  }

  function PrefixAll(name: string, id: Id, paths: seq<Components>): (r: seq<Components>)
    ensures |r| == |paths| && forall k :: 0 <= k < |r| ==> r[k] == Prefixed(name, id, paths[k])
  {
    seq(|paths|, k requires 0 <= k < |paths| => Prefixed(name, id, paths[k]))
  }

  /**
    The outputs of bundles with different ids are disjoint exactly when they do not share an
    absolute path; relative paths, the only ones the writer accepts, never meet.
   */
  lemma OutputsDisjoint(n: string, i: Id, ps: seq<Components>, m: string, j: Id, qs: seq<Components>)
    requires i != j
    ensures (forall p :: p in PrefixAll(n, i, ps) ==> p !in PrefixAll(m, j, qs)) <==>
      (forall p :: p in ps && Absolute(p) ==> p !in qs)
  {
    var a, b := PrefixAll(n, i, ps), PrefixAll(m, j, qs);
    if forall p :: p in ps && Absolute(p) ==> p !in qs {
      forall p | p in a
        ensures p !in b
      {
        var x :| 0 <= x < |a| && a[x] == p;
        forall y | 0 <= y < |b|
          ensures b[y] != p
        {
          PrefixedMeet(n, i, ps[x], m, j, qs[y]);
          assert ps[x] in ps && qs[y] in qs;
        }
      }
    } else {
      var p :| p in ps && Absolute(p) && p in qs;
      var x :| 0 <= x < |ps| && ps[x] == p;
      var y :| 0 <= y < |qs| && qs[y] == p;
      assert a[x] == p && b[y] == p;
      assert p in a && p in b;
    }
  }

  /** Concretely: two bundles that both generate one absolute path share it after prefixing. */
  lemma AbsolutePathIsShared(n: string, i: Id, m: string, j: Id, name: Name)
    ensures var p: Components := [RootDir, Normal(name)];
      Prefixed(n, i, p) == p == Prefixed(m, j, p) && !Safe(p)
  {
    assert RootDir in [RootDir, Normal(name)];
  }

  /** As targets below one root, the accepted files of different bundles never coincide. */
  lemma TargetsDisjoint(n: string, i: Id, p: Components, m: string, j: Id, q: Components, root: Path)
    requires i != j && Safe(p) && Safe(q)
    ensures root + NamesOf(Prefixed(n, i, p)) != root + NamesOf(Prefixed(m, j, q))
    ensures Safe(Prefixed(n, i, p))
  {
    DirsDiffer(n, i, m, j);
    PrefixedNames(n, i, p);
    PrefixedNames(m, j, q);
    var a, b := root + NamesOf(Prefixed(n, i, p)), root + NamesOf(Prefixed(m, j, q));
    assert a[|root| + 1] == DirName(n, i) && b[|root| + 1] == DirName(m, j);
  }

  lemma PrefixedNames(n: string, i: Id, p: Components)
    requires Safe(p)
    ensures NamesOf(Prefixed(n, i, p)) == ["internal", DirName(n, i)] + NamesOf(p) && Safe(Prefixed(n, i, p))
  {
    var dir, rest := BundleDir(n, i), Undotted(p);
    assert !Absolute(p) by { if p != [] { assert p[0] in p; } }
    NamesAppend(dir, rest);
    assert dir[1..][1..] == [] && dir[1..][0] == dir[1];
    assert NamesOf(dir[1..]) == [DirName(n, i)];
    assert forall c :: c in rest ==> c in p;
  }

  lemma {:induction false} NamesAppend(p: seq<Component>, q: seq<Component>)
    ensures NamesOf(p + q) == NamesOf(p) + NamesOf(q)
  {
    if p == [] {
      assert p + q == q;
    } else {
      assert (p + q)[1..] == p[1..] + q;
      NamesAppend(p[1..], q);
    }
  }

  predicate AllDistinct(paths: seq<Components>) {
    forall i, j :: 0 <= i < j < |paths| ==> paths[i] != paths[j]
  }

  function UndottedAll(paths: seq<Components>): (r: seq<Components>)
    ensures |r| == |paths| && forall k :: 0 <= k < |r| ==> r[k] == Undotted(paths[k])
  {
    seq(|paths|, k requires 0 <= k < |paths| => Undotted(paths[k]))
  }

  /** Two paths of one bundle meet below its directory exactly when they differ at most in a leading `.`. */
  lemma PrefixedSame(name: string, id: Id, p: Components, q: Components)
    ensures Prefixed(name, id, p) == Prefixed(name, id, q) <==> Undotted(p) == Undotted(q)
  {
    PrefixedCases(name, id, p);
    PrefixedCases(name, id, q);
    assert Absolute(Undotted(p)) <==> Absolute(p);
    assert Absolute(Undotted(q)) <==> Absolute(q);
  }

  /** Prefixing leaves paths distinct exactly when they differ in more than a leading `.`. */
  lemma PrefixKeepsDistinct(name: string, id: Id, paths: seq<Components>)
    ensures AllDistinct(PrefixAll(name, id, paths)) <==> AllDistinct(UndottedAll(paths))
  {
    forall x, y | 0 <= x < y < |paths|
      ensures Prefixed(name, id, paths[x]) == Prefixed(name, id, paths[y]) <==> Undotted(paths[x]) == Undotted(paths[y])
    {
      PrefixedSame(name, id, paths[x], paths[y]);
    }
  }

  /** Concretely: `./a` and `a` are accepted and distinct, and one path once prefixed. */
  lemma DotMakesDuplicate(name: string, id: Id, a: Name)
    ensures var paths: seq<Components> := [[CurDir, Normal(a)], [Normal(a)]];
      Safe(paths[0]) && Safe(paths[1]) && AllDistinct(paths) && !AllDistinct(PrefixAll(name, id, paths))
  {
    var dotted: Components, plain: Components := [CurDir, Normal(a)], [Normal(a)];
    PrefixedSame(name, id, dotted, plain);
    assert PrefixAll(name, id, [dotted, plain])[0] == PrefixAll(name, id, [dotted, plain])[1];
  }

  /** Rewrites every path in place. */
  method PrefixInternalOutput(paths: array<Components>, name: string, id: Id)
    modifies paths
    ensures paths[..] == PrefixAll(name, id, old(paths[..]))
  {
    var prefix := BundleDir(name, id);
    for k := 0 to paths.Length
      invariant forall j :: 0 <= j < k ==> paths[j] == Prefixed(name, id, old(paths[j]))
      invariant forall j :: k <= j < paths.Length ==> paths[j] == old(paths[j])
    {
      paths[k] := Join(prefix, paths[k]);
    }
  }

  method RejectDuplicates(paths: seq<Components>) returns (ok: bool)
    ensures ok == AllDistinct(paths)
  {
    var seen: set<Components> := {};
    for k := 0 to |paths|
      invariant forall p :: p in seen <==> p in paths[..k]
      invariant AllDistinct(paths[..k])
    {
      if paths[k] in seen {
        assert paths[k] in paths[..k];
        return false;
      }
      seen := seen + {paths[k]};
      assert paths[..k + 1] == paths[..k] + [paths[k]];
    }
    assert paths[..|paths|] == paths;
    return true;
  }
}
