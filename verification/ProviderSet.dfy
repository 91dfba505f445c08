/**
  The check a commit makes before publishing: the staged providers against the provider
  specs its manifest declares. A spec is a contract name, optionally with `@` and a major
  number or a full version.
 */
module ProviderSet {
  import opened Basics

  type U32 = x: nat | x < 0x1_0000_0000

  datatype Version = Version(major: U32, minor: U32, patch: U32)

  /** A staged provider: its registered name, which may itself carry `@version`, and its descriptor's version. */
  datatype Provider = Provider(name: string, version: Version)

  datatype Spec = Spec(name: string, version: Option<string>)

  // ---------------------------------------------------------------- strings

  /** Splits at the first `@`. */
  function SplitAt(s: string): Spec {
    if s == [] then Spec([], None)
    else if s[0] == '@' then Spec([], Some(s[1..]))
    else var rest := SplitAt(s[1..]); Spec([s[0]] + rest.name, rest.version)
  }

  function Digits(s: string): Option<nat> {
    if s == [] then Some(0)
    else if !('0' <= s[|s| - 1] <= '9') then None
    else
      var high := Digits(s[..|s| - 1]);
      if high.None? then None else Some(high.value * 10 + (s[|s| - 1] as int - '0' as int))
  }

  /** An unsigned 32-bit number in decimal; a leading `+` is accepted. */
  function ParseU32(s: string): Option<U32> {
    var body := if s != [] && s[0] == '+' then s[1..] else s;
    if body == [] then None else
      var n := Digits(body);
      if n.None? || n.value >= 0x1_0000_0000 then None else Some(n.value)
  }

  /** Dot-separated parts; there is always at least one. */
  function Parts(s: string): (r: seq<string>)
    ensures |r| > 0
  {
    if s == [] then [[]]
    else
      var rest := Parts(s[1..]);
      if s[0] == '.' then [[]] + rest else [[s[0]] + rest[0]] + rest[1..]
  }

  /** `major.minor` or `major.minor.patch`. */
  function ParseVersion(s: string): Option<Version> {
    var parts := Parts(s);
    if |parts| < 2 || |parts| > 3 then None else
      var major := ParseU32(parts[0]);
      var minor := ParseU32(parts[1]);
      var patch := if |parts| == 3 then ParseU32(parts[2]) else Some(0);
      if major.None? || minor.None? || patch.None? then None
      else Some(Version(major.value, minor.value, patch.value))
  }

  // ---------------------------------------------------------------- matching

  /** A written version agrees with an actual one: a bare number is a major, anything else must be equal. */
  predicate Agrees(written: string, actual: Version) {
    var major := ParseU32(written);
    if major.Some? then major.value == actual.major
    else ParseVersion(written) == Some(actual)
  }

  /** The version a provider's own name carries agrees with its descriptor. */
  predicate OwnAgrees(p: Provider) {
    var own := SplitAt(p.name).version;
    own.Some? ==> Agrees(own.value, p.version)
  }

  predicate Covers(declared: string, p: Provider) {
    var spec := SplitAt(declared);
    spec.name == SplitAt(p.name).name && (spec.version.Some? ==> Agrees(spec.version.value, p.version))
  }

  /** `i` is the first declared spec that covers `p`. */
  predicate First(specs: seq<string>, p: Provider, i: nat) {
    i < |specs| && Covers(specs[i], p) && forall j :: 0 <= j < i ==> !Covers(specs[j], p)
  }

  /** Some declared spec covers `p`. */
  ghost predicate Declared(specs: seq<string>, p: Provider) {
    exists i: nat :: First(specs, p, i)
  }

  /** What a commit demands. */
  ghost predicate Accepted(specs: seq<string>, staged: seq<Provider>) {
    && (forall k :: 0 <= k < |staged| ==> OwnAgrees(staged[k]))
    && (forall k :: 0 <= k < |staged| ==> Declared(specs, staged[k]))
    && (forall i :: 0 <= i < |specs| ==> Reached(specs, staged, i))
  }

  ghost predicate Reached(specs: seq<string>, staged: seq<Provider>, i: nat) {
    exists k :: 0 <= k < |staged| && First(specs, staged[k], i)
  }

  // ------------------------------------------------- what written versions mean

  lemma DigitValue(d: nat)
    requires d < 10
    ensures '0' <= DIGITS[d] <= '9' && DIGITS[d] as int - '0' as int == d
  {
  }

  lemma {:induction false} DigitsOfDecimal(n: nat)
    ensures Digits(Decimal(n)) == Some(n)
  {
    var s := Decimal(n);
    DigitValue(n % 10);
    if n < 10 {
      assert s[..|s| - 1] == [];
    } else {
      DigitsOfDecimal(n / 10);
      assert s[..|s| - 1] == Decimal(n / 10);
    }
  }

  /** Reading back a written number. */
  lemma NumberRoundTrip(n: U32)
    ensures ParseU32(Decimal(n)) == Some(n)
  {
    DigitsOfDecimal(n);
  }

  lemma {:induction false} NotDigits(s: string, i: nat)
    requires i < |s| && !('0' <= s[i] <= '9')
    ensures Digits(s) == None
  {
    if i < |s| - 1 { NotDigits(s[..|s| - 1], i); }
  }

  lemma {:induction false} PartsAt(a: string, b: string)
    requires forall i :: 0 <= i < |a| ==> a[i] != '.'
    ensures Parts(a + "." + b) == [a] + Parts(b)
  {
    var s := a + "." + b;
    if a == [] {
      assert s[1..] == b;
    } else {
      PartsAt(a[1..], b);
      assert s[1..] == a[1..] + "." + b;
      assert [a[0]] + a[1..] == a;
    }
  }

  lemma {:induction false} PartsWhole(a: string)
    requires forall i :: 0 <= i < |a| ==> a[i] != '.'
    ensures Parts(a) == [a]
  {
    if a != [] {
      PartsWhole(a[1..]);
      assert [a[0]] + a[1..] == a;
    }
  }

  /** A version as it is written out in full, and with its patch left out. */
  function Full(v: Version): string { Decimal(v.major) + "." + Short(v.minor, v.patch) }

  function Short(a: U32, b: U32): string { Decimal(a) + "." + Decimal(b) }

  lemma ShortParts(a: U32, b: U32)
    ensures Parts(Short(a, b)) == [Decimal(a), Decimal(b)] && ParseU32(Short(a, b)) == None
  {
    PartsAt(Decimal(a), Decimal(b));
    PartsWhole(Decimal(b));
    var s := Short(a, b);
    assert s[|Decimal(a)|] == '.' && s[0] == Decimal(a)[0];
    NotDigits(s, |Decimal(a)|);
  }

  lemma FullParts(v: Version)
    ensures Parts(Full(v)) == [Decimal(v.major), Decimal(v.minor), Decimal(v.patch)] && ParseU32(Full(v)) == None
  {
    PartsAt(Decimal(v.major), Short(v.minor, v.patch));
    ShortParts(v.minor, v.patch);
    var s := Full(v);
    assert s[|Decimal(v.major)|] == '.' && s[0] == Decimal(v.major)[0];
    NotDigits(s, |Decimal(v.major)|);
  }

  /**
    What a written version agrees with: a number with every version of that major, two
    numbers with that version at patch 0, and three with that version alone.
   */
  lemma WrittenVersionMeans(v: Version, w: Version)
    ensures Agrees(Decimal(v.major), w) <==> w.major == v.major
    ensures Agrees(Short(v.major, v.minor), w) <==> w == v.(patch := 0)
    ensures Agrees(Full(v), w) <==> w == v
  {
    NumberRoundTrip(v.major);
    NumberRoundTrip(v.minor);
    NumberRoundTrip(v.patch);
    ShortParts(v.major, v.minor);
    FullParts(v);
  }

  /** A number may be written with a plus sign. */
  lemma PlusIsAccepted(n: U32)
    ensures ParseU32("+" + Decimal(n)) == Some(n)
  {
    DigitsOfDecimal(n);
    assert ("+" + Decimal(n))[1..] == Decimal(n);
  }

  /** Nothing agrees with an empty version, or with a number of more than 32 bits. */
  lemma NeverAgrees(n: nat, w: Version)
    ensures !Agrees("", w)
    ensures n >= 0x1_0000_0000 ==> !Agrees(Decimal(n), w)
  {
    PartsWhole("");
    DigitsOfDecimal(n);
    PartsWhole(Decimal(n));
  }

  /** Nor with four numbers. */
  lemma FourNeverAgree(n: nat, v: Version, w: Version)
    ensures !Agrees(Decimal(n) + "." + Full(v), w)
  {
    var s := Decimal(n) + "." + Full(v);
    FullParts(v);
    PartsAt(Decimal(n), Full(v));
    assert |Parts(s)| == 4;
    NotANumber(Decimal(n), Full(v));
  }

  lemma NotANumber(a: string, b: string)
    requires a != [] && '0' <= a[0] <= '9'
    ensures ParseU32(a + "." + b) == None
  {
    var s := a + "." + b;
    assert s[|a|] == '.' && s[0] == a[0];
    NotDigits(s, |a|);
  }

  // ------------------------------------------------------ what written specs mean

  predicate Plain(name: string) { forall i :: 0 <= i < |name| ==> name[i] != '@' }

  lemma {:induction false} SplitPlain(name: string)
    requires Plain(name)
    ensures SplitAt(name) == Spec(name, None)
  {
    if name != [] {
      SplitPlain(name[1..]);
      assert [name[0]] + name[1..] == name;
    }
  }

  lemma {:induction false} SplitWritten(name: string, version: string)
    requires Plain(name)
    ensures SplitAt(name + "@" + version) == Spec(name, Some(version))
  {
    var s := name + "@" + version;
    if name == [] {
      assert s[1..] == version;
    } else {
      SplitWritten(name[1..], version);
      assert s[1..] == name[1..] + "@" + version;
      assert [name[0]] + name[1..] == name;
    }
  }

  /** A provider registered under the plain name, or under it with a version. */
  ghost predicate Named(p: Provider, name: string) { p.name == name || exists v :: p.name == name + "@" + v }

  lemma NamedSplits(p: Provider, name: string)
    requires Plain(name) && Named(p, name)
    ensures SplitAt(p.name).name == name
  {
    if p.name == name {
      SplitPlain(name);
    } else {
      var v :| p.name == name + "@" + v;
      SplitWritten(name, v);
    }
  }

  /**
    What a declared spec covers, as it is written: a plain name every version of that name; with
    one number that major; with two that version at patch 0; with three that version alone; and
    nothing of another name.
   */
  lemma WrittenSpecMeans(name: string, v: Version, other: string, p: Provider)
    requires Plain(name) && Plain(other) && Named(p, other)
    ensures Covers(name, p) <==> other == name
    ensures Covers(name + "@" + Decimal(v.major), p) <==> other == name && p.version.major == v.major
    ensures Covers(name + "@" + Short(v.major, v.minor), p) <==> other == name && p.version == v.(patch := 0)
    ensures Covers(name + "@" + Full(v), p) <==> other == name && p.version == v
  {
    NamedSplits(p, other);
    SplitPlain(name);
    SplitWritten(name, Decimal(v.major));
    SplitWritten(name, Short(v.major, v.minor));
    SplitWritten(name, Full(v));
    WrittenVersionMeans(v, p.version);
  }

  /** The version in a provider's own name: none always agrees, a written one only with what it says. */
  lemma OwnVersionMeans(name: string, v: Version, w: Version)
    requires Plain(name)
    ensures OwnAgrees(Provider(name, w))
    ensures OwnAgrees(Provider(name + "@" + Decimal(v.major), w)) <==> w.major == v.major
    ensures OwnAgrees(Provider(name + "@" + Short(v.major, v.minor), w)) <==> w == v.(patch := 0)
    ensures OwnAgrees(Provider(name + "@" + Full(v), w)) <==> w == v
  {
    SplitPlain(name);
    SplitWritten(name, Decimal(v.major));
    SplitWritten(name, Short(v.major, v.minor));
    SplitWritten(name, Full(v));
    WrittenVersionMeans(v, w);
  }

  /** One declared major, one staged provider of a plain name: accepted exactly if it has that name and major. */
  lemma SoleProvider(name: string, v: Version, other: string, w: Version)
    requires Plain(name) && Plain(other)
    ensures Accepted([name + "@" + Decimal(v.major)], [Provider(other, w)]) <==> other == name && w.major == v.major
  {
    var specs, p := [name + "@" + Decimal(v.major)], Provider(other, w);
    WrittenSpecMeans(name, v, other, p);
    OwnVersionMeans(other, v, w);
    assert First(specs, p, 0) <==> Covers(specs[0], p);
    assert forall i: nat :: First(specs, p, i) ==> i == 0;
    assert [p][0] == p;
  }

  /** Concretely: a manifest that provides `a@1` accepts `a` at any 1.x.y and rejects it at 2.0.0. */
  method ValidateWritten(minor: U32, patch: U32) returns (one: bool, two: bool)
    ensures one && !two
  {
    SoleProvider("a", Version(1, 0, 0), "a", Version(1, minor, patch));
    SoleProvider("a", Version(1, 0, 0), "a", Version(2, 0, 0));
    assert Decimal(1) == "1";
    assert "a" + "@" + "1" == "a@1";
    one := Validate(["a@1"], [Provider("a", Version(1, minor, patch))]);
    two := Validate(["a@1"], [Provider("a", Version(2, 0, 0))]);
  }

  method Agreement(written: string, actual: Version) returns (ok: bool)
    ensures ok == Agrees(written, actual)
  {
    var major := ParseU32(written);
    match major
    case Some(m) => return m == actual.major;
    case None =>
      var full := ParseVersion(written);
      match full {
        case Some(v) => return v == actual;
        case None => return false;
      }
  }

  /** The first spec that covers `p`, if any. */
  method FindSpec(specs: seq<string>, p: Provider) returns (found: Option<nat>)
    ensures found.Some? ==> First(specs, p, found.value)
    ensures found.None? ==> forall i :: 0 <= i < |specs| ==> !Covers(specs[i], p)
  {
    for i := 0 to |specs|
      invariant forall j :: 0 <= j < i ==> !Covers(specs[j], p)
    {
      var spec := SplitAt(specs[i]);
      var versionOk := true;
      if spec.version.Some? { versionOk := Agreement(spec.version.value, p.version); }
      if spec.name == SplitAt(p.name).name && versionOk { return Some(i); }
    }
    return None;
  }

  /** The validation loop decides exactly the demand. */
  method Validate(specs: seq<string>, staged: seq<Provider>) returns (ok: bool)
    ensures ok <==> Accepted(specs, staged)
  {
    var matched := seq(|specs|, i => false);
    for k := 0 to |staged|
      invariant |matched| == |specs|
      invariant forall j :: 0 <= j < k ==> OwnAgrees(staged[j]) && Declared(specs, staged[j])
      invariant forall i :: 0 <= i < |specs| ==> (matched[i] <==> Reached(specs, staged[..k], i))
    {
      var own := SplitAt(staged[k].name).version;
      if own.Some? {
        var agrees := Agreement(own.value, staged[k].version);
        if !agrees {
          assert !OwnAgrees(staged[k]);
          return false;
        }
      }
      var found := FindSpec(specs, staged[k]);
      if found.None? {
        assert !Declared(specs, staged[k]);
        return false;
      }
      ReachedNext(specs, staged, k, found.value);
      matched := matched[found.value := true];
    }
    assert staged[..|staged|] == staged;
    for i := 0 to |matched|
      invariant forall j :: 0 <= j < i ==> matched[j]
    {
      if !matched[i] {
        assert !Reached(specs, staged, i);
        return false;
      }
    }
    return true;
  }

  /** One more provider reaches one more spec: its first match. */
  lemma ReachedNext(specs: seq<string>, staged: seq<Provider>, k: nat, i: nat)
    requires k < |staged| && First(specs, staged[k], i)
    ensures forall j :: 0 <= j < |specs| ==>
      (Reached(specs, staged[..k + 1], j) <==> Reached(specs, staged[..k], j) || j == i)
  {
    var now, next := staged[..k], staged[..k + 1];
    forall j | 0 <= j < |specs|
      ensures Reached(specs, next, j) <==> Reached(specs, now, j) || j == i
    {
      if Reached(specs, now, j) {
        var n :| 0 <= n < |now| && First(specs, now[n], j);
        assert next[n] == now[n];
      }
      if j == i { assert First(specs, next[k], j); }
      if Reached(specs, next, j) {
        var n :| 0 <= n < |next| && First(specs, next[n], j);
        if n < k { assert now[n] == next[n]; }
      }
    }
  }

  // ------------------------------------------------- mutual coverage, exactly

  ghost predicate CoveredBy(staged: seq<Provider>, declared: string) {
    exists k :: 0 <= k < |staged| && Covers(declared, staged[k])
  }

  ghost predicate CoveredIn(specs: seq<string>, p: Provider) {
    exists i :: 0 <= i < |specs| && Covers(specs[i], p)
  }

  /** Every provider is declared and every declaration is provided. */
  ghost predicate MutualCoverage(specs: seq<string>, staged: seq<Provider>) {
    && (forall k :: 0 <= k < |staged| ==> CoveredIn(specs, staged[k]))
    && (forall i :: 0 <= i < |specs| ==> CoveredBy(staged, specs[i]))
  }

  ghost predicate AllOwnAgree(staged: seq<Provider>) { forall k :: 0 <= k < |staged| ==> OwnAgrees(staged[k]) }

  /** What a declared spec accepts, read off the spec alone. */
  datatype Kind = Any | Major(major: U32) | Exact(version: Version) | Never

  function KindOf(declared: string): Kind {
    var v := SplitAt(declared).version;
    if v.None? then Any
    else if ParseU32(v.value).Some? then Major(ParseU32(v.value).value)
    else if ParseVersion(v.value).Some? then Exact(ParseVersion(v.value).value)
    else Never
  }

  /** Two specs that some provider could satisfy at once. */
  predicate Overlap(a: string, b: string) {
    SplitAt(a).name == SplitAt(b).name &&
    match (KindOf(a), KindOf(b))
    case (Never, _) => false
    case (_, Never) => false
    case (Any, _) => true
    case (_, Any) => true
    case (Major(m), Major(n)) => m == n
    case (Major(m), Exact(v)) => m == v.major
    case (Exact(v), Major(m)) => m == v.major
    case (Exact(v), Exact(w)) => v == w
  }

  predicate Disjoint(specs: seq<string>) {
    forall i, j :: 0 <= i < j < |specs| ==> !Overlap(specs[i], specs[j])
  }

  predicate Accepts(k: Kind, v: Version) {
    match k
    case Any => true
    case Major(m) => m == v.major
    case Exact(w) => w == v
    case Never => false
  }

  lemma CoversByKind(declared: string, p: Provider)
    ensures Covers(declared, p) <==>
      SplitAt(declared).name == SplitAt(p.name).name && Accepts(KindOf(declared), p.version)
  {
  }

  lemma {:induction false} NameHasNoAt(s: string)
    ensures SplitAt(SplitAt(s).name) == Spec(SplitAt(s).name, None)
  {
    if s != [] && s[0] != '@' {
      NameHasNoAt(s[1..]);
      assert SplitAt(s).name[1..] == SplitAt(s[1..]).name;
    }
  }

  /** A version both specs accept, when they overlap; any accepted version of one spec otherwise. */
  function Common(a: Kind, b: Kind): Version {
    match a
    case Exact(v) => v
    case Major(m) => if b.Exact? then b.version else Version(m, 0, 0)
    case Any =>
      (match b case Exact(v) => v case Major(m) => Version(m, 0, 0) case Any => Version(0, 0, 0)
               case Never => Version(0, 0, 0))
    case Never => Version(0, 0, 0)
  }

  /** Overlap, decided on the specs, is exactly that some provider satisfies both. */
  lemma OverlapIsShared(a: string, b: string)
    ensures Overlap(a, b) <==> exists p :: Covers(a, p) && Covers(b, p)
  {
    if Overlap(a, b) {
      var p := Provider(SplitAt(a).name, Common(KindOf(a), KindOf(b)));
      NameHasNoAt(a);
      CoversByKind(a, p);
      CoversByKind(b, p);
      assert Covers(a, p) && Covers(b, p);
    }
    if p :| Covers(a, p) && Covers(b, p) {
      CoversByKind(a, p);
      CoversByKind(b, p);
    }
  }

  /** A spec's own witness: a provider it covers. */
  function Witness(declared: string): Provider {
    Provider(SplitAt(declared).name, Common(KindOf(declared), KindOf(declared)))
  }

  lemma WitnessCovered(declared: string)
    requires KindOf(declared) != Never
    ensures Covers(declared, Witness(declared)) && OwnAgrees(Witness(declared))
  {
    NameHasNoAt(declared);
    CoversByKind(declared, Witness(declared));
  }

  /** For disjoint specs a commit is accepted exactly on mutual coverage. */
  lemma DisjointMeansMutual(specs: seq<string>, staged: seq<Provider>)
    requires Disjoint(specs)
    ensures Accepted(specs, staged) <==> AllOwnAgree(staged) && MutualCoverage(specs, staged)
  {
    forall k, i | 0 <= k < |staged| && 0 <= i < |specs|
      ensures Covers(specs[i], staged[k]) <==> First(specs, staged[k], i)
    {
      forall j | 0 <= j < i && Covers(specs[i], staged[k])
        ensures !Covers(specs[j], staged[k])
      {
        OverlapIsShared(specs[j], specs[i]);
      }
    }
    AcceptedIsMutual(specs, staged);
  }

  /** When covering and being the first match coincide. */
  lemma AcceptedIsMutual(specs: seq<string>, staged: seq<Provider>)
    requires forall k, i :: 0 <= k < |staged| && 0 <= i < |specs| ==>
      (Covers(specs[i], staged[k]) <==> First(specs, staged[k], i))
    ensures Accepted(specs, staged) <==> AllOwnAgree(staged) && MutualCoverage(specs, staged)
  {
    forall i | 0 <= i < |specs|
      ensures Reached(specs, staged, i) <==> CoveredBy(staged, specs[i])
    {
      if Reached(specs, staged, i) {
        var k :| 0 <= k < |staged| && First(specs, staged[k], i);
        assert Covers(specs[i], staged[k]);
      }
      if CoveredBy(staged, specs[i]) {
        var k :| 0 <= k < |staged| && Covers(specs[i], staged[k]);
        assert First(specs, staged[k], i);
      }
    }
    forall k | 0 <= k < |staged|
      ensures Declared(specs, staged[k]) <==> CoveredIn(specs, staged[k])
    {
      if Declared(specs, staged[k]) {
        var i: nat :| First(specs, staged[k], i);
        assert Covers(specs[i], staged[k]);
      }
      if CoveredIn(specs, staged[k]) {
        var i :| 0 <= i < |specs| && Covers(specs[i], staged[k]);
        assert First(specs, staged[k], i);
      }
    }
  }

  /** If provider `k` covers spec `k` and every spec is reached, then provider `k` is the one that reaches it. */
  lemma {:induction false} ReachedByItsOwn(specs: seq<string>, staged: seq<Provider>, m: nat)
    requires |staged| == |specs| && m < |specs|
    requires forall k :: 0 <= k < |staged| ==> Covers(specs[k], staged[k])
    requires forall i :: 0 <= i < |specs| ==> Reached(specs, staged, i)
    ensures First(specs, staged[m], m)
    decreases |specs| - m
  {
    assert Reached(specs, staged, m);
    var k :| 0 <= k < |staged| && First(specs, staged[k], m);
    if k > m { ReachedByItsOwn(specs, staged, k); }
  }

  /** The staged set that mutually covers the specs, with one provider shared by specs `i` and `j`. */
  function SharedStaging(specs: seq<string>, i: nat, j: nat): (staged: seq<Provider>)
    requires i < j < |specs|
    ensures |staged| == |specs|
  {
    seq(|specs|, k requires 0 <= k < |specs| => Witness(specs[k]))
      [j := Provider(SplitAt(specs[j]).name, Common(KindOf(specs[i]), KindOf(specs[j])))]
  }

  lemma SharedStagingCovers(specs: seq<string>, i: nat, j: nat, k: nat)
    requires i < j < |specs| && k < |specs| && Overlap(specs[i], specs[j])
    requires forall n :: 0 <= n < |specs| ==> KindOf(specs[n]) != Never
    ensures var staged := SharedStaging(specs, i, j);
      Covers(specs[k], staged[k]) && OwnAgrees(staged[k]) && Covers(specs[i], staged[j])
  {
    var staged := SharedStaging(specs, i, j);
    WitnessCovered(specs[k]);
    NameHasNoAt(specs[j]);
    CoversByKind(specs[j], staged[j]);
    CoversByKind(specs[i], staged[j]);
  }

  /** Overlapping specs: a staged set that mutually covers them and is still rejected. */
  lemma OverlapRejects(specs: seq<string>, i: nat, j: nat)
    requires i < j < |specs| && Overlap(specs[i], specs[j])
    requires forall n :: 0 <= n < |specs| ==> KindOf(specs[n]) != Never
    ensures var staged := SharedStaging(specs, i, j);
      AllOwnAgree(staged) && MutualCoverage(specs, staged) && !Accepted(specs, staged)
  {
    var staged := SharedStaging(specs, i, j);
    forall k | 0 <= k < |staged|
      ensures Covers(specs[k], staged[k]) && OwnAgrees(staged[k])
    {
      SharedStagingCovers(specs, i, j, k);
    }
    SharedStagingCovers(specs, i, j, j);
    if Accepted(specs, staged) {
      ReachedByItsOwn(specs, staged, j);
      assert false;
    }
  }

  /**
    Exactly when the check is mutual coverage for every staged set: the declared specs are
    pairwise disjoint, or one of them can never be met, so that nothing is accepted.
   */
  lemma MutualCoverageExactly(specs: seq<string>)
    ensures (forall staged :: Accepted(specs, staged) <==> AllOwnAgree(staged) && MutualCoverage(specs, staged))
       <==> Disjoint(specs) || exists n :: 0 <= n < |specs| && KindOf(specs[n]) == Never
  {
    if Disjoint(specs) {
      forall staged
        ensures Accepted(specs, staged) <==> AllOwnAgree(staged) && MutualCoverage(specs, staged)
      {
        DisjointMeansMutual(specs, staged);
      }
    } else if exists n :: 0 <= n < |specs| && KindOf(specs[n]) == Never {
      forall staged
        ensures Accepted(specs, staged) <==> AllOwnAgree(staged) && MutualCoverage(specs, staged)
      {
        NeverRejects(specs, staged);
      }
    } else {
      var i, j :| 0 <= i < j < |specs| && Overlap(specs[i], specs[j]);
      OverlapRejects(specs, i, j);
    }
  }

  lemma NeverRejects(specs: seq<string>, staged: seq<Provider>)
    requires exists n :: 0 <= n < |specs| && KindOf(specs[n]) == Never
    ensures !Accepted(specs, staged) && !MutualCoverage(specs, staged)
  {
    var n :| 0 <= n < |specs| && KindOf(specs[n]) == Never;
    forall k | 0 <= k < |staged|
      ensures !Covers(specs[n], staged[k])
    {
      CoversByKind(specs[n], staged[k]);
    }
    assert !Reached(specs, staged, n) && !CoveredBy(staged, specs[n]);
  }

  /** The verdict does not depend on the order of registration, nor on repetitions. */
  lemma OrderIsIrrelevant(specs: seq<string>, s: seq<Provider>, t: seq<Provider>)
    requires forall p :: p in s <==> p in t
    ensures Accepted(specs, s) <==> Accepted(specs, t)
  {
    if Accepted(specs, s) { AcceptedAlso(specs, s, t); }
    if Accepted(specs, t) { AcceptedAlso(specs, t, s); }
  }

  lemma AcceptedAlso(specs: seq<string>, s: seq<Provider>, t: seq<Provider>)
    requires (forall p :: p in s <==> p in t) && Accepted(specs, s)
    ensures Accepted(specs, t)
  {
    forall k | 0 <= k < |t|
      ensures OwnAgrees(t[k]) && Declared(specs, t[k])
    {
      assert t[k] in s;
      var n :| 0 <= n < |s| && s[n] == t[k];
      assert OwnAgrees(s[n]) && Declared(specs, s[n]);
    }
    forall i | 0 <= i < |specs|
      ensures Reached(specs, t, i)
    {
      assert Reached(specs, s, i);
      var n :| 0 <= n < |s| && First(specs, s[n], i);
      assert s[n] in t;
      var k :| 0 <= k < |t| && t[k] == s[n];
    }
  }
}
