/**
  Writing generated files: the whole target set is checked before anything is created,
  files that already hold their content are skipped, and the others go through a
  temporary file in the same directory and a rename. Any file-system operation may fail.

  A path is the list of its names below the file-system root, symbolic links resolved;
  formatting is a function of path and content.
 */
module OutputWriter {
  import opened Basics

  type Name = string
  type Path = seq<Name>

  datatype Node = Dir | File(content: string)

  type FileSystem = map<Path, Node>

  datatype Component = Normal(name: Name) | CurDir | ParentDir | RootDir | Prefix(drive: Name)

  /** A generated file; `root` is where its partition is emitted, if at all; `readable` if what is there can be read. */
  datatype OutFile = OutFile(path: seq<Component>, root: Option<Path>, content: string, force: bool, readable: bool)

  /** A file to write, with the content as it lands on disk. */
  datatype Target = Target(path: Path, content: string, force: bool, readable: bool)

  datatype Outcome =
    | Summary(written: nat, same: nat)
    | Rejected
    | WriteFailed

  function At(fs: FileSystem, p: Path): Option<Node> { if p in fs then Some(fs[p]) else None }

  predicate IsPrefix(p: Path, q: Path) { |p| <= |q| && p == q[..|p|] }

  function Parent(p: Path): Path
    requires p != []
  {
    p[..|p| - 1]
  }

  /** The root exists and every entry lies in a directory. */
  ghost predicate Tree(fs: FileSystem) {
    && At(fs, []) == Some(Dir)
    && forall p :: p in fs && p != [] ==> At(fs, Parent(p)) == Some(Dir)
  }

  // ------------------------------------------------------------- target set

  predicate Safe(path: seq<Component>) { forall c :: c in path ==> c.Normal? || c.CurDir? }

  function NamesOf(path: seq<Component>): Path {
    if path == [] then [] else (if path[0].Normal? then [path[0].name] else []) + NamesOf(path[1..])
  }

  function TargetOf(f: OutFile, format: (Path, string) -> string): Target
    requires f.root.Some?
  {
    var path := f.root.value + NamesOf(f.path);
    Target(path, format(path, f.content), f.force, f.readable)
  }

  /** The emitted files, in order. */
  function Targets(files: seq<OutFile>, format: (Path, string) -> string): seq<Target> {
    if files == [] then [] else
      var early := Targets(files[..|files| - 1], format);
      var last := files[|files| - 1];
      if last.root.None? then early else early + [TargetOf(last, format)]
  }

  /** What is on disk for a file: the emitted root and the named components, and the formatted content. */
  ghost predicate Emits(f: OutFile, format: (Path, string) -> string, t: Target) {
    && f.root.Some? && t.path == f.root.value + NamesOf(f.path) && t.content == format(t.path, f.content)
    && t.force == f.force && t.readable == f.readable
  }

  /** The targets are what the files emit, file by file. */
  lemma {:induction false} TargetsAreEmitted(files: seq<OutFile>, format: (Path, string) -> string)
    ensures forall t :: t in Targets(files, format) ==> exists f :: f in files && Emits(f, format, t)
    ensures forall f :: f in files && f.root.Some? ==> exists t :: t in Targets(files, format) && Emits(f, format, t)
  {
    if files != [] {
      var early, last := files[..|files| - 1], files[|files| - 1];
      TargetsAreEmitted(early, format);
      assert files == early + [last];
      if last.root.Some? { assert Emits(last, format, TargetOf(last, format)); }
      forall t | t in Targets(files, format)
        ensures exists f :: f in files && Emits(f, format, t)
      {
        if t in Targets(early, format) {
          var f :| f in early && Emits(f, format, t);
          assert f in files;
        }
      }
      forall f | f in files && f.root.Some?
        ensures exists t :: t in Targets(files, format) && Emits(f, format, t)
      {
        if f in early {
          var t :| t in Targets(early, format) && Emits(f, format, t);
          assert t in Targets(files, format);
        }
      }
    }
  }

  /** A named component adds its name to the path, any other nothing. */
  lemma {:induction false} NamesOfSnoc(p: seq<Component>, c: Component)
    ensures NamesOf(p + [c]) == NamesOf(p) + if c.Normal? then [c.name] else []
  {
    if p == [] {
      assert [] + [c] == [c] && [c][1..] == [];
    } else {
      NamesOfSnoc(p[1..], c);
      assert (p + [c])[1..] == p[1..] + [c];
    }
  }

  predicate DistinctPaths(ts: seq<Target>) {
    forall i, j :: 0 <= i < j < |ts| ==> ts[i].path != ts[j].path
  }

  /** No target is a directory or lies below a file. */
  predicate Placeable(fs: FileSystem, t: Target) {
    && At(fs, t.path) != Some(Dir)
    && forall n {:trigger t.path[..n]} :: 0 <= n < |t.path| ==>
         At(fs, t.path[..n]) == None || At(fs, t.path[..n]) == Some(Dir)
  }

  /** No target lies below another. */
  predicate NoConflict(ts: seq<Target>) {
    forall i, j {:trigger IsPrefix(ts[j].path, ts[i].path)} ::
      0 <= i < |ts| && 0 <= j < |ts| && ts[i].path != ts[j].path ==>
      !IsPrefix(ts[j].path, ts[i].path)
  }

  predicate Preflight(fs: FileSystem, ts: seq<Target>) {
    (forall k :: 0 <= k < |ts| ==> Placeable(fs, ts[k])) && NoConflict(ts)
  }

  /** Everything that is checked before the first write. */
  ghost predicate Acceptable(fs: FileSystem, files: seq<OutFile>, format: (Path, string) -> string,
      referencesOk: bool) {
    && referencesOk && (forall f :: f in files ==> Safe(f.path))
    && DistinctPaths(Targets(files, format)) && Preflight(fs, Targets(files, format))
  }

  /** A path is safe when it has no parent, root or drive component. */
  lemma SafeMeans(path: seq<Component>)
    ensures Safe(path) <==> ParentDir !in path && RootDir !in path && forall d :: Prefix(d) !in path
  {
    if !Safe(path) {
      var c :| c in path && !c.Normal? && !c.CurDir?;
      if c.Prefix? { assert Prefix(c.drive) in path; }
    }
  }

  /**
    What a set needs besides resolved references: safe paths; no target that is a directory, or
    has a file above it; and among the targets no path twice, and none that is a beginning of
    another.
   */
  lemma AcceptableMeans(fs: FileSystem, files: seq<OutFile>, format: (Path, string) -> string, referencesOk: bool)
    ensures var ts := Targets(files, format);
      Acceptable(fs, files, format, referencesOk) <==>
        && referencesOk
        && (forall f :: f in files ==> ParentDir !in f.path && RootDir !in f.path && forall d :: Prefix(d) !in f.path)
        && (forall k :: 0 <= k < |ts| && ts[k].path in fs ==> fs[ts[k].path].File?)
        && (forall k, p: Path :: 0 <= k < |ts| && IsPrefix(p, ts[k].path) && p != ts[k].path && p in fs ==>
             fs[p] == Dir)
        && (forall i, j :: 0 <= i < |ts| && 0 <= j < |ts| && IsPrefix(ts[j].path, ts[i].path) ==> i == j)
  {
    var ts := Targets(files, format);
    forall f | f in files
      ensures Safe(f.path) <==> ParentDir !in f.path && RootDir !in f.path && forall d :: Prefix(d) !in f.path
    {
      SafeMeans(f.path);
    }
    forall k | 0 <= k < |ts|
      ensures Placeable(fs, ts[k]) <==>
        && (ts[k].path in fs ==> fs[ts[k].path].File?)
        && forall p: Path :: IsPrefix(p, ts[k].path) && p != ts[k].path && p in fs ==> fs[p] == Dir
    {
      PlaceableMeans(fs, ts[k]);
    }
    ApartMeans(ts);
  }

  lemma PlaceableMeans(fs: FileSystem, t: Target)
    ensures Placeable(fs, t) <==>
      && (t.path in fs ==> fs[t.path].File?)
      && forall p: Path :: IsPrefix(p, t.path) && p != t.path && p in fs ==> fs[p] == Dir
  {
    if Placeable(fs, t) {
      forall p: Path | IsPrefix(p, t.path) && p != t.path && p in fs
        ensures fs[p] == Dir
      {
        assert p == t.path[..|p|] && t.path[..|t.path|] == t.path;
      }
    } else if t.path in fs ==> fs[t.path].File? {
      var n :| 0 <= n < |t.path| && At(fs, t.path[..n]) != None && At(fs, t.path[..n]) != Some(Dir);
      assert IsPrefix(t.path[..n], t.path) && t.path[..n] != t.path;
    }
  }

  lemma ApartMeans(ts: seq<Target>)
    ensures DistinctPaths(ts) && NoConflict(ts) <==>
      forall i, j :: 0 <= i < |ts| && 0 <= j < |ts| && IsPrefix(ts[j].path, ts[i].path) ==> i == j
  {
    if forall i, j :: 0 <= i < |ts| && 0 <= j < |ts| && IsPrefix(ts[j].path, ts[i].path) ==> i == j {
      forall i, j | 0 <= i < j < |ts|
        ensures ts[i].path != ts[j].path
      {
        var p, q := ts[i].path, ts[j].path;
        WholePrefix(p);
        assert p == q ==> IsPrefix(q, p);
      }
    }
  }

  lemma WholePrefix(p: Path)
    ensures IsPrefix(p, p)
  {
    assert p[..|p|] == p;
  }

  // ------------------------------------------------------------- temporaries

  function TempName(name: Name, pid: nat, sequence: nat): Name {
    "." + name + "." + Decimal(pid) + "." + Decimal(sequence) + ".tmp"
  }

  /** The temporary file for a path, beside it. */
  function TempOf(p: Path, pid: nat, sequence: nat): Path
    requires p != []
  {
    Parent(p) + [TempName(p[|p| - 1], pid, sequence)]
  }

  /** Concretely, the first temporary that process 42 uses for `src/lib.rs`. */
  lemma TempExample()
    ensures TempOf(["src", "lib.rs"], 42, 0) == ["src", ".lib.rs.42.0.tmp"]
  {
    assert Decimal(42) == "42" by { assert Decimal(4) == "4"; }
    assert Decimal(0) == "0";
    assert "." + "lib.rs" + "." + "42" + "." + "0" + ".tmp" == ".lib.rs.42.0.tmp";
    assert TempName("lib.rs", 42, 0) == ".lib.rs.42.0.tmp";
    assert Parent(["src", "lib.rs"]) == ["src"];
  }

  lemma TempFacts(p: Path, pid: nat, sequence: nat)
    requires p != []
    ensures TempOf(p, pid, sequence) != p && TempOf(p, pid, sequence) != []
    ensures Parent(TempOf(p, pid, sequence)) == Parent(p)
  {
    var t := TempOf(p, pid, sequence);
    assert |TempName(p[|p| - 1], pid, sequence)| > |p[|p| - 1]|;
    assert t[|p| - 1] != p[|p| - 1];
  }

  /** No temporary name this call can use is that of a target or of a directory towards one. */
  ghost predicate TempsApart(ts: seq<Target>, pid: nat, sequence: nat) {
    forall k, n {:trigger TempOf(ts[k].path, pid, n)} ::
      0 <= k < |ts| && ts[k].path != [] && sequence <= n < sequence + |ts| ==>
      Apart(ts, TempOf(ts[k].path, pid, n))
  }

  ghost predicate Apart(ts: seq<Target>, temp: Path) {
    forall j :: 0 <= j < |ts| ==> !IsPrefix(temp, ts[j].path)
  }

  /** A file is skipped only if it could be read and holds its content already. */
  predicate NeedsWrite(fs: FileSystem, t: Target) {
    t.force || !t.readable || At(fs, t.path) != Some(File(t.content))
  }

  function CountWrites(fs: FileSystem, ts: seq<Target>): nat {
    if ts == [] then 0 else
      CountWrites(fs, ts[..|ts| - 1]) + if NeedsWrite(fs, ts[|ts| - 1]) then 1 else 0
  }

  /** The temporary names that writing the targets uses, given which of them need writing. */
  function TempsUsed(fs: FileSystem, ts: seq<Target>, pid: nat, sequence: nat): set<Path> {
    if ts == [] then {} else
      var early, last := ts[..|ts| - 1], ts[|ts| - 1];
      TempsUsed(fs, early, pid, sequence) +
      if !NeedsWrite(fs, last) || last.path == [] then {}
      else {TempOf(last.path, pid, sequence + CountWrites(fs, early))}
  }

  // ------------------------------------------------------------- directories

  /** `p` and all that lies above it. */
  function Prefixes(p: Path): set<Path>
    decreases |p|
  {
    {p} + if p == [] then {} else Prefixes(Parent(p))
  }

  /** `fs` with every missing directory down to `p`. */
  function WithDirs(fs: FileSystem, p: Path): FileSystem {
    fs + map q | q in Prefixes(p) && q !in fs :: Dir
  }

  predicate Blocked(fs: FileSystem, p: Path) {
    exists n :: 0 <= n <= |p| && p[..n] in fs && fs[p[..n]].File?
  }

  lemma {:induction false} PrefixesAre(p: Path, q: Path)
    ensures q in Prefixes(p) <==> IsPrefix(q, p)
    decreases |p|
  {
    assert p[..|p|] == p;
    if p != [] {
      PrefixesAre(Parent(p), q);
      if |q| < |p| { assert Parent(p)[..|q|] == p[..|q|]; }
    }
  }

  lemma WithDirsAt(fs: FileSystem, p: Path, q: Path)
    ensures At(WithDirs(fs, p), q) == if q in fs then Some(fs[q]) else if IsPrefix(q, p) then Some(Dir) else None
  {
    PrefixesAre(p, q);
  }

  lemma WithDirsTree(fs: FileSystem, p: Path)
    requires Tree(fs) && !Blocked(fs, p)
    ensures Tree(WithDirs(fs, p)) && At(WithDirs(fs, p), p) == Some(Dir)
  {
    var fs' := WithDirs(fs, p);
    WithDirsAt(fs, p, []);
    WithDirsAt(fs, p, p);
    assert p[..|p|] == p;
    forall q | q in fs' && q != []
      ensures At(fs', Parent(q)) == Some(Dir)
    {
      WithDirsAt(fs, p, q);
      WithDirsAt(fs, p, Parent(q));
      if q !in fs {
        assert Parent(q) == p[..|q| - 1];
      }
    }
  }

  // ------------------------------------------------------------- a run without failure

  /** One target processed: skipped when it holds its content, else written through its temporary file. */
  function RunOne(fs: FileSystem, t: Target, pid: nat, sequence: nat): (FileSystem, nat) {
    if t.path == [] || !NeedsWrite(fs, t) then (fs, sequence)
    else ((WithDirs(fs, Parent(t.path)) - {TempOf(t.path, pid, sequence)})[t.path := File(t.content)], sequence + 1)
  }

  /** All targets processed in order. */
  function RunAll(fs: FileSystem, ts: seq<Target>, pid: nat, sequence: nat): (FileSystem, nat) {
    if ts == [] then (fs, sequence) else
      var (now, next) := RunAll(fs, ts[..|ts| - 1], pid, sequence);
      RunOne(now, ts[|ts| - 1], pid, next)
  }
}
