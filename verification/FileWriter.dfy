/**
  The writer as it runs against a file system whose operations may fail at any point:
  a directory tree may be created in part, a file written in part, and even the removal
  of a temporary file may fail.
 */
module FileWriter {
  import opened Basics
  import opened OutputWriter

  // ------------------------------------------------------- what a run leaves

  ghost predicate IsTarget(ts: seq<Target>, q: Path) { exists j :: 0 <= j < |ts| && ts[j].path == q }

  /** `q` is a directory on the way to some target. */
  ghost predicate LeadsToTarget(ts: seq<Target>, q: Path) { exists j :: 0 <= j < |ts| && IsPrefix(q, ts[j].path) }

  /** Outside the targets nothing changed but missing directories that appeared, and the path `spare`. */
  ghost predicate OthersKept(fs0: FileSystem, fs: FileSystem, ts: seq<Target>, spare: set<Path>) {
    forall q :: !IsTarget(ts, q) && q !in spare ==> OtherKept(fs0, fs, ts, q)
  }

  ghost predicate OtherKept(fs0: FileSystem, fs: FileSystem, ts: seq<Target>, q: Path) {
    At(fs, q) == At(fs0, q) || (q !in fs0 && At(fs, q) == Some(Dir) && LeadsToTarget(ts, q))
  }

  /** The first `k` targets hold their content, the others what they held before. */
  ghost predicate Wrote(fs0: FileSystem, fs: FileSystem, ts: seq<Target>, k: nat) {
    && (forall j :: 0 <= j < k && j < |ts| ==> At(fs, ts[j].path) == Some(File(ts[j].content)))
    && (forall j :: k <= j < |ts| ==> At(fs, ts[j].path) == At(fs0, ts[j].path))
  }

  /** Every target is wholly old or wholly new. */
  ghost predicate OldOrNew(fs0: FileSystem, fs: FileSystem, ts: seq<Target>) {
    forall j :: 0 <= j < |ts| ==>
      At(fs, ts[j].path) == At(fs0, ts[j].path) || At(fs, ts[j].path) == Some(File(ts[j].content))
  }

  /** The files that are written whatever is on disk: forced ones and those that cannot be read. */
  function CountForced(ts: seq<Target>): (n: nat)
    ensures n <= |ts|
  {
    if ts == [] then 0 else
      CountForced(ts[..|ts| - 1]) + if ts[|ts| - 1].force || !ts[|ts| - 1].readable then 1 else 0
  }

  /** Once every target holds its content, what needs writing is what is written anyway. */
  lemma {:induction false} RerunWritesForced(fs: FileSystem, ts: seq<Target>)
    requires forall j :: 0 <= j < |ts| ==> At(fs, ts[j].path) == Some(File(ts[j].content))
    ensures CountWrites(fs, ts) == CountForced(ts)
  {
    if ts != [] {
      var early := ts[..|ts| - 1];
      assert forall j :: 0 <= j < |early| ==> early[j] == ts[j];
      RerunWritesForced(fs, early);
    }
  }

  // ------------------------------------------------------- one target

  /** Conditions under which target `k` can be written, midway through a run. */
  ghost predicate Midway(fs0: FileSystem, fs: FileSystem, ts: seq<Target>, k: nat) {
    Tree(fs) && Wrote(fs0, fs, ts, k) && OthersKept(fs0, fs, ts, {})
  }

  ghost predicate Checked(fs0: FileSystem, ts: seq<Target>) {
    Tree(fs0) && DistinctPaths(ts) && Preflight(fs0, ts)
  }

  lemma NotRoot(fs0: FileSystem, ts: seq<Target>, k: nat)
    requires Checked(fs0, ts) && k < |ts|
    ensures ts[k].path != []
  {
    assert Placeable(fs0, ts[k]);
  }

  /** What lies above a target is never a file, however far the run got. */
  lemma AncestorsClear(fs0: FileSystem, fs: FileSystem, ts: seq<Target>, m: nat, k: nat)
    requires Checked(fs0, ts) && Midway(fs0, fs, ts, m) && k < |ts|
    ensures forall n :: 0 <= n < |ts[k].path| ==>
      At(fs, ts[k].path[..n]) == None || At(fs, ts[k].path[..n]) == Some(Dir)
  {
    var p := ts[k].path;
    forall n | 0 <= n < |p|
      ensures At(fs, p[..n]) == None || At(fs, p[..n]) == Some(Dir)
    {
      var q := p[..n];
      assert Placeable(fs0, ts[k]);
      assert forall j :: 0 <= j < |ts| && ts[j].path == q ==> ts[j].path != p && IsPrefix(ts[j].path, p);
      assert !IsTarget(ts, q);
      assert OtherKept(fs0, fs, ts, q);
    }
  }

  /** The directories above a target are never files, however far the run got. */
  lemma WayIsClear(fs0: FileSystem, fs: FileSystem, ts: seq<Target>, k: nat)
    requires Checked(fs0, ts) && Midway(fs0, fs, ts, k) && k < |ts|
    ensures ts[k].path != [] && !Blocked(fs, Parent(ts[k].path)) && At(fs, ts[k].path) != Some(Dir)
  {
    NotRoot(fs0, ts, k);
    AncestorsClear(fs0, fs, ts, k, k);
    var p := ts[k].path;
    forall n | 0 <= n <= |Parent(p)|
      ensures !(Parent(p)[..n] in fs && fs[Parent(p)[..n]].File?)
    {
      assert Parent(p)[..n] == p[..n];
    }
    assert Placeable(fs0, ts[k]);
  }

  /** Some directories towards target `k` were created. */
  lemma DirsKeep(fs0: FileSystem, fs: FileSystem, ts: seq<Target>, k: nat, n: nat)
    requires Checked(fs0, ts) && Midway(fs0, fs, ts, k) && k < |ts| && n < |ts[k].path|
    ensures Midway(fs0, WithDirs(fs, ts[k].path[..n]), ts, k)
    ensures n == |ts[k].path| - 1 ==> At(WithDirs(fs, ts[k].path[..n]), Parent(ts[k].path)) == Some(Dir)
  {
    var d := ts[k].path[..n];
    WayIsClear(fs0, fs, ts, k);
    forall m | 0 <= m <= |d|
      ensures !(d[..m] in fs && fs[d[..m]].File?)
    {
      assert d[..m] == Parent(ts[k].path)[..m];
    }
    WithDirsTree(fs, d);
    DirsKeepTargets(fs0, fs, ts, k, d);
    DirsKeepOthers(fs0, fs, ts, k, d);
  }

  lemma DirsKeepTargets(fs0: FileSystem, fs: FileSystem, ts: seq<Target>, k: nat, d: Path)
    requires Checked(fs0, ts) && k < |ts| && |d| < |ts[k].path| && d == ts[k].path[..|d|]
    ensures forall j :: 0 <= j < |ts| ==> At(WithDirs(fs, d), ts[j].path) == At(fs, ts[j].path)
  {
    forall j | 0 <= j < |ts|
      ensures At(WithDirs(fs, d), ts[j].path) == At(fs, ts[j].path)
    {
      TargetIsNoDir(fs0, ts, j, k, d);
      WithDirsAt(fs, d, ts[j].path);
    }
  }

  lemma DirsKeepOthers(fs0: FileSystem, fs: FileSystem, ts: seq<Target>, k: nat, d: Path)
    requires OthersKept(fs0, fs, ts, {}) && k < |ts| && |d| < |ts[k].path| && d == ts[k].path[..|d|]
    ensures OthersKept(fs0, WithDirs(fs, d), ts, {})
  {
    forall q | !IsTarget(ts, q)
      ensures OtherKept(fs0, WithDirs(fs, d), ts, q)
    {
      assert OtherKept(fs0, fs, ts, q);
      WithDirsAt(fs, d, q);
      if IsPrefix(q, d) { assert IsPrefix(q, ts[k].path); }
    }
  }

  lemma TargetIsNoDir(fs0: FileSystem, ts: seq<Target>, j: nat, k: nat, d: Path)
    requires Checked(fs0, ts) && j < |ts| && k < |ts| && |d| < |ts[k].path| && d == ts[k].path[..|d|]
    ensures !IsPrefix(ts[j].path, d)
  {
    var p, q := ts[j].path, ts[k].path;
    assert p == q || !IsPrefix(p, q);
  }

  /** A path apart from all targets holds what it held before the run. */
  lemma ApartIsKept(fs0: FileSystem, fs: FileSystem, ts: seq<Target>, k: nat, temp: Path)
    requires Midway(fs0, fs, ts, k) && Apart(ts, temp)
    ensures At(fs, temp) == At(fs0, temp) && !IsTarget(ts, temp) && !LeadsToTarget(ts, temp)
  {
    assert forall j :: 0 <= j < |ts| && ts[j].path == temp ==> IsPrefix(temp, ts[j].path);
    assert OtherKept(fs0, fs, ts, temp);
  }

  /** Files at paths apart from all targets may be forgotten on both sides. */
  lemma ForgetTemp(fs0: FileSystem, fs: FileSystem, ts: seq<Target>, k: nat, temp: Path)
    requires Checked(fs0, ts) && Midway(fs0, fs, ts, k) && Apart(ts, temp) && At(fs, temp) != Some(Dir)
    ensures Checked(fs0 - {temp}, ts) && Midway(fs0 - {temp}, fs - {temp}, ts, k)
  {
    ApartIsKept(fs0, fs, ts, k, temp);
    ForgetFile(fs0, temp);
    ForgetFile(fs, temp);
    forall j | 0 <= j < |ts|
      ensures ts[j].path != temp && Placeable(fs0 - {temp}, ts[j])
    {
      assert Placeable(fs0, ts[j]);
      assert forall n :: 0 <= n < |ts[j].path| ==> IsPrefix(ts[j].path[..n], ts[j].path);
      assert IsPrefix(ts[j].path, ts[j].path);
    }
    forall q | !IsTarget(ts, q)
      ensures OtherKept(fs0 - {temp}, fs - {temp}, ts, q)
    {
      assert OtherKept(fs0, fs, ts, q);
    }
  }

  lemma AddFile(fs: FileSystem, p: Path, content: string)
    requires Tree(fs) && p != [] && At(fs, Parent(p)) == Some(Dir) && At(fs, p) != Some(Dir)
    ensures Tree(fs[p := File(content)])
  {
    var fs' := fs[p := File(content)];
    forall q | q in fs' && q != []
      ensures At(fs', Parent(q)) == Some(Dir)
    {
      assert q == p || q in fs;
      assert At(fs, Parent(q)) == Some(Dir);
    }
  }

  lemma PartOfWay(fs: FileSystem, p: Path, n: nat)
    requires Tree(fs) && !Blocked(fs, p) && n <= |p|
    ensures Tree(WithDirs(fs, p[..n]))
  {
    assert !Blocked(fs, p[..n]) by {
      forall m | 0 <= m <= n
        ensures !(p[..n][..m] in fs && fs[p[..n][..m]].File?)
      {
        assert p[..n][..m] == p[..m];
      }
    }
    WithDirsTree(fs, p[..n]);
  }

  lemma ForgetFile(fs: FileSystem, temp: Path)
    requires Tree(fs) && At(fs, temp) != Some(Dir)
    ensures Tree(fs - {temp})
  {
    forall q | q in fs && q != [] && q != temp
      ensures At(fs - {temp}, Parent(q)) == Some(Dir)
    {
      assert At(fs, Parent(q)) == Some(Dir);
    }
  }

  /** The content of target `k` was put in place. */
  lemma ReplaceKeeps(fs0: FileSystem, fs: FileSystem, ts: seq<Target>, k: nat)
    requires Checked(fs0, ts) && Midway(fs0, fs, ts, k) && k < |ts| && ts[k].path != []
    requires At(fs, ts[k].path) != Some(Dir) && At(fs, Parent(ts[k].path)) == Some(Dir)
    ensures Midway(fs0, fs[ts[k].path := File(ts[k].content)], ts, k + 1)
  {
    var p := ts[k].path;
    var fs' := fs[p := File(ts[k].content)];
    forall q | q in fs' && q != []
      ensures At(fs', Parent(q)) == Some(Dir)
    {
      assert q == p || q in fs;
      assert At(fs, Parent(q)) == Some(Dir);
    }
    forall q | !IsTarget(ts, q)
      ensures OtherKept(fs0, fs', ts, q)
    {
      assert OtherKept(fs0, fs, ts, q) && q != p;
    }
  }

  lemma SkipKeeps(fs0: FileSystem, fs: FileSystem, ts: seq<Target>, k: nat)
    requires Midway(fs0, fs, ts, k) && k < |ts| && At(fs, ts[k].path) == Some(File(ts[k].content))
    ensures Midway(fs0, fs, ts, k + 1)
  {
  }

  lemma MidwayIsOldOrNew(fs0: FileSystem, fs: FileSystem, ts: seq<Target>, k: nat)
    requires Wrote(fs0, fs, ts, k)
    ensures OldOrNew(fs0, fs, ts)
  {
  }

  /** Nothing changed but, perhaps, at `p`. */
  ghost predicate Elsewhere(fs0: FileSystem, fs: FileSystem, p: Path) {
    forall q :: q != p ==> At(fs, q) == At(fs0, q)
  }

  /** The path can be replaced through `temp`. */
  predicate Open(fs: FileSystem, temp: Path, path: Path) {
    path != [] && At(fs, Parent(path)) == Some(Dir) && At(fs, path) != Some(Dir) && At(fs, temp) != Some(Dir)
  }

  /** What replacing `path` through `temp` does, whether it succeeds or fails. */
  ghost predicate Swapped(fs0: FileSystem, fs: FileSystem, temp: Path, path: Path, content: string, ok: bool,
      stray: bool) {
    if ok then
      && !stray && Open(fs0, temp, path) && fs == (fs0 - {temp})[path := File(content)]
      && (Elsewhere(fs0, fs, path) <==> temp !in fs0)
    else
      Elsewhere(fs0, fs, temp) && (!stray ==> At(fs, temp) == None || fs == fs0)
  }

  /** Moving the filled temporary over the path. */
  lemma RenamedIs(fs0: FileSystem, fs: FileSystem, temp: Path, path: Path, content: string)
    requires Elsewhere(fs0, fs, temp) && At(fs, temp) == Some(File(content))
    ensures (fs - {temp})[path := fs[temp]] == (fs0 - {temp})[path := File(content)]
  {
    var a, b := (fs - {temp})[path := fs[temp]], (fs0 - {temp})[path := File(content)];
    forall q
      ensures At(a, q) == At(b, q)
    {
      if q != temp && q != path { assert At(fs, q) == At(fs0, q); }
    }
    SameFiles(a, b);
  }

  lemma SameFiles(a: FileSystem, b: FileSystem)
    requires forall q :: At(a, q) == At(b, q)
    ensures a == b
  {
    forall q
      ensures q in a <==> q in b
      ensures q in a ==> a[q] == b[q]
    {
      assert At(a, q) == At(b, q);
    }
  }

  /** Replacing a file through `temp` leaves the others alone exactly when nothing was at `temp`. */
  lemma ReplaceTouches(fs: FileSystem, temp: Path, path: Path, content: string)
    requires temp != path
    ensures Elsewhere(fs, (fs - {temp})[path := File(content)], path) <==> temp !in fs
  {
    var fs' := (fs - {temp})[path := File(content)];
    assert At(fs', temp) == None;
  }

  /** A write that failed touched at most its temporary file, and that only if it was there or stays. */
  lemma FailureKeeps(fs0: FileSystem, fs: FileSystem, fs': FileSystem, ts: seq<Target>, k: nat, temp: Path, stray: bool)
    requires Midway(fs0, fs, ts, k) && Apart(ts, temp)
    requires Elsewhere(fs, fs', temp)
    requires !stray ==> At(fs', temp) == None || fs' == fs
    ensures OldOrNew(fs0, fs', ts) && OthersKept(fs0, fs', ts, if stray || temp in fs0 then {temp} else {})
  {
    ApartIsKept(fs0, fs, ts, k, temp);
    forall j | 0 <= j < |ts|
      ensures At(fs', ts[j].path) == At(fs, ts[j].path)
    {
      assert ts[j].path != temp;
    }
    forall q | !IsTarget(ts, q) && q !in (if stray || temp in fs0 then {temp} else {})
      ensures OtherKept(fs0, fs', ts, q)
    {
      assert OtherKept(fs0, fs, ts, q);
    }
  }

  /** The files that were lost to temporaries, seen against the file system the run started from. */
  ghost predicate Lost(fs0: FileSystem, ts: seq<Target>, lost: set<Path>) {
    forall q :: q in lost ==> q in fs0 && Apart(ts, q)
  }

  lemma TargetsNotLost(fs0: FileSystem, ts: seq<Target>, lost: set<Path>)
    requires Lost(fs0, ts, lost)
    ensures forall j :: 0 <= j < |ts| ==> ts[j].path !in lost && At(fs0 - lost, ts[j].path) == At(fs0, ts[j].path)
  {
    assert forall j :: 0 <= j < |ts| ==> IsPrefix(ts[j].path, ts[j].path);
  }

  /** What was kept relative to the reduced start was kept relative to the start, but for the lost files. */
  lemma RestoreLost(fs0: FileSystem, fs: FileSystem, ts: seq<Target>, lost: set<Path>, spare: set<Path>)
    requires Lost(fs0, ts, lost) && OldOrNew(fs0 - lost, fs, ts) && OthersKept(fs0 - lost, fs, ts, spare)
    ensures OldOrNew(fs0, fs, ts) && OthersKept(fs0, fs, ts, lost + spare)
  {
    TargetsNotLost(fs0, ts, lost);
    forall q | !IsTarget(ts, q) && q !in lost + spare
      ensures OtherKept(fs0, fs, ts, q)
    {
      assert OtherKept(fs0 - lost, fs, ts, q);
    }
  }

  /** Every other file survived exactly when nothing was lost to a temporary. */
  lemma KeptIffNoneLost(fs0: FileSystem, fs: FileSystem, ts: seq<Target>, lost: set<Path>)
    requires Lost(fs0, ts, lost) && Wrote(fs0 - lost, fs, ts, |ts|) && OthersKept(fs0 - lost, fs, ts, {})
    ensures Wrote(fs0, fs, ts, |ts|) && (OthersKept(fs0, fs, ts, {}) <==> lost == {})
  {
    MidwayIsOldOrNew(fs0 - lost, fs, ts, |ts|);
    RestoreLost(fs0, fs, ts, lost, {});
    assert lost == {} ==> lost + {} == {};
    if q :| q in lost {
      assert Apart(ts, q) && q !in fs0 - lost;
      assert forall j :: 0 <= j < |ts| && ts[j].path == q ==> IsPrefix(q, ts[j].path);
      assert OtherKept(fs0 - lost, fs, ts, q) && !LeadsToTarget(ts, q);
      assert !OtherKept(fs0, fs, ts, q);
    }
  }

  /** Directory creation that failed, at any point. */
  lemma FailedDirsKeep(fs0: FileSystem, fs: FileSystem, fs': FileSystem, ts: seq<Target>, k: nat)
    requires Checked(fs0, ts) && Midway(fs0, fs, ts, k) && k < |ts| && ts[k].path != []
    requires fs' == fs || exists n :: 0 <= n <= |Parent(ts[k].path)| && fs' == WithDirs(fs, Parent(ts[k].path)[..n])
    ensures OldOrNew(fs0, fs', ts) && OthersKept(fs0, fs', ts, {})
  {
    if fs' != fs {
      var n :| 0 <= n <= |Parent(ts[k].path)| && fs' == WithDirs(fs, Parent(ts[k].path)[..n]);
      assert Parent(ts[k].path)[..n] == ts[k].path[..n];
      DirsKeep(fs0, fs, ts, k, n);
    }
    assert Midway(fs0, fs', ts, k);
  }

  lemma IsTargetSnoc(ts: seq<Target>, t: Target)
    ensures forall p :: IsTarget(ts + [t], p) <==> IsTarget(ts, p) || p == t.path
  {
    forall p
      ensures IsTarget(ts + [t], p) <==> IsTarget(ts, p) || p == t.path
    {
      if IsTarget(ts, p) {
        var j :| 0 <= j < |ts| && ts[j].path == p;
        assert (ts + [t])[j].path == p;
      }
      assert (ts + [t])[|ts|] == t;
    }
  }

  // ------------------------------------------------------- a whole run

  /** What a run from `fs0` to `fs` promises; `touched` are other paths it may have changed. */
  ghost predicate Delivered(fs0: FileSystem, fs: FileSystem, ts: seq<Target>, pid: nat, sequence: nat, outcome: Outcome,
      touched: set<Path>) {
    && OldOrNew(fs0, fs, ts) && OthersKept(fs0, fs, ts, touched)
    && (outcome.Summary? ==>
          && Wrote(fs0, fs, ts, |ts|) && Tree(fs)
          && touched == TempsUsed(fs0, ts, pid, sequence) * fs0.Keys
          && (OthersKept(fs0, fs, ts, {}) <==> touched == {})
          && outcome.written == CountWrites(fs0, ts) && outcome.written + outcome.same == |ts|)
  }

  /** No operation fails and the temporary names the run will use are free. */
  ghost predicate Smooth(fs0: FileSystem, ts: seq<Target>, pid: nat, sequence: nat, faulty: nat -> bool) {
    (forall n :: !faulty(n)) && TempsUsed(fs0, ts, pid, sequence) !! fs0.Keys
  }

  ghost predicate Unhindered(fs0: FileSystem, ts: seq<Target>, pid: nat, sequence: nat, faulty: nat -> bool) {
    TempsApart(ts, pid, sequence) && Smooth(fs0, ts, pid, sequence, faulty)
  }

  datatype Step = Unchanged | Written | Broken

  lemma {:induction false} UsedGrows(fs: FileSystem, ts: seq<Target>, k: nat, pid: nat, sequence: nat)
    requires k <= |ts|
    ensures TempsUsed(fs, ts[..k], pid, sequence) <= TempsUsed(fs, ts, pid, sequence)
    decreases |ts|
  {
    if k == |ts| {
      assert ts[..k] == ts;
    } else {
      assert ts[..|ts| - 1][..k] == ts[..k];
      UsedGrows(fs, ts[..|ts| - 1], k, pid, sequence);
    }
  }

  lemma UsedSnoc(fs: FileSystem, ts: seq<Target>, k: nat, pid: nat, sequence: nat)
    requires k < |ts| && ts[k].path != [] && NeedsWrite(fs, ts[k])
    ensures CountWrites(fs, ts[..k + 1]) == CountWrites(fs, ts[..k]) + 1
    ensures TempsUsed(fs, ts[..k + 1], pid, sequence)
         == TempsUsed(fs, ts[..k], pid, sequence) + {TempOf(ts[k].path, pid, sequence + CountWrites(fs, ts[..k]))}
  {
    var upto := ts[..k + 1];
    assert upto[..|upto| - 1] == ts[..k] && upto[|upto| - 1] == ts[k];
  }

  /** Midway through a run, relative to a start from which the lost files are taken away. */
  ghost predicate Underway(start: FileSystem, fs: FileSystem, ts: seq<Target>, k: nat, pid: nat, first: nat,
      lost: set<Path>) {
    && k <= |ts| && lost == TempsUsed(start, ts[..k], pid, first) * start.Keys && Lost(start, ts, lost)
    && Checked(start - lost, ts) && Midway(start - lost, fs, ts, k)
  }

  lemma {:induction false} CountAtMost(fs: FileSystem, ts: seq<Target>)
    ensures CountWrites(fs, ts) <= |ts|
  {
    if ts != [] { CountAtMost(fs, ts[..|ts| - 1]); }
  }

  /** Whether target `k` needs writing is decided by the start. */
  lemma NeedsAsStarted(start: FileSystem, fs: FileSystem, ts: seq<Target>, k: nat, lost: set<Path>)
    requires Lost(start, ts, lost) && Midway(start - lost, fs, ts, k) && k < |ts|
    ensures NeedsWrite(fs, ts[k]) == NeedsWrite(start, ts[k])
  {
    TargetsNotLost(start, ts, lost);
  }

  lemma SkipUnderway(start: FileSystem, fs: FileSystem, ts: seq<Target>, k: nat, pid: nat, first: nat, lost: set<Path>)
    requires k < |ts| && Underway(start, fs, ts, k, pid, first, lost) && !NeedsWrite(fs, ts[k])
    ensures Underway(start, fs, ts, k + 1, pid, first, lost)
    ensures CountWrites(start, ts[..k + 1]) == CountWrites(start, ts[..k])
  {
    NeedsAsStarted(start, fs, ts, k, lost);
    assert ts[..k + 1][..k] == ts[..k];
    SkipKeeps(start - lost, fs, ts, k);
  }

  /** The directories of `t` exist, `temp` does not, and `t` holds its content. */
  predicate Replaced(fs: FileSystem, fs': FileSystem, t: Target, temp: Path) {
    t.path != [] && fs' == (WithDirs(fs, Parent(t.path)) - {temp})[t.path := File(t.content)]
  }

  lemma ReplacedIsRun(fs: FileSystem, fs': FileSystem, t: Target, pid: nat, sequence: nat)
    requires t.path != [] && NeedsWrite(fs, t) && Replaced(fs, fs', t, TempOf(t.path, pid, sequence))
    ensures (fs', sequence + 1) == RunOne(fs, t, pid, sequence)
  {
  }

  /** One target was written; `temp` no longer exists. */
  ghost predicate Succeeded(base: FileSystem, fs: FileSystem, ts: seq<Target>, k: nat, temp: Path) {
    Checked(base - {temp}, ts) && Midway(base - {temp}, fs, ts, k + 1)
  }

  lemma ReplaceSucceeds(base: FileSystem, fs: FileSystem, ts: seq<Target>, k: nat, temp: Path)
    requires Checked(base, ts) && Midway(base, fs, ts, k) && k < |ts| && ts[k].path != [] && Apart(ts, temp)
    requires At(fs, ts[k].path) != Some(Dir) && At(fs, Parent(ts[k].path)) == Some(Dir) && At(fs, temp) != Some(Dir)
    requires temp != ts[k].path && temp != Parent(ts[k].path)
    ensures Succeeded(base, (fs - {temp})[ts[k].path := File(ts[k].content)], ts, k, temp)
  {
    ForgetTemp(base, fs, ts, k, temp);
    ReplaceKeeps(base - {temp}, fs - {temp}, ts, k);
  }

  /** One write failed; at most `temp` was touched. */
  ghost predicate FailedAt(base: FileSystem, fs: FileSystem, ts: seq<Target>, temp: Path, stray: bool) {
    OldOrNew(base, fs, ts) && OthersKept(base, fs, ts, if stray || temp in base then {temp} else {})
  }

  /** A run in progress whose temporary names are apart from the targets. */
  ghost predicate Calm(start: FileSystem, fs: FileSystem, ts: seq<Target>, k: nat, pid: nat, first: nat,
      lost: set<Path>, sequence: nat) {
    TempsApart(ts, pid, first) && Underway(start, fs, ts, k, pid, first, lost) &&
      sequence == first + CountWrites(start, ts[..k])
  }

  /** The temporary name of the next write is apart from the targets. */
  lemma NextApart(start: FileSystem, ts: seq<Target>, k: nat, pid: nat, first: nat)
    requires k < |ts| && ts[k].path != [] && TempsApart(ts, pid, first)
    ensures Apart(ts, TempOf(ts[k].path, pid, first + CountWrites(start, ts[..k])))
  {
    CountAtMost(start, ts[..k]);
  }

  lemma NextUsed(start: FileSystem, ts: seq<Target>, k: nat, pid: nat, first: nat, temp: Path)
    requires k < |ts| && TempsUsed(start, ts[..k + 1], pid, first) == TempsUsed(start, ts[..k], pid, first) + {temp}
    ensures temp in TempsUsed(start, ts, pid, first)
  {
    UsedGrows(start, ts, k + 1, pid, first);
  }

  lemma WriteUnderway(start: FileSystem, before: FileSystem, fs: FileSystem, ts: seq<Target>, k: nat, pid: nat,
      first: nat, lost: set<Path>, temp: Path)
    requires k < |ts| && Underway(start, before, ts, k, pid, first, lost) && Apart(ts, temp)
    requires TempsUsed(start, ts[..k + 1], pid, first) == TempsUsed(start, ts[..k], pid, first) + {temp}
    requires Succeeded(start - lost, fs, ts, k, temp)
    ensures Underway(start, fs, ts, k + 1, pid, first, lost + ({temp} * start.Keys))
  {
    assert start - lost - {temp} == start - (lost + ({temp} * start.Keys));
  }

  lemma FailUnderway(start: FileSystem, fs: FileSystem, ts: seq<Target>, lost: set<Path>, temp: Path, stray: bool)
    requires Lost(start, ts, lost) && FailedAt(start - lost, fs, ts, temp, stray)
    ensures OldOrNew(start, fs, ts)
    ensures OthersKept(start, fs, ts, lost + if stray || temp in start - lost then {temp} else {})
  {
    RestoreLost(start, fs, ts, lost, if stray || temp in start - lost then {temp} else {});
  }

  /** A run that got to its end delivers. */
  lemma RunDelivers(start: FileSystem, fs: FileSystem, ts: seq<Target>, pid: nat, first: nat, lost: set<Path>,
      written: nat, same: nat)
    requires Underway(start, fs, ts, |ts|, pid, first, lost)
    requires written == CountWrites(start, ts) && written + same == |ts|
    ensures Delivered(start, fs, ts, pid, first, Summary(written, same), lost)
  {
    assert ts[..|ts|] == ts;
    MidwayIsOldOrNew(start - lost, fs, ts, |ts|);
    RestoreLost(start, fs, ts, lost, {});
    assert lost + {} == lost;
    KeptIffNoneLost(start, fs, ts, lost);
  }

  lemma FailureDelivers(start: FileSystem, fs: FileSystem, ts: seq<Target>, pid: nat, first: nat, touched: set<Path>)
    requires OldOrNew(start, fs, ts) && OthersKept(start, fs, ts, touched)
    ensures Delivered(start, fs, ts, pid, first, WriteFailed, touched)
  {
  }

  lemma CalmStart(fs: FileSystem, ts: seq<Target>, pid: nat, first: nat)
    requires Checked(fs, ts) && TempsApart(ts, pid, first)
    ensures Calm(fs, fs, ts, 0, pid, first, {}, first)
  {
    assert fs - {} == fs;
  }

  // ------------------------------------------------------- a second run

  ghost predicate AllInPlace(fs: FileSystem, ts: seq<Target>) {
    forall j :: 0 <= j < |ts| ==> At(fs, ts[j].path) == Some(File(ts[j].content))
  }

  /** No temporary name that two runs can use is taken, or leads to a target. */
  ghost predicate NamesClear(fs: FileSystem, ts: seq<Target>, pid: nat, sequence: nat) {
    forall k, n {:trigger TempOf(ts[k].path, pid, n)} ::
      0 <= k < |ts| && ts[k].path != [] && sequence <= n < sequence + 2 * |ts| ==>
      TempOf(ts[k].path, pid, n) !in fs && Apart(ts, TempOf(ts[k].path, pid, n))
  }

  /** A name is used only by some target at some number of the run's range. */
  ghost predicate NameOf(ts: seq<Target>, pid: nat, sequence: nat, q: Path) {
    exists k, n {:trigger TempOf(ts[k].path, pid, n)} ::
      0 <= k < |ts| && ts[k].path != [] && sequence <= n < sequence + |ts| && q == TempOf(ts[k].path, pid, n)
  }

  lemma {:induction false} UsedAreNames(fs: FileSystem, ts: seq<Target>, pid: nat, sequence: nat, q: Path)
    requires q in TempsUsed(fs, ts, pid, sequence)
    ensures NameOf(ts, pid, sequence, q)
  {
    var early, last := ts[..|ts| - 1], |ts| - 1;
    CountAtMost(fs, early);
    if q in TempsUsed(fs, early, pid, sequence) {
      UsedAreNames(fs, early, pid, sequence, q);
      var k, n :| 0 <= k < |early| && early[k].path != [] && sequence <= n < sequence + |early| &&
        q == TempOf(early[k].path, pid, n);
      assert q == TempOf(ts[k].path, pid, n);
    } else {
      assert q == TempOf(ts[last].path, pid, sequence + CountWrites(fs, early));
    }
  }

  /** Both runs use names that are clear at the start. */
  lemma ClearNames(fs: FileSystem, ts: seq<Target>, pid: nat, sequence: nat, from: nat, q: Path)
    requires NamesClear(fs, ts, pid, sequence) && sequence <= from <= sequence + |ts| && NameOf(ts, pid, from, q)
    ensures q !in fs && Apart(ts, q)
  {
    var k, n :| 0 <= k < |ts| && ts[k].path != [] && from <= n < from + |ts| && q == TempOf(ts[k].path, pid, n);
    assert TempOf(ts[k].path, pid, n) !in fs;
  }

  lemma ClearIsApart(fs: FileSystem, ts: seq<Target>, pid: nat, sequence: nat, from: nat)
    requires NamesClear(fs, ts, pid, sequence) && sequence <= from <= sequence + |ts|
    ensures TempsApart(ts, pid, from)
  {
    forall k, n | 0 <= k < |ts| && ts[k].path != [] && from <= n < from + |ts|
      ensures Apart(ts, TempOf(ts[k].path, pid, n))
    {
      assert NameOf(ts, pid, from, TempOf(ts[k].path, pid, n));
      ClearNames(fs, ts, pid, sequence, from, TempOf(ts[k].path, pid, n));
    }
  }

  /** After a completed run the set is still acceptable. */
  lemma StillChecked(fs0: FileSystem, fs: FileSystem, ts: seq<Target>)
    requires Checked(fs0, ts) && Midway(fs0, fs, ts, |ts|)
    ensures Checked(fs, ts)
  {
    forall k | 0 <= k < |ts|
      ensures Placeable(fs, ts[k])
    {
      AncestorsClear(fs0, fs, ts, |ts|, k);
    }
  }

  /** Every target is in place, the set is acceptable, and the temporary names of a run are free. */
  ghost predicate Ready(fs: FileSystem, files: seq<OutFile>, format: (Path, string) -> string, referencesOk: bool,
      pid: nat, sequence: nat) {
    var ts := Targets(files, format);
    && Tree(fs) && AllInPlace(fs, ts) && Acceptable(fs, files, format, referencesOk)
    && TempsApart(ts, pid, sequence) && TempsUsed(fs, ts, pid, sequence) !! fs.Keys
  }

  /** What the first run leaves, and why the second meets nothing in its way. */
  lemma RerunIsSmooth(fs0: FileSystem, fs: FileSystem, ts: seq<Target>, pid: nat, seq0: nat, seq1: nat, first: Outcome,
      touched: set<Path>)
    requires Checked(fs0, ts) && NamesClear(fs0, ts, pid, seq0) && first.Summary?
    requires TempsApart(ts, pid, seq0) ==> Delivered(fs0, fs, ts, pid, seq0, first, touched)
    requires (fs, seq1) == RunAll(fs0, ts, pid, seq0)
    ensures Checked(fs, ts) && AllInPlace(fs, ts) && TempsApart(ts, pid, seq1)
    ensures TempsUsed(fs, ts, pid, seq1) !! fs.Keys
  {
    ClearIsApart(fs0, ts, pid, seq0, seq0);
    forall q | q in touched
      ensures false
    {
      UsedAreNames(fs0, ts, pid, seq0, q);
      ClearNames(fs0, ts, pid, seq0, seq0, q);
    }
    assert touched == {};
    StillChecked(fs0, fs, ts);
    RunNumbers(fs0, ts, pid, seq0);
    ClearIsApart(fs0, ts, pid, seq0, seq1);
    forall q | q in TempsUsed(fs, ts, pid, seq1)
      ensures q !in fs
    {
      UsedAreNames(fs, ts, pid, seq1, q);
      ClearNames(fs0, ts, pid, seq0, seq1, q);
      ApartIsKept(fs0, fs, ts, |ts|, q);
    }
  }

  lemma {:induction false} RunNumbers(fs: FileSystem, ts: seq<Target>, pid: nat, sequence: nat)
    ensures sequence <= RunAll(fs, ts, pid, sequence).1 <= sequence + |ts|
  {
    if ts != [] { RunNumbers(fs, ts[..|ts| - 1], pid, sequence); }
  }

  lemma RunSnoc(fs: FileSystem, ts: seq<Target>, k: nat, pid: nat, sequence: nat)
    requires k < |ts|
    ensures var (now, next) := RunAll(fs, ts[..k], pid, sequence);
      RunAll(fs, ts[..k + 1], pid, sequence) == RunOne(now, ts[k], pid, next)
  {
    assert ts[..k + 1][..k] == ts[..k];
  }

  // ------------------------------------------------------- the writer

  class Writer {
    var fs: FileSystem
    /** Operations issued so far; `faulty` says which of them fail. */
    var clock: nat
    var sequence: nat
    const pid: nat
    const faulty: nat -> bool
    const partial: nat -> nat
    const format: (Path, string) -> string

    constructor (fs: FileSystem, pid: nat, sequence: nat, faulty: nat -> bool, partial: nat -> nat,
      format: (Path, string) -> string)
      ensures this.fs == fs && this.sequence == sequence && this.clock == 0
      ensures this.pid == pid && this.faulty == faulty && this.partial == partial && this.format == format
    {
      this.fs, this.sequence, this.clock := fs, sequence, 0;
      this.pid, this.faulty, this.partial, this.format := pid, faulty, partial, format;
    }

    method Tick() returns (fault: bool, extent: nat)
      modifies this`clock
      ensures fault == faulty(old(clock))
    {
      fault, extent := faulty(clock), partial(clock);
      clock := clock + 1;
    }

    method CreateDirAll(p: Path) returns (ok: bool)
      modifies this`fs, this`clock
      ensures ok ==> !Blocked(old(fs), p) && fs == WithDirs(old(fs), p)
      ensures !ok ==> fs == old(fs) || exists n :: 0 <= n <= |p| && fs == WithDirs(old(fs), p[..n])
      ensures !faulty(old(clock)) && !Blocked(old(fs), p) ==> ok
      ensures Tree(old(fs)) ==> Tree(fs)
    {
      var fault, extent := Tick();
      if Blocked(fs, p) { return false; }
      var n := if fault then extent % (|p| + 1) else |p|;
      assert p[..|p|] == p;
      if Tree(fs) { PartOfWay(fs, p, n); }
      fs := WithDirs(fs, p[..n]);
      if fault { return false; }
      return true;
    }

    method CreateFile(p: Path) returns (ok: bool)
      requires p != []
      modifies this`fs, this`clock
      ensures ok ==> At(old(fs), Parent(p)) == Some(Dir) && At(old(fs), p) != Some(Dir) && fs == old(fs)[p := File([])]
      ensures !ok ==> fs == old(fs)
      ensures !faulty(old(clock)) && At(old(fs), Parent(p)) == Some(Dir) && At(old(fs), p) != Some(Dir) ==> ok
      ensures Tree(old(fs)) ==> Tree(fs)
    {
      var fault, _ := Tick();
      if fault || At(fs, Parent(p)) != Some(Dir) || At(fs, p) == Some(Dir) { return false; }
      if Tree(fs) { AddFile(fs, p, []); }
      fs := fs[p := File([])];
      return true;
    }

    method WriteAll(p: Path, content: string) returns (ok: bool)
      requires p in fs && fs[p].File?
      modifies this`fs, this`clock
      ensures ok ==> fs == old(fs)[p := File(content)]
      ensures Elsewhere(old(fs), fs, p) && At(fs, p).Some? && At(fs, p).value.File?
      ensures !faulty(old(clock)) ==> ok
      ensures Tree(old(fs)) ==> Tree(fs)
    {
      var fault, extent := Tick();
      var put := if fault then content[..extent % (|content| + 1)] else content;
      if Tree(fs) {
        assert p != [] && At(fs, Parent(p)) == Some(Dir);
        AddFile(fs, p, put);
      }
      fs := fs[p := File(put)];
      return !fault;
    }

    method Rename(a: Path, b: Path) returns (ok: bool)
      requires a in fs && fs[a].File? && a != b && b != [] && At(fs, Parent(b)) == Some(Dir)
      modifies this`fs, this`clock
      ensures ok ==> At(old(fs), b) != Some(Dir) && fs == (old(fs) - {a})[b := old(fs)[a]]
      ensures !ok ==> fs == old(fs)
      ensures !faulty(old(clock)) && At(old(fs), b) != Some(Dir) ==> ok
      ensures Tree(old(fs)) ==> Tree(fs)
    {
      var fault, _ := Tick();
      if fault || At(fs, b) == Some(Dir) { return false; }
      if Tree(fs) {
        ForgetFile(fs, a);
        AddFile(fs - {a}, b, fs[a].content);
      }
      fs := (fs - {a})[b := fs[a]];
      return true;
    }

    method RemoveFile(p: Path) returns (ok: bool)
      modifies this`fs, this`clock
      ensures fs == if ok then old(fs) - {p} else old(fs)
      ensures !faulty(old(clock)) && p in old(fs) && old(fs)[p].File? ==> ok
      ensures ok ==> p in old(fs) && old(fs)[p].File?
      ensures Tree(old(fs)) ==> Tree(fs)
    {
      var fault, _ := Tick();
      if fault || p !in fs || fs[p].Dir? { return false; }
      if Tree(fs) { ForgetFile(fs, p); }
      fs := fs - {p};
      return true;
    }

    /**
      Replaces one file by its new content, or leaves it wholly as it was; the temporary
      file is gone afterwards unless removing it failed too.
     */
    method AtomicWrite(path: Path, content: string) returns (ok: bool, stray: bool)
      requires path != []
      modifies this`fs, this`clock, this`sequence
      ensures sequence == old(sequence) + 1 && (Tree(old(fs)) ==> Tree(fs))
      ensures Swapped(old(fs), fs, TempOf(path, pid, old(sequence)), path, content, ok, stray)
      ensures (forall n :: !faulty(n)) && Open(old(fs), TempOf(path, pid, old(sequence)), path) ==> ok
    {
      var temp := TempOf(path, pid, sequence);
      TempFacts(path, pid, sequence);
      sequence := sequence + 1;
      ok, stray := ReplaceVia(temp, path, content);
    }

    method ReplaceVia(temp: Path, path: Path, content: string) returns (ok: bool, stray: bool)
      requires path != [] && temp != [] && temp != path && Parent(temp) == Parent(path)
      modifies this`fs, this`clock
      ensures Tree(old(fs)) ==> Tree(fs)
      ensures Swapped(old(fs), fs, temp, path, content, ok, stray)
      ensures (forall n :: !faulty(n)) && Open(old(fs), temp, path) ==> ok
    {
      ghost var start := fs;
      var created := CreateFile(temp);
      if !created {
        var gone := RemoveFile(temp);
        return false, false;
      }
      var written := WriteAll(temp, content);
      assert Elsewhere(start, fs, temp);
      var replaced := false;
      if written {
        ghost var filled := fs;
        replaced := Rename(temp, path);
        RenamedIs(start, filled, temp, path, content);
      }
      if !replaced {
        stray := Discard(temp);
        return false, stray;
      }
      ReplaceTouches(start, temp, path, content);
      return true, false;
    }

    /** Removes a temporary file; true means that it is still there. */
    method Discard(temp: Path) returns (stray: bool)
      requires temp in fs && fs[temp].File?
      modifies this`fs, this`clock
      ensures Elsewhere(old(fs), fs, temp) && (!stray ==> At(fs, temp) == None) && (Tree(old(fs)) ==> Tree(fs))
    {
      var gone := RemoveFile(temp);
      stray := !gone;
    }

    /** Collects the target set, refusing unsafe and repeated paths. */
    method Collect(files: seq<OutFile>) returns (ok: bool, ts: seq<Target>)
      ensures ok <==> (forall f :: f in files ==> Safe(f.path)) && DistinctPaths(Targets(files, format))
      ensures ok ==> ts == Targets(files, format)
    {
      ts := [];
      var seen: set<Path> := {};
      for k := 0 to |files|
        invariant forall j :: 0 <= j < k ==> Safe(files[j].path)
        invariant ts == Targets(files[..k], format) && DistinctPaths(ts)
        invariant forall p :: p in seen <==> IsTarget(ts, p)
      {
        var f := files[k];
        assert files[..k + 1][..k] == files[..k];
        if !Safe(f.path) {
          assert f in files;
          return false, [];
        }
        if f.root.Some? {
          var t := TargetOf(f, format);
          if t.path in seen {
            RepeatedPath(files, format, k);
            return false, [];
          }
          IsTargetSnoc(ts, t);
          seen := seen + {t.path};
          ts := ts + [t];
        }
      }
      assert files[..|files|] == files;
      return true, ts;
    }

    method PreflightTargets(ts: seq<Target>) returns (ok: bool)
      ensures ok == Preflight(fs, ts)
    {
      for k := 0 to |ts|
        invariant forall j :: 0 <= j < k ==> Placeable(fs, ts[j])
      {
        if At(fs, ts[k].path) == Some(Dir) { return false; }
        var n := |ts[k].path|;
        while n > 0
          invariant 0 <= n <= |ts[k].path|
          invariant forall m :: n <= m < |ts[k].path| ==>
            At(fs, ts[k].path[..m]) == None || At(fs, ts[k].path[..m]) == Some(Dir)
        {
          n := n - 1;
          if ts[k].path[..n] in fs && !fs[ts[k].path[..n]].Dir? { return false; }
        }
      }
      for i := 0 to |ts|
        invariant forall a, b :: 0 <= a < i && 0 <= b < |ts| && ts[a].path != ts[b].path ==>
          !IsPrefix(ts[b].path, ts[a].path)
      {
        for j := 0 to |ts|
          invariant forall b :: 0 <= b < j && ts[i].path != ts[b].path ==> !IsPrefix(ts[b].path, ts[i].path)
        {
          if ts[i].path != ts[j].path && IsPrefix(ts[j].path, ts[i].path) { return false; }
        }
      }
      return true;
    }

    /**
      Writes a generated file set. A set that fails any check changes nothing. Provided no
      temporary name collides with a target: a summary means every target holds its
      content, and all other files are untouched exactly when none of them sat at a
      temporary name the run used; a failed write leaves every target wholly old or wholly
      new and touches at most temporary names besides; and without faults an acceptable
      set whose temporary names are free is written.
     */
    method WriteOutput(files: seq<OutFile>, referencesOk: bool) returns (outcome: Outcome, ghost touched: set<Path>)
      requires Tree(fs)
      modifies this`fs, this`clock, this`sequence
      ensures outcome.Rejected? <==> !Acceptable(old(fs), files, format, referencesOk)
      ensures Tree(fs) && (outcome.Rejected? ==> fs == old(fs))
      ensures !outcome.Rejected? ==> forall f :: f in files ==>
        ParentDir !in f.path && RootDir !in f.path && forall d :: Prefix(d) !in f.path
      ensures outcome.Summary? ==> (fs, sequence) == RunAll(old(fs), Targets(files, format), pid, old(sequence))
      ensures TempsApart(Targets(files, format), pid, old(sequence)) ==>
        Delivered(old(fs), fs, Targets(files, format), pid, old(sequence), outcome, touched)
      ensures TempsApart(Targets(files, format), pid, old(sequence)) && outcome.Summary? ==>
        forall f :: f in files && f.root.Some? ==>
          var path := f.root.value + NamesOf(f.path); At(fs, path) == Some(File(format(path, f.content)))
      ensures !outcome.Rejected? && Unhindered(old(fs), Targets(files, format), pid, old(sequence), faulty) ==>
        outcome.Summary?
    {
      touched := {};
      ghost var start := fs;
      ghost var all := Targets(files, format);
      assert Wrote(start, start, all, 0) && OthersKept(start, start, all, {});
      if !referencesOk { return Rejected, {}; }
      var collected, ts := Collect(files);
      if !collected { return Rejected, {}; }
      var checked := PreflightTargets(ts);
      if !checked { return Rejected, {}; }
      outcome, touched := WriteTargets(ts);
      TargetsAreEmitted(files, format);
      AcceptableMeans(start, files, format, referencesOk);
    }

    /**
      An immediate second run of the same set, with temporary names that meet no target and no
      file: it is not rejected, and without faults writes exactly the forced and unreadable
      files again.
     */
    method WriteTwice(files: seq<OutFile>, referencesOk: bool) returns (first: Outcome, second: Outcome)
      requires Tree(fs)
      modifies this`fs, this`clock, this`sequence
      ensures var ts := Targets(files, format);
        first.Summary? && NamesClear(old(fs), ts, pid, old(sequence)) ==>
          && !second.Rejected?
          && ((forall n :: !faulty(n)) ==>
               second == Summary(CountForced(ts), |ts| - CountForced(ts)) && AllInPlace(fs, ts))
    {
      first := WriteOnce(files, referencesOk);
      if !first.Summary? { return first, first; }
      second := WriteAgain(files, referencesOk);
    }

    /** A run that leaves the way clear for another. */
    method WriteOnce(files: seq<OutFile>, referencesOk: bool) returns (outcome: Outcome)
      requires Tree(fs)
      modifies this`fs, this`clock, this`sequence
      ensures Tree(fs)
      ensures outcome.Summary? && NamesClear(old(fs), Targets(files, format), pid, old(sequence)) ==>
        Ready(fs, files, format, referencesOk, pid, sequence)
    {
      ghost var start, first, ts := fs, sequence, Targets(files, format);
      ghost var touched;
      outcome, touched := WriteOutput(files, referencesOk);
      if outcome.Summary? && NamesClear(start, ts, pid, first) {
        RerunIsSmooth(start, fs, ts, pid, first, sequence, outcome, touched);
      }
    }

    /** A run over targets that are all in place. */
    method WriteAgain(files: seq<OutFile>, referencesOk: bool) returns (outcome: Outcome)
      requires Tree(fs)
      modifies this`fs, this`clock, this`sequence
      ensures var ts := Targets(files, format);
        Ready(old(fs), files, format, referencesOk, pid, old(sequence)) ==>
          && !outcome.Rejected?
          && ((forall n :: !faulty(n)) ==>
               outcome == Summary(CountForced(ts), |ts| - CountForced(ts)) && AllInPlace(fs, ts))
    {
      ghost var ts := Targets(files, format);
      if AllInPlace(fs, ts) { RerunWritesForced(fs, ts); }
      ghost var touched;
      outcome, touched := WriteOutput(files, referencesOk);
    }

    method WriteTargets(ts: seq<Target>) returns (outcome: Outcome, ghost touched: set<Path>)
      requires Checked(fs, ts)
      modifies this`fs, this`clock, this`sequence
      ensures !outcome.Rejected? && Tree(fs)
      ensures outcome.Summary? ==> (fs, sequence) == RunAll(old(fs), ts, pid, old(sequence))
      ensures TempsApart(ts, pid, old(sequence)) ==> Delivered(old(fs), fs, ts, pid, old(sequence), outcome, touched)
      ensures Unhindered(old(fs), ts, pid, old(sequence), faulty) ==> outcome.Summary?
    {
      touched := {};
      ghost var start, first := fs, sequence;
      ghost var apart := TempsApart(ts, pid, sequence);
      ghost var lost: set<Path> := {};
      if apart { CalmStart(start, ts, pid, first); }
      var written, same := 0, 0;
      for k := 0 to |ts|
        invariant Tree(fs) && written + same == k && (fs, sequence) == RunAll(start, ts[..k], pid, first)
        invariant apart ==> Calm(start, fs, ts, k, pid, first, lost, sequence)
        invariant apart ==> written == CountWrites(start, ts[..k])
      {
        NotRoot(start, ts, k);
        var step;
        step, lost, touched := WriteNext(start, ts, k, first, lost);
        if step.Broken? {
          if apart { FailureDelivers(start, fs, ts, pid, first, touched); }
          return WriteFailed, touched;
        }
        RunSnoc(start, ts, k, pid, first);
        if step.Unchanged? { same := same + 1; } else { written := written + 1; }
      }
      assert ts[..|ts|] == ts;
      if apart { RunDelivers(start, fs, ts, pid, first, lost, written, same); }
      return Summary(written, same), lost;
    }

    /** Skips a file that already holds its content, or writes it. */
    method WriteNext(ghost start: FileSystem, ts: seq<Target>, k: nat, ghost first: nat, ghost lost: set<Path>)
      returns (step: Step, ghost lost': set<Path>, ghost touched: set<Path>)
      requires k < |ts| && ts[k].path != []
      modifies this`fs, this`clock, this`sequence
      ensures Tree(old(fs)) ==> Tree(fs)
      ensures !step.Broken? ==> (fs, sequence) == RunOne(old(fs), ts[k], pid, old(sequence))
      ensures Calm(start, old(fs), ts, k, pid, first, lost, old(sequence)) ==>
        && (step.Broken? ==> OldOrNew(start, fs, ts) && OthersKept(start, fs, ts, touched))
        && (!step.Broken? ==>
              && Underway(start, fs, ts, k + 1, pid, first, lost')
              && sequence == first + CountWrites(start, ts[..k + 1])
              && CountWrites(start, ts[..k + 1]) == CountWrites(start, ts[..k]) + if step.Written? then 1 else 0)
        && (Smooth(start, ts, pid, first, faulty) ==> !step.Broken?)
    {
      lost', touched := lost, {};
      ghost var calm := Calm(start, fs, ts, k, pid, first, lost, sequence);
      if !ts[k].force && ts[k].readable && At(fs, ts[k].path) == Some(File(ts[k].content)) {
        if calm { SkipUnderway(start, fs, ts, k, pid, first, lost); }
        return Unchanged, lost, {};
      }
      ghost var temp, before := TempOf(ts[k].path, pid, sequence), fs;
      if calm {
        NeedsAsStarted(start, fs, ts, k, lost);
        NextApart(start, ts, k, pid, first);
        UsedSnoc(start, ts, k, pid, first);
        NextUsed(start, ts, k, pid, first, temp);
      }
      var ok, stray := WriteOne(start - lost, ts, k);
      if !ok {
        touched := lost + if stray || temp in start - lost then {temp} else {};
        if calm { FailUnderway(start, fs, ts, lost, temp, stray); }
        return Broken, lost, touched;
      }
      lost' := lost + ({temp} * start.Keys);
      ReplacedIsRun(before, fs, ts[k], pid, old(sequence));
      if calm { WriteUnderway(start, before, fs, ts, k, pid, first, lost, temp); }
      return Written, lost', {};
    }

    /** One target: its directories, then its content. */
    method WriteOne(ghost base: FileSystem, ts: seq<Target>, k: nat) returns (ok: bool, stray: bool)
      requires k < |ts| && ts[k].path != []
      modifies this`fs, this`clock, this`sequence
      ensures (ok ==> sequence == old(sequence) + 1) && (Tree(old(fs)) ==> Tree(fs))
      ensures ok ==> Replaced(old(fs), fs, ts[k], TempOf(ts[k].path, pid, old(sequence)))
      ensures var temp := TempOf(ts[k].path, pid, old(sequence));
        Apart(ts, temp) && Checked(base, ts) && Midway(base, old(fs), ts, k) ==>
          && (if ok then Succeeded(base, fs, ts, k, temp) else FailedAt(base, fs, ts, temp, stray))
          && ((forall n :: !faulty(n)) && temp !in base ==> ok)
    {
      ghost var before := fs;
      ghost var temp := TempOf(ts[k].path, pid, sequence);
      TempFacts(ts[k].path, pid, sequence);
      ghost var calm := Apart(ts, temp) && Checked(base, ts) && Midway(base, fs, ts, k);
      if calm { WayIsClear(base, fs, ts, k); }
      var made := CreateDirAll(Parent(ts[k].path));
      if !made {
        if calm { FailedDirsKeep(base, before, fs, ts, k); }
        return false, false;
      }
      ghost var mid := fs;
      if calm {
        DirsKeep(base, before, ts, k, |ts[k].path| - 1);
        WayIsClear(base, mid, ts, k);
        ApartIsKept(base, mid, ts, k, temp);
      }
      ok, stray := AtomicWrite(ts[k].path, ts[k].content);
      if calm {
        if ok {
          ReplaceSucceeds(base, mid, ts, k, temp);
        } else {
          FailureKeeps(base, mid, fs, ts, k, temp, stray);
        }
      }
    }
  }

  /** A path that was already taken makes the whole target set repeat it. */
  lemma RepeatedPath(files: seq<OutFile>, format: (Path, string) -> string, k: nat)
    requires k < |files| && files[k].root.Some?
    requires IsTarget(Targets(files[..k], format), TargetOf(files[k], format).path)
    ensures !DistinctPaths(Targets(files, format))
  {
    var early, t, all := Targets(files[..k], format), TargetOf(files[k], format), Targets(files, format);
    assert files[..k + 1][..k] == files[..k];
    var upto := Targets(files[..k + 1], format);
    assert upto == early + [t];
    TargetsGrow(files, format, k + 1);
    var j :| 0 <= j < |early| && early[j].path == t.path;
    assert upto[j] == early[j] && upto[|early|] == t;
    assert all[j] == upto[j] && all[|early|] == upto[|early|];
  }

  lemma {:induction false} TargetsGrow(files: seq<OutFile>, format: (Path, string) -> string, k: nat)
    requires k <= |files|
    ensures |Targets(files[..k], format)| <= |Targets(files, format)|
    ensures Targets(files[..k], format) == Targets(files, format)[..|Targets(files[..k], format)|]
    decreases |files| - k
  {
    if k == |files| {
      assert files[..k] == files;
    } else {
      TargetsGrow(files, format, k + 1);
      assert files[..k + 1][..k] == files[..k];
    }
  }
}
