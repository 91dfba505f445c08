/**
  When temporary names meet target names. A completed run leaves every target with its
  content exactly when no write used the path of an earlier target as its temporary file.
 */
module TempCollisions {
  import opened Basics
  import opened OutputWriter
  import opened FileWriter

  /** The write of target `k`, if it happens, goes through the path of an earlier target. */
  ghost predicate HitsEarlier(fs: FileSystem, ts: seq<Target>, pid: nat, sequence: nat, k: nat) {
    k < |ts| && ts[k].path != [] &&
    var (now, next) := RunAll(fs, ts[..k], pid, sequence);
    NeedsWrite(now, ts[k]) && IsEarlier(ts, k, TempOf(ts[k].path, pid, next))
  }

  /** `q` is the path of one of the first `k` targets. */
  ghost predicate IsEarlier(ts: seq<Target>, k: nat, q: Path)
    requires k <= |ts|
  {
    exists j :: 0 <= j < k && ts[j].path == q
  }

  ghost predicate Holds(fs: FileSystem, t: Target) { At(fs, t.path) == Some(File(t.content)) }

  /** Target `j`, other than `t`, is changed by processing `t` only if it is the temporary file. */
  lemma StepAt(fs: FileSystem, ts: seq<Target>, t: Target, j: nat, pid: nat, sequence: nat)
    requires j < |ts| && t.path != [] && t.path != ts[j].path && !IsPrefix(ts[j].path, t.path)
    ensures At(RunOne(fs, t, pid, sequence).0, ts[j].path)
         == if NeedsWrite(fs, t) && TempOf(t.path, pid, sequence) == ts[j].path then None else At(fs, ts[j].path)
  {
    WithDirsAt(fs, Parent(t.path), ts[j].path);
    assert IsPrefix(ts[j].path, Parent(t.path)) ==> IsPrefix(ts[j].path, t.path);
  }

  lemma StepHolds(fs: FileSystem, t: Target, pid: nat, sequence: nat)
    requires t.path != []
    ensures Holds(RunOne(fs, t, pid, sequence).0, t)
  {
  }

  /** What target `j < k` holds after target `k`, given what it held before. */
  lemma TurnAt(fs: FileSystem, ts: seq<Target>, j: nat, k: nat, pid: nat, sequence: nat)
    requires Checked(fs, ts) && j < k < |ts|
    ensures var now, after := RunAll(fs, ts[..k], pid, sequence).0, RunAll(fs, ts[..k + 1], pid, sequence).0;
      && (At(after, ts[j].path) == At(now, ts[j].path) || At(after, ts[j].path) == None)
      && (!HitsEarlier(fs, ts, pid, sequence, k) ==> At(after, ts[j].path) == At(now, ts[j].path))
  {
    NotRoot(fs, ts, k);
    RunSnoc(fs, ts, k, pid, sequence);
    var (now, next) := RunAll(fs, ts[..k], pid, sequence);
    StepAt(now, ts, ts[k], j, pid, next);
  }

  // ------------------------------------------------------------- the plan

  /** What a run over `ts` will do, read off its start: how many files it writes, and through which temporaries. */
  datatype Plan = Plan(writes: nat, temps: set<Path>)

  /** A target is written if it needs it at the start, or if an earlier write uses its path as temporary. */
  predicate WillWrite(fs: FileSystem, t: Target, before: Plan) {
    t.path != [] && (NeedsWrite(fs, t) || t.path in before.temps)
  }

  function PlanTo(fs: FileSystem, ts: seq<Target>, k: nat, pid: nat, sequence: nat): Plan
    requires k <= |ts|
  {
    if k == 0 then Plan(0, {}) else Next(fs, ts[k - 1], PlanTo(fs, ts, k - 1, pid, sequence), pid, sequence)
  }

  /** The plan makes target `k` go through the path of an earlier target. */
  ghost predicate PlansHit(fs: FileSystem, ts: seq<Target>, pid: nat, sequence: nat, k: nat) {
    k < |ts| &&
    var before := PlanTo(fs, ts, k, pid, sequence);
    WillWrite(fs, ts[k], before) && IsEarlier(ts, k, TempOf(ts[k].path, pid, sequence + before.writes))
  }

  ghost predicate Hits(fs: FileSystem, ts: seq<Target>, pid: nat, sequence: nat) {
    exists k :: PlansHit(fs, ts, pid, sequence, k)
  }

  /** What a target not yet processed holds, according to the plan. */
  ghost predicate AsPlanned(fs: FileSystem, now: FileSystem, before: Plan, t: Target) {
    At(now, t.path) == if t.path in before.temps then None else At(fs, t.path)
  }

  /** Every target from `k` on is as planned. */
  ghost predicate RestPlanned(fs: FileSystem, now: FileSystem, before: Plan, ts: seq<Target>, k: nat) {
    forall j :: k <= j < |ts| ==> AsPlanned(fs, now, before, ts[j])
  }

  /** The plan after one more target. */
  function Next(fs: FileSystem, t: Target, before: Plan, pid: nat, sequence: nat): Plan {
    if !WillWrite(fs, t, before) then before
    else Plan(before.writes + 1, before.temps + {TempOf(t.path, pid, sequence + before.writes)})
  }

  lemma PlannedWrite(fs: FileSystem, now: FileSystem, before: Plan, t: Target)
    requires AsPlanned(fs, now, before, t) && t.path != []
    ensures NeedsWrite(now, t) <==> WillWrite(fs, t, before)
  {
  }

  lemma PlanStep(fs: FileSystem, now: FileSystem, before: Plan, ts: seq<Target>, k: nat, pid: nat, sequence: nat,
      next: nat)
    requires Checked(fs, ts) && k < |ts| && RestPlanned(fs, now, before, ts, k) && next == sequence + before.writes
    ensures var (now', next') := RunOne(now, ts[k], pid, next);
      var after := Next(fs, ts[k], before, pid, sequence);
      next' == sequence + after.writes && RestPlanned(fs, now', after, ts, k + 1)
  {
    NotRoot(fs, ts, k);
    assert AsPlanned(fs, now, before, ts[k]);
    PlannedWrite(fs, now, before, ts[k]);
    forall j | k + 1 <= j < |ts|
      ensures AsPlanned(fs, RunOne(now, ts[k], pid, next).0, Next(fs, ts[k], before, pid, sequence), ts[j])
    {
      assert AsPlanned(fs, now, before, ts[j]);
      StepAt(now, ts, ts[k], j, pid, next);
    }
  }

  /** The first `k` targets were processed as planned. */
  ghost predicate PlannedTo(fs: FileSystem, ts: seq<Target>, k: nat, pid: nat, sequence: nat)
    requires k <= |ts|
  {
    var (now, next) := RunAll(fs, ts[..k], pid, sequence);
    var before := PlanTo(fs, ts, k, pid, sequence);
    next == sequence + before.writes && RestPlanned(fs, now, before, ts, k)
  }

  lemma PlannedIs(fs: FileSystem, ts: seq<Target>, k: nat, pid: nat, sequence: nat, now: FileSystem, next: nat,
      before: Plan)
    requires k <= |ts| && RunAll(fs, ts[..k], pid, sequence) == (now, next)
    requires PlanTo(fs, ts, k, pid, sequence) == before
    requires next == sequence + before.writes && RestPlanned(fs, now, before, ts, k)
    ensures PlannedTo(fs, ts, k, pid, sequence)
  {
  }

  lemma PlanNext(fs: FileSystem, ts: seq<Target>, k: nat, pid: nat, sequence: nat)
    requires Checked(fs, ts) && k < |ts| && PlannedTo(fs, ts, k, pid, sequence)
    ensures PlannedTo(fs, ts, k + 1, pid, sequence)
  {
    var (now, next) := RunAll(fs, ts[..k], pid, sequence);
    var before := PlanTo(fs, ts, k, pid, sequence);
    PlanStep(fs, now, before, ts, k, pid, sequence, next);
    PlanMeets(fs, ts, k, pid, sequence, now, next, before);
  }

  lemma PlanMeets(fs: FileSystem, ts: seq<Target>, k: nat, pid: nat, sequence: nat, now: FileSystem, next: nat,
      before: Plan)
    requires k < |ts| && RunAll(fs, ts[..k], pid, sequence) == (now, next) && PlanTo(fs, ts, k, pid, sequence) == before
    requires var (now', next') := RunOne(now, ts[k], pid, next);
      var after := Next(fs, ts[k], before, pid, sequence);
      next' == sequence + after.writes && RestPlanned(fs, now', after, ts, k + 1)
    ensures PlannedTo(fs, ts, k + 1, pid, sequence)
  {
    var (now', next') := RunOne(now, ts[k], pid, next);
    RunSnoc(fs, ts, k, pid, sequence);
    PlannedIs(fs, ts, k + 1, pid, sequence, now', next', Next(fs, ts[k], before, pid, sequence));
  }

  lemma PlanStarts(fs: FileSystem, ts: seq<Target>, pid: nat, sequence: nat)
    ensures PlannedTo(fs, ts, 0, pid, sequence)
  {
    assert ts[..0] == [];
  }

  /** The plan is what happens: numbers used so far, and what is left of the targets to come. */
  lemma {:induction false} PlanHappens(fs: FileSystem, ts: seq<Target>, k: nat, pid: nat, sequence: nat)
    requires Checked(fs, ts) && k <= |ts|
    ensures PlannedTo(fs, ts, k, pid, sequence)
  {
    if k == 0 {
      PlanStarts(fs, ts, pid, sequence);
    } else {
      PlanHappens(fs, ts, k - 1, pid, sequence);
      PlanNext(fs, ts, k - 1, pid, sequence);
    }
  }

  /** So the planned hits are the hits of the run. */
  lemma PlanTells(fs: FileSystem, ts: seq<Target>, k: nat, pid: nat, sequence: nat)
    requires Checked(fs, ts)
    ensures HitsEarlier(fs, ts, pid, sequence, k) <==> PlansHit(fs, ts, pid, sequence, k)
  {
    if k < |ts| {
      NotRoot(fs, ts, k);
      PlanHappens(fs, ts, k, pid, sequence);
      assert AsPlanned(fs, RunAll(fs, ts[..k], pid, sequence).0, PlanTo(fs, ts, k, pid, sequence), ts[k]);
    }
  }

  // ------------------------------------------------------------- what a run delivers

  lemma StillHolds(fs: FileSystem, ts: seq<Target>, k: nat, j: nat, pid: nat, sequence: nat)
    requires Checked(fs, ts) && j < k < |ts| && !PlansHit(fs, ts, pid, sequence, k)
    requires Holds(RunAll(fs, ts[..k], pid, sequence).0, ts[j])
    ensures Holds(RunAll(fs, ts[..k + 1], pid, sequence).0, ts[j])
  {
    PlanTells(fs, ts, k, pid, sequence);
    TurnAt(fs, ts, j, k, pid, sequence);
  }

  lemma HoldsOnceRun(fs: FileSystem, ts: seq<Target>, j: nat, pid: nat, sequence: nat)
    requires Checked(fs, ts) && j < |ts|
    ensures Holds(RunAll(fs, ts[..j + 1], pid, sequence).0, ts[j])
  {
    NotRoot(fs, ts, j);
    RunSnoc(fs, ts, j, pid, sequence);
    var (now, next) := RunAll(fs, ts[..j], pid, sequence);
    StepHolds(now, ts[j], pid, next);
  }

  /** Without a hit, every target processed so far holds its content. */
  lemma {:induction false} NoHitHolds(fs: FileSystem, ts: seq<Target>, k: nat, j: nat, pid: nat, sequence: nat)
    requires Checked(fs, ts) && j <= k < |ts| && !Hits(fs, ts, pid, sequence)
    ensures Holds(RunAll(fs, ts[..k + 1], pid, sequence).0, ts[j])
    decreases k
  {
    if j == k {
      HoldsOnceRun(fs, ts, j, pid, sequence);
    } else {
      NoHitHolds(fs, ts, k - 1, j, pid, sequence);
      assert !PlansHit(fs, ts, pid, sequence, k);
      StillHolds(fs, ts, k, j, pid, sequence);
    }
  }

  lemma StillLost(fs: FileSystem, ts: seq<Target>, j: nat, k: nat, pid: nat, sequence: nat)
    requires Checked(fs, ts) && j < k < |ts| && At(RunAll(fs, ts[..k], pid, sequence).0, ts[j].path) == None
    ensures At(RunAll(fs, ts[..k + 1], pid, sequence).0, ts[j].path) == None
  {
    TurnAt(fs, ts, j, k, pid, sequence);
  }

  /** A target that lost its file never regains it. */
  lemma {:induction false} LostStaysLost(fs: FileSystem, ts: seq<Target>, j: nat, k: nat, n: nat, pid: nat,
      sequence: nat)
    requires Checked(fs, ts) && j < k <= n <= |ts| && At(RunAll(fs, ts[..k], pid, sequence).0, ts[j].path) == None
    ensures At(RunAll(fs, ts[..n], pid, sequence).0, ts[j].path) == None
    decreases n - k
  {
    if k < n {
      StillLost(fs, ts, j, k, pid, sequence);
      LostStaysLost(fs, ts, j, k + 1, n, pid, sequence);
    }
  }

  /** A hit removes the file of the earlier target. */
  lemma HitLoses(fs: FileSystem, ts: seq<Target>, k: nat, pid: nat, sequence: nat) returns (j: nat)
    requires Checked(fs, ts) && HitsEarlier(fs, ts, pid, sequence, k)
    ensures j < k && At(RunAll(fs, ts[..k + 1], pid, sequence).0, ts[j].path) == None
  {
    var (now, next) := RunAll(fs, ts[..k], pid, sequence);
    j :| 0 <= j < k && ts[j].path == TempOf(ts[k].path, pid, next);
    RunSnoc(fs, ts, k, pid, sequence);
    StepAt(now, ts, ts[k], j, pid, next);
  }

  lemma LostAtEnd(fs: FileSystem, ts: seq<Target>, j: nat, k: nat, pid: nat, sequence: nat)
    requires Checked(fs, ts) && j < k <= |ts| && At(RunAll(fs, ts[..k], pid, sequence).0, ts[j].path) == None
    ensures !AllInPlace(RunAll(fs, ts, pid, sequence).0, ts)
  {
    LostStaysLost(fs, ts, j, k, |ts|, pid, sequence);
    assert ts[..|ts|] == ts;
    assert At(RunAll(fs, ts, pid, sequence).0, ts[j].path) == None;
  }

  lemma HitFails(fs: FileSystem, ts: seq<Target>, k: nat, pid: nat, sequence: nat)
    requires Checked(fs, ts) && HitsEarlier(fs, ts, pid, sequence, k)
    ensures !AllInPlace(RunAll(fs, ts, pid, sequence).0, ts)
  {
    var j := HitLoses(fs, ts, k, pid, sequence);
    LostAtEnd(fs, ts, j, k + 1, pid, sequence);
  }

  lemma NoHitDelivers(fs: FileSystem, ts: seq<Target>, j: nat, pid: nat, sequence: nat)
    requires Checked(fs, ts) && j < |ts| && !Hits(fs, ts, pid, sequence)
    ensures Holds(RunAll(fs, ts, pid, sequence).0, ts[j])
  {
    NoHitHolds(fs, ts, |ts| - 1, j, pid, sequence);
    assert ts[..|ts|] == ts;
  }

  /**
    A completed run delivers every target exactly when its plan, which the start alone
    determines, sends no write through the path of an earlier target.
   */
  lemma DeliversExactly(fs: FileSystem, ts: seq<Target>, pid: nat, sequence: nat)
    requires Checked(fs, ts)
    ensures AllInPlace(RunAll(fs, ts, pid, sequence).0, ts) <==> !Hits(fs, ts, pid, sequence)
  {
    var end := RunAll(fs, ts, pid, sequence).0;
    if Hits(fs, ts, pid, sequence) {
      var k: nat :| PlansHit(fs, ts, pid, sequence, k);
      PlanTells(fs, ts, k, pid, sequence);
      HitFails(fs, ts, k, pid, sequence);
    } else {
      forall j | 0 <= j < |ts|
        ensures Holds(end, ts[j])
      {
        NoHitDelivers(fs, ts, j, pid, sequence);
      }
    }
  }

  const EMPTY_ROOT: FileSystem := map[[] := Dir]

  /** Two generated files at the top of the tree, the first named like the temporary file of the second. */
  function Colliding(pid: nat, sequence: nat, a: Name, x: string, y: string): seq<Target> {
    [Target(TempOf([a], pid, sequence + 1), x, false, true), Target([a], y, false, true)]
  }

  lemma TopName(pid: nat, a: Name, n: nat)
    ensures |TempOf([a], pid, n)| == 1 && TempOf([a], pid, n) != [a]
  {
    TempFacts([a], pid, n);
  }

  lemma CollidingIsAcceptable(pid: nat, sequence: nat, a: Name, x: string, y: string)
    ensures Checked(EMPTY_ROOT, Colliding(pid, sequence, a, x, y))
  {
    var ts := Colliding(pid, sequence, a, x, y);
    TopName(pid, a, sequence + 1);
    forall k | 0 <= k < |ts|
      ensures Placeable(EMPTY_ROOT, ts[k])
    {
      assert ts[k].path[..0] == [];
    }
    assert ts[0].path[..1] == ts[0].path && [a][..1] == [a];
  }

  lemma CollisionHits(pid: nat, sequence: nat, a: Name, x: string, y: string)
    ensures Hits(EMPTY_ROOT, Colliding(pid, sequence, a, x, y), pid, sequence)
  {
    var ts := Colliding(pid, sequence, a, x, y);
    TopName(pid, a, sequence + 1);
    assert PlanTo(EMPTY_ROOT, ts, 0, pid, sequence) == Plan(0, {});
    assert PlanTo(EMPTY_ROOT, ts, 1, pid, sequence).writes == 1;
    assert IsEarlier(ts, 1, ts[0].path);
    assert PlansHit(EMPTY_ROOT, ts, pid, sequence, 1);
  }

  /** Concretely: an acceptable set of two files in an empty directory that does not end up in place. */
  lemma CollisionLosesFile(pid: nat, sequence: nat, a: Name, x: string, y: string)
    ensures var ts := Colliding(pid, sequence, a, x, y);
      Checked(EMPTY_ROOT, ts) && !AllInPlace(RunAll(EMPTY_ROOT, ts, pid, sequence).0, ts)
  {
    CollidingIsAcceptable(pid, sequence, a, x, y);
    CollisionHits(pid, sequence, a, x, y);
    DeliversExactly(EMPTY_ROOT, Colliding(pid, sequence, a, x, y), pid, sequence);
  }

  /** A directory that holds one file, named like the temporary file of `a`. */
  function Occupied(pid: nat, sequence: nat, a: Name, z: string): FileSystem {
    map[[] := Dir, TempOf([a], pid, sequence) := File(z)]
  }

  lemma OccupiedIsChecked(pid: nat, sequence: nat, a: Name, y: string, z: string)
    ensures Checked(Occupied(pid, sequence, a, z), [Target([a], y, false, true)])
  {
    var fs := Occupied(pid, sequence, a, z);
    TopName(pid, a, sequence);
    assert [a][..0] == [];
    assert forall p :: p in fs && p != [] ==> Parent(p) == [];
  }

  /** Concretely: a foreign file at a temporary name is gone after a completed run. */
  lemma ForeignFileIsLost(pid: nat, sequence: nat, a: Name, y: string, z: string)
    ensures var fs, t := Occupied(pid, sequence, a, z), Target([a], y, false, true);
      var end := RunAll(fs, [t], pid, sequence).0;
      Checked(fs, [t]) && AllInPlace(end, [t]) && !OthersKept(fs, end, [t], {})
  {
    OccupiedIsChecked(pid, sequence, a, y, z);
    OccupantIsLost(pid, sequence, a, y, z);
  }

  lemma OccupantIsLost(pid: nat, sequence: nat, a: Name, y: string, z: string)
    ensures var fs, t := Occupied(pid, sequence, a, z), Target([a], y, false, true);
      var end := RunAll(fs, [t], pid, sequence).0;
      AllInPlace(end, [t]) && !OthersKept(fs, end, [t], {})
  {
    var fs, t, temp := Occupied(pid, sequence, a, z), Target([a], y, false, true), TempOf([a], pid, sequence);
    TopName(pid, a, sequence);
    RunSingle(fs, t, pid, sequence);
    assert NeedsWrite(fs, t) && Parent(t.path) == [];
    LostToTemp(fs, RunAll(fs, [t], pid, sequence).0, t, temp, z);
  }

  lemma RunSingle(fs: FileSystem, t: Target, pid: nat, sequence: nat)
    ensures RunAll(fs, [t], pid, sequence) == RunOne(fs, t, pid, sequence)
  {
    assert [t][..0] == [];
    assert RunAll(fs, [t][..0], pid, sequence) == (fs, sequence);
  }

  lemma LostToTemp(fs: FileSystem, end: FileSystem, t: Target, temp: Path, z: string)
    requires At(fs, temp) == Some(File(z)) && temp != t.path
    requires end == (WithDirs(fs, []) - {temp})[t.path := File(t.content)]
    ensures AllInPlace(end, [t]) && !OthersKept(fs, end, [t], {})
  {
    WithDirsAt(fs, [], temp);
    assert At(end, temp) == None && !IsTarget([t], temp);
    assert !OtherKept(fs, end, [t], temp);
  }
}
