/**
  Singleton host contracts under concurrent callers: a read-locked look at the cache, and
  on a miss a second look and the creation under the write lock. Any number of threads
  interleave; creation may fail at any time by answering null. A creation callback does
  not ask for a singleton itself.
 */
module Singleton {

  type Thread = nat
  type Contract = nat
  type Instance = nat

  const NULL: Instance := 0

  /** Where a caller stands between its lock sections. */
  datatype Phase =
    | Missed(contract: Contract)
    | Creating(contract: Contract)

  datatype Result = Result(contract: Contract, instance: Instance)

  datatype State = State(
    cache: map<Contract, Instance>,
    writer: set<Thread>,
    phase: map<Thread, Phase>,
    created: seq<Result>,
    returned: seq<Result>)

  datatype Step =
    | Look(t: Thread, c: Contract)
    | EnterWrite(t: Thread)
    | Create(t: Thread, instance: Instance)

  predicate Enabled(s: State, step: Step) {
    match step
    case Look(t, _) => s.writer == {} && t !in s.phase
    case EnterWrite(t) => s.writer == {} && t in s.phase && s.phase[t].Missed?
    case Create(t, _) => t in s.phase && s.phase[t].Creating?
  }

  function Return(s: State, t: Thread, c: Contract, x: Instance): State {
    s.(phase := s.phase - {t}, writer := s.writer - {t}, returned := s.returned + [Result(c, x)])
  }

  function Apply(s: State, step: Step): State
    requires Enabled(s, step)
  {
    match step
    case Look(t, c) =>
      if c in s.cache then Return(s, t, c, s.cache[c]) else s.(phase := s.phase[t := Missed(c)])
    case EnterWrite(t) =>
      var c := s.phase[t].contract;
      if c in s.cache then Return(s, t, c, s.cache[c])
      else s.(phase := s.phase[t := Creating(c)], writer := s.writer + {t})
    case Create(t, x) =>
      var c := s.phase[t].contract;
      var s1 := s.(created := s.created + [Result(c, x)]);
      Return(if x != NULL then s1.(cache := s1.cache[c := x]) else s1, t, c, x)
  }

  const START := State(map[], {}, map[], [], [])

  ghost predicate Run(p: seq<State>, steps: seq<Step>) {
    && |p| == |steps| + 1 && p[0] == START
    && forall i {:trigger steps[i]} :: 0 <= i < |steps| ==> Enabled(p[i], steps[i]) && p[i + 1] == Apply(p[i], steps[i])
  }

  /** How many non-null instances of `c` were created. */
  function Made(log: seq<Result>, c: Contract): nat {
    if log == [] then 0 else
      Made(log[..|log| - 1], c) + if log[|log| - 1].contract == c && log[|log| - 1].instance != NULL then 1 else 0
  }

  ghost predicate LocksOk(s: State) {
    && (forall t :: t in s.writer <==> t in s.phase && s.phase[t].Creating?)
    && (forall t, u :: t in s.writer && u in s.writer ==> t == u)
    && (forall t :: t in s.writer ==> s.phase[t].contract !in s.cache)
  }

  ghost predicate CacheOk(s: State) {
    && (forall c :: c in s.cache ==> s.cache[c] != NULL)
    && (forall c :: Made(s.created, c) == if c in s.cache then 1 else 0)
    && Agrees(s.cache, s.created) && Agrees(s.cache, s.returned)
  }

  /** Every non-null instance in the log is the cached one. */
  ghost predicate Agrees(cache: map<Contract, Instance>, log: seq<Result>) {
    forall r :: r in log && r.instance != NULL ==> r.contract in cache && cache[r.contract] == r.instance
  }

  ghost predicate Inv(s: State) { LocksOk(s) && CacheOk(s) }

  lemma AgreesSnoc(cache: map<Contract, Instance>, log: seq<Result>, c: Contract, x: Instance)
    requires Agrees(cache, log) && (x != NULL ==> c in cache && cache[c] == x)
    ensures Agrees(cache, log + [Result(c, x)])
  {
  }

  lemma StepKeepsLocks(s: State, step: Step)
    requires Inv(s) && Enabled(s, step)
    ensures LocksOk(Apply(s, step))
  {
    if step.Create? { assert step.t in s.writer; }
  }

  lemma CreateKeepsCache(s: State, t: Thread, x: Instance)
    requires Inv(s) && Enabled(s, Create(t, x))
    ensures CacheOk(Apply(s, Create(t, x)))
  {
    var s', c := Apply(s, Create(t, x)), s.phase[t].contract;
    assert t in s.writer;
    assert s'.created[..|s'.created| - 1] == s.created;
    forall d
      ensures Made(s'.created, d) == if d in s'.cache then 1 else 0
    {
      assert Made(s.created, d) == if d in s.cache then 1 else 0;
    }
    AgreesSnoc(s'.cache, s.created, c, x);
    AgreesSnoc(s'.cache, s.returned, c, x);
  }

  lemma StepKeepsInv(s: State, step: Step)
    requires Inv(s) && Enabled(s, step)
    ensures Inv(Apply(s, step))
  {
    StepKeepsLocks(s, step);
    match step
    case Look(_, c) => if c in s.cache { AgreesSnoc(s.cache, s.returned, c, s.cache[c]); }
    case EnterWrite(t) =>
      var c := s.phase[t].contract;
      if c in s.cache { AgreesSnoc(s.cache, s.returned, c, s.cache[c]); }
    case Create(t, x) => CreateKeepsCache(s, t, x);
  }

  lemma {:induction false} RunKeepsInv(p: seq<State>, steps: seq<Step>, i: nat)
    requires Run(p, steps) && i < |p|
    ensures Inv(p[i])
  {
    if i > 0 {
      RunKeepsInv(p, steps, i - 1);
      StepKeepsInv(p[i - 1], steps[i - 1]);
    }
  }

  /** In every interleaving at most one instance per contract is ever created, and null is never cached. */
  lemma CreatedAtMostOnce(p: seq<State>, steps: seq<Step>, i: nat, c: Contract)
    requires Run(p, steps) && i < |p|
    ensures Made(p[i].created, c) <= 1
    ensures Made(p[i].created, c) == 1 <==> c in p[i].cache
    ensures c in p[i].cache ==> p[i].cache[c] != NULL
  {
    RunKeepsInv(p, steps, i);
  }

  /** All callers that get an instance of a contract get the same one, across the whole run. */
  lemma ResultsAgree(p: seq<State>, steps: seq<Step>, i: nat, r1: Result, r2: Result)
    requires Run(p, steps) && i < |p| && r1 in p[i].returned && r2 in p[i].returned
    requires r1.contract == r2.contract && r1.instance != NULL && r2.instance != NULL
    ensures r1.instance == r2.instance && Made(p[i].created, r1.contract) == 1
  {
    RunKeepsInv(p, steps, i);
    assert Agrees(p[i].cache, p[i].returned);
  }

  /** The step returned `x` for `c`: the cached instance, or null from a null creation. */
  ghost predicate Answers(s: State, step: Step, s': State, c: Contract, x: Instance) {
    && s'.returned == s.returned + [Result(c, x)]
    && if c in s'.cache then x == s'.cache[c] else x == NULL && step == Create(step.t, NULL)
  }

  /**
    What a call returns, wherever it returns: the instance, if there is one by then; null only
    from a creation of its own that answered null.
   */
  lemma CallsGetTheInstance(p: seq<State>, steps: seq<Step>, i: nat) returns (c: Contract, x: Instance)
    requires Run(p, steps) && i < |steps| && p[i + 1].returned != p[i].returned
    ensures Answers(p[i], steps[i], p[i + 1], c, x)
  {
    RunKeepsInv(p, steps, i);
    RunKeepsInv(p, steps, i + 1);
    var s, s', step := p[i], p[i + 1], steps[i];
    assert s' == Apply(s, step);
    c := if step.Look? then step.c else s.phase[step.t].contract;
    x := if step.Create? then step.instance else s.cache[c];
  }

  /** A call that starts when the instance is there returns it at once. */
  lemma LookFindsTheInstance(p: seq<State>, steps: seq<Step>, i: nat)
    requires Run(p, steps) && i < |steps| && steps[i].Look? && steps[i].c in p[i].cache
    ensures p[i + 1] == p[i].(returned := p[i].returned + [Result(steps[i].c, p[i].cache[steps[i].c])])
  {
    var s := p[i];
    assert p[i + 1] == Apply(s, steps[i]);
    RunKeepsInv(p, steps, i);
    assert steps[i].t !in s.phase && steps[i].t !in s.writer;
  }

  /** Once cached, an instance stays. */
  lemma {:induction false} CachedStays(p: seq<State>, steps: seq<Step>, lo: nat, hi: nat, c: Contract)
    requires Run(p, steps) && lo <= hi < |p| && c in p[lo].cache
    ensures c in p[hi].cache && p[hi].cache[c] == p[lo].cache[c]
  {
    if lo < hi {
      CachedStays(p, steps, lo, hi - 1, c);
      RunKeepsInv(p, steps, hi - 1);
      assert p[hi] == Apply(p[hi - 1], steps[hi - 1]);
    }
  }

  /** A call of `t` for `c` whose creation answers `x` returns `x`. */
  ghost predicate Succeeds(s: State, t: Thread, c: Contract, x: Instance) {
    Enabled(s, Look(t, c)) &&
    var s1 := Apply(s, Look(t, c));
    Enabled(s1, EnterWrite(t)) &&
    var s2 := Apply(s1, EnterWrite(t));
    Enabled(s2, Create(t, x)) &&
    var s3 := Apply(s2, Create(t, x));
    s3.returned == s.returned + [Result(c, x)] && c in s3.cache && s3.cache[c] == x && s3.writer == {}
  }

  lemma QuietSucceeds(s: State, t: Thread, c: Contract, x: Instance)
    requires Inv(s) && s.writer == {} && t !in s.phase && c !in s.cache && x != NULL
    ensures Succeeds(s, t, c, x)
  {
  }

  /**
    From every reachable state where nobody is creating and `c` has no instance, however
    many creations failed before: a new call whose creation succeeds returns its instance,
    and so does every later call by anyone.
   */
  lemma FailureLeavesRetry(p: seq<State>, steps: seq<Step>, t: Thread, u: Thread, c: Contract, x: Instance)
    requires Run(p, steps) && p[|steps|].writer == {} && t !in p[|steps|].phase && u !in p[|steps|].phase
    requires c !in p[|steps|].cache && x != NULL
    ensures var s := p[|steps|];
      Succeeds(s, t, c, x) &&
      var s3 := Apply(Apply(Apply(s, Look(t, c)), EnterWrite(t)), Create(t, x));
      Enabled(s3, Look(u, c)) && Apply(s3, Look(u, c)).returned == s3.returned + [Result(c, x)]
  {
    RunKeepsInv(p, steps, |steps|);
    QuietSucceeds(p[|steps|], t, c, x);
  }

  /** A creation that answers null changes nothing any other caller can see. */
  lemma NullLeavesNoTrace(s: State, t: Thread)
    requires Inv(s) && Enabled(s, Create(t, NULL))
    ensures var s' := Apply(s, Create(t, NULL));
      && s'.cache == s.cache && s'.writer == {} && t !in s'.phase && s.phase[t].contract !in s'.cache
      && forall c :: Made(s'.created, c) == Made(s.created, c)
  {
    assert t in s.writer && s.writer == {t};
    assert Apply(s, Create(t, NULL)).created[..|s.created|] == s.created;
  }

  /** So right after a failed creation the very caller can try again and succeed. */
  lemma RetryAfterNull(p: seq<State>, steps: seq<Step>, t: Thread, x: Instance)
    requires Run(p, steps) && Enabled(p[|steps|], Create(t, NULL)) && x != NULL
    ensures var c, s := p[|steps|].phase[t].contract, Apply(p[|steps|], Create(t, NULL));
      Succeeds(s, t, c, x)
  {
    RunKeepsInv(p, steps, |steps|);
    var s0 := p[|steps|];
    NullLeavesNoTrace(s0, t);
    var s := Apply(s0, Create(t, NULL));
    StepKeepsInv(s0, Create(t, NULL));
    QuietSucceeds(s, t, s0.phase[t].contract, x);
  }
}
