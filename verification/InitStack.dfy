/**
  The per-thread init stacks and the counter that lets `current` skip their lock. Push
  and pop change the stacks and then the counter while holding the lock; `current` reads
  the counter without it. Steps are sequentially consistent.
 */
module InitStack {
  import opened ThreadLists

  type Bundle = nat
  type Stacks = Lists<Bundle>

  /** The bundle in init on thread `t`, 0 when there is none. */
  function Top(m: Stacks, t: Thread): Bundle {
    var s := Of(m, t);
    if s == [] then 0 else s[|s| - 1]
  }

  /** A push followed by the matching pop restores every stack, so the outer id is current again. */
  lemma NestedInitRestores(m: Stacks, t: Thread, b: Bundle)
    requires t in m ==> m[t] != []
    ensures Popped(Pushed(m, t, b), t) == m && Top(Pushed(m, t, b), t) == b
    ensures forall u :: u != t ==> Top(Pushed(m, t, b), u) == Top(m, u)
  {
    PushPopRestores(m, t, b);
  }

  // -------------------------------------------------------------- the object

  class InitStacks {
    var stacks: Stacks
    var active: nat

    /** The counter is the number of entries, and no empty stack is kept. */
    ghost predicate Valid()
      reads this
    {
      active == Total(stacks) && forall t :: t in stacks ==> stacks[t] != []
    }

    constructor ()
      ensures Valid() && stacks == map[]
    {
      stacks, active := map[], 0;
    }

    method Push(t: Thread, b: Bundle)
      requires Valid()
      modifies this
      ensures Valid() && stacks == Pushed(old(stacks), t, b)
    {
      TotalPut(stacks, t, Of(stacks, t) + [b]);
      stacks := stacks[t := (if t in stacks then stacks[t] else []) + [b]];
      active := active + 1;
    }

    method Pop(t: Thread)
      requires Valid()
      modifies this
      ensures Valid() && stacks == Popped(old(stacks), t)
    {
      if t in stacks {
        var s := stacks[t];
        TotalSplit(stacks, t);
        if s != [] {
          TotalPut(stacks, t, s[..|s| - 1]);
          s := s[..|s| - 1];
          stacks := stacks[t := s];
          active := active - 1;
        }
        if s == [] {
          TotalCut(stacks, t);
          stacks := stacks - {t};
          assert stacks == old(stacks) - {t};
        }
      }
    }

    /** The counter fast path answers what the stack would. */
    method Current(t: Thread) returns (b: Bundle)
      requires Valid()
      ensures b == Top(stacks, t)
    {
      if active == 0 {
        if t in stacks { TotalSplit(stacks, t); }
        return 0;
      }
      if t in stacks && stacks[t] != [] { return stacks[t][|stacks[t]| - 1]; }
      return 0;
    }
  }

  // ------------------------------------------------------------ interleavings

  /** Who holds the lock, and what it has yet to do. */
  datatype Lock =
    | Free
    | Bumping(holder: Thread)
    | Dropping(holder: Thread)
    | Tidying(holder: Thread)

  datatype State = State(stacks: Stacks, count: int, lock: Lock, reading: set<Thread>)

  datatype Step =
    | PushEntry(t: Thread, b: Bundle)
    | BumpCount
    | PopEntry(t: Thread)
    | DropCount
    | Tidy
    | PeekCount(t: Thread)
    | ReadTop(t: Thread)

  /** A thread is in one call at a time. */
  predicate Idle(s: State, t: Thread) { (s.lock.Free? || s.lock.holder != t) && t !in s.reading }

  predicate Enabled(s: State, step: Step) {
    match step
    case PushEntry(t, _) => s.lock.Free? && Idle(s, t)
    case BumpCount => s.lock.Bumping?
    case PopEntry(t) => s.lock.Free? && Idle(s, t)
    case DropCount => s.lock.Dropping?
    case Tidy => s.lock.Tidying?
    case PeekCount(t) => Idle(s, t)
    case ReadTop(t) => s.lock.Free? && t in s.reading
  }

  function Apply(s: State, step: Step): State
    requires Enabled(s, step)
  {
    match step
    case PushEntry(t, b) => s.(stacks := Pushed(s.stacks, t, b), lock := Bumping(t))
    case BumpCount => s.(count := s.count + 1, lock := Free)
    case PopEntry(t) =>
      if t !in s.stacks then s
      else if s.stacks[t] == [] then s.(lock := Tidying(t))
      else s.(stacks := s.stacks[t := s.stacks[t][..|s.stacks[t]| - 1]], lock := Dropping(t))
    case DropCount => s.(count := s.count - 1, lock := Tidying(s.lock.holder))
    case Tidy =>
      s.(stacks := if Of(s.stacks, s.lock.holder) == [] then s.stacks - {s.lock.holder} else s.stacks, lock := Free)
    case PeekCount(t) => if s.count == 0 then s else s.(reading := s.reading + {t})
    case ReadTop(t) => s.(reading := s.reading - {t})
  }

  /** What a call of `current` on `t` returns at this step, if it returns. */
  function Answer(s: State, step: Step): (a: seq<Bundle>)
    requires Enabled(s, step)
  {
    match step
    case PeekCount(t) => if s.count == 0 then [0] else []
    case ReadTop(t) => [Top(s.stacks, t)]
    case PushEntry(_, _) => []
    case BumpCount => []
    case PopEntry(_) => []
    case DropCount => []
    case Tidy => []
  }

  ghost predicate Run(p: seq<State>, steps: seq<Step>) {
    && |p| == |steps| + 1 && p[0] == State(map[], 0, Free, {})
    && forall i {:trigger steps[i]} :: 0 <= i < |steps| ==> Enabled(p[i], steps[i]) && p[i + 1] == Apply(p[i], steps[i])
  }

  /** The counter lags the stacks by exactly the change its lock holder has yet to make. */
  ghost predicate Inv(s: State) {
    && s.count == Total(s.stacks) +
         (match s.lock case Bumping(_) => -1 case Dropping(_) => 1 case Free => 0 case Tidying(_) => 0)
    && (forall t :: t in s.stacks && s.stacks[t] == [] ==> !s.lock.Free? && !s.lock.Bumping? && s.lock.holder == t)
    && (s.lock.Bumping? ==> Of(s.stacks, s.lock.holder) != [])
    && (!s.lock.Free? ==> s.lock.holder !in s.reading)
  }

  lemma StepKeepsInv(s: State, step: Step)
    requires Inv(s) && Enabled(s, step)
    ensures Inv(Apply(s, step))
  {
    match step
    case PushEntry(t, b) => TotalPut(s.stacks, t, Of(s.stacks, t) + [b]);
    case PopEntry(t) =>
      if t in s.stacks && s.stacks[t] != [] { TotalPut(s.stacks, t, s.stacks[t][..|s.stacks[t]| - 1]); }
    case Tidy => TotalCut(s.stacks, s.lock.holder);
    case BumpCount =>
    case DropCount =>
    case PeekCount(_) =>
    case ReadTop(_) =>
  }

  lemma {:induction false} RunKeepsInv(p: seq<State>, steps: seq<Step>, i: nat)
    requires Run(p, steps) && i < |p|
    ensures Inv(p[i])
  {
    if i > 0 {
      RunKeepsInv(p, steps, i - 1);
      StepKeepsInv(p[i - 1], steps[i - 1]);
    }
  }

  /** Between calls the counter is the number of entries, and no empty stack is stored. */
  lemma CounterIsExact(p: seq<State>, steps: seq<Step>, i: nat)
    requires Run(p, steps) && i < |p| && p[i].lock.Free?
    ensures p[i].count == Total(p[i].stacks) && forall t :: t in p[i].stacks ==> p[i].stacks[t] != []
  {
    RunKeepsInv(p, steps, i);
  }

  /**
    In every interleaving, pops without a push included: whatever other threads are in the
    middle of, `current` answers the top of its own thread's stack, on the lock-free path
    as on the locked one.
   */
  lemma CurrentIsOwnTop(p: seq<State>, steps: seq<Step>, i: nat)
    requires Run(p, steps) && i < |steps| && Answer(p[i], steps[i]) != []
    ensures Answer(p[i], steps[i]) == [Top(p[i].stacks, steps[i].t)]
  {
    RunKeepsInv(p, steps, i);
    var s, t := p[i], steps[i].t;
    if steps[i].PeekCount? && t in s.stacks {
      TotalSplit(s.stacks, t);
      if s.lock.Bumping? { TotalSplit(s.stacks - {t}, s.lock.holder); }
    }
  }

  /** While a call waits for the lock, no other thread's calls change what it will answer. */
  lemma {:induction false} WaitingTopStays(p: seq<State>, steps: seq<Step>, lo: nat, hi: nat, t: Thread)
    requires Run(p, steps) && lo <= hi < |p| && t in p[lo].reading
    requires forall m :: lo <= m < hi ==> steps[m] != ReadTop(t)
    ensures t in p[hi].reading && Top(p[hi].stacks, t) == Top(p[lo].stacks, t)
  {
    if lo < hi {
      WaitingTopStays(p, steps, lo, hi - 1, t);
      RunKeepsInv(p, steps, hi - 1);
      assert p[hi] == Apply(p[hi - 1], steps[hi - 1]);
    }
  }

  /** A call that saw a nonzero counter answers the top its own stack had when the call began. */
  lemma CurrentIsTopAtCall(p: seq<State>, steps: seq<Step>, i: nat, j: nat, t: Thread)
    requires Run(p, steps) && i < j < |steps| && steps[i] == PeekCount(t) && steps[j] == ReadTop(t)
    requires p[i].count != 0 && forall m :: i < m < j ==> steps[m] != ReadTop(t)
    ensures Answer(p[j], steps[j]) == [Top(p[i].stacks, t)]
  {
    WaitingTopStays(p, steps, i + 1, j, t);
  }

  /** A call of `current` that answers is over, and one that does not waits for the lock. */
  lemma CallsReturn(s: State, step: Step)
    requires Enabled(s, step) && (step.PeekCount? || step.ReadTop?)
    ensures Answer(s, step) != [] <==> step.t !in Apply(s, step).reading
    ensures Apply(s, step).stacks == s.stacks && Apply(s, step).count == s.count && Apply(s, step).lock == s.lock
  {
  }

  lemma RunSnoc(p: seq<State>, steps: seq<Step>, step: Step) returns (p': seq<State>, steps': seq<Step>)
    requires Run(p, steps) && Enabled(p[|steps|], step)
    ensures steps' == steps + [step] && Run(p', steps') && p'[|steps'|] == Apply(p[|steps|], step)
    ensures |p'| > |p| && p'[..|p|] == p
  {
    p', steps' := p + [Apply(p[|steps|], step)], steps + [step];
  }

  /** The thread that holds the lock can finish its section. */
  lemma LockIsFreed(p: seq<State>, steps: seq<Step>, t: Thread) returns (p': seq<State>, steps': seq<Step>)
    requires Run(p, steps) && t in p[|steps|].reading
    ensures Run(p', steps') && |steps| <= |steps'| && steps'[..|steps|] == steps && p'[..|p|] == p
    ensures p'[|steps'|].lock.Free? && t in p'[|steps'|].reading
    ensures forall m :: |steps| <= m < |steps'| ==> steps'[m] != ReadTop(t)
  {
    p', steps' := p, steps;
    if p'[|steps'|].lock.Bumping? {
      p', steps' := RunSnoc(p', steps', BumpCount);
    } else if p'[|steps'|].lock.Dropping? {
      p', steps' := RunSnoc(p', steps', DropCount);
      p', steps' := RunSnoc(p', steps', Tidy);
    } else if p'[|steps'|].lock.Tidying? {
      p', steps' := RunSnoc(p', steps', Tidy);
    }
  }

  /** A waiting call is never stuck: some continuation answers it, with the top its stack has now. */
  lemma WaitingCallAnswers(p: seq<State>, steps: seq<Step>, t: Thread) returns (p': seq<State>, steps': seq<Step>)
    requires Run(p, steps) && t in p[|steps|].reading
    ensures Run(p', steps') && |steps| < |steps'| && p'[..|p|] == p && steps'[|steps'| - 1] == ReadTop(t)
    ensures Answer(p'[|steps'| - 1], ReadTop(t)) == [Top(p[|steps|].stacks, t)] && t !in p'[|steps'|].reading
  {
    var q, made := LockIsFreed(p, steps, t);
    assert q[|steps|] == p[|steps|] by { assert q[..|p|][|steps|] == q[|steps|]; }
    WaitingTopStays(q, made, |steps|, |made|, t);
    p', steps' := RunSnoc(q, made, ReadTop(t));
    assert p'[..|q|][|made|] == q[|made|];
    assert p'[..|p|] == p by { assert p'[..|q|][..|p|] == p'[..|p|]; }
  }
}
