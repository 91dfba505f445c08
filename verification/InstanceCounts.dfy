/**
  Guest instances against unload. Each step is one lock section or one guest call;
  any number of constructors, destroys and unloads interleave. Interfaces and backing
  tokens (generated roots and residents) are identities issued once.

  `internal` are the bundle ids used for internal plugins only and never reloaded;
  other ids may be reloaded, and unloaded while instances live, which the runtime only
  warns about. A stateful instance is destroyed at most once.
 */
module InstanceCounts {

  type Bundle = nat
  type Interface = nat
  type Token = nat
  type Ticket = nat

  /** One constructor call and the stateful instance it leads to, until its destroy is recorded. */
  datatype Use =
    | Building(bundle: Bundle, interface: Interface)
    | Cancelling(bundle: Bundle)
    | Live(bundle: Bundle, interface: Interface)
    | Destroying(bundle: Bundle, interface: Interface)
    | Destroyed(bundle: Bundle, interface: Interface)
    | Noting(bundle: Bundle)
  {
    /** Guest code may run, or run later, against the interface's backing. */
    predicate NeedsBacking() { Building? || Live? || Destroying? }

    predicate HasInterface() { NeedsBacking() || Destroyed? }
  }

  datatype State = State(
    internal: set<Bundle>,
    owner: map<Interface, Bundle>,
    counts: map<Bundle, nat>,
    lifecycle: set<Bundle>,
    backing: map<Bundle, set<Token>>,
    uses: map<Ticket, Use>,
    retiring: set<Token>,
    released: set<Token>,
    needs: map<Interface, set<Token>>)

  datatype Step =
    | Register(b: Bundle, interfaces: set<Interface>, tokens: set<Token>)
    | Reload(b: Bundle, interfaces: set<Interface>)
    | BeginConstruction(t: Ticket, i: Interface)
    | EndConstruction(t: Ticket, stateful: bool)
    | Cancel(t: Ticket)
    | BeginDestroy(t: Ticket)
    | EndDestroy(t: Ticket)
    | LookUpOwner(t: Ticket)
    | RecordDestroy(t: Ticket)
    | Unload(b: Bundle)
    | Release(token: Token)

  function Tokens(s: State, b: Bundle): set<Token> { if b in s.backing then s.backing[b] else {} }

  function Count(s: State, b: Bundle): nat { if b in s.counts then s.counts[b] else 0 }

  /** Tokens that exist anywhere. */
  ghost predicate Minted(s: State, k: Token) {
    (exists b :: k in Tokens(s, b)) || k in s.retiring || k in s.released
  }

  /** What the environment may do; the runtime's own refusals are in `Apply`. */
  ghost predicate Enabled(s: State, step: Step) {
    match step
    case Register(b, interfaces, tokens) =>
      && b !in s.owner.Values && b !in s.backing && interfaces !! s.needs.Keys
      && (forall k :: k in tokens ==> !Minted(s, k))
      && (b !in s.internal ==> tokens == {})
    case Reload(b, interfaces) => b !in s.internal && interfaces !! s.needs.Keys
    case BeginConstruction(t, i) => t !in s.uses
    case EndConstruction(t, _) => t in s.uses && s.uses[t].Building?
    case Cancel(t) => t in s.uses && s.uses[t].Cancelling?
    case BeginDestroy(t) => t in s.uses && s.uses[t].Live?
    case EndDestroy(t) => t in s.uses && s.uses[t].Destroying?
    case LookUpOwner(t) => t in s.uses && s.uses[t].Destroyed?
    case RecordDestroy(t) => t in s.uses && s.uses[t].Noting?
    case Unload(b) => true
    case Release(k) => k in s.retiring
  }

  /** Recording a destroy: saturating, and a count of zero is not stored. */
  function Noted(counts: map<Bundle, nat>, b: Bundle): map<Bundle, nat> {
    if b !in counts then counts
    else if counts[b] <= 1 then counts - {b}
    else counts[b := counts[b] - 1]
  }

  predicate HasBacking(s: State, b: Bundle) { b in s.lifecycle || b in s.backing }

  /** Unload refuses an internal plugin with constructors, instances or unrecorded destroys. */
  predicate UnloadRefused(s: State, b: Bundle) { HasBacking(s, b) && Count(s, b) > 0 }

  function Disown(owner: map<Interface, Bundle>, b: Bundle): map<Interface, Bundle> {
    map i | i in owner && owner[i] != b :: owner[i]
  }

  function Own(owner: map<Interface, Bundle>, b: Bundle, interfaces: set<Interface>): map<Interface, Bundle> {
    owner + map i | i in interfaces :: b
  }

  function Apply(s: State, step: Step): State
    requires Enabled(s, step)
  {
    match step
    case Register(b, interfaces, tokens) =>
      s.(owner := Own(s.owner, b, interfaces),
         lifecycle := if b in s.internal then s.lifecycle + {b} else s.lifecycle,
         backing := if tokens == {} then s.backing else s.backing[b := tokens],
         needs := s.needs + map i | i in interfaces :: tokens)
    case Reload(b, interfaces) =>
      s.(owner := Own(Disown(s.owner, b), b, interfaces),
         counts := s.counts - {b},
         needs := s.needs + map i | i in interfaces :: {})
    case BeginConstruction(t, i) =>
      if i !in s.owner then s
      else s.(counts := s.counts[s.owner[i] := Count(s, s.owner[i]) + 1],
              uses := s.uses[t := Building(s.owner[i], i)])
    case EndConstruction(t, stateful) =>
      var u := s.uses[t];
      s.(uses := s.uses[t := if stateful then Live(u.bundle, u.interface) else Cancelling(u.bundle)])
    case Cancel(t) =>
      s.(counts := Noted(s.counts, s.uses[t].bundle), uses := s.uses - {t})
    case BeginDestroy(t) =>
      s.(uses := s.uses[t := Destroying(s.uses[t].bundle, s.uses[t].interface)])
    case EndDestroy(t) =>
      s.(uses := s.uses[t := Destroyed(s.uses[t].bundle, s.uses[t].interface)])
    case LookUpOwner(t) =>
      var i := s.uses[t].interface;
      if i in s.owner then s.(uses := s.uses[t := Noting(s.owner[i])]) else s.(uses := s.uses - {t})
    case RecordDestroy(t) =>
      s.(counts := Noted(s.counts, s.uses[t].bundle), uses := s.uses - {t})
    case Unload(b) =>
      if UnloadRefused(s, b) then s
      else s.(owner := Disown(s.owner, b), counts := s.counts - {b}, lifecycle := s.lifecycle - {b},
              backing := s.backing - {b}, retiring := s.retiring + Tokens(s, b))
    case Release(k) =>
      s.(retiring := s.retiring - {k}, released := s.released + {k})
  }

  ghost predicate Init(s: State) {
    s == State(s.internal, map[], map[], {}, map[], map[], {}, {}, map[])
  }

  ghost predicate Run(p: seq<State>, steps: seq<Step>) {
    && |p| == |steps| + 1 && Init(p[0])
    && forall i {:trigger steps[i]} :: 0 <= i < |steps| ==> Enabled(p[i], steps[i]) && p[i + 1] == Apply(p[i], steps[i])
  }

  // -------------------------------------------------------------- invariant

  /** Tickets that the count of `b` pays for. */
  function Charged(uses: map<Ticket, Use>, b: Bundle): set<Ticket> {
    set t | t in uses && uses[t].bundle == b
  }

  ghost predicate Counted(s: State, b: Bundle) { Count(s, b) == |Charged(s.uses, b)| }

  /** A ticket's interface never changes hands, and that of an internal bundle is still registered. */
  ghost predicate TicketOk(s: State, u: Use) {
    && (u.HasInterface() ==>
          && u.interface in s.needs
          && (u.interface in s.owner ==> s.owner[u.interface] == u.bundle)
          && (u.bundle in s.internal ==> u.interface in s.owner))
    && (u.bundle in s.internal ==> u.bundle in s.lifecycle)
  }

  ghost predicate Anchored(s: State) {
    forall t :: t in s.uses ==> TicketOk(s, s.uses[t])
  }

  ghost predicate OwnersKnown(s: State) {
    && (forall i :: i in s.owner ==> i in s.needs && s.needs[i] == Tokens(s, s.owner[i]))
    && (forall b :: b in s.internal && b in s.owner.Values ==> b in s.lifecycle)
  }

  /** No token is in two places. */
  ghost predicate TokensApart(s: State) {
    && s.retiring !! s.released
    && (forall b, k :: k in Tokens(s, b) ==> k !in s.retiring && k !in s.released)
    && (forall b, c, k :: k in Tokens(s, b) && k in Tokens(s, c) ==> b == c)
    && (forall b :: b in s.backing ==> b in s.internal && s.backing[b] != {})
  }

  ghost predicate Inv(s: State) {
    && (forall b :: b in s.internal ==> Counted(s, b))
    && Anchored(s) && OwnersKnown(s) && TokensApart(s)
  }

  lemma InitInv(s: State)
    requires Init(s)
    ensures Inv(s)
  {
    assert forall b :: Charged(s.uses, b) == {};
  }

  /** Moving a ticket to a use of the same bundle changes no charge. */
  lemma SameCharge(uses: map<Ticket, Use>, t: Ticket, u: Use, b: Bundle)
    requires t in uses && uses[t].bundle == u.bundle
    ensures Charged(uses[t := u], b) == Charged(uses, b)
  {
  }

  lemma OneMoreCharge(uses: map<Ticket, Use>, t: Ticket, u: Use, b: Bundle)
    requires t !in uses
    ensures |Charged(uses[t := u], b)| == |Charged(uses, b)| + if u.bundle == b then 1 else 0
  {
    assert Charged(uses[t := u], b) == Charged(uses, b) + if u.bundle == b then {t} else {};
  }

  lemma OneLessCharge(uses: map<Ticket, Use>, t: Ticket, b: Bundle)
    requires t in uses
    ensures |Charged(uses, b)| == |Charged(uses - {t}, b)| + if uses[t].bundle == b then 1 else 0
  {
    var rest := Charged(uses - {t}, b);
    assert t !in rest;
    if uses[t].bundle == b {
      assert Charged(uses, b) == rest + {t};
    } else {
      assert Charged(uses, b) == rest;
    }
  }

  lemma RegisterKeeps(s: State, b: Bundle, interfaces: set<Interface>, tokens: set<Token>)
    requires Inv(s) && Enabled(s, Register(b, interfaces, tokens))
    ensures Inv(Apply(s, Register(b, interfaces, tokens)))
  {
    var s' := Apply(s, Register(b, interfaces, tokens));
    forall c | c in s.internal
      ensures Counted(s', c)
    {
      assert Counted(s, c);
    }
    forall t | t in s'.uses
      ensures TicketOk(s', s'.uses[t])
    {
      assert TicketOk(s, s.uses[t]);
    }
    RegisterTokens(s, s', b, tokens);
    RegisterOwners(s, s', b, interfaces, tokens);
  }

  lemma RegisterOwners(s: State, s': State, b: Bundle, interfaces: set<Interface>, tokens: set<Token>)
    requires OwnersKnown(s) && Enabled(s, Register(b, interfaces, tokens))
    requires s' == Apply(s, Register(b, interfaces, tokens))
    ensures OwnersKnown(s')
  {
    assert forall c :: Tokens(s', c) == if c == b then tokens else Tokens(s, c);
    forall i | i in s'.owner
      ensures i in s'.needs && s'.needs[i] == Tokens(s', s'.owner[i])
    {
      if i !in interfaces { assert i in s.owner && s.owner[i] != b; }
    }
    forall c | c in s.internal && c in s'.owner.Values
      ensures c in s'.lifecycle
    {
      assert c == b || c in s.owner.Values;
    }
  }

  lemma RegisterTokens(s: State, s': State, b: Bundle, tokens: set<Token>)
    requires TokensApart(s) && b !in s.backing && (forall k :: k in tokens ==> !Minted(s, k)) &&
      (b !in s.internal ==> tokens == {})
    requires s'.retiring == s.retiring && s'.released == s.released && s'.internal == s.internal
    requires s'.backing == if tokens == {} then s.backing else s.backing[b := tokens]
    ensures TokensApart(s')
  {
    assert forall c :: Tokens(s', c) == if c == b then tokens else Tokens(s, c);
    assert forall c, k :: k in Tokens(s, c) ==> Minted(s, k) && k !in tokens;
  }

  lemma ReloadKeeps(s: State, b: Bundle, interfaces: set<Interface>)
    requires Inv(s) && Enabled(s, Reload(b, interfaces))
    ensures Inv(Apply(s, Reload(b, interfaces)))
  {
    var s' := Apply(s, Reload(b, interfaces));
    assert b !in s.backing;
    forall c | c in s.internal
      ensures Counted(s', c)
    {
      assert Counted(s, c);
    }
    assert forall i :: i in s.owner ==> i in s.needs && i !in interfaces;
    assert forall c :: Tokens(s', c) == Tokens(s, c);
  }

  lemma BeginKeeps(s: State, t: Ticket, i: Interface)
    requires Inv(s) && Enabled(s, BeginConstruction(t, i))
    ensures Inv(Apply(s, BeginConstruction(t, i)))
  {
    var s' := Apply(s, BeginConstruction(t, i));
    assert forall c :: Tokens(s', c) == Tokens(s, c);
    if i in s.owner {
      forall c | c in s.internal
        ensures Counted(s', c)
      {
        assert Counted(s, c);
        OneMoreCharge(s.uses, t, Building(s.owner[i], i), c);
      }
    }
  }

  /** A ticket changes use without changing its bundle or interface. */
  lemma MoveKeeps(s: State, t: Ticket, u: Use)
    requires Inv(s) && t in s.uses && u.bundle == s.uses[t].bundle
    requires u.HasInterface() ==> s.uses[t].HasInterface() && u.interface == s.uses[t].interface
    ensures Inv(s.(uses := s.uses[t := u]))
  {
    var s' := s.(uses := s.uses[t := u]);
    assert forall c :: Tokens(s', c) == Tokens(s, c);
    forall c | c in s.internal
      ensures Counted(s', c)
    {
      assert Counted(s, c);
      SameCharge(s.uses, t, u, c);
    }
  }

  /** Recording the end of a ticket takes one off its bundle's count. */
  lemma NoteKeeps(s: State, t: Ticket)
    requires Inv(s) && t in s.uses
    ensures Inv(s.(counts := Noted(s.counts, s.uses[t].bundle), uses := s.uses - {t}))
  {
    var b := s.uses[t].bundle;
    var s' := s.(counts := Noted(s.counts, b), uses := s.uses - {t});
    assert forall c :: Tokens(s', c) == Tokens(s, c);
    forall c | c in s.internal
      ensures Counted(s', c)
    {
      assert Counted(s, c);
      OneLessCharge(s.uses, t, c);
    }
  }

  lemma LookUpKeeps(s: State, t: Ticket)
    requires Inv(s) && Enabled(s, LookUpOwner(t))
    ensures Inv(Apply(s, LookUpOwner(t)))
  {
    var u := s.uses[t];
    assert TicketOk(s, u);
    if u.interface in s.owner {
      MoveKeeps(s, t, Noting(u.bundle));
    } else {
      DropKeeps(s, t);
    }
  }

  /** The destroy of an instance whose bundle is gone is not recorded; that bundle was not internal. */
  lemma DropKeeps(s: State, t: Ticket)
    requires Inv(s) && t in s.uses && s.uses[t].bundle !in s.internal
    ensures Inv(s.(uses := s.uses - {t}))
  {
    var s' := s.(uses := s.uses - {t});
    assert forall c :: Tokens(s', c) == Tokens(s, c);
    forall c | c in s.internal
      ensures Counted(s', c)
    {
      assert Counted(s, c);
      OneLessCharge(s.uses, t, c);
    }
    assert forall x :: x in s'.uses ==> TicketOk(s, s.uses[x]);
  }

  lemma UnloadKeeps(s: State, b: Bundle)
    requires Inv(s)
    ensures Inv(Apply(s, Unload(b)))
  {
    var s' := Apply(s, Unload(b));
    if UnloadRefused(s, b) { return; }
    forall c | c in s.internal
      ensures Counted(s', c)
    {
      assert Counted(s, c);
      if c == b { UnloadedUncharged(s, b); }
    }
    forall t | t in s'.uses
      ensures TicketOk(s', s'.uses[t])
    {
      assert TicketOk(s, s.uses[t]);
      if b in s.internal { UnloadedUncharged(s, b); }
    }
    UnloadTokens(s, s', b);
  }

  lemma UnloadTokens(s: State, s': State, b: Bundle)
    requires OwnersKnown(s) && TokensApart(s)
    requires s' == s.(owner := Disown(s.owner, b), counts := s.counts - {b}, lifecycle := s.lifecycle - {b},
                      backing := s.backing - {b}, retiring := s.retiring + Tokens(s, b))
    ensures OwnersKnown(s') && TokensApart(s')
  {
    assert forall c :: Tokens(s', c) == if c == b then {} else Tokens(s, c);
    assert forall c :: c in s'.owner.Values ==> c in s.owner.Values && c != b;
  }

  /** An internal bundle that unload accepts has no ticket. */
  lemma UnloadedUncharged(s: State, b: Bundle)
    requires Inv(s) && b in s.internal && !UnloadRefused(s, b)
    ensures Charged(s.uses, b) == {} && Count(s, b) == 0
    ensures forall t :: t in s.uses ==> s.uses[t].bundle != b
  {
    assert Counted(s, b);
    assert forall t :: t in s.uses ==> TicketOk(s, s.uses[t]);
    assert forall t :: t in s.uses && s.uses[t].bundle == b ==> t in Charged(s.uses, b);
  }

  lemma ReleaseKeeps(s: State, k: Token)
    requires Inv(s) && k in s.retiring
    ensures Inv(Apply(s, Release(k)))
  {
    var s' := Apply(s, Release(k));
    assert forall c :: Tokens(s', c) == Tokens(s, c);
    forall c | c in s.internal
      ensures Counted(s', c)
    {
      assert Counted(s, c);
    }
    assert forall t :: t in s.uses ==> TicketOk(s, s.uses[t]);
  }

  lemma StepKeepsInv(s: State, step: Step)
    requires Inv(s) && Enabled(s, step)
    ensures Inv(Apply(s, step)) && Apply(s, step).internal == s.internal
  {
    match step
    case Register(b, interfaces, tokens) => RegisterKeeps(s, b, interfaces, tokens);
    case Reload(b, interfaces) => ReloadKeeps(s, b, interfaces);
    case BeginConstruction(t, i) => BeginKeeps(s, t, i);
    case EndConstruction(t, stateful) =>
      var u := s.uses[t];
      MoveKeeps(s, t, if stateful then Live(u.bundle, u.interface) else Cancelling(u.bundle));
    case Cancel(t) => NoteKeeps(s, t);
    case BeginDestroy(t) => MoveKeeps(s, t, Destroying(s.uses[t].bundle, s.uses[t].interface));
    case EndDestroy(t) => MoveKeeps(s, t, Destroyed(s.uses[t].bundle, s.uses[t].interface));
    case LookUpOwner(t) => LookUpKeeps(s, t);
    case RecordDestroy(t) => NoteKeeps(s, t);
    case Unload(b) => UnloadKeeps(s, b);
    case Release(k) => ReleaseKeeps(s, k);
  }

  lemma {:induction false} RunKeepsInv(p: seq<State>, steps: seq<Step>, i: nat)
    requires Run(p, steps) && i < |p|
    ensures Inv(p[i]) && p[i].internal == p[0].internal
  {
    if i == 0 {
      InitInv(p[0]);
    } else {
      RunKeepsInv(p, steps, i - 1);
      StepKeepsInv(p[i - 1], steps[i - 1]);
    }
  }

  // ---------------------------------------------------------------- theorems

  function Constructors(s: State, b: Bundle): set<Ticket> {
    set t | t in s.uses && s.uses[t].bundle == b && (s.uses[t].Building? || s.uses[t].Cancelling?)
  }

  function Instances(s: State, b: Bundle): set<Ticket> {
    set t | t in s.uses && s.uses[t].bundle == b && s.uses[t].Live?
  }

  function UnrecordedDestroys(s: State, b: Bundle): set<Ticket> {
    set t | t in s.uses && s.uses[t].bundle == b && (s.uses[t].Destroying? || s.uses[t].Destroyed? || s.uses[t].Noting?)
  }

  /** In every interleaving the stored count is exactly what is in flight or alive. */
  lemma CountIsConserved(p: seq<State>, steps: seq<Step>, n: nat, b: Bundle)
    requires Run(p, steps) && n < |p| && b in p[0].internal
    ensures Count(p[n], b) == |Constructors(p[n], b)| + |Instances(p[n], b)| + |UnrecordedDestroys(p[n], b)|
  {
    RunKeepsInv(p, steps, n);
    var s := p[n];
    assert Counted(s, b);
    var busy := Constructors(s, b) + Instances(s, b);
    assert Charged(s.uses, b) == busy + UnrecordedDestroys(s, b);
    assert busy !! UnrecordedDestroys(s, b);
    assert |Charged(s.uses, b)| == |busy| + |UnrecordedDestroys(s, b)|;
    assert Constructors(s, b) !! Instances(s, b);
    assert |busy| == |Constructors(s, b)| + |Instances(s, b)|;
  }

  /** No root or resident is released, or about to be, while guest code may still use it. */
  lemma BackingOutlivesUse(p: seq<State>, steps: seq<Step>, n: nat, t: Ticket)
    requires Run(p, steps) && n < |p| && t in p[n].uses
    requires p[n].uses[t].bundle in p[0].internal && p[n].uses[t].NeedsBacking()
    ensures var i := p[n].uses[t].interface;
      i in p[n].needs && p[n].needs[i] !! p[n].released && p[n].needs[i] !! p[n].retiring
  {
    RunKeepsInv(p, steps, n);
    assert TicketOk(p[n], p[n].uses[t]);
  }

  /** Once issued, what an interface needs is fixed, and an interface that lost its owner never regains one. */
  lemma StepKeepsGone(s: State, step: Step, i: Interface)
    requires Enabled(s, step) && i in s.needs
    ensures var s' := Apply(s, step);
      i in s'.needs && s'.needs[i] == s.needs[i] && (i !in s.owner ==> i !in s'.owner)
  {
  }

  lemma {:induction false} StaysGone(p: seq<State>, steps: seq<Step>, lo: nat, hi: nat, i: Interface)
    requires Run(p, steps) && lo <= hi < |p| && i in p[lo].needs && i !in p[lo].owner
    ensures i in p[hi].needs && p[hi].needs[i] == p[lo].needs[i] && i !in p[hi].owner
  {
    if lo < hi {
      StaysGone(p, steps, lo, hi - 1, i);
      StepKeepsGone(p[hi - 1], steps[hi - 1], i);
    }
  }

  /**
    Once an accepted unload invalidated the bundle of an interface, every later constructor
    call on that interface returns null and changes nothing.
   */
  lemma LateConstructorReturnsNull(p: seq<State>, steps: seq<Step>, lo: nat, hi: nat, b: Bundle, i: Interface)
    requires Run(p, steps) && lo < hi < |steps| && steps[lo] == Unload(b) && p[lo + 1] != p[lo]
    requires i in p[lo].owner && p[lo].owner[i] == b
    requires steps[hi].BeginConstruction? && steps[hi].i == i
    ensures p[hi + 1] == p[hi]
  {
    RunKeepsInv(p, steps, lo);
    assert i in p[lo].needs && i !in p[lo + 1].owner && i in p[lo + 1].needs;
    StaysGone(p, steps, lo + 1, hi, i);
  }

  /** An unload of an internal bundle is refused exactly while something still uses it. */
  lemma UnloadRefusedWhileUsed(p: seq<State>, steps: seq<Step>, n: nat, b: Bundle)
    requires Run(p, steps) && n < |p| && b in p[0].internal
    ensures UnloadRefused(p[n], b) <==> exists t :: t in p[n].uses && p[n].uses[t].bundle == b
  {
    RunKeepsInv(p, steps, n);
    var s := p[n];
    assert Counted(s, b);
    if exists t :: t in s.uses && s.uses[t].bundle == b {
      var t :| t in s.uses && s.uses[t].bundle == b;
      assert t in Charged(s.uses, b) && TicketOk(s, s.uses[t]);
    } else {
      assert Charged(s.uses, b) == {};
    }
  }

  // ------------------------------------------------- told by the steps of a run

  /** Ticket `t` was handed out for interface `i` of `b` by step `k`. */
  ghost predicate Opened(p: seq<State>, steps: seq<Step>, k: nat, t: Ticket, i: Interface, b: Bundle) {
    k < |steps| < |p| && steps[k] == BeginConstruction(t, i) && i in p[k].owner && p[k].owner[i] == b
  }

  /** No step from `lo` up to `hi` is `c`. */
  ghost predicate Never(steps: seq<Step>, lo: nat, hi: nat, c: Step)
    requires hi <= |steps|
  {
    forall k {:trigger steps[k]} :: lo <= k < hi ==> steps[k] != c
  }

  /** A constructor that is still running. */
  lemma {:induction false} StillBuilding(p: seq<State>, steps: seq<Step>, t: Ticket, i: Interface, b: Bundle, k: nat,
      n: nat)
    requires Run(p, steps) && Opened(p, steps, k, t, i, b) && k < n < |p|
    requires Never(steps, k, n, EndConstruction(t, true)) && Never(steps, k, n, EndConstruction(t, false))
    ensures t in p[n].uses && p[n].uses[t] == Building(b, i)
  {
    if k + 1 == n {
      assert p[n] == Apply(p[k], steps[k]);
    } else {
      StillBuilding(p, steps, t, i, b, k, n - 1);
      var c := steps[n - 1];
      assert p[n] == Apply(p[n - 1], c) && c != EndConstruction(t, true) && c != EndConstruction(t, false);
    }
  }

  /** Where the ticket of a returned instance stands: live, in its destroy, or about to be recorded. */
  ghost predicate Held(s: State, t: Ticket, i: Interface, b: Bundle) {
    && t in s.uses
    && s.uses[t] in {Live(b, i), Destroying(b, i), Destroyed(b, i), Noting(b)}
  }

  lemma HeldStep(s: State, c: Step, t: Ticket, i: Interface, b: Bundle)
    requires Inv(s) && Enabled(s, c) && b in s.internal && Held(s, t, i, b) && c != RecordDestroy(t)
    ensures Held(Apply(s, c), t, i, b)
    ensures s.uses[t] == Live(b, i) && c != BeginDestroy(t) ==> Apply(s, c).uses[t] == Live(b, i)
    ensures s.uses[t].NeedsBacking() && c != EndDestroy(t) ==> Apply(s, c).uses[t].NeedsBacking()
  {
    assert TicketOk(s, s.uses[t]);
  }

  /** From the return of an instance on, until its destroy is recorded. */
  lemma {:induction false} StillHeld(p: seq<State>, steps: seq<Step>, t: Ticket, i: Interface, b: Bundle, m: nat,
      n: nat)
    requires Run(p, steps) && m < n < |p| && steps[m] == EndConstruction(t, true) && b in p[0].internal
    requires t in p[m].uses && p[m].uses[t] == Building(b, i) && Never(steps, m, n, RecordDestroy(t))
    ensures Held(p[n], t, i, b)
    ensures Never(steps, m, n, BeginDestroy(t)) ==> p[n].uses[t] == Live(b, i)
    ensures Never(steps, m, n, EndDestroy(t)) ==> p[n].uses[t].NeedsBacking()
  {
    if m + 1 == n {
      assert p[n] == Apply(p[m], steps[m]);
    } else {
      StillHeld(p, steps, t, i, b, m, n - 1);
      RunKeepsInv(p, steps, n - 1);
      var c := steps[n - 1];
      HeldStep(p[n - 1], c, t, i, b);
    }
  }

  /** A construction without an instance waits for its cancellation. */
  lemma {:induction false} StillCancelling(p: seq<State>, steps: seq<Step>, t: Ticket, i: Interface, b: Bundle, m: nat,
      n: nat)
    requires Run(p, steps) && m < n < |p| && steps[m] == EndConstruction(t, false)
    requires t in p[m].uses && p[m].uses[t] == Building(b, i) && Never(steps, m, n, Cancel(t))
    ensures t in p[n].uses && p[n].uses[t] == Cancelling(b)
  {
    if m + 1 == n {
      assert p[n] == Apply(p[m], steps[m]);
    } else {
      StillCancelling(p, steps, t, i, b, m, n - 1);
      var c := steps[n - 1];
      assert p[n] == Apply(p[n - 1], c) && c != Cancel(t);
    }
  }

  /**
    A construction that began at step `k` on an internal bundle and ended at step `m` with an
    instance: until its destroy is recorded, unload of the bundle is refused; until the guest's
    destroy has returned, what backs the instance is neither released nor on its way to be; and
    until a destroy begins, one can.
   */
  lemma StatefulInstanceIsSafe(p: seq<State>, steps: seq<Step>, t: Ticket, i: Interface, b: Bundle, k: nat, m: nat,
      n: nat)
    requires Run(p, steps) && Opened(p, steps, k, t, i, b) && b in p[0].internal && k < m < n < |p|
    requires Never(steps, k, m, EndConstruction(t, true)) && Never(steps, k, m, EndConstruction(t, false))
    requires steps[m] == EndConstruction(t, true) && Never(steps, m, n, RecordDestroy(t))
    ensures UnloadRefused(p[n], b) && Apply(p[n], Unload(b)) == p[n]
    ensures Never(steps, m, n, EndDestroy(t)) ==>
      i in p[n].needs && p[n].needs[i] !! p[n].released && p[n].needs[i] !! p[n].retiring
    ensures Never(steps, m, n, BeginDestroy(t)) ==> Enabled(p[n], BeginDestroy(t))
  {
    StillBuilding(p, steps, t, i, b, k, m);
    StillHeld(p, steps, t, i, b, m, n);
    UnloadRefusedWhileUsed(p, steps, n, b);
    if Never(steps, m, n, EndDestroy(t)) { BackingOutlivesUse(p, steps, n, t); }
  }

  /** One that ended without an instance can only be cancelled, and counts no longer once it is. */
  lemma NullConstructionIsCancelled(p: seq<State>, steps: seq<Step>, t: Ticket, i: Interface, b: Bundle, k: nat, m: nat,
      n: nat)
    requires Run(p, steps) && Opened(p, steps, k, t, i, b) && b in p[0].internal && k < m < n < |p|
    requires Never(steps, k, m, EndConstruction(t, true)) && Never(steps, k, m, EndConstruction(t, false))
    requires steps[m] == EndConstruction(t, false) && Never(steps, m, n, Cancel(t))
    ensures Enabled(p[n], Cancel(t)) && !Enabled(p[n], BeginDestroy(t))
    ensures var s := Apply(p[n], Cancel(t)); t !in s.uses && Count(s, b) == Count(p[n], b) - 1
  {
    StillBuilding(p, steps, t, i, b, k, m);
    StillCancelling(p, steps, t, i, b, m, n);
    RunKeepsInv(p, steps, n);
    assert Counted(p[n], b);
    OneLessCharge(p[n].uses, t, b);
  }

  /** Constructor calls on interfaces of `b` that were let in. */
  ghost function Begins(p: seq<State>, steps: seq<Step>, n: nat, b: Bundle): nat
    requires n <= |steps| < |p|
  {
    if n == 0 then 0 else
      var c, s := steps[n - 1], p[n - 1];
      Begins(p, steps, n - 1, b) + if c.BeginConstruction? && c.i in s.owner && s.owner[c.i] == b then 1 else 0
  }

  ghost function Cancels(p: seq<State>, steps: seq<Step>, n: nat, b: Bundle): nat
    requires n <= |steps| < |p|
  {
    if n == 0 then 0 else
      var c, s := steps[n - 1], p[n - 1];
      Cancels(p, steps, n - 1, b) + if c.Cancel? && c.t in s.uses && s.uses[c.t].bundle == b then 1 else 0
  }

  ghost function Records(p: seq<State>, steps: seq<Step>, n: nat, b: Bundle): nat
    requires n <= |steps| < |p|
  {
    if n == 0 then 0 else
      var c, s := steps[n - 1], p[n - 1];
      Records(p, steps, n - 1, b) + if c.RecordDestroy? && c.t in s.uses && s.uses[c.t].bundle == b then 1 else 0
  }

  /** What one step does to the count of an internal bundle. */
  lemma StepCounts(s: State, c: Step, b: Bundle)
    requires Inv(s) && Enabled(s, c) && b in s.internal
    ensures var began := c.BeginConstruction? && c.i in s.owner && s.owner[c.i] == b;
      var ended := (c.Cancel? || c.RecordDestroy?) && s.uses[c.t].bundle == b;
      Count(Apply(s, c), b) == Count(s, b) + (if began then 1 else 0) - (if ended then 1 else 0)
  {
    assert Counted(s, b);
    if c.Cancel? || c.RecordDestroy? { OneLessCharge(s.uses, c.t, b); }
    if c.Unload? && c.b == b && !UnloadRefused(s, b) { UnloadedUncharged(s, b); }
  }

  /** In every run the count of an internal bundle is its constructor calls less cancellations and recorded destroys. */
  lemma {:induction false} CountIsTallied(p: seq<State>, steps: seq<Step>, n: nat, b: Bundle)
    requires Run(p, steps) && n < |p| && b in p[0].internal
    ensures Count(p[n], b) + Cancels(p, steps, n, b) + Records(p, steps, n, b) == Begins(p, steps, n, b)
  {
    if n > 0 {
      CountIsTallied(p, steps, n - 1, b);
      RunKeepsInv(p, steps, n - 1);
      StepCounts(p[n - 1], steps[n - 1], b);
    }
  }

  // ------------------------------------------------- bundles, counts and tokens over runs

  /** Only internal bundles have a lifecycle marker, and a count of zero is not stored. */
  ghost predicate Tidy(s: State) {
    s.lifecycle <= s.internal && forall b :: b in s.counts ==> s.counts[b] > 0
  }

  lemma {:induction false} RunKeepsTidy(p: seq<State>, steps: seq<Step>, n: nat)
    requires Run(p, steps) && n < |p|
    ensures Tidy(p[n])
  {
    if n > 0 {
      RunKeepsTidy(p, steps, n - 1);
      assert p[n] == Apply(p[n - 1], steps[n - 1]);
    }
  }

  /** A bundle that is not internal is unloaded whatever lives of it; the runtime only warns. */
  lemma PlainBundleIsUnloaded(p: seq<State>, steps: seq<Step>, n: nat, b: Bundle)
    requires Run(p, steps) && n < |p| && b !in p[0].internal
    ensures !UnloadRefused(p[n], b)
    ensures var s := Apply(p[n], Unload(b)); Count(s, b) == 0 && b !in s.owner.Values
  {
    RunKeepsInv(p, steps, n);
    RunKeepsTidy(p, steps, n);
    var s := Apply(p[n], Unload(b));
    assert forall i :: i in s.owner ==> s.owner[i] != b;
  }

  /** A reload forgets the old version: its instances no longer count, and its interfaces construct nothing. */
  lemma ReloadForgets(p: seq<State>, steps: seq<Step>, n: nat)
    requires Run(p, steps) && n < |steps| && steps[n].Reload?
    ensures Count(p[n + 1], steps[n].b) == 0
    ensures forall i :: i in p[n].owner && p[n].owner[i] == steps[n].b ==> i !in p[n + 1].owner
    ensures forall i :: i in steps[n].interfaces ==> i in p[n + 1].owner && p[n + 1].owner[i] == steps[n].b
  {
    RunKeepsInv(p, steps, n);
    assert p[n + 1] == Apply(p[n], steps[n]);
    forall i | i in p[n].owner && p[n].owner[i] == steps[n].b
      ensures i !in p[n + 1].owner
    {
      assert i in p[n].needs;
    }
  }

  /** A destroy whose bundle is gone ends without a record. */
  lemma LateDestroyIsDropped(p: seq<State>, steps: seq<Step>, n: nat)
    requires Run(p, steps) && n < |steps| && steps[n].LookUpOwner?
    requires p[n].uses[steps[n].t].interface !in p[n].owner
    ensures steps[n].t !in p[n + 1].uses && p[n + 1].counts == p[n].counts
  {
    assert p[n + 1] == Apply(p[n], steps[n]);
  }

  /** A token backs its bundle, waits for its release, or is released. */
  ghost predicate Placed(s: State, k: Token, b: Bundle) { k in Tokens(s, b) || k in s.retiring || k in s.released }

  lemma {:induction false} TokenIsPlaced(p: seq<State>, steps: seq<Step>, k: Token, b: Bundle, lo: nat, hi: nat)
    requires Run(p, steps) && lo < hi < |p| && steps[lo].Register? && steps[lo].b == b && k in steps[lo].tokens
    ensures Placed(p[hi], k, b)
  {
    if lo + 1 == hi {
      assert p[hi] == Apply(p[lo], steps[lo]);
    } else {
      TokenIsPlaced(p, steps, k, b, lo, hi - 1);
      assert p[hi] == Apply(p[hi - 1], steps[hi - 1]);
    }
  }

  /**
    Where a registered root or resident is at any later time: in exactly one of three places;
    it leaves its bundle by an accepted unload of it alone, and is released by its own release.
   */
  lemma TokensAreConserved(p: seq<State>, steps: seq<Step>, k: Token, b: Bundle, lo: nat, hi: nat)
    requires Run(p, steps) && lo < hi < |p| && steps[lo].Register? && steps[lo].b == b && k in steps[lo].tokens
    ensures Placed(p[hi], k, b) && !(k in p[hi].retiring && k in p[hi].released)
    ensures k in Tokens(p[hi], b) ==> k !in p[hi].retiring && k !in p[hi].released
    ensures hi < |steps| && k in Tokens(p[hi], b) ==>
      (k !in Tokens(p[hi + 1], b) <==> steps[hi] == Unload(b) && !UnloadRefused(p[hi], b))
    ensures hi < |steps| && k !in p[hi].released ==> (k in p[hi + 1].released <==> steps[hi] == Release(k))
  {
    RunKeepsInv(p, steps, hi);
    TokenIsPlaced(p, steps, k, b, lo, hi);
    if hi < |steps| { TokenStep(p[hi], steps[hi], k, b); }
  }

  lemma TokenStep(s: State, c: Step, k: Token, b: Bundle)
    requires Inv(s) && Enabled(s, c) && Placed(s, k, b)
    ensures var s' := Apply(s, c);
      && (k in Tokens(s, b) ==> (k !in Tokens(s', b) <==> c == Unload(b) && !UnloadRefused(s, b)))
      && (k !in s.released ==> (k in s'.released <==> c == Release(k)))
  {
  }
}
