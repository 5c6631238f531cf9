/** Binding levels and the bookkeeping of labels that guards gotos into try
    and catch blocks, as a state machine over the events of one function body. */
module BindingLevels {
  datatype LevelKind =
    | BlockLevel | TryLevel | CatchLevel | FinallyLevel | CondLevel
    | SwitchLevel | LoopLevel | WithLevel | FunctionLevel

  /** A binding level; the id tells levels of the same kind apart. */
  datatype Level = Level(id: nat, kind: LevelKind)

  /** A pointer to a binding level: the level and all those around it, the
      outermost first. The empty scope is the null pointer. */
  type Scope = seq<Level>

  datatype TargetKind = LabelTarget | CaseTarget | DefaultTarget
  datatype Target = Target(stmt: nat, kind: TargetKind)

  /** A jump to a label that is not defined yet, made by statement `from`. */
  datatype Use = Use(from: nat, level: Scope)

  datatype Entry = Entry(defined: bool, level: Scope, fwdrefs: seq<Use>, inTry: bool, inCatch: bool)

  datatype Error =
    | IntoTry(from: nat) | IntoCatch(from: nat)      // cannot goto into try / catch block
    | CaseAcrossTry(stmt: nat)                       // case in different try block level from switch
    | DefaultAcrossTry(stmt: nat)

  datatype Event = Push(kind: LevelKind) | Pop | Jump(from: nat, to: Target) | Define(to: Target)

  datatype State = State(current: Scope, pushed: nat, labels: map<Target, Entry>, errors: seq<Error>)

  const NewEntry := Entry(false, [], [], false, false)

  /** The entry of a label, made on demand. */
  function Lookup(labels: map<Target, Entry>, to: Target): Entry {
    if to in labels then labels[to] else NewEntry
  }

  /** Leaving level bl, for one forward reference. As written every reference
      moves to the outer level; guarded, only those attached to bl do. */
  function PopUse(u: Use, bl: Scope, guarded: bool): Use
    requires bl != []
  {
    if guarded && u.level != bl then u else u.(level := bl[..|bl| - 1])
  }

  function PopUses(us: seq<Use>, bl: Scope, guarded: bool): seq<Use>
    requires bl != []
  {
    seq(|us|, i requires 0 <= i < |us| => PopUse(us[i], bl, guarded))
  }

  /** Leaving level bl, for one label. */
  function PopEntry(e: Entry, bl: Scope, guarded: bool): Entry
    requires bl != []
  {
    if e.level == bl then
      var kind := bl[|bl| - 1].kind;
      e.(level := bl[..|bl| - 1], inTry := e.inTry || kind == TryLevel, inCatch := e.inCatch || kind == CatchLevel)
    else e.(fwdrefs := PopUses(e.fwdrefs, bl, guarded))
  }

  /** What is reported when a jump from `from` to a new label enters level l. */
  function Report(to: Target, from: nat, l: Level): seq<Error> {
    if l.kind != TryLevel && l.kind != CatchLevel then []
    else match to.kind
      case LabelTarget => [if l.kind == TryLevel then IntoTry(from) else IntoCatch(from)]
      case CaseTarget => [CaseAcrossTry(to.stmt)]
      case DefaultTarget => [DefaultAcrossTry(to.stmt)]
  }

  /** Reports for the levels of `at` inside `stop`, the innermost first. */
  function Walk(to: Target, from: nat, at: Scope, stop: Scope): seq<Error>
    decreases |at|
  {
    if at == [] || at == stop then []
    else Report(to, from, at[|at| - 1]) + Walk(to, from, at[..|at| - 1], stop)
  }

  function WalkAll(to: Target, us: seq<Use>, at: Scope): seq<Error> {
    if us == [] then [] else Walk(to, us[0].from, at, us[0].level) + WalkAll(to, us[1..], at)
  }

  function CheckGoto(s: State, from: nat, to: Target): State {
    var e := Lookup(s.labels, to);
    if !e.defined then s.(labels := s.labels[to := e.(fwdrefs := [Use(from, s.current)] + e.fwdrefs)])
    else s.(labels := s.labels[to := e],
            errors := s.errors + if e.inTry then [IntoTry(from)] else if e.inCatch then [IntoCatch(from)] else [])
  }

  function DefineLabel(s: State, to: Target): State {
    var e := Lookup(s.labels, to);
    s.(labels := s.labels[to := e.(defined := true, level := s.current, fwdrefs := [])],
       errors := s.errors + WalkAll(to, e.fwdrefs, s.current))
  }

  function Step(s: State, e: Event, guarded: bool): State
    requires e.Pop? ==> s.current != []
  {
    match e
    case Push(k) => s.(current := s.current + [Level(s.pushed, k)], pushed := s.pushed + 1)
    case Pop =>
      s.(current := s.current[..|s.current| - 1],
         labels := map t | t in s.labels :: PopEntry(s.labels[t], s.current, guarded))
    case Jump(from, to) => CheckGoto(s, from, to)
    case Define(to) => DefineLabel(s, to)
  }

  // ---------- What happened, told without the bookkeeping ----------

  function Pushes(t: seq<Event>): nat {
    if t == [] then 0 else Pushes(t[..|t| - 1]) + if t[|t| - 1].Push? then 1 else 0
  }

  /** The levels open after a run that began just inside the function. */
  function ScopeAfter(t: seq<Event>): Scope {
    if t == [] then [Level(0, FunctionLevel)] else
    var before := ScopeAfter(t[..|t| - 1]);
    match t[|t| - 1]
    case Push(k) => before + [Level(1 + Pushes(t[..|t| - 1]), k)]
    case Pop => if before == [] then [] else before[..|before| - 1]
    case _ => before
  }

  /** Runs that can happen: the function's own level stays, and a label is
      defined once. */
  predicate Possible(t: seq<Event>) {
    t == [] ||
    var before := t[..|t| - 1];
    Possible(before) &&
    match t[|t| - 1]
    case Push(k) => k != FunctionLevel
    case Pop => |ScopeAfter(before)| > 1
    case Jump(_, _) => true
    case Define(to) => Define(to) !in before
  }

  const Start := State([Level(0, FunctionLevel)], 1, map[], [])

  function Run(t: seq<Event>, guarded: bool): (s: State)
    requires Possible(t)
    ensures s.current == ScopeAfter(t) && s.pushed == 1 + Pushes(t)
  {
    if t == [] then Start else Step(Run(t[..|t| - 1], guarded), t[|t| - 1], guarded)
  }

  // ---------- Levels never come back ----------

  /** The levels of a scope, from the outside in, were pushed in that order. */
  lemma {:induction false} IdsGrow(t: seq<Event>)
    requires Possible(t)
    ensures forall i, j :: 0 <= i < j < |ScopeAfter(t)| ==> ScopeAfter(t)[i].id < ScopeAfter(t)[j].id
    ensures forall i :: 0 <= i < |ScopeAfter(t)| ==> ScopeAfter(t)[i].id <= Pushes(t)
    ensures ScopeAfter(t) != []
  {
    if t != [] { IdsGrow(t[..|t| - 1]); }
  }

  /** Of the levels of `was`, exactly the outermost k are still in `now`. */
  ghost predicate Shared(was: Scope, now: Scope, k: nat) {
    && k <= |was| && k <= |now| && was[..k] == now[..k]
    && (forall i :: k <= i < |was| ==> was[i] !in now)
    && (forall j :: k <= j < |now| ==> now[j] !in was)
  }

  function SharedLevels(was: Scope, now: Scope): nat {
    if was != [] && now != [] && was[0] == now[0] then 1 + SharedLevels(was[1..], now[1..]) else 0
  }

  lemma {:induction false} SharedIs(was: Scope, now: Scope, k: nat)
    requires Shared(was, now, k)
    ensures SharedLevels(was, now) == k
  {
    if k > 0 { assert was[..k][0] == now[..k][0]; }
    if was != [] && now != [] && was[0] == now[0] {
      assert k > 0;
      forall i | k - 1 <= i < |was[1..]| ensures was[1..][i] !in now[1..] { assert was[1..][i] == was[i + 1]; }
      forall j | k - 1 <= j < |now[1..]| ensures now[1..][j] !in was[1..] { assert now[1..][j] == now[j + 1]; }
      assert was[1..][..k - 1] == was[..k][1..] && now[1..][..k - 1] == now[..k][1..];
      SharedIs(was[1..], now[1..], k - 1);
    }
  }

  lemma SharedPush(was: Scope, now: Scope, k: nat, l: Level)
    requires Shared(was, now, k) && l !in was
    ensures Shared(was, now + [l], k)
  {
    assert (now + [l])[..k] == now[..k];
  }

  lemma SharedPop(was: Scope, now: Scope, k: nat)
    requires Shared(was, now, k) && now != [] && now[|now| - 1] !in now[..|now| - 1]
    ensures Shared(was, now[..|now| - 1], if k == |now| then k - 1 else k)
  {
    var now' := now[..|now| - 1];
    var k' := if k == |now| then k - 1 else k;
    assert was[..k'] == was[..k][..k'] && now'[..k'] == now[..k][..k'];
    if k == |now| {
      assert was[k - 1] == was[..k][k - 1] == now[..k][k - 1];
    }
  }

  /** How much of a scope of the past is still open. */
  function StillOpen(t: seq<Event>, d: nat): nat
    requires d <= |t|
  {
    SharedLevels(ScopeAfter(t[..d]), ScopeAfter(t))
  }

  /** A scope and a later one share their outer levels and nothing else. */
  lemma {:induction false} ScopesShare(t: seq<Event>, d: nat)
    requires Possible(t) && d <= |t|
    ensures Possible(t[..d]) && Pushes(t[..d]) <= Pushes(t)
    ensures Shared(ScopeAfter(t[..d]), ScopeAfter(t), StillOpen(t, d))
    ensures d < |t| && t[|t| - 1].Pop? ==>
      StillOpen(t, d) == var k := StillOpen(t[..|t| - 1], d); if k == |ScopeAfter(t[..|t| - 1])| then k - 1 else k
    ensures d < |t| && !t[|t| - 1].Pop? ==> StillOpen(t, d) == StillOpen(t[..|t| - 1], d)
    decreases |t|
  {
    hide Shared, SharedLevels;
    if d == |t| {
      assert t[..d] == t;
      SharedWithItself(ScopeAfter(t));
    } else {
      var before := t[..|t| - 1];
      assert before[..d] == t[..d];
      ScopesShare(before, d);
      IdsGrow(t[..d]);
      IdsGrow(before);
      var was, mid, now := ScopeAfter(t[..d]), ScopeAfter(before), ScopeAfter(t);
      var k := StillOpen(before, d);
      if t[|t| - 1].Push? {
        SharedPush(was, mid, k, now[|now| - 1]);
        SharedIs(was, now, k);
      } else if t[|t| - 1].Pop? {
        SharedPop(was, mid, k);
        SharedIs(was, now, if k == |mid| then k - 1 else k);
      }
    }
  }

  lemma SharedWithItself(now: Scope)
    ensures Shared(now, now, SharedLevels(now, now))
  {
    SharedIs(now, now, |now|);
  }
}
