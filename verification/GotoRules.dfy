/** What the checks of gotos report, told by the history of a run. */
module GotoRules {
  // It matters which levels were open at a goto and at its label, and which of
  // them are still open.

  import opened BindingLevels

  // ---------- The rules ----------

  /** Where label `to` was defined. */
  function DefinedAt(t: seq<Event>, to: Target): (d: nat)
    requires Define(to) in t
    ensures d < |t| && t[d] == Define(to)
  {
    if t[|t| - 1] == Define(to) then |t| - 1 else DefinedAt(t[..|t| - 1], to)
  }

  /** The jumps to `to`, the latest first. */
  function JumpsTo(t: seq<Event>, to: Target): (js: seq<nat>)
    ensures forall n :: 0 <= n < |js| ==> js[n] < |t| && t[js[n]].Jump? && t[js[n]].to == to
  {
    if t == [] then []
    else (if t[|t| - 1].Jump? && t[|t| - 1].to == to then [|t| - 1] else []) + JumpsTo(t[..|t| - 1], to)
  }

  /** Some level of this kind around the label has been left since. */
  predicate Left(was: Scope, now: Scope, kind: LevelKind) {
    exists i :: 0 <= i < |was| && was[i].kind == kind && was[i] !in now
  }

  /** A jump back to a label must not enter a try or catch block again. */
  function BackwardReport(from: nat, was: Scope, now: Scope): seq<Error> {
    if Left(was, now, TryLevel) then [IntoTry(from)]
    else if Left(was, now, CatchLevel) then [IntoCatch(from)]
    else []
  }

  /** A jump made in scope g to a label in scope `at` must not enter a try or
      catch block: one report for each that is around `at` but not around g. */
  function Entered(to: Target, from: nat, at: Scope, g: Scope): seq<Error>
    decreases |at|
  {
    if at == [] then []
    else (if at[|at| - 1] !in g then Report(to, from, at[|at| - 1]) else []) + Entered(to, from, at[..|at| - 1], g)
  }

  /** The scope a pending jump made at g is held to. Guarded, its own; as
      written, the scope left by the last pop since, if there was one. */
  function HeldTo(t: seq<Event>, g: nat, guarded: bool): (q: nat)
    requires g <= |t|
    ensures g <= q <= |t|
  {
    if guarded || |t| == g then g
    else if t[|t| - 1].Pop? then |t|
    else HeldTo(t[..|t| - 1], g, guarded)
  }

  function ForwardReports(t: seq<Event>, to: Target, js: seq<nat>, guarded: bool): seq<Error>
    requires forall n :: 0 <= n < |js| ==> js[n] < |t| && t[js[n]].Jump?
  {
    if js == [] then [] else
    Entered(to, t[js[0]].from, ScopeAfter(t), ScopeAfter(t[..HeldTo(t, js[0], guarded)]))
    + ForwardReports(t, to, js[1..], guarded)
  }

  /** All reports of a run, told by its history alone. */
  function Reported(t: seq<Event>, guarded: bool): seq<Error> {
    if t == [] then [] else
    var before := t[..|t| - 1];
    Reported(before, guarded) +
    match t[|t| - 1]
    case Jump(from, to) =>
      if Define(to) in before then
        BackwardReport(from, ScopeAfter(before[..DefinedAt(before, to)]), ScopeAfter(before))
      else []
    case Define(to) => ForwardReports(before, to, JumpsTo(before, to), guarded)
    case _ => []
  }

  // ---------- What the bookkeeping knows ----------

  /** A defined label is attached to the deepest level of its definition that
      is still open, and knows whether it left a try or a catch level. */
  ghost predicate KnowsDefinition(t: seq<Event>, d: nat, e: Entry)
    requires d <= |t|
  {
    var was, now := ScopeAfter(t[..d]), ScopeAfter(t);
    && e.defined && e.fwdrefs == []
    && StillOpen(t, d) <= |was| && StillOpen(t, d) <= |now|
    && e.level == was[..StillOpen(t, d)] == now[..StillOpen(t, d)]
    && (e.inTry <==> Left(was, now, TryLevel))
    && (e.inCatch <==> Left(was, now, CatchLevel))
  }

  /** Where a pending jump is attached. */
  function AttachedTo(t: seq<Event>, g: nat, guarded: bool): Scope
    requires g <= |t| && (guarded ==> StillOpen(t, g) <= |ScopeAfter(t)|)
  {
    if guarded then ScopeAfter(t)[..StillOpen(t, g)] else ScopeAfter(t[..HeldTo(t, g, false)])
  }

  /** An undefined label knows the jumps to it and where each is attached. */
  ghost predicate KnowsJumps(t: seq<Event>, to: Target, e: Entry, guarded: bool) {
    var js := JumpsTo(t, to);
    && !e.defined && e.level == [] && !e.inTry && !e.inCatch && |e.fwdrefs| == |js|
    && forall n :: 0 <= n < |js| ==>
         && (guarded ==> StillOpen(t, js[n]) <= |ScopeAfter(t)|)
         && e.fwdrefs[n] == Use(t[js[n]].from, AttachedTo(t, js[n], guarded))
  }

  ghost predicate Knows(t: seq<Event>, to: Target, e: Entry, guarded: bool) {
    if Define(to) in t then KnowsDefinition(t, DefinedAt(t, to), e) else KnowsJumps(t, to, e, guarded)
  }

  /** The invariant of the bookkeeping, over every run. */
  lemma {:induction false} EntriesKnow(t: seq<Event>, to: Target, guarded: bool)
    requires Possible(t)
    ensures Knows(t, to, Lookup(Run(t, guarded).labels, to), guarded)
  {
    hide Knows, KnowsDefinition, KnowsJumps;
    if t == [] {
      StartKnows(to, guarded);
    } else {
      var before := t[..|t| - 1];
      EntriesKnow(before, to, guarded);
      var s := Run(before, guarded);
      var e := Lookup(s.labels, to);
      match t[|t| - 1]
      case Push(k) => OtherKnows(t, to, e, guarded);
      case Pop =>
        IdsGrow(before);
        PopKnows(t, to, e, guarded);
        PopNewEntry(s.current, guarded);
      case Jump(from, to') => if to' == to { JumpKnows(t, from, to, e, guarded); }
        else { OtherKnows(t, to, e, guarded); }
      case Define(to') => if to' == to { DefineKnows(t, to, e, guarded); } else { OtherKnows(t, to, e, guarded); }
    }
  }

  lemma StartKnows(to: Target, guarded: bool)
    ensures Knows([], to, Lookup(Start.labels, to), guarded)
  {
  }

  lemma PopNewEntry(bl: Scope, guarded: bool)
    requires bl != []
    ensures PopEntry(NewEntry, bl, guarded) == NewEntry
  {
    assert PopUses([], bl, guarded) == [];
  }

  /** A later event moves a past point of the run no further away. */
  lemma PastStays(t: seq<Event>, d: nat)
    requires t != [] && d < |t|
    ensures t[..|t| - 1][..d] == t[..d]
  {
  }

  lemma SameDefinition(t: seq<Event>, to: Target)
    requires t != [] && t[|t| - 1] != Define(to)
    ensures Define(to) in t <==> Define(to) in t[..|t| - 1]
    ensures Define(to) in t ==> DefinedAt(t, to) == DefinedAt(t[..|t| - 1], to)
  {
    assert t == t[..|t| - 1] + [t[|t| - 1]];
  }

  lemma SameJumps(t: seq<Event>, to: Target)
    requires t != [] && (t[|t| - 1].Jump? ==> t[|t| - 1].to != to)
    ensures JumpsTo(t, to) == JumpsTo(t[..|t| - 1], to)
  {
  }

  lemma {:induction false} StaysLeft(t: seq<Event>, d: nat, kind: LevelKind)
    requires Possible(t) && d < |t| && !t[|t| - 1].Pop?
    ensures Left(ScopeAfter(t[..d]), ScopeAfter(t), kind) == Left(ScopeAfter(t[..d]), ScopeAfter(t[..|t| - 1]), kind)
  {
    var before := t[..|t| - 1];
    var was, mid, now := ScopeAfter(t[..d]), ScopeAfter(before), ScopeAfter(t);
    PastStays(t, d);
    ScopesShare(before, d);
    IdsGrow(t[..d]);
    forall l | l in was ensures l in now <==> l in mid {
      if now != mid { assert now == mid + [now[|now| - 1]]; }
    }
  }

  /** Events that neither leave a level nor concern the label. */
  lemma {:induction false} OtherKnows(t: seq<Event>, to: Target, e: Entry, guarded: bool)
    requires Possible(t) && t != [] && !t[|t| - 1].Pop? && t[|t| - 1] != Define(to)
    requires t[|t| - 1].Jump? ==> t[|t| - 1].to != to
    requires Knows(t[..|t| - 1], to, e, guarded)
    ensures Knows(t, to, e, guarded)
  {
    hide ScopeAfter, StillOpen, Left, Shared;
    var before := t[..|t| - 1];
    SameDefinition(t, to);
    ScopeGrows(t);
    if Define(to) in t {
      DefinitionStays(t, DefinedAt(t, to), e);
    } else {
      SameJumps(t, to);
      var js := JumpsTo(t, to);
      forall n | 0 <= n < |js|
        ensures (guarded ==> StillOpen(t, js[n]) <= |ScopeAfter(t)|)
          && AttachedTo(t, js[n], guarded) == AttachedTo(before, js[n], guarded)
      {
        AttachmentStays(t, js[n], guarded);
      }
    }
  }

  lemma ScopeGrows(t: seq<Event>)
    requires t != [] && !t[|t| - 1].Pop?
    ensures ScopeAfter(t[..|t| - 1]) <= ScopeAfter(t)
  {
  }

  lemma {:induction false} DefinitionStays(t: seq<Event>, d: nat, e: Entry)
    requires Possible(t) && t != [] && !t[|t| - 1].Pop? && d < |t| && KnowsDefinition(t[..|t| - 1], d, e)
    ensures KnowsDefinition(t, d, e)
  {
    hide ScopeAfter, StillOpen, Left;
    PastStays(t, d);
    ScopesShare(t, d);
    ScopeGrows(t);
    StaysLeft(t, d, TryLevel);
    StaysLeft(t, d, CatchLevel);
  }

  lemma {:induction false} AttachmentStays(t: seq<Event>, g: nat, guarded: bool)
    requires Possible(t) && t != [] && !t[|t| - 1].Pop? && g < |t|
    requires guarded ==> StillOpen(t[..|t| - 1], g) <= |ScopeAfter(t[..|t| - 1])|
    ensures guarded ==> StillOpen(t, g) <= |ScopeAfter(t)|
    ensures AttachedTo(t, g, guarded) == AttachedTo(t[..|t| - 1], g, guarded)
  {
    hide ScopeAfter, StillOpen;
    var before := t[..|t| - 1];
    ScopesShare(t, g);
    ScopeGrows(t);
    var q := HeldTo(before, g, false);
    assert before[..q] == t[..q];
  }

  lemma {:induction false} JumpKnows(t: seq<Event>, from: nat, to: Target, e: Entry, guarded: bool)
    requires Possible(t) && t != [] && t[|t| - 1] == Jump(from, to) && Knows(t[..|t| - 1], to, e, guarded)
    ensures var s := State(ScopeAfter(t[..|t| - 1]), 0, map[to := e], []);
      Knows(t, to, Lookup(CheckGoto(s, from, to).labels, to), guarded)
  {
    hide StillOpen, Left, Shared;
    var before := t[..|t| - 1];
    SameDefinition(t, to);
    if Define(to) in t {
      DefinitionStays(t, DefinedAt(t, to), e);
    } else {
      var js := JumpsTo(before, to);
      assert JumpsTo(t, to) == [|t| - 1] + js;
      forall n | 0 <= n < |js|
        ensures (guarded ==> StillOpen(t, js[n]) <= |ScopeAfter(t)|)
          && AttachedTo(t, js[n], guarded) == AttachedTo(before, js[n], guarded)
      {
        AttachmentStays(t, js[n], guarded);
      }
      AttachedAtOnce(t, guarded);
    }
  }

  /** A new jump is attached to the level it appears in. */
  lemma {:induction false} AttachedAtOnce(t: seq<Event>, guarded: bool)
    requires Possible(t) && t != [] && t[|t| - 1].Jump?
    ensures guarded ==> StillOpen(t, |t| - 1) <= |ScopeAfter(t)|
    ensures AttachedTo(t, |t| - 1, guarded) == ScopeAfter(t[..|t| - 1])
  {
    var now := ScopeAfter(t);
    assert ScopeAfter(t[..|t| - 1]) == now;
    SharedWithItself(now);
    SharedIs(now, now, |now|);
    assert now[..|now|] == now;
    assert t[..|t| - 1][..|t| - 1] == t[..|t| - 1];
  }

  lemma {:induction false} DefineKnows(t: seq<Event>, to: Target, e: Entry, guarded: bool)
    requires Possible(t) && t != [] && t[|t| - 1] == Define(to) && Knows(t[..|t| - 1], to, e, guarded)
    ensures Knows(t, to, e.(defined := true, level := ScopeAfter(t[..|t| - 1]), fwdrefs := []), guarded)
  {
    var now := ScopeAfter(t);
    assert ScopeAfter(t[..|t| - 1]) == now && Define(to) !in t[..|t| - 1];
    SharedWithItself(now);
    SharedIs(now, now, |now|);
    assert now[..|now|] == now;
  }

  lemma {:induction false} PopKnows(t: seq<Event>, to: Target, e: Entry, guarded: bool)
    requires Possible(t) && t != [] && t[|t| - 1] == Pop && ScopeAfter(t[..|t| - 1]) != []
    requires Knows(t[..|t| - 1], to, e, guarded)
    ensures Knows(t, to, PopEntry(e, ScopeAfter(t[..|t| - 1]), guarded), guarded)
  {
    hide ScopeAfter, StillOpen, Left, Shared;
    var before := t[..|t| - 1];
    SameDefinition(t, to);
    if Define(to) in t {
      DefinitionPops(t, DefinedAt(t, to), e, guarded);
    } else {
      SameJumps(t, to);
      var js := JumpsTo(t, to);
      forall n | 0 <= n < |js|
        ensures (guarded ==> StillOpen(t, js[n]) <= |ScopeAfter(t)|)
        ensures AttachedTo(t, js[n], guarded) ==
          PopUse(Use(t[js[n]].from, AttachedTo(before, js[n], guarded)), ScopeAfter(before), guarded).level
      {
        AttachmentPops(t, js[n], t[js[n]].from, guarded);
      }
    }
  }

  lemma {:induction false} AttachmentPops(t: seq<Event>, g: nat, from: nat, guarded: bool)
    requires Possible(t) && t != [] && t[|t| - 1] == Pop && g < |t| - 1 && ScopeAfter(t[..|t| - 1]) != []
    requires guarded ==> StillOpen(t[..|t| - 1], g) <= |ScopeAfter(t[..|t| - 1])|
    ensures guarded ==> StillOpen(t, g) <= |ScopeAfter(t)|
    ensures AttachedTo(t, g, guarded) ==
      PopUse(Use(from, AttachedTo(t[..|t| - 1], g, guarded)), ScopeAfter(t[..|t| - 1]), guarded).level
  {
    hide StillOpen, Shared;
    var before := t[..|t| - 1];
    var mid := ScopeAfter(before);
    ScopesShare(t, g);
    assert ScopeAfter(t) == mid[..|mid| - 1];
    if guarded {
      var k := StillOpen(before, g);
      if k == |mid| { assert mid[..k] == mid; } else { assert mid[..k] != mid && mid[..|mid| - 1][..k] == mid[..k]; }
    } else {
      assert t[..|t|] == t;
    }
  }

  lemma {:induction false} DefinitionPops(t: seq<Event>, d: nat, e: Entry, guarded: bool)
    requires Possible(t) && t != [] && t[|t| - 1] == Pop && d < |t| - 1 && ScopeAfter(t[..|t| - 1]) != []
    requires KnowsDefinition(t[..|t| - 1], d, e)
    ensures KnowsDefinition(t, d, PopEntry(e, ScopeAfter(t[..|t| - 1]), guarded))
  {
    hide StillOpen;
    var before := t[..|t| - 1];
    var was, mid, now := ScopeAfter(t[..d]), ScopeAfter(before), ScopeAfter(t);
    PastStays(t, d);
    ScopesShare(before, d);
    ScopesShare(t, d);
    IdsGrow(before);
    var k := StillOpen(before, d);
    assert now == mid[..|mid| - 1];
    LeftByPop(was, mid, k, TryLevel);
    LeftByPop(was, mid, k, CatchLevel);
    assert PopUses([], mid, guarded) == [];
    if k == |mid| {
      assert mid[..k] == mid;
      assert was[..k][..k - 1] == was[..k - 1] && mid[..k][..k - 1] == mid[..k - 1];
    } else {
      assert mid[..k] != mid && now[..k] == mid[..k];
    }
  }

  /** Leaving a level matters to a label just when it is attached there. */
  lemma LeftByPop(was: Scope, mid: Scope, k: nat, kind: LevelKind)
    requires Shared(was, mid, k) && mid != [] && mid[|mid| - 1] !in mid[..|mid| - 1]
    ensures Left(was, mid[..|mid| - 1], kind) <==> Left(was, mid, kind) || (k == |mid| && mid[k - 1].kind == kind)
  {
    var now := mid[..|mid| - 1];
    forall i | 0 <= i < |was| ensures was[i] in now <==> was[i] in mid && !(k == |mid| && i == k - 1) {
      if i < k { assert was[i] == was[..k][i] == mid[..k][i] == mid[i]; }
      if was[i] in mid && !(k == |mid| && i == k - 1) {
        assert i < k && was[i] == mid[i] && i < |now| && now[i] == mid[i];
      }
    }
    if k == |mid| { assert was[k - 1] == was[..k][k - 1] == mid[..k][k - 1] == mid[k - 1]; }
  }

  // ---------- The reports ----------

  /** Walking out to a level reports just the levels entered since. */
  lemma {:induction false} WalkReportsEntered(to: Target, from: nat, at: Scope, k: nat, g: Scope, r: nat)
    requires k <= r <= |at|
    requires forall j :: 0 <= j < r ==> (at[j] in g <==> j < k)
    ensures Walk(to, from, at[..r], at[..k]) == Entered(to, from, at[..r], g)
    decreases r
  {
    if k < r {
      assert at[..r][..r - 1] == at[..r - 1] && at[..r] != at[..k];
      WalkReportsEntered(to, from, at, k, g, r - 1);
    } else if r > 0 {
      NoneEntered(to, from, at[..r], g);
    }
  }

  lemma {:induction false} NoneEntered(to: Target, from: nat, at: Scope, g: Scope)
    requires forall j :: 0 <= j < |at| ==> at[j] in g
    ensures Entered(to, from, at, g) == []
    decreases |at|
  {
    if at != [] { NoneEntered(to, from, at[..|at| - 1], g); }
  }

  /** The scope a pending jump is held to is still open as a whole. */
  lemma {:induction false} HeldToIsOpen(t: seq<Event>, g: nat)
    requires Possible(t) && g <= |t|
    ensures var q := HeldTo(t, g, false);
      q == g || (g < q && t[q - 1].Pop?)
    ensures var q := HeldTo(t, g, false);
      ScopeAfter(t[..q]) <= ScopeAfter(t) || (q == g && forall i :: g <= i < |t| ==> !t[i].Pop?)
    ensures ScopeAfter(t[..HeldTo(t, g, false)]) <= ScopeAfter(t)
  {
    if |t| == g || t[|t| - 1].Pop? {
      assert t[..|t|] == t;
    } else {
      HeldToIsOpen(t[..|t| - 1], g);
      var q := HeldTo(t, g, false);
      assert t[..|t| - 1][..q] == t[..q];
    }
  }

  /** One pending jump: what walking out from the label reports is what the
      rule says, for the scope the jump is held to. */
  lemma {:induction false} JumpReported(t: seq<Event>, to: Target, from: nat, g: nat, guarded: bool)
    requires Possible(t) && g <= |t| && (guarded ==> StillOpen(t, g) <= |ScopeAfter(t)|)
    ensures Walk(to, from, ScopeAfter(t), AttachedTo(t, g, guarded)) ==
      Entered(to, from, ScopeAfter(t), ScopeAfter(t[..HeldTo(t, g, guarded)]))
  {
    hide StillOpen, ScopeAfter, Walk, Entered;
    var at := ScopeAfter(t);
    var q := HeldTo(t, g, guarded);
    ScopesShare(t, q);
    HeldToIsOpen(t, g);
    IdsGrow(t);
    var was := ScopeAfter(t[..q]);
    var k := if guarded then StillOpen(t, g) else |was|;
    assert AttachedTo(t, g, guarded) == at[..k];
    assert at[..|at|] == at;
    SharedMembers(was, at, k, guarded, StillOpen(t, q));
    WalkReportsEntered(to, from, at, k, was, |at|);
  }

  lemma SharedMembers(was: Scope, at: Scope, k: nat, guarded: bool, open: nat)
    requires Shared(was, at, open) && k <= |at|
    requires guarded ==> k == open
    requires !guarded ==> was <= at && k == |was|
    requires forall i, j :: 0 <= i < j < |at| ==> at[i].id < at[j].id
    ensures forall j :: 0 <= j < |at| ==> (at[j] in was <==> j < k)
  {
    forall j | 0 <= j < |at| ensures at[j] in was <==> j < k {
      if j < k && guarded { assert at[j] == at[..k][j] == was[..k][j] == was[j]; }
      if j < k && !guarded { assert at[j] == was[j]; }
    }
  }

  lemma {:induction false} JumpsReported(t: seq<Event>, to: Target, us: seq<Use>, js: seq<nat>, guarded: bool)
    requires Possible(t) && |us| == |js|
    requires forall n :: 0 <= n < |js| ==> js[n] < |t| && t[js[n]].Jump?
    requires forall n :: 0 <= n < |js| ==>
      && (guarded ==> StillOpen(t, js[n]) <= |ScopeAfter(t)|)
      && us[n] == Use(t[js[n]].from, AttachedTo(t, js[n], guarded))
    ensures WalkAll(to, us, ScopeAfter(t)) == ForwardReports(t, to, js, guarded)
    decreases |us|
  {
    hide StillOpen, ScopeAfter, AttachedTo;
    if us != [] {
      assert us[0] == Use(t[js[0]].from, AttachedTo(t, js[0], guarded));
      JumpReported(t, to, t[js[0]].from, js[0], guarded);
      JumpsReported(t, to, us[1..], js[1..], guarded);
    }
  }

  /** Over every run, the code reports exactly what the rules say: jumps back
      into a try or catch block that has been left, and forward jumps into one
      that is not around the scope they are held to. */
  lemma {:induction false} ReportsExactly(t: seq<Event>, guarded: bool)
    requires Possible(t)
    ensures Run(t, guarded).errors == Reported(t, guarded)
  {
    hide Knows, StillOpen, ScopeAfter, Left;
    if t != [] {
      var before := t[..|t| - 1];
      ReportsExactly(before, guarded);
      match t[|t| - 1]
      case Push(_) =>
      case Pop =>
      case Jump(from, to) => EntriesKnow(before, to, guarded); JumpBackReported(before, from, to, guarded);
      case Define(to) => EntriesKnow(before, to, guarded); DefineReported(before, to, guarded);
    }
  }

  lemma JumpBackReported(t: seq<Event>, from: nat, to: Target, guarded: bool)
    requires Possible(t) && Knows(t, to, Lookup(Run(t, guarded).labels, to), guarded)
    ensures Step(Run(t, guarded), Jump(from, to), guarded).errors == Run(t, guarded).errors +
      if Define(to) in t then BackwardReport(from, ScopeAfter(t[..DefinedAt(t, to)]), ScopeAfter(t)) else []
  {
    hide StillOpen, Left, JumpsTo;
  }

  lemma DefineReported(t: seq<Event>, to: Target, guarded: bool)
    requires Possible(t) && Knows(t, to, Lookup(Run(t, guarded).labels, to), guarded) && Define(to) !in t
    ensures Step(Run(t, guarded), Define(to), guarded).errors ==
      Run(t, guarded).errors + ForwardReports(t, to, JumpsTo(t, to), guarded)
  {
    hide StillOpen, AttachedTo;
    JumpsReported(t, to, Lookup(Run(t, guarded).labels, to).fwdrefs, JumpsTo(t, to), guarded);
  }

  /** A label's level is the deepest level of its definition still open. */
  lemma LevelIsDeepestOpen(t: seq<Event>, to: Target, guarded: bool)
    requires Possible(t) && Define(to) in t
    ensures var was, now := ScopeAfter(t[..DefinedAt(t, to)]), ScopeAfter(t);
      var level := Lookup(Run(t, guarded).labels, to).level;
      && level <= was && level <= now
      && (forall i :: |level| <= i < |was| ==> was[i] !in now)
  {
    EntriesKnow(t, to, guarded);
    ScopesShare(t, DefinedAt(t, to));
  }

  /** A jump made in scope g enters a try or catch block. */
  predicate Enters(at: Scope, g: Scope) {
    exists i :: 0 <= i < |at| && at[i] !in g && (at[i].kind == TryLevel || at[i].kind == CatchLevel)
  }

  lemma {:induction false} EnteredReportsIff(to: Target, from: nat, at: Scope, g: Scope)
    ensures Entered(to, from, at, g) != [] <==> Enters(at, g)
    decreases |at|
  {
    if at != [] {
      var last := at[|at| - 1];
      var rest := at[..|at| - 1];
      EnteredReportsIff(to, from, rest, g);
      if Enters(at, g) {
        var i :| 0 <= i < |at| && at[i] !in g && (at[i].kind == TryLevel || at[i].kind == CatchLevel);
        if i < |rest| { assert rest[i] == at[i]; }
      }
      if Enters(rest, g) {
        var i :| 0 <= i < |rest| && rest[i] !in g && (rest[i].kind == TryLevel || rest[i].kind == CatchLevel);
        assert at[i] == rest[i];
      }
    }
  }

  /** Level i of `at` is a try or catch block that a jump made in scope g enters. */
  predicate EntersAt(at: Scope, g: Scope, i: nat) {
    i < |at| && at[i] !in g && (at[i].kind == TryLevel || at[i].kind == CatchLevel)
  }

  /** For a label the report names the jump and the kind of block, for a switch
      label it names the label. */
  predicate Tells(e: Error, to: Target, from: nat, kind: LevelKind) {
    match to.kind
    case LabelTarget => e == if kind == TryLevel then IntoTry(from) else IntoCatch(from)
    case CaseTarget => e == CaseAcrossTry(to.stmt)
    case DefaultTarget => e == DefaultAcrossTry(to.stmt)
  }

  /** One report for each of these levels, in this order. */
  ghost predicate OneEach(r: seq<Error>, levels: seq<nat>, to: Target, from: nat, at: Scope, g: Scope) {
    && |r| == |levels|
    && forall n :: 0 <= n < |r| ==> EntersAt(at, g, levels[n]) && Tells(r[n], to, from, at[levels[n]].kind)
  }

  /** There is exactly one report for each try or catch level entered, the
      innermost first. */
  lemma {:induction false} EnteredReportsEach(to: Target, from: nat, at: Scope, g: Scope) returns (levels: seq<nat>)
    ensures OneEach(Entered(to, from, at, g), levels, to, from, at, g)
    ensures forall n, m :: 0 <= n < m < |levels| ==> levels[n] > levels[m]
    ensures forall i: nat :: EntersAt(at, g, i) ==> i in levels
    decreases |at|
  {
    levels := [];
    if at != [] {
      hide OneEach, Entered, Report;
      var n := |at| - 1;
      var outer := EnteredReportsEach(to, from, at[..n], g);
      var r := Entered(to, from, at[..n], g);
      SeenInside(r, outer, to, from, at, g);
      EnteredInnermost(to, from, at, g);
      if EntersAt(at, g, n) {
        levels := [n] + outer;
        OneMore(r, outer, to, from, at, g);
      } else {
        levels := outer;
        NoneThere(to, from, at, g);
        assert [] + r == r;
      }
      forall i: nat | EntersAt(at, g, i) ensures i in levels {
        if i < n { assert EntersAt(at[..n], g, i); }
      }
    }
  }

  lemma OneMore(r: seq<Error>, levels: seq<nat>, to: Target, from: nat, at: Scope, g: Scope)
    requires at != [] && EntersAt(at, g, |at| - 1) && OneEach(r, levels, to, from, at, g)
    ensures OneEach(Report(to, from, at[|at| - 1]) + r, [|at| - 1] + levels, to, from, at, g)
  {
  }

  lemma NoneThere(to: Target, from: nat, at: Scope, g: Scope)
    requires at != [] && !EntersAt(at, g, |at| - 1)
    ensures at[|at| - 1] in g || Report(to, from, at[|at| - 1]) == []
  {
  }

  lemma SeenInside(r: seq<Error>, levels: seq<nat>, to: Target, from: nat, at: Scope, g: Scope)
    requires at != [] && OneEach(r, levels, to, from, at[..|at| - 1], g)
    ensures OneEach(r, levels, to, from, at, g) && forall n :: 0 <= n < |levels| ==> levels[n] < |at| - 1
  {
    forall n | 0 <= n < |r|
      ensures EntersAt(at, g, levels[n]) && Tells(r[n], to, from, at[levels[n]].kind) && levels[n] < |at| - 1
    {
      assert EntersAt(at[..|at| - 1], g, levels[n]);
    }
  }

  predicate EntersKind(at: Scope, g: Scope, kind: LevelKind) {
    exists i :: 0 <= i < |at| && at[i] !in g && at[i].kind == kind
  }

  /** For a label the report names the jump and tells try blocks from catch
      blocks; for a switch label it names the label. */
  lemma {:induction false} EnteredTellsKind(to: Target, from: nat, at: Scope, g: Scope)
    ensures var r := Entered(to, from, at, g);
      && (to.kind == LabelTarget ==>
            && (IntoTry(from) in r <==> EntersKind(at, g, TryLevel))
            && (IntoCatch(from) in r <==> EntersKind(at, g, CatchLevel))
            && forall e :: e in r ==> e == IntoTry(from) || e == IntoCatch(from))
      && (to.kind == CaseTarget ==> forall e :: e in r ==> e == CaseAcrossTry(to.stmt))
      && (to.kind == DefaultTarget ==> forall e :: e in r ==> e == DefaultAcrossTry(to.stmt))
    decreases |at|
  {
    if at != [] {
      var rest := at[..|at| - 1];
      EnteredTellsKind(to, from, rest, g);
      EntersInside(at, g, TryLevel);
      EntersInside(at, g, CatchLevel);
    }
  }

  lemma EntersInside(at: Scope, g: Scope, kind: LevelKind)
    requires at != []
    ensures EntersKind(at, g, kind) <==>
      EntersKind(at[..|at| - 1], g, kind) || (at[|at| - 1] !in g && at[|at| - 1].kind == kind)
  {
    var rest := at[..|at| - 1];
    if EntersKind(rest, g, kind) {
      var i :| 0 <= i < |rest| && rest[i] !in g && rest[i].kind == kind;
      assert at[i] == rest[i];
    }
    if EntersKind(at, g, kind) {
      var i :| 0 <= i < |at| && at[i] !in g && at[i].kind == kind;
      if i < |rest| { assert rest[i] == at[i]; }
    }
  }

  /** As written, a pending jump is reported less: every report is one the
      guarded code makes, and those missing are for the try and catch blocks
      entered before the last pop since the jump. */
  lemma {:induction false} MissedReports(t: seq<Event>, to: Target, from: nat, g: nat)
    requires Possible(t) && g <= |t|
    ensures var at, was, held := ScopeAfter(t), ScopeAfter(t[..g]), ScopeAfter(t[..HeldTo(t, g, false)]);
      Entered(to, from, at, was) == Entered(to, from, at, held) + Entered(to, from, held, was)
  {
    hide StillOpen, ScopeAfter, Entered;
    var q := HeldTo(t, g, false);
    var at, was, held := ScopeAfter(t), ScopeAfter(t[..g]), ScopeAfter(t[..q]);
    HeldToIsOpen(t, g);
    ScopesShare(t, q);
    ScopesShare(t, g);
    IdsGrow(t);
    if q == g {
      WithinOwnScope(to, from, was);
    } else {
      assert t[..q][..g] == t[..g];
      ScopesShare(t[..q], g);
      PopKeepsInside(t, g, q);
      assert at[..|at|] == at;
      EnteredSplits(to, from, at, was, held, |at|);
    }
  }

  lemma WithinOwnScope(to: Target, from: nat, g: Scope)
    ensures Entered(to, from, g, g) == []
  {
    NoneEntered(to, from, g, g);
  }

  /** What is new since a later scope is also new since an earlier one. */
  lemma PopKeepsInside(t: seq<Event>, g: nat, q: nat)
    requires Possible(t) && g <= q <= |t| && ScopeAfter(t[..q]) <= ScopeAfter(t)
    ensures forall j :: |ScopeAfter(t[..q])| <= j < |ScopeAfter(t)| ==> ScopeAfter(t)[j] !in ScopeAfter(t[..g])
  {
    hide ScopeAfter, Shared;
    var at, held, was := ScopeAfter(t), ScopeAfter(t[..q]), ScopeAfter(t[..g]);
    assert t[..q][..g] == t[..g];
    ScopesShare(t, q);
    ScopesShare(t[..q], g);
    IdsGrow(t[..g]);
    forall j | |held| <= j < |at| ensures at[j] !in was {
      NewSince(t, q, j);
    }
  }

  /** A level inside a scope of the past was pushed after it. */
  lemma {:induction false} NewSince(t: seq<Event>, q: nat, j: nat)
    requires Possible(t) && q <= |t| && ScopeAfter(t[..q]) <= ScopeAfter(t)
      && |ScopeAfter(t[..q])| <= j < |ScopeAfter(t)|
    ensures ScopeAfter(t)[j].id > Pushes(t[..q])
    decreases |t|
  {
    assert t[..|t|] == t;
    if q < |t| {
      var before := t[..|t| - 1];
      assert before[..q] == t[..q];
      ScopesShare(before, q);
      var held, mid, now := ScopeAfter(t[..q]), ScopeAfter(before), ScopeAfter(t);
      if j < |mid| {
        assert now[j] == mid[j] && held == now[..|held|] == mid[..|held|];
        NewSince(before, q, j);
      }
    }
  }

  lemma EnteredInnermost(to: Target, from: nat, at: Scope, g: Scope)
    requires at != []
    ensures Entered(to, from, at, g) ==
      (if at[|at| - 1] !in g then Report(to, from, at[|at| - 1]) else []) + Entered(to, from, at[..|at| - 1], g)
  {
  }

  lemma {:induction false} EnteredSplits(to: Target, from: nat, at: Scope, was: Scope, held: Scope, r: nat)
    requires held <= at && |held| <= r <= |at|
    requires forall i, j :: 0 <= i < j < |at| ==> at[i].id < at[j].id
    requires forall j :: |held| <= j < |at| ==> at[j] !in was
    ensures Entered(to, from, at[..r], was) == Entered(to, from, at[..r], held) + Entered(to, from, held, was)
    decreases r
  {
    hide Entered, Report;
    var outer := Entered(to, from, held, was);
    if r == |held| {
      assert at[..r] == held;
      WithinOwnScope(to, from, held);
      assert [] + outer == outer;
    } else {
      var l := at[r - 1];
      var upTo := at[..r - 1];
      assert at[..r][..r - 1] == upTo && at[..r][r - 1] == l;
      EnteredSplits(to, from, at, was, held, r - 1);
      assert l !in held;
      EnteredInnermost(to, from, at[..r], was);
      EnteredInnermost(to, from, at[..r], held);
      var inner := Entered(to, from, upTo, held);
      assert Report(to, from, l) + (inner + outer) == (Report(to, from, l) + inner) + outer;
    }
  }

  /** As written, a forward jump is checked completely if and only if it had
      entered no try or catch block when a level was last left. */
  lemma ForwardCompleteIff(t: seq<Event>, to: Target, from: nat, g: nat)
    requires Possible(t) && g <= |t|
    ensures var at, was, held := ScopeAfter(t), ScopeAfter(t[..g]), ScopeAfter(t[..HeldTo(t, g, false)]);
      Entered(to, from, at, held) == Entered(to, from, at, was) <==> !Enters(held, was)
  {
    MissedReports(t, to, from, g);
    EnteredReportsIff(to, from, ScopeAfter(t[..HeldTo(t, g, false)]), ScopeAfter(t[..g]));
  }

  /** None of these pending jumps had entered a try or catch block when a level
      was last left. */
  predicate NoneInside(t: seq<Event>, js: seq<nat>)
    requires forall n :: 0 <= n < |js| ==> js[n] < |t|
  {
    forall n :: 0 <= n < |js| ==> !Enters(ScopeAfter(t[..HeldTo(t, js[n], false)]), ScopeAfter(t[..js[n]]))
  }

  /** So it is at every label that the run defines. */
  predicate NeverInside(t: seq<Event>) {
    t == [] ||
    var before := t[..|t| - 1];
    NeverInside(before) && (t[|t| - 1].Define? ==> NoneInside(before, JumpsTo(before, t[|t| - 1].to)))
  }

  lemma {:induction false} ForwardMissed(t: seq<Event>, to: Target, js: seq<nat>)
    requires Possible(t) && forall n :: 0 <= n < |js| ==> js[n] < |t| && t[js[n]].Jump?
    ensures |ForwardReports(t, to, js, false)| <= |ForwardReports(t, to, js, true)|
    ensures |ForwardReports(t, to, js, false)| == |ForwardReports(t, to, js, true)| ==> NoneInside(t, js)
    ensures NoneInside(t, js) ==> ForwardReports(t, to, js, false) == ForwardReports(t, to, js, true)
    decreases |js|
  {
    hide ScopeAfter, Entered, Enters;
    if js != [] {
      var rest := js[1..];
      var from, was, held := t[js[0]].from, ScopeAfter(t[..js[0]]), ScopeAfter(t[..HeldTo(t, js[0], false)]);
      ForwardMissed(t, to, rest);
      MissedReports(t, to, from, js[0]);
      EnteredReportsIff(to, from, held, was);
      assert HeldTo(t, js[0], true) == js[0];
      if !Enters(held, was) && NoneInside(t, rest) {
        forall n | 0 <= n < |js| ensures !Enters(ScopeAfter(t[..HeldTo(t, js[n], false)]), ScopeAfter(t[..js[n]])) {
          if n > 0 { assert rest[n - 1] == js[n]; }
        }
      }
      if NoneInside(t, js) {
        forall n | 0 <= n < |rest|
          ensures !Enters(ScopeAfter(t[..HeldTo(t, rest[n], false)]), ScopeAfter(t[..rest[n]]))
        {
          assert rest[n] == js[n + 1];
        }
        assert Entered(to, from, ScopeAfter(t), held) + [] == Entered(to, from, ScopeAfter(t), held);
      }
    }
  }

  lemma {:induction false} RunMissed(t: seq<Event>)
    requires Possible(t)
    ensures |Reported(t, false)| <= |Reported(t, true)|
    ensures |Reported(t, false)| == |Reported(t, true)| ==> NeverInside(t)
    ensures NeverInside(t) ==> Reported(t, false) == Reported(t, true)
  {
    hide ScopeAfter, ForwardReports, NoneInside, JumpsTo;
    if t != [] {
      var before := t[..|t| - 1];
      RunMissed(before);
      if t[|t| - 1].Define? {
        ForwardMissed(before, t[|t| - 1].to, JumpsTo(before, t[|t| - 1].to));
      }
    }
  }

  /** Over a whole run the code as written and the guarded code report the same
      if and only if no jump to a label had entered a try or catch block when a
      level was last left before the label. */
  lemma SameReportsIff(t: seq<Event>)
    requires Possible(t)
    ensures Run(t, false).errors == Run(t, true).errors <==> NeverInside(t)
  {
    hide Run, Reported, NeverInside;
    ReportsExactly(t, false);
    ReportsExactly(t, true);
    RunMissed(t);
  }

  const Label7 := Target(7, LabelTarget)
  const Inside := [Jump(1, Label7), Push(TryLevel), Push(BlockLevel)]

  /** goto L; try { { } L: } -- the jump enters the try block, and as written
      nothing is reported: leaving the inner block has moved it into the try
      level. */
  lemma JumpIntoTryMissed()
    ensures var t := Inside + [Pop, Define(Label7)];
      Possible(t) && Run(t, false).errors == [] && Run(t, true).errors == [IntoTry(1)]
  {
    hide Run, ScopeAfter, ForwardReports;
    var t := Inside + [Pop, Define(Label7)];
    InsidePrefixes();
    InsideScopes();
    assert t[..4] == Inside4 && t[4] == Define(Label7) && Define(Label7) !in Inside4;
    forall guarded ensures Reported(t, guarded) == if guarded then [IntoTry(1)] else [] {
      InsideJumps(guarded);
      InsideReports(guarded);
    }
    assert Possible(t);
    ReportsExactly(t, false);
    ReportsExactly(t, true);
  }

  const Inside1 := [Jump(1, Label7)]
  const Inside2 := [Jump(1, Label7), Push(TryLevel)]
  const Inside4 := [Jump(1, Label7), Push(TryLevel), Push(BlockLevel), Pop]

  lemma InsidePrefixes()
    ensures Inside1[..0] == [] && Inside2[..1] == Inside1 && Inside[..2] == Inside2 && Inside4[..3] == Inside
    ensures Inside4 == Inside + [Pop] && Inside4[..0] == [] && Inside4[..4] == Inside4
  {
  }

  lemma InsideScopes()
    ensures Possible(Inside4)
    ensures ScopeAfter([]) == [Level(0, FunctionLevel)]
    ensures ScopeAfter(Inside4) == [Level(0, FunctionLevel), Level(1, TryLevel)]
  {
    InsidePrefixes();
    assert ScopeAfter(Inside1) == [Level(0, FunctionLevel)] && Pushes(Inside1) == 0 && Possible(Inside1);
    assert ScopeAfter(Inside2) == [Level(0, FunctionLevel), Level(1, TryLevel)] && Pushes(Inside2) == 1
      && Possible(Inside2);
    assert ScopeAfter(Inside) == [Level(0, FunctionLevel), Level(1, TryLevel), Level(2, BlockLevel)]
      && Possible(Inside);
  }

  lemma InsideJumps(guarded: bool)
    ensures JumpsTo(Inside4, Label7) == [0]
    ensures Reported(Inside4, guarded) == []
    ensures HeldTo(Inside4, 0, guarded) == if guarded then 0 else 4
  {
    InsidePrefixes();
    assert JumpsTo(Inside1, Label7) == [0];
    assert Inside1[..|Inside1| - 1] == [] && Reported([], guarded) == [] && Reported(Inside1, guarded) == [];
    assert JumpsTo(Inside2, Label7) == [0] && Reported(Inside2, guarded) == [];
    assert JumpsTo(Inside, Label7) == [0] && Reported(Inside, guarded) == [];
  }

  lemma InsideReports(guarded: bool)
    ensures ForwardReports(Inside4, Label7, [0], guarded) == if guarded then [IntoTry(1)] else []
  {
    hide ScopeAfter, HeldTo;
    InsidePrefixes();
    InsideScopes();
    InsideJumps(guarded);
    var at := ScopeAfter(Inside4);
    assert at[..1] == [Level(0, FunctionLevel)];
    WithinOwnScope(Label7, 1, at);
    WithinOwnScope(Label7, 1, at[..1]);
    assert Entered(Label7, 1, at, at[..1]) == [IntoTry(1)];
  }
}
