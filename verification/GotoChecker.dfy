/** The checks as the code makes them: a current level, a table of labels that
    is updated in place, and errors reported along the way. */
module GotoCheckers {
  import opened BindingLevels
  import opened GotoRules

  class GotoChecker {
    var current: Scope
    var pushed: nat
    var labels: map<Target, Entry>
    var errors: seq<Error>
    const guarded: bool   // as written, false

    /** The abstract state. */
    ghost function Now(): State
      reads this
    {
      State(current, pushed, labels, errors)
    }

    /** Just inside the level of a function. */
    constructor (guarded: bool)
      ensures Now() == Start && this.guarded == guarded
    {
      this.guarded := guarded;
      current, pushed, labels, errors := [Level(0, FunctionLevel)], 1, map[], [];
    }

    method PushBindingLevel(kind: LevelKind)
      modifies this`current, this`pushed
      ensures Now() == Step(old(Now()), Push(kind), guarded)
    {
      current, pushed := current + [Level(pushed, kind)], pushed + 1;
    }

    /** Update one label for the closing of level bl. */
    method PopBindingLabel(e: Entry, bl: Scope) returns (r: Entry)
      requires bl != []
      ensures r == PopEntry(e, bl, guarded)
    {
      var outer := bl[..|bl| - 1];
      r := e;
      if e.level == bl {
        var kind := bl[|bl| - 1].kind;
        if kind == TryLevel {
          r := r.(inTry := true);
        } else if kind == CatchLevel {
          r := r.(inCatch := true);
        }
        r := r.(level := outer);
      } else {
        var us: seq<Use> := [];
        var i := 0;
        while i < |e.fwdrefs|
          invariant i == |us| <= |e.fwdrefs|
          invariant us == PopUses(e.fwdrefs, bl, guarded)[..i]
        {
          var u := e.fwdrefs[i];
          if !guarded || u.level == bl {
            u := u.(level := outer);
          }
          assert u == PopUses(e.fwdrefs, bl, guarded)[i];
          us := us + [u];
          i := i + 1;
        }
        r := r.(fwdrefs := us);
      }
    }

    method PopBindingLevel()
      requires current != []
      modifies this`current, this`labels
      ensures Now() == Step(old(Now()), Pop, guarded)
    {
      var bl := current;
      current := bl[..|bl| - 1];
      var todo := labels.Keys;
      while todo != {}
        invariant current == bl[..|bl| - 1] && todo <= labels.Keys == old(labels).Keys
        invariant forall t :: t in labels ==>
          labels[t] == if t in todo then old(labels)[t] else PopEntry(old(labels)[t], bl, guarded)
      {
        var t :| t in todo;
        var e := PopBindingLabel(labels[t], bl);
        labels := labels[t := e];
        todo := todo - {t};
      }
      assert labels == Step(old(Now()), Pop, guarded).labels;
    }

    /** A jump at `from` to a label: defer the check if it is not defined yet. */
    method CheckGoto(from: nat, to: Target)
      modifies this`labels, this`errors
      ensures Now() == Step(old(Now()), Jump(from, to), guarded)
    {
      var e := Lookup(labels, to);
      if !e.defined {
        labels := labels[to := e.(fwdrefs := [Use(from, current)] + e.fwdrefs)];
        return;
      }
      labels := labels[to := e];
      if e.inTry {
        errors := errors + [IntoTry(from)];
      } else if e.inCatch {
        errors := errors + [IntoCatch(from)];
      }
    }

    /** Check a previous jump to a label that is being defined here. */
    method CheckPreviousGoto(to: Target, use: Use)
      modifies this`errors
      ensures errors == old(errors) + Walk(to, use.from, current, use.level)
    {
      hide Walk;
      var b := current;
      ghost var done: seq<Error> := [];
      while b != []
        invariant errors == old(errors) + done
        invariant done + Walk(to, use.from, b, use.level) == Walk(to, use.from, current, use.level)
        decreases |b|
      {
        WalkOne(to, use.from, b, use.level);
        if b == use.level {
          break;
        }
        var l := b[|b| - 1];
        ghost var rest := Walk(to, use.from, b[..|b| - 1], use.level);
        ghost var report := Report(to, use.from, l);
        assert (done + report) + rest == done + (report + rest);
        if l.kind == TryLevel || l.kind == CatchLevel {
          var error := match to.kind
            case LabelTarget => if l.kind == TryLevel then IntoTry(use.from) else IntoCatch(use.from)
            case CaseTarget => CaseAcrossTry(to.stmt)
            case DefaultTarget => DefaultAcrossTry(to.stmt);
          errors := errors + [error];
        }
        done := done + report;
        b := b[..|b| - 1];
      }
      WalkOne(to, use.from, b, use.level);
    }

    method DefineLabel(to: Target)
      requires !Lookup(labels, to).defined
      modifies this`labels, this`errors
      ensures Now() == Step(old(Now()), Define(to), guarded)
    {
      hide Walk, WalkAll;
      var e := Lookup(labels, to);
      var i := 0;
      ghost var done: seq<Error> := [];
      assert e.fwdrefs[0..] == e.fwdrefs;
      while i < |e.fwdrefs|
        invariant i <= |e.fwdrefs| && labels == old(labels)
        invariant errors == old(errors) + done
        invariant done + WalkAll(to, e.fwdrefs[i..], current) == WalkAll(to, e.fwdrefs, current)
      {
        ghost var step := Walk(to, e.fwdrefs[i].from, current, e.fwdrefs[i].level);
        assert e.fwdrefs[i..][1..] == e.fwdrefs[i + 1..];
        WalkMany(to, e.fwdrefs[i..], current);
        CheckPreviousGoto(to, e.fwdrefs[i]);
        done := done + step;
        i := i + 1;
      }
      WalkMany(to, [], current);
      assert e.fwdrefs[i..] == [] && done + [] == done;
      assert errors == old(errors) + WalkAll(to, e.fwdrefs, current);
      labels := labels[to := e.(defined := true, level := current, fwdrefs := [])];
    }

    method Handle(e: Event)
      requires e.Pop? ==> current != []
      requires e.Define? ==> !Lookup(labels, e.to).defined
      modifies this`current, this`pushed, this`labels, this`errors
      ensures Now() == Step(old(Now()), e, guarded)
    {
      hide Step, Lookup;
      match e {
        case Push(k) => PushBindingLevel(k);
        case Pop => PopBindingLevel();
        case Jump(from, to) => CheckGoto(from, to);
        case Define(to) => DefineLabel(to);
      }
    }
  }

  lemma WalkOne(to: Target, from: nat, at: Scope, stop: Scope)
    ensures Walk(to, from, at, stop) ==
      if at == [] || at == stop then [] else Report(to, from, at[|at| - 1]) + Walk(to, from, at[..|at| - 1], stop)
  {
  }

  lemma WalkMany(to: Target, us: seq<Use>, at: Scope)
    ensures WalkAll(to, us, at) == if us == [] then []
      else Walk(to, us[0].from, at, us[0].level) + WalkAll(to, us[1..], at)
  {
  }

  /** Any run of the checker reports what the rules say of its events. */
  method CheckRun(t: seq<Event>, guarded: bool) returns (errors: seq<Error>)
    requires Possible(t)
    ensures errors == Reported(t, guarded)
  {
    hide Step, ScopeAfter;
    var c := new GotoChecker(guarded);
    var i := 0;
    while i < |t|
      invariant i <= |t| && Possible(t[..i]) && c.guarded == guarded && fresh(c)
      invariant c.Now() == Run(t[..i], guarded)
      decreases |t| - i
    {
      PossiblePrefix(t, i + 1);
      assert t[..i + 1][..i] == t[..i];
      IdsGrow(t[..i]);
      if t[i].Define? { EntriesKnow(t[..i], t[i].to, guarded); }
      c.Handle(t[i]);
      i := i + 1;
    }
    assert t[..|t|] == t;
    ReportsExactly(t, guarded);
    errors := c.errors;
  }

  lemma PossiblePrefix(t: seq<Event>, i: nat)
    requires Possible(t) && i <= |t|
    ensures Possible(t[..i])
  {
    ScopesShare(t, i);
  }
}
