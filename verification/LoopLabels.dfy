/** Which labels and gotos the generated code contains: labels carry the keys of
    the statement they were generated for, and every goto is noted as a use. */
module LoopLabels {
  import opened Options
  import S = Statements
  import opened G = Generic
  import opened LoopLowering

  predicate LabelsFrom(ts: seq<Tree>, keys: set<S.Id>) {
    forall l :: l in LabelsIn(ts) ==> l.UserLabel? || l.key in keys
  }

  /** Labels carry keys of the statement they were generated for, and every
      goto is noted as a use. */
  predicate Tidy(c: Code, keys: set<S.Id>, used: set<Label>) {
    LabelsFrom(c.trees, keys) && GotosIn(c.trees) <= c.used && used <= c.used
  }

  lemma LabelsOfNothing()
    ensures LabelsIn([]) == multiset{} && GotosIn([]) == {}
  {
  }

  lemma LabelsOfDoLabel(l: Label, used: set<Label>)
    ensures LabelsIn(DoLabel(l, used)) == (if l in used then multiset{l} else multiset{})
      && GotosIn(DoLabel(l, used)) == {}
  {
    LabelsOne(Mark(l));
  }

  lemma LabelsOfThenLabel(c: Code, l: Label)
    ensures LabelsIn(ThenLabel(c, l).trees) == LabelsIn(c.trees) + (if l in c.used then multiset{l} else multiset{})
    ensures GotosIn(ThenLabel(c, l).trees) == GotosIn(c.trees)
  {
    hide LabelsIn, GotosIn;
    LabelsAppend(c.trees, DoLabel(l, c.used));
    LabelsOfDoLabel(l, c.used);
  }

  lemma LabelsOfExit(e: Expr, lbreak: Label)
    ensures LabelsIn(ExitUnless(e, lbreak)) == multiset{} && GotosIn(ExitUnless(e, lbreak)) == {lbreak}
  {
    LabelsOne(Goto(lbreak));
    LabelsOne(Cond(e, [], [Goto(lbreak)]));
  }

  lemma LabelsOfEmitOpt(e: Option<Expr>)
    ensures LabelsIn(EmitOpt(e)) == multiset{} && GotosIn(EmitOpt(e)) == {}
  {
    if e.Some? { LabelsOne(Eval(e.value)); }
  }

  lemma LabelsOfEmit(t: Tree)
    ensures LabelsIn(Emit(t)) == Labels(t) && GotosIn(Emit(t)) == Gotos(t)
  {
    LabelsOne(t);
  }

  lemma LabelsOfLoop(body: seq<Tree>, lbreak: Label, used: set<Label>)
    ensures var c := ThenLabel(Code([Loop(body)], used), lbreak);
      && LabelsIn(c.trees) == LabelsIn(body) + (if lbreak in used then multiset{lbreak} else multiset{})
      && GotosIn(c.trees) == GotosIn(body)
  {
    hide LabelsIn, GotosIn;
    LabelsOne(Loop(body));
    LabelsOfThenLabel(Code([Loop(body)], used), lbreak);
  }

  lemma LabelsOfBodyDo(body: seq<Tree>, e: Expr, lbreak: Label)
    ensures LabelsIn(body + ExitUnless(e, lbreak)) == LabelsIn(body)
    ensures GotosIn(body + ExitUnless(e, lbreak)) == GotosIn(body) + {lbreak}
  {
    hide LabelsIn, GotosIn;
    LabelsOfExit(e, lbreak);
    LabelsAppend(body, ExitUnless(e, lbreak));
  }

  lemma LabelsOfBodyFor(body: seq<Tree>, s: S.Stmt)
    requires s.For?
    ensures LabelsIn(TestOf(s) + (body + EmitOpt(s.increment))) == LabelsIn(body)
    ensures GotosIn(TestOf(s) + (body + EmitOpt(s.increment))) ==
      GotosIn(body) + (if s.test.Some? then {BreakLabel(S.RelatedId(s))} else {})
  {
    hide LabelsIn, GotosIn;
    LabelsOfNothing();
    LabelsOfEmitOpt(s.increment);
    if s.test.Some? { LabelsOfExit(s.test.value, BreakLabel(S.RelatedId(s))); }
    LabelsAppend(body, EmitOpt(s.increment));
    LabelsAppend(TestOf(s), body + EmitOpt(s.increment));
  }

  lemma LabelsOfBodyUnrolled(body: seq<Tree>, lbreak: Label)
    ensures LabelsIn(body + [Goto(lbreak)]) == LabelsIn(body)
    ensures GotosIn(body + [Goto(lbreak)]) == GotosIn(body) + {lbreak}
  {
    hide LabelsIn, GotosIn;
    LabelsOne(Goto(lbreak));
    LabelsAppend(body, [Goto(lbreak)]);
  }

  lemma TidyAppend(c: Code, d: Code, keys: set<S.Id>, keys': set<S.Id>, used: set<Label>)
    requires Tidy(c, keys, used) && Tidy(d, keys', c.used)
    ensures Tidy(Code(c.trees + d.trees, d.used), keys + keys', used)
  {
    hide LabelsIn, GotosIn;
    LabelsAppend(c.trees, d.trees);
  }

  lemma {:induction false} TidyLower(lt: S.LabelTable, s: S.Stmt, bl: Option<Label>, cl: Option<Label>,
      used: set<Label>)
    ensures Tidy(Lower(lt, s, bl, cl, used), S.Keys(s), used)
    decreases s, 1
  {
    hide LabelsIn, GotosIn, LowerSeq, LowerBody, LowerItems;
    match s
    case Null => LabelsOfNothing();
    case ExpStmt(e) => LabelsOfEmit(Eval(e));
    case Compound(ss) => TidySeq(lt, ss, bl, cl, used);
    case Scope(id, _, body) =>
      TidyLower(lt, body, bl, cl, used);
      LabelsOne(Bind(id, Lower(lt, body, bl, cl, used).trees));
    case If(_, _, _) => TidyIf(lt, s, bl, cl, used);
    case Do(_, _, _) => TidyDo(lt, s, used);
    case For(_, _, _, _, _) => TidyFor(lt, s, used);
    case Unrolled(_, _) => TidyUnrolled(lt, s, used);
    case Break(to) => TidyJump(BreakTarget(lt, bl, to), used);
    case Continue(to) => TidyJump(ContinueTarget(lt, cl, to), used);
    case Labelled(l, body) => TidyLabelled(lt, s, bl, cl, used);
    case Return(e) => LabelsOne(Ret(e));
    case TryFinally(_, _) => TidyTry(lt, s, bl, cl, used);
  }

  lemma TidyJump(target: Option<Label>, used: set<Label>)
    ensures Tidy(DoJump(target, used), {}, used)
  {
    LabelsOfNothing();
    if target.Some? { LabelsOne(Goto(target.value)); }
  }

  lemma {:induction false} TidyLabelled(lt: S.LabelTable, s: S.Stmt, bl: Option<Label>, cl: Option<Label>,
      used: set<Label>)
    requires s.Labelled?
    ensures Tidy(AfterMark(s.name, Lower(lt, s.target, bl, cl, used + {UserLabel(s.name)})), S.Keys(s.target), used)
    decreases s, 0
  {
    hide LabelsIn, GotosIn, Lower, S.Keys;
    var c := Lower(lt, s.target, bl, cl, used + {UserLabel(s.name)});
    TidyLower(lt, s.target, bl, cl, used + {UserLabel(s.name)});
    LabelsOne(Mark(UserLabel(s.name)));
    LabelsAppend([Mark(UserLabel(s.name))], c.trees);
  }

  lemma {:induction false} TidyIf(lt: S.LabelTable, s: S.Stmt, bl: Option<Label>, cl: Option<Label>, used: set<Label>)
    requires s.If?
    ensures Tidy(LowerIf(lt, s, bl, cl, used), S.Keys(s.ifbody) + S.Keys(s.elsebody), used)
    decreases s, 0
  {
    hide LabelsIn, GotosIn, Lower, S.Keys;
    TidyLower(lt, s.ifbody, bl, cl, used);
    var a := Lower(lt, s.ifbody, bl, cl, used);
    TidyLower(lt, s.elsebody, bl, cl, a.used);
    LabelsOfEmit(Cond(s.cond, a.trees, Lower(lt, s.elsebody, bl, cl, a.used).trees));
  }

  lemma {:induction false} TidyTry(lt: S.LabelTable, s: S.Stmt, bl: Option<Label>, cl: Option<Label>, used: set<Label>)
    requires s.TryFinally?
    ensures Tidy(LowerTry(lt, s, bl, cl, used), S.Keys(s.tryBody) + S.Keys(s.finalBody), used)
    decreases s, 0
  {
    hide LabelsIn, GotosIn, Lower, S.Keys;
    TidyLower(lt, s.tryBody, bl, cl, used);
    var a := Lower(lt, s.tryBody, bl, cl, used);
    TidyLower(lt, s.finalBody, bl, cl, a.used);
    LabelsOne(Tree.TryFinally(a.trees, Lower(lt, s.finalBody, bl, cl, a.used).trees));
  }

  lemma {:induction false} TidySeq(lt: S.LabelTable, ss: seq<S.Stmt>, bl: Option<Label>, cl: Option<Label>,
      used: set<Label>)
    ensures Tidy(LowerSeq(lt, ss, bl, cl, used), S.KeysOfSeq(ss), used)
    decreases ss, 0
  {
    hide LabelsIn, GotosIn, Lower, S.Keys;
    LabelsOfNothing();
    if ss != [] {
      TidyLower(lt, ss[0], bl, cl, used);
      var c := Lower(lt, ss[0], bl, cl, used);
      TidySeq(lt, ss[1..], bl, cl, c.used);
      TidyAppend(c, LowerSeq(lt, ss[1..], bl, cl, c.used), S.Keys(ss[0]), S.KeysOfSeq(ss[1..]), used);
    }
  }

  lemma {:induction false} TidyBody(lt: S.LabelTable, body: S.Stmt, at: S.Id, lbreak: Label, used: set<Label>)
    ensures var c := LowerBody(lt, body, at, lbreak, used);
      && Tidy(c, S.Keys(body) + (if body == S.Null then {} else {at}), used)
      && forall l :: l in LabelsIn(c.trees) && l.BreakLabel? ==> l.key in S.Keys(body)
    decreases body, 2
  {
    hide LabelsIn, GotosIn, Lower, S.Keys;
    LabelsOfNothing();
    if body != S.Null {
      TidyLower(lt, body, Some(lbreak), Some(ContinueLabel(at)), used);
      LabelsOfThenLabel(Lower(lt, body, Some(lbreak), Some(ContinueLabel(at)), used), ContinueLabel(at));
    }
  }

  lemma {:induction false} TidyDo(lt: S.LabelTable, s: S.Stmt, used: set<Label>)
    requires s.Do?
    ensures Tidy(LowerDo(lt, s, used), {s.id} + S.Keys(s.body), used)
    decreases s, 0
  {
    hide LabelsIn, GotosIn, LowerBody, S.Keys;
    var lbreak := BreakLabel(s.id);
    var c := LowerBody(lt, s.body, s.id, lbreak, used);
    TidyBody(lt, s.body, s.id, lbreak, used);
    LabelsOfBodyDo(c.trees, s.until, lbreak);
    LabelsOfLoop(c.trees + ExitUnless(s.until, lbreak), lbreak, c.used + {lbreak});
  }

  lemma {:induction false} TidyFor(lt: S.LabelTable, s: S.Stmt, used: set<Label>)
    requires s.For?
    ensures Tidy(LowerFor(lt, s, used), {S.RelatedId(s)} + S.Keys(s.body), used)
    decreases s, 0
  {
    hide LabelsIn, GotosIn, LowerBody, S.Keys;
    var lbreak := BreakLabel(S.RelatedId(s));
    var used1 := if s.test.Some? then used + {lbreak} else used;
    var c := LowerBody(lt, s.body, S.RelatedId(s), lbreak, used1);
    TidyBody(lt, s.body, S.RelatedId(s), lbreak, used1);
    LabelsOfBodyFor(c.trees, s);
    LabelsOfLoop(TestOf(s) + (c.trees + EmitOpt(s.increment)), lbreak, c.used);
  }

  lemma {:induction false} TidyUnrolled(lt: S.LabelTable, s: S.Stmt, used: set<Label>)
    requires s.Unrolled?
    ensures Tidy(LowerUnrolled(lt, s, used), {s.id} + S.KeysOfItems(s.items), used)
    decreases s, 0
  {
    hide LabelsIn, GotosIn, LowerItems, S.KeysOfItems;
    var lbreak := BreakLabel(s.id);
    var c := LowerItems(lt, s.items, lbreak, used);
    TidyItems(lt, s.items, lbreak, used);
    LabelsOfBodyUnrolled(c.trees, lbreak);
    LabelsOfLoop(c.trees + [Goto(lbreak)], lbreak, c.used + {lbreak});
  }

  lemma {:induction false} TidyItems(lt: S.LabelTable, ss: seq<S.Stmt>, lbreak: Label, used: set<Label>)
    ensures Tidy(LowerItems(lt, ss, lbreak, used), S.KeysOfItems(ss), used)
    decreases ss, 0
  {
    hide LabelsIn, GotosIn, LowerBody, S.Keys;
    LabelsOfNothing();
    if ss != [] {
      var at := S.RelatedId(ss[0]);
      TidyBody(lt, ss[0], at, lbreak, used);
      var c := LowerBody(lt, ss[0], at, lbreak, used);
      TidyItems(lt, ss[1..], lbreak, c.used);
      TidyAppend(c, LowerItems(lt, ss[1..], lbreak, c.used),
                 S.Keys(ss[0]) + (if ss[0] == S.Null then {} else {at}), S.KeysOfItems(ss[1..]), used);
    }
  }

  // ---------- User labels, and trees that do nothing ----------

  /** The labels written in s. */
  function UserLabels(s: S.Stmt): multiset<S.Ident>
    decreases s, 1
  {
    match s
    case Compound(ss) => UserLabelsOfSeq(ss)
    case Scope(_, _, body) => UserLabels(body)
    case If(_, a, b) => UserLabels(a) + UserLabels(b)
    case Do(_, body, _) => UserLabels(body)
    case For(_, _, _, _, body) => UserLabels(body)
    case Unrolled(_, items) => UserLabelsOfSeq(items)
    case Labelled(l, body) => multiset{l} + UserLabels(body)
    case TryFinally(a, b) => UserLabels(a) + UserLabels(b)
    case _ => multiset{}
  }

  function UserLabelsOfSeq(ss: seq<S.Stmt>): multiset<S.Ident>
    decreases ss, 0
  {
    if ss == [] then multiset{} else UserLabels(ss[0]) + UserLabelsOfSeq(ss[1..])
  }

  /** Nothing in the tree evaluates an expression for nothing. */
  predicate Busy(t: Tree)
    decreases t, 1
  {
    match t
    case Eval(e) => e.sideEffects
    case Cond(c, a, b) => (c.sideEffects || a != [] || b != []) && AllBusy(a) && AllBusy(b)
    case Loop(b) => AllBusy(b)
    case TryFinally(a, b) => AllBusy(a) && AllBusy(b)
    case Bind(_, b) => AllBusy(b)
    case _ => true
  }

  predicate AllBusy(ts: seq<Tree>)
    decreases ts, 0
  {
    ts == [] || (Busy(ts[0]) && AllBusy(ts[1..]))
  }

  /** Every user label is there as often as in the statement, and no tree does
      nothing. */
  ghost predicate Kept(ts: seq<Tree>, names: multiset<S.Ident>) {
    AllBusy(ts) && forall x: S.Ident :: LabelsIn(ts)[UserLabel(x)] == names[x]
  }

  lemma {:induction false} KeptAppend(a: seq<Tree>, b: seq<Tree>, m: multiset<S.Ident>, n: multiset<S.Ident>)
    requires Kept(a, m) && Kept(b, n)
    ensures Kept(a + b, m + n)
  {
    hide LabelsIn;
    LabelsAppend(a, b);
    BusyAppend(a, b);
  }

  lemma KeptBeside(a: seq<Tree>, b: seq<Tree>, names: multiset<S.Ident>)
    requires Kept(a, names) && Kept(b, multiset{})
    ensures Kept(a + b, names) && Kept(b + a, names)
  {
    hide Kept;
    KeptAppend(a, b, names, multiset{});
    KeptAppend(b, a, multiset{}, names);
    assert names + multiset{} == names && multiset{} + names == names;
  }

  lemma {:induction false} BusyAppend(a: seq<Tree>, b: seq<Tree>)
    requires AllBusy(a) && AllBusy(b)
    ensures AllBusy(a + b)
  {
    if a == [] {
      assert a + b == b;
    } else {
      assert (a + b)[0] == a[0] && (a + b)[1..] == a[1..] + b;
      BusyAppend(a[1..], b);
    }
  }

  /** A tree that is added, unless it would do nothing. */
  lemma KeptEmit(t: Tree, names: multiset<S.Ident>)
    requires SideEffects(t) ==> Busy(t)
    requires forall x: S.Ident :: Labels(t)[UserLabel(x)] == names[x]
    ensures Kept(Emit(t), names)
  {
    LabelsOfEmit(t);
  }

  lemma KeptThenLabel(c: Code, l: Label, names: multiset<S.Ident>)
    requires Kept(c.trees, names) && !l.UserLabel?
    ensures Kept(ThenLabel(c, l).trees, names)
  {
    hide LabelsIn;
    var mark := DoLabel(l, c.used);
    LabelsOfDoLabel(l, c.used);
    assert AllBusy(mark);
    KeptBeside(c.trees, mark, names);
  }

  lemma KeptExit(e: Expr, lbreak: Label)
    ensures Kept(ExitUnless(e, lbreak), multiset{})
  {
    var t := Cond(e, [], [Goto(lbreak)]);
    assert [Goto(lbreak)][1..] == [];
    LabelsOne(Goto(lbreak));
    KeptEmit(t, multiset{});
  }

  lemma KeptOne(t: Tree, names: multiset<S.Ident>)
    requires Busy(t) && forall x: S.Ident :: Labels(t)[UserLabel(x)] == names[x]
    ensures Kept([t], names)
  {
    LabelsOne(t);
  }

  /** Whatever is lowered, its user labels stay, and no tree does nothing. */
  lemma {:induction false} LoweringKeeps(lt: S.LabelTable, s: S.Stmt, bl: Option<Label>, cl: Option<Label>,
      used: set<Label>)
    ensures Kept(Lower(lt, s, bl, cl, used).trees, UserLabels(s))
    decreases s, 1
  {
    hide LabelsIn, AllBusy, Kept, LowerBody, LowerItems;
    KeptNothing();
    match s
    case Null =>
    case ExpStmt(e) => KeptEmit(Eval(e), multiset{});
    case Compound(ss) => KeepsSeq(lt, ss, bl, cl, used);
    case Scope(id, _, body) =>
      LoweringKeeps(lt, body, bl, cl, used);
      KeptBind(id, Lower(lt, body, bl, cl, used).trees, UserLabels(body));
    case If(_, _, _) => KeepsIf(lt, s, bl, cl, used);
    case Do(_, _, _) => KeepsDo(lt, s, used);
    case For(_, _, _, _, _) => KeepsFor(lt, s, used);
    case Unrolled(_, _) => KeepsUnrolled(lt, s, used);
    case Break(to) => if BreakTarget(lt, bl, to).Some? { KeptOne(Goto(BreakTarget(lt, bl, to).value), multiset{}); }
    case Continue(to) =>
      if ContinueTarget(lt, cl, to).Some? { KeptOne(Goto(ContinueTarget(lt, cl, to).value), multiset{}); }
    case Labelled(l, body) =>
      LoweringKeeps(lt, body, bl, cl, used + {UserLabel(l)});
      KeptOne(Mark(UserLabel(l)), multiset{l});
      KeptAppend([Mark(UserLabel(l))], Lower(lt, body, bl, cl, used + {UserLabel(l)}).trees, multiset{l},
        UserLabels(body));
    case Return(e) => KeptOne(Ret(e), multiset{});
    case TryFinally(_, _) => KeepsTry(lt, s, bl, cl, used);
  }

  lemma KeptNothing()
    ensures Kept([], multiset{})
  {
  }

  lemma KeptBind(scope: S.Id, body: seq<Tree>, names: multiset<S.Ident>)
    requires Kept(body, names)
    ensures Kept([Bind(scope, body)], names)
  {
    KeptOne(Bind(scope, body), names);
  }

  lemma KeptBranches(t: Tree, a: seq<Tree>, b: seq<Tree>, m: multiset<S.Ident>, n: multiset<S.Ident>)
    requires (t.Cond? && t.thn == a && t.els == b) || t == Tree.TryFinally(a, b)
    requires Kept(a, m) && Kept(b, n)
    ensures Kept(Emit(t), m + n)
  {
    KeptEmit(t, m + n);
  }

  lemma {:induction false} KeepsIf(lt: S.LabelTable, s: S.Stmt, bl: Option<Label>, cl: Option<Label>, used: set<Label>)
    requires s.If?
    ensures Kept(LowerIf(lt, s, bl, cl, used).trees, UserLabels(s.ifbody) + UserLabels(s.elsebody))
    decreases s, 0
  {
    hide Lower, Kept, UserLabels;
    var a := Lower(lt, s.ifbody, bl, cl, used);
    var b := Lower(lt, s.elsebody, bl, cl, a.used);
    LoweringKeeps(lt, s.ifbody, bl, cl, used);
    LoweringKeeps(lt, s.elsebody, bl, cl, a.used);
    KeptBranches(Cond(s.cond, a.trees, b.trees), a.trees, b.trees, UserLabels(s.ifbody), UserLabels(s.elsebody));
  }

  lemma {:induction false} KeepsTry(lt: S.LabelTable, s: S.Stmt, bl: Option<Label>, cl: Option<Label>, used: set<Label>)
    requires s.TryFinally?
    ensures Kept(LowerTry(lt, s, bl, cl, used).trees, UserLabels(s.tryBody) + UserLabels(s.finalBody))
    decreases s, 0
  {
    hide Lower, Kept, UserLabels;
    var a := Lower(lt, s.tryBody, bl, cl, used);
    var b := Lower(lt, s.finalBody, bl, cl, a.used);
    LoweringKeeps(lt, s.tryBody, bl, cl, used);
    LoweringKeeps(lt, s.finalBody, bl, cl, a.used);
    KeptBranches(Tree.TryFinally(a.trees, b.trees), a.trees, b.trees, UserLabels(s.tryBody), UserLabels(s.finalBody));
  }

  lemma {:induction false} KeepsSeq(lt: S.LabelTable, ss: seq<S.Stmt>, bl: Option<Label>, cl: Option<Label>,
      used: set<Label>)
    ensures Kept(LowerSeq(lt, ss, bl, cl, used).trees, UserLabelsOfSeq(ss))
    decreases ss, 0
  {
    hide Lower, Kept, UserLabels;
    KeptNothing();
    if ss != [] {
      var c := Lower(lt, ss[0], bl, cl, used);
      LoweringKeeps(lt, ss[0], bl, cl, used);
      KeepsSeq(lt, ss[1..], bl, cl, c.used);
      KeptAppend(c.trees, LowerSeq(lt, ss[1..], bl, cl, c.used).trees, UserLabels(ss[0]), UserLabelsOfSeq(ss[1..]));
    }
  }

  lemma {:induction false} KeepsBody(lt: S.LabelTable, body: S.Stmt, at: S.Id, lbreak: Label, used: set<Label>)
    ensures Kept(LowerBody(lt, body, at, lbreak, used).trees, UserLabels(body))
    decreases body, 2
  {
    hide Lower, Kept;
    KeptNothing();
    if body != S.Null {
      LoweringKeeps(lt, body, Some(lbreak), Some(ContinueLabel(at)), used);
      KeptThenLabel(Lower(lt, body, Some(lbreak), Some(ContinueLabel(at)), used), ContinueLabel(at), UserLabels(body));
    }
  }

  /** A loop with its break label. */
  lemma KeptLoop(body: seq<Tree>, used: set<Label>, lbreak: Label, names: multiset<S.Ident>)
    requires Kept(body, names) && !lbreak.UserLabel?
    ensures Kept(ThenLabel(Code([Loop(body)], used), lbreak).trees, names)
  {
    KeptOne(Loop(body), names);
    KeptThenLabel(Code([Loop(body)], used), lbreak, names);
  }

  lemma {:induction false} KeepsDo(lt: S.LabelTable, s: S.Stmt, used: set<Label>)
    requires s.Do?
    ensures Kept(LowerDo(lt, s, used).trees, UserLabels(s.body))
    decreases s, 0
  {
    hide LowerBody, Kept, UserLabels;
    var lbreak := BreakLabel(s.id);
    var c := LowerBody(lt, s.body, s.id, lbreak, used);
    KeepsBody(lt, s.body, s.id, lbreak, used);
    KeptExit(s.until, lbreak);
    KeptBeside(c.trees, ExitUnless(s.until, lbreak), UserLabels(s.body));
    KeptLoop(c.trees + ExitUnless(s.until, lbreak), c.used + {lbreak}, lbreak, UserLabels(s.body));
  }

  lemma {:induction false} KeepsFor(lt: S.LabelTable, s: S.Stmt, used: set<Label>)
    requires s.For?
    ensures Kept(LowerFor(lt, s, used).trees, UserLabels(s.body))
    decreases s, 0
  {
    hide LowerBody, Kept, UserLabels;
    var lbreak := BreakLabel(S.RelatedId(s));
    var used1 := if s.test.Some? then used + {lbreak} else used;
    var c := LowerBody(lt, s.body, S.RelatedId(s), lbreak, used1);
    KeepsBody(lt, s.body, S.RelatedId(s), lbreak, used1);
    KeptNothing();
    if s.test.Some? { KeptExit(s.test.value, lbreak); }
    if s.increment.Some? { KeptEmit(Eval(s.increment.value), multiset{}); }
    KeptBeside(c.trees, EmitOpt(s.increment), UserLabels(s.body));
    KeptBeside(c.trees + EmitOpt(s.increment), TestOf(s), UserLabels(s.body));
    KeptLoop(TestOf(s) + (c.trees + EmitOpt(s.increment)), c.used, lbreak, UserLabels(s.body));
  }

  lemma {:induction false} KeepsUnrolled(lt: S.LabelTable, s: S.Stmt, used: set<Label>)
    requires s.Unrolled?
    ensures Kept(LowerUnrolled(lt, s, used).trees, UserLabelsOfSeq(s.items))
    decreases s, 0
  {
    hide LowerItems, Kept, UserLabelsOfSeq;
    var lbreak := BreakLabel(s.id);
    var c := LowerItems(lt, s.items, lbreak, used);
    KeepsItems(lt, s.items, lbreak, used);
    KeptOne(Goto(lbreak), multiset{});
    KeptBeside(c.trees, [Goto(lbreak)], UserLabelsOfSeq(s.items));
    KeptLoop(c.trees + [Goto(lbreak)], c.used + {lbreak}, lbreak, UserLabelsOfSeq(s.items));
  }

  lemma {:induction false} KeepsItems(lt: S.LabelTable, ss: seq<S.Stmt>, lbreak: Label, used: set<Label>)
    ensures Kept(LowerItems(lt, ss, lbreak, used).trees, UserLabelsOfSeq(ss))
    decreases ss, 0
  {
    hide LowerBody, Kept, UserLabels;
    KeptNothing();
    if ss != [] {
      var at := S.RelatedId(ss[0]);
      var c := LowerBody(lt, ss[0], at, lbreak, used);
      KeepsBody(lt, ss[0], at, lbreak, used);
      KeepsItems(lt, ss[1..], lbreak, c.used);
      KeptAppend(c.trees, LowerItems(lt, ss[1..], lbreak, c.used).trees, UserLabels(ss[0]), UserLabelsOfSeq(ss[1..]));
    }
  }
}
