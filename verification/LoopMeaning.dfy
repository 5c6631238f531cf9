/** The generated code means what the statement means. */
module LoopMeaning {
  // It does so for every amount of fuel, if labelled breaks and continues lead to
  // their loops.

  import opened Options
  import S = Statements
  import opened G = Generic
  import opened LoopLowering
  import opened LoopLabels

  /** A jump out of a statement goes to the label of the loop it refers to. */
  function Translate(lt: S.LabelTable, bl: Option<Label>, cl: Option<Label>, o: S.Outcome): Result {
    match o
    case Normal(h) => Result.Normal(h)
    case Broke(to, h) => JumpTo(BreakTarget(lt, bl, to), h)
    case Continued(to, h) => JumpTo(ContinueTarget(lt, cl, to), h)
    case Returned(v, at, h) => Result.Returned(v, at, h)
    case Threw(h) => Result.Threw(h)
    case OutOfFuel => Result.OutOfFuel
  }

  function JumpTo(target: Option<Label>, h: S.History): Result {
    if target.None? then Result.Normal(h) else Jump(target.value, h)
  }

  /** The labels around a statement: `pending` are the ids under which they are
      registered, `loops` the loops among them. */
  predicate Around(loops: S.Loops, pending: set<S.Id>, bl: Option<Label>, cl: Option<Label>) {
    && loops.Keys <= pending
    && (loops != map[] ==>
          && bl.Some? && bl.value.BreakLabel? && bl.value.key in loops
          && cl.Some? && cl.value.ContinueLabel? && cl.value.key in pending)
  }

  predicate Lowerable(lt: S.LabelTable, s: S.Stmt, loops: S.Loops, pending: set<S.Id>) {
    S.WellPlaced(lt, s, loops) && S.Distinct(s) && S.Keys(s) !! pending && S.JumpsLead(lt, s)
  }

  predicate LowerableSeq(lt: S.LabelTable, ss: seq<S.Stmt>, loops: S.Loops, pending: set<S.Id>) {
    S.WellPlacedSeq(lt, ss, loops) && S.DistinctSeq(ss) && S.KeysOfSeq(ss) !! pending && S.JumpsLeadSeq(lt, ss)
  }

  predicate LowerableItems(lt: S.LabelTable, ss: seq<S.Stmt>, loops: S.Loops, pending: set<S.Id>) {
    S.WellPlacedSeq(lt, ss, loops) && S.DistinctItems(ss) && S.KeysOfItems(ss) !! pending && S.JumpsLeadSeq(lt, ss)
  }

  /** What leaves a statement refers to a loop around it. */
  predicate Escapes(lt: S.LabelTable, loops: S.Loops, o: S.Outcome) {
    && ((o.Broke? || o.Continued?) ==> loops != map[] && S.GoodName(lt, loops, o.to))
    && (o.Broke? ==> S.BreakLeads(lt, o.to))
    && (o.Continued? ==> S.ContinueLeads(lt, o.to))
  }

  /** The generated trees do what the statement did. */
  predicate Agrees(r: Result, lt: S.LabelTable, bl: Option<Label>, cl: Option<Label>, loops: S.Loops, o: S.Outcome) {
    r == Translate(lt, bl, cl, o) && Escapes(lt, loops, o)
  }

  // ---------- Running generated pieces ----------

  lemma {:induction false} MarkIsLabel(ts: seq<Tree>, l: Label)
    requires Mark(l) in ts
    ensures l in LabelsIn(ts)
  {
    if ts[0] != Mark(l) { MarkIsLabel(ts[1..], l); }
  }

  /** A label that a list does not contain is not found in it. */
  lemma NotFound(ts: seq<Tree>, l: Label)
    requires l !in LabelsIn(ts)
    ensures Find(ts, l).None?
  {
    if Find(ts, l).Some? { MarkIsLabel(ts, l); }
  }

  lemma SameEvaluate(w: World, e: Expr, h: S.History)
    ensures Evaluate(w, e, h) == Translate(map[], None, None, S.Evaluate(w, e, h))
    ensures !S.Evaluate(w, e, h).Broke? && !S.Evaluate(w, e, h).Continued?
  {
  }

  /** Dropping a tree without side effects changes nothing. */
  lemma RunEmit(w: World, t: Tree, h: S.History, fuel: nat)
    ensures RunList(w, Emit(t), h, fuel) == RunTree(w, t, h, fuel)
  {
    RunOne(w, t, h, fuel);
  }

  lemma RunEmitOpt(w: World, e: Option<Expr>, h: S.History, fuel: nat)
    ensures RunList(w, EmitOpt(e), h, fuel) == Translate(map[], None, None, S.EvaluateOpt(w, e, h))
    ensures !S.EvaluateOpt(w, e, h).Broke? && !S.EvaluateOpt(w, e, h).Continued?
  {
    if e.Some? { RunEmit(w, Eval(e.value), h, fuel); }
  }

  lemma RunExit(w: World, e: Expr, lbreak: Label, h: S.History, fuel: nat)
    ensures RunList(w, ExitUnless(e, lbreak), h, fuel) ==
      var o := Evaluate(w, e, h);
      if !o.Normal? || w.truth(e.point, h) then o else Jump(lbreak, o.h)
  {
    RunEmit(w, Cond(e, [], [Goto(lbreak)]), h, fuel);
    var o := Evaluate(w, e, h);
    if o.Normal? { RunOne(w, Goto(lbreak), o.h, fuel); }
  }

  /** A jump to the label behind a piece of code lands there, others pass. */
  lemma RunThenLabel(w: World, c: Code, l: Label, tail: seq<Tree>, h: S.History, fuel: nat)
    requires GotosIn(c.trees) <= c.used
    requires var o := RunList(w, c.trees, h, fuel); o.Jump? && o.to != l ==> Find(tail, o.to).None?
    ensures RunList(w, ThenLabel(c, l).trees + tail, h, fuel) ==
      var o := RunList(w, c.trees, h, fuel);
      if o.Normal? || (o.Jump? && o.to == l) then RunList(w, tail, o.h, fuel) else o
  {
    var o := RunList(w, c.trees, h, fuel);
    JumpsAreGotos(w, c.trees, h, fuel);
    var mark := DoLabel(l, c.used);
    assert (c.trees + mark) + tail == c.trees + (mark + tail);
    RunAppend(w, c.trees, mark + tail, h, fuel);
    if l in c.used {
      RunMark(w, l, tail, o, fuel);
    } else {
      assert mark + tail == tail;
    }
  }

  lemma RunMark(w: World, l: Label, tail: seq<Tree>, o: Result, fuel: nat)
    requires o.Jump? && o.to != l ==> Find(tail, o.to).None?
    ensures Resume(w, [Mark(l)] + tail, o, fuel) ==
      if o.Normal? || (o.Jump? && o.to == l) then RunList(w, tail, o.h, fuel) else o
  {
    var ts := [Mark(l)] + tail;
    assert ts[0] == Mark(l) && ts[1..] == tail;
    if o.Normal? {
      assert RunTree(w, ts[0], o.h, fuel) == Result.Normal(o.h);
    }
  }

  /** A loop whose break label follows it: a jump there ends it. */
  lemma RunLoop(w: World, body: seq<Tree>, lbreak: Label, used: set<Label>, h: S.History, fuel: nat)
    requires lbreak in GotosIn(body) ==> lbreak in used
    ensures RunList(w, ThenLabel(Code([Loop(body)], used), lbreak).trees, h, fuel) ==
      var o := RunTree(w, Loop(body), h, fuel);
      if o.Jump? && o.to == lbreak then Result.Normal(o.h) else o
  {
    hide Find, GotosIn;
    var o := RunTree(w, Loop(body), h, fuel);
    RunOne(w, Loop(body), h, fuel);
    JumpsAreGotosTree(w, Loop(body), h, fuel);
    var mark := DoLabel(lbreak, used);
    RunAppend(w, [Loop(body)], mark, h, fuel);
    if lbreak in used {
      NothingFound();
      RunMark(w, lbreak, [], o, fuel);
      assert mark == [Mark(lbreak)] + [];
    } else {
      NothingFound();
    }
  }

  lemma NothingFound()
    ensures forall l :: Find([], l).None?
  {
  }

  // ---------- The simulation ----------

  /** The lowering preserves meaning: run from the same history, the generated
      trees do what the statement does, and a jump that leaves them goes to the
      label of the loop that the break or continue refers to. */
  lemma {:induction false} Simulates(w: World, lt: S.LabelTable, s: S.Stmt, bl: Option<Label>, cl: Option<Label>,
      used: set<Label>, loops: S.Loops, pending: set<S.Id>, h: S.History, fuel: nat)
    requires Around(loops, pending, bl, cl) && Lowerable(lt, s, loops, pending)
    ensures Agrees(RunList(w, Lower(lt, s, bl, cl, used).trees, h, fuel), lt, bl, cl, loops, S.Exec(w, lt, s, h, fuel))
    decreases fuel, s, 1
  {
    hide RunList, LowerSeq, LowerBody, LowerItems, S.ExecSeq, S.ExecItems, S.ExecIf, S.ExecDo, S.ExecFor, S.ExecTry,
      LowerIf, LowerDo, LowerFor, LowerTry, LowerUnrolled;
    match s
    case Null => SimulatesSimple(w, lt, s, bl, cl, used, loops, pending, h, fuel);
    case ExpStmt(_) => SimulatesSimple(w, lt, s, bl, cl, used, loops, pending, h, fuel);
    case Compound(ss) => SimulatesSeq(w, lt, ss, bl, cl, used, loops, pending, h, fuel);
    case Scope(id, hasVars, body) =>
      Simulates(w, lt, body, bl, cl, used, loops, pending, S.Enter(hasVars, id, h), fuel);
      RunOne(w, Bind(id, Lower(lt, body, bl, cl, used).trees), h, fuel);
    case If(_, _, _) => SimulatesIf(w, lt, s, bl, cl, used, loops, pending, h, fuel);
    case Do(_, _, _) => SimulatesDo(w, lt, s, bl, cl, used, loops, pending, h, fuel);
    case For(_, _, _, _, _) => SimulatesFor(w, lt, s, bl, cl, used, loops, pending, h, fuel);
    case Unrolled(_, _) => SimulatesUnrolled(w, lt, s, bl, cl, used, loops, pending, h, fuel);
    case Break(_) => SimulatesSimple(w, lt, s, bl, cl, used, loops, pending, h, fuel);
    case Continue(_) => SimulatesSimple(w, lt, s, bl, cl, used, loops, pending, h, fuel);
    case Labelled(l, body) =>
      Simulates(w, lt, body, bl, cl, used + {UserLabel(l)}, loops, pending, h, fuel);
      RunFirst(w, Mark(UserLabel(l)), Lower(lt, body, bl, cl, used + {UserLabel(l)}).trees, h, fuel);
    case Return(_) => SimulatesSimple(w, lt, s, bl, cl, used, loops, pending, h, fuel);
    case TryFinally(_, _) => SimulatesTry(w, lt, s, bl, cl, used, loops, pending, h, fuel);
  }

  lemma SimulatesSimple(w: World, lt: S.LabelTable, s: S.Stmt, bl: Option<Label>, cl: Option<Label>, used: set<Label>,
                        loops: S.Loops, pending: set<S.Id>, h: S.History, fuel: nat)
    requires s.Null? || s.ExpStmt? || s.Break? || s.Continue? || s.Return?
    requires Around(loops, pending, bl, cl) && Lowerable(lt, s, loops, pending)
    ensures Agrees(RunList(w, Lower(lt, s, bl, cl, used).trees, h, fuel), lt, bl, cl, loops, S.Exec(w, lt, s, h, fuel))
  {
    hide RunList;
    RunNone(w, h, fuel);
    match s
    case Null =>
    case ExpStmt(e) => RunEmit(w, Eval(e), h, fuel); SameEvaluate(w, e, h);
    case Break(to) => RunOne(w, Goto(BreakTarget(lt, bl, to).value), h, fuel);
    case Continue(to) => RunOne(w, Goto(ContinueTarget(lt, cl, to).value), h, fuel);
    case Return(e) =>
      RunOne(w, Ret(e), h, fuel);
      if e.Some? { SameEvaluate(w, e.value, h); }
  }

  lemma RunFirst(w: World, t: Tree, ts: seq<Tree>, h: S.History, fuel: nat)
    requires t.Mark?
    ensures RunList(w, [t] + ts, h, fuel) == RunList(w, ts, h, fuel)
  {
    assert ([t] + ts)[0] == t && ([t] + ts)[1..] == ts;
  }

  lemma {:induction false} SimulatesIf(w: World, lt: S.LabelTable, s: S.Stmt, bl: Option<Label>, cl: Option<Label>,
      used: set<Label>, loops: S.Loops, pending: set<S.Id>, h: S.History, fuel: nat)
    requires s.If? && Around(loops, pending, bl, cl)
    requires Lowerable(lt, s.ifbody, loops, pending) && Lowerable(lt, s.elsebody, loops, pending)
    ensures Agrees(RunList(w, LowerIf(lt, s, bl, cl, used).trees, h, fuel), lt, bl, cl, loops,
      S.ExecIf(w, lt, s, h, fuel))
    decreases fuel, s, 0
  {
    hide RunList, Lower, S.Exec, Lowerable;
    var a := Lower(lt, s.ifbody, bl, cl, used);
    var b := Lower(lt, s.elsebody, bl, cl, a.used);
    RunEmit(w, Cond(s.cond, a.trees, b.trees), h, fuel);
    SameEvaluate(w, s.cond, h);
    var o := S.Evaluate(w, s.cond, h);
    if o.Normal? {
      Simulates(w, lt, s.ifbody, bl, cl, used, loops, pending, o.h, fuel);
      Simulates(w, lt, s.elsebody, bl, cl, a.used, loops, pending, o.h, fuel);
    }
  }

  lemma {:induction false} SimulatesTry(w: World, lt: S.LabelTable, s: S.Stmt, bl: Option<Label>, cl: Option<Label>,
      used: set<Label>, loops: S.Loops, pending: set<S.Id>, h: S.History, fuel: nat)
    requires s.TryFinally? && Around(loops, pending, bl, cl)
    requires Lowerable(lt, s.tryBody, loops, pending) && Lowerable(lt, s.finalBody, loops, pending)
    ensures Agrees(RunList(w, LowerTry(lt, s, bl, cl, used).trees, h, fuel), lt, bl, cl, loops,
      S.ExecTry(w, lt, s, h, fuel))
    decreases fuel, s, 0
  {
    hide RunList, Lower, S.Exec, Lowerable;
    var a := Lower(lt, s.tryBody, bl, cl, used);
    var b := Lower(lt, s.finalBody, bl, cl, a.used);
    RunOne(w, Tree.TryFinally(a.trees, b.trees), h, fuel);
    Simulates(w, lt, s.tryBody, bl, cl, used, loops, pending, h, fuel);
    var o := S.Exec(w, lt, s.tryBody, h, fuel);
    if !o.OutOfFuel? {
      Simulates(w, lt, s.finalBody, bl, cl, a.used, loops, pending, o.h, fuel);
    }
  }

  lemma {:induction false} SimulatesSeq(w: World, lt: S.LabelTable, ss: seq<S.Stmt>, bl: Option<Label>,
      cl: Option<Label>, used: set<Label>, loops: S.Loops, pending: set<S.Id>, h: S.History, fuel: nat)
    requires Around(loops, pending, bl, cl) && LowerableSeq(lt, ss, loops, pending)
    ensures Agrees(RunList(w, LowerSeq(lt, ss, bl, cl, used).trees, h, fuel), lt, bl, cl, loops,
      S.ExecSeq(w, lt, ss, h, fuel))
    decreases fuel, ss, 0
  {
    hide RunList, Lower, S.Exec, S.Keys, S.Distinct, S.WellPlaced, S.JumpsLead;
    RunNone(w, h, fuel);
    if ss != [] {
      Simulates(w, lt, ss[0], bl, cl, used, loops, pending, h, fuel);
      var c := Lower(lt, ss[0], bl, cl, used);
      var d := LowerSeq(lt, ss[1..], bl, cl, c.used);
      var o := S.Exec(w, lt, ss[0], h, fuel);
      RunAppend(w, c.trees, d.trees, h, fuel);
      if o.Normal? {
        SimulatesSeq(w, lt, ss[1..], bl, cl, c.used, loops, pending, o.h, fuel);
      } else if o.Broke? || o.Continued? {
        TidySeq(lt, ss[1..], bl, cl, c.used);
        NotFound(d.trees, Translate(lt, bl, cl, o).to);
      }
    }
  }

  /** A loop body and the continue label behind it, in front of `tail`. */
  lemma {:induction false} SimulatesBody(w: World, lt: S.LabelTable, body: S.Stmt, loop: S.Id, at: S.Id,
      used: set<Label>, loops: S.Loops, pending: set<S.Id>, tail: seq<Tree>, h: S.History, fuel: nat)
    requires loops.Keys <= pending && loop in loops && at in pending && Lowerable(lt, body, loops, pending)
    requires if loop == at then !loops[loop] else loops[loop] && at !in loops
    requires forall l :: l in LabelsIn(tail) ==> l.UserLabel? || l.key !in pending
    ensures var o := S.Exec(w, lt, body, h, fuel);
      && Escapes(lt, loops, o)
      && RunList(w, LowerBody(lt, body, at, BreakLabel(loop), used).trees + tail, h, fuel) ==
         (if S.Completes(lt, loop, o) then RunList(w, tail, o.h, fuel)
          else Translate(lt, Some(BreakLabel(loop)), None, o))
    decreases fuel, body, 2
  {
    hide RunList, Lower, S.Keys, S.Distinct, S.WellPlaced, S.JumpsLead, LabelsIn, GotosIn;
    var o := S.Exec(w, lt, body, h, fuel);
    var lbreak := BreakLabel(loop);
    var lc := ContinueLabel(at);
    var c := Lower(lt, body, Some(lbreak), Some(lc), used);
    Simulates(w, lt, body, Some(lbreak), Some(lc), used, loops, pending, h, fuel);
    if body == S.Null {
      assert [] + tail == tail;
    } else {
      TidyLower(lt, body, Some(lbreak), Some(lc), used);
      var r := Translate(lt, Some(lbreak), Some(lc), o);
      if r.Jump? && r.to != lc { NotFound(tail, r.to); }
      RunThenLabel(w, c, lc, tail, h, fuel);
    }
  }

  /** Leaving a loop is the same seen from inside and from outside. */
  lemma LeavesLoop(lt: S.LabelTable, loops: S.Loops, loop: S.Id, unrolled: bool, bl: Option<Label>, cl: Option<Label>,
      o: S.Outcome)
    requires Escapes(lt, loops[loop := unrolled], o) && !S.Completes(lt, loop, o)
    ensures var r := Translate(lt, Some(BreakLabel(loop)), None, o);
      Agrees(if r.Jump? && r.to == BreakLabel(loop) then Result.Normal(r.h) else r,
        lt, bl, cl, loops, S.Leave(lt, loop, o))
  {
  }

  lemma {:induction false} SimulatesDo(w: World, lt: S.LabelTable, s: S.Stmt, bl: Option<Label>, cl: Option<Label>,
      used: set<Label>, loops: S.Loops, pending: set<S.Id>, h: S.History, fuel: nat)
    requires s.Do? && Around(loops, pending, bl, cl)
    requires Lowerable(lt, s.body, loops[s.id := false], pending + {s.id})
    ensures Agrees(RunList(w, LowerDo(lt, s, used).trees, h, fuel), lt, bl, cl, loops, S.ExecDo(w, lt, s, h, fuel))
    decreases fuel, s, 0
  {
    hide RunList, LowerBody, S.Exec, Lowerable, LabelsIn, GotosIn, Agrees;
    var lbreak := BreakLabel(s.id);
    var c := LowerBody(lt, s.body, s.id, lbreak, used);
    var body := c.trees + ExitUnless(s.until, lbreak);
    LabelsOfExit(s.until, lbreak);
    SimulatesBody(w, lt, s.body, s.id, s.id, used, loops[s.id := false], pending + {s.id},
      ExitUnless(s.until, lbreak), h, fuel);
    var o := S.Exec(w, lt, s.body, h, fuel);
    RunLoop(w, body, lbreak, c.used + {lbreak}, h, fuel);
    if S.Completes(lt, s.id, o) {
      RunExit(w, s.until, lbreak, o.h, fuel);
      SameEvaluate(w, s.until, o.h);
      var t := S.Evaluate(w, s.until, o.h);
      if t.Normal? && w.truth(s.until.point, o.h) && fuel > 0 {
        SimulatesDo(w, lt, s, bl, cl, used, loops, pending, t.h, fuel - 1);
        RunLoop(w, body, lbreak, c.used + {lbreak}, t.h, fuel - 1);
      } else {
        EndsHere(lt, bl, cl, loops, if t.Normal? && w.truth(s.until.point, o.h) then S.OutOfFuel else t);
      }
    } else {
      LeavesLoop(lt, loops, s.id, false, bl, cl, o);
    }
  }

  lemma EndsHere(lt: S.LabelTable, bl: Option<Label>, cl: Option<Label>, loops: S.Loops, o: S.Outcome)
    requires !o.Broke? && !o.Continued?
    ensures Agrees(Translate(map[], None, None, o), lt, bl, cl, loops, o)
  {
  }

  lemma {:induction false} SimulatesFor(w: World, lt: S.LabelTable, s: S.Stmt, bl: Option<Label>, cl: Option<Label>,
      used: set<Label>, loops: S.Loops, pending: set<S.Id>, h: S.History, fuel: nat)
    requires s.For? && Around(loops, pending, bl, cl)
    requires var id := S.RelatedId(s);
      Lowerable(lt, s.body, loops[id := false], pending + {id}) && id !in S.Keys(s.body)
    ensures Agrees(RunList(w, LowerFor(lt, s, used).trees, h, fuel), lt, bl, cl, loops, S.ExecFor(w, lt, s, h, fuel))
    decreases fuel, s, 0
  {
    hide RunList, LowerBody, S.Exec, Lowerable, LabelsIn, GotosIn, Agrees, TestOf, EmitOpt, S.Keys;
    var id := S.RelatedId(s);
    var lbreak := BreakLabel(id);
    var used1 := if s.test.Some? then used + {lbreak} else used;
    var c := LowerBody(lt, s.body, id, lbreak, used1);
    var rest := c.trees + EmitOpt(s.increment);
    TidyBody(lt, s.body, id, lbreak, used1);
    LabelsOfBodyFor(c.trees, s);
    LabelsOfEmitOpt(s.increment);
    LabelsAppend(c.trees, EmitOpt(s.increment));
    RunLoop(w, TestOf(s) + rest, lbreak, c.used, h, fuel);
    RunTest(w, s, rest, h, fuel);
    var t := S.EvaluateOpt(w, s.test, h);
    if t.Normal? && (s.test.None? || w.truth(s.test.value.point, h)) {
      SimulatesBody(w, lt, s.body, id, id, used1, loops[id := false], pending + {id}, EmitOpt(s.increment), t.h, fuel);
      var o := S.Exec(w, lt, s.body, t.h, fuel);
      if S.Completes(lt, id, o) {
        RunEmitOpt(w, s.increment, o.h, fuel);
        var i := S.EvaluateOpt(w, s.increment, o.h);
        if i.Normal? && fuel > 0 {
          SimulatesFor(w, lt, s, bl, cl, used, loops, pending, i.h, fuel - 1);
          RunLoop(w, TestOf(s) + rest, lbreak, c.used, i.h, fuel - 1);
        } else {
          EndsHere(lt, bl, cl, loops, if i.Normal? then S.OutOfFuel else i);
        }
      } else {
        LeavesLoop(lt, loops, id, false, bl, cl, o);
      }
    } else {
      EndsHere(lt, bl, cl, loops, t);
    }
  }

  /** The test of a for loop, before the rest of an iteration. */
  lemma RunTest(w: World, s: S.Stmt, rest: seq<Tree>, h: S.History, fuel: nat)
    requires s.For? && BreakLabel(S.RelatedId(s)) !in LabelsIn(rest)
    ensures !S.EvaluateOpt(w, s.test, h).Broke? && !S.EvaluateOpt(w, s.test, h).Continued?
    ensures RunList(w, TestOf(s) + rest, h, fuel) ==
      var t := S.EvaluateOpt(w, s.test, h);
      if !t.Normal? then Translate(map[], None, None, t)
      else if s.test.Some? && !w.truth(s.test.value.point, h) then Jump(BreakLabel(S.RelatedId(s)), t.h)
      else RunList(w, rest, t.h, fuel)
  {
    hide RunList, LabelsIn, Find;
    RunNone(w, h, fuel);
    RunAppend(w, TestOf(s), rest, h, fuel);
    NotFound(rest, BreakLabel(S.RelatedId(s)));
    if s.test.Some? {
      RunExit(w, s.test.value, BreakLabel(S.RelatedId(s)), h, fuel);
      SameEvaluate(w, s.test.value, h);
    }
  }

  lemma {:induction false} SimulatesUnrolled(w: World, lt: S.LabelTable, s: S.Stmt, bl: Option<Label>,
      cl: Option<Label>, used: set<Label>, loops: S.Loops, pending: set<S.Id>, h: S.History, fuel: nat)
    requires s.Unrolled? && Around(loops, pending, bl, cl)
    requires LowerableItems(lt, s.items, loops[s.id := true], pending + {s.id})
    ensures Agrees(RunList(w, LowerUnrolled(lt, s, used).trees, h, fuel), lt, bl, cl, loops,
                   S.Leave(lt, s.id, S.ExecItems(w, lt, s.id, s.items, h, fuel)))
    decreases fuel, s, 0
  {
    hide RunList, LowerItems, S.ExecItems, LowerableItems, LabelsIn, GotosIn, Agrees, Find;
    var lbreak := BreakLabel(s.id);
    var c := LowerItems(lt, s.items, lbreak, used);
    var body := c.trees + [Goto(lbreak)];
    SimulatesItems(w, lt, s.items, s.id, used, loops[s.id := true], pending + {s.id}, h, fuel);
    var o := S.ExecItems(w, lt, s.id, s.items, h, fuel);
    RunAppend(w, c.trees, [Goto(lbreak)], h, fuel);
    RunLoop(w, body, lbreak, c.used + {lbreak}, h, fuel);
    if o.Normal? {
      RunOne(w, Goto(lbreak), o.h, fuel);
      EndsHere(lt, bl, cl, loops, o);
    } else {
      NoMarkFound(lbreak);
      LeavesLoop(lt, loops, s.id, true, bl, cl, o);
    }
  }

  lemma NoMarkFound(lbreak: Label)
    ensures forall l :: Find([Goto(lbreak)], l).None?
  {
  }

  lemma {:induction false} SimulatesItems(w: World, lt: S.LabelTable, ss: seq<S.Stmt>, loop: S.Id, used: set<Label>,
                                          loops: S.Loops, pending: set<S.Id>, h: S.History, fuel: nat)
    requires loops.Keys <= pending && loop in loops && loops[loop]
    requires LowerableItems(lt, ss, loops, pending)
    ensures var o := S.ExecItems(w, lt, loop, ss, h, fuel);
      && RunList(w, LowerItems(lt, ss, BreakLabel(loop), used).trees, h, fuel) ==
        Translate(lt, Some(BreakLabel(loop)), None, o)
      && Escapes(lt, loops, o)
      && (S.Completes(lt, loop, o) ==> o.Normal?)
    decreases fuel, ss, 0
  {
    hide RunList, Lower, S.Exec, S.Keys, S.Distinct, S.WellPlaced, S.JumpsLead, LabelsIn, GotosIn;
    RunNone(w, h, fuel);
    if ss != [] {
      var at := S.RelatedId(ss[0]);
      var c := LowerBody(lt, ss[0], at, BreakLabel(loop), used);
      var d := LowerItems(lt, ss[1..], BreakLabel(loop), c.used);
      var o := S.Exec(w, lt, ss[0], h, fuel);
      if ss[0] == S.Null {
        assert c.trees + d.trees == d.trees;
        NullDoesNothing(w, lt, h, fuel);
      } else {
        TidyItems(lt, ss[1..], BreakLabel(loop), c.used);
        SimulatesBody(w, lt, ss[0], loop, at, used, loops, pending + {at}, d.trees, h, fuel);
      }
      if S.Completes(lt, loop, o) {
        SimulatesItems(w, lt, ss[1..], loop, c.used, loops, pending, o.h, fuel);
      }
    }
  }

  lemma NullDoesNothing(w: World, lt: S.LabelTable, h: S.History, fuel: nat)
    ensures S.Exec(w, lt, S.Null, h, fuel) == S.Normal(h)
  {
  }
}
