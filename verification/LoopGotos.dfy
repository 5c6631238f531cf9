/** When the gotos that are emitted find their labels. */
module LoopGotos {
  // Each finds exactly one, although unused labels are dropped, if and only if
  // labelled breaks and continues are looked up where the loop they name has
  // registered its labels. There are two ways to miss it: the copies of an
  // unrolled loop have continue labels of their own, and a label may have come
  // to hold a statement around its loop.

  import opened Options
  import S = Statements
  import opened G = Generic
  import opened LoopLowering
  import opened LoopLabels
  import opened LoopMeaning

  /** The labels a statement puts behind its loops and loop bodies, if used. */
  function Registered(s: S.Stmt): set<Label>
    decreases s, 1
  {
    match s
    case Compound(ss) => RegisteredSeq(ss)
    case Scope(_, _, body) => Registered(body)
    case If(_, a, b) => Registered(a) + Registered(b)
    case Do(id, body, _) => {BreakLabel(id)} + RegisteredBody(id, body)
    case For(_, _, _, _, body) => {BreakLabel(S.RelatedId(s))} + RegisteredBody(S.RelatedId(s), body)
    case Unrolled(id, items) => {BreakLabel(id)} + RegisteredItems(items)
    case Labelled(_, body) => Registered(body)
    case TryFinally(a, b) => Registered(a) + Registered(b)
    case _ => {}
  }

  function RegisteredBody(at: S.Id, body: S.Stmt): set<Label>
    decreases body, 2
  {
    if body == S.Null then {} else {ContinueLabel(at)} + Registered(body)
  }

  function RegisteredSeq(ss: seq<S.Stmt>): set<Label>
    decreases ss, 0
  {
    if ss == [] then {} else Registered(ss[0]) + RegisteredSeq(ss[1..])
  }

  function RegisteredItems(ss: seq<S.Stmt>): set<Label>
    decreases ss, 0
  {
    if ss == [] then {} else RegisteredBody(S.RelatedId(ss[0]), ss[0]) + RegisteredItems(ss[1..])
  }

  /** Among the loop labels, exactly the registered ones that a goto uses are
      emitted, once each. */
  ghost predicate Exact(ts: seq<Tree>, reg: set<Label>) {
    forall l: Label :: !l.UserLabel? ==> LabelsIn(ts)[l] == if l in GotosIn(ts) && l in reg then 1 else 0
  }

  predicate KeyedBy(ls: set<Label>, keys: set<S.Id>) {
    forall l :: l in ls ==> !l.UserLabel? && l.key in keys
  }

  ghost predicate Settled(c: Code, keys: set<S.Id>, reg: set<Label>, pending: set<S.Id>, used: set<Label>) {
    && Tidy(c, keys, used)
    && Exact(c.trees, reg)
    && KeyedBy(reg, keys)
    && KeyedBy(GotosIn(c.trees), keys + pending)
    && (forall l :: l in c.used ==> l in used || l.UserLabel? || l in GotosIn(c.trees))
  }

  predicate Fresh(used: set<Label>, keys: set<S.Id>) {
    forall l :: l in used ==> l.UserLabel? || l.key !in keys
  }

  /** Nothing is registered under the objects that labels hold in place of
      their loops. */
  predicate Apart(lt: S.LabelTable, pending: set<S.Id>, around: set<Label>) {
    KeyedBy(around, pending - S.Strays(lt)) && S.Strays(lt) <= pending
  }

  /** The context of a statement; `around` are the labels it will register. */
  predicate Surrounded(lt: S.LabelTable, loops: S.Loops, pending: set<S.Id>, around: set<Label>, bl: Option<Label>,
      cl: Option<Label>) {
    && Around(loops, pending, bl, cl)
    && Apart(lt, pending, around)
    && (loops != map[] ==> bl.value in around && cl.value in around)
    && (forall k :: k in loops ==> BreakLabel(k) in around && (ContinueLabel(k) in around <==> !loops[k]))
  }

  predicate Placed(lt: S.LabelTable, s: S.Stmt, loops: S.Loops, pending: set<S.Id>) {
    S.WellPlaced(lt, s, loops) && S.Distinct(s) && S.Keys(s) !! pending
  }

  /** Code c is settled, and finds all its labels just when ok holds. */
  ghost predicate Resolved(c: Code, keys: set<S.Id>, reg: set<Label>, pending: set<S.Id>, used: set<Label>,
      around: set<Label>, ok: bool) {
    Settled(c, keys, reg, pending, used) && (GotosIn(c.trees) <= reg + around <==> ok)
  }

  lemma ResolvedAppend(c: Code, d: Code, ck: set<S.Id>, dk: set<S.Id>, cr: set<Label>, dr: set<Label>,
                       pending: set<S.Id>, used: set<Label>, around: set<Label>, ok: bool, ok': bool)
    requires Resolved(c, ck, cr, pending, used, around, ok) && Resolved(d, dk, dr, pending, c.used, around, ok')
    requires ck !! dk && (ck + dk) !! pending && KeyedBy(around, pending)
    ensures Resolved(Code(c.trees + d.trees, d.used), ck + dk, cr + dr, pending, used, around, ok && ok')
  {
    hide LabelsIn, GotosIn;
    TidyAppend(c, d, ck, dk, used);
    LabelsAppend(c.trees, d.trees);
    var ts := c.trees + d.trees;
    forall l: Label | !l.UserLabel?
      ensures LabelsIn(ts)[l] == if l in GotosIn(ts) && l in cr + dr then 1 else 0
    {
      if l in cr { assert l !in dr && l !in GotosIn(d.trees); }
      if l in dr { assert l !in cr && l !in GotosIn(c.trees); }
    }
    if GotosIn(ts) <= (cr + dr) + around {
      assert GotosIn(c.trees) <= cr + around;
      assert GotosIn(d.trees) <= dr + around;
    }
  }

  /** Two pieces of code side by side in one tree count like their concatenation. */
  lemma ResolvedPair(c: Code, d: Code, t: Tree, ck: set<S.Id>, dk: set<S.Id>, cr: set<Label>, dr: set<Label>,
                     pending: set<S.Id>, used: set<Label>, around: set<Label>, ok: bool, ok': bool)
    requires Resolved(c, ck, cr, pending, used, around, ok) && Resolved(d, dk, dr, pending, c.used, around, ok')
    requires ck !! dk && (ck + dk) !! pending && KeyedBy(around, pending)
    requires Labels(t) == LabelsIn(c.trees) + LabelsIn(d.trees) && Gotos(t) == GotosIn(c.trees) + GotosIn(d.trees)
    ensures Resolved(Code([t], d.used), ck + dk, cr + dr, pending, used, around, ok && ok')
  {
    hide LabelsIn, GotosIn, Labels, Gotos;
    ResolvedAppend(c, d, ck, dk, cr, dr, pending, used, around, ok, ok');
    LabelsAppend(c.trees, d.trees);
    LabelsOne(t);
  }

  lemma {:induction false} Resolves(lt: S.LabelTable, s: S.Stmt, bl: Option<Label>, cl: Option<Label>, used: set<Label>,
                                    loops: S.Loops, pending: set<S.Id>, around: set<Label>)
    requires Surrounded(lt, loops, pending, around, bl, cl) && Placed(lt, s, loops, pending) && Fresh(used, S.Keys(s))
    ensures Resolved(Lower(lt, s, bl, cl, used), S.Keys(s), Registered(s), pending, used, around, S.JumpsLead(lt, s))
    decreases s, 1
  {
    hide LabelsIn, GotosIn, LowerSeq, LowerBody, LowerItems, Resolved, Surrounded;
    match s
    case Null => ResolvedNothing(pending, used, around);
    case ExpStmt(e) => ResolvedEmit(e, pending, used, around);
    case Compound(ss) => ResolvesSeq(lt, ss, bl, cl, used, loops, pending, around);
    case Scope(id, hasVars, body) =>
      Resolves(lt, body, bl, cl, used, loops, pending, around);
      ResolvedBind(id, Lower(lt, body, bl, cl, used), S.Keys(body), Registered(body), pending, used, around,
        S.JumpsLead(lt, body));
    case If(_, _, _) => ResolvesIf(lt, s, bl, cl, used, loops, pending, around);
    case Do(_, _, _) => ResolvesDo(lt, s, used, loops, pending, around, bl, cl);
    case For(_, _, _, _, _) => ResolvesFor(lt, s, used, loops, pending, around, bl, cl);
    case Unrolled(_, _) => ResolvesUnrolled(lt, s, used, loops, pending, around, bl, cl);
    case Break(to) => ResolvesBreak(lt, to, bl, cl, used, loops, pending, around);
    case Continue(to) => ResolvesContinue(lt, to, bl, cl, used, loops, pending, around);
    case Labelled(l, body) => ResolvesLabelled(lt, s, bl, cl, used, loops, pending, around);
    case Return(e) => ResolvedReturn(e, pending, used, around);
    case TryFinally(_, _) => ResolvesTry(lt, s, bl, cl, used, loops, pending, around);
  }

  lemma ResolvedNothing(pending: set<S.Id>, used: set<Label>, around: set<Label>)
    ensures Resolved(Code([], used), {}, {}, pending, used, around, true)
  {
    LabelsOfNothing();
  }

  lemma ResolvedEmit(e: Expr, pending: set<S.Id>, used: set<Label>, around: set<Label>)
    ensures Resolved(Code(Emit(Eval(e)), used), {}, {}, pending, used, around, true)
  {
    LabelsOfEmit(Eval(e));
  }

  lemma ResolvedReturn(e: Option<Expr>, pending: set<S.Id>, used: set<Label>, around: set<Label>)
    ensures Resolved(Code([Ret(e)], used), {}, {}, pending, used, around, true)
  {
    LabelsOne(Ret(e));
  }

  lemma ResolvedBind(scope: S.Id, c: Code, keys: set<S.Id>, reg: set<Label>, pending: set<S.Id>, used: set<Label>,
      around: set<Label>, ok: bool)
    requires Resolved(c, keys, reg, pending, used, around, ok)
    ensures Resolved(Code([Bind(scope, c.trees)], c.used), keys, reg, pending, used, around, ok)
  {
    hide LabelsIn, GotosIn;
    LabelsOne(Bind(scope, c.trees));
  }

  lemma ResolvesBreak(lt: S.LabelTable, to: Option<S.Ident>, bl: Option<Label>, cl: Option<Label>, used: set<Label>,
                      loops: S.Loops, pending: set<S.Id>, around: set<Label>)
    requires Surrounded(lt, loops, pending, around, bl, cl) && loops != map[] && S.GoodName(lt, loops, to)
    ensures Resolved(DoJump(BreakTarget(lt, bl, to), used), {}, {}, pending, used, around, S.BreakLeads(lt, to))
  {
    LabelsOne(Goto(BreakTarget(lt, bl, to).value));
  }

  lemma ResolvesContinue(lt: S.LabelTable, to: Option<S.Ident>, bl: Option<Label>, cl: Option<Label>, used: set<Label>,
                         loops: S.Loops, pending: set<S.Id>, around: set<Label>)
    requires Surrounded(lt, loops, pending, around, bl, cl) && loops != map[] && S.GoodName(lt, loops, to)
    ensures Resolved(DoJump(ContinueTarget(lt, cl, to), used), {}, {}, pending, used, around,
                     S.ContinueLeads(lt, to))
  {
    LabelsOne(Goto(ContinueTarget(lt, cl, to).value));
  }

  lemma {:induction false} ResolvesLabelled(lt: S.LabelTable, s: S.Stmt, bl: Option<Label>, cl: Option<Label>,
      used: set<Label>, loops: S.Loops, pending: set<S.Id>, around: set<Label>)
    requires s.Labelled? && Surrounded(lt, loops, pending, around, bl, cl) && Placed(lt, s.target, loops, pending)
    requires Fresh(used, S.Keys(s.target))
    ensures Resolved(AfterMark(s.name, Lower(lt, s.target, bl, cl, used + {UserLabel(s.name)})),
                     S.Keys(s.target), Registered(s.target), pending, used, around, S.JumpsLead(lt, s.target))
    decreases s, 0
  {
    hide LabelsIn, GotosIn, Lower, S.Keys, Registered, S.JumpsLead, Placed;
    var used' := used + {UserLabel(s.name)};
    var c := Lower(lt, s.target, bl, cl, used');
    Resolves(lt, s.target, bl, cl, used', loops, pending, around);
    LabelsOne(Mark(UserLabel(s.name)));
    LabelsAppend([Mark(UserLabel(s.name))], c.trees);
  }

  lemma {:induction false} ResolvesIf(lt: S.LabelTable, s: S.Stmt, bl: Option<Label>, cl: Option<Label>,
      used: set<Label>, loops: S.Loops, pending: set<S.Id>, around: set<Label>)
    requires s.If? && Surrounded(lt, loops, pending, around, bl, cl)
    requires Placed(lt, s.ifbody, loops, pending) && Placed(lt, s.elsebody, loops, pending)
      && S.Keys(s.ifbody) !! S.Keys(s.elsebody)
    requires Fresh(used, S.Keys(s.ifbody) + S.Keys(s.elsebody))
    ensures Resolved(LowerIf(lt, s, bl, cl, used), S.Keys(s.ifbody) + S.Keys(s.elsebody),
      Registered(s.ifbody) + Registered(s.elsebody), pending, used, around,
      S.JumpsLead(lt, s.ifbody) && S.JumpsLead(lt, s.elsebody))
    decreases s, 0
  {
    hide LabelsIn, GotosIn, Lower, S.Keys, Registered, S.JumpsLead, S.WellPlaced, S.Distinct, Resolved, Labels, Gotos;
    Resolves(lt, s.ifbody, bl, cl, used, loops, pending, around);
    var a := Lower(lt, s.ifbody, bl, cl, used);
    UsedByItem(a, S.Keys(s.ifbody), Registered(s.ifbody), S.Keys(s.elsebody), pending, used, around,
      S.JumpsLead(lt, s.ifbody));
    Resolves(lt, s.elsebody, bl, cl, a.used, loops, pending, around);
    var b := Lower(lt, s.elsebody, bl, cl, a.used);
    var t := Cond(s.cond, a.trees, b.trees);
    BranchLabels(t);
    ResolvedPair(a, b, t, S.Keys(s.ifbody), S.Keys(s.elsebody), Registered(s.ifbody), Registered(s.elsebody), pending,
      used, around, S.JumpsLead(lt, s.ifbody), S.JumpsLead(lt, s.elsebody));
    ResolvedReduced(t, b.used, S.Keys(s.ifbody) + S.Keys(s.elsebody), Registered(s.ifbody) + Registered(s.elsebody),
      pending, used, around, S.JumpsLead(lt, s.ifbody) && S.JumpsLead(lt, s.elsebody));
  }

  lemma BranchLabels(t: Tree)
    requires t.Cond?
    ensures Labels(t) == LabelsIn(t.thn) + LabelsIn(t.els) && Gotos(t) == GotosIn(t.thn) + GotosIn(t.els)
  {
  }

  /** A tree that is not emitted had no labels or gotos in it. */
  lemma ResolvedReduced(t: Tree, used': set<Label>, keys: set<S.Id>, reg: set<Label>, pending: set<S.Id>,
      used: set<Label>, around: set<Label>, ok: bool)
    requires Resolved(Code([t], used'), keys, reg, pending, used, around, ok)
    ensures Resolved(Code(Emit(t), used'), keys, reg, pending, used, around, ok)
  {
    hide LabelsIn, GotosIn, Labels, Gotos, Emit;
    LabelsOne(t);
    LabelsOfEmit(t);
  }

  lemma {:induction false} ResolvesTry(lt: S.LabelTable, s: S.Stmt, bl: Option<Label>, cl: Option<Label>,
      used: set<Label>, loops: S.Loops, pending: set<S.Id>, around: set<Label>)
    requires s.TryFinally? && Surrounded(lt, loops, pending, around, bl, cl)
    requires Placed(lt, s.tryBody, loops, pending) && Placed(lt, s.finalBody, loops, pending)
      && S.Keys(s.tryBody) !! S.Keys(s.finalBody)
    requires Fresh(used, S.Keys(s.tryBody) + S.Keys(s.finalBody))
    ensures Resolved(LowerTry(lt, s, bl, cl, used), S.Keys(s.tryBody) + S.Keys(s.finalBody),
      Registered(s.tryBody) + Registered(s.finalBody), pending, used, around,
      S.JumpsLead(lt, s.tryBody) && S.JumpsLead(lt, s.finalBody))
    decreases s, 0
  {
    hide LabelsIn, GotosIn, Lower, S.Keys, Registered, S.JumpsLead, S.WellPlaced, S.Distinct;
    Resolves(lt, s.tryBody, bl, cl, used, loops, pending, around);
    var a := Lower(lt, s.tryBody, bl, cl, used);
    Resolves(lt, s.finalBody, bl, cl, a.used, loops, pending, around);
    var b := Lower(lt, s.finalBody, bl, cl, a.used);
    ResolvedPair(a, b, Tree.TryFinally(a.trees, b.trees), S.Keys(s.tryBody), S.Keys(s.finalBody),
      Registered(s.tryBody), Registered(s.finalBody), pending, used, around, S.JumpsLead(lt, s.tryBody),
      S.JumpsLead(lt, s.finalBody));
  }

  lemma {:induction false} ResolvesSeq(lt: S.LabelTable, ss: seq<S.Stmt>, bl: Option<Label>, cl: Option<Label>,
      used: set<Label>, loops: S.Loops, pending: set<S.Id>, around: set<Label>)
    requires Surrounded(lt, loops, pending, around, bl, cl)
    requires S.WellPlacedSeq(lt, ss, loops) && S.DistinctSeq(ss) && S.KeysOfSeq(ss) !! pending
      && Fresh(used, S.KeysOfSeq(ss))
    ensures Resolved(LowerSeq(lt, ss, bl, cl, used), S.KeysOfSeq(ss), RegisteredSeq(ss), pending, used, around,
      S.JumpsLeadSeq(lt, ss))
    decreases ss, 0
  {
    hide LabelsIn, GotosIn, Lower, S.Keys, Registered, S.JumpsLead, S.WellPlaced, S.Distinct;
    ResolvedNothing(pending, used, around);
    if ss != [] {
      Resolves(lt, ss[0], bl, cl, used, loops, pending, around);
      var c := Lower(lt, ss[0], bl, cl, used);
      ResolvesSeq(lt, ss[1..], bl, cl, c.used, loops, pending, around);
      ResolvedAppend(c, LowerSeq(lt, ss[1..], bl, cl, c.used), S.Keys(ss[0]), S.KeysOfSeq(ss[1..]), Registered(ss[0]),
        RegisteredSeq(ss[1..]), pending, used, around, S.JumpsLead(lt, ss[0]), S.JumpsLeadSeq(lt, ss[1..]));
    }
  }

  /** A loop body with the continue label registered under `at` behind it. */
  lemma {:induction false} ResolvesBody(lt: S.LabelTable, body: S.Stmt, loop: S.Id, at: S.Id, used: set<Label>,
                                        loops: S.Loops, pending: set<S.Id>, around: set<Label>)
    requires Surrounded(lt, loops, pending + {at}, around + {ContinueLabel(at)}, Some(BreakLabel(loop)),
      Some(ContinueLabel(at)))
    requires loop in loops && KeyedBy(around, pending + {at}) && ContinueLabel(at) !in around
    requires Placed(lt, body, loops, pending + {at}) && Fresh(used, S.Keys(body)) && ContinueLabel(at) !in used
    ensures var c := LowerBody(lt, body, at, BreakLabel(loop), used);
      var keys := S.Keys(body) + (if body == S.Null then {} else {at});
      && Tidy(c, keys, used)
      && Exact(c.trees, RegisteredBody(at, body))
      && KeyedBy(RegisteredBody(at, body), keys)
      && (forall l :: l in RegisteredBody(at, body) && l.BreakLabel? ==> l.key in S.Keys(body))
      && KeyedBy(GotosIn(c.trees), S.Keys(body) + {at} + pending)
      && (forall l :: l in c.used ==> l in used || l.UserLabel? || l in GotosIn(c.trees))
      && (body != S.Null ==> (GotosIn(c.trees) <= RegisteredBody(at, body) + around <==> S.JumpsLead(lt, body)))
      && (body == S.Null ==> c == Code([], used))
    decreases body, 2
  {
    hide LabelsIn, GotosIn, Lower, S.Keys, Registered, S.JumpsLead, S.WellPlaced, S.Distinct;
    LabelsOfNothing();
    if body != S.Null {
      var lc := ContinueLabel(at);
      var c := Lower(lt, body, Some(BreakLabel(loop)), Some(lc), used);
      Resolves(lt, body, Some(BreakLabel(loop)), Some(lc), used, loops, pending + {at}, around + {lc});
      LabelsOfThenLabel(c, lc);
      assert Registered(body) + (around + {lc}) == ({lc} + Registered(body)) + around;
    }
  }

  lemma LoopExact(c: Code, ts: seq<Tree>, exits: set<Label>, used': set<Label>, id: S.Id, reg: set<Label>)
    requires LabelsIn(ts) == LabelsIn(c.trees) && GotosIn(ts) == GotosIn(c.trees) + exits && exits <= {BreakLabel(id)}
    requires Exact(c.trees, reg) && BreakLabel(id) !in reg && GotosIn(c.trees) <= c.used && used' == c.used + exits
    requires BreakLabel(id) in c.used ==> BreakLabel(id) in GotosIn(c.trees) + exits
    ensures Exact(ThenLabel(Code([Loop(ts)], used'), BreakLabel(id)).trees, {BreakLabel(id)} + reg)
  {
    hide LabelsIn, GotosIn;
    LabelsOfLoop(ts, BreakLabel(id), used');
  }

  /** A loop around code c, whose own gotos to the break label are `exits`. */
  lemma ResolvedLoop(c: Code, ts: seq<Tree>, exits: set<Label>, used': set<Label>, id: S.Id, keys: set<S.Id>,
      reg: set<Label>, pending: set<S.Id>, used: set<Label>, around: set<Label>, ok: bool)
    requires LabelsIn(ts) == LabelsIn(c.trees) && GotosIn(ts) == GotosIn(c.trees) + exits && exits <= {BreakLabel(id)}
    requires LabelsFrom(c.trees, keys + {id}) && GotosIn(c.trees) <= c.used && Exact(c.trees, reg)
    requires KeyedBy(reg, keys + {id}) && KeyedBy(GotosIn(c.trees), keys + {id} + pending)
    requires BreakLabel(id) !in reg && BreakLabel(id) !in used
    requires used + exits <= used' && used' == c.used + exits
    requires forall l :: l in c.used ==> l in used + exits || l.UserLabel? || l in GotosIn(c.trees)
    requires GotosIn(c.trees) <= reg + (around + {BreakLabel(id)}) <==> ok
    ensures Resolved(ThenLabel(Code([Loop(ts)], used'), BreakLabel(id)), {id} + keys, {BreakLabel(id)} + reg, pending,
      used, around, ok)
  {
    hide LabelsIn, GotosIn, Exact;
    LabelsOfLoop(ts, BreakLabel(id), used');
    LoopExact(c, ts, exits, used', id, reg);
    assert ({BreakLabel(id)} + reg) + around == reg + (around + {BreakLabel(id)});
  }

  /** Inside a loop, its two labels are around as well. */
  lemma EntersLoop(lt: S.LabelTable, loops: S.Loops, pending: set<S.Id>, around: set<Label>, bl: Option<Label>,
      cl: Option<Label>, id: S.Id)
    requires Surrounded(lt, loops, pending, around, bl, cl) && id !in pending
    ensures var lbreak, lc := BreakLabel(id), ContinueLabel(id);
      && Surrounded(lt, loops[id := false], pending + {id}, around + {lbreak} + {lc}, Some(lbreak), Some(lc))
      && KeyedBy(around + {lbreak}, pending + {id}) && lc !in around + {lbreak}
  {
  }

  lemma {:induction false} ResolvesDo(lt: S.LabelTable, s: S.Stmt, used: set<Label>, loops: S.Loops,
      pending: set<S.Id>, around: set<Label>, bl: Option<Label>, cl: Option<Label>)
    requires s.Do? && Surrounded(lt, loops, pending, around, bl, cl) && s.id !in pending && s.id !in S.Keys(s.body)
    requires Placed(lt, s.body, loops[s.id := false], pending + {s.id}) && Fresh(used, {s.id} + S.Keys(s.body))
    ensures Resolved(LowerDo(lt, s, used), {s.id} + S.Keys(s.body), {BreakLabel(s.id)} + RegisteredBody(s.id, s.body),
                     pending, used, around, S.JumpsLead(lt, s.body))
    decreases s, 0
  {
    hide LabelsIn, GotosIn, LowerBody, S.Keys, Registered, RegisteredBody, S.JumpsLead, S.WellPlaced, S.Distinct,
      Surrounded, Exact;
    var lbreak := BreakLabel(s.id);
    var c := LowerBody(lt, s.body, s.id, lbreak, used);
    EntersLoop(lt, loops, pending, around, bl, cl, s.id);
    ResolvesBody(lt, s.body, s.id, s.id, used, loops[s.id := false], pending, around + {lbreak});
    NullBody(lt, s.body, s.id);
    LabelsOfNothing();
    LabelsOfBodyDo(c.trees, s.until, lbreak);
    ResolvedLoop(c, c.trees + ExitUnless(s.until, lbreak), {lbreak}, c.used + {lbreak}, s.id, S.Keys(s.body),
      RegisteredBody(s.id, s.body), pending, used, around, S.JumpsLead(lt, s.body));
  }

  lemma NullBody(lt: S.LabelTable, body: S.Stmt, at: S.Id)
    ensures body == S.Null ==> RegisteredBody(at, body) == {} && S.Keys(body) == {} && S.JumpsLead(lt, body)
    ensures body != S.Null ==> RegisteredBody(at, body) == {ContinueLabel(at)} + Registered(body)
  {
  }

  lemma {:induction false} ResolvesFor(lt: S.LabelTable, s: S.Stmt, used: set<Label>, loops: S.Loops,
      pending: set<S.Id>, around: set<Label>, bl: Option<Label>, cl: Option<Label>)
    requires s.For? && Surrounded(lt, loops, pending, around, bl, cl)
    requires var id := S.RelatedId(s);
      && id !in pending && id !in S.Keys(s.body)
      && Placed(lt, s.body, loops[id := false], pending + {id}) && Fresh(used, {id} + S.Keys(s.body))
    ensures var id := S.RelatedId(s);
      Resolved(LowerFor(lt, s, used), {id} + S.Keys(s.body), {BreakLabel(id)} + RegisteredBody(id, s.body),
               pending, used, around, S.JumpsLead(lt, s.body))
    decreases s, 0
  {
    hide LabelsIn, GotosIn, LowerBody, S.Keys, Registered, RegisteredBody, S.JumpsLead, S.WellPlaced, S.Distinct,
      Surrounded, Exact, TestOf, EmitOpt;
    var id := S.RelatedId(s);
    var lbreak := BreakLabel(id);
    var exits := if s.test.Some? then {lbreak} else {};
    var used1 := if s.test.Some? then used + {lbreak} else used;
    var c := LowerBody(lt, s.body, id, lbreak, used1);
    EntersLoop(lt, loops, pending, around, bl, cl, id);
    ResolvesBody(lt, s.body, id, id, used1, loops[id := false], pending, around + {lbreak});
    NullBody(lt, s.body, id);
    LabelsOfNothing();
    LabelsOfBodyFor(c.trees, s);
    ResolvedLoop(c, TestOf(s) + (c.trees + EmitOpt(s.increment)), exits, c.used, id, S.Keys(s.body),
      RegisteredBody(id, s.body), pending, used, around, S.JumpsLead(lt, s.body));
  }

  lemma {:induction false} ResolvesUnrolled(lt: S.LabelTable, s: S.Stmt, used: set<Label>, loops: S.Loops,
      pending: set<S.Id>, around: set<Label>, bl: Option<Label>, cl: Option<Label>)
    requires s.Unrolled? && Surrounded(lt, loops, pending, around, bl, cl) && s.id !in pending
      && s.id !in S.KeysOfItems(s.items)
    requires S.WellPlacedSeq(lt, s.items, loops[s.id := true]) && S.DistinctItems(s.items)
    requires S.KeysOfItems(s.items) !! pending && Fresh(used, {s.id} + S.KeysOfItems(s.items))
    ensures Resolved(LowerUnrolled(lt, s, used), {s.id} + S.KeysOfItems(s.items),
      {BreakLabel(s.id)} + RegisteredItems(s.items), pending, used, around, S.JumpsLeadSeq(lt, s.items))
    decreases s, 0
  {
    hide LabelsIn, GotosIn, LowerItems, S.KeysOfItems, RegisteredItems, S.JumpsLeadSeq, S.WellPlacedSeq,
      S.DistinctItems;
    var lbreak := BreakLabel(s.id);
    var c := LowerItems(lt, s.items, lbreak, used);
    ResolvesItems(lt, s.items, s.id, used, loops[s.id := true], pending + {s.id}, around + {lbreak});
    LabelsOfBodyUnrolled(c.trees, lbreak);
    ResolvedLoop(c, c.trees + [Goto(lbreak)], {lbreak}, c.used + {lbreak}, s.id, S.KeysOfItems(s.items),
      RegisteredItems(s.items), pending, used, around, S.JumpsLeadSeq(lt, s.items));
  }

  lemma {:induction false} ResolvesItems(lt: S.LabelTable, ss: seq<S.Stmt>, loop: S.Id, used: set<Label>,
                                         loops: S.Loops, pending: set<S.Id>, around: set<Label>)
    requires loops.Keys <= pending && loop in loops && loops[loop] && Apart(lt, pending, around)
    requires forall k :: k in loops ==> BreakLabel(k) in around && (ContinueLabel(k) in around <==> !loops[k])
    requires S.WellPlacedSeq(lt, ss, loops) && S.DistinctItems(ss) && S.KeysOfItems(ss) !! pending
      && Fresh(used, S.KeysOfItems(ss))
    ensures Resolved(LowerItems(lt, ss, BreakLabel(loop), used), S.KeysOfItems(ss), RegisteredItems(ss), pending,
      used, around, S.JumpsLeadSeq(lt, ss))
    decreases ss, 0
  {
    hide LabelsIn, GotosIn, LowerBody, S.Keys, Registered, RegisteredBody, S.JumpsLead, S.WellPlaced, S.Distinct,
      Resolved;
    ResolvedNothing(pending, used, around);
    if ss != [] {
      var at := S.RelatedId(ss[0]);
      var c := LowerBody(lt, ss[0], at, BreakLabel(loop), used);
      var keys := S.Keys(ss[0]) + (if ss[0] == S.Null then {} else {at});
      ResolvesItem(lt, ss[0], loop, used, loops, pending, around);
      UsedByItem(c, keys, RegisteredBody(at, ss[0]), S.KeysOfItems(ss[1..]), pending, used, around,
        S.JumpsLead(lt, ss[0]));
      ResolvesItems(lt, ss[1..], loop, c.used, loops, pending, around);
      assert S.KeysOfItems(ss) == keys + S.KeysOfItems(ss[1..]);
      ResolvedAppend(c, LowerItems(lt, ss[1..], BreakLabel(loop), c.used), keys, S.KeysOfItems(ss[1..]),
                     RegisteredBody(at, ss[0]), RegisteredItems(ss[1..]), pending, used, around,
                     S.JumpsLead(lt, ss[0]), S.JumpsLeadSeq(lt, ss[1..]));
    }
  }

  /** What one piece of code uses is still fresh for the next. */
  lemma UsedByItem(c: Code, keys: set<S.Id>, reg: set<Label>, keys': set<S.Id>, pending: set<S.Id>, used: set<Label>,
      around: set<Label>, ok: bool)
    requires Resolved(c, keys, reg, pending, used, around, ok) && Fresh(used, keys') && keys' !! keys + pending
    ensures Fresh(c.used, keys')
  {
    hide LabelsIn, GotosIn, Tidy, Exact;
  }

  /** One copy of an unrolled loop. */
  lemma {:induction false} ResolvesItem(lt: S.LabelTable, item: S.Stmt, loop: S.Id, used: set<Label>,
                                        loops: S.Loops, pending: set<S.Id>, around: set<Label>)
    requires loops.Keys <= pending && loop in loops && loops[loop] && Apart(lt, pending, around)
    requires forall k :: k in loops ==> BreakLabel(k) in around && (ContinueLabel(k) in around <==> !loops[k])
    requires item != S.Null ==> Placed(lt, item, loops, pending) && S.RelatedId(item) !in pending + S.Keys(item)
    requires Fresh(used, S.Keys(item) + (if item == S.Null then {} else {S.RelatedId(item)}))
    ensures Resolved(LowerBody(lt, item, S.RelatedId(item), BreakLabel(loop), used),
                     S.Keys(item) + (if item == S.Null then {} else {S.RelatedId(item)}),
                     RegisteredBody(S.RelatedId(item), item), pending, used, around, S.JumpsLead(lt, item))
    decreases item, 3
  {
    hide LabelsIn, GotosIn, LowerBody, S.Keys, Registered, RegisteredBody, S.JumpsLead, S.WellPlaced, S.Distinct;
    var at := S.RelatedId(item);
    NullBody(lt, item, at);
    ResolvedNothing(pending, used, around);
    if item == S.Null {
      NullItem(lt, at, loop, used);
    } else {
      ResolvesBody(lt, item, loop, at, used, loops, pending, around);
    }
  }

  lemma NullItem(lt: S.LabelTable, at: S.Id, loop: S.Id, used: set<Label>)
    ensures LowerBody(lt, S.Null, at, BreakLabel(loop), used) == Code([], used)
  {
  }

  // ---------- Whole function bodies ----------

  /** A function body as the front end leaves it. */
  predicate Body(lt: S.LabelTable, s: S.Stmt) {
    S.WellPlaced(lt, s, map[]) && S.Distinct(s) && S.Keys(s) !! S.Strays(lt)
  }

  /** Every goto of the function finds exactly one label. */
  ghost predicate AllGotosFindOneLabel(ts: seq<Tree>) {
    forall l :: l in GotosIn(ts) ==> LabelsIn(ts)[l] == 1
  }

  /** No goto dangles and no loop label is emitted twice, exactly for the
      programs in which labelled jumps lead to their loops. */
  lemma GotosFindOneLabelIff(lt: S.LabelTable, s: S.Stmt)
    requires Body(lt, s)
    ensures AllGotosFindOneLabel(Lower(lt, s, None, None, {}).trees) <==> S.JumpsLead(lt, s)
  {
    hide LabelsIn, GotosIn, Lower, S.Keys, Registered, S.JumpsLead, S.WellPlaced, S.Distinct;
    Resolves(lt, s, None, None, {}, map[], S.Strays(lt), {});
    var ts := Lower(lt, s, None, None, {}).trees;
    if S.JumpsLead(lt, s) {
      forall l | l in GotosIn(ts) ensures LabelsIn(ts)[l] == 1 {
        assert l in Registered(s) + {};
      }
    } else {
      var l :| l in GotosIn(ts) && l !in Registered(s) + {};
      assert LabelsIn(ts)[l] == 0;
    }
  }

  /** Whatever the program, no loop label is emitted more than once, and none
      that no goto uses. */
  lemma LabelsOnlyWhereUsed(lt: S.LabelTable, s: S.Stmt, l: Label)
    requires Body(lt, s) && !l.UserLabel?
    ensures var ts := Lower(lt, s, None, None, {}).trees;
      LabelsIn(ts)[l] <= 1 && (LabelsIn(ts)[l] == 1 ==> l in GotosIn(ts))
  {
    hide LabelsIn, GotosIn, Lower, S.Keys, Registered, S.JumpsLead, S.WellPlaced, S.Distinct;
    Resolves(lt, s, None, None, {}, map[], S.Strays(lt), {});
  }

  /** The meaning of a whole function body; nothing is left to jump to. */
  function MeaningOf(o: S.Outcome): Result {
    match o
    case Normal(h) => Result.Normal(h)
    case Returned(v, at, h) => Result.Returned(v, at, h)
    case Threw(h) => Result.Threw(h)
    case _ => Result.OutOfFuel
  }

  /** A function body as generated does what it did as a statement, however
      long it runs, and no jump is left without its label. */
  lemma LoweringPreservesMeaning(w: World, lt: S.LabelTable, s: S.Stmt, h: S.History, fuel: nat)
    requires Body(lt, s) && S.JumpsLead(lt, s)
    ensures RunList(w, Lower(lt, s, None, None, {}).trees, h, fuel) == MeaningOf(S.Exec(w, lt, s, h, fuel))
    ensures !S.Exec(w, lt, s, h, fuel).Broke? && !S.Exec(w, lt, s, h, fuel).Continued?
  {
    hide RunList, Lower, S.Exec, S.Keys, S.Distinct, S.WellPlaced, S.JumpsLead;
    Simulates(w, lt, s, None, None, {}, map[], {}, h, fuel);
  }

  // ---------- The two ways to miss a loop ----------

  /** A foreach over a tuple of one element whose body is a jump. */
  function Once(jump: S.Stmt): S.Stmt {
    S.Unrolled(1, [S.Scope(2, false, jump)])
  }

  /** L: foreach (x; tuple) continue L; -- the label still holds the loop. */
  function Continuing(): S.Stmt { S.Labelled("L", Once(S.Continue(Some("L")))) }
  function ContinuingTable(): S.LabelTable { map["L" := S.LabelEntry(Once(S.Continue(Some("L"))), 1, 1)] }

  /** L: foreach (x; make().tupleof) break L; -- the struct that the tuple is
      taken from is evaluated first, and the label has come to hold the compound
      statement, object 3, that does so. */
  function Breaking(): S.Stmt { S.Labelled("L", S.Compound([S.ExpStmt(Expr.Expr(0, true)), Once(S.Break(Some("L")))])) }
  function BreakingTable(): S.LabelTable { map["L" := S.LabelEntry(Once(S.Break(Some("L"))), 3, 3)] }

  lemma OnceIsABody(lt: S.LabelTable, jump: S.Stmt)
    requires S.Keys(jump) == {} && S.Distinct(jump) && S.WellPlaced(lt, jump, map[1 := true])
    ensures S.Keys(Once(jump)) == {1, 2} && S.Distinct(Once(jump)) && S.WellPlaced(lt, Once(jump), map[])
    ensures S.JumpsLead(lt, Once(jump)) <==> S.JumpsLead(lt, jump)
  {
    var items := Once(jump).items;
    assert items[1..] == [];
    assert S.Keys(items[0]) == {} && S.RelatedId(items[0]) == 2;
    assert S.KeysOfItems(items) == {2};
    assert S.Distinct(items[0]) && S.DistinctItems(items);
    assert S.WellPlaced(lt, items[0], map[1 := true]) && S.WellPlacedSeq(lt, items, map[1 := true]);
    assert map[][1 := true] == map[1 := true];
    assert S.JumpsLead(lt, items[0]) == S.JumpsLead(lt, jump) && S.JumpsLeadSeq(lt, items) == S.JumpsLead(lt, items[0]);
  }

  lemma OnceCode(lt: S.LabelTable, jump: S.Stmt, l: Label, used: set<Label>)
    requires Lower(lt, jump, Some(BreakLabel(1)), Some(ContinueLabel(2)), used) == Code([Goto(l)], used + {l})
    requires ContinueLabel(2) !in used + {l}
    ensures Lower(lt, Once(jump), None, None, used).trees ==
      [Loop([Goto(l)] + [Goto(BreakLabel(1))])] + [Mark(BreakLabel(1))]
  {
    var items := Once(jump).items;
    assert Lower(lt, items[0], Some(BreakLabel(1)), Some(ContinueLabel(2)), used) == Code([Goto(l)], used + {l});
    assert LowerBody(lt, items[0], 2, BreakLabel(1), used).trees == [Goto(l)];
    assert items[1..] == [] && LowerItems(lt, items, BreakLabel(1), used).trees == [Goto(l)];
    assert LowerUnrolled(lt, Once(jump), used).trees ==
      [Loop([Goto(l)] + [Goto(BreakLabel(1))])] + [Mark(BreakLabel(1))];
  }

  lemma OnceJumps(w: World, l: Label, h: S.History)
    requires l != BreakLabel(1)
    ensures RunList(w, [Loop([Goto(l)] + [Goto(BreakLabel(1))])] + [Mark(BreakLabel(1))], h, 0) == Jump(l, h)
  {
    var body := [Goto(l)] + [Goto(BreakLabel(1))];
    var ts := [Loop(body)] + [Mark(BreakLabel(1))];
    NoMarkFound(BreakLabel(1));
    assert body[0] == Goto(l) && body[1..] == [Goto(BreakLabel(1))];
    assert RunList(w, body, h, 0) == Jump(l, h);
    assert ts[0] == Loop(body) && ts[1..] == [Mark(BreakLabel(1))];
    assert ts[1..][1..] == [];
  }

  lemma LabelledCode(lt: S.LabelTable, s: S.Stmt)
    ensures Lower(lt, S.Labelled("L", s), None, None, {}).trees ==
      [Mark(UserLabel("L"))] + Lower(lt, s, None, None, {UserLabel("L")}).trees
  {
    assert {} + {UserLabel("L")} == {UserLabel("L")};
  }

  /** The statement ends normally, the generated jump never finds its label. */
  lemma ContinueToUnrolledDangles(w: World)
    ensures var lt, s := ContinuingTable(), Continuing();
      && Body(lt, s) && !S.JumpsLead(lt, s)
      && S.Exec(w, lt, s, [], 0) == S.Normal([])
      && RunList(w, Lower(lt, s, None, None, {}).trees, [], 0) == Jump(ContinueLabel(1), [])
  {
    hide Lower, RunList, S.Exec;
    var lt, jump := ContinuingTable(), S.Continue(Some("L"));
    assert S.GoodName(lt, map[1 := true], Some("L")) && S.Strays(lt) == {};
    OnceIsABody(lt, jump);
    ContinuingRuns(w);
    JumpCode(lt, jump, ContinueLabel(1));
    OnceCode(lt, jump, ContinueLabel(1), {UserLabel("L")});
    OnceJumps(w, ContinueLabel(1), []);
    LabelledCode(lt, Once(jump));
    RunFirst(w, Mark(UserLabel("L")), Lower(lt, Once(jump), None, None, {UserLabel("L")}).trees, [], 0);
  }

  lemma JumpCode(lt: S.LabelTable, jump: S.Stmt, l: Label)
    requires (jump == S.Break(Some("L")) && "L" in lt && l == BreakLabel(lt["L"].related))
          || (jump == S.Continue(Some("L")) && "L" in lt && l == ContinueLabel(lt["L"].statement))
    ensures Lower(lt, jump, Some(BreakLabel(1)), Some(ContinueLabel(2)), {UserLabel("L")}) ==
      Code([Goto(l)], {UserLabel("L")} + {l})
  {
  }

  lemma ContinuingRuns(w: World)
    ensures S.Exec(w, ContinuingTable(), Continuing(), [], 0) == S.Normal([])
  {
    var lt, loop := ContinuingTable(), Once(S.Continue(Some("L")));
    assert S.Exec(w, lt, loop.items[0], [], 0) == S.Continued(Some("L"), []);
    assert loop.items[1..] == [];
    assert S.ExecItems(w, lt, 1, loop.items, [], 0) == S.Normal([]);
    assert S.Exec(w, lt, loop, [], 0) == S.Normal([]);
  }

  /** No continue is involved here. The statement evaluates the struct and ends
      normally, the generated jump never finds its label. */
  lemma BreakFromWrappedDangles(w: World)
    requires !w.throws(0, [])
    ensures var lt, s := BreakingTable(), Breaking();
      && Body(lt, s) && !S.JumpsLead(lt, s)
      && S.Exec(w, lt, s, [], 0) == S.Normal([S.At(0)])
      && RunList(w, Lower(lt, s, None, None, {}).trees, [], 0) == Jump(BreakLabel(3), [S.At(0)])
  {
    hide Lower, RunList, S.Exec;
    assert S.GoodName(BreakingTable(), map[1 := true], Some("L"));
    OnceIsABody(BreakingTable(), S.Break(Some("L")));
    BreakingIsABody();
    BreakingRuns(w);
    BreakingJumps(w);
  }

  lemma BreakingJumps(w: World)
    requires !w.throws(0, [])
    ensures RunList(w, Lower(BreakingTable(), Breaking(), None, None, {}).trees, [], 0) ==
      Jump(BreakLabel(3), [S.At(0)])
  {
    hide Lower, RunList;
    var lt, jump := BreakingTable(), S.Break(Some("L"));
    var code := Lower(lt, Once(jump), None, None, {UserLabel("L")}).trees;
    JumpCode(lt, jump, BreakLabel(3));
    OnceCode(lt, jump, BreakLabel(3), {UserLabel("L")});
    OnceJumps(w, BreakLabel(3), [S.At(0)]);
    assert RunList(w, code, [S.At(0)], 0) == Jump(BreakLabel(3), [S.At(0)]);
    BreakingCode();
    LabelledCode(lt, Breaking().target);
    var first := Eval(Expr.Expr(0, true));
    RunFirst(w, Mark(UserLabel("L")), [first] + code, [], 0);
    RunAppend(w, [first], code, [], 0);
    RunOne(w, first, [], 0);
    assert RunTree(w, first, [], 0) == Result.Normal([S.At(0)]);
  }

  lemma BreakingIsABody()
    requires var s := Once(S.Break(Some("L")));
      S.Keys(s) == {1, 2} && S.Distinct(s) && S.WellPlaced(BreakingTable(), s, map[])
        && !S.JumpsLead(BreakingTable(), s)
    ensures Body(BreakingTable(), Breaking()) && !S.JumpsLead(BreakingTable(), Breaking())
  {
    AfterExpression(BreakingTable(), Expr.Expr(0, true), Once(S.Break(Some("L"))));
    assert S.Strays(BreakingTable()) == {3};
  }

  lemma AfterExpression(lt: S.LabelTable, e: Expr, s: S.Stmt)
    ensures var both := S.Compound([S.ExpStmt(e), s]);
      && S.Keys(both) == S.Keys(s) && S.Distinct(both) == S.Distinct(s) && S.JumpsLead(lt, both) == S.JumpsLead(lt, s)
      && S.WellPlaced(lt, both, map[]) == S.WellPlaced(lt, s, map[])
  {
    var ss := [S.ExpStmt(e), s];
    assert ss[1..] == [s] && [s][1..] == [];
    assert S.KeysOfSeq([s]) == S.Keys(s) && S.DistinctSeq([s]) == S.Distinct(s);
    assert S.JumpsLeadSeq(lt, [s]) == S.JumpsLead(lt, s)
      && S.WellPlacedSeq(lt, [s], map[]) == S.WellPlaced(lt, s, map[]);
    assert S.Keys(ss[0]) == {} && S.Distinct(ss[0]) && S.JumpsLead(lt, ss[0]) && S.WellPlaced(lt, ss[0], map[]);
  }

  lemma BreakingRuns(w: World)
    requires !w.throws(0, [])
    ensures S.Exec(w, BreakingTable(), Breaking(), [], 0) == S.Normal([S.At(0)])
  {
    var lt, ss := BreakingTable(), Breaking().target.stmts;
    var loop := ss[1];
    assert S.Exec(w, lt, ss[0], [], 0) == S.Normal([S.At(0)]);
    assert S.Exec(w, lt, loop.items[0], [S.At(0)], 0) == S.Broke(Some("L"), [S.At(0)]);
    assert S.Exec(w, lt, loop, [S.At(0)], 0) == S.Normal([S.At(0)]);
    assert ss[1..][1..] == [] && S.ExecSeq(w, lt, ss[1..], [S.At(0)], 0) == S.Normal([S.At(0)]);
  }

  lemma BreakingCode()
    ensures Lower(BreakingTable(), Breaking().target, None, None, {UserLabel("L")}).trees ==
      [Eval(Expr.Expr(0, true))] + Lower(BreakingTable(), Once(S.Break(Some("L"))), None, None, {UserLabel("L")}).trees
  {
    var lt, ss, used := BreakingTable(), Breaking().target.stmts, {UserLabel("L")};
    var c := Lower(lt, ss[1], None, None, used);
    assert Lower(lt, ss[0], None, None, used) == Code([Eval(Expr.Expr(0, true))], used);
    assert ss[1..][1..] == [] && c.trees + [] == c.trees;
    assert LowerSeq(lt, ss[1..], None, None, used).trees == c.trees;
  }
}
