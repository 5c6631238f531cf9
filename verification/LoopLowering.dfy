/** What the statement visitor generates for structured control flow. Labels
    are emitted only when a jump has used them. */
module LoopLowering {
  import opened Options
  import S = Statements
  import opened G = Generic

  /** The trees appended to the current list, and the labels used so far. */
  datatype Code = Code(trees: seq<Tree>, used: set<Label>)

  predicate SideEffects(t: Tree) {
    match t
    case Eval(e) => e.sideEffects
    case Cond(c, thn, els) => c.sideEffects || thn != [] || els != []
    case _ => true
  }

  /** A tree without side effects is not added to the list. */
  function Emit(t: Tree): seq<Tree> {
    if SideEffects(t) then [t] else []
  }

  function EmitOpt(e: Option<Expr>): seq<Tree> {
    if e.Some? then Emit(Eval(e.value)) else []
  }

  function DoLabel(l: Label, used: set<Label>): seq<Tree> {
    if l in used then [Mark(l)] else []
  }

  function ThenLabel(c: Code, l: Label): Code {
    Code(c.trees + DoLabel(l, c.used), c.used)
  }

  function BreakTarget(lt: S.LabelTable, top: Option<Label>, to: Option<S.Ident>): Option<Label> {
    if to.None? then top
    else if to.value in lt then Some(BreakLabel(lt[to.value].related))
    else None
  }

  function ContinueTarget(lt: S.LabelTable, top: Option<Label>, to: Option<S.Ident>): Option<Label> {
    if to.None? then top
    else if to.value in lt then Some(ContinueLabel(lt[to.value].statement))
    else None
  }

  /** Without a target there is nothing to jump to. */
  function DoJump(target: Option<Label>, used: set<Label>): Code {
    if target.None? then Code([], used)
    else Code([Goto(target.value)], used + {target.value})
  }

  /** The test of a loop: go on, or jump to its break label. */
  function ExitUnless(c: Expr, lbreak: Label): seq<Tree> {
    Emit(Cond(c, [], [Goto(lbreak)]))
  }

  /** bl and cl are the tops of the stacks of break and continue labels. */
  function Lower(lt: S.LabelTable, s: S.Stmt, bl: Option<Label>, cl: Option<Label>, used: set<Label>): Code
    decreases s, 1
  {
    match s
    case Null => Code([], used)
    case ExpStmt(e) => Code(Emit(Eval(e)), used)
    case Compound(ss) => LowerSeq(lt, ss, bl, cl, used)
    case Scope(id, hasVars, body) => Scoped(id, hasVars, Lower(lt, body, bl, cl, used))
    case If(_, _, _) => LowerIf(lt, s, bl, cl, used)
    case Do(_, _, _) => LowerDo(lt, s, used)
    case For(_, _, _, _, _) => LowerFor(lt, s, used)
    case Unrolled(_, _) => LowerUnrolled(lt, s, used)
    case Break(to) => DoJump(BreakTarget(lt, bl, to), used)
    case Continue(to) => DoJump(ContinueTarget(lt, cl, to), used)
    case Labelled(l, body) => AfterMark(l, Lower(lt, body, bl, cl, used + {UserLabel(l)}))
    case Return(e) => Code([Ret(e)], used)
    case TryFinally(_, _) => LowerTry(lt, s, bl, cl, used)
  }

  /** The list of a scope is spliced into the outer one, unless it has
      variables to bind. */
  function Scoped(scope: S.Id, hasVars: bool, c: Code): Code {
    if hasVars then Code([Bind(scope, c.trees)], c.used) else c
  }

  function AfterMark(l: S.Ident, c: Code): Code {
    Code([Mark(UserLabel(l))] + c.trees, c.used)
  }

  function LowerSeq(lt: S.LabelTable, ss: seq<S.Stmt>, bl: Option<Label>, cl: Option<Label>, used: set<Label>): Code
    decreases ss, 0
  {
    if ss == [] then Code([], used) else
    var c := Lower(lt, ss[0], bl, cl, used);
    var d := LowerSeq(lt, ss[1..], bl, cl, c.used);
    Code(c.trees + d.trees, d.used)
  }

  function LowerIf(lt: S.LabelTable, s: S.Stmt, bl: Option<Label>, cl: Option<Label>, used: set<Label>): Code
    requires s.If?
    decreases s, 0
  {
    var a := Lower(lt, s.ifbody, bl, cl, used);
    var b := Lower(lt, s.elsebody, bl, cl, a.used);
    Code(Emit(Cond(s.cond, a.trees, b.trees)), b.used)
  }

  function LowerTry(lt: S.LabelTable, s: S.Stmt, bl: Option<Label>, cl: Option<Label>, used: set<Label>): Code
    requires s.TryFinally?
    decreases s, 0
  {
    var a := Lower(lt, s.tryBody, bl, cl, used);
    var b := Lower(lt, s.finalBody, bl, cl, a.used);
    Code([Tree.TryFinally(a.trees, b.trees)], b.used)
  }

  /** A loop body, followed by the continue label registered under `at`. */
  function LowerBody(lt: S.LabelTable, body: S.Stmt, at: S.Id, lbreak: Label, used: set<Label>): Code
    decreases body, 2
  {
    if body == S.Null then Code([], used)
    else ThenLabel(Lower(lt, body, Some(lbreak), Some(ContinueLabel(at)), used), ContinueLabel(at))
  }

  function LowerDo(lt: S.LabelTable, s: S.Stmt, used: set<Label>): Code
    requires s.Do?
    decreases s, 0
  {
    var lbreak := BreakLabel(S.RelatedId(s));
    var c := LowerBody(lt, s.body, S.RelatedId(s), lbreak, used);
    ThenLabel(Code([Loop(c.trees + ExitUnless(s.until, lbreak))], c.used + {lbreak}), lbreak)
  }

  function TestOf(s: S.Stmt): seq<Tree>
    requires s.For?
  {
    if s.test.Some? then ExitUnless(s.test.value, BreakLabel(S.RelatedId(s))) else []
  }

  function LowerFor(lt: S.LabelTable, s: S.Stmt, used: set<Label>): Code
    requires s.For?
    decreases s, 0
  {
    var lbreak := BreakLabel(S.RelatedId(s));
    var used1 := if s.test.Some? then used + {lbreak} else used;
    var c := LowerBody(lt, s.body, S.RelatedId(s), lbreak, used1);
    ThenLabel(Code([Loop(TestOf(s) + (c.trees + EmitOpt(s.increment)))], c.used), lbreak)
  }

  function LowerUnrolled(lt: S.LabelTable, s: S.Stmt, used: set<Label>): Code
    requires s.Unrolled?
    decreases s, 0
  {
    var lbreak := BreakLabel(S.RelatedId(s));
    var c := LowerItems(lt, s.items, lbreak, used);
    ThenLabel(Code([Loop(c.trees + [Goto(lbreak)])], c.used + {lbreak}), lbreak)
  }

  /** The copies of an unrolled loop, each followed by its continue label. */
  function LowerItems(lt: S.LabelTable, ss: seq<S.Stmt>, lbreak: Label, used: set<Label>): Code
    decreases ss, 0
  {
    if ss == [] then Code([], used) else
    var c := LowerBody(lt, ss[0], S.RelatedId(ss[0]), lbreak, used);
    var d := LowerItems(lt, ss[1..], lbreak, c.used);
    Code(c.trees + d.trees, d.used)
  }
}
