/** The statements the front end hands to the code generator, after it has
    rewritten while/foreach loops to for loops and hoisted loop initialisers,
    and what they mean. Only what control flow depends on is kept: an
    expression is the point at which it is evaluated and whether the middle
    end marks it as having side effects. */
module Statements {
  import opened Options

  /** Identity of a statement object. */
  type Id = nat
  type Ident = string

  datatype Expr = Expr(point: nat, sideEffects: bool)

  datatype Stmt =
    | Null                                                  // an absent statement
    | ExpStmt(exp: Expr)
    | Compound(stmts: seq<Stmt>)
    | Scope(id: Id, hasVars: bool, stmt: Stmt)
    | If(cond: Expr, ifbody: Stmt, elsebody: Stmt)
    | Do(id: Id, body: Stmt, until: Expr)
    | For(id: Id, related: Option<Id>, test: Option<Expr>, increment: Option<Expr>, body: Stmt)
    | Unrolled(id: Id, items: seq<Stmt>)
    | Break(ident: Option<Ident>)
    | Continue(ident: Option<Ident>)
    | Labelled(name: Ident, target: Stmt)
    | Return(value: Option<Expr>)
    | TryFinally(tryBody: Stmt, finalBody: Stmt)

  /** A label of the function: the loop it was put in front of, and the object
      that the label's own field has come to hold by the end of the semantic
      pass, with what that object is related to. For a plain loop these are the
      same, for a loop with an initialiser they are the scope it was hoisted
      into; but the pass may also have wrapped the loop into a statement of
      any kind. */
  datatype LabelEntry = LabelEntry(loop: Stmt, statement: Id, related: Id)
  type LabelTable = map<Ident, LabelEntry>

  /** The object itself, for the statements that labels are registered under. */
  function SelfId(s: Stmt): Id {
    match s
    case Scope(id, _, _) => id
    case Do(id, _, _) => id
    case For(id, _, _, _, _) => id
    case Unrolled(id, _) => id
    case _ => 0
  }

  /** The statement a loop's labels are registered under. */
  function RelatedId(s: Stmt): Id {
    if s.For? && s.related.Some? then s.related.value else SelfId(s)
  }

  // ---------- What a program may observe ----------

  /** An expression is evaluated, or a scope begins and its variables are new. */
  datatype Event = At(point: nat) | Begins(scope: Id)

  /** Everything that has happened so far, in order. */
  type History = seq<Event>

  /** How expressions behave: any function of what happened before. */
  datatype World = World(truth: (nat, History) -> bool, throws: (nat, History) -> bool)

  /** What is returned is known by the expression returned, if any, and by what
      had happened when it was evaluated. */
  datatype Outcome =
    | Normal(h: History)
    | Broke(to: Option<Ident>, h: History)
    | Continued(to: Option<Ident>, h: History)
    | Returned(value: Option<nat>, at: History, h: History)
    | Threw(h: History)
    | OutOfFuel

  function Evaluate(w: World, e: Expr, h: History): Outcome {
    if !e.sideEffects then Normal(h)
    else if w.throws(e.point, h) then Threw(h + [At(e.point)])
    else Normal(h + [At(e.point)])
  }

  function EvaluateOpt(w: World, e: Option<Expr>, h: History): Outcome {
    if e.None? then Normal(h) else Evaluate(w, e.value, h)
  }

  /** A scope makes the variables declared in it anew. */
  function Enter(hasVars: bool, scope: Id, h: History): History {
    if hasVars then h + [Begins(scope)] else h
  }

  /** The loop that a label names. */
  function Named(e: LabelEntry): Id {
    RelatedId(e.loop)
  }

  /** A jump names this loop if it names none, or a label in front of it. */
  predicate Names(lt: LabelTable, to: Option<Ident>, loop: Id) {
    to.None? || (to.value in lt && Named(lt[to.value]) == loop)
  }

  /** The loop body is over, and the loop goes on. */
  predicate Completes(lt: LabelTable, loop: Id, o: Outcome) {
    o.Normal? || (o.Continued? && Names(lt, o.to, loop))
  }

  /** The body leaves the loop: a break that names it ends it normally. */
  function Leave(lt: LabelTable, loop: Id, o: Outcome): Outcome {
    if o.Broke? && Names(lt, o.to, loop) then Normal(o.h) else o
  }

  /** Outcome o, after a finally block that ran through to history h. */
  function WithHistory(o: Outcome, h: History): Outcome {
    match o
    case Normal(_) => Normal(h)
    case Broke(to, _) => Broke(to, h)
    case Continued(to, _) => Continued(to, h)
    case Returned(v, at, _) => Returned(v, at, h)
    case Threw(_) => Threw(h)
    case OutOfFuel => OutOfFuel
  }

  /** The meaning of a statement. Fuel bounds how often any one loop may go
      round, so a run that needs more is told apart from one that ends. */
  function Exec(w: World, lt: LabelTable, s: Stmt, h: History, fuel: nat): Outcome
    decreases fuel, s, 1
  {
    match s
    case Null => Normal(h)
    case ExpStmt(e) => Evaluate(w, e, h)
    case Compound(ss) => ExecSeq(w, lt, ss, h, fuel)
    case Scope(id, hasVars, body) => Exec(w, lt, body, Enter(hasVars, id, h), fuel)
    case If(_, _, _) => ExecIf(w, lt, s, h, fuel)
    case Do(_, _, _) => ExecDo(w, lt, s, h, fuel)
    case For(_, _, _, _, _) => ExecFor(w, lt, s, h, fuel)
    case Unrolled(id, items) => Leave(lt, id, ExecItems(w, lt, id, items, h, fuel))
    case Break(to) => Broke(to, h)
    case Continue(to) => Continued(to, h)
    case Labelled(_, body) => Exec(w, lt, body, h, fuel)
    case Return(e) =>
      var o := EvaluateOpt(w, e, h);
      if o.Normal? then Returned(if e.Some? then Some(e.value.point) else None, h, o.h) else o
    case TryFinally(_, _) => ExecTry(w, lt, s, h, fuel)
  }

  function ExecIf(w: World, lt: LabelTable, s: Stmt, h: History, fuel: nat): Outcome
    requires s.If?
    decreases fuel, s, 0
  {
    var o := Evaluate(w, s.cond, h);
    if !o.Normal? then o
    else if w.truth(s.cond.point, h) then Exec(w, lt, s.ifbody, o.h, fuel)
    else Exec(w, lt, s.elsebody, o.h, fuel)
  }

  function ExecDo(w: World, lt: LabelTable, s: Stmt, h: History, fuel: nat): Outcome
    requires s.Do?
    decreases fuel, s, 0
  {
    var o := Exec(w, lt, s.body, h, fuel);
    if !Completes(lt, s.id, o) then Leave(lt, s.id, o) else
    var t := Evaluate(w, s.until, o.h);
    if !t.Normal? then t
    else if !w.truth(s.until.point, o.h) then Normal(t.h)
    else if fuel == 0 then OutOfFuel
    else ExecDo(w, lt, s, t.h, fuel - 1)
  }

  function ExecFor(w: World, lt: LabelTable, s: Stmt, h: History, fuel: nat): Outcome
    requires s.For?
    decreases fuel, s, 0
  {
    var t := EvaluateOpt(w, s.test, h);
    if !t.Normal? then t
    else if s.test.Some? && !w.truth(s.test.value.point, h) then Normal(t.h) else
    var o := Exec(w, lt, s.body, t.h, fuel);
    if !Completes(lt, RelatedId(s), o) then Leave(lt, RelatedId(s), o) else
    var i := EvaluateOpt(w, s.increment, o.h);
    if !i.Normal? then i
    else if fuel == 0 then OutOfFuel
    else ExecFor(w, lt, s, i.h, fuel - 1)
  }

  function ExecTry(w: World, lt: LabelTable, s: Stmt, h: History, fuel: nat): Outcome
    requires s.TryFinally?
    decreases fuel, s, 0
  {
    var o := Exec(w, lt, s.tryBody, h, fuel);
    if o.OutOfFuel? then o else
    var f := Exec(w, lt, s.finalBody, o.h, fuel);
    if f.Normal? then WithHistory(o, f.h) else f
  }

  function ExecSeq(w: World, lt: LabelTable, ss: seq<Stmt>, h: History, fuel: nat): Outcome
    decreases fuel, ss, 0
  {
    if ss == [] then Normal(h) else
    var o := Exec(w, lt, ss[0], h, fuel);
    if o.Normal? then ExecSeq(w, lt, ss[1..], o.h, fuel) else o
  }

  /** The copies of an unrolled loop: continue goes on with the next one. */
  function ExecItems(w: World, lt: LabelTable, loop: Id, ss: seq<Stmt>, h: History, fuel: nat): Outcome
    decreases fuel, ss, 0
  {
    if ss == [] then Normal(h) else
    var o := Exec(w, lt, ss[0], h, fuel);
    if Completes(lt, loop, o) then ExecItems(w, lt, loop, ss[1..], o.h, fuel) else o
  }

  // ---------- What the front end guarantees ----------

  /** The ids under which s registers break or continue labels. */
  function Keys(s: Stmt): set<Id>
    decreases s, 1
  {
    match s
    case Compound(ss) => KeysOfSeq(ss)
    case Scope(_, _, body) => Keys(body)
    case If(_, a, b) => Keys(a) + Keys(b)
    case Do(id, body, _) => {id} + Keys(body)
    case For(_, _, _, _, body) => {RelatedId(s)} + Keys(body)
    case Unrolled(id, items) => {id} + KeysOfItems(items)
    case Labelled(_, body) => Keys(body)
    case TryFinally(a, b) => Keys(a) + Keys(b)
    case _ => {}
  }

  function KeysOfSeq(ss: seq<Stmt>): set<Id>
    decreases ss, 0
  {
    if ss == [] then {} else Keys(ss[0]) + KeysOfSeq(ss[1..])
  }

  function KeysOfItems(ss: seq<Stmt>): set<Id>
    decreases ss, 0
  {
    if ss == [] then {}
    else (if ss[0] == Null then {} else {RelatedId(ss[0])}) + Keys(ss[0]) + KeysOfItems(ss[1..])
  }

  /** No two statements register labels under the same id. The copies of an
      unrolled loop are scopes of their own, distinct from the loops in them. */
  predicate Distinct(s: Stmt)
    decreases s, 1
  {
    match s
    case Compound(ss) => DistinctSeq(ss)
    case Scope(_, _, body) => Distinct(body)
    case If(_, a, b) => Distinct(a) && Distinct(b) && Keys(a) !! Keys(b)
    case Do(id, body, _) => Distinct(body) && id !in Keys(body)
    case For(_, _, _, _, body) => Distinct(body) && RelatedId(s) !in Keys(body)
    case Unrolled(id, items) => DistinctItems(items) && id !in KeysOfItems(items)
    case Labelled(_, body) => Distinct(body)
    case TryFinally(a, b) => Distinct(a) && Distinct(b) && Keys(a) !! Keys(b)
    case _ => true
  }

  predicate DistinctSeq(ss: seq<Stmt>)
    decreases ss, 0
  {
    ss == [] || (Distinct(ss[0]) && DistinctSeq(ss[1..]) && Keys(ss[0]) !! KeysOfSeq(ss[1..]))
  }

  predicate DistinctItems(ss: seq<Stmt>)
    decreases ss, 0
  {
    ss == [] ||
    (&& Distinct(ss[0]) && DistinctItems(ss[1..])
     && Keys(ss[0]) !! KeysOfItems(ss[1..])
     && (ss[0] != Null ==> RelatedId(ss[0]) !in Keys(ss[0]) + KeysOfItems(ss[1..])))
  }

  /** The loops around a statement, and which of them are unrolled. */
  type Loops = map<Id, bool>

  /** A label that break or continue may name: one in front of a loop around
      the statement. */
  predicate GoodName(lt: LabelTable, loops: Loops, to: Option<Ident>) {
    to.Some? ==>
      && to.value in lt
      && Named(lt[to.value]) in loops
      && (lt[to.value].loop.Unrolled? <==> loops[Named(lt[to.value])])
  }

  /** The objects that labels have come to hold in place of their loops. They
      are made by the semantic pass, and no labels are registered under them. */
  function Strays(lt: LabelTable): set<Id> {
    (set l | l in lt && lt[l].related != Named(lt[l]) :: lt[l].related) +
    (set l | l in lt && lt[l].statement != Named(lt[l]) :: lt[l].statement)
  }

  /** Every break and continue has a loop to refer to. */
  predicate WellPlaced(lt: LabelTable, s: Stmt, loops: Loops)
    decreases s, 1
  {
    match s
    case Compound(ss) => WellPlacedSeq(lt, ss, loops)
    case Scope(_, _, body) => WellPlaced(lt, body, loops)
    case If(_, a, b) => WellPlaced(lt, a, loops) && WellPlaced(lt, b, loops)
    case Do(id, body, _) => WellPlaced(lt, body, loops[id := false])
    case For(_, _, _, _, body) => WellPlaced(lt, body, loops[RelatedId(s) := false])
    case Unrolled(id, items) => WellPlacedSeq(lt, items, loops[id := true])
    case Break(to) => loops != map[] && GoodName(lt, loops, to)
    case Continue(to) => loops != map[] && GoodName(lt, loops, to)
    case Labelled(_, body) => WellPlaced(lt, body, loops)
    case TryFinally(a, b) => WellPlaced(lt, a, loops) && WellPlaced(lt, b, loops)
    case _ => true
  }

  predicate WellPlacedSeq(lt: LabelTable, ss: seq<Stmt>, loops: Loops)
    decreases ss, 0
  {
    ss == [] || (WellPlaced(lt, ss[0], loops) && WellPlacedSeq(lt, ss[1..], loops))
  }

  // ---------- Where labels lead ----------

  /** A break by label is looked up under what is related to the object that
      the label holds. */
  predicate BreakLeads(lt: LabelTable, to: Option<Ident>) {
    to.Some? && to.value in lt ==> lt[to.value].related == Named(lt[to.value])
  }

  /** A continue by label is looked up under that object itself; there is no
      continue label for all of an unrolled loop. */
  predicate ContinueLeads(lt: LabelTable, to: Option<Ident>) {
    to.Some? && to.value in lt ==> lt[to.value].statement == Named(lt[to.value]) && !lt[to.value].loop.Unrolled?
  }

  /** Every break and continue by label is looked up where the loop it names
      has registered its label. */
  predicate JumpsLead(lt: LabelTable, s: Stmt)
    decreases s, 1
  {
    match s
    case Compound(ss) => JumpsLeadSeq(lt, ss)
    case Scope(_, _, body) => JumpsLead(lt, body)
    case If(_, a, b) => JumpsLead(lt, a) && JumpsLead(lt, b)
    case Do(_, body, _) => JumpsLead(lt, body)
    case For(_, _, _, _, body) => JumpsLead(lt, body)
    case Unrolled(_, items) => JumpsLeadSeq(lt, items)
    case Break(to) => BreakLeads(lt, to)
    case Continue(to) => ContinueLeads(lt, to)
    case Labelled(_, body) => JumpsLead(lt, body)
    case TryFinally(a, b) => JumpsLead(lt, a) && JumpsLead(lt, b)
    case _ => true
  }

  predicate JumpsLeadSeq(lt: LabelTable, ss: seq<Stmt>)
    decreases ss, 0
  {
    ss == [] || (JumpsLead(lt, ss[0]) && JumpsLeadSeq(lt, ss[1..]))
  }
}
