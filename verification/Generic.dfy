/** The statement trees handed to the middle end, and what they mean. */
module Generic {
  import opened Options
  import Statements
  type World = Statements.World
  type History = Statements.History
  type Expr = Statements.Expr

  datatype Label =
    | BreakLabel(key: Statements.Id) | ContinueLabel(key: Statements.Id) | UserLabel(ident: Statements.Ident)

  datatype Tree =
    | Eval(e: Expr)
    | Cond(c: Expr, thn: seq<Tree>, els: seq<Tree>)    // COND_EXPR
    | Loop(body: seq<Tree>)                            // LOOP_EXPR
    | Goto(to: Label)                                  // GOTO_EXPR
    | Mark(here: Label)                                // LABEL_EXPR
    | Ret(value: Option<Expr>)                         // RETURN_EXPR
    | TryFinally(body: seq<Tree>, fin: seq<Tree>)      // TRY_FINALLY_EXPR
    | Bind(scope: Statements.Id, body: seq<Tree>)      // BIND_EXPR, with the variables of the scope

  datatype Result =
    | Normal(h: History)
    | Jump(to: Label, h: History)     // looking for its label further out
    | Returned(value: Option<nat>, at: History, h: History)
    | Threw(h: History)
    | OutOfFuel

  /** Where to resume in ts after jumping to l: behind its label, if that is
      one of the elements of ts itself. */
  function Find(ts: seq<Tree>, l: Label): (r: Option<nat>)
    ensures r.Some? ==> 0 < r.value <= |ts| && ts[r.value - 1] == Mark(l)
    ensures r.None? ==> Mark(l) !in ts
  {
    if ts == [] then None
    else if ts[0] == Mark(l) then Some(1)
    else var r := Find(ts[1..], l); if r.None? then None else Some(r.value + 1)
  }

  function Evaluate(w: World, e: Expr, h: History): Result {
    if !e.sideEffects then Normal(h)
    else if w.throws(e.point, h) then Threw(h + [Statements.At(e.point)])
    else Normal(h + [Statements.At(e.point)])
  }

  function WithHistory(o: Result, h: History): Result {
    match o
    case Normal(_) => Normal(h)
    case Jump(to, _) => Jump(to, h)
    case Returned(v, at, _) => Returned(v, at, h)
    case Threw(_) => Threw(h)
    case OutOfFuel => OutOfFuel
  }

  /** A goto is resolved in the innermost enclosing list that holds its label
      further on; one that finds none shows up as a Jump that nobody took. */
  function RunList(w: World, ts: seq<Tree>, h: History, fuel: nat): Result
    decreases fuel, ts, 0
  {
    if ts == [] then Normal(h) else
    var o := RunTree(w, ts[0], h, fuel);
    if o.Normal? then RunList(w, ts[1..], o.h, fuel)
    else if o.Jump? && Find(ts[1..], o.to).Some? then
      RunList(w, ts[1..][Find(ts[1..], o.to).value..], o.h, fuel)
    else o
  }

  function RunTree(w: World, t: Tree, h: History, fuel: nat): Result
    decreases fuel, t, 1
  {
    match t
    case Eval(e) => Evaluate(w, e, h)
    case Cond(c, thn, els) =>
      var o := Evaluate(w, c, h);
      if !o.Normal? then o
      else if w.truth(c.point, h) then RunList(w, thn, o.h, fuel)
      else RunList(w, els, o.h, fuel)
    case Loop(body) =>
      var o := RunList(w, body, h, fuel);
      if !o.Normal? then o
      else if fuel == 0 then OutOfFuel
      else RunTree(w, t, o.h, fuel - 1)
    case Goto(l) => Jump(l, h)
    case Mark(_) => Normal(h)
    case Ret(e) =>
      var o := if e.None? then Normal(h) else Evaluate(w, e.value, h);
      if o.Normal? then Returned(if e.Some? then Some(e.value.point) else None, h, o.h) else o
    case TryFinally(body, fin) =>
      var o := RunList(w, body, h, fuel);
      if o.OutOfFuel? then o else
      var f := RunList(w, fin, o.h, fuel);
      if f.Normal? then WithHistory(o, f.h) else f
    case Bind(scope, body) => RunList(w, body, h + [Statements.Begins(scope)], fuel)
  }

  /** What is left to do in ts once an earlier list has ended with o. */
  function Resume(w: World, ts: seq<Tree>, o: Result, fuel: nat): Result {
    if o.Normal? then RunList(w, ts, o.h, fuel)
    else if o.Jump? && Find(ts, o.to).Some? then RunList(w, ts[Find(ts, o.to).value..], o.h, fuel)
    else o
  }

  lemma {:induction false} FindAppend(a: seq<Tree>, b: seq<Tree>, l: Label)
    ensures Find(a + b, l) ==
      if Find(a, l).Some? then Find(a, l)
      else if Find(b, l).Some? then Some(|a| + Find(b, l).value) else None
  {
    if a == [] {
      assert a + b == b;
    } else {
      assert (a + b)[0] == a[0] && (a + b)[1..] == a[1..] + b;
      FindAppend(a[1..], b, l);
    }
  }

  lemma RunOneThenRest(w: World, ts: seq<Tree>, h: History, fuel: nat)
    requires ts != []
    ensures RunList(w, ts, h, fuel) == Resume(w, ts[1..], RunTree(w, ts[0], h, fuel), fuel)
  {
    hide RunTree, Find;
  }

  lemma RunNone(w: World, h: History, fuel: nat)
    ensures RunList(w, [], h, fuel) == Normal(h)
  {
  }

  /** Running one list after another is running their concatenation. */
  lemma {:induction false} RunAppend(w: World, a: seq<Tree>, b: seq<Tree>, h: History, fuel: nat)
    ensures RunList(w, a + b, h, fuel) == Resume(w, b, RunList(w, a, h, fuel), fuel)
    decreases |a|
  {
    hide RunTree, Find, RunList;
    if a == [] {
      assert a + b == b;
      RunNone(w, h, fuel);
    } else {
      var rest := a[1..];
      assert (a + b)[0] == a[0] && (a + b)[1..] == rest + b;
      RunOneThenRest(w, a, h, fuel);
      RunOneThenRest(w, a + b, h, fuel);
      var o := RunTree(w, a[0], h, fuel);
      if o.Normal? {
        RunAppend(w, rest, b, o.h, fuel);
      } else if o.Jump? {
        FindAppend(rest, b, o.to);
        if Find(rest, o.to).Some? {
          var k := Find(rest, o.to).value;
          RunAppend(w, rest[k..], b, o.h, fuel);
          assert (rest + b)[k..] == rest[k..] + b;
        } else if Find(b, o.to).Some? {
          assert (rest + b)[|rest| + Find(b, o.to).value..] == b[Find(b, o.to).value..];
        }
      }
    }
  }

  // ---------- The labels and gotos of a tree ----------

  function Labels(t: Tree): multiset<Label>
    decreases t, 1
  {
    match t
    case Cond(_, a, b) => LabelsIn(a) + LabelsIn(b)
    case Loop(b) => LabelsIn(b)
    case Mark(l) => multiset{l}
    case TryFinally(a, b) => LabelsIn(a) + LabelsIn(b)
    case Bind(_, b) => LabelsIn(b)
    case _ => multiset{}
  }

  function LabelsIn(ts: seq<Tree>): multiset<Label>
    decreases ts, 0
  {
    if ts == [] then multiset{} else Labels(ts[0]) + LabelsIn(ts[1..])
  }

  function Gotos(t: Tree): set<Label>
    decreases t, 1
  {
    match t
    case Cond(_, a, b) => GotosIn(a) + GotosIn(b)
    case Loop(b) => GotosIn(b)
    case Goto(l) => {l}
    case TryFinally(a, b) => GotosIn(a) + GotosIn(b)
    case Bind(_, b) => GotosIn(b)
    case _ => {}
  }

  function GotosIn(ts: seq<Tree>): set<Label>
    decreases ts, 0
  {
    if ts == [] then {} else Gotos(ts[0]) + GotosIn(ts[1..])
  }

  lemma {:induction false} LabelsAppend(a: seq<Tree>, b: seq<Tree>)
    ensures LabelsIn(a + b) == LabelsIn(a) + LabelsIn(b)
    ensures GotosIn(a + b) == GotosIn(a) + GotosIn(b)
  {
    if a == [] {
      assert a + b == b;
    } else {
      assert (a + b)[0] == a[0] && (a + b)[1..] == a[1..] + b;
      LabelsAppend(a[1..], b);
    }
  }

  lemma LabelsOne(t: Tree)
    ensures LabelsIn([t]) == Labels(t) && GotosIn([t]) == Gotos(t)
  {
    assert [t][1..] == [];
  }

  lemma RunOne(w: World, t: Tree, h: History, fuel: nat)
    ensures RunList(w, [t], h, fuel) == RunTree(w, t, h, fuel)
  {
    assert [t][1..] == [];
  }

  /** A label a list jumps to is one that a goto in it names. */
  lemma {:induction false} JumpsAreGotos(w: World, ts: seq<Tree>, h: History, fuel: nat)
    ensures var o := RunList(w, ts, h, fuel); o.Jump? ==> o.to in GotosIn(ts)
    decreases fuel, ts, 0
  {
    if ts != [] {
      JumpsAreGotosTree(w, ts[0], h, fuel);
      var o := RunTree(w, ts[0], h, fuel);
      if o.Normal? {
        JumpsAreGotos(w, ts[1..], o.h, fuel);
      } else if o.Jump? && Find(ts[1..], o.to).Some? {
        var k := Find(ts[1..], o.to).value;
        JumpsAreGotos(w, ts[1..][k..], o.h, fuel);
        LabelsAppend(ts[1..][..k], ts[1..][k..]);
        assert ts[1..][..k] + ts[1..][k..] == ts[1..];
      }
    }
  }

  lemma {:induction false} JumpsAreGotosTree(w: World, t: Tree, h: History, fuel: nat)
    ensures var o := RunTree(w, t, h, fuel); o.Jump? ==> o.to in Gotos(t)
    decreases fuel, t, 1
  {
    match t
    case Cond(c, thn, els) =>
      var o := Evaluate(w, c, h);
      if o.Normal? {
        JumpsAreGotos(w, thn, o.h, fuel);
        JumpsAreGotos(w, els, o.h, fuel);
      }
    case Loop(body) =>
      JumpsAreGotos(w, body, h, fuel);
      var o := RunList(w, body, h, fuel);
      if o.Normal? && fuel > 0 { JumpsAreGotosTree(w, t, o.h, fuel - 1); }
    case TryFinally(body, fin) =>
      JumpsAreGotos(w, body, h, fuel);
      var o := RunList(w, body, h, fuel);
      if !o.OutOfFuel? { JumpsAreGotos(w, fin, o.h, fuel); }
    case Bind(scope, body) => JumpsAreGotos(w, body, h + [Statements.Begins(scope)], fuel);
    case _ =>
  }
}
