/** The statement visitor itself. */
module IRVisitors {
  // It keeps the tops of two stacks of labels, linked through the labels, marks
  // labels as used when it emits a jump, and appends trees to the innermost list
  // of a stack of lists.

  import opened Options
  import S = Statements
  import opened G = Generic
  import opened LoopLabels
  import opened LoopLowering
  import opened LoopGotos

  /** A stack of statement lists, with ts appended to the innermost one. */
  function AddTo(lists: seq<seq<Tree>>, ts: seq<Tree>): seq<seq<Tree>>
    requires lists != []
  {
    lists[..|lists| - 1] + [lists[|lists| - 1] + ts]
  }

  lemma AddNothing(lists: seq<seq<Tree>>)
    requires lists != []
    ensures AddTo(lists, []) == lists
  {
    assert lists[|lists| - 1] + [] == lists[|lists| - 1];
  }

  lemma AddTwice(lists: seq<seq<Tree>>, a: seq<Tree>, b: seq<Tree>)
    requires lists != []
    ensures AddTo(AddTo(lists, a), b) == AddTo(lists, a + b)
  {
    assert (lists[|lists| - 1] + a) + b == lists[|lists| - 1] + (a + b);
  }

  lemma AddInner(lists: seq<seq<Tree>>, ts: seq<Tree>)
    ensures AddTo(lists + [[]], ts) == lists + [ts]
  {
    assert [] + ts == ts;
  }

  lemma AddToNonempty(lists: seq<seq<Tree>>, ts: seq<Tree>)
    requires lists != []
    ensures AddTo(lists, ts) != []
  {
  }

  lemma SameLast<T>(a: seq<T>, x: T, b: seq<T>, y: T)
    requires a + [x] == b + [y]
    ensures a == b && x == y
  {
    assert (a + [x])[|a|] == x && (b + [y])[|b|] == y && |a| == |b|;
    assert a == (a + [x])[..|a|] && b == (b + [y])[..|b|];
  }

  class IRVisitor {
    const labels: S.LabelTable              // the labels of the function
    var breakLabel: Option<Label>
    var continueLabel: Option<Label>
    var chain: map<Label, Option<Label>>    // DECL_CHAIN of the labels pushed
    var lists: seq<seq<Tree>>               // the statement lists being collected
    var used: set<Label>                    // TREE_USED

    constructor (labels: S.LabelTable)
      ensures this.labels == labels && breakLabel == None && continueLabel == None
      ensures chain == map[] && lists == [[]] && used == {}
    {
      this.labels := labels;
      breakLabel, continueLabel := None, None;
      chain, lists, used := map[], [[]], {};
    }

    /** No link of a label that statement s does not push has changed. */
    static predicate LinksKept(before: map<Label, Option<Label>>, after: map<Label, Option<Label>>, keys: set<S.Id>) {
      forall l :: l in before && (l.UserLabel? || l.key !in keys) ==> l in after && after[l] == before[l]
    }

    method AddStmt(t: Tree)
      requires lists != []
      modifies this`lists
      ensures lists == AddTo(old(lists), Emit(t))
    {
      AddNothing(lists);
      if SideEffects(t) {
        lists := lists[..|lists| - 1] + [lists[|lists| - 1] + [t]];
      }
    }

    method PushStmtList()
      modifies this`lists
      ensures lists == old(lists) + [[]]
    {
      lists := lists + [[]];
    }

    method PopStmtList() returns (ts: seq<Tree>)
      requires lists != []
      modifies this`lists
      ensures old(lists) == lists + [ts]
    {
      ts := lists[|lists| - 1];
      lists := lists[..|lists| - 1];
    }

    method EmitLabel(l: Label)
      requires lists != []
      modifies this`lists
      ensures lists == AddTo(old(lists), DoLabel(l, used))
    {
      AddNothing(lists);
      if l in used {
        AddStmt(Mark(l));
      }
    }

    method EmitJump(target: Option<Label>)
      requires lists != []
      modifies this`lists, this`used
      ensures var c := DoJump(target, old(used)); lists == AddTo(old(lists), c.trees) && used == c.used
    {
      AddNothing(lists);
      if target.Some? {
        AddStmt(Goto(target.value));
        used := used + {target.value};
      }
    }

    method PushBreakLabel(s: S.Stmt) returns (l: Label)
      modifies this`breakLabel, this`chain
      ensures l == BreakLabel(S.RelatedId(s)) && breakLabel == Some(l)
      ensures chain == old(chain)[l := old(breakLabel)]
    {
      l := BreakLabel(S.RelatedId(s));
      chain := chain[l := breakLabel];
      breakLabel := Some(l);
    }

    method PopBreakLabel(l: Label)
      requires breakLabel == Some(l) && l in chain && lists != []
      modifies this`breakLabel, this`lists
      ensures breakLabel == chain[l] && lists == AddTo(old(lists), DoLabel(l, used))
    {
      breakLabel := chain[l];
      EmitLabel(l);
    }

    method PushContinueLabel(s: S.Stmt) returns (l: Label)
      modifies this`continueLabel, this`chain
      ensures l == ContinueLabel(S.RelatedId(s)) && continueLabel == Some(l)
      ensures chain == old(chain)[l := old(continueLabel)]
    {
      l := ContinueLabel(S.RelatedId(s));
      chain := chain[l := continueLabel];
      continueLabel := Some(l);
    }

    method PopContinueLabel(l: Label)
      requires continueLabel == Some(l) && l in chain && lists != []
      modifies this`continueLabel, this`lists
      ensures continueLabel == chain[l] && lists == AddTo(old(lists), DoLabel(l, used))
    {
      continueLabel := chain[l];
      EmitLabel(l);
    }

    /** Appends exactly the code of s and leaves both label stacks as found. */
    method Visit(s: S.Stmt)
      requires lists != [] && S.Distinct(s)
      modifies this
      ensures var c := Lower(labels, s, old(breakLabel), old(continueLabel), old(used));
        lists == AddTo(old(lists), c.trees) && used == c.used
      ensures breakLabel == old(breakLabel) && continueLabel == old(continueLabel)
      ensures LinksKept(old(chain), chain, S.Keys(s))
      decreases s, 1
    {
      hide AddTo;
      AddNothing(lists);
      match s
      case Null =>
      case ExpStmt(e) => AddStmt(Eval(e));
      case Compound(ss) => VisitCompound(ss);
      case Scope(_, hasVars, body) => VisitScope(s);
      case If(_, _, _) => VisitIf(s);
      case Do(_, _, _) => VisitDo(s);
      case For(_, _, _, _, _) => VisitFor(s);
      case Unrolled(_, _) => VisitUnrolled(s);
      case Break(to) => EmitJump(BreakTarget(labels, breakLabel, to));
      case Continue(to) => EmitJump(ContinueTarget(labels, continueLabel, to));
      case Labelled(l, body) =>
        used := used + {UserLabel(l)};
        EmitLabel(UserLabel(l));
        AddToNonempty(old(lists), [Mark(UserLabel(l))]);
        Visit(body);
        AddTwice(old(lists), [Mark(UserLabel(l))],
          Lower(labels, body, breakLabel, continueLabel, old(used) + {UserLabel(l)}).trees);
      case Return(e) => AddStmt(Ret(e));
      case TryFinally(_, _) => VisitTryFinally(s);
    }

    method VisitCompound(ss: seq<S.Stmt>)
      requires lists != [] && S.DistinctSeq(ss)
      modifies this
      ensures var c := LowerSeq(labels, ss, old(breakLabel), old(continueLabel), old(used));
        lists == AddTo(old(lists), c.trees) && used == c.used
      ensures breakLabel == old(breakLabel) && continueLabel == old(continueLabel)
      ensures LinksKept(old(chain), chain, S.KeysOfSeq(ss))
      decreases ss, 0
    {
      hide AddTo, Lower, S.Distinct, S.Keys;
      AddNothing(lists);
      ghost var done: seq<Tree> := [];
      ghost var all := LowerSeq(labels, ss, breakLabel, continueLabel, used);
      var i := 0;
      while i < |ss|
        invariant i <= |ss| && S.DistinctSeq(ss[i..]) && S.KeysOfSeq(ss[i..]) <= S.KeysOfSeq(ss)
        invariant lists != [] && lists == AddTo(old(lists), done)
        invariant breakLabel == old(breakLabel) && continueLabel == old(continueLabel)
        invariant LinksKept(old(chain), chain, S.KeysOfSeq(ss))
        invariant var d := LowerSeq(labels, ss[i..], breakLabel, continueLabel, used);
        all == Code(done + d.trees, d.used)
      {
        assert ss[i..][0] == ss[i] && ss[i..][1..] == ss[i + 1..];
        ghost var c := Lower(labels, ss[i], breakLabel, continueLabel, used);
        ghost var d := LowerSeq(labels, ss[i + 1..], breakLabel, continueLabel, c.used);
        ghost var was := chain;
        Visit(ss[i]);
        AddTwice(old(lists), done, c.trees);
        AddToNonempty(old(lists), done + c.trees);
        assert (done + c.trees) + d.trees == done + (c.trees + d.trees);
        done := done + c.trees;
        i := i + 1;
      }
      assert done + [] == done;
    }

    method VisitScope(s: S.Stmt)
      requires s.Scope? && lists != [] && S.Distinct(s.stmt)
      modifies this
      ensures var c := Scoped(s.id, s.hasVars, Lower(labels, s.stmt, old(breakLabel), old(continueLabel), old(used)));
        lists == AddTo(old(lists), c.trees) && used == c.used
      ensures breakLabel == old(breakLabel) && continueLabel == old(continueLabel)
      ensures LinksKept(old(chain), chain, S.Keys(s.stmt))
      decreases s, 0
    {
      hide Lower, S.Distinct, S.Keys;
      PushStmtList();
      Visit(s.stmt);
      ghost var c := Lower(labels, s.stmt, breakLabel, continueLabel, old(used));
      AddInner(old(lists), c.trees);
      var body := PopStmtList();
      SameLast(lists, body, old(lists), c.trees);
      if s.hasVars {
        AddStmt(Bind(s.id, body));
      } else {
        lists := lists[..|lists| - 1] + [lists[|lists| - 1] + body];
      }
    }

    /** Visit a statement into a list of its own. */
    method VisitApart(s: S.Stmt) returns (ts: seq<Tree>)
      requires lists != [] && S.Distinct(s)
      modifies this
      ensures Code(ts, used) == Lower(labels, s, old(breakLabel), old(continueLabel), old(used))
      ensures lists == old(lists) && breakLabel == old(breakLabel) && continueLabel == old(continueLabel)
      ensures LinksKept(old(chain), chain, S.Keys(s))
      decreases s, 2
    {
      hide Lower, S.Distinct, S.Keys;
      PushStmtList();
      Visit(s);
      ghost var c := Lower(labels, s, breakLabel, continueLabel, old(used));
      AddInner(old(lists), c.trees);
      ts := PopStmtList();
      SameLast(lists, ts, old(lists), c.trees);
    }

    method VisitIf(s: S.Stmt)
      requires s.If? && lists != [] && S.Distinct(s.ifbody) && S.Distinct(s.elsebody)
      modifies this
      ensures var c := LowerIf(labels, s, old(breakLabel), old(continueLabel), old(used));
        lists == AddTo(old(lists), c.trees) && used == c.used
      ensures breakLabel == old(breakLabel) && continueLabel == old(continueLabel)
      ensures LinksKept(old(chain), chain, S.Keys(s.ifbody) + S.Keys(s.elsebody))
      decreases s, 0
    {
      hide Lower, S.Distinct, S.Keys;
      var ifbody := VisitApart(s.ifbody);
      var elsebody := VisitApart(s.elsebody);
      AddStmt(Cond(s.cond, ifbody, elsebody));
    }

    method VisitTryFinally(s: S.Stmt)
      requires s.TryFinally? && lists != [] && S.Distinct(s.tryBody) && S.Distinct(s.finalBody)
      modifies this
      ensures var c := LowerTry(labels, s, old(breakLabel), old(continueLabel), old(used));
        lists == AddTo(old(lists), c.trees) && used == c.used
      ensures breakLabel == old(breakLabel) && continueLabel == old(continueLabel)
      ensures LinksKept(old(chain), chain, S.Keys(s.tryBody) + S.Keys(s.finalBody))
      decreases s, 0
    {
      hide Lower, S.Distinct, S.Keys;
      var trybody := VisitApart(s.tryBody);
      var finally := VisitApart(s.finalBody);
      AddStmt(Tree.TryFinally(trybody, finally));
    }

    /** The body of a loop, or one copy of an unrolled one; its continue label
        is registered under the statement `of`. */
    method VisitBody(of: S.Stmt, body: S.Stmt)
      requires lists != [] && S.Distinct(body) && breakLabel.Some?
      requires body != S.Null ==> S.RelatedId(of) !in S.Keys(body)
      modifies this
      ensures var c := LowerBody(labels, body, S.RelatedId(of), old(breakLabel).value, old(used));
        lists == AddTo(old(lists), c.trees) && used == c.used
      ensures breakLabel == old(breakLabel) && continueLabel == old(continueLabel)
      ensures forall l :: l in old(chain) && (l.UserLabel? || l.key !in S.Keys(body)) ==>
        l in chain && (chain[l] == old(chain)[l] || (body != S.Null && l == ContinueLabel(S.RelatedId(of))))
      decreases body, 2
    {
      hide AddTo, Lower, S.Distinct, S.Keys;
      AddNothing(lists);
      if body != S.Null {
        var lcontinue := PushContinueLabel(of);
        Visit(body);
        ghost var c := Lower(labels, body, breakLabel, Some(lcontinue), old(used));
        AddToNonempty(old(lists), c.trees);
        PopContinueLabel(lcontinue);
        AddTwice(old(lists), c.trees, DoLabel(lcontinue, used));
      }
    }

    method VisitDo(s: S.Stmt)
      requires s.Do? && lists != [] && S.Distinct(s.body) && s.id !in S.Keys(s.body)
      modifies this
      ensures var c := LowerDo(labels, s, old(used)); lists == AddTo(old(lists), c.trees) && used == c.used
      ensures breakLabel == old(breakLabel) && continueLabel == old(continueLabel)
      ensures LinksKept(old(chain), chain, {s.id} + S.Keys(s.body))
      decreases s, 0
    {
      hide AddTo, LowerBody, S.Distinct, S.Keys;
      var lbreak := PushBreakLabel(s);
      PushStmtList();
      ghost var inner := lists;
      VisitBody(s, s.body);
      ghost var c := LowerBody(labels, s.body, s.id, lbreak, old(used));
      AddToNonempty(inner, c.trees);
      AddStmt(Cond(s.until, [], [Goto(lbreak)]));
      used := used + {lbreak};
      AddTwice(inner, c.trees, ExitUnless(s.until, lbreak));
      AddInner(old(lists), c.trees + ExitUnless(s.until, lbreak));
      var body := PopStmtList();
      FinishLoop(body, c.trees + ExitUnless(s.until, lbreak), lbreak, old(lists));
    }

    method VisitFor(s: S.Stmt)
      requires s.For? && lists != [] && S.Distinct(s.body) && S.RelatedId(s) !in S.Keys(s.body)
      modifies this
      ensures var c := LowerFor(labels, s, old(used)); lists == AddTo(old(lists), c.trees) && used == c.used
      ensures breakLabel == old(breakLabel) && continueLabel == old(continueLabel)
      ensures LinksKept(old(chain), chain, {S.RelatedId(s)} + S.Keys(s.body))
      decreases s, 0
    {
      hide AddTo, LowerBody, S.Distinct, S.Keys;
      var lbreak := PushBreakLabel(s);
      PushStmtList();
      ghost var inner := lists;
      AddNothing(inner);
      if s.test.Some? {
        AddStmt(Cond(s.test.value, [], [Goto(lbreak)]));
        used := used + {lbreak};
      }
      AddToNonempty(inner, TestOf(s));
      ghost var c := LowerBody(labels, s.body, S.RelatedId(s), lbreak, used);
      VisitBody(s, s.body);
      AddTwice(inner, TestOf(s), c.trees);
      AddToNonempty(inner, TestOf(s) + c.trees);
      AddNothing(lists);
      if s.increment.Some? {
        AddStmt(Eval(s.increment.value));
      }
      AddTwice(inner, TestOf(s) + c.trees, EmitOpt(s.increment));
      assert (TestOf(s) + c.trees) + EmitOpt(s.increment) == TestOf(s) + (c.trees + EmitOpt(s.increment));
      AddInner(old(lists), TestOf(s) + (c.trees + EmitOpt(s.increment)));
      var body := PopStmtList();
      FinishLoop(body, TestOf(s) + (c.trees + EmitOpt(s.increment)), lbreak, old(lists));
    }

    /** Wrap a collected body into a LOOP_EXPR, followed by its break label. */
    method FinishLoop(body: seq<Tree>, ghost expected: seq<Tree>, lbreak: Label, ghost outer: seq<seq<Tree>>)
      requires breakLabel == Some(lbreak) && lbreak in chain && outer != []
      requires lists + [body] == outer + [expected]
      modifies this`lists, this`breakLabel
      ensures lists == AddTo(outer, ThenLabel(Code([Loop(expected)], used), lbreak).trees)
      ensures breakLabel == chain[lbreak]
    {
      SameLast(lists, body, outer, expected);
      AddStmt(Loop(body));
      PopBreakLabel(lbreak);
      AddTwice(outer, [Loop(body)], DoLabel(lbreak, used));
    }

    method VisitUnrolled(s: S.Stmt)
      requires s.Unrolled? && lists != [] && S.DistinctItems(s.items) && s.id !in S.KeysOfItems(s.items)
      modifies this
      ensures var c := LowerUnrolled(labels, s, old(used)); lists == AddTo(old(lists), c.trees) && used == c.used
      ensures breakLabel == old(breakLabel) && continueLabel == old(continueLabel)
      ensures LinksKept(old(chain), chain, {s.id} + S.KeysOfItems(s.items))
      decreases s, 0
    {
      hide AddTo, LowerItems, S.DistinctItems, S.KeysOfItems;
      var lbreak := PushBreakLabel(s);
      PushStmtList();
      ghost var inner := lists;
      ghost var c := LowerItems(labels, s.items, lbreak, used);
      VisitItems(s.items);
      AddToNonempty(inner, c.trees);
      EmitJump(breakLabel);
      AddTwice(inner, c.trees, [Goto(lbreak)]);
      AddInner(old(lists), c.trees + [Goto(lbreak)]);
      var body := PopStmtList();
      FinishLoop(body, c.trees + [Goto(lbreak)], lbreak, old(lists));
    }

    method VisitItems(ss: seq<S.Stmt>)
      requires lists != [] && S.DistinctItems(ss) && breakLabel.Some?
      modifies this
      ensures var c := LowerItems(labels, ss, old(breakLabel).value, old(used));
        lists == AddTo(old(lists), c.trees) && used == c.used
      ensures breakLabel == old(breakLabel) && continueLabel == old(continueLabel)
      ensures LinksKept(old(chain), chain, S.KeysOfItems(ss))
      decreases ss, 0
    {
      hide AddTo, LowerBody, S.Distinct, S.Keys;
      AddNothing(lists);
      ghost var done: seq<Tree> := [];
      ghost var all := LowerItems(labels, ss, breakLabel.value, used);
      var i := 0;
      while i < |ss|
        invariant i <= |ss| && S.DistinctItems(ss[i..]) && S.KeysOfItems(ss[i..]) <= S.KeysOfItems(ss)
        invariant lists != [] && lists == AddTo(old(lists), done)
        invariant breakLabel == old(breakLabel) && continueLabel == old(continueLabel)
        invariant LinksKept(old(chain), chain, S.KeysOfItems(ss))
        invariant var d := LowerItems(labels, ss[i..], breakLabel.value, used); all == Code(done + d.trees, d.used)
      {
        assert ss[i..][0] == ss[i] && ss[i..][1..] == ss[i + 1..];
        ghost var c := LowerBody(labels, ss[i], S.RelatedId(ss[i]), breakLabel.value, used);
        ghost var d := LowerItems(labels, ss[i + 1..], breakLabel.value, c.used);
        VisitBody(ss[i], ss[i]);
        AddTwice(old(lists), done, c.trees);
        AddToNonempty(old(lists), done + c.trees);
        assert (done + c.trees) + d.trees == done + (c.trees + d.trees);
        done := done + c.trees;
        i := i + 1;
      }
      assert done + [] == done;
    }
  }

  lemma OnlyList(ts: seq<Tree>)
    ensures AddTo([[]], ts) == [ts]
  {
    assert [[]][..0] + [ts] == [ts] && [] + ts == ts;
  }

  /** Generate the code of a function body. Its gotos find exactly one label
      each if and only if labelled jumps lead to their loops; and then the code
      does what the body says, in any world and however long it runs. */
  method BuildFunction(lt: S.LabelTable, fbody: S.Stmt) returns (trees: seq<Tree>)
    requires Body(lt, fbody)
    ensures trees == Lower(lt, fbody, None, None, {}).trees
    ensures Kept(trees, UserLabels(fbody))
    ensures AllGotosFindOneLabel(trees) <==> S.JumpsLead(lt, fbody)
    ensures S.JumpsLead(lt, fbody) ==>
      forall w: S.World, h: S.History, fuel: nat ::
        RunList(w, trees, h, fuel) == MeaningOf(S.Exec(w, lt, fbody, h, fuel))
  {
    hide RunList, Lower, S.Exec, S.Keys, S.WellPlaced, S.Distinct, S.JumpsLead, AllGotosFindOneLabel, Kept;
    var v := new IRVisitor(lt);
    v.Visit(fbody);
    trees := v.lists[0];
    ghost var code := Lower(lt, fbody, None, None, {}).trees;
    assert v.lists == [code] by { OnlyList(code); }
    LoweringKeeps(lt, fbody, None, None, {});
    GotosFindOneLabelIff(lt, fbody);
    if S.JumpsLead(lt, fbody) {
      forall w: S.World, h: S.History, fuel: nat
        ensures RunList(w, trees, h, fuel) == MeaningOf(S.Exec(w, lt, fbody, h, fuel))
      {
        LoweringPreservesMeaning(w, lt, fbody, h, fuel);
      }
    }
  }
}
