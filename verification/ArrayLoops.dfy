/** Array functions, their parameters and loops. */
module ArrayLoops {
  // This is the other traversal, which makes parameters and loop body; and what
  // calling the generated function with the collected arguments does.

  import opened Options
  import opened ArrayExps
  import opened ArrayOps
  import opened SecondPass

  // ---------- Parameters ----------

  function Writable(ps: seq<Param>): (r: seq<Param>)
    requires ps != []
    ensures |r| == |ps|
  {
    [ps[0].(isConst := false)] + ps[1..]
  }

  /** The parameters put in front when n have been made before; those of an
      assignment's target are in front of the others, the first one writable. */
  function NewParams(e: Exp, n: nat): (ps: seq<Param>)
    ensures |ps| == |Leaves(e)| > 0
  {
    match e
    case Cast(e1, t) => if IsArray(t) then NewParams(e1, n) else [ParamFor(e, n)]
    case Neg(e1, _) => NewParams(e1, n)
    case Com(e1, _) => NewParams(e1, n)
    case Bin(op, e1, e2, _) =>
      if IsBinArrayOp(op) then NewParams(e2, n + |Leaves(e1)|) + NewParams(e1, n) else [ParamFor(e, n)]
    case Assign(e1, e2, _) => Writable(NewParams(e1, n + |Leaves(e2)|)) + NewParams(e2, n)
    case BinAssign(_, e1, e2, _) => Writable(NewParams(e1, n + |Leaves(e2)|)) + NewParams(e2, n)
    case _ => [ParamFor(e, n)]
  }

  class LoopBuilder {
    var fparams: seq<Param>

    constructor ()
      ensures fparams == []
    {
      fparams := [];
    }

    method Leaf(e: Exp) returns (number: nat)
      modifies this
      ensures number == |old(fparams)| && fparams == [ParamFor(e, number)] + old(fparams)
    {
      number := |fparams|;
      fparams := [ParamFor(e, number)] + fparams;
    }

    /** Returns the loop body of e, and puts its parameters in front. */
    method Build(e: Exp) returns (r: LoopExp)
      modifies this
      ensures r == Body(e, |old(fparams)|)
      ensures fparams == NewParams(e, |old(fparams)|) + old(fparams)
      decreases e, 1
    {
      hide Leaves;
      match e {
        case Slice(_, _) => var n := Leaf(e); r := Indexed(n);
        case Literal(_, _) => var n := Leaf(e); r := Indexed(n);
        case Other(_, _) => var n := Leaf(e); r := Value(n);
        case Cast(e1, t) => if IsArray(t) { r := Build(e1); } else { var n := Leaf(e); r := Value(n); }
        case Neg(e1, _) => var x := Build(e1); r := LNeg(x);
        case Com(e1, _) => var x := Build(e1); r := LCom(x);
        case Bin(op, e1, e2, _) =>
          if IsBinArrayOp(op) {
            r := BuildBin(e);
          } else {
            var n := Leaf(e);
            r := Value(n);
          }
        case Assign(e1, e2, _) =>
          var x, y := BuildAssign(e);
          r := LAssign(x, LCast(y, NextOf(e1.ty)));
        case BinAssign(op, e1, e2, _) =>
          var x, y := BuildAssign(e);
          r := LBinAssign(op, x, y);
      }
    }

    method BuildBin(e: Exp) returns (r: LoopExp)
      requires e.Bin? && IsBinArrayOp(e.op)
      modifies this
      ensures r == Body(e, |old(fparams)|)
      ensures fparams == NewParams(e, |old(fparams)|) + old(fparams)
      decreases e, 0
    {
      hide Leaves, NewParams, Body;
      ghost var n := |fparams|;
      var x := Build(e.e1);
      var y := Build(e.e2);
      r := LBin(e.op, x, y);
      BinParams(e, n);
    }

    /** Assignments are evaluated from right to left; the target's parameter is
        not const. */
    method BuildAssign(e: Exp) returns (x: LoopExp, y: LoopExp)
      requires e.Assign? || e.BinAssign?
      modifies this
      ensures y == Body(e.e2, |old(fparams)|) && x == Body(e.e1, |old(fparams)| + |Leaves(e.e2)|)
      ensures fparams == NewParams(e, |old(fparams)|) + old(fparams)
      decreases e, 0
    {
      hide Leaves, NewParams, Body;
      AssignParams(e, |fparams|);
      y := Build(e.e2);
      x := Build(e.e1);
      ghost var front := NewParams(e.e1, |old(fparams)| + |Leaves(e.e2)|);
      ghost var rest := NewParams(e.e2, |old(fparams)|) + old(fparams);
      assert fparams == front + rest;
      assert fparams[0] == front[0] && fparams[1..] == front[1..] + rest;
      fparams := [fparams[0].(isConst := false)] + fparams[1..];
      assert fparams == Writable(front) + rest;
    }
  }

  lemma BinParams(e: Exp, n: nat)
    requires e.Bin? && IsBinArrayOp(e.op)
    ensures NewParams(e, n) == NewParams(e.e2, n + |Leaves(e.e1)|) + NewParams(e.e1, n)
    ensures Body(e, n) == LBin(e.op, Body(e.e1, n), Body(e.e2, n + |Leaves(e.e1)|))
  {
    hide Leaves;
  }

  lemma AssignParams(e: Exp, n: nat)
    requires e.Assign? || e.BinAssign?
    ensures NewParams(e, n) == Writable(NewParams(e.e1, n + |Leaves(e.e2)|)) + NewParams(e.e2, n)
  {
    hide Leaves;
  }

  /** Parameter k belongs to operand k, counted from the back. */
  ghost predicate Paired(ps: seq<Param>, leaves: seq<Exp>, n: nat) {
    && |ps| == |leaves|
    && forall k :: 0 <= k < |ps| ==>
         && ps[k].number == n + |ps| - 1 - k
         && ps[k].ty == leaves[|ps| - 1 - k].ty
         && ps[k].isArray == IsArrayLeaf(leaves[|ps| - 1 - k])
         && (ps[k].isConst ==> ps[k].isArray)
  }

  lemma PairedAppend(ps: seq<Param>, leaves: seq<Exp>, n: nat, ps': seq<Param>, leaves': seq<Exp>)
    requires Paired(ps, leaves, n) && Paired(ps', leaves', n + |leaves|)
    ensures Paired(ps' + ps, leaves + leaves', n)
  {
  }

  lemma {:induction false} ParamsPaired(e: Exp, n: nat)
    ensures Paired(NewParams(e, n), Leaves(e), n)
    decreases e, 1
  {
    hide Paired;
    match e
    case Cast(e1, t) => if IsArray(t) { ParamsPaired(e1, n); } else { PairedOne(e, n); }
    case Neg(e1, _) => ParamsPaired(e1, n);
    case Com(e1, _) => ParamsPaired(e1, n);
    case Bin(op, e1, e2, _) =>
      if IsBinArrayOp(op) {
        ParamsPaired(e1, n);
        ParamsPaired(e2, n + |Leaves(e1)|);
        PairedAppend(NewParams(e1, n), Leaves(e1), n, NewParams(e2, n + |Leaves(e1)|), Leaves(e2));
      } else {
        PairedOne(e, n);
      }
    case Assign(_, _, _) => AssignPaired(e, n);
    case BinAssign(_, _, _, _) => AssignPaired(e, n);
    case _ => PairedOne(e, n);
  }

  lemma PairedOne(e: Exp, n: nat)
    ensures Paired([ParamFor(e, n)], [e], n)
  {
  }

  lemma {:induction false} AssignPaired(e: Exp, n: nat)
    requires e.Assign? || e.BinAssign?
    ensures Paired(Writable(NewParams(e.e1, n + |Leaves(e.e2)|)) + NewParams(e.e2, n), Leaves(e.e2) + Leaves(e.e1), n)
    decreases e, 0
  {
    hide Paired, Leaves, NewParams;
    var e1, e2 := e.e1, e.e2;
    ParamsPaired(e1, n + |Leaves(e2)|);
    ParamsPaired(e2, n);
    var ps := NewParams(e1, n + |Leaves(e2)|);
    PairedWritable(ps, Leaves(e1), n + |Leaves(e2)|);
    PairedAppend(NewParams(e2, n), Leaves(e2), n, Writable(ps), Leaves(e1));
  }

  lemma PairedWritable(ps: seq<Param>, leaves: seq<Exp>, n: nat)
    requires ps != [] && Paired(ps, leaves, n)
    ensures Paired(Writable(ps), leaves, n)
  {
  }

  /** The two traversals agree: argument k always meets parameter k. */
  lemma TraversalsMeet(e: Exp)
    ensures Meet(NewParams(e, 0), Rev(Leaves(e)))
  {
    hide NewParams, Leaves, Rev;
    ParamsPaired(e, 0);
    var n := |Leaves(e)|;
    forall k | 0 <= k < n ensures Rev(Leaves(e))[k] == Leaves(e)[n - 1 - k] {
      RevAt(Leaves(e), n - 1 - k);
    }
  }

  /** In an assignment to a slice, parameter 0 is the destination, and it is
      the only array the function may write. */
  lemma DestinationFirst(e: Exp)
    requires (e.Assign? || e.BinAssign?) && e.e1.Slice? && NoAssign(e.e2)
    ensures var ps, args := NewParams(e, 0), Rev(Leaves(e));
      && args[0] == e.e1 && !ps[0].isConst && ps[0].number == |args| - 1
      && (forall k :: 0 < k < |ps| ==> (ps[k].isConst <==> ps[k].isArray))
  {
    hide NewParams, Leaves, Rev;
    TraversalsMeet(e);
    OperandsConst(e.e2, 0);
    SplitAssign(e);
    var rest := NewParams(e.e2, 0);
    forall k | 0 < k < |NewParams(e, 0)| ensures NewParams(e, 0)[k] == rest[k - 1] {
    }
  }

  lemma SplitAssign(e: Exp)
    requires (e.Assign? || e.BinAssign?) && e.e1.Slice?
    ensures NewParams(e, 0) == [ParamFor(e.e1, |Leaves(e.e2)|).(isConst := false)] + NewParams(e.e2, 0)
    ensures Rev(Leaves(e)) == [e.e1] + Rev(Leaves(e.e2)) && |Leaves(e)| == |Leaves(e.e2)| + 1
  {
    hide Rev;
    RevAppend(Leaves(e.e2), Leaves(e.e1));
    SpellLeaf(e.e1);
  }

  lemma {:induction false} OperandsConst(e: Exp, n: nat)
    requires NoAssign(e)
    ensures forall k :: 0 <= k < |NewParams(e, n)| ==> (NewParams(e, n)[k].isConst <==> NewParams(e, n)[k].isArray)
  {
    match e
    case Cast(e1, t) => if IsArray(t) { OperandsConst(e1, n); }
    case Neg(e1, _) => OperandsConst(e1, n);
    case Com(e1, _) => OperandsConst(e1, n);
    case Bin(op, e1, e2, _) =>
      if IsBinArrayOp(op) {
        OperandsConst(e1, n);
        OperandsConst(e2, n + |Leaves(e1)|);
      }
    case _ =>
  }

  // ---------- Running the loop body ----------

  /** A call of the generated function: its parameters and the arguments. */
  datatype Activation = Activation(params: seq<Param>, args: seq<Exp>)

  /** The argument that is called p<n>, or c<n>, inside the function: that of
      the first parameter with this name. */
  function Lookup(params: seq<Param>, args: seq<Exp>, isArray: bool, n: nat): Option<Exp>
    decreases |params|
  {
    if params == [] || args == [] then None
    else if params[0].isArray == isArray && params[0].number == n then Some(args[0])
    else Lookup(params[1..], args[1..], isArray, n)
  }

  function ValueOf(act: Activation, isArray: bool, n: nat): Option<Exp> {
    Lookup(act.params, act.args, isArray, n)
  }

  /** If parameters meet arguments, each name stands for the argument at its
      parameter's place. */
  lemma {:induction false} MeetBinds(params: seq<Param>, args: seq<Exp>, k: nat)
    requires Meet(params, args) && k < |args|
    ensures Lookup(params, args, IsArrayLeaf(args[k]), |args| - 1 - k) == Some(args[k])
    decreases k
  {
    if k > 0 {
      MeetBinds(params[1..], args[1..], k - 1);
    }
  }

  /** All names in l have arguments, arrays long enough for index i. */
  predicate Readable(mem: seq<int>, act: Activation, l: LoopExp, i: nat) {
    match l
    case Value(n) => ValueOf(act, false, n).Some?
    case Indexed(n) =>
      var a := ValueOf(act, true, n);
      a.Some? && IsArrayLeaf(a.value) && HasElement(mem, a.value, i)
    case LNeg(x) => Readable(mem, act, x, i)
    case LCom(x) => Readable(mem, act, x, i)
    case LBin(_, x, y) => Readable(mem, act, x, i) && Readable(mem, act, y, i)
    case LCast(x, _) => Readable(mem, act, x, i)
    case LStride(_) => true
    case _ => false
  }

  function Eval(ar: Arithmetic, mem: seq<int>, act: Activation, l: LoopExp, i: nat): int
    requires Readable(mem, act, l, i)
  {
    match l
    case Value(n) => ScalarValue(ar, ValueOf(act, false, n).value)
    case Indexed(n) => Element(ar, mem, ValueOf(act, true, n).value, i)
    case LNeg(x) => ar.neg(Eval(ar, mem, act, x, i))
    case LCom(x) => ar.com(Eval(ar, mem, act, x, i))
    case LBin(op, x, y) => ar.bin(op, Eval(ar, mem, act, x, i), Eval(ar, mem, act, y, i))
    case LCast(x, d) => ar.cast(d, Eval(ar, mem, act, x, i))
    case LStride(d) => ar.stride(d)
  }

  /** No array-typed cast or opaque array among the operands, and no operator on
      arrays other than those for array operations. */
  predicate Plain(e: Exp) {
    match e
    case Cast(_, t) => t.kind == NotArray
    case Other(_, t) => t.kind == NotArray
    case Neg(e1, _) => Plain(e1)
    case Com(e1, _) => Plain(e1)
    case Bin(op, e1, e2, t) => if op.NoArrayOp? then t.kind == NotArray else Plain(e1) && Plain(e2)
    case Assign(e1, e2, _) => Plain(e1) && Plain(e2)
    case BinAssign(op, e1, e2, t) => (op.NoArrayOp? ==> t.kind == NotArray) && Plain(e1) && Plain(e2)
    case _ => true
  }

  predicate NoVoidLiterals(operands: seq<Exp>) {
    forall k :: 0 <= k < |operands| && operands[k].Literal? ==> operands[k].ty.elem != "v"
  }

  /** What validity comes down to. */
  lemma {:induction false} ValidIff(e: Exp)
    requires WellTyped(e)
    ensures IsArrayOpValid(e) <==> Plain(e) && NoVoidLiterals(Leaves(e))
    decreases e, 1
  {
    match e
    case Literal(_, _) => assert Leaves(e)[0] == e;
    case Neg(e1, _) => ScalarIsValid(e1); ValidIff(e1);
    case Com(e1, _) => ScalarIsValid(e1); ValidIff(e1);
    case Bin(op, _, _, _) => if IsBinArrayOp(op) { OperandsValidIff(e); }
    case Assign(_, _, _) => OperandsValidIff(e);
    case BinAssign(_, _, _, _) => OperandsValidIff(e);
    case _ =>
  }

  lemma {:induction false} OperandsValidIff(e: Exp)
    requires e.Bin? || e.Assign? || e.BinAssign?
    requires WellTyped(e.e1) && WellTyped(e.e2)
    ensures IsArrayOpValid(e.e1) && IsArrayOpValid(e.e2) <==>
      Plain(e.e1) && Plain(e.e2) && NoVoidLiterals(Leaves(e.e1)) && NoVoidLiterals(Leaves(e.e2))
    ensures !IsArray(e.e1.ty) ==> IsArrayOpValid(e.e1)
    ensures !IsArray(e.e2.ty) ==> IsArrayOpValid(e.e2)
    ensures NoVoidLiterals(Leaves(e.e1) + Leaves(e.e2)) == NoVoidLiterals(Leaves(e.e2) + Leaves(e.e1)) ==
      (NoVoidLiterals(Leaves(e.e1)) && NoVoidLiterals(Leaves(e.e2)))
    decreases e, 0
  {
    hide NoVoidLiterals;
    ScalarIsValid(e.e1);
    ScalarIsValid(e.e2);
    ValidIff(e.e1);
    ValidIff(e.e2);
    VoidAppend(Leaves(e.e1), Leaves(e.e2));
    VoidAppend(Leaves(e.e2), Leaves(e.e1));
  }

  lemma VoidAppend(a: seq<Exp>, b: seq<Exp>)
    ensures NoVoidLiterals(a + b) <==> NoVoidLiterals(a) && NoVoidLiterals(b)
  {
    if NoVoidLiterals(a + b) {
      assert forall k :: 0 <= k < |a| ==> (a + b)[k] == a[k];
      assert forall k :: 0 <= k < |b| ==> (a + b)[|a| + k] == b[k];
    }
  }

  lemma ScalarIsValid(e: Exp)
    ensures !IsArray(e.ty) && WellTyped(e) ==> IsArrayOpValid(e)
  {
  }

  /** Names n, n + 1, ... stand for the operands of e. */
  ghost predicate Bound(act: Activation, leaves: seq<Exp>, n: nat) {
    forall k :: 0 <= k < |leaves| ==> ValueOf(act, IsArrayLeaf(leaves[k]), n + k) == Some(leaves[k])
  }

  /** The loop body at index i computes element i of the vector expression. */
  lemma {:induction false} BodyMeans(ar: Arithmetic, mem: seq<int>, act: Activation, e: Exp, n: nat, i: nat)
    requires NoAssign(e) && Plain(e) && HasElement(mem, e, i) && Bound(act, Leaves(e), n)
    ensures Readable(mem, act, Body(e, n), i)
    ensures Eval(ar, mem, act, Body(e, n), i) == Element(ar, mem, e, i)
    decreases e, 1
  {
    match e
    case Neg(e1, _) => BodyMeans(ar, mem, act, e1, n, i);
    case Com(e1, _) => BodyMeans(ar, mem, act, e1, n, i);
    case Bin(op, e1, e2, _) =>
      if IsBinArrayOp(op) {
        BinMeans(ar, mem, act, e, n, i);
      } else {
        assert Leaves(e)[0] == e;
      }
    case Slice(_, _) => assert Leaves(e)[0] == e;
    case Literal(_, _) => assert Leaves(e)[0] == e;
    case Other(_, _) => assert Leaves(e)[0] == e;
    case Cast(_, _) => assert Leaves(e)[0] == e;
    case Assign(_, _, _) =>
    case BinAssign(_, _, _, _) =>
  }

  lemma {:induction false} BinMeans(ar: Arithmetic, mem: seq<int>, act: Activation, e: Exp, n: nat, i: nat)
    requires e.Bin? && IsBinArrayOp(e.op)
    requires NoAssign(e) && Plain(e) && HasElement(mem, e, i) && Bound(act, Leaves(e), n)
    ensures Readable(mem, act, Body(e, n), i)
    ensures Eval(ar, mem, act, Body(e, n), i) == Element(ar, mem, e, i)
    decreases e, 0
  {
    hide Bound;
    BoundParts(act, Leaves(e.e1), Leaves(e.e2), n);
    BodyMeans(ar, mem, act, e.e1, n, i);
    BodyMeans(ar, mem, act, e.e2, n + |Leaves(e.e1)|, i);
  }

  lemma BoundParts(act: Activation, a: seq<Exp>, b: seq<Exp>, n: nat)
    requires Bound(act, a + b, n)
    ensures Bound(act, a, n) && Bound(act, b, n + |a|)
  {
    forall k | 0 <= k < |a| ensures ValueOf(act, IsArrayLeaf(a[k]), n + k) == Some(a[k]) { assert (a + b)[k] == a[k]; }
    forall k | 0 <= k < |b| ensures ValueOf(act, IsArrayLeaf(b[k]), n + |a| + k) == Some(b[k]) {
      assert (a + b)[|a| + k] == b[k];
    }
  }

  // ---------- The generated function ----------

  /** foreach (p; 0 .. params[0].length) body; */
  datatype Function = Function(params: seq<Param>, body: LoopExp, result: Ty)

  /** The slice an operand occupies at index i is the destination itself or
      apart from it. */
  predicate Apart(e: Exp, d: Span) {
    match e
    case Slice(s, _) => s.lo == d.lo || s.lo + s.len <= d.lo || d.lo + d.len <= s.lo
    case Neg(e1, _) => Apart(e1, d)
    case Com(e1, _) => Apart(e1, d)
    case Bin(op, e1, e2, _) => IsBinArrayOp(op) ==> Apart(e1, d) && Apart(e2, d)
    case _ => true
  }

  /** Element i is not changed by writing elements of d before i. */
  lemma {:induction false} ElementKept(ar: Arithmetic, was: seq<int>, now: seq<int>, e: Exp, d: Span, i: nat)
    requires |was| == |now| && HasElement(was, e, i) && Apart(e, d) && i < d.len && d.lo + d.len <= |was|
    requires forall j :: 0 <= j < |was| && !(d.lo <= j < d.lo + i) ==> now[j] == was[j]
    ensures HasElement(now, e, i) && Element(ar, now, e, i) == Element(ar, was, e, i)
  {
    match e
    case Neg(e1, _) => ElementKept(ar, was, now, e1, d, i);
    case Com(e1, _) => ElementKept(ar, was, now, e1, d, i);
    case Bin(op, e1, e2, _) =>
      if IsBinArrayOp(op) {
        ElementKept(ar, was, now, e1, d, i);
        ElementKept(ar, was, now, e2, d, i);
      }
    case _ =>
  }

  /** What an array operation is supposed to store at index i. */
  function Stored(ar: Arithmetic, mem: seq<int>, e: Exp, i: nat): int
    requires (e.Assign? || e.BinAssign?) && HasElement(mem, e.e1, i) && HasElement(mem, e.e2, i)
  {
    var v := Element(ar, mem, e.e2, i);
    ar.cast(e.ty.elem, if e.Assign? then v else ar.bin(e.op, Element(ar, mem, e.e1, i), v))
  }

  /** A single assignment to a slice, as the front end accepts it. */
  predicate Operation(e: Exp) {
    (e.Assign? || e.BinAssign?) && e.e1.Slice? && WellTyped(e) && IsArrayOpValid(e) && NoAssign(e.e2)
  }

  /** The slices have the length of the destination at least, and overlap with
      it only if they start where it starts. */
  predicate Fits(e: Exp, mem: seq<int>)
    requires Operation(e)
  {
    var d := e.e1.span;
    d.lo + d.len <= |mem| && Apart(e.e2, d) && forall i: nat :: i < d.len ==> HasElement(mem, e.e2, i)
  }

  /** One iteration of the generated loop. It may write the array of its first
      parameter. */
  method Iterate(ar: Arithmetic, f: Function, args: seq<Exp>, mem: array<int>, i: nat)
    requires f.body.LAssign? || f.body.LBinAssign?
    requires f.body.e1.Indexed? && f.params != [] && !f.params[0].isConst && args != [] && args[0].Slice?
    requires var act := Activation(f.params, args);
      && ValueOf(act, true, f.body.e1.number) == Some(args[0])
      && Readable(mem[..], act, f.body.e1, i) && Readable(mem[..], act, f.body.e2, i)
    modifies mem
    ensures var v := Eval(ar, old(mem[..]), Activation(f.params, args), f.body.e2, i);
      mem[..] == old(mem[..])[args[0].span.lo + i :=
        if f.body.LAssign? then v
        else ar.cast(f.result.elem, ar.bin(f.body.op, old(mem[..])[args[0].span.lo + i], v))]
  {
    var v := Eval(ar, mem[..], Activation(f.params, args), f.body.e2, i);
    if f.body.LBinAssign? {
      v := ar.cast(f.result.elem, ar.bin(f.body.op, mem[args[0].span.lo + i], v));
    }
    mem[args[0].span.lo + i] := v;
  }

  lemma OperandsTyped(e: Exp)
    ensures Typed(NewParams(e, 0), Leaves(e), 0)
  {
    hide Leaves, NewParams, Rev, NamedType;
    TraversalsMeet(e);
    var n := |Leaves(e)|;
    forall k | 0 <= k < n ensures NamedType(NewParams(e, 0), IsArrayLeaf(Leaves(e)[k]), 0 + k) ==
      Some(Leaves(e)[k].ty.elem) {
      RevAt(Leaves(e), k);
      MeetTypes(NewParams(e, 0), Rev(Leaves(e)), n - 1 - k);
    }
  }

  /** The semantic pass over the generated function leaves its loop body alone
      exactly if no pointer is added to or subtracted from. */
  lemma BodyStaysIff(e: Exp)
    ensures Analysed(NewParams(e, 0), Body(e, 0)) == Body(e, 0) <==> NoPointers(e)
  {
    OperandsTyped(e);
    AnalysedIff(NewParams(e, 0), e, 0);
  }

  lemma AnalysedParts(params: seq<Param>, l: LoopExp)
    requires l.LAssign? && l.e2.LCast?
    ensures Analysed(params, l).LAssign? && Analysed(params, l).e2 == LCast(Analysed(params, l.e2.e1), l.e2.elem)
  {
  }

  lemma DifferenceAssigned(p: int, q: int)
    requires WellTyped(OfPointers(p, q)) && IsArrayOpValid(OfPointers(p, q)) && NoAssign(OfPointers(p, q))
    ensures var e := Assign(Slice(Span(0, 1), Ty(DArray, "l")), OfPointers(p, q), Ty(DArray, "l"));
      && Operation(e) && Leaves(e) == Leaves(e.e2) + Leaves(e.e1)
      && Body(e, 0).LAssign? && Body(e, 0).e2 == LCast(Body(e.e2, 0), "l")
  {
    var target := Slice(Span(0, 1), Ty(DArray, "l"));
    assert WellTyped(target) && IsArrayOpValid(target);
    assert OfPointers(p, q).ty == Ty(DArray, "l");
  }

  /** a[] = b[] + (p - q): what divides by the size of an int once in the operand
      does so twice in the loop. */
  lemma PointersDividedTwice(p: int, q: int)
    ensures var e := Assign(Slice(Span(0, 1), Ty(DArray, "l")), OfPointers(p, q), Ty(DArray, "l"));
      && Operation(e)
      && Body(e, 0).e2 == LCast(LBin(Add, Indexed(0), LBin(Div, LBin(Min, Value(1), Value(2)), Value(3))), "l")
      && Analysed(NewParams(e, 0), Body(e, 0)).e2 ==
         LCast(LBin(Add, Indexed(0), LBin(Div, LBin(Div, LBin(Min, Value(1), Value(2)), LStride("Pi")), Value(3))), "l")
  {
    hide NewParams, WellTyped, IsArrayOpValid, NoAssign, Leaves, Body, Analysed, OfPointers;
    var e := Assign(Slice(Span(0, 1), Ty(DArray, "l")), OfPointers(p, q), Ty(DArray, "l"));
    DifferenceTyped(p, q);
    DifferenceAssigned(p, q);
    OperandsTyped(e);
    TypedParts(NewParams(e, 0), Leaves(e.e2), Leaves(e.e1), 0);
    DividedTwice(NewParams(e, 0), p, q);
    AnalysedParts(NewParams(e, 0), Body(e, 0));
  }

  /** Call an array function: every element of the destination gets its
      element-wise value, nothing else changes. Its loop body is what the
      semantic pass leaves. */
  method CallFunction(ar: Arithmetic, ghost e: Exp, f: Function, args: seq<Exp>, mem: array<int>)
    requires Operation(e) && NoPointers(e) && Fits(e, mem[..])
    requires f.params == NewParams(e, 0) && f.body == Body(e, 0) && f.result.elem == e.ty.elem && args == Rev(Leaves(e))
    modifies mem
    ensures var d := e.e1.span;
      && (forall i: nat :: i < d.len ==> mem[d.lo + i] == Stored(ar, old(mem[..]), e, i))
      && (forall j :: 0 <= j < mem.Length && !(d.lo <= j < d.lo + d.len) ==> mem[j] == old(mem[j]))
  {
    hide Leaves, Rev, Body, NewParams, ValueOf, Eval, Readable, Element, HasElement, Plain, NoAssign, WellTyped,
      IsArrayOpValid, Apart, Done, Stored, NoPointers, Analysed;
    var d := e.e1.span;
    ghost var was := mem[..];
    BodyStaysIff(e);
    var g := f.(body := Analysed(f.params, f.body));
    SplitAssign(e);
    DestinationFirst(e);
    BodyForm(e);
    DoneNothing(ar, was, e);
    var i := 0;
    while i < args[0].span.len
      invariant i <= d.len && mem[..] == Done(ar, was, e, i)
    {
      IterationMeans(ar, was, e, i);
      Iterate(ar, g, args, mem, i);
      i := i + 1;
    }
    DoneSoFar(ar, was, e, i);
  }

  lemma BodyForm(e: Exp)
    requires Operation(e)
    ensures Body(e, 0) ==
      if e.Assign? then LAssign(Indexed(|Leaves(e.e2)|), LCast(Body(e.e2, 0), e.ty.elem))
      else LBinAssign(e.op, Indexed(|Leaves(e.e2)|), Body(e.e2, 0))
  {
    assert WellTyped(e.e1) && NextOf(e.e1.ty) == e.ty.elem;
  }

  lemma DoneNothing(ar: Arithmetic, was: seq<int>, e: Exp)
    requires Operation(e) && Fits(e, was)
    ensures Done(ar, was, e, 0) == was
  {
  }

  /** One iteration stores the next element. */
  lemma IterationMeans(ar: Arithmetic, was: seq<int>, e: Exp, i: nat)
    requires Operation(e) && Fits(e, was) && i < e.e1.span.len
    ensures var now, lo := Done(ar, was, e, i), e.e1.span.lo;
      var act := Activation(NewParams(e, 0), Rev(Leaves(e)));
      var rhs := Body(e, 0).e2;
      && Body(e, 0).e1.Indexed? && ValueOf(act, true, Body(e, 0).e1.number) == Some(e.e1)
      && Readable(now, act, Body(e, 0).e1, i) && Readable(now, act, rhs, i)
      && Done(ar, was, e, i + 1) == now[lo + i :=
           if e.Assign? then Eval(ar, now, act, rhs, i)
           else ar.cast(e.ty.elem, ar.bin(e.op, now[lo + i], Eval(ar, now, act, rhs, i)))]
  {
    hide Leaves, Rev, Body, NewParams, ValueOf, Element, Plain, NoAssign, WellTyped, IsArrayOpValid, Apart;
    var now, d := Done(ar, was, e, i), e.e1.span;
    var act := Activation(NewParams(e, 0), Rev(Leaves(e)));
    SplitAssign(e);
    BodyForm(e);
    ValidIff(e);
    PlainParts(e);
    ArgumentsBound(e);
    DoneSoFar(ar, was, e, i);
    ElementKept(ar, was, now, e.e2, d, i);
    BodyMeans(ar, now, act, e.e2, 0, i);
    TargetElement(ar, was, e, i);
  }

  lemma PlainParts(e: Exp)
    requires Operation(e) && Plain(e)
    ensures Plain(e.e2)
  {
  }

  lemma TargetElement(ar: Arithmetic, was: seq<int>, e: Exp, i: nat)
    requires Operation(e) && Fits(e, was) && i < e.e1.span.len
    ensures HasElement(was, e.e1, i) && Element(ar, was, e.e1, i) == was[e.e1.span.lo + i]
    ensures forall now: seq<int> :: |now| == |was| ==> HasElement(now, e.e1, i)
  {
  }

  /** Since the traversals meet, the names in the loop body stand for the
      operands they were made for. */
  lemma ArgumentsBound(e: Exp)
    requires Operation(e)
    ensures var act := Activation(NewParams(e, 0), Rev(Leaves(e)));
      Bound(act, Leaves(e.e2), 0) && ValueOf(act, true, |Leaves(e.e2)|) == Some(e.e1)
  {
    hide Leaves, NewParams, Rev, Lookup;
    SplitAssign(e);
    TraversalsMeet(e);
    var params, args, n := NewParams(e, 0), Rev(Leaves(e)), |Leaves(e.e2)|;
    MeetBinds(params, args, 0);
    forall k | 0 <= k < n ensures Lookup(params, args, IsArrayLeaf(Leaves(e.e2)[k]), k) == Some(Leaves(e.e2)[k]) {
      RevAt(Leaves(e.e2), k);
      MeetBinds(params, args, n - k);
    }
  }

  /** Memory when the first i elements have been stored. */
  function Done(ar: Arithmetic, was: seq<int>, e: Exp, i: nat): (now: seq<int>)
    requires Operation(e) && Fits(e, was) && i <= e.e1.span.len
    ensures |now| == |was|
  {
    if i == 0 then was else Done(ar, was, e, i - 1)[e.e1.span.lo + i - 1 := Stored(ar, was, e, i - 1)]
  }

  lemma {:induction false} DoneSoFar(ar: Arithmetic, was: seq<int>, e: Exp, i: nat)
    requires Operation(e) && Fits(e, was) && i <= e.e1.span.len
    ensures var d := e.e1.span;
      var now := Done(ar, was, e, i);
      && (forall k: nat :: k < i ==> now[d.lo + k] == Stored(ar, was, e, k))
      && (forall j :: 0 <= j < |was| && !(d.lo <= j < d.lo + i) ==> now[j] == was[j])
  {
    if i > 0 { DoneSoFar(ar, was, e, i - 1); }
  }
}
