/** What the semantic pass over a generated function does to its loop body. */
module SecondPass {
  // The operands have been through the semantic pass before, which has replaced
  // arithmetic on pointers by arithmetic on addresses. The operators are copied
  // into the loop body without their types, so that it is done once more.

  import opened Options
  import opened ArrayExps
  import opened ArrayOps

  function PointerType(d: Deco): Option<Deco> {
    if d != "" && d[0] == 'P' then Some(d) else None
  }

  /** A sum or difference of operands that may be pointers. */
  function PointerSum(op: BinOp, p: Option<Deco>, q: Option<Deco>): Option<Deco> {
    if (op == Add || op == Min) && p.Some? && q.None? then p
    else if op == Add && p.None? && q.Some? then q
    else None
  }

  /** The type of the parameter p<n>, or c<n>, or of its elements. */
  function NamedType(params: seq<Param>, isArray: bool, n: nat): Option<Deco>
    decreases |params|
  {
    if params == [] then None
    else if params[0].isArray == isArray && params[0].number == n then Some(params[0].ty.elem)
    else NamedType(params[1..], isArray, n)
  }

  /** The type of a loop expression, if it is a pointer. */
  function PointerOf(params: seq<Param>, l: LoopExp): Option<Deco> {
    match l
    case Value(n) => var t := NamedType(params, false, n); if t.None? then None else PointerType(t.value)
    case Indexed(n) => var t := NamedType(params, true, n); if t.None? then None else PointerType(t.value)
    case LBin(op, x, y) => PointerSum(op, PointerOf(params, x), PointerOf(params, y))
    case _ => None
  }

  predicate Scales(op: BinOp, p: Option<Deco>, q: Option<Deco>) {
    (op == Min && p.Some?) || (op == Add && p.Some? != q.Some?)
  }

  /** An offset is multiplied by the size of what the pointer points to, the
      difference of two pointers is divided by it. */
  function Scaled(op: BinOp, x: LoopExp, y: LoopExp, p: Option<Deco>, q: Option<Deco>): LoopExp {
    if op == Min && p.Some? && q.Some? then LBin(Div, LBin(Min, x, y), LStride(q.value))
    else if (op == Add || op == Min) && p.Some? && q.None? then LBin(op, x, LBin(Mul, y, LStride(p.value)))
    else if op == Add && p.None? && q.Some? then LBin(Add, y, LBin(Mul, x, LStride(q.value)))
    else LBin(op, x, y)
  }

  function Analysed(params: seq<Param>, l: LoopExp): LoopExp {
    match l
    case LNeg(x) => LNeg(Analysed(params, x))
    case LCom(x) => LCom(Analysed(params, x))
    case LBin(op, x, y) =>
      Scaled(op, Analysed(params, x), Analysed(params, y), PointerOf(params, x), PointerOf(params, y))
    case LCast(x, d) => LCast(Analysed(params, x), d)
    case LAssign(x, y) => LAssign(Analysed(params, x), Analysed(params, y))
    case LBinAssign(op, x, y) => LBinAssign(op, Analysed(params, x), Analysed(params, y))
    case _ => l
  }

  /** The type of an operand as it is, if it is a pointer. */
  function PointerIn(e: Exp): Option<Deco> {
    match e
    case Cast(e1, t) => if IsArray(t) then PointerIn(e1) else PointerType(t.elem)
    case Bin(op, e1, e2, t) =>
      if IsBinArrayOp(op) then PointerSum(op, PointerIn(e1), PointerIn(e2)) else PointerType(t.elem)
    case Slice(_, t) => PointerType(t.elem)
    case Literal(_, t) => PointerType(t.elem)
    case Other(_, t) => PointerType(t.elem)
    case _ => None
  }

  /** No pointer is added to or subtracted from. */
  predicate NoPointers(e: Exp) {
    match e
    case Cast(e1, t) => IsArray(t) ==> NoPointers(e1)
    case Neg(e1, _) => NoPointers(e1)
    case Com(e1, _) => NoPointers(e1)
    case Bin(op, e1, e2, _) =>
      IsBinArrayOp(op) ==> NoPointers(e1) && NoPointers(e2) && !Scales(op, PointerIn(e1), PointerIn(e2))
    case Assign(e1, e2, _) => NoPointers(e1) && NoPointers(e2)
    case BinAssign(_, e1, e2, _) => NoPointers(e1) && NoPointers(e2)
    case _ => true
  }

  /** Parameters n, n + 1, ... have the types of the operands. */
  ghost predicate Typed(params: seq<Param>, leaves: seq<Exp>, n: nat) {
    forall k :: 0 <= k < |leaves| ==> NamedType(params, IsArrayLeaf(leaves[k]), n + k) == Some(leaves[k].ty.elem)
  }

  lemma TypedParts(params: seq<Param>, a: seq<Exp>, b: seq<Exp>, n: nat)
    requires Typed(params, a + b, n)
    ensures Typed(params, a, n) && Typed(params, b, n + |a|)
  {
    forall k | 0 <= k < |a| ensures NamedType(params, IsArrayLeaf(a[k]), n + k) == Some(a[k].ty.elem) {
      assert (a + b)[k] == a[k];
    }
    forall k | 0 <= k < |b| ensures NamedType(params, IsArrayLeaf(b[k]), n + |a| + k) == Some(b[k].ty.elem) {
      assert (a + b)[|a| + k] == b[k];
    }
  }

  lemma {:induction false} MeetTypes(params: seq<Param>, args: seq<Exp>, k: nat)
    requires Meet(params, args) && k < |args|
    ensures NamedType(params, IsArrayLeaf(args[k]), |args| - 1 - k) == Some(args[k].ty.elem)
    decreases k
  {
    if k > 0 {
      MeetTypes(params[1..], args[1..], k - 1);
    }
  }

  predicate HasStride(l: LoopExp) {
    match l
    case LStride(_) => true
    case LNeg(x) => HasStride(x)
    case LCom(x) => HasStride(x)
    case LBin(_, x, y) => HasStride(x) || HasStride(y)
    case LCast(x, _) => HasStride(x)
    case LAssign(x, y) => HasStride(x) || HasStride(y)
    case LBinAssign(_, x, y) => HasStride(x) || HasStride(y)
    case _ => false
  }

  lemma {:induction false} BodyHasNoStride(e: Exp, n: nat)
    ensures !HasStride(Body(e, n))
    decreases e
  {
    match e
    case Cast(e1, t) => if IsArray(t) { BodyHasNoStride(e1, n); }
    case Neg(e1, _) => BodyHasNoStride(e1, n);
    case Com(e1, _) => BodyHasNoStride(e1, n);
    case Bin(op, e1, e2, _) =>
      if IsBinArrayOp(op) {
        BodyHasNoStride(e1, n);
        BodyHasNoStride(e2, n + |Leaves(e1)|);
      }
    case Assign(e1, e2, _) => BodyHasNoStride(e2, n); BodyHasNoStride(e1, n + |Leaves(e2)|);
    case BinAssign(_, e1, e2, _) => BodyHasNoStride(e2, n); BodyHasNoStride(e1, n + |Leaves(e2)|);
    case _ =>
  }

  /** The loop body is left as it was built exactly if no pointer is added to or
      subtracted from. */
  lemma {:induction false} AnalysedIff(params: seq<Param>, e: Exp, n: nat)
    requires Typed(params, Leaves(e), n)
    ensures PointerOf(params, Body(e, n)) == PointerIn(e)
    ensures Analysed(params, Body(e, n)) == Body(e, n) <==> NoPointers(e)
    decreases e, 1
  {
    hide Typed, NamedType, Leaves;
    match e
    case Cast(e1, t) =>
      if IsArray(t) { SameLeaves(e); AnalysedIff(params, e1, n); } else { LeafTyped(params, e, n); }
    case Neg(e1, _) => SameLeaves(e); AnalysedIff(params, e1, n);
    case Com(e1, _) => SameLeaves(e); AnalysedIff(params, e1, n);
    case Bin(op, _, _, _) => if IsBinArrayOp(op) { BinAnalysed(params, e, n); } else { LeafTyped(params, e, n); }
    case Assign(_, _, _) => AssignAnalysed(params, e, n);
    case BinAssign(_, _, _, _) => AssignAnalysed(params, e, n);
    case Slice(_, _) => LeafTyped(params, e, n);
    case Literal(_, _) => LeafTyped(params, e, n);
    case Other(_, _) => LeafTyped(params, e, n);
  }

  lemma {:induction false} AssignAnalysed(params: seq<Param>, e: Exp, n: nat)
    requires (e.Assign? || e.BinAssign?) && Typed(params, Leaves(e), n)
    ensures PointerOf(params, Body(e, n)) == PointerIn(e)
    ensures Analysed(params, Body(e, n)) == Body(e, n) <==> NoPointers(e)
    decreases e, 0
  {
    hide Typed, NamedType;
    TypedParts(params, Leaves(e.e2), Leaves(e.e1), n);
    AnalysedIff(params, e.e2, n);
    AnalysedIff(params, e.e1, n + |Leaves(e.e2)|);
  }

  lemma LeafTyped(params: seq<Param>, e: Exp, n: nat)
    requires PassedWhole(e) && Typed(params, Leaves(e), n)
    ensures NamedType(params, IsArrayLeaf(e), n) == Some(e.ty.elem)
  {
    assert Leaves(e)[0] == e;
  }

  lemma SameLeaves(e: Exp)
    requires e.Neg? || e.Com? || (e.Cast? && IsArray(e.ty))
    ensures Leaves(e) == Leaves(e.e1)
  {
  }

  lemma {:induction false} BinAnalysed(params: seq<Param>, e: Exp, n: nat)
    requires e.Bin? && IsBinArrayOp(e.op) && Typed(params, Leaves(e), n)
    ensures PointerOf(params, Body(e, n)) == PointerIn(e)
    ensures Analysed(params, Body(e, n)) == Body(e, n) <==> NoPointers(e)
    decreases e, 0
  {
    hide Typed, HasStride;
    var n2 := n + |Leaves(e.e1)|;
    TypedParts(params, Leaves(e.e1), Leaves(e.e2), n);
    AnalysedIff(params, e.e1, n);
    AnalysedIff(params, e.e2, n2);
    BodyHasNoStride(e, n);
    ScaledDiffers(e.op, Analysed(params, Body(e.e1, n)), Analysed(params, Body(e.e2, n2)), PointerIn(e.e1),
      PointerIn(e.e2));
  }

  lemma ScaledDiffers(op: BinOp, x: LoopExp, y: LoopExp, p: Option<Deco>, q: Option<Deco>)
    ensures if Scales(op, p, q) then HasStride(Scaled(op, x, y, p, q)) else Scaled(op, x, y, p, q) == LBin(op, x, y)
  {
  }

  lemma DifferenceTyped(p: int, q: int)
    ensures WellTyped(OfPointers(p, q)) && IsArrayOpValid(OfPointers(p, q)) && NoAssign(OfPointers(p, q))
  {
    var quotient := OfPointers(p, q).e2;
    var difference := quotient.e1;
    assert WellTyped(difference.e1) && WellTyped(difference.e2) && WellTyped(difference) && WellTyped(quotient.e2);
    assert NoAssign(difference.e1) && NoAssign(difference.e2) && NoAssign(quotient.e2);
    assert WellTyped(quotient) && NoAssign(difference) && NoAssign(quotient) && IsArrayOpValid(quotient);
  }

  // b[] + (p - q), with pointers to int: the difference is (p - q) / 4
  function OfPointers(p: int, q: int): Exp {
    var slice, long := Ty(DArray, "l"), Ty(NotArray, "l");
    var pointer := Ty(NotArray, "Pi");
    Bin(Add, Slice(Span(1, 1), slice),
      Bin(Div, Bin(Min, Other(p, pointer), Other(q, pointer), long), Other(4, long), long), slice)
  }

  /** The difference is divided once more in the loop body. */
  lemma DividedTwice(params: seq<Param>, p: int, q: int)
    requires Typed(params, Leaves(OfPointers(p, q)), 0)
    ensures Body(OfPointers(p, q), 0) ==
      LBin(Add, Indexed(0), LBin(Div, LBin(Min, Value(1), Value(2)), Value(3)))
    ensures Analysed(params, Body(OfPointers(p, q), 0)) ==
      LBin(Add, Indexed(0), LBin(Div, LBin(Div, LBin(Min, Value(1), Value(2)), LStride("Pi")), Value(3)))
  {
    var e := OfPointers(p, q);
    var pointer, long := Ty(NotArray, "Pi"), Ty(NotArray, "l");
    var leaves := [e.e1, Other(p, pointer), Other(q, pointer), Other(4, long)];
    var quotient := e.e2;
    var difference := quotient.e1;
    assert Leaves(difference) == leaves[1..3] && Leaves(quotient) == leaves[1..] && Leaves(e) == leaves;
    assert Body(difference, 1) == LBin(Min, Value(1), Value(2));
    assert Body(quotient, 1) == LBin(Div, Body(difference, 1), Value(3)) && Body(e, 0).e2 == Body(quotient, 1);
    assert NamedType(params, IsArrayLeaf(leaves[0]), 0 + 0) == Some("l");
    assert NamedType(params, IsArrayLeaf(leaves[1]), 0 + 1) == Some("Pi");
    assert NamedType(params, IsArrayLeaf(leaves[2]), 0 + 2) == Some("Pi");
    assert NamedType(params, IsArrayLeaf(leaves[3]), 0 + 3) == Some("l");
    assert Analysed(params, Body(difference, 1)) == LBin(Div, Body(difference, 1), LStride("Pi"));
    assert Analysed(params, Body(quotient, 1)) == LBin(Div, Analysed(params, Body(difference, 1)), Value(3));
  }
}
