/** An array operation becomes a function with a loop and a call of it. Two
    separate traversals of the expression make them: one collects the arguments
    and mangles a name, the other makes the parameters and the loop body. */
module ArrayOps {
  import opened ArrayExps

  datatype Token =
    | ExpTok | SliceTok | NegTok | ComTok | AssignTok
    | BinTok(op: BinOp) | BinAssignTok(op: BinOp) | OfTok(elem: Deco)

  function OpName(op: BinOp): string {
    match op
    case Add => "Add" case Min => "Sub" case Mul => "Mul" case Div => "Div" case Mod => "Mod"
    case Xor => "Xor" case And => "And" case Or => "Or" case Pow => "Pow"
    case NoArrayOp(_) => ""
  }

  function Spell(t: Token): string {
    match t
    case ExpTok => "Exp" case SliceTok => "Slice" case NegTok => "Neg" case ComTok => "Com" case AssignTok => "Assign"
    case BinTok(op) => OpName(op)
    case BinAssignTok(op) => OpName(op) + "ass"
    case OfTok(d) => "Of" + d
  }

  function SpellAll(ts: seq<Token>): string {
    if ts == [] then "" else Spell(ts[0]) + SpellAll(ts[1..])
  }

  /** An operand whose elements are narrower than the result is marked. */
  predicate NeedsOf(t: Ty, other: Ty, result: Ty) {
    t.kind == DArray && if other.kind == DArray then t != result else Ty(NotArray, t.elem) != other
  }

  function OfMark(t: Ty, other: Ty, result: Ty): seq<Token> {
    if NeedsOf(t, other, result) then [OfTok(t.elem)] else []
  }

  /** The operands that become arguments, in the order they are visited. */
  function Leaves(e: Exp): seq<Exp> {
    match e
    case Cast(e1, t) => if IsArray(t) then Leaves(e1) else [e]
    case Neg(e1, _) => Leaves(e1)
    case Com(e1, _) => Leaves(e1)
    case Bin(op, e1, e2, _) => if IsBinArrayOp(op) then Leaves(e1) + Leaves(e2) else [e]
    case Assign(e1, e2, _) => Leaves(e2) + Leaves(e1)
    case BinAssign(_, e1, e2, _) => Leaves(e2) + Leaves(e1)
    case _ => [e]
  }

  /** Operands and operators in reverse Polish order. */
  function Tokens(e: Exp): seq<Token> {
    match e
    case Slice(_, _) => [SliceTok]
    case Literal(_, _) => [SliceTok]
    case Other(_, _) => [ExpTok]
    case Cast(e1, t) => if IsArray(t) then Tokens(e1) else [ExpTok]
    case Neg(e1, _) => Tokens(e1) + [NegTok]
    case Com(e1, _) => Tokens(e1) + [ComTok]
    case Bin(op, e1, e2, t) =>
      if IsBinArrayOp(op) then
        Tokens(e1) + OfMark(e1.ty, e2.ty, t) + Tokens(e2) + OfMark(e2.ty, e1.ty, t) + [BinTok(op)]
      else [ExpTok]
    case Assign(e1, e2, _) => Tokens(e2) + Tokens(e1) + [AssignTok]
    case BinAssign(op, e1, e2, _) => Tokens(e2) + Tokens(e1) + [BinAssignTok(op)]
  }

  function Name(e: Exp): string {
    "_array" + SpellAll(Tokens(e)) + "_" + e.ty.elem
  }

  lemma {:induction false} SpellAllAppend(a: seq<Token>, b: seq<Token>)
    ensures SpellAll(a + b) == SpellAll(a) + SpellAll(b)
  {
    if a == [] {
      assert a + b == b;
    } else {
      assert (a + b)[1..] == a[1..] + b;
      SpellAllAppend(a[1..], b);
    }
  }

  // ---------- The loop ----------

  /** Parameters are called c0, c1, ... for scalars and p0, p1, ... for arrays. */
  datatype Param = Param(isArray: bool, number: nat, ty: Ty, isConst: bool)

  datatype LoopExp =
    | Value(number: nat)                      // the scalar c<number>
    | Indexed(number: nat)                    // the element p<number>[p]
    | LNeg(e1: LoopExp) | LCom(e1: LoopExp)
    | LBin(op: BinOp, e1: LoopExp, e2: LoopExp)
    | LCast(e1: LoopExp, elem: Deco)
    | LStride(elem: Deco)
    | LAssign(e1: LoopExp, e2: LoopExp)
    | LBinAssign(op: BinOp, e1: LoopExp, e2: LoopExp)

  /** The element type; scalars have none. */
  function NextOf(t: Ty): Deco {
    if IsArray(t) then t.elem else ""
  }

  /** The loop body when n parameters have been made before. */
  function Body(e: Exp, n: nat): LoopExp {
    match e
    case Slice(_, _) => Indexed(n)
    case Literal(_, _) => Indexed(n)
    case Other(_, _) => Value(n)
    case Cast(e1, t) => if IsArray(t) then Body(e1, n) else Value(n)
    case Neg(e1, _) => LNeg(Body(e1, n))
    case Com(e1, _) => LCom(Body(e1, n))
    case Bin(op, e1, e2, _) => if IsBinArrayOp(op) then LBin(op, Body(e1, n), Body(e2, n + |Leaves(e1)|)) else Value(n)
    case Assign(e1, e2, _) => LAssign(Body(e1, n + |Leaves(e2)|), LCast(Body(e2, n), NextOf(e1.ty)))
    case BinAssign(op, e1, e2, _) => LBinAssign(op, Body(e1, n + |Leaves(e2)|), Body(e2, n))
  }

  predicate IsArrayLeaf(e: Exp) { e.Slice? || e.Literal? }

  /** The parameter made for an operand. */
  function ParamFor(e: Exp, n: nat): Param {
    Param(IsArrayLeaf(e), n, e.ty, IsArrayLeaf(e))
  }

  /** Parameter k meets argument k: same operand, same type, and the parameters
      are numbered from the last to the first. */
  predicate Meet(params: seq<Param>, args: seq<Exp>) {
    |params| == |args| &&
    forall k :: 0 <= k < |args| ==>
      && params[k].number == |args| - 1 - k
      && params[k].ty == args[k].ty
      && params[k].isArray == IsArrayLeaf(args[k])
      && (params[k].isConst ==> params[k].isArray)
  }

  // ---------- The visitors ----------

  class IdentBuilder {
    var buf: string
    var arguments: seq<Exp>

    constructor ()
      ensures buf == "_array" && arguments == []
    {
      buf, arguments := "_array", [];
    }

    method Leaf(e: Exp, name: string)
      modifies this
      ensures buf == old(buf) + name && arguments == [e] + old(arguments)
    {
      buf := buf + name;
      arguments := [e] + arguments;
    }

    /** Appends the mangled expression, and puts its operands in front. */
    method Visit(e: Exp)
      modifies this
      ensures buf == old(buf) + SpellAll(Tokens(e))
      ensures arguments == Rev(Leaves(e)) + old(arguments)
      decreases e, 1
    {
      hide SpellAll, Rev, Tokens, Leaves, Spell;
      match e {
        case Slice(_, _) => SpellLeaf(e); Leaf(e, "Slice");
        case Literal(_, _) => SpellLeaf(e); Leaf(e, "Slice");
        case Other(_, _) => SpellLeaf(e); Leaf(e, "Exp");
        case Cast(e1, t) =>
          if IsArray(t) { SpellUnary(e); Visit(e1); } else { SpellLeaf(e); Leaf(e, "Exp"); }
        case Neg(e1, _) => SpellUnary(e); Visit(e1); buf := buf + "Neg";
        case Com(e1, _) => SpellUnary(e); Visit(e1); buf := buf + "Com";
        case Bin(op, e1, e2, t) => if IsBinArrayOp(op) { VisitBin(e); } else { SpellLeaf(e); Leaf(e, "Exp"); }
        case Assign(_, _, _) => VisitAssign(e, AssignTok);
        case BinAssign(op, _, _, _) => VisitAssign(e, BinAssignTok(op));
      }
    }

    /** Assignments are evaluated from right to left. */
    method VisitAssign(e: Exp, t: Token)
      requires (e.Assign? && t == AssignTok) || (e.BinAssign? && t == BinAssignTok(e.op))
      modifies this
      ensures buf == old(buf) + SpellAll(Tokens(e))
      ensures arguments == Rev(Leaves(e)) + old(arguments)
      decreases e, 0
    {
      hide SpellAll, Rev, Tokens, Leaves, Spell;
      SpellAssign(e, t);
      Visit(e.e2);
      Visit(e.e1);
      buf := buf + Spell(t);
    }

    method AppendOf(t: Ty, other: Ty, result: Ty)
      modifies this`buf
      ensures buf == old(buf) + SpellAll(OfMark(t, other, result))
    {
      SpellOne(OfTok(t.elem));
      if NeedsOf(t, other, result) {
        buf := buf + "Of";
        buf := buf + t.elem;
      }
    }

    method VisitBin(e: Exp)
      requires e.Bin? && IsBinArrayOp(e.op)
      modifies this
      ensures buf == old(buf) + SpellAll(Tokens(e))
      ensures arguments == Rev(Leaves(e)) + old(arguments)
      decreases e, 0
    {
      hide SpellAll, Rev, Tokens, Leaves, OfMark;
      SpellBin(e);
      Visit(e.e1);
      AppendOf(e.e1.ty, e.e2.ty, e.ty);
      Visit(e.e2);
      AppendOf(e.e2.ty, e.e1.ty, e.ty);
      buf := buf + OpName(e.op);
      FiveInOne(old(buf), SpellAll(Tokens(e.e1)), SpellAll(OfMark(e.e1.ty, e.e2.ty, e.ty)), SpellAll(Tokens(e.e2)),
                SpellAll(OfMark(e.e2.ty, e.e1.ty, e.ty)), OpName(e.op));
    }
  }

  lemma FiveInOne(s: string, a: string, b: string, c: string, d: string, e: string)
    ensures s + a + b + c + d + e == s + (a + b + c + d + e)
  {
    assert s + a + b == s + (a + b);
    assert s + (a + b) + c == s + (a + b + c);
    assert s + (a + b + c) + d == s + (a + b + c + d);
  }

  lemma SpellOne(t: Token)
    ensures SpellAll([t]) == Spell(t) && SpellAll([]) == ""
  {
    assert [t][1..] == [];
  }

  predicate PassedWhole(e: Exp) {
    e.Slice? || e.Literal? || e.Other? || (e.Cast? && !IsArray(e.ty)) || (e.Bin? && !IsBinArrayOp(e.op))
  }

  lemma SpellLeaf(e: Exp)
    requires PassedWhole(e)
    ensures SpellAll(Tokens(e)) == if IsArrayLeaf(e) then "Slice" else "Exp"
    ensures Rev(Leaves(e)) == [e]
  {
    assert [e][1..] == [];
    SpellOne(SliceTok);
    SpellOne(ExpTok);
  }

  lemma SpellUnary(e: Exp)
    requires e.Neg? || e.Com? || (e.Cast? && IsArray(e.ty))
    ensures SpellAll(Tokens(e)) == SpellAll(Tokens(e.e1)) + if e.Neg? then "Neg" else if e.Com? then "Com" else ""
    ensures Leaves(e) == Leaves(e.e1)
  {
    hide SpellAll;
    SpellOne(NegTok);
    SpellOne(ComTok);
    SpellAllAppend(Tokens(e.e1), [NegTok]);
    SpellAllAppend(Tokens(e.e1), [ComTok]);
    assert SpellAll(Tokens(e.e1)) + "" == SpellAll(Tokens(e.e1));
  }

  lemma SpellAssign(e: Exp, t: Token)
    requires (e.Assign? && t == AssignTok) || (e.BinAssign? && t == BinAssignTok(e.op))
    ensures SpellAll(Tokens(e)) == SpellAll(Tokens(e.e2)) + SpellAll(Tokens(e.e1)) + Spell(t)
    ensures Rev(Leaves(e)) == Rev(Leaves(e.e1)) + Rev(Leaves(e.e2))
  {
    hide SpellAll, Rev, Spell;
    SpellOne(t);
    SpellAllAppend(Tokens(e.e2), Tokens(e.e1));
    SpellAllAppend(Tokens(e.e2) + Tokens(e.e1), [t]);
    RevAppend(Leaves(e.e2), Leaves(e.e1));
  }

  lemma SpellBin(e: Exp)
    requires e.Bin? && IsBinArrayOp(e.op)
    ensures SpellAll(Tokens(e)) ==
      SpellAll(Tokens(e.e1)) + SpellAll(OfMark(e.e1.ty, e.e2.ty, e.ty))
      + SpellAll(Tokens(e.e2)) + SpellAll(OfMark(e.e2.ty, e.e1.ty, e.ty)) + OpName(e.op)
    ensures Rev(Leaves(e)) == Rev(Leaves(e.e2)) + Rev(Leaves(e.e1))
  {
    hide SpellAll, Rev, OfMark;
    var a, c := Tokens(e.e1), Tokens(e.e2);
    var b, d := OfMark(e.e1.ty, e.e2.ty, e.ty), OfMark(e.e2.ty, e.e1.ty, e.ty);
    SpellOne(BinTok(e.op));
    SpellAllAppend(a, b);
    SpellAllAppend(a + b, c);
    SpellAllAppend(a + b + c, d);
    SpellAllAppend(a + b + c + d, [BinTok(e.op)]);
    RevAppend(Leaves(e.e1), Leaves(e.e2));
  }
}
