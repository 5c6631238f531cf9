/** What the name of an array function tells. */
module ArrayNames {
  // A function made for one operation is found again under its name by others;
  // it serves them just when it is the function they need.

  import opened ArrayExps
  import opened ArrayOps
  import opened ArrayLoops
  import opened SecondPass

  predicate IsLower(c: char) { 'a' <= c <= 'z' }
  predicate IsUpper(c: char) { 'A' <= c <= 'Z' }

  /** The manglings of the basic types are lower-case. */
  predicate BasicDeco(d: Deco) {
    d != "" && forall i :: 0 <= i < |d| ==> IsLower(d[i])
  }

  predicate Basic(e: Exp) {
    BasicDeco(e.ty.elem) &&
    match e
    case Cast(e1, _) => Basic(e1)
    case Neg(e1, _) => Basic(e1)
    case Com(e1, _) => Basic(e1)
    case Bin(_, e1, e2, _) => Basic(e1) && Basic(e2)
    case Assign(e1, e2, _) => Basic(e1) && Basic(e2)
    case BinAssign(op, e1, e2, _) => IsBinArrayOp(op) && Basic(e1) && Basic(e2)
    case _ => true
  }

  // ---------- Reading tokens ----------

  predicate Readable(t: Token) {
    match t
    case BinTok(op) => IsBinArrayOp(op)
    case BinAssignTok(op) => IsBinArrayOp(op)
    case OfTok(d) => BasicDeco(d)
    case _ => true
  }

  function ReadOp(a: char, b: char): BinOp {
    if a == 'A' then (if b == 'd' then Add else And)
    else if a == 'S' then Min
    else if a == 'M' then (if b == 'u' then Mul else Mod)
    else if a == 'D' then Div
    else if a == 'X' then Xor
    else if a == 'O' then Or
    else Pow
  }

  function ReadToken(s: string): Token
    requires |s| >= 2
  {
    var a, b := s[0], s[1];
    if a == 'E' then ExpTok
    else if a == 'N' then NegTok
    else if a == 'C' then ComTok
    else if a == 'S' && b == 'l' then SliceTok
    else if a == 'A' && b == 's' then AssignTok
    else if a == 'O' && b == 'f' then OfTok(s[2..])
    else var op := ReadOp(a, b); if |s| == |OpName(op)| then BinTok(op) else BinAssignTok(op)
  }

  lemma ReadsToken(t: Token)
    requires Readable(t)
    ensures |Spell(t)| >= 2 && ReadToken(Spell(t)) == t
    ensures IsUpper(Spell(t)[0]) && forall i :: 1 <= i < |Spell(t)| ==> IsLower(Spell(t)[i])
  {
    match t
    case BinTok(op) => ReadsOp(op);
    case BinAssignTok(op) => ReadsOp(op); assert Spell(t)[0] == OpName(op)[0] && Spell(t)[1] == OpName(op)[1];
    case OfTok(d) => assert Spell(t)[2..] == d;
    case _ =>
  }

  lemma ReadsOp(op: BinOp)
    requires IsBinArrayOp(op)
    ensures var s := OpName(op);
      && |s| >= 2 && IsUpper(s[0]) && (forall i :: 1 <= i < |s| ==> IsLower(s[i]))
      && ReadOp(s[0], s[1]) == op
      && s[0] !in ['E', 'N', 'C'] && !(s[0] == 'S' && s[1] == 'l') && !(s[0] == 'A' && s[1] == 's')
        && !(s[0] == 'O' && s[1] == 'f')
  {
  }

  /** How many lower-case letters come first. */
  function LowerRun(s: string): (n: nat)
    ensures n <= |s|
  {
    if s == "" || !IsLower(s[0]) then 0 else 1 + LowerRun(s[1..])
  }

  lemma {:induction false} LowerRunEnds(w: string, rest: string)
    requires forall i :: 0 <= i < |w| ==> IsLower(w[i])
    requires rest == "" || !IsLower(rest[0])
    ensures LowerRun(w + rest) == |w|
  {
    if w == "" {
      assert w + rest == rest;
    } else {
      assert (w + rest)[1..] == w[1..] + rest;
      LowerRunEnds(w[1..], rest);
    }
  }

  /** Reads tokens up to the first character that cannot start one. */
  function ReadTokens(s: string): seq<Token>
    decreases |s|
  {
    if s == "" || !IsUpper(s[0]) || LowerRun(s[1..]) == 0 then []
    else var n := 1 + LowerRun(s[1..]); [ReadToken(s[..n])] + ReadTokens(s[n..])
  }

  lemma ReadsOne(t: Token, more: string)
    requires Readable(t) && more != "" && !IsLower(more[0])
    ensures ReadTokens(Spell(t) + more) == [t] + ReadTokens(more)
    ensures Spell(t) + more != "" && IsUpper((Spell(t) + more)[0])
  {
    hide ReadToken, Spell, Readable, LowerRun;
    var w := Spell(t);
    var s := w + more;
    ReadsToken(t);
    assert s[1..] == w[1..] + more;
    LowerRunEnds(w[1..], more);
    assert s[..|w|] == w && s[|w|..] == more;
  }

  /** What has been spelled can be read back, up to an underscore. */
  lemma {:induction false} ReadsBack(ts: seq<Token>, rest: string)
    requires forall k :: 0 <= k < |ts| ==> Readable(ts[k])
    requires rest != "" && rest[0] == '_'
    ensures ReadTokens(SpellAll(ts) + rest) == ts
    ensures SpellAll(ts) + rest != "" && !IsLower((SpellAll(ts) + rest)[0])
    decreases |ts|
  {
    hide Spell, ReadTokens, Readable, SpellAll;
    SpellFirst(ts, rest);
    if ts != [] {
      ReadsBack(ts[1..], rest);
      ReadsOne(ts[0], SpellAll(ts[1..]) + rest);
      assert ts == [ts[0]] + ts[1..];
    } else {
      NoneToRead(rest);
    }
  }

  lemma SpellFirst(ts: seq<Token>, rest: string)
    ensures SpellAll(ts) + rest == if ts == [] then rest else Spell(ts[0]) + (SpellAll(ts[1..]) + rest)
  {
    hide Spell;
    if ts != [] { assert Spell(ts[0]) + SpellAll(ts[1..]) + rest == Spell(ts[0]) + (SpellAll(ts[1..]) + rest); }
  }

  lemma NoneToRead(rest: string)
    requires rest == "" || !IsUpper(rest[0])
    ensures ReadTokens(rest) == []
  {
  }

  // ---------- Shapes ----------

  datatype Shape =
    | ExpShape | SliceShape
    | NegShape(s: Shape) | ComShape(s: Shape) | Marked(s: Shape, elem: Deco)
    | BinShape(op: BinOp, l: Shape, r: Shape)
    | AssignShape(target: Shape, source: Shape)
    | BinAssignShape(op: BinOp, target: Shape, source: Shape)

  function Mark(s: Shape, t: Ty, other: Ty, result: Ty): Shape {
    if NeedsOf(t, other, result) then Marked(s, t.elem) else s
  }

  function ShapeOf(e: Exp): Shape {
    match e
    case Slice(_, _) => SliceShape
    case Literal(_, _) => SliceShape
    case Other(_, _) => ExpShape
    case Cast(e1, t) => if IsArray(t) then ShapeOf(e1) else ExpShape
    case Neg(e1, _) => NegShape(ShapeOf(e1))
    case Com(e1, _) => ComShape(ShapeOf(e1))
    case Bin(op, e1, e2, t) =>
      if IsBinArrayOp(op) then BinShape(op, Mark(ShapeOf(e1), e1.ty, e2.ty, t), Mark(ShapeOf(e2), e2.ty, e1.ty, t))
        else ExpShape
    case Assign(e1, e2, _) => AssignShape(ShapeOf(e1), ShapeOf(e2))
    case BinAssign(op, e1, e2, _) => BinAssignShape(op, ShapeOf(e1), ShapeOf(e2))
  }

  /** One step of reading reverse Polish notation with a stack. */
  function Reduce(st: seq<Shape>, t: Token): seq<Shape> {
    var n := |st|;
    match t
    case ExpTok => st + [ExpShape]
    case SliceTok => st + [SliceShape]
    case NegTok => if n < 1 then [] else st[..n - 1] + [NegShape(st[n - 1])]
    case ComTok => if n < 1 then [] else st[..n - 1] + [ComShape(st[n - 1])]
    case OfTok(d) => if n < 1 then [] else st[..n - 1] + [Marked(st[n - 1], d)]
    case BinTok(op) => if n < 2 then [] else st[..n - 2] + [BinShape(op, st[n - 2], st[n - 1])]
    case AssignTok => if n < 2 then [] else st[..n - 2] + [AssignShape(st[n - 1], st[n - 2])]
    case BinAssignTok(op) => if n < 2 then [] else st[..n - 2] + [BinAssignShape(op, st[n - 1], st[n - 2])]
  }

  function ReduceAll(st: seq<Shape>, ts: seq<Token>): seq<Shape>
    decreases |ts|
  {
    if ts == [] then st else ReduceAll(Reduce(st, ts[0]), ts[1..])
  }

  lemma {:induction false} ReduceAppend(st: seq<Shape>, a: seq<Token>, b: seq<Token>)
    ensures ReduceAll(st, a + b) == ReduceAll(ReduceAll(st, a), b)
    decreases |a|
  {
    if a == [] {
      assert a + b == b;
    } else {
      assert (a + b)[0] == a[0] && (a + b)[1..] == a[1..] + b;
      ReduceAppend(Reduce(st, a[0]), a[1..], b);
    }
  }

  lemma ReduceOne(st: seq<Shape>, t: Token)
    ensures ReduceAll(st, [t]) == Reduce(st, t) && ReduceAll(st, []) == st
  {
    assert [t][1..] == [];
    assert ReduceAll(Reduce(st, t), []) == Reduce(st, t);
  }

  /** Reading the tokens of an expression pushes its shape. */
  lemma {:induction false} ReadsShape(st: seq<Shape>, e: Exp)
    ensures ReduceAll(st, Tokens(e)) == st + [ShapeOf(e)]
    decreases e, 1
  {
    hide ReduceAll;
    match e
    case Slice(_, _) => ReduceOne(st, SliceTok);
    case Literal(_, _) => ReduceOne(st, SliceTok);
    case Other(_, _) => ReduceOne(st, ExpTok);
    case Cast(e1, t) => if IsArray(t) { ReadsShape(st, e1); } else { ReduceOne(st, ExpTok); }
    case Neg(e1, _) => ReadsUnary(st, e, NegTok);
    case Com(e1, _) => ReadsUnary(st, e, ComTok);
    case Bin(op, e1, e2, t) => if IsBinArrayOp(op) { ReadsBin(st, e); } else { ReduceOne(st, ExpTok); }
    case Assign(e1, e2, _) => ReadsAssign(st, e, AssignTok);
    case BinAssign(op, e1, e2, _) => ReadsAssign(st, e, BinAssignTok(op));
  }

  lemma {:induction false} ReadsUnary(st: seq<Shape>, e: Exp, t: Token)
    requires (e.Neg? && t == NegTok) || (e.Com? && t == ComTok)
    ensures ReduceAll(st, Tokens(e.e1) + [t]) ==
      st + [if e.Neg? then NegShape(ShapeOf(e.e1)) else ComShape(ShapeOf(e.e1))]
    decreases e, 0
  {
    hide ReduceAll, Tokens, ShapeOf;
    ReadsShape(st, e.e1);
    ReduceAppend(st, Tokens(e.e1), [t]);
    ReduceOne(st + [ShapeOf(e.e1)], t);
    assert (st + [ShapeOf(e.e1)])[..|st|] == st;
  }

  lemma {:induction false} ReadsAssign(st: seq<Shape>, e: Exp, t: Token)
    requires (e.Assign? && t == AssignTok) || (e.BinAssign? && t == BinAssignTok(e.op))
    ensures ReduceAll(st, Tokens(e.e2) + Tokens(e.e1) + [t]) ==
      st + [if e.Assign? then AssignShape(ShapeOf(e.e1), ShapeOf(e.e2))
        else BinAssignShape(e.op, ShapeOf(e.e1), ShapeOf(e.e2))]
    decreases e, 0
  {
    hide ReduceAll, Tokens, ShapeOf;
    var st1 := st + [ShapeOf(e.e2)];
    ReadsShape(st, e.e2);
    ReadsShape(st1, e.e1);
    ReduceAppend(st, Tokens(e.e2), Tokens(e.e1));
    ReduceAppend(st, Tokens(e.e2) + Tokens(e.e1), [t]);
    ReduceOne(st1 + [ShapeOf(e.e1)], t);
    assert (st1 + [ShapeOf(e.e1)])[..|st|] == st;
  }

  lemma ReadsMark(st: seq<Shape>, s: Shape, t: Ty, other: Ty, result: Ty)
    ensures ReduceAll(st + [s], OfMark(t, other, result)) == st + [Mark(s, t, other, result)]
  {
    hide ReduceAll, NeedsOf;
    ReduceOne(st + [s], OfTok(t.elem));
    assert (st + [s])[..|st|] == st;
  }

  lemma {:induction false} ReadsBin(st: seq<Shape>, e: Exp)
    requires e.Bin? && IsBinArrayOp(e.op)
    ensures ReduceAll(st, Tokens(e)) == st + [ShapeOf(e)]
    decreases e, 0
  {
    hide ReduceAll, OfMark, Mark;
    var a, c := Tokens(e.e1), Tokens(e.e2);
    var b, d := OfMark(e.e1.ty, e.e2.ty, e.ty), OfMark(e.e2.ty, e.e1.ty, e.ty);
    var l, r := Mark(ShapeOf(e.e1), e.e1.ty, e.e2.ty, e.ty), Mark(ShapeOf(e.e2), e.e2.ty, e.e1.ty, e.ty);
    ReadsShape(st, e.e1);
    ReadsMark(st, ShapeOf(e.e1), e.e1.ty, e.e2.ty, e.ty);
    ReduceAppend(st, a, b);
    ReadsShape(st + [l], e.e2);
    ReduceAppend(st, a + b, c);
    ReadsMark(st + [l], ShapeOf(e.e2), e.e2.ty, e.e1.ty, e.ty);
    ReduceAppend(st, a + b + c, d);
    ReduceAppend(st, a + b + c + d, [BinTok(e.op)]);
    ReduceOne(st + [l] + [r], BinTok(e.op));
    assert (st + [l] + [r])[..|st|] == st;
  }

  // ---------- Names ----------

  lemma {:induction false} TokensReadable(e: Exp)
    requires Basic(e)
    ensures forall k :: 0 <= k < |Tokens(e)| ==> Readable(Tokens(e)[k])
  {
    match e
    case Cast(e1, t) => if IsArray(t) { TokensReadable(e1); }
    case Neg(e1, _) => TokensReadable(e1);
    case Com(e1, _) => TokensReadable(e1);
    case Bin(op, e1, e2, _) => if IsBinArrayOp(op) { TokensReadable(e1); TokensReadable(e2); }
    case Assign(e1, e2, _) => TokensReadable(e1); TokensReadable(e2);
    case BinAssign(_, e1, e2, _) => TokensReadable(e1); TokensReadable(e2);
    case _ =>
  }

  /** A name tells the shape of the operation and its element type, and nothing
      else. */
  lemma NameTellsShape(e: Exp, f: Exp)
    requires Basic(e) && Basic(f)
    ensures Name(e) == Name(f) <==> ShapeOf(e) == ShapeOf(f) && e.ty.elem == f.ty.elem
  {
    hide SpellAll, Tokens, ShapeOf, ReadTokens, ReduceAll;
    var re, rf := "_" + e.ty.elem, "_" + f.ty.elem;
    TokensReadable(e);
    TokensReadable(f);
    ReadsBack(Tokens(e), re);
    ReadsBack(Tokens(f), rf);
    ReadsShape([], e);
    ReadsShape([], f);
    assert Name(e) == "_array" + (SpellAll(Tokens(e)) + re);
    assert Name(f) == "_array" + (SpellAll(Tokens(f)) + rf);
    assert Name(e)[6..] == SpellAll(Tokens(e)) + re;
    assert Name(f)[6..] == SpellAll(Tokens(f)) + rf;
    if Name(e) == Name(f) {
      assert Tokens(e) == Tokens(f);
      assert [] + [ShapeOf(e)] == [] + [ShapeOf(f)];
      assert ([] + [ShapeOf(e)])[0] == ShapeOf(e) && ([] + [ShapeOf(f)])[0] == ShapeOf(f);
      var n := |SpellAll(Tokens(e))|;
      assert (SpellAll(Tokens(e)) + re)[n + 1..] == e.ty.elem;
      assert (SpellAll(Tokens(f)) + rf)[n + 1..] == f.ty.elem;
    }
    if ShapeOf(e) == ShapeOf(f) {
      SpellsShape(e);
      SpellsShape(f);
    }
  }

  function ShapeTokens(s: Shape): seq<Token> {
    match s
    case ExpShape => [ExpTok]
    case SliceShape => [SliceTok]
    case NegShape(x) => ShapeTokens(x) + [NegTok]
    case ComShape(x) => ShapeTokens(x) + [ComTok]
    case Marked(x, d) => ShapeTokens(x) + [OfTok(d)]
    case BinShape(op, l, r) => ShapeTokens(l) + ShapeTokens(r) + [BinTok(op)]
    case AssignShape(t, x) => ShapeTokens(x) + ShapeTokens(t) + [AssignTok]
    case BinAssignShape(op, t, x) => ShapeTokens(x) + ShapeTokens(t) + [BinAssignTok(op)]
  }

  lemma {:induction false} SpellsShape(e: Exp)
    ensures Tokens(e) == ShapeTokens(ShapeOf(e))
  {
    match e
    case Cast(e1, t) => if IsArray(t) { SpellsShape(e1); }
    case Neg(e1, _) => SpellsShape(e1);
    case Com(e1, _) => SpellsShape(e1);
    case Bin(op, e1, e2, t) =>
      if IsBinArrayOp(op) {
        SpellsShape(e1);
        SpellsShape(e2);
        SpellsMark(Tokens(e1), ShapeOf(e1), e1.ty, e2.ty, t);
        SpellsMark(Tokens(e2), ShapeOf(e2), e2.ty, e1.ty, t);
        assert Tokens(e) == (Tokens(e1) + OfMark(e1.ty, e2.ty, t)) + (Tokens(e2) + OfMark(e2.ty, e1.ty, t))
          + [BinTok(op)];
      }
    case Assign(e1, e2, _) => SpellsShape(e1); SpellsShape(e2);
    case BinAssign(_, e1, e2, _) => SpellsShape(e1); SpellsShape(e2);
    case _ =>
  }

  lemma SpellsMark(ts: seq<Token>, s: Shape, t: Ty, other: Ty, result: Ty)
    requires ts == ShapeTokens(s)
    ensures ts + OfMark(t, other, result) == ShapeTokens(Mark(s, t, other, result))
  {
  }

  // ---------- A name determines the function ----------

  /** Operands of the same shape are both scalars or both arrays. */
  lemma {:induction false} SameKind(e: Exp, f: Exp)
    requires WellTyped(e) && WellTyped(f) && Plain(e) && Plain(f) && ShapeOf(e) == ShapeOf(f)
    ensures e.ty.kind == f.ty.kind && (IsArrayLeaf(e) <==> IsArrayLeaf(f)) && (PassedWhole(e) <==> PassedWhole(f))
    decreases e
  {
    match e
    case Neg(_, _) => SameKind(e.e1, f.e1);
    case Com(_, _) => SameKind(e.e1, f.e1);
    case Assign(_, _, _) => SameKind(e.e1, f.e1);
    case BinAssign(_, _, _, _) => SameKind(e.e1, f.e1);
    case Bin(op, _, _, _) =>
      if IsBinArrayOp(op) {
        Unmarked(e.e1, e.e1.ty, e.e2.ty, e.ty, f.e1, f.e1.ty, f.e2.ty, f.ty);
        Unmarked(e.e2, e.e2.ty, e.e1.ty, e.ty, f.e2, f.e2.ty, f.e1.ty, f.ty);
        SameKind(e.e1, f.e1);
        SameKind(e.e2, f.e2);
      }
    case _ =>
  }

  /** Marks are recognised: a shape of its own never starts with one. */
  lemma Unmarked(e: Exp, t: Ty, other: Ty, result: Ty, f: Exp, t': Ty, other': Ty, result': Ty)
    requires Mark(ShapeOf(e), t, other, result) == Mark(ShapeOf(f), t', other', result')
    ensures ShapeOf(e) == ShapeOf(f)
    ensures NeedsOf(t, other, result) == NeedsOf(t', other', result')
    ensures NeedsOf(t, other, result) ==> t.elem == t'.elem
  {
    NotMarked(e);
    NotMarked(f);
  }

  lemma {:induction false} NotMarked(e: Exp)
    ensures !ShapeOf(e).Marked?
  {
    if e.Cast? && IsArray(e.ty) { NotMarked(e.e1); }
  }

  // ---------- Scalars ----------

  /** Operands that are passed as scalars have pairwise the same types. */
  predicate SameScalars(a: seq<Exp>, b: seq<Exp>) {
    |a| == |b| && forall k :: 0 <= k < |a| && !IsArrayLeaf(a[k]) ==> a[k].ty == b[k].ty
  }

  lemma SameScalarsSplit(a: seq<Exp>, b: seq<Exp>, a': seq<Exp>, b': seq<Exp>)
    requires SameScalars(a + b, a' + b') && |a| == |a'|
    ensures SameScalars(a, a') && SameScalars(b, b')
  {
    forall k | 0 <= k < |a| && !IsArrayLeaf(a[k]) ensures a[k].ty == a'[k].ty {
      assert (a + b)[k] == a[k] && (a' + b')[k] == a'[k];
    }
    forall k | 0 <= k < |b| && !IsArrayLeaf(b[k]) ensures b[k].ty == b'[k].ty {
      assert (a + b)[|a| + k] == b[k] && (a' + b')[|a| + k] == b'[k];
    }
  }

  function LeafCount(s: Shape): nat {
    match s
    case ExpShape => 1
    case SliceShape => 1
    case NegShape(x) => LeafCount(x)
    case ComShape(x) => LeafCount(x)
    case Marked(x, _) => LeafCount(x)
    case BinShape(_, l, r) => LeafCount(l) + LeafCount(r)
    case AssignShape(t, x) => LeafCount(t) + LeafCount(x)
    case BinAssignShape(_, t, x) => LeafCount(t) + LeafCount(x)
  }

  lemma {:induction false} LeavesCounted(e: Exp)
    ensures |Leaves(e)| == LeafCount(ShapeOf(e))
  {
    match e
    case Cast(e1, t) => if IsArray(t) { LeavesCounted(e1); }
    case Neg(e1, _) => LeavesCounted(e1);
    case Com(e1, _) => LeavesCounted(e1);
    case Bin(op, e1, e2, _) => if IsBinArrayOp(op) { LeavesCounted(e1); LeavesCounted(e2); }
    case Assign(e1, e2, _) => LeavesCounted(e1); LeavesCounted(e2);
    case BinAssign(_, e1, e2, _) => LeavesCounted(e1); LeavesCounted(e2);
    case _ =>
  }

  /** From the shape and the element type of the whole, the types of all arrays
      among the operands follow: those narrower than their operation are marked.
      With the types of the scalars given, all parameters and the loop body
      follow. */
  lemma {:induction false} SameFunction(e: Exp, f: Exp, n: nat)
    requires WellTyped(e) && WellTyped(f) && Plain(e) && Plain(f) && ShapeOf(e) == ShapeOf(f)
    requires (IsArray(e.ty) ==> e.ty.elem == f.ty.elem) && SameScalars(Leaves(e), Leaves(f))
    ensures IsArray(e.ty) ==> e.ty == f.ty
    ensures NewParams(e, n) == NewParams(f, n) && Body(e, n) == Body(f, n)
    decreases e, 1
  {
    hide NewParams, Body, Leaves;
    SameKind(e, f);
    match e
    case Neg(_, _) => UnaryParts(e, n); UnaryParts(f, n); SameFunction(e.e1, f.e1, n);
    case Com(_, _) => UnaryParts(e, n); UnaryParts(f, n); SameFunction(e.e1, f.e1, n);
    case Bin(op, _, _, _) => if IsBinArrayOp(op) { SameBin(e, f, n); } else { SameLeaf(e, f, n); }
    case Assign(_, _, _) => SameAssign(e, f, n);
    case BinAssign(_, _, _, _) => SameAssign(e, f, n);
    case _ => SameLeaf(e, f, n);
  }

  lemma SameLeaf(e: Exp, f: Exp, n: nat)
    requires PassedWhole(e) && PassedWhole(f) && IsArrayLeaf(e) == IsArrayLeaf(f) && e.ty.kind == f.ty.kind
    requires IsArrayLeaf(e) ==> e.ty.elem == f.ty.elem
    requires SameScalars(Leaves(e), Leaves(f))
    ensures NewParams(e, n) == NewParams(f, n) && Body(e, n) == Body(f, n)
  {
    LeafParts(e, n);
    LeafParts(f, n);
    assert Leaves(e)[0] == e && Leaves(f)[0] == f;
  }

  lemma LeafParts(e: Exp, n: nat)
    requires PassedWhole(e)
    ensures Leaves(e) == [e] && NewParams(e, n) == [ParamFor(e, n)] && Body(e, n) == if IsArrayLeaf(e) then Indexed(n)
      else Value(n)
  {
  }

  lemma UnaryParts(e: Exp, n: nat)
    requires e.Neg? || e.Com?
    ensures Leaves(e) == Leaves(e.e1) && NewParams(e, n) == NewParams(e.e1, n)
    ensures Body(e, n) == if e.Neg? then LNeg(Body(e.e1, n)) else LCom(Body(e.e1, n))
  {
  }

  lemma {:induction false} SameBin(e: Exp, f: Exp, n: nat)
    requires e.Bin? && IsBinArrayOp(e.op) && WellTyped(e) && WellTyped(f) && Plain(e) && Plain(f)
    requires ShapeOf(e) == ShapeOf(f) && e.ty.kind == f.ty.kind
    requires (IsArray(e.ty) ==> e.ty.elem == f.ty.elem) && SameScalars(Leaves(e), Leaves(f))
    ensures NewParams(e, n) == NewParams(f, n) && Body(e, n) == Body(f, n)
    decreases e, 0
  {
    hide NewParams, Body, Leaves;
    assert f.Bin? && f.op == e.op;
    Unmarked(e.e1, e.e1.ty, e.e2.ty, e.ty, f.e1, f.e1.ty, f.e2.ty, f.ty);
    Unmarked(e.e2, e.e2.ty, e.e1.ty, e.ty, f.e2, f.e2.ty, f.e1.ty, f.ty);
    SameKind(e.e1, f.e1);
    SameKind(e.e2, f.e2);
    LeavesCounted(e.e1);
    LeavesCounted(f.e1);
    hide ShapeOf, Mark, WellTyped, Plain;
    LeavesOfBoth(e);
    LeavesOfBoth(f);
    SameScalarsSplit(Leaves(e.e1), Leaves(e.e2), Leaves(f.e1), Leaves(f.e2));
    if IsArray(e.ty) { SameElems(e.e1.ty, e.e2.ty, f.e1.ty, f.e2.ty, e.ty); }
    SameFunction(e.e1, f.e1, n);
    SameFunction(e.e2, f.e2, n + |Leaves(e.e1)|);
    BinParams(e, n);
    BinParams(f, n);
  }

  /** Operands of an operator on arrays have the same types if the marks, and the
      type of the result, are the same. */
  lemma SameElems(t1: Ty, t2: Ty, t1': Ty, t2': Ty, t: Ty)
    requires IsArray(t) && Combines(t1, t2, t) && Combines(t1', t2', t) && t1.kind == t1'.kind && t2.kind == t2'.kind
    requires NeedsOf(t1, t2, t) == NeedsOf(t1', t2', t) && (NeedsOf(t1, t2, t) ==> t1.elem == t1'.elem)
    requires NeedsOf(t2, t1, t) == NeedsOf(t2', t1', t) && (NeedsOf(t2, t1, t) ==> t2.elem == t2'.elem)
    ensures t1 == t1' && t2 == t2'
  {
  }

  lemma LeavesOfBoth(e: Exp)
    requires (e.Bin? && IsBinArrayOp(e.op)) || e.Assign? || e.BinAssign?
    ensures Leaves(e) == if e.Bin? then Leaves(e.e1) + Leaves(e.e2) else Leaves(e.e2) + Leaves(e.e1)
  {
  }

  lemma {:induction false} SameAssign(e: Exp, f: Exp, n: nat)
    requires (e.Assign? || e.BinAssign?) && WellTyped(e) && WellTyped(f) && Plain(e) && Plain(f)
    requires ShapeOf(e) == ShapeOf(f) && e.ty.kind == f.ty.kind
    requires (IsArray(e.ty) ==> e.ty.elem == f.ty.elem) && SameScalars(Leaves(e), Leaves(f))
    ensures NewParams(e, n) == NewParams(f, n) && Body(e, n) == Body(f, n)
    decreases e, 0
  {
    hide NewParams, Body, Leaves;
    LeavesCounted(e.e2);
    LeavesCounted(f.e2);
    LeavesOfBoth(e);
    LeavesOfBoth(f);
    SameScalarsSplit(Leaves(e.e2), Leaves(e.e1), Leaves(f.e2), Leaves(f.e1));
    SameFunction(e.e2, f.e2, n);
    SameFunction(e.e1, f.e1, n + |Leaves(e.e2)|);
    hide ShapeOf, WellTyped, Plain;
    AssignParams(e, n);
    AssignParams(f, n);
    AssignBody(e, n);
    AssignBody(f, n);
  }

  lemma AssignBody(e: Exp, n: nat)
    requires e.Assign? || e.BinAssign?
    ensures Body(e, n) == var target := Body(e.e1, n + |Leaves(e.e2)|);
      if e.Assign? then LAssign(target, LCast(Body(e.e2, n), NextOf(e.e1.ty)))
        else LBinAssign(e.op, target, Body(e.e2, n))
  {
  }

  /** What arrayOp gets to see: an assignment to a slice, typed and valid. */
  predicate Accepted(e: Exp) {
    (e.Assign? || e.BinAssign?) && e.e1.Slice? && WellTyped(e) && IsArrayOpValid(e)
  }

  /** The function made for an operation. */
  function FunctionFor(e: Exp): Function {
    Function(NewParams(e, 0), Body(e, 0), e.ty)
  }

  /** Array operations with the same name need the same function, with the same
      loop, parameters of the same types and the same result, exactly if their
      scalar operands have the same types: the name does not tell these. */
  lemma NameDeterminesFunction(e: Exp, f: Exp)
    requires Accepted(e) && Accepted(f) && Basic(e) && Basic(f) && Name(e) == Name(f)
    ensures FunctionFor(e) == FunctionFor(f) <==> SameScalars(Leaves(e), Leaves(f))
  {
    hide Name, ShapeOf, Body, NewParams, Leaves, Basic, WellTyped, IsArrayOpValid;
    ValidIff(e);
    ValidIff(f);
    NameTellsShape(e, f);
    AcceptedType(e);
    AcceptedType(f);
    if SameScalars(Leaves(e), Leaves(f)) {
      SameFunction(e, f, 0);
    }
    if NewParams(e, 0) == NewParams(f, 0) {
      ParamsTellTypes(e, f);
    }
  }

  lemma AcceptedType(e: Exp)
    requires Accepted(e)
    ensures e.ty.kind == DArray
  {
    assert WellTyped(e.e1);
  }

  lemma ParamsTellTypes(e: Exp, f: Exp)
    requires NewParams(e, 0) == NewParams(f, 0)
    ensures SameScalars(Leaves(e), Leaves(f))
  {
    hide NewParams, Leaves;
    ParamsPaired(e, 0);
    ParamsPaired(f, 0);
    var ps, n := NewParams(e, 0), |Leaves(e)|;
    forall k | 0 <= k < n ensures Leaves(e)[k].ty == Leaves(f)[k].ty {
      assert ps[n - 1 - k].ty == Leaves(e)[k].ty;
    }
  }

  // a[] = b[] + x * y, with complex arrays and a complex y
  function ComplexScaled(x: Deco): Exp {
    var slice, complex := Ty(DArray, "r"), Ty(NotArray, "r");
    Assign(Slice(Span(0, 1), slice),
      Bin(Add, Slice(Span(1, 1), slice), Bin(Mul, Other(1, Ty(NotArray, x)), Other(2, complex), complex), slice), slice)
  }

  lemma ComplexAccepted(x: Deco)
    requires BasicDeco(x)
    ensures Accepted(ComplexScaled(x)) && Basic(ComplexScaled(x))
  {
    var sum := ComplexScaled(x).e2;
    assert BasicDeco("r");
    assert WellTyped(sum.e1) && IsArrayOpValid(sum.e1) && Basic(sum.e1);
    assert WellTyped(sum.e2.e1) && WellTyped(sum.e2.e2) && Basic(sum.e2.e1) && Basic(sum.e2.e2);
    assert WellTyped(sum.e2) && IsArrayOpValid(sum.e2) && Basic(sum.e2);
    assert WellTyped(sum) && IsArrayOpValid(sum) && Basic(sum);
  }

  /** With x a double in one operation and complex in another, both have one
      name and need different functions. */
  lemma MixedScalarsShareName()
    ensures var e, f := ComplexScaled("d"), ComplexScaled("r");
      && Accepted(e) && Accepted(f) && Basic(e) && Basic(f)
      && Name(e) == Name(f) && FunctionFor(e) != FunctionFor(f)
  {
    hide Name, NewParams, Body, IsArrayOpValid, Tokens;
    var e, f := ComplexScaled("d"), ComplexScaled("r");
    ComplexAccepted("d");
    ComplexAccepted("r");
    NameTellsShape(e, f);
    assert Leaves(e)[1] == Other(1, Ty(NotArray, "d")) && Leaves(f)[1] == Other(1, Ty(NotArray, "r"));
    NameDeterminesFunction(e, f);
  }

  // ---------- The cache ----------

  datatype Failure = VoidElements | InvalidOperation
  datatype Outcome = Call(f: Function, args: seq<Exp>) | Failed(why: Failure)

  method Identify(e: Exp) returns (name: string, args: seq<Exp>)
    ensures name == Name(e) && args == Rev(Leaves(e))
  {
    hide Tokens, SpellAll, Leaves, Rev;
    var names := new IdentBuilder();
    names.Visit(e);
    name := names.buf + "_" + e.ty.elem;
    args := names.arguments;
    assert Rev(Leaves(e)) + [] == Rev(Leaves(e));
  }

  method MakeLoop(e: Exp) returns (f: Function)
    ensures f == FunctionFor(e)
  {
    hide Body, NewParams;
    var loops := new LoopBuilder();
    var body := loops.Build(e);
    f := Function(loops.fparams, body, e.ty);
    assert NewParams(e, 0) + [] == NewParams(e, 0);
  }

  /** Arguments have the types of the parameters, so the call is accepted. */
  predicate TypesMeet(params: seq<Param>, args: seq<Exp>) {
    |params| == |args| && forall k :: 0 <= k < |args| ==> params[k].ty == args[k].ty
  }

  /** A function made for another operation fits the arguments of this one
      exactly if it is the function that this one needs. */
  lemma FitsIffSame(e: Exp, f: Exp)
    requires Accepted(e) && Accepted(f) && Basic(e) && Basic(f) && Name(e) == Name(f)
    ensures TypesMeet(NewParams(f, 0), Rev(Leaves(e))) <==> FunctionFor(f) == FunctionFor(e)
  {
    hide Name, Body, NewParams, Leaves, Rev, Basic, Accepted;
    NameDeterminesFunction(e, f);
    TraversalsMeet(e);
    if TypesMeet(NewParams(f, 0), Rev(Leaves(e))) {
      ParamsPaired(f, 0);
      var n := |Leaves(e)|;
      forall k | 0 <= k < n ensures Leaves(e)[k].ty == Leaves(f)[k].ty {
        RevAt(Leaves(e), k);
        assert NewParams(f, 0)[n - 1 - k].ty == Leaves(f)[k].ty;
      }
    }
  }

  lemma {:induction false} BasicHasNoPointers(e: Exp)
    requires Basic(e)
    ensures NoPointers(e) && PointerIn(e).None?
  {
    match e
    case Cast(e1, t) => if IsArray(t) { BasicHasNoPointers(e1); }
    case Neg(e1, _) => BasicHasNoPointers(e1);
    case Com(e1, _) => BasicHasNoPointers(e1);
    case Bin(op, e1, e2, _) => if IsBinArrayOp(op) { BasicHasNoPointers(e1); BasicHasNoPointers(e2); }
    case Assign(e1, e2, _) => BasicHasNoPointers(e1); BasicHasNoPointers(e2);
    case BinAssign(_, e1, e2, _) => BasicHasNoPointers(e1); BasicHasNoPointers(e2);
    case _ =>
  }

  class ArrayFunctions {
    var arrayfuncs: map<string, Function>
    ghost var madeFor: map<string, Exp>

    /** Every function in the table was made for an operation of that name. */
    ghost predicate Valid()
      reads this
    {
      && arrayfuncs.Keys == madeFor.Keys
      && forall n :: n in arrayfuncs ==>
           var e := madeFor[n];
           Accepted(e) && Basic(e) && Name(e) == n && arrayfuncs[n] == FunctionFor(e)
    }

    /** The operation that the function for e was, or will be, made for. */
    ghost function First(e: Exp): Exp
      reads this
    {
      if Name(e) in madeFor then madeFor[Name(e)] else e
    }

    constructor ()
      ensures Valid() && arrayfuncs == map[]
    {
      arrayfuncs := map[];
      madeFor := map[];
    }

    /** A function for e is put in the table, unless one of its name is there;
        that one is what e needs exactly if the scalars have the same types. */
    method FindOrMake(e: Exp, name: string)
      requires Valid() && Accepted(e) && Basic(e) && name == Name(e)
      modifies this
      ensures Valid()
      ensures forall n :: n in old(arrayfuncs) ==> n in arrayfuncs && arrayfuncs[n] == old(arrayfuncs)[n]
      ensures name in arrayfuncs && arrayfuncs[name] == FunctionFor(old(First(e)))
      ensures arrayfuncs[name] == FunctionFor(e) <==> SameScalars(Leaves(e), Leaves(old(First(e))))
    {
      hide Name, Body, Leaves, NewParams, Basic, Accepted, FunctionFor;
      ghost var first := First(e);
      if name !in arrayfuncs {
        var f := MakeLoop(e);
        arrayfuncs := arrayfuncs[name := f];
        madeFor := madeFor[name := e];
      }
      NameDeterminesFunction(e, first);
    }

    /** The call that replaces e. A function made before is reused; it takes the
        arguments exactly if it is the one that e needs. */
    method ArrayOp(e: Exp) returns (r: Outcome)
      requires Valid() && Basic(e) && (e.Assign? || e.BinAssign?) && e.e1.Slice? && WellTyped(e)
      modifies this
      ensures Valid()
      ensures forall n :: n in old(arrayfuncs) ==> n in arrayfuncs && arrayfuncs[n] == old(arrayfuncs)[n]
      ensures r.Call? <==> e.ty.elem != "v" && Plain(e) && NoVoidLiterals(Leaves(e))
      ensures if e.ty.elem == "v" then r == Failed(VoidElements)
              else if !IsArrayOpValid(e) then r == Failed(InvalidOperation)
              else
                && r == Call(FunctionFor(old(First(e))), Rev(Leaves(e)))
                && Name(e) in arrayfuncs && r.f == arrayfuncs[Name(e)]
                && (TypesMeet(r.f.params, r.args) <==> r.f == FunctionFor(e))
                && (r.f == FunctionFor(e) <==> SameScalars(Leaves(e), Leaves(old(First(e)))))
    {
      hide Name, Body, Leaves, NewParams, Basic, WellTyped, IsArrayOpValid, Plain, NoVoidLiterals, Rev, Valid;
      ValidIff(e);
      if e.ty.elem == "v" {
        return Failed(VoidElements);
      }
      if !IsArrayOpValid(e) {
        return Failed(InvalidOperation);
      }
      ghost var first := First(e);
      FirstIsAccepted(e);
      var name, args := Identify(e);
      FindOrMake(e, name);
      FitsIffSame(e, first);
      r := Call(arrayfuncs[name], args);
    }

    lemma FirstIsAccepted(e: Exp)
      requires Valid() && Accepted(e) && Basic(e)
      ensures Accepted(First(e)) && Basic(First(e)) && Name(First(e)) == Name(e)
    {
      hide Name, Basic, Accepted, FunctionFor;
    }

    /** Any operation goes through the table and does what it means, or else the
        call is rejected since the types do not meet: exactly if the function in
        the table was made for scalars of other types. */
    method Execute(ar: Arithmetic, e: Exp, mem: array<int>) returns (accepted: bool)
      requires Valid() && Basic(e) && Operation(e) && e.ty.elem != "v" && Fits(e, mem[..])
      modifies this, mem
      ensures Valid()
      ensures accepted <==> SameScalars(Leaves(e), Leaves(old(First(e))))
      ensures !accepted ==> mem[..] == old(mem[..])
      ensures accepted ==>
        var d := e.e1.span;
        && (forall i: nat :: i < d.len ==> mem[d.lo + i] == Stored(ar, old(mem[..]), e, i))
        && (forall j :: 0 <= j < mem.Length && !(d.lo <= j < d.lo + d.len) ==> mem[j] == old(mem[j]))
    {
      hide Name, Body, Leaves, NewParams, Basic, WellTyped, NoAssign, IsArrayOpValid, Rev, Fits;
      BasicHasNoPointers(e);
      var call := ArrayOp(e);
      accepted := TypesMeet(call.f.params, call.args);
      if accepted {
        CallFunction(ar, e, call.f, call.args, mem);
      }
    }
  }
}
