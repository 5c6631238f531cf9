/** Array operations after semantic analysis, and their element-wise meaning. */
module ArrayExps {

  /** Element types are named by their mangling. */
  type Deco = string

  datatype Kind = DArray | SArray | NotArray
  datatype Ty = Ty(kind: Kind, elem: Deco)

  predicate IsArray(t: Ty) { t.kind != NotArray }

  datatype BinOp = Add | Min | Mul | Div | Mod | Xor | And | Or | Pow | NoArrayOp(token: nat)

  /** Part of memory. */
  datatype Span = Span(lo: nat, len: nat)

  datatype Exp =
    | Slice(span: Span, ty: Ty)
    | Literal(vals: seq<int>, ty: Ty)
    | Other(val: int, ty: Ty)                        // any other kind of expression
    | Cast(e1: Exp, ty: Ty)
    | Neg(e1: Exp, ty: Ty)
    | Com(e1: Exp, ty: Ty)
    | Bin(op: BinOp, e1: Exp, e2: Exp, ty: Ty)
    | Assign(e1: Exp, e2: Exp, ty: Ty)
    | BinAssign(op: BinOp, e1: Exp, e2: Exp, ty: Ty)

  /** Arithmetic on elements is left to the reader: any functions will do. */
  datatype Arithmetic = Arithmetic(
    bin: (BinOp, int, int) -> int,
    neg: int -> int,
    com: int -> int,
    cast: (Deco, int) -> int,                        // conversion on assignment
    stride: Deco -> int)                             // the size of what a pointer points to

  predicate IsBinArrayOp(op: BinOp) { !op.NoArrayOp? }

  /** Arrays are used with [] only: what the code checks before anything else. */
  predicate IsArrayOpValid(e: Exp) {
    match e
    case Slice(_, _) => true
    case Literal(_, t) => t.elem != "v"
    case Neg(e1, t) => IsArray(t) ==> IsArrayOpValid(e1)
    case Com(e1, t) => IsArray(t) ==> IsArrayOpValid(e1)
    case Bin(op, e1, e2, t) => IsArray(t) ==> IsBinArrayOp(op) && IsArrayOpValid(e1) && IsArrayOpValid(e2)
    case Assign(e1, e2, t) => IsArray(t) ==> IsArrayOpValid(e1) && IsArrayOpValid(e2)
    case BinAssign(op, e1, e2, t) => IsArray(t) ==> IsBinArrayOp(op) && IsArrayOpValid(e1) && IsArrayOpValid(e2)
    case Other(_, t) => !IsArray(t)
    case Cast(_, t) => !IsArray(t)
  }

  /** How the semantic pass types an operator. Scalars may keep different types:
      a real number beside a complex or an imaginary one does. A scalar beside an
      array has the element type of the result: it is converted to the array's,
      or the array is left to be widened element by element. Of two arrays the
      narrower one is left so. */
  predicate Combines(t1: Ty, t2: Ty, t: Ty) {
    if !IsArray(t1) && !IsArray(t2) then !IsArray(t)
    else
      && t.kind == DArray && t1.kind != SArray && t2.kind != SArray
      && (!IsArray(t1) ==> t1.elem == t.elem)
      && (!IsArray(t2) ==> t2.elem == t.elem)
      && (IsArray(t1) && IsArray(t2) ==> t1.elem == t.elem || t2.elem == t.elem)
  }

  /** The types are those the semantic pass gives; element types are compared
      without const. */
  predicate WellTyped(e: Exp) {
    match e
    case Slice(_, t) => t.kind == DArray
    case Literal(_, t) => t.kind == DArray
    case Neg(e1, t) => WellTyped(e1) && t == e1.ty
    case Com(e1, t) => WellTyped(e1) && t == e1.ty
    case Bin(op, e1, e2, t) => WellTyped(e1) && WellTyped(e2) && (IsBinArrayOp(op) ==> Combines(e1.ty, e2.ty, t))
    case Assign(e1, e2, t) => WellTyped(e1) && WellTyped(e2) && t == e1.ty && t.elem == e2.ty.elem
      && (IsArray(e2.ty) ==> IsArray(t))
    case BinAssign(_, e1, e2, t) => WellTyped(e1) && WellTyped(e2) && t == e1.ty
      && (IsArray(t) ==> t.elem == e2.ty.elem) && (IsArray(e2.ty) ==> IsArray(t))
    case Other(_, _) => true
    case Cast(e1, _) => WellTyped(e1)
  }

  /** No assignment is buried in the expression. */
  predicate NoAssign(e: Exp) {
    match e
    case Neg(e1, _) => NoAssign(e1)
    case Com(e1, _) => NoAssign(e1)
    case Cast(e1, _) => NoAssign(e1)
    case Bin(_, e1, e2, _) => NoAssign(e1) && NoAssign(e2)
    case Assign(_, _, _) => false
    case BinAssign(_, _, _, _) => false
    case _ => true
  }

  /** The value of a scalar expression that is passed as a whole. */
  function ScalarValue(ar: Arithmetic, e: Exp): int {
    match e
    case Other(v, _) => v
    case Cast(e1, t) => ar.cast(t.elem, ScalarValue(ar, e1))
    case Neg(e1, _) => ar.neg(ScalarValue(ar, e1))
    case Com(e1, _) => ar.com(ScalarValue(ar, e1))
    case Bin(op, e1, e2, _) => ar.bin(op, ScalarValue(ar, e1), ScalarValue(ar, e2))
    case _ => 0
  }

  /** Every array in the expression has an element i. */
  predicate HasElement(mem: seq<int>, e: Exp, i: nat) {
    match e
    case Slice(s, _) => i < s.len && s.lo + s.len <= |mem|
    case Literal(vs, _) => i < |vs|
    case Neg(e1, _) => HasElement(mem, e1, i)
    case Com(e1, _) => HasElement(mem, e1, i)
    case Bin(op, e1, e2, _) => IsBinArrayOp(op) ==> HasElement(mem, e1, i) && HasElement(mem, e2, i)
    case _ => true
  }

  /** Element i of a vector expression: slices and literals give their own
      element i, scalars the same value everywhere. */
  function Element(ar: Arithmetic, mem: seq<int>, e: Exp, i: nat): int
    requires HasElement(mem, e, i)
  {
    match e
    case Slice(s, _) => mem[s.lo + i]
    case Literal(vs, _) => vs[i]
    case Neg(e1, _) => ar.neg(Element(ar, mem, e1, i))
    case Com(e1, _) => ar.com(Element(ar, mem, e1, i))
    case Bin(op, e1, e2, _) =>
      if IsBinArrayOp(op) then ar.bin(op, Element(ar, mem, e1, i), Element(ar, mem, e2, i))
      else ScalarValue(ar, e)
    case _ => ScalarValue(ar, e)
  }

  // ---------- Sequences turned round ----------

  function Rev<T>(s: seq<T>): (r: seq<T>)
    ensures |r| == |s|
  {
    if s == [] then [] else Rev(s[1..]) + [s[0]]
  }

  lemma {:induction false} RevAppend<T>(a: seq<T>, b: seq<T>)
    ensures Rev(a + b) == Rev(b) + Rev(a)
  {
    if a == [] {
      assert a + b == b;
    } else {
      assert (a + b)[1..] == a[1..] + b;
      RevAppend(a[1..], b);
    }
  }

  lemma {:induction false} RevAt<T>(s: seq<T>, k: nat)
    requires k < |s|
    ensures Rev(s)[|s| - 1 - k] == s[k]
  {
    if k > 0 { RevAt(s[1..], k - 1); }
  }
}
