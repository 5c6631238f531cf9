/** Comparison expressions and what they compute. */
module Comparisons {
  // These are built by the code generator. Here is also the lowering of struct
  // comparisons.

  import opened Options
  import opened StructLayouts

  type Byte = n: nat | n < 256

  datatype Op = EqOp | NeOp | AndIf | OrIf
  datatype Var = Result | Length | Ptr1 | Ptr2

  /** Addresses count from the start of the operand they point into. */
  datatype Exp =
    | Num(k: int)
    | Local(v: Var)
    | ArrayLength(second: bool)
    | ArrayPtr(second: bool)
    | Plus(l: Exp, r: Exp)
    | Times(l: Exp, r: Exp)
    | BoolOp(op: Op, l: Exp, r: Exp)
    | Ref(second: bool, addr: Exp, bytes: nat, isInt: bool)   // the object at an address
    | View(ref: Exp)                                          // its bits as an integer
    | Memcmp(p: Exp, q: Exp, n: Exp)
    | Then(before: seq<Stmt>, e: Exp)                         // COMPOUND_EXPR

  datatype Stmt =
    | Set(v: Var, e: Exp)
    | ExitIf(e: Exp)                 // EXIT_EXPR
    | LoopExpr(body: seq<Stmt>)      // LOOP_EXPR

  /** The operands: the bytes of each, absent behind a null pointer, and their
      lengths; and the temporaries. */
  datatype Env = Env(a: Option<seq<Byte>>, b: Option<seq<Byte>>, len1: nat, len2: nat,
                     result: int, length: int, ptr1: int, ptr2: int)

  function Get(env: Env, v: Var): int {
    match v case Result => env.result case Length => env.length case Ptr1 => env.ptr1 case Ptr2 => env.ptr2
  }

  function Put(env: Env, v: Var, k: int): Env {
    match v
    case Result => env.(result := k) case Length => env.(length := k)
    case Ptr1 => env.(ptr1 := k) case Ptr2 => env.(ptr2 := k)
  }

  // ---------- What expressions compute ----------

  /** An unsigned integer, least significant byte first. */
  function Number(x: seq<Byte>): nat {
    if x == [] then 0 else x[0] + 256 * Number(x[1..])
  }

  /** The result of memcmp: how the first different bytes differ. */
  function CompareBytes(x: seq<Byte>, y: seq<Byte>): int
    requires |x| == |y|
  {
    if x == [] then 0
    else if x[0] != y[0] then x[0] - y[0]
    else CompareBytes(x[1..], y[1..])
  }

  /** n bytes at an address; nothing behind a null pointer or outside. */
  function Bytes(data: Option<seq<Byte>>, p: int, n: int): Option<seq<Byte>> {
    if data.Some? && 0 <= p <= p + n <= |data.value| then Some(data.value[p..p + n]) else None
  }

  datatype Outcome = Value(v: int, env: Env) | Stuck | OutOfFuel
  datatype Progress = Going(env: Env) | Exited(env: Env) | Failed(why: Outcome)

  function Apply(op: Op, x: int, y: int): int {
    var r := match op
      case EqOp => x == y
      case NeOp => x != y
      case AndIf => x != 0 && y != 0
      case OrIf => x != 0 || y != 0;
    if r then 1 else 0
  }

  function Eval(e: Exp, env: Env, fuel: nat): Outcome
    decreases fuel, e, 1
  {
    match e
    case Num(k) => Value(k, env)
    case Local(v) => Value(Get(env, v), env)
    case ArrayLength(second) => Value(if second then env.len2 else env.len1, env)
    case ArrayPtr(second) => Value(0, env)
    case Plus(l, r) =>
      var x := Eval(l, env, fuel);
      if !x.Value? then x else
      var y := Eval(r, x.env, fuel);
      if !y.Value? then y else Value(x.v + y.v, y.env)
    case Times(l, r) =>
      var x := Eval(l, env, fuel);
      if !x.Value? then x else
      var y := Eval(r, x.env, fuel);
      if !y.Value? then y else Value(x.v * y.v, y.env)
    case BoolOp(op, l, r) =>
      var x := Eval(l, env, fuel);
      if !x.Value? then x
      else if op == AndIf && x.v == 0 then Value(0, x.env)
      else if op == OrIf && x.v != 0 then Value(1, x.env)
      else
        var y := Eval(r, x.env, fuel);
        if !y.Value? then y else Value(Apply(op, x.v, y.v), y.env)
    case Ref(_, _, _, isInt) => if isInt then EvalBits(e, env, fuel) else Stuck
    case View(Ref(s, p, n, i)) => EvalBits(Ref(s, p, n, i), env, fuel)
    case View(_) => Stuck
    case Memcmp(p, q, n) => EvalMemcmp(e, env, fuel)
    case Then(before, x) =>
      match Run(before, env, fuel)
      case Going(env') => Eval(x, env', fuel)
      case Exited(_) => Stuck
      case Failed(why) => why
  }

  function EvalBits(e: Exp, env: Env, fuel: nat): Outcome
    requires e.Ref?
    decreases fuel, e, 0
  {
    var p := Eval(e.addr, env, fuel);
    if !p.Value? then p else
    var x := Bytes(if e.second then env.b else env.a, p.v, e.bytes);
    if x.None? then Stuck else Value(Number(x.value), p.env)
  }

  function EvalMemcmp(e: Exp, env: Env, fuel: nat): Outcome
    requires e.Memcmp?
    decreases fuel, e, 0
  {
    var p := Eval(e.p, env, fuel);
    if !p.Value? then p else
    var q := Eval(e.q, p.env, fuel);
    if !q.Value? then q else
    var n := Eval(e.n, q.env, fuel);
    if !n.Value? then n else
    var x, y := Bytes(env.a, p.v, n.v), Bytes(env.b, q.v, n.v);
    if x.None? || y.None? then Stuck else Value(CompareBytes(x.value, y.value), n.env)
  }

  function Run(ss: seq<Stmt>, env: Env, fuel: nat): Progress
    decreases fuel, ss, 0
  {
    if ss == [] then Going(env) else
    var o := RunStmt(ss[0], env, fuel);
    if o.Going? then Run(ss[1..], o.env, fuel) else o
  }

  /** A loop goes round until its exit condition holds. */
  function RunStmt(s: Stmt, env: Env, fuel: nat): Progress
    decreases fuel, s, 1
  {
    match s
    case Set(v, e) =>
      var x := Eval(e, env, fuel);
      if x.Value? then Going(Put(x.env, v, x.v)) else Failed(x)
    case ExitIf(e) =>
      var x := Eval(e, env, fuel);
      if !x.Value? then Failed(x) else if x.v != 0 then Exited(x.env) else Going(x.env)
    case LoopExpr(body) =>
      match Run(body, env, fuel)
      case Going(env') => if fuel == 0 then Failed(OutOfFuel) else RunStmt(s, env', fuel - 1)
      case Exited(env') => Going(env')
      case Failed(why) => Failed(why)
  }

  // ---------- Lowering ----------

  /** Compare one field, at addresses p and q. */
  function LowerType(code: Op, t: Type, p: Exp, q: Exp): Exp
    decreases t, 0
  {
    match t
    case Struct(sd) => LowerStruct(code, sd, p, q)
    case Integral(n) => BoolOp(code, Ref(false, p, n, true), Ref(true, q, n, true))
    case Other(n, blk, _) => CompareBits(code, n, blk, p, q)
    case StaticArray(_, _, blk) => CompareBits(code, Size(t), blk, p, q)
  }

  function CompareBits(code: Op, n: nat, blk: bool, p: Exp, q: Exp): Exp {
    if blk then CompareBlocks(code, p, q, Num(n))
    else BoolOp(code, View(Ref(false, p, n, false)), View(Ref(true, q, n, false)))
  }

  function CompareBlocks(code: Op, p: Exp, q: Exp, n: Exp): Exp {
    BoolOp(code, Memcmp(p, q, n), Num(0))
  }

  function Chain(code: Op): Op {
    if code == EqOp then AndIf else OrIf
  }

  /** Compare field by field. */
  function LowerStruct(code: Op, sd: StructDecl, p: Exp, q: Exp): Exp
    decreases sd, 0
  {
    if sd.fields == [] then BoolOp(code, Num(0), Num(0))
    else if sd.isUnion then CompareBlocks(code, p, q, Num(sd.structsize))
    else LowerFields(code, sd.fields, p, q)
  }

  function LowerFields(code: Op, fs: seq<Field>, p: Exp, q: Exp): Exp
    requires fs != []
    decreases fs, 1
  {
    var n := |fs| - 1;
    assert (fs decreases to fs[n]);
    var Field(offset, ty) := fs[n];
    var c := LowerType(code, ty, Plus(p, Num(offset)), Plus(q, Num(offset)));
    if n == 0 then c else BoolOp(Chain(code), LowerFields(code, fs[..n], p, q), c)
  }

  lemma OneMoreField(code: Op, fs: seq<Field>, i: nat, p: Exp, q: Exp)
    requires i < |fs|
    ensures var Field(offset, ty) := fs[i];
      var c := LowerType(code, ty, Plus(p, Num(offset)), Plus(q, Num(offset)));
      LowerFields(code, fs[..i + 1], p, q) ==
        if i == 0 then c else BoolOp(Chain(code), LowerFields(code, fs[..i], p, q), c)
  {
    hide LowerType;
    assert fs[..i + 1][..i] == fs[..i];
  }

  method LowerStructComparison(code: Op, sd: StructDecl, t1: Exp, t2: Exp) returns (tmemcmp: Exp)
    ensures tmemcmp == LowerStruct(code, sd, t1, t2)
    decreases sd
  {
    if sd.fields == [] {
      return BoolOp(code, Num(0), Num(0));
    }
    if sd.isUnion {
      return BoolOp(code, Memcmp(t1, t2, Num(sd.structsize)), Num(0));
    }
    var tcode := if code == EqOp then AndIf else OrIf;
    var fs := sd.fields;
    var i := 0;
    tmemcmp := Num(0);
    while i < |fs|
      invariant i <= |fs|
      invariant i > 0 ==> tmemcmp == LowerFields(code, fs[..i], t1, t2)
    {
      hide Size, LowerStruct, LowerFields;
      OneMoreField(code, fs, i, t1, t2);
      var vd := fs[i];
      var t1ref, t2ref := Plus(t1, Num(vd.offset)), Plus(t2, Num(vd.offset));
      var tcmp: Exp;
      match vd.ty {
        case Struct(decl) =>
          tcmp := LowerStructComparison(code, decl, t1ref, t2ref);
        case Integral(n) =>
          tcmp := BoolOp(code, Ref(false, t1ref, n, true), Ref(true, t2ref, n, true));
        case _ =>
          var n := Size(vd.ty);
          if !vd.ty.blk {
            tcmp := BoolOp(code, View(Ref(false, t1ref, n, false)), View(Ref(true, t2ref, n, false)));
          } else {
            tcmp := BoolOp(code, Memcmp(t1ref, t2ref, Num(n)), Num(0));
          }
      }
      tmemcmp := if i > 0 then BoolOp(tcode, tmemcmp, tcmp) else tcmp;
      i := i + 1;
    }
    assert fs[..i] == fs;
  }

  /** Small structs, and those with holes, are compared field by field; others
      as a block. */
  function StructComparison(code: Op, sd: StructDecl, p: Exp, q: Exp): Exp {
    if sd.fields == [] then BoolOp(code, Num(0), Num(0))
    else if !sd.blk || !Identity(sd) then LowerStruct(code, sd, p, q)
    else CompareBlocks(code, p, q, Num(sd.structsize))
  }

  // ---------- Meaning ----------

  lemma {:induction false} NumberInjective(x: seq<Byte>, y: seq<Byte>)
    requires |x| == |y|
    ensures Number(x) == Number(y) <==> x == y
  {
    if x != [] && Number(x) == Number(y) {
      assert x[0] == Number(x) % 256 && y[0] == Number(y) % 256;
      NumberInjective(x[1..], y[1..]);
      assert x == [x[0]] + x[1..] && y == [y[0]] + y[1..];
    }
  }

  lemma {:induction false} ZeroIffSame(x: seq<Byte>, y: seq<Byte>)
    requires |x| == |y|
    ensures CompareBytes(x, y) == 0 <==> x == y
  {
    if x != [] {
      ZeroIffSame(x[1..], y[1..]);
      assert x == [x[0]] + x[1..] && y == [y[0]] + y[1..];
    }
  }

  /** Evaluating e gives v and changes nothing. */
  ghost predicate Yields(e: Exp, env: Env, fuel: nat, v: int) {
    Eval(e, env, fuel) == Value(v, env)
  }

  function Truth(code: Op, same: bool): int {
    if same == (code == EqOp) then 1 else 0
  }

  ghost predicate SameBytes(a: seq<Byte>, p: nat, b: seq<Byte>, q: nat, n: nat)
    requires p + n <= |a| && q + n <= |b|
  {
    a[p..p + n] == b[q..q + n]
  }

  ghost predicate SameStruct(sd: StructDecl, a: seq<Byte>, p: nat, b: seq<Byte>, q: nat)
    requires p + sd.structsize <= |a| && q + sd.structsize <= |b|
  {
    forall o: nat :: o < sd.structsize && Looks(sd, o) ==> a[p + o] == b[q + o]
  }

  ghost predicate SameFields(fs: seq<Field>, n: nat, a: seq<Byte>, p: nat, b: seq<Byte>, q: nat)
    requires p + n <= |a| && q + n <= |b|
  {
    forall o: nat :: o < n && LooksFields(fs, o) ==> a[p + o] == b[q + o]
  }

  ghost predicate SameType(t: Type, a: seq<Byte>, p: nat, b: seq<Byte>, q: nat)
    requires p + Size(t) <= |a| && q + Size(t) <= |b|
  {
    forall o: nat :: o < Size(t) && LooksType(t, o) ==> a[p + o] == b[q + o]
  }

  /** p and q evaluate to addresses of n bytes in either operand. */
  ghost predicate At(env: Env, fuel: nat, pe: Exp, p: nat, qe: Exp, q: nat, n: nat) {
    && env.a.Some? && p + n <= |env.a.value| && Yields(pe, env, fuel, p)
    && env.b.Some? && q + n <= |env.b.value| && Yields(qe, env, fuel, q)
  }

  lemma SameAt(a: seq<Byte>, p: nat, b: seq<Byte>, q: nat, n: nat, o: nat)
    requires p + n <= |a| && q + n <= |b| && SameBytes(a, p, b, q, n) && o < n
    ensures a[p + o] == b[q + o]
  {
    assert a[p..p + n][o] == b[q..q + n][o];
  }

  lemma BlocksMean(code: Op, pe: Exp, qe: Exp, ne: Exp, env: Env, fuel: nat, p: nat, q: nat, n: nat)
    requires (code == EqOp || code == NeOp) && At(env, fuel, pe, p, qe, q, n) && Yields(ne, env, fuel, n)
    ensures Yields(CompareBlocks(code, pe, qe, ne), env, fuel,
      Truth(code, SameBytes(env.a.value, p, env.b.value, q, n)))
  {
    var a, b := env.a.value, env.b.value;
    ZeroIffSame(a[p..p + n], b[q..q + n]);
    assert Eval(Memcmp(pe, qe, ne), env, fuel) == EvalMemcmp(Memcmp(pe, qe, ne), env, fuel);
    assert Eval(Num(0), env, fuel) == Value(0, env);
  }

  lemma BitsMean(code: Op, pe: Exp, qe: Exp, isInt: bool, env: Env, fuel: nat, p: nat, q: nat, n: nat)
    requires (code == EqOp || code == NeOp) && At(env, fuel, pe, p, qe, q, n)
    ensures var x, y := Ref(false, pe, n, isInt), Ref(true, qe, n, isInt);
      Yields(BoolOp(code, if isInt then x else View(x), if isInt then y else View(y)), env, fuel,
             Truth(code, SameBytes(env.a.value, p, env.b.value, q, n)))
  {
    var a, b := env.a.value, env.b.value;
    NumberInjective(a[p..p + n], b[q..q + n]);
    var x, y := Ref(false, pe, n, isInt), Ref(true, qe, n, isInt);
    assert EvalBits(x, env, fuel) == Value(Number(a[p..p + n]), env);
    assert EvalBits(y, env, fuel) == Value(Number(b[q..q + n]), env);
  }

  lemma ChainMeans(code: Op, l: Exp, r: Exp, env: Env, fuel: nat, x: bool, y: bool)
    requires code == EqOp || code == NeOp
    requires Yields(l, env, fuel, Truth(code, x)) && Yields(r, env, fuel, Truth(code, y))
    ensures Yields(BoolOp(Chain(code), l, r), env, fuel, Truth(code, x && y))
  {
  }

  lemma AddressPlus(env: Env, fuel: nat, pe: Exp, p: nat, k: nat)
    requires Yields(pe, env, fuel, p)
    ensures Yields(Plus(pe, Num(k)), env, fuel, p + k)
  {
    assert Eval(Num(k), env, fuel) == Value(k, env);
  }

  /** Comparing field by field compares the bytes looked at, and reads nothing
      outside the structs; != is the negation of ==. */
  lemma {:induction false} LowerMeans(code: Op, sd: StructDecl, pe: Exp, qe: Exp, env: Env, fuel: nat, p: nat, q: nat)
    requires (code == EqOp || code == NeOp) && Laid(sd) && At(env, fuel, pe, p, qe, q, sd.structsize)
    ensures Yields(LowerStruct(code, sd, pe, qe), env, fuel,
      Truth(code, SameStruct(sd, env.a.value, p, env.b.value, q)))
    decreases sd, 0
  {
    hide Eval, LooksFields, LowerFields, SameBytes, SameFields, Yields;
    var a, b := env.a.value, env.b.value;
    if sd.fields == [] {
      ConstantMeans(code, env, fuel);
    } else if sd.isUnion {
      NumberYields(env, fuel, sd.structsize);
      BlocksMean(code, pe, qe, Num(sd.structsize), env, fuel, p, q, sd.structsize);
      assert SameStruct(sd, a, p, b, q) <==> SameBytes(a, p, b, q, sd.structsize) by { UnionSame(sd, a, p, b, q); }
    } else {
      LowerFieldsMean(code, sd.fields, sd.structsize, pe, qe, env, fuel, p, q);
      assert SameStruct(sd, a, p, b, q) <==>
        SameFields(sd.fields, sd.structsize, a, p, b, q) by { PlainSame(sd, a, p, b, q); }
    }
  }

  lemma ConstantMeans(code: Op, env: Env, fuel: nat)
    requires code == EqOp || code == NeOp
    ensures Yields(BoolOp(code, Num(0), Num(0)), env, fuel, Truth(code, true))
  {
    assert Eval(Num(0), env, fuel) == Value(0, env);
  }

  lemma NumberYields(env: Env, fuel: nat, k: int)
    ensures Yields(Num(k), env, fuel, k)
  {
  }

  lemma UnionSame(sd: StructDecl, a: seq<Byte>, p: nat, b: seq<Byte>, q: nat)
    requires p + sd.structsize <= |a| && q + sd.structsize <= |b| && sd.isUnion && sd.fields != []
    ensures SameStruct(sd, a, p, b, q) <==> SameBytes(a, p, b, q, sd.structsize)
  {
    var x, y, n := a[p..p + sd.structsize], b[q..q + sd.structsize], sd.structsize;
    if SameStruct(sd, a, p, b, q) {
      forall o: nat | o < n ensures x[o] == y[o] { assert Looks(sd, o); }
    } else {
      var o: nat :| o < n && Looks(sd, o) && a[p + o] != b[q + o];
      assert x[o] != y[o];
    }
  }

  lemma PlainSame(sd: StructDecl, a: seq<Byte>, p: nat, b: seq<Byte>, q: nat)
    requires p + sd.structsize <= |a| && q + sd.structsize <= |b| && !sd.isUnion && sd.fields != []
    ensures SameStruct(sd, a, p, b, q) <==> SameFields(sd.fields, sd.structsize, a, p, b, q)
  {
    forall o: nat ensures Looks(sd, o) == LooksFields(sd.fields, o) { }
  }

  lemma {:induction false} LowerFieldsMean(code: Op, fs: seq<Field>, size: nat, pe: Exp, qe: Exp, env: Env, fuel: nat,
      p: nat, q: nat)
    requires (code == EqOp || code == NeOp) && fs != [] && LaidFields(fs, size) && At(env, fuel, pe, p, qe, q, size)
    ensures Yields(LowerFields(code, fs, pe, qe), env, fuel,
      Truth(code, SameFields(fs, size, env.a.value, p, env.b.value, q)))
    decreases fs, 1
  {
    hide Eval, LooksFields, SameBytes, SameFields, SameType, Yields, LowerType, Size;
    var n := |fs| - 1;
    var a, b := env.a.value, env.b.value;
    assert (fs decreases to fs[n]);
    var Field(offset, ty) := fs[n];
    AddressPlus(env, fuel, pe, p, offset);
    AddressPlus(env, fuel, qe, q, offset);
    LowerTypeMeans(code, ty, Plus(pe, Num(offset)), Plus(qe, Num(offset)), env, fuel, p + offset, q + offset);
    SameOneMore(fs, size, a, p, b, q);
    if n == 0 {
      NoFieldsSame(size, a, p, b, q);
      assert fs[..0] == [];
    } else {
      LowerFieldsMean(code, fs[..n], size, pe, qe, env, fuel, p, q);
      ChainMeans(code, LowerFields(code, fs[..n], pe, qe),
                 LowerType(code, ty, Plus(pe, Num(offset)), Plus(qe, Num(offset))), env, fuel,
                 SameFields(fs[..n], size, a, p, b, q), SameType(ty, a, p + offset, b, q + offset));
    }
  }

  lemma NoFieldsSame(size: nat, a: seq<Byte>, p: nat, b: seq<Byte>, q: nat)
    requires p + size <= |a| && q + size <= |b|
    ensures SameFields([], size, a, p, b, q)
  {
  }

  lemma SameOneMore(fs: seq<Field>, size: nat, a: seq<Byte>, p: nat, b: seq<Byte>, q: nat)
    requires fs != [] && LaidFields(fs, size) && p + size <= |a| && q + size <= |b|
    ensures var n := |fs| - 1;
      var f := fs[n];
      f.offset + Size(f.ty) <= size &&
      (SameFields(fs, size, a, p, b, q) <==>
        SameFields(fs[..n], size, a, p, b, q) && SameType(f.ty, a, p + f.offset, b, q + f.offset))
  {
    var n := |fs| - 1;
    var f := fs[n];
    var same := SameFields(fs, size, a, p, b, q);
    if same {
      forall o: nat | o < size && LooksFields(fs[..n], o) ensures a[p + o] == b[q + o] {
        assert LooksFields(fs, o);
      }
      forall o: nat | o < Size(f.ty) && LooksType(f.ty, o) ensures a[p + f.offset + o] == b[q + f.offset + o] {
        assert LooksFields(fs, f.offset + o);
      }
    }
    if SameFields(fs[..n], size, a, p, b, q) && SameType(f.ty, a, p + f.offset, b, q + f.offset) {
      forall o: nat | o < size && LooksFields(fs, o) ensures a[p + o] == b[q + o] {
        if !LooksFields(fs[..n], o) {
          LooksInsideType(f.ty, o - f.offset);
          assert a[p + f.offset + (o - f.offset)] == b[q + f.offset + (o - f.offset)];
        }
      }
    }
  }

  lemma LooksInsideType(t: Type, o: nat)
    requires LaidType(t) && LooksType(t, o)
    ensures o < Size(t)
  {
    match t case Struct(sd) => LooksInside(sd, o); case _ =>
  }

  lemma {:induction false} LowerTypeMeans(code: Op, t: Type, pe: Exp, qe: Exp, env: Env, fuel: nat, p: nat, q: nat)
    requires (code == EqOp || code == NeOp) && LaidType(t) && At(env, fuel, pe, p, qe, q, Size(t))
    ensures Yields(LowerType(code, t, pe, qe), env, fuel, Truth(code, SameType(t, env.a.value, p, env.b.value, q)))
    decreases t, 0
  {
    hide Eval, Looks, LowerStruct, SameBytes, Yields;
    var a, b := env.a.value, env.b.value;
    match t
    case Struct(sd) => {
      LowerMeans(code, sd, pe, qe, env, fuel, p, q);
      InnerSame(sd, a, p, b, q);
    }
    case Integral(n) => {
      BitsMean(code, pe, qe, true, env, fuel, p, q, n);
      WholeSame(t, a, p, b, q);
    }
    case Other(n, blk, _) => {
      CompareBitsMean(code, n, blk, pe, qe, env, fuel, p, q);
      WholeSame(t, a, p, b, q);
    }
    case StaticArray(_, _, blk) => {
      CompareBitsMean(code, Size(t), blk, pe, qe, env, fuel, p, q);
      WholeSame(t, a, p, b, q);
    }
  }

  lemma CompareBitsMean(code: Op, n: nat, blk: bool, pe: Exp, qe: Exp, env: Env, fuel: nat, p: nat, q: nat)
    requires (code == EqOp || code == NeOp) && At(env, fuel, pe, p, qe, q, n)
    ensures Yields(CompareBits(code, n, blk, pe, qe), env, fuel,
      Truth(code, SameBytes(env.a.value, p, env.b.value, q, n)))
  {
    hide Eval, SameBytes;
    if blk {
      NumberYields(env, fuel, n);
      BlocksMean(code, pe, qe, Num(n), env, fuel, p, q, n);
    } else {
      BitsMean(code, pe, qe, false, env, fuel, p, q, n);
    }
  }

  lemma InnerSame(sd: StructDecl, a: seq<Byte>, p: nat, b: seq<Byte>, q: nat)
    requires p + sd.structsize <= |a| && q + sd.structsize <= |b|
    ensures SameType(Struct(sd), a, p, b, q) <==> SameStruct(sd, a, p, b, q)
  {
    forall o: nat ensures LooksType(Struct(sd), o) == Looks(sd, o) { }
  }

  lemma WholeSame(t: Type, a: seq<Byte>, p: nat, b: seq<Byte>, q: nat)
    requires p + Size(t) <= |a| && q + Size(t) <= |b| && !t.Struct?
    ensures SameType(t, a, p, b, q) <==> SameBytes(a, p, b, q, Size(t))
  {
    var x, y, n := a[p..p + Size(t)], b[q..q + Size(t)], Size(t);
    if SameType(t, a, p, b, q) {
      forall o: nat | o < n ensures x[o] == y[o] { assert LooksType(t, o); }
    } else {
      var o: nat :| o < n && LooksType(t, o) && a[p + o] != b[q + o];
      assert x[o] != y[o];
    }
  }
}
