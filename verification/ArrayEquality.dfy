/** Comparing structs and arrays for equality. */
module ArrayEquality {
  // A block of bytes, a test of the fields and a generated loop all decide the
  // same question.

  import opened Options
  import opened StructLayouts
  import opened Comparisons

  // ---------- Structs ----------

  /** A struct that passes the test has no union without fields in it. */
  predicate Faithful(sd: StructDecl) {
    Identity(sd) ==> NoEmptyUnion(sd)
  }

  predicate FaithfulType(t: Type) {
    t.Struct? ==> Faithful(t.sd)
  }

  /** However it is lowered, a comparison of structs compares the bytes of
      their fields. */
  lemma StructComparisonMeans(code: Op, sd: StructDecl, pe: Exp, qe: Exp, env: Env, fuel: nat, p: nat, q: nat)
    requires (code == EqOp || code == NeOp) && Laid(sd) && Faithful(sd) && At(env, fuel, pe, p, qe, q, sd.structsize)
    ensures Yields(StructComparison(code, sd, pe, qe), env, fuel,
      Truth(code, SameStruct(sd, env.a.value, p, env.b.value, q)))
  {
    hide Eval, LowerStruct, Identity, NoEmptyUnion, Laid, SameBytes, SameStruct, Yields;
    LowerMeans(code, sd, pe, qe, env, fuel, p, q);
    ConstantMeans(code, env, fuel);
    if sd.fields == [] {
      NothingToCompare(sd, env.a.value, p, env.b.value, q);
    } else if sd.blk && Identity(sd) {
      IdentityCovers(sd);
      NumberYields(env, fuel, sd.structsize);
      BlocksMean(code, pe, qe, Num(sd.structsize), env, fuel, p, q, sd.structsize);
      CoveredSame(sd, env.a.value, p, env.b.value, q);
    }
  }

  lemma NothingToCompare(sd: StructDecl, a: seq<Byte>, p: nat, b: seq<Byte>, q: nat)
    requires p + sd.structsize <= |a| && q + sd.structsize <= |b| && sd.fields == []
    ensures SameStruct(sd, a, p, b, q)
  {
  }

  lemma CoveredSame(sd: StructDecl, a: seq<Byte>, p: nat, b: seq<Byte>, q: nat)
    requires p + sd.structsize <= |a| && q + sd.structsize <= |b| && Covered(sd)
    ensures SameStruct(sd, a, p, b, q) <==> SameBytes(a, p, b, q, sd.structsize)
  {
    var x, y, n := a[p..p + sd.structsize], b[q..q + sd.structsize], sd.structsize;
    if SameStruct(sd, a, p, b, q) {
      forall o: nat | o < n ensures x[o] == y[o] { assert Looks(sd, o); }
    } else {
      var o: nat :| o < n && Looks(sd, o) && a[p + o] != b[q + o];
      assert x[o] != y[o];
    }
  }

  /** Its result is true if and only if the fields of both structs agree, or do
      not for !=, wherever the structs are. */
  method BuildStructComparison(code: Op, sd: StructDecl, t1: Exp, t2: Exp) returns (result: Exp)
    requires code == EqOp || code == NeOp
    ensures result == StructComparison(code, sd, t1, t2)
    ensures Laid(sd) && Faithful(sd) ==> forall env, fuel, p, q :: At(env, fuel, t1, p, t2, q, sd.structsize) ==>
      Yields(result, env, fuel, Truth(code, SameStruct(sd, env.a.value, p, env.b.value, q)))
  {
    hide Eval, Laid, Faithful, LowerStruct, SameStruct, Yields, Identity, LowerFields;
    if Laid(sd) && Faithful(sd) {
      forall env, fuel, p, q | At(env, fuel, t1, p, t2, q, sd.structsize)
        ensures Yields(StructComparison(code, sd, t1, t2), env, fuel,
          Truth(code, SameStruct(sd, env.a.value, p, env.b.value, q)))
      {
        StructComparisonMeans(code, sd, t1, t2, env, fuel, p, q);
      }
    }
    if sd.fields == [] {
      return BoolOp(code, Num(0), Num(0));
    }
    var identity := IdentityCompareP(sd);
    if !sd.blk || !identity {
      result := LowerStructComparison(code, sd, t1, t2);
    } else {
      result := BoolOp(code, Memcmp(t1, t2, Num(sd.structsize)), Num(0));
    }
  }

  /** Two objects, each the whole of its operand. */
  function Pair(a: seq<Byte>, b: seq<Byte>): Env {
    Env(Some(a), Some(b), 1, 1, 0, 0, 0, 0)
  }

  /** A block comparison and a comparison field by field of two objects. */
  function AsBlock(sd: StructDecl, a: seq<Byte>, b: seq<Byte>): Outcome {
    Eval(CompareBlocks(EqOp, ArrayPtr(false), ArrayPtr(true), Num(sd.structsize)), Pair(a, b), 0)
  }

  function AsFields(sd: StructDecl, a: seq<Byte>, b: seq<Byte>): Outcome {
    Eval(LowerStruct(EqOp, sd, ArrayPtr(false), ArrayPtr(true)), Pair(a, b), 0)
  }

  /** The test for block comparison is exact for structs whose fields do not
      overlap, apart from unions without fields: it accepts a struct just when
      both comparisons agree, whatever the objects hold. */
  lemma BlockAgreesIff(sd: StructDecl)
    requires Laid(sd) && Sequential(sd)
    ensures (forall a, b :: |a| == |b| == sd.structsize ==> AsBlock(sd, a, b) == AsFields(sd, a, b))
            <==> Identity(sd) && NoEmptyUnion(sd)
  {
    hide AsBlock, AsFields, Looks, Laid, Identity, NoEmptyUnion, Sequential;
    if Identity(sd) && NoEmptyUnion(sd) {
      IdentityCovers(sd);
      forall a, b | |a| == |b| == sd.structsize ensures AsBlock(sd, a, b) == AsFields(sd, a, b) {
        BothMean(sd, a, b);
        CoveredSame(sd, a, 0, b, 0);
      }
    } else {
      var o := FindHole(sd);
      var a: seq<Byte> := seq(sd.structsize, _ => 0);
      var b := a[o := 1];
      BothMean(sd, a, b);
      assert SameStruct(sd, a, 0, b, 0);
      assert a[0..0 + sd.structsize][o] != b[0..0 + sd.structsize][o];
      assert AsBlock(sd, a, b) != AsFields(sd, a, b);
    }
  }

  lemma BothMean(sd: StructDecl, a: seq<Byte>, b: seq<Byte>)
    requires Laid(sd) && |a| == |b| == sd.structsize
    ensures AsBlock(sd, a, b) == Value(Truth(EqOp, SameBytes(a, 0, b, 0, sd.structsize)), Pair(a, b))
    ensures AsFields(sd, a, b) == Value(Truth(EqOp, SameStruct(sd, a, 0, b, 0)), Pair(a, b))
  {
    hide Laid, LowerStruct, SameBytes, SameStruct;
    var env := Pair(a, b);
    BlocksMean(EqOp, ArrayPtr(false), ArrayPtr(true), Num(sd.structsize), env, 0, 0, 0, sd.structsize);
    LowerMeans(EqOp, sd, ArrayPtr(false), ArrayPtr(true), env, 0, 0, 0);
  }

  // ---------- The loop ----------

  /** One round of the loop over two arrays of structs. */
  function LoopBody(code: Op, sd: StructDecl): seq<Stmt> {
    [ExitIf(BoolOp(OrIf, BoolOp(EqOp, Local(Length), Num(0)), BoolOp(code, Local(Result), Num(0)))),
     Set(Result, BoolOp(Chain(code), Local(Result), StructComparison(code, sd, Local(Ptr1), Local(Ptr2)))),
     Set(Ptr1, Plus(Local(Ptr1), Num(sd.structsize))),
     Set(Ptr2, Plus(Local(Ptr2), Num(sd.structsize))),
     Set(Length, Plus(Local(Length), Num(-1)))]
  }

  function ArrayLoop(code: Op, sd: StructDecl): seq<Stmt> {
    [Set(Length, ArrayLength(false)), Set(Ptr1, ArrayPtr(false)), Set(Ptr2, ArrayPtr(true)),
      LoopExpr(LoopBody(code, sd))]
  }

  /** Statements that come first, and the expression; or a call of the runtime. */
  datatype Lowered = Inline(before: seq<Stmt>, e: Exp) | RuntimeCall

  /** Generates the loop; the statements before the comparison come first. */
  method BuildArrayStructComparison(code: Op, sd: StructDecl, length: Exp, t1: Exp, t2: Exp)
    returns (before: seq<Stmt>, e: Exp)
    requires code == EqOp || code == NeOp
    requires length == ArrayLength(false) && t1 == ArrayPtr(false) && t2 == ArrayPtr(true)
    ensures before == [Set(Result, BoolOp(code, Num(0), Num(0)))]
    ensures e == Then(ArrayLoop(code, sd), Local(Result))
  {
    var tcode := if code == EqOp then AndIf else OrIf;
    before := [Set(Result, BoolOp(code, Num(0), Num(0)))];
    var stmts := [Set(Length, length)];
    stmts := stmts + [Set(Ptr1, t1)];
    stmts := stmts + [Set(Ptr2, t2)];
    var body: seq<Stmt> := [];
    var t := BoolOp(EqOp, Local(Length), Num(0));
    t := BoolOp(OrIf, t, BoolOp(code, Local(Result), Num(0)));
    body := body + [ExitIf(t)];
    t := BuildStructComparison(code, sd, Local(Ptr1), Local(Ptr2));
    t := BoolOp(tcode, Local(Result), t);
    body := body + [Set(Result, t)];
    body := body + [Set(Ptr1, Plus(Local(Ptr1), Num(sd.structsize)))];
    body := body + [Set(Ptr2, Plus(Local(Ptr2), Num(sd.structsize)))];
    body := body + [Set(Length, Plus(Local(Length), Num(-1)))];
    assert body == LoopBody(code, sd);
    stmts := stmts + [LoopExpr(body)];
    assert stmts == ArrayLoop(code, sd);
    e := Then(stmts, Local(Result));
  }

  const VOID := Other(1, false, {})

  /** The elements can be compared without the runtime. */
  predicate Inlined(elem: Type, xeq: bool) {
    elem.Integral? || elem == VOID || (elem.Struct? && !xeq)
  }

  predicate AsBlocks(elem: Type) {
    elem.Struct? ==> Identity(elem.sd)
  }

  function ElementsTest(code: Op, elem: Type): Exp {
    if AsBlocks(elem) then
      CompareBlocks(code, ArrayPtr(false), ArrayPtr(true), Times(ArrayLength(false), Num(Size(elem))))
    else Then(ArrayLoop(code, elem.sd), Local(Result))
  }

  function UnlessEmpty(code: Op, e: Exp): Exp {
    BoolOp(if code == EqOp then OrIf else AndIf, BoolOp(code, ArrayLength(false), Num(0)), e)
  }

  function WithLengths(code: Op, e: Exp): Exp {
    BoolOp(Chain(code), BoolOp(code, ArrayLength(false), ArrayLength(true)), e)
  }

  function ArrayComparison(code: Op, elem: Type, xeq: bool, bothStatic: bool): Lowered {
    if !Inlined(elem, xeq) then RuntimeCall else
    var e := UnlessEmpty(code, ElementsTest(code, elem));
    Inline(if AsBlocks(elem) then [] else [Set(Result, BoolOp(code, Num(0), Num(0)))],
           if bothStatic then e else WithLengths(code, e))
  }

  // ---------- Meaning ----------

  /** Both operands are arrays of their length; behind an empty one there need
      be nothing at all. */
  predicate Arrays(env: Env, elem: Type) {
    && (env.len1 > 0 ==> env.a.Some? && |env.a.value| == env.len1 * Size(elem))
    && (env.len2 > 0 ==> env.b.Some? && |env.b.value| == env.len2 * Size(elem))
  }

  /** Element i ends within an array of n. */
  lemma InArray(i: nat, n: nat, size: nat)
    requires i < n
    ensures i * size + size <= n * size && (i + 1) * size == i * size + size
  {
    assert (n - i - 1) * size >= 0;
    assert n * size == (i + 1) * size + (n - i - 1) * size;
  }

  ghost predicate SameElement(elem: Type, env: Env, i: nat)
    requires Arrays(env, elem) && i < env.len1 && i < env.len2
  {
    InArray(i, env.len1, Size(elem));
    InArray(i, env.len2, Size(elem));
    SameType(elem, env.a.value, i * Size(elem), env.b.value, i * Size(elem))
  }

  /** The first n elements are pairwise the same. */
  ghost predicate SameElements(elem: Type, env: Env, n: nat)
    requires Arrays(env, elem) && n <= env.len1 && n <= env.len2
  {
    forall i: nat :: i < n ==> SameElement(elem, env, i)
  }

  ghost predicate SameArrays(elem: Type, env: Env)
    requires Arrays(env, elem)
  {
    env.len1 == env.len2 && SameElements(elem, env, env.len1)
  }

  /** The state of the loop before round i. */
  function Round(env: Env, r: int, size: nat, i: nat): Env {
    env.(result := r, length := env.len1 - i, ptr1 := i * size, ptr2 := i * size)
  }

  lemma RunSet(v: Var, e: Exp, rest: seq<Stmt>, env: Env, fuel: nat, k: int)
    requires Yields(e, env, fuel, k)
    ensures Run([Set(v, e)] + rest, env, fuel) == if rest == [] then Going(Put(env, v, k))
      else Run(rest, Put(env, v, k), fuel)
  {
    hide Eval;
    assert ([Set(v, e)] + rest)[1..] == rest;
  }

  lemma RunExit(e: Exp, rest: seq<Stmt>, env: Env, fuel: nat, k: int)
    requires Yields(e, env, fuel, k)
    ensures Run([ExitIf(e)] + rest, env, fuel) == if k != 0 then Exited(env) else Run(rest, env, fuel)
  {
    hide Eval;
    assert ([ExitIf(e)] + rest)[1..] == rest;
  }

  lemma SimpleYields(env: Env, fuel: nat, v: Var, k: int)
    ensures Yields(Local(v), env, fuel, Get(env, v)) && Yields(Plus(Local(v), Num(k)), env, fuel, Get(env, v) + k)
  {
    assert Eval(Num(k), env, fuel) == Value(k, env);
  }

  lemma ExitMeans(code: Op, env: Env, fuel: nat, same: bool)
    requires (code == EqOp || code == NeOp) && env.result == Truth(code, same)
    ensures Yields(BoolOp(OrIf, BoolOp(EqOp, Local(Length), Num(0)), BoolOp(code, Local(Result), Num(0))), env, fuel,
                   if env.length == 0 || !same then 1 else 0)
  {
    assert Eval(Num(0), env, fuel) == Value(0, env);
    assert Eval(Local(Length), env, fuel) == Value(env.length, env);
    assert Eval(Local(Result), env, fuel) == Value(env.result, env);
    assert Eval(BoolOp(EqOp, Local(Length), Num(0)), env, fuel) == Value(Apply(EqOp, env.length, 0), env);
    assert Eval(BoolOp(code, Local(Result), Num(0)), env, fuel) == Value(Apply(code, env.result, 0), env);
  }

  /** One round: stop at the end or at a difference, or compare one more
      element and move on. */
  lemma OneRound(code: Op, sd: StructDecl, env: Env, fuel: nat, i: nat)
    requires (code == EqOp || code == NeOp) && Laid(sd) && Faithful(sd)
    requires Arrays(env, Struct(sd)) && env.len1 == env.len2 && i <= env.len1
    ensures var same := SameElements(Struct(sd), env, i);
      var now := Round(env, Truth(code, same), sd.structsize, i);
      Run(LoopBody(code, sd), now, fuel) ==
        if i == env.len1 || !same then Exited(now)
        else Going(Round(env, Truth(code, SameElements(Struct(sd), env, i + 1)), sd.structsize, i + 1))
  {
    hide Eval, Run, Yields, SameElements, SameElement, Laid, Faithful, StructComparison;
    var same := SameElements(Struct(sd), env, i);
    var now := Round(env, Truth(code, same), sd.structsize, i);
    var body := LoopBody(code, sd);
    ExitMeans(code, now, fuel, same);
    RunExit(body[0].e, body[1..], now, fuel, if i == env.len1 || !same then 1 else 0);
    assert body == [body[0]] + body[1..];
    if i < env.len1 && same {
      RestOfRound(code, sd, env, fuel, i);
    }
  }

  lemma RestOfRound(code: Op, sd: StructDecl, env: Env, fuel: nat, i: nat)
    requires (code == EqOp || code == NeOp) && Laid(sd) && Faithful(sd)
    requires Arrays(env, Struct(sd)) && env.len1 == env.len2 && i < env.len1
    ensures var now := Round(env, Truth(code, SameElements(Struct(sd), env, i)), sd.structsize, i);
      Run(LoopBody(code, sd)[1..], now, fuel) ==
        Going(Round(env, Truth(code, SameElements(Struct(sd), env, i + 1)), sd.structsize, i + 1))
  {
    hide Eval, Run, Yields, SameElements, SameElement, Laid, Faithful, StructComparison;
    var same := SameElements(Struct(sd), env, i);
    var now := Round(env, Truth(code, same), sd.structsize, i);
    var rest := LoopBody(code, sd)[1..];
    ElementTest(code, sd, env, fuel, i);
    var then1 := Put(now, Result, Truth(code, SameElements(Struct(sd), env, i + 1)));
    RunSet(Result, rest[0].e, rest[1..], now, fuel, then1.result);
    assert rest == [rest[0]] + rest[1..];
    SimpleYields(then1, fuel, Ptr1, sd.structsize);
    var then2 := Put(then1, Ptr1, then1.ptr1 + sd.structsize);
    RunSet(Ptr1, rest[1].e, rest[2..], then1, fuel, then2.ptr1);
    assert rest[1..] == [rest[1]] + rest[2..];
    SimpleYields(then2, fuel, Ptr2, sd.structsize);
    var then3 := Put(then2, Ptr2, then2.ptr2 + sd.structsize);
    RunSet(Ptr2, rest[2].e, rest[3..], then2, fuel, then3.ptr2);
    assert rest[2..] == [rest[2]] + rest[3..];
    SimpleYields(then3, fuel, Length, -1);
    RunSet(Length, rest[3].e, [], then3, fuel, then3.length - 1);
    assert rest[3..] == [rest[3]] + [];
    InArray(i, env.len1, sd.structsize);
  }

  lemma ElementTest(code: Op, sd: StructDecl, env: Env, fuel: nat, i: nat)
    requires (code == EqOp || code == NeOp) && Laid(sd) && Faithful(sd)
    requires Arrays(env, Struct(sd)) && env.len1 == env.len2 && i < env.len1
    ensures Yields(BoolOp(Chain(code), Local(Result), StructComparison(code, sd, Local(Ptr1), Local(Ptr2))),
                   Round(env, Truth(code, SameElements(Struct(sd), env, i)), sd.structsize, i), fuel,
                   Truth(code, SameElements(Struct(sd), env, i + 1)))
  {
    hide Eval, Yields, SameType, SameStruct, Laid, Faithful, StructComparison;
    var same := SameElements(Struct(sd), env, i);
    var now := Round(env, Truth(code, same), sd.structsize, i);
    var p := i * sd.structsize;
    InArray(i, env.len1, sd.structsize);
    SimpleYields(now, fuel, Ptr1, 0);
    SimpleYields(now, fuel, Ptr2, 0);
    SimpleYields(now, fuel, Result, 0);
    StructComparisonMeans(code, sd, Local(Ptr1), Local(Ptr2), now, fuel, p, p);
    var one := SameStruct(sd, env.a.value, p, env.b.value, p);
    assert one == SameElement(Struct(sd), env, i) by { InnerSame(sd, env.a.value, p, env.b.value, p); }
    ChainMeans(code, Local(Result), StructComparison(code, sd, Local(Ptr1), Local(Ptr2)), now, fuel, same, one);
  }

  /** The loop ends after at most one round for each element. */
  lemma {:induction false} LoopMeans(code: Op, sd: StructDecl, env: Env, fuel: nat, i: nat) returns (end: Env)
    requires (code == EqOp || code == NeOp) && Laid(sd) && Faithful(sd)
    requires Arrays(env, Struct(sd)) && env.len1 == env.len2 && i <= env.len1 && fuel >= env.len1 - i
    ensures RunStmt(LoopExpr(LoopBody(code, sd)),
      Round(env, Truth(code, SameElements(Struct(sd), env, i)), sd.structsize, i), fuel) == Going(end)
    ensures end.result == Truth(code, SameElements(Struct(sd), env, env.len1))
    decreases env.len1 - i
  {
    hide Eval, Run, SameElement, Laid, Faithful, LoopBody;
    var same := SameElements(Struct(sd), env, i);
    OneRound(code, sd, env, fuel, i);
    if i < env.len1 && same {
      end := LoopMeans(code, sd, env, fuel - 1, i + 1);
    } else {
      end := Round(env, Truth(code, same), sd.structsize, i);
    }
  }

  lemma ArrayLoopMeans(code: Op, sd: StructDecl, env: Env, fuel: nat) returns (end: Env)
    requires (code == EqOp || code == NeOp) && Laid(sd) && Faithful(sd)
    requires Arrays(env, Struct(sd)) && env.len1 == env.len2 && fuel >= env.len1 && env.result == Truth(code, true)
    ensures Eval(Then(ArrayLoop(code, sd), Local(Result)), env, fuel) ==
      Value(Truth(code, SameElements(Struct(sd), env, env.len1)), end)
  {
    hide LoopBody, Laid, Faithful, SameElement;
    var ss := ArrayLoop(code, sd);
    var start := Round(env, env.result, sd.structsize, 0);
    assert SameElements(Struct(sd), env, 0);
    end := LoopMeans(code, sd, env, fuel, 0);
    LoopStarts(code, sd, env, fuel);
    var last := LoopExpr(LoopBody(code, sd));
    assert [last][0] == last && [last][1..] == [];
    assert Run([last], start, fuel) == Going(end);
  }

  lemma LoopStarts(code: Op, sd: StructDecl, env: Env, fuel: nat)
    ensures Run(ArrayLoop(code, sd), env, fuel) ==
      Run([LoopExpr(LoopBody(code, sd))], Round(env, env.result, sd.structsize, 0), fuel)
  {
    hide Run, LoopBody;
    var ss := ArrayLoop(code, sd);
    var env1 := Put(env, Length, env.len1);
    var env2 := Put(env1, Ptr1, 0);
    OperandYields(env, fuel, 0);
    OperandYields(env1, fuel, 0);
    OperandYields(env2, fuel, 0);
    RunSet(Length, ss[0].e, ss[1..], env, fuel, env.len1);
    RunSet(Ptr1, ss[1].e, ss[2..], env1, fuel, 0);
    RunSet(Ptr2, ss[2].e, ss[3..], env2, fuel, 0);
    assert ss == [ss[0]] + ss[1..] && ss[1..] == [ss[1]] + ss[2..] && ss[2..] == [ss[2]] + ss[3..];
    assert ss[3..] == [LoopExpr(LoopBody(code, sd))];
    assert Put(env2, Ptr2, 0) == Round(env, env.result, sd.structsize, 0);
  }

  lemma OperandYields(env: Env, fuel: nat, k: nat)
    ensures Yields(ArrayLength(false), env, fuel, env.len1) && Yields(ArrayLength(true), env, fuel, env.len2)
    ensures Yields(ArrayPtr(false), env, fuel, 0) && Yields(ArrayPtr(true), env, fuel, 0)
    ensures Yields(Times(ArrayLength(false), Num(k)), env, fuel, env.len1 * k)
  {
    assert Eval(ArrayLength(false), env, fuel) == Value(env.len1, env);
    assert Eval(Num(k), env, fuel) == Value(k, env);
  }

  // ---------- Blocks of elements ----------

  lemma SplitBytes(a: seq<Byte>, b: seq<Byte>, m: nat, k: nat)
    requires m + k <= |a| && m + k <= |b|
    ensures SameBytes(a, 0, b, 0, m + k) <==> SameBytes(a, 0, b, 0, m) && SameBytes(a, m, b, m, k)
  {
    assert a[0..m + k] == a[0..m] + a[m..m + k];
    assert b[0..m + k] == b[0..m] + b[m..m + k];
    if SameBytes(a, 0, b, 0, m + k) {
      assert a[0..m] == a[0..m + k][..m] && b[0..m] == b[0..m + k][..m];
      assert a[m..m + k] == a[0..m + k][m..] && b[m..m + k] == b[0..m + k][m..];
    }
  }

  /** The bytes of n elements are the same just when the elements are. */
  lemma {:induction false} BlockOfElements(elem: Type, env: Env, n: nat)
    requires Arrays(env, elem) && env.len1 == env.len2 && n <= env.len1 && env.len1 > 0
    requires LaidType(elem) && FaithfulType(elem) && AsBlocks(elem)
    ensures 0 <= n * Size(elem) <= env.len1 * Size(elem)
    ensures SameBytes(env.a.value, 0, env.b.value, 0, n * Size(elem)) <==> SameElements(elem, env, n)
    decreases n
  {
    hide SameType, Identity, FaithfulType, LaidType, Size;
    var a, b, size := env.a.value, env.b.value, Size(elem);
    if n == 0 {
      assert a[0..0] == b[0..0];
      InArray(0, env.len1, size);
    } else {
      BlockOfElements(elem, env, n - 1);
      InArray(n - 1, env.len1, size);
      SplitBytes(a, b, (n - 1) * size, size);
      OneElement(elem, a, (n - 1) * size, b, (n - 1) * size);
      assert SameElements(elem, env, n) <==> SameElements(elem, env, n - 1) && SameElement(elem, env, n - 1);
    }
  }

  lemma OneElement(elem: Type, a: seq<Byte>, p: nat, b: seq<Byte>, q: nat)
    requires LaidType(elem) && FaithfulType(elem) && AsBlocks(elem) && p + Size(elem) <= |a| && q + Size(elem) <= |b|
    ensures SameType(elem, a, p, b, q) <==> SameBytes(a, p, b, q, Size(elem))
  {
    hide SameBytes, SameType, Identity, NoEmptyUnion, Laid;
    match elem
    case Struct(sd) => {
      IdentityCovers(sd);
      InnerSame(sd, a, p, b, q);
      CoveredSame(sd, a, p, b, q);
    }
    case _ => {
      WholeSame(elem, a, p, b, q);
    }
  }

  lemma ElementsMean(code: Op, elem: Type, xeq: bool, env: Env, fuel: nat) returns (end: Env)
    requires (code == EqOp || code == NeOp) && Inlined(elem, xeq) && LaidType(elem) && FaithfulType(elem)
    requires Arrays(env, elem) && env.len1 == env.len2 > 0 && fuel >= env.len1
    requires AsBlocks(elem) || env.result == Truth(code, true)
    ensures Eval(ElementsTest(code, elem), env, fuel) == Value(Truth(code, SameElements(elem, env, env.len1)), end)
  {
    hide Eval, SameElements, SameBytes, ArrayLoop;
    if AsBlocks(elem) {
      var n := env.len1 * Size(elem);
      BlockOfElements(elem, env, env.len1);
      OperandYields(env, fuel, Size(elem));
      BlocksMean(code, ArrayPtr(false), ArrayPtr(true), Times(ArrayLength(false), Num(Size(elem))), env, fuel, 0, 0, n);
      end := env;
    } else {
      match elem case Struct(sd) => { end := ArrayLoopMeans(code, sd, env, fuel); }
    }
  }

  /** Run the lowered comparison. */
  function Outcome(r: Lowered, env: Env, fuel: nat): Comparisons.Outcome
    requires r.Inline?
  {
    match Run(r.before, env, fuel)
    case Going(env') => Eval(r.e, env', fuel)
    case Exited(_) => Stuck
    case Failed(why) => why
  }

  /** The lowered comparison says whether the arrays are equal. */
  ghost predicate Answers(r: Lowered, code: Op, elem: Type, env: Env, fuel: nat)
    requires r.Inline? && Arrays(env, elem)
  {
    var o := Outcome(r, env, fuel);
    o.Value? && o.v == Truth(code, SameArrays(elem, env))
  }

  /** However two arrays are compared, the result says whether they have the
      same length and the same elements, and != is the negation of ==. It never
      reads outside an array, nor behind the pointer of an empty one, and needs
      no more rounds than there are elements. */
  lemma ArrayComparisonMeans(code: Op, elem: Type, xeq: bool, bothStatic: bool, env: Env, fuel: nat)
    requires (code == EqOp || code == NeOp) && Inlined(elem, xeq) && LaidType(elem) && FaithfulType(elem)
    requires Arrays(env, elem) && fuel >= env.len1 && (bothStatic ==> env.len1 == env.len2)
    ensures Answers(ArrayComparison(code, elem, xeq, bothStatic), code, elem, env, fuel)
  {
    hide Eval, SameElements, ElementsTest, LaidType, FaithfulType, Size;
    var r := ArrayComparison(code, elem, xeq, bothStatic);
    var env1 := if AsBlocks(elem) then env else env.(result := Truth(code, true));
    BeforeRuns(code, elem, env, fuel);
    SameInBoth(elem, env, env1);
    var e := ElementsTest(code, elem);
    var end := env1;
    if env.len1 == env.len2 > 0 {
      end := ElementsMean(code, elem, xeq, env1, fuel);
    }
    UnlessEmptyMeans(code, e, env1, fuel, SameElements(elem, env, if env.len1 == env.len2 then env.len1 else 0), end);
    WithLengthsMeans(code, UnlessEmpty(code, e), env1, fuel);
  }

  // ---------- What equality of elements is ----------

  /** An equality that elements have of their own, any at all. */
  type Equality = (seq<Byte>, seq<Byte>) -> bool

  ghost predicate OwnEqual(elem: Type, own: Equality, env: Env, i: nat)
    requires Arrays(env, elem) && i < env.len1 && i < env.len2
  {
    var p, size := i * Size(elem), Size(elem);
    InArray(i, env.len1, size);
    InArray(i, env.len2, size);
    own(env.a.value[p..p + size], env.b.value[p..p + size])
  }

  /** A struct with an equality function is compared by that. What is neither a
      struct nor an integer has its own notion of equality too, except void; all
      others are the same if what they hold is. */
  ghost predicate EqualElement(elem: Type, xeq: bool, own: Equality, env: Env, i: nat)
    requires Arrays(env, elem) && i < env.len1 && i < env.len2
  {
    match elem
    case Integral(_) => SameElement(elem, env, i)
    case Struct(_) => if xeq then OwnEqual(elem, own, env, i) else SameElement(elem, env, i)
    case Other(_, _, _) => if elem == VOID then SameElement(elem, env, i) else OwnEqual(elem, own, env, i)
    case StaticArray(_, _, _) => OwnEqual(elem, own, env, i)
  }

  /** The same length, and pairwise equal elements. */
  ghost predicate Equal(elem: Type, xeq: bool, own: Equality, env: Env)
    requires Arrays(env, elem)
  {
    env.len1 == env.len2 && forall i: nat :: i < env.len1 ==> EqualElement(elem, xeq, own, env, i)
  }

  /** The comparison says whether the arrays are equal. The runtime compares
      elements by their own equality. */
  ghost predicate Decided(r: Lowered, code: Op, elem: Type, xeq: bool, own: Equality, env: Env, fuel: nat)
    requires Arrays(env, elem)
  {
    var equal := Equal(elem, xeq, own, env);
    match r
    case Inline(_, _) => Outcome(r, env, fuel).Value? && Outcome(r, env, fuel).v == Truth(code, equal)
    case RuntimeCall => equal == (env.len1 == env.len2 && forall i: nat :: i < env.len1 ==> OwnEqual(elem, own, env, i))
  }

  /** Whatever the elements are, their arrays are compared by the equality that
      the elements have. */
  lemma ArrayEqualityMeans(code: Op, elem: Type, xeq: bool, bothStatic: bool, own: Equality, env: Env, fuel: nat)
    requires (code == EqOp || code == NeOp) && LaidType(elem) && (xeq || FaithfulType(elem))
    requires Arrays(env, elem) && fuel >= env.len1 && (bothStatic ==> env.len1 == env.len2)
    ensures Decided(ArrayComparison(code, elem, xeq, bothStatic), code, elem, xeq, own, env, fuel)
  {
    hide Outcome, SameElement, OwnEqual, LaidType, Faithful, Arrays, ElementsTest;
    if env.len1 == env.len2 {
      assert forall i: nat :: i < env.len1 ==> (EqualElement(elem, xeq, own, env, i) ==
        if Inlined(elem, xeq) then SameElement(elem, env, i) else OwnEqual(elem, own, env, i));
    }
    if Inlined(elem, xeq) {
      ArrayComparisonMeans(code, elem, xeq, bothStatic, env, fuel);
    }
  }

  /** The comparison of two arrays answers whether they are equal, for all
      elements and all arrays. */
  method EqualArrays(code: Op, elem: Type, xeq: bool, bothStatic: bool) returns (r: Lowered)
    requires code == EqOp || code == NeOp
    ensures r == ArrayComparison(code, elem, xeq, bothStatic)
    ensures r.Inline? <==> Inlined(elem, xeq)
    ensures LaidType(elem) && (xeq || FaithfulType(elem)) ==> forall own: Equality, env, fuel: nat ::
      Arrays(env, elem) && fuel >= env.len1 && (bothStatic ==> env.len1 == env.len2) ==>
        Decided(r, code, elem, xeq, own, env, fuel)
  {
    hide Decided, Arrays, LaidType, FaithfulType;
    if LaidType(elem) && (xeq || FaithfulType(elem)) {
      forall own: Equality, env, fuel: nat
        | Arrays(env, elem) && fuel >= env.len1 && (bothStatic ==> env.len1 == env.len2)
        ensures Decided(ArrayComparison(code, elem, xeq, bothStatic), code, elem, xeq, own, env, fuel)
      {
        ArrayEqualityMeans(code, elem, xeq, bothStatic, own, env, fuel);
      }
    }
    if !(elem.Integral? || elem == VOID || (elem.Struct? && !xeq)) {
      return RuntimeCall;
    }
    var t1len, t2len := ArrayLength(false), ArrayLength(true);
    var t1ptr, t2ptr := ArrayPtr(false), ArrayPtr(true);
    var before: seq<Stmt> := [];
    var result: Exp;
    var identity := true;
    if elem.Struct? {
      identity := IdentityCompareP(elem.sd);
    }
    if identity {
      var tsize := Times(t1len, Num(Size(elem)));
      result := BoolOp(code, Memcmp(t1ptr, t2ptr, tsize), Num(0));
    } else {
      before, result := BuildArrayStructComparison(code, elem.sd, t1len, t1ptr, t2ptr);
    }
    var tsizecmp := BoolOp(code, t1len, Num(0));
    if code == EqOp {
      result := BoolOp(OrIf, tsizecmp, result);
    } else {
      result := BoolOp(AndIf, tsizecmp, result);
    }
    if !bothStatic {
      var tlencmp := BoolOp(code, t1len, t2len);
      if code == EqOp {
        result := BoolOp(AndIf, tlencmp, result);
      } else {
        result := BoolOp(OrIf, tlencmp, result);
      }
    }
    r := Inline(before, result);
  }

  lemma SameInBoth(elem: Type, env: Env, env1: Env)
    requires Arrays(env, elem) && env1 == env.(result := env1.result)
    ensures Arrays(env1, elem) && SameElements(elem, env, 0)
    ensures forall n: nat :: n <= env.len1 && n <= env.len2 ==>
      SameElements(elem, env1, n) == SameElements(elem, env, n)
  {
    forall i: nat | i < env.len1 && i < env.len2 ensures SameElement(elem, env1, i) == SameElement(elem, env, i) {
    }
  }

  lemma BeforeRuns(code: Op, elem: Type, env: Env, fuel: nat)
    requires code == EqOp || code == NeOp
    ensures Run([], env, fuel) == Going(env)
    ensures Run([Set(Result, BoolOp(code, Num(0), Num(0)))], env, fuel) == Going(env.(result := Truth(code, true)))
  {
    hide Eval;
    ConstantMeans(code, env, fuel);
    RunSet(Result, BoolOp(code, Num(0), Num(0)), [], env, fuel, Truth(code, true));
    assert [Set(Result, BoolOp(code, Num(0), Num(0)))] + [] == [Set(Result, BoolOp(code, Num(0), Num(0)))];
  }

  /** An empty array is not looked at. */
  lemma UnlessEmptyMeans(code: Op, e: Exp, env: Env, fuel: nat, same: bool, end: Env)
    requires code == EqOp || code == NeOp
    requires env.len1 == env.len2 > 0 ==> Eval(e, env, fuel) == Value(Truth(code, same), end)
    requires env.len1 == 0 ==> same
    ensures env.len1 == env.len2 ==>
      var o := Eval(UnlessEmpty(code, e), env, fuel); o.Value? && o.v == Truth(code, same)
  {
    assert Eval(Num(0), env, fuel) == Value(0, env);
    assert Eval(ArrayLength(false), env, fuel) == Value(env.len1, env);
    assert Eval(BoolOp(code, ArrayLength(false), Num(0)), env, fuel) == Value(Apply(code, env.len1, 0), env);
  }

  lemma WithLengthsMeans(code: Op, e: Exp, env: Env, fuel: nat)
    requires code == EqOp || code == NeOp
    requires env.len1 == env.len2 ==> Eval(e, env, fuel).Value? && Eval(e, env, fuel).v in {0, 1}
    ensures var o := Eval(WithLengths(code, e), env, fuel);
      o.Value? && o.v == if env.len1 == env.len2 then Eval(e, env, fuel).v else Truth(code, false)
  {
    OperandYields(env, fuel, 0);
    assert Eval(BoolOp(code, ArrayLength(false), ArrayLength(true)), env, fuel) ==
      Value(Apply(code, env.len1, env.len2), env);
  }

  // ---------- Where the code differs from itself ----------

  /** A comparison of arrays of structs says whether they are equal. */
  ghost predicate Decides(code: Op, sd: StructDecl, env: Env)
    requires Arrays(env, Struct(sd))
  {
    Answers(ArrayComparison(code, Struct(sd), false, false), code, Struct(sd), env, env.len1)
  }

  /** Arrays of structs whose fields do not overlap are compared correctly,
      whatever they hold, exactly if the struct is faithful. */
  lemma ArraysDecidedIff(sd: StructDecl)
    requires Laid(sd) && Sequential(sd)
    ensures (forall env :: Arrays(env, Struct(sd)) ==> Decides(EqOp, sd, env)) <==> Faithful(sd)
  {
    hide Laid, Sequential, Identity, NoEmptyUnion, Outcome, ArrayComparison, SameArrays, Looks;
    if Faithful(sd) {
      forall env | Arrays(env, Struct(sd)) ensures Decides(EqOp, sd, env) {
        ArrayComparisonMeans(EqOp, Struct(sd), false, false, env, env.len1);
      }
    } else {
      var o := FindHole(sd);
      var a: seq<Byte> := seq(sd.structsize, _ => 0);
      OneDifference(sd, a, a[o := 1], o);
      assert !Decides(EqOp, sd, Pair(a, a[o := 1]));
    }
  }

  lemma OneDifference(sd: StructDecl, a: seq<Byte>, b: seq<Byte>, o: nat)
    requires Laid(sd) && Identity(sd) && |a| == |b| == sd.structsize && o < |a| && !Looks(sd, o)
    requires a[o] != b[o] && b == a[o := b[o]]
    ensures Arrays(Pair(a, b), Struct(sd)) && SameArrays(Struct(sd), Pair(a, b))
    ensures Outcome(ArrayComparison(EqOp, Struct(sd), false, false), Pair(a, b), 1) == Value(0, Pair(a, b))
  {
    hide Laid, Identity, Eval, Looks, SameBytes;
    var env, n := Pair(a, b), sd.structsize;
    BeforeRuns(EqOp, Struct(sd), env, 1);
    OperandYields(env, 1, n);
    BlocksMean(EqOp, ArrayPtr(false), ArrayPtr(true), Times(ArrayLength(false), Num(n)), env, 1, 0, 0, n);
    assert !SameBytes(a, 0, b, 0, n) by { if SameBytes(a, 0, b, 0, n) { SameAt(a, 0, b, 0, n, o); } }
    DifferenceRuns(CompareBlocks(EqOp, ArrayPtr(false), ArrayPtr(true), Times(ArrayLength(false), Num(n))), env);
    InnerSame(sd, a, 0, b, 0);
    assert SameElement(Struct(sd), env, 0);
  }

  /** An empty union equals any other, but in an array its one byte is
      compared. */
  lemma EmptyUnionsInArrays()
    ensures var sd := StructDecl([], 1, true, true);
      var env := Pair([0], [1]);
      && Laid(sd)
      && Eval(StructComparison(EqOp, sd, ArrayPtr(false), ArrayPtr(true)), env, 1) == Value(1, env)
      && Outcome(ArrayComparison(EqOp, Struct(sd), false, false), env, 1) == Value(0, env)
  {
    hide Outcome;
    var sd := StructDecl([], 1, true, true);
    var env := Pair([0], [1]);
    ConstantMeans(EqOp, env, 1);
    OneDifference(sd, [0], [1], 0);
  }

  lemma DifferenceRuns(e: Exp, env: Env)
    requires Eval(e, env, 1) == Value(0, env) && env.len1 == env.len2 == 1
    ensures Eval(WithLengths(EqOp, UnlessEmpty(EqOp, e)), env, 1) == Value(0, env)
  {
    assert Eval(Num(0), env, 1) == Value(0, env);
    assert Eval(ArrayLength(false), env, 1) == Value(1, env) && Eval(ArrayLength(true), env, 1) == Value(1, env);
    assert Eval(BoolOp(EqOp, ArrayLength(false), Num(0)), env, 1) == Value(0, env);
    assert Eval(BoolOp(EqOp, ArrayLength(false), ArrayLength(true)), env, 1) == Value(1, env);
    assert Eval(UnlessEmpty(EqOp, e), env, 1) == Value(0, env);
  }
}
