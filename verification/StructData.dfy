/** What two structs being equal should mean: the same data, at every depth. */
module StructData {
  // Padding should not matter. It is found out below when it does.

  import opened StructLayouts
  import opened Comparisons

  /** Byte o of the struct holds data of some field, of any member if it is a
      union. */
  predicate Data(sd: StructDecl, o: nat)
    decreases sd, 0
  {
    DataFields(sd.fields, o)
  }

  predicate DataFields(fs: seq<Field>, o: nat)
    decreases fs, 1
  {
    fs != [] &&
    var n := |fs| - 1;
    assert (fs decreases to fs[n]);
    var Field(offset, ty) := fs[n];
    DataFields(fs[..n], o) || (offset <= o && DataType(ty, o - offset))
  }

  predicate DataType(t: Type, o: nat)
    decreases t, 0
  {
    match t
    case Struct(sd) => Data(sd, o)
    case StaticArray(e, _, _) => o < Size(t) && DataType(e, o % Size(e))
    case Integral(n) => o < n
    case Other(n, _, padding) => o < n && o !in padding
  }

  /** No padding at any depth. */
  predicate Solid(t: Type)
    decreases t, 0
  {
    match t
    case Struct(sd) => Identity(sd) && NoEmptyUnion(sd) && Compact(sd)
    case StaticArray(e, d, _) => d == 0 || Solid(e)
    case Integral(_) => true
    case Other(n, _, padding) => forall o :: o in padding ==> o >= n
  }

  /** No padding in what is compared whole: unions are filled by their members,
      and a field that is no struct is solid. */
  predicate Compact(sd: StructDecl)
    decreases sd, 0
  {
    if sd.isUnion then sd.fields != [] ==> forall o: nat :: o < sd.structsize ==> DataFields(sd.fields, o)
    else CompactFields(sd.fields)
  }

  predicate CompactFields(fs: seq<Field>)
    decreases fs, 1
  {
    fs == [] ||
    var n := |fs| - 1;
    assert (fs decreases to fs[n]);
    var Field(_, ty) := fs[n];
    CompactFields(fs[..n]) && CompactType(ty)
  }

  predicate CompactType(t: Type)
    decreases t, 1
  {
    match t case Struct(sd) => Compact(sd) case _ => Solid(t)
  }

  // ---------- Data is looked at ----------

  lemma {:induction false} DataLooked(sd: StructDecl, o: nat)
    requires Laid(sd) && Data(sd, o)
    ensures Looks(sd, o) && o < sd.structsize
    decreases sd, 0
  {
    DataLookedFields(sd.fields, sd.structsize, o);
  }

  lemma {:induction false} DataLookedFields(fs: seq<Field>, size: nat, o: nat)
    requires LaidFields(fs, size) && DataFields(fs, o)
    ensures LooksFields(fs, o) && o < size
    decreases fs, 1
  {
    var n := |fs| - 1;
    assert (fs decreases to fs[n]);
    if DataFields(fs[..n], o) {
      DataLookedFields(fs[..n], size, o);
    } else {
      match fs[n] { case Field(offset, Struct(sd)) => DataLooked(sd, o - offset); case _ => }
    }
  }

  lemma NotEmpty(size: nat, d: nat, o: nat)
    requires o < size * d
    ensures size > 0 && d > 0
  {
  }

  /** The bytes of an element type are those of an array's first element. */
  lemma FirstElement(size: nat, d: nat, o: nat)
    requires d > 0 && o < size
    ensures o < size * d && o % size == o
  {
    assert size <= size * d;
  }

  /** In a compact struct, whatever is looked at is data. */
  lemma {:induction false} LookedData(sd: StructDecl, o: nat)
    requires Laid(sd) && Compact(sd) && Looks(sd, o)
    ensures Data(sd, o)
    decreases sd, 0
  {
    if !sd.isUnion { LookedDataFields(sd.fields, sd.structsize, o); }
  }

  lemma {:induction false} LookedDataFields(fs: seq<Field>, size: nat, o: nat)
    requires LaidFields(fs, size) && CompactFields(fs) && LooksFields(fs, o)
    ensures DataFields(fs, o)
    decreases fs, 1
  {
    var n := |fs| - 1;
    assert (fs decreases to fs[n]);
    if LooksFields(fs[..n], o) {
      LookedDataFields(fs[..n], size, o);
    } else {
      match fs[n] { case Field(offset, ty) => LookedDataType(ty, o - offset); }
    }
  }

  lemma {:induction false} LookedDataType(t: Type, o: nat)
    requires LaidType(t) && CompactType(t) && LooksType(t, o)
    ensures DataType(t, o)
    decreases t, 3
  {
    match t case Struct(sd) => LookedData(sd, o); case _ => SolidData(t, o);
  }

  lemma {:induction false} SolidData(t: Type, o: nat)
    requires LaidType(t) && Solid(t) && o < Size(t)
    ensures DataType(t, o)
    decreases t, 2
  {
    match t
    case Struct(sd) => {
      IdentityCovers(sd);
      LookedData(sd, o);
    }
    case StaticArray(e, d, _) => {
      NotEmpty(Size(e), d, o);
      SolidData(e, o % Size(e));
    }
    case _ => {}
  }

  // ---------- Exactness ----------

  /** Something without data: a byte of padding in a type that is not solid. */
  lemma {:induction false} FindPadding(t: Type) returns (o: nat)
    requires LaidType(t) && SequentialType(t) && !Solid(t)
    ensures o < Size(t) && !DataType(t, o)
    decreases t, 1
  {
    match t
    case Struct(sd) => {
      if Identity(sd) && NoEmptyUnion(sd) {
        o := FindLookedPadding(sd);
        LooksInside(sd, o);
      } else {
        o := FindHole(sd);
        if Data(sd, o) { DataLooked(sd, o); }
      }
    }
    case StaticArray(e, d, _) => {
      o := FindPadding(e);
      FirstElement(Size(e), d, o);
    }
    case Other(n, _, padding) => {
      o :| o in padding && o < n;
    }
  }

  /** A byte that is looked at though it is padding. */
  lemma {:induction false} FindLookedPadding(sd: StructDecl) returns (o: nat)
    requires Laid(sd) && Sequential(sd) && !Compact(sd)
    ensures Looks(sd, o) && !Data(sd, o)
    decreases sd, 0
  {
    if sd.isUnion {
      o :| o < sd.structsize && !DataFields(sd.fields, o);
    } else {
      o := FindLookedPaddingIn(sd.fields, sd.structsize);
    }
  }

  lemma {:induction false} FindLookedPaddingIn(fs: seq<Field>, size: nat) returns (o: nat)
    requires LaidFields(fs, size) && SequentialFields(fs) && !CompactFields(fs)
    ensures LooksFields(fs, o) && !DataFields(fs, o)
    decreases fs, 1
  {
    var n := |fs| - 1;
    var f, before := fs[n], fs[..n];
    assert (fs decreases to f);
    if !CompactFields(before) {
      o := FindLookedPaddingIn(before, size);
      LooksInsideFields(before, size, o);
    } else {
      var inner := FindLookedPaddingType(f.ty);
      o := f.offset + inner;
      if DataFields(before, o) {
        DataLookedFields(before, size, o);
        LooksInsideFields(before, size, o);
      }
    }
  }

  lemma {:induction false} FindLookedPaddingType(t: Type) returns (o: nat)
    requires LaidType(t) && SequentialType(t) && !CompactType(t)
    ensures o < Size(t) && LooksType(t, o) && !DataType(t, o)
    decreases t, 2
  {
    if t.Struct? {
      o := FindLookedPadding(t.sd);
      LooksInside(t.sd, o);
    } else {
      o := FindPadding(t);
    }
  }

  /** The same data in both. */
  ghost predicate SameData(sd: StructDecl, a: seq<Byte>, b: seq<Byte>)
    requires |a| == |b| == sd.structsize
  {
    forall o: nat :: o < sd.structsize && Data(sd, o) ==> a[o] == b[o]
  }

  ghost predicate ComparesData(sd: StructDecl) {
    forall a, b :: |a| == |b| == sd.structsize ==> (SameStruct(sd, a, 0, b, 0) <==> SameData(sd, a, b))
  }

  /** No byte of padding is looked at. */
  ghost predicate OnlyData(sd: StructDecl) {
    forall o: nat :: Looks(sd, o) ==> Data(sd, o)
  }

  /** For structs whose fields do not overlap, that is so just when nothing that
      is compared whole has padding: no union, no static array and no value. For
      others this suffices. */
  lemma CompactIff(sd: StructDecl)
    requires Laid(sd)
    ensures Compact(sd) ==> OnlyData(sd)
    ensures Sequential(sd) && OnlyData(sd) ==> Compact(sd)
  {
    hide Laid, Sequential, Compact, Looks, Data;
    if Compact(sd) {
      forall o: nat | Looks(sd, o) ensures Data(sd, o) { LookedData(sd, o); }
    } else if Sequential(sd) {
      var o := FindLookedPadding(sd);
    }
  }

  /** The comparison takes structs for the same just when they hold the same
      data, exactly if no byte of padding is looked at: any such byte can make
      the difference. */
  lemma ComparesDataIff(sd: StructDecl)
    requires Laid(sd)
    ensures ComparesData(sd) <==> OnlyData(sd)
    ensures Sequential(sd) ==> (ComparesData(sd) <==> Compact(sd))
  {
    hide Laid, Sequential, Compact, Looks, Data;
    CompactIff(sd);
    if OnlyData(sd) {
      forall a, b | |a| == |b| == sd.structsize ensures SameStruct(sd, a, 0, b, 0) <==> SameData(sd, a, b) {
        forall o: nat ensures Data(sd, o) <==> Looks(sd, o) {
          if Data(sd, o) { DataLooked(sd, o); }
        }
      }
    } else {
      var o: nat :| Looks(sd, o) && !Data(sd, o);
      LooksInside(sd, o);
      var a: seq<Byte> := seq(sd.structsize, _ => 0);
      DifferByOne(sd, a, o);
      assert SameData(sd, a, a[o := 1]);
    }
  }

  lemma DifferByOne(sd: StructDecl, a: seq<Byte>, o: nat)
    requires |a| == sd.structsize && o < |a| && a[o] == 0
    ensures SameStruct(sd, a, 0, a[o := 1], 0) <==> !Looks(sd, o)
  {
    hide Looks;
    assert a[0 + o] != a[o := 1][0 + o];
  }

  /** struct Inner { byte b; int i; } struct Outer { Inner[1] a; }: two objects
      of type Outer that differ only in padding are not equal, two of type Inner
      are. */
  lemma PaddingInArrays()
    ensures var inner := StructDecl([Field(0, Integral(1)), Field(4, Integral(4))], 8, false, false);
      var outer := StructDecl([Field(0, StaticArray(Struct(inner), 1, true))], 8, false, true);
      var a: seq<Byte>, b: seq<Byte> := [0, 0, 0, 0, 0, 0, 0, 0], [0, 1, 0, 0, 0, 0, 0, 0];
      && Identity(outer) && !Identity(inner)
      && SameStruct(inner, a, 0, b, 0) && !SameStruct(outer, a, 0, b, 0)
  {
    var inner := StructDecl([Field(0, Integral(1)), Field(4, Integral(4))], 8, false, false);
    var outer := StructDecl([Field(0, StaticArray(Struct(inner), 1, true))], 8, false, true);
    assert inner.fields[..1] == [Field(0, Integral(1))] && inner.fields[..1][..0] == [];
    assert outer.fields[..0] == [];
    assert !LooksFields(inner.fields[..1], 1);
    assert inner.fields[1] == Field(4, Integral(4)) && !LooksFields(inner.fields, 1);
    assert LooksFields(outer.fields, 1);
    var a: seq<Byte> := [0, 0, 0, 0, 0, 0, 0, 0];
    assert a[1 := 1] == [0, 1, 0, 0, 0, 0, 0, 0];
    DifferByOne(inner, a, 1);
    DifferByOne(outer, a, 1);
  }

  /** union U { ubyte[5] a; int b; } struct S { U u; }: no member has the last
      three bytes, yet they decide. */
  lemma PaddingInUnions()
    ensures var u := StructDecl([Field(0, StaticArray(Integral(1), 5, true)), Field(0, Integral(4))], 8, true, false);
      var s := StructDecl([Field(0, Struct(u))], 8, false, false);
      var a: seq<Byte>, b: seq<Byte> := [0, 0, 0, 0, 0, 0, 0, 0], [0, 0, 0, 0, 0, 0, 0, 1];
      Identity(s) && SameData(s, a, b) && !SameStruct(s, a, 0, b, 0)
  {
    var u := StructDecl([Field(0, StaticArray(Integral(1), 5, true)), Field(0, Integral(4))], 8, true, false);
    var s := StructDecl([Field(0, Struct(u))], 8, false, false);
    assert u.fields[..1] == [Field(0, StaticArray(Integral(1), 5, true))] && u.fields[..1][..0] == [];
    assert s.fields[..0] == [];
    assert LooksType(Struct(u), 7) && LooksFields(s.fields, 7);
    assert !DataFields(u.fields, 7) && !DataType(Struct(u), 7) && !DataFields(s.fields, 7);
    var a: seq<Byte> := [0, 0, 0, 0, 0, 0, 0, 0];
    assert a[7 := 1] == [0, 0, 0, 0, 0, 0, 0, 1];
    DifferByOne(s, a, 7);
  }

  /** struct R { real r; }: 10 bytes of data and 6 of padding, which decides. */
  lemma PaddingInReals()
    ensures var s := StructDecl([Field(0, Other(16, false, {10, 11, 12, 13, 14, 15}))], 16, false, false);
      var a: seq<Byte> := seq(16, _ => 0);
      Identity(s) && SameData(s, a, a[15 := 1]) && !SameStruct(s, a, 0, a[15 := 1], 0)
  {
    var s := StructDecl([Field(0, Other(16, false, {10, 11, 12, 13, 14, 15}))], 16, false, false);
    assert s.fields[..0] == [];
    assert LooksFields(s.fields, 15) && !DataFields(s.fields, 15);
    DifferByOne(s, seq(16, _ => 0), 15);
  }
}
