/** Layouts of structs, and which of them may be compared as a block of bytes. */
module StructLayouts {
  import opened Options

  /** blk says that no integer mode holds the whole value, padding which bytes
      of it mean nothing: the last ones of a real, say. */
  datatype Type =
    | Integral(bytes: nat)
    | Other(bytes: nat, blk: bool, padding: set<nat>)    // floating, vectors, pointers, delegates
    | StaticArray(elem: Type, dim: nat, blk: bool)
    | Struct(sd: StructDecl)

  datatype Field = Field(offset: nat, ty: Type)
  datatype StructDecl = StructDecl(fields: seq<Field>, structsize: nat, isUnion: bool, blk: bool)

  function Size(t: Type): nat {
    match t
    case Integral(n) => n
    case Other(n, _, _) => n
    case StaticArray(e, d, _) => Size(e) * d
    case Struct(sd) => sd.structsize
  }

  /** Every field lies within its struct, and no struct is of size zero. */
  predicate Laid(sd: StructDecl)
    decreases sd, 0
  {
    sd.structsize > 0 && LaidFields(sd.fields, sd.structsize)
  }

  predicate LaidFields(fs: seq<Field>, size: nat)
    decreases fs, 1
  {
    fs == [] ||
    var n := |fs| - 1;
    assert (fs decreases to fs[n]);
    var Field(offset, ty) := fs[n];
    LaidFields(fs[..n], size) && offset + Size(ty) <= size && LaidType(ty)
  }

  predicate LaidType(t: Type)
    decreases t, 0
  {
    match t
    case StaticArray(e, _, _) => LaidType(e)
    case Struct(sd) => Laid(sd)
    case _ => true
  }

  // ---------- The test ----------

  /** How far the fields fill a struct without a hole. */
  function Filled(fs: seq<Field>): Option<nat>
    decreases fs, 1
  {
    if fs == [] then Some(0) else
    var n := |fs| - 1;
    assert (fs decreases to fs[n]);
    var Field(offset, ty) := fs[n];
    var before := Filled(fs[..n]);
    if before.None? || !IdentityType(ty) then None
    else if before.value > offset then before
    else if before.value != offset then None
    else Some(before.value + Size(ty))
  }

  /** The struct may be compared as a block. */
  predicate Identity(sd: StructDecl)
    decreases sd, 0
  {
    sd.isUnion || (Filled(sd.fields).Some? && Filled(sd.fields).value >= sd.structsize)
  }

  predicate IdentityType(t: Type)
    decreases t, 0
  {
    match t case Struct(sd) => Identity(sd) case _ => true
  }

  lemma FilledStops(fs: seq<Field>, i: nat)
    requires i <= |fs| && Filled(fs[..i]).None?
    ensures Filled(fs).None?
    decreases |fs| - i
  {
    if i == |fs| {
      assert fs[..i] == fs;
    } else {
      var longer := fs[..i + 1];
      assert longer[..i] == fs[..i];
      FilledStops(fs, i + 1);
    }
  }

  method IdentityCompareP(sd: StructDecl) returns (b: bool)
    ensures b == Identity(sd)
    decreases sd
  {
    if sd.isUnion {
      return true;
    }
    var fs := sd.fields;
    var offset := 0;
    var i := 0;
    while i < |fs|
      invariant i <= |fs| && Filled(fs[..i]) == Some(offset)
    {
      var vd := fs[i];
      assert fs[..i + 1][..i] == fs[..i];
      match vd.ty {
        case Struct(inner) =>
          var ok := IdentityCompareP(inner);
          if !ok {
            FilledStops(fs, i + 1);
            return false;
          }
        case _ =>
      }
      if offset <= vd.offset {
        if offset != vd.offset {
          FilledStops(fs, i + 1);
          return false;
        }
        offset := offset + Size(vd.ty);
      }
      i := i + 1;
    }
    assert fs[..i] == fs;
    return offset >= sd.structsize;
  }

  // ---------- What is looked at ----------

  /** Comparing field by field looks at byte o of the struct. A union is
      compared as a block, and so is a field that is not a struct. */
  predicate Looks(sd: StructDecl, o: nat)
    decreases sd, 0
  {
    if sd.fields == [] then false
    else if sd.isUnion then o < sd.structsize
    else LooksFields(sd.fields, o)
  }

  predicate LooksFields(fs: seq<Field>, o: nat)
    decreases fs, 1
  {
    fs != [] &&
    var n := |fs| - 1;
    assert (fs decreases to fs[n]);
    var Field(offset, ty) := fs[n];
    LooksFields(fs[..n], o) || (offset <= o && LooksType(ty, o - offset))
  }

  predicate LooksType(t: Type, o: nat)
    decreases t, 0
  {
    match t case Struct(sd) => Looks(sd, o) case _ => o < Size(t)
  }

  /** A union without fields is a block to the test, and nothing to the
      comparison. */
  predicate NoEmptyUnion(sd: StructDecl)
    decreases sd, 0
  {
    if sd.isUnion then sd.fields != [] else NoEmptyUnionIn(sd.fields)
  }

  predicate NoEmptyUnionIn(fs: seq<Field>)
    decreases fs, 1
  {
    fs == [] ||
    var n := |fs| - 1;
    assert (fs decreases to fs[n]);
    var Field(_, ty) := fs[n];
    NoEmptyUnionIn(fs[..n]) && NoEmptyUnionType(ty)
  }

  predicate NoEmptyUnionType(t: Type)
    decreases t, 0
  {
    match t case Struct(sd) => NoEmptyUnion(sd) case _ => true
  }

  ghost predicate Covered(sd: StructDecl) {
    forall o: nat :: o < sd.structsize ==> Looks(sd, o)
  }

  /** The test accepts only structs whose fields cover every byte at every
      depth. */
  lemma {:induction false} IdentityCovers(sd: StructDecl)
    requires Laid(sd) && Identity(sd) && NoEmptyUnion(sd)
    ensures Covered(sd)
    decreases sd, 0
  {
    if !sd.isUnion { FilledCovers(sd.fields, sd.structsize); }
  }

  lemma {:induction false} FilledCovers(fs: seq<Field>, size: nat)
    requires LaidFields(fs, size) && Filled(fs).Some? && NoEmptyUnionIn(fs)
    ensures forall o: nat :: o < Filled(fs).value ==> LooksFields(fs, o)
    decreases fs, 1
  {
    if fs != [] {
      var n := |fs| - 1;
      FilledCovers(fs[..n], size);
      assert (fs decreases to fs[n]);
      match fs[n] { case Field(_, Struct(sd)) => IdentityCovers(sd); case _ => }
      forall o: nat | fs[n].offset <= o < fs[n].offset + Size(fs[n].ty) ensures LooksFields(fs, o) {
        assert LooksType(fs[n].ty, o - fs[n].offset);
      }
    }
  }

  // ---------- Exactness ----------

  /** Fields follow one another, at every depth. */
  predicate Sequential(sd: StructDecl)
    decreases sd, 0
  {
    sd.isUnion || SequentialFields(sd.fields)
  }

  predicate SequentialFields(fs: seq<Field>)
    decreases fs, 1
  {
    fs == [] ||
    var n := |fs| - 1;
    assert (fs decreases to fs[n]);
    var Field(offset, ty) := fs[n];
    SequentialFields(fs[..n]) && End(fs[..n]) <= offset && SequentialType(ty)
  }

  predicate SequentialType(t: Type)
    decreases t, 0
  {
    match t case Struct(sd) => Sequential(sd) case StaticArray(e, _, _) => SequentialType(e) case _ => true
  }

  function End(fs: seq<Field>): nat {
    if fs == [] then 0 else fs[|fs| - 1].offset + Size(fs[|fs| - 1].ty)
  }

  lemma {:induction false} LooksInside(sd: StructDecl, o: nat)
    requires Laid(sd) && Looks(sd, o)
    ensures o < sd.structsize
    decreases sd, 0
  {
    if !sd.isUnion { LooksInsideFields(sd.fields, sd.structsize, o); }
  }

  lemma {:induction false} LooksInsideFields(fs: seq<Field>, size: nat, o: nat)
    requires LaidFields(fs, size) && LooksFields(fs, o)
    ensures o < size
    ensures SequentialFields(fs) ==> o < End(fs)
    decreases fs, 1
  {
    var n := |fs| - 1;
    if LooksFields(fs[..n], o) {
      LooksInsideFields(fs[..n], size, o);
    } else {
      assert (fs decreases to fs[n]);
      match fs[n] { case Field(offset, Struct(sd)) => LooksInside(sd, o - offset); case _ => }
    }
  }

  /** For a struct whose fields do not overlap the test is exact, but for empty
      unions: where it fails, some byte is not looked at. */
  lemma {:induction false} FindHole(sd: StructDecl) returns (o: nat)
    requires Laid(sd) && Sequential(sd) && !(Identity(sd) && NoEmptyUnion(sd))
    ensures o < sd.structsize && !Looks(sd, o)
    decreases sd, 0
  {
    o := 0;
    if !sd.isUnion && sd.fields != [] {
      var fs := sd.fields;
      if Filled(fs).Some? && NoEmptyUnionIn(fs) {
        FilledToEnd(fs);
        o := End(fs);
        if LooksFields(fs, o) { LooksInsideFields(fs, sd.structsize, o); }
      } else {
        o := FindHoleIn(fs, sd.structsize);
      }
    }
  }

  lemma {:induction false} FilledToEnd(fs: seq<Field>)
    requires SequentialFields(fs) && Filled(fs).Some?
    ensures Filled(fs).value == End(fs)
    decreases |fs|
  {
    if fs != [] { FilledToEnd(fs[..|fs| - 1]); }
  }

  lemma {:induction false} FindHoleIn(fs: seq<Field>, size: nat) returns (o: nat)
    requires LaidFields(fs, size) && SequentialFields(fs) && !(Filled(fs).Some? && NoEmptyUnionIn(fs))
    ensures o < size && o < End(fs) && !LooksFields(fs, o)
    decreases fs, 1
  {
    var n := |fs| - 1;
    var f := fs[n];
    var before := fs[..n];
    assert (fs decreases to f);
    if !(Filled(before).Some? && NoEmptyUnionIn(before)) {
      o := FindHoleIn(before, size);
    } else {
      FilledToEnd(before);
      o := End(before);
      if f.ty.Struct? && !(Identity(f.ty.sd) && NoEmptyUnion(f.ty.sd)) {
        var inner := FindHole(f.ty.sd);
        o := f.offset + inner;
        assert !LooksType(f.ty, inner) && o - f.offset == inner;
      } else {
        assert IdentityType(f.ty) && NoEmptyUnionType(f.ty);
        assert f.offset == o ==> Filled(fs) == Some(o + Size(f.ty));
      }
      if LooksFields(before, o) { LooksInsideFields(before, size, o); }
    }
  }

  lemma CoveredIff(sd: StructDecl)
    requires Laid(sd) && Sequential(sd)
    ensures Covered(sd) <==> Identity(sd) && NoEmptyUnion(sd)
  {
    if Identity(sd) && NoEmptyUnion(sd) {
      IdentityCovers(sd);
    } else {
      var o := FindHole(sd);
      assert !Covered(sd);
    }
  }
}
