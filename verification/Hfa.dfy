// Homogeneous floating-point aggregates: is_vfp_type of the AArch64 port and vfp_type_p of the ARM
// port, against the flattened elements of a type.

module Hfa {
  import opened Words
  import opened Align
  import opened Layout

  // The type codes of all scalars in ty, in order; a complex number has two.
  function Leaves(ty: Type): seq<nat>
    decreases ty, if ty.Struct? then |ty.elements| + 1 else 0
  {
    match ty
    case Scalar(code, _, _) => [code]
    case Complex(part, _, _) => [part, part]
    case Struct(elements, _, _) => LeavesOf(ty, |elements|)
  }

  function LeavesOf(ty: Type, k: nat): seq<nat>
    requires ty.Struct? && k <= |ty.elements|
    decreases ty, k
  {
    if k == 0 then [] else LeavesOf(ty, k - 1) + Leaves(ty.elements[k - 1])
  }

  // Laying a type out leaves its flattened members as they are, and with them how it is passed.
  lemma {:induction false} SameLeaves(ty: Type, r: Type)
    requires SameShape(ty, r)
    ensures Leaves(r) == Leaves(ty)
    decreases ty, if ty.Struct? then |ty.elements| + 1 else 0
  {
    if ty.Struct? && ty.size == 0 {
      SameLeavesOf(ty, r, |ty.elements|);
    }
  }

  lemma {:induction false} SameLeavesOf(ty: Type, r: Type, k: nat)
    requires SameShape(ty, r) && ty.Struct? && ty.size == 0 && k <= |ty.elements|
    ensures LeavesOf(r, k) == LeavesOf(ty, k)
    decreases ty, k
  {
    if k > 0 {
      SameLeavesOf(ty, r, k - 1);
      SameLeaves(ty.elements[k - 1], r.elements[k - 1]);
    }
  }

  predicate IsFloating(code: nat) { code == FFI_TYPE_FLOAT || code == FFI_TYPE_DOUBLE || code == FFI_TYPE_LONGDOUBLE }

  function Unit(code: nat): nat { if code == FFI_TYPE_FLOAT then 4 else if code == FFI_TYPE_DOUBLE then 8 else 16 }

  // The bytes of n values of the type
  function Total(code: nat, n: nat): nat {
    if code == FFI_TYPE_FLOAT then 4 * n else if code == FFI_TYPE_DOUBLE then 8 * n else 16 * n
  }

  ghost predicate AllAre(leaves: seq<nat>, code: nat) { forall i :: 0 <= i < |leaves| ==> leaves[i] == code }

  // One to four copies of one floating-point type
  ghost predicate IsHfa(leaves: seq<nat>) { 1 <= |leaves| <= 4 && IsFloating(leaves[0]) && AllAre(leaves, leaves[0]) }

  // The AARCH64_RET_ constant for the type, 0 for a type that is none
  ghost function Code(leaves: seq<nat>): nat {
    if IsHfa(leaves) then leaves[0] * 4 + (4 - |leaves|) else 0
  }

  // Floating-point scalars and complex numbers have the sizes of the platform.
  ghost predicate Standard(ty: Type) {
    match ty
    case Scalar(code, size, alignment) => IsFloating(code) ==> size == Unit(code) && alignment == Unit(code)
    case Complex(part, size, alignment) => IsFloating(part) ==> size == 2 * Unit(part) && alignment == Unit(part)
    case Struct(elements, _, _) => forall i :: 0 <= i < |elements| ==> Standard(elements[i])
  }

  // A structure of one floating-point type has no padding.
  lemma {:induction false} HomogeneousSize(ty: Type, code: nat)
    requires LaidOut(ty) && Standard(ty) && IsFloating(code) && AllAre(Leaves(ty), code)
    ensures ty.size == Total(code, |Leaves(ty)|) && ty.alignment == Unit(code) && |Leaves(ty)| > 0
    decreases ty, if ty.Struct? then |ty.elements| + 1 else 0
  {
    hide AlignUp, IsFloating;
    match ty
    case Scalar(c, _, _) => assert Leaves(ty)[0] == c;
    case Complex(part, _, _) => assert Leaves(ty)[0] == part;
    case Struct(elements, _, _) =>
      HomogeneousEnd(ty, code, |elements|);
      WholeUnits(code, |LeavesOf(ty, |elements|)|);
      AlignedIs(EndOf(elements, |elements|), Unit(code), EndOf(elements, |elements|));
  }

  lemma WholeUnits(code: nat, n: nat)
    ensures Unit(code) > 0 && Total(code, n) % Unit(code) == 0 && Total(code, n) / Unit(code) == n
    ensures n * Unit(code) == Total(code, n)
  {
    QuotientUnique(Total(code, n), Unit(code), n, 0);
  }

  lemma {:induction false} HomogeneousEnd(ty: Type, code: nat, k: nat)
    requires ty.Struct? && LaidOut(ty) && Standard(ty) && k <= |ty.elements| && IsFloating(code) &&
             AllAre(LeavesOf(ty, k), code)
    ensures forall i :: 0 <= i < |ty.elements| ==> ty.elements[i].alignment > 0
    ensures EndOf(ty.elements, k) == Total(code, |LeavesOf(ty, k)|)
    ensures k > 0 ==> AlignmentOf(ty.elements, k) == Unit(code) && |LeavesOf(ty, k)| > 0
    decreases ty, k
  {
    if k > 0 {
      var e, rest := ty.elements[k - 1], LeavesOf(ty, k - 1);
      assert forall i :: 0 <= i < |rest| ==> rest[i] == LeavesOf(ty, k)[i];
      assert forall i :: 0 <= i < |Leaves(e)| ==> Leaves(e)[i] == LeavesOf(ty, k)[|rest| + i];
      HomogeneousEnd(ty, code, k - 1);
      HomogeneousSize(e, code);
      WholeUnits(code, |rest|);
      AlignedIs(EndOf(ty.elements, k - 1), Unit(code), EndOf(ty.elements, k - 1));
    }
  }

  // ---- The scans ------------------------------------------------------------------------

  // is_hfa0: the code of the first scalar below ty, -1 if there is none
  method IsHfa0(ty: Type) returns (ret: int)
    ensures ret == if ty.Scalar? || Leaves(ty) == [] then -1 else Leaves(ty)[0]
    decreases ty
  {
    ret := -1;
    if ty.Complex? {
      return ty.part;
    }
    if ty.Struct? {
      var i := 0;
      while i < |ty.elements|
        invariant 0 <= i <= |ty.elements| && ret == -1 && LeavesOf(ty, i) == []
      {
        var e := ty.elements[i];
        FirstLeaf(ty, i + 1);
        if e.Scalar? {
          return e.code;
        }
        ret := IsHfa0(e);
        if ret >= 0 {
          return;
        }
        i := i + 1;
      }
    }
  }

  // Once there is a leaf, the first one stays the first.
  lemma {:induction false} FirstLeaf(ty: Type, k: nat)
    requires ty.Struct? && k <= |ty.elements|
    ensures LeavesOf(ty, k) <= Leaves(ty)
    decreases |ty.elements| - k
  {
    if k < |ty.elements| {
      FirstLeaf(ty, k + 1);
    }
  }

  // is_hfa1: whether every scalar below ty has the code
  method IsHfa1(ty: Type, candidate: nat) returns (all: bool)
    requires !ty.Scalar?
    ensures all <==> AllAre(Leaves(ty), candidate)
    decreases ty
  {
    if ty.Complex? {
      assert Leaves(ty)[0] == ty.part;
      return ty.part == candidate;
    }
    all := AllBelow(ty, candidate);
  }

  // The loop both is_hfa1 and is_vfp_type end with
  method AllBelow(ty: Type, candidate: nat) returns (all: bool)
    requires ty.Struct?
    ensures all <==> AllAre(Leaves(ty), candidate)
    decreases ty, 0
  {
    var i := 0;
    while i < |ty.elements|
      invariant 0 <= i <= |ty.elements| && AllAre(LeavesOf(ty, i), candidate)
    {
      var e := ty.elements[i];
      FirstLeaf(ty, i + 1);
      Joined(LeavesOf(ty, i), Leaves(e), candidate);
      if e.Scalar? {
        assert Leaves(e)[0] == e.code;
        if e.code != candidate {
          NotAll(LeavesOf(ty, i + 1), Leaves(ty), candidate);
          return false;
        }
      } else {
        var sub := IsHfa1(e, candidate);
        if !sub {
          NotAll(LeavesOf(ty, i + 1), Leaves(ty), candidate);
          return false;
        }
      }
      i := i + 1;
    }
    all := true;
  }

  lemma Joined(a: seq<nat>, b: seq<nat>, code: nat)
    ensures AllAre(a + b, code) <==> AllAre(a, code) && AllAre(b, code)
  {
    assert forall i :: 0 <= i < |b| ==> b[i] == (a + b)[|a| + i];
    assert forall i :: 0 <= i < |a| ==> a[i] == (a + b)[i];
  }

  lemma NotAll(part: seq<nat>, whole: seq<nat>, code: nat)
    requires part <= whole && !AllAre(part, code)
    ensures !AllAre(whole, code)
  {
    var i :| 0 <= i < |part| && part[i] != code;
    assert whole[i] == part[i];
  }

  lemma {:induction false} LeavesNonempty(ty: Type)
    requires LaidOut(ty)
    ensures Leaves(ty) != []
    decreases ty
  {
    if ty.Struct? {
      LeavesNonempty(ty.elements[0]);
      assert LeavesOf(ty, 1) == Leaves(ty.elements[0]);
      FirstLeaf(ty, 1);
    }
  }

  // The type of the first non-structure member
  method FirstCode(ty: Type) returns (candidate: nat)
    requires ty.Struct? && LaidOut(ty)
    ensures Leaves(ty) != [] && candidate == Leaves(ty)[0]
  {
    hide LaidOut;
    FirstLaidOut(ty);
    var e := ty.elements[0];
    LeavesNonempty(e);
    assert LeavesOf(ty, 1) == Leaves(e);
    FirstLeaf(ty, 1);
    if e.Scalar? {
      return e.code;
    }
    var c, i := -1, 0;
    while c < 0
      invariant c < 0 ==> i == 0
      invariant c >= 0 ==> c == Leaves(ty)[0]
      decreases if c < 0 then 1 else 0
    {
      c := IsHfa0(ty.elements[i]);
      i := i + 1;
    }
    candidate := c;
  }

  lemma FirstLaidOut(ty: Type)
    requires ty.Struct? && LaidOut(ty)
    ensures ty.elements != [] && LaidOut(ty.elements[0])
  {
  }

  // The quick checks of the size reject no homogeneous type.
  lemma HfaSize(ty: Type)
    requires LaidOut(ty) && Standard(ty) && IsHfa(Leaves(ty))
    ensures var u, n := Unit(Leaves(ty)[0]), |Leaves(ty)|;
            ty.size == Total(Leaves(ty)[0], n) && ty.size / u == n && ty.size / u * u == ty.size &&
              4 <= ty.size <= u * 4
  {
    hide LaidOut, Standard, Leaves;
    var u, n := Unit(Leaves(ty)[0]), |Leaves(ty)|;
    HomogeneousSize(ty, Leaves(ty)[0]);
    WholeUnits(Leaves(ty)[0], n);
  }

  // The leaves are one type, and the size tells how many.
  lemma CountIs(ty: Type, code: nat)
    requires LaidOut(ty) && Standard(ty) && IsFloating(code) && Leaves(ty) != [] && AllAre(Leaves(ty), code)
    ensures ty.size / Unit(code) == |Leaves(ty)| && Leaves(ty)[0] == code
  {
    hide LaidOut, Standard, Leaves;
    HomogeneousSize(ty, code);
    WholeUnits(code, |Leaves(ty)|);
  }

  // The part both ports share: the number of members of the structure if it is homogeneous, has
  // at most limit bytes and one of the given types, else 0; and that type.
  method Homogeneous(ty: Type, limit: nat, withLong: bool) returns (count: nat, candidate: nat)
    requires ty.Struct? && LaidOut(ty) && Standard(ty) && limit == (if withLong then 64 else 32)
    ensures Leaves(ty) != []
    ensures count != 0 <==> IsHfa(Leaves(ty)) && (withLong || Leaves(ty)[0] != FFI_TYPE_LONGDOUBLE)
    ensures count != 0 ==> count == |Leaves(ty)| && candidate == Leaves(ty)[0]
  {
    hide LaidOut, Standard, Leaves;
    count, candidate := 0, 0;
    var size := ty.size;
    LeavesNonempty(ty);
    if IsHfa(Leaves(ty)) {
      HfaSize(ty);
    }
    if size < 4 || size > limit {
      return;
    }
    candidate := FirstCode(ty);
    if !IsFloating(candidate) || (candidate == FFI_TYPE_LONGDOUBLE && !withLong) {
      return;
    }
    var n := size / Unit(candidate);
    if size != n * Unit(candidate) || n > 4 {
      return;
    }
    var all := AllBelow(ty, candidate);
    if !all {
      return;
    }
    CountIs(ty, candidate);
    count := n;
  }

  // is_vfp_type, on AArch64: non-zero exactly for homogeneous floating-point types of one to four
  // members, however nested, and then it tells type and number.
  method IsVfpType(ty: Type) returns (r: nat)
    requires LaidOut(ty) && Standard(ty)
    ensures r == Code(Leaves(ty)) && (r != 0 <==> IsHfa(Leaves(ty)))
  {
    if ty.Scalar? {
      r := if IsFloating(ty.code) then ty.code * 4 + (4 - 1) else 0;
    } else if ty.Complex? {
      r := if IsFloating(ty.part) then ty.part * 4 + (4 - 2) else 0;
    } else {
      var count, candidate := Homogeneous(ty, 64, true);
      r := if count != 0 then candidate * 4 + (4 - count) else 0;
    }
  }

  // vfp_type_p, on ARM, which knows no long double
  method VfpTypeP(ty: Type) returns (h: nat)
    requires LaidOut(ty) && Standard(ty)
    ensures h == ArmCode(Leaves(ty))
  {
    if ty.Scalar? {
      h := if ty.code == FFI_TYPE_FLOAT || ty.code == FFI_TYPE_DOUBLE then 256 + ty.code else 0;
    } else if ty.Complex? {
      h := if ty.part == FFI_TYPE_FLOAT || ty.part == FFI_TYPE_DOUBLE then 2 * 256 + ty.part else 0;
    } else {
      var count, candidate := Homogeneous(ty, 32, false);
      h := if count != 0 then count * 256 + candidate else 0;
    }
  }

  // Bits 0 to 7 hold the type, bits 8 to 10 the number.
  ghost function ArmCode(leaves: seq<nat>): nat {
    if IsHfa(leaves) && leaves[0] != FFI_TYPE_LONGDOUBLE then |leaves| * 256 + leaves[0] else 0
  }

  // The registers vfp_type_p asks for hold exactly the bytes of the type, as the walkers over the
  // arguments assume: a register for each float, two for each double.
  lemma RegistersHold(ty: Type)
    requires LaidOut(ty) && Standard(ty) && ArmCode(Leaves(ty)) != 0
    ensures var h := ArmCode(Leaves(ty));
            && 1 <= h / 256 <= 4 && (h % 256 == FFI_TYPE_FLOAT || h % 256 == FFI_TYPE_DOUBLE)
            && ty.size == 4 * (if h % 256 == FFI_TYPE_DOUBLE then 2 * (h / 256) else h / 256)
  {
    hide LaidOut, Standard, Leaves;
    HfaSize(ty);
    QuotientUnique(ArmCode(Leaves(ty)), 256, |Leaves(ty)|, Leaves(ty)[0]);
  }

  // The two codes tell the same of types without long doubles: what the AArch64 code says modulo
  // four is how many members short of four there are.
  lemma CodeTells(ty: Type)
    requires IsHfa(Leaves(ty))
    ensures Code(Leaves(ty)) / 4 == Leaves(ty)[0] && 4 - Code(Leaves(ty)) % 4 == |Leaves(ty)|
  {
    QuotientUnique(Code(Leaves(ty)), 4, Leaves(ty)[0], 4 - |Leaves(ty)|);
  }
}
