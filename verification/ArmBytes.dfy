// Whether the arguments of an ARM call fit in the bytes that ffi_prep_cif_core and
// ffi_prep_cif_machdep set aside for them before the call.

module ArmBytes {
  import opened Words
  import opened Align
  import P = PrepCif
  import opened VfpLayout
  import opened ArmArgs
  import opened ArmCalls

  datatype Abi = SYSV | VFP

  datatype Return = Simple | Struct(size: nat, vfp: Vfp) | Complex(size: nat, vfp: Vfp)

  // ARM_TYPE_STRUCT: the caller passes the address for the value, ffi_prep_cif_machdep.
  predicate InMemory(abi: Abi, ret: Return) {
    !ret.Simple? && !(abi == VFP && ret.vfp != NotVfp) && ret.size > 4
  }

  function Extents(types: seq<ArgType>): seq<P.Extent> {
    seq(|types|, i requires 0 <= i < |types| => P.Extent(types[i].size, types[i].alignment))
  }

  // The running count of ffi_prep_cif_core before argument i
  function BytesAt(ret: Return, types: seq<ArgType>, i: nat): nat
    requires i <= |types| && forall j :: 0 <= j < |types| ==> types[j].alignment > 0
  {
    P.BytesAt(4, if ret.Struct? then 4 else 0, Extents(types), i)
  }

  lemma ExtentsAligned(types: seq<ArgType>)
    requires forall j :: 0 <= j < |types| ==> types[j].alignment > 0
    ensures |Extents(types)| == |types| && forall j :: 0 <= j < |types| ==> Extents(types)[j].alignment > 0
  {
  }

  lemma BytesFirst(ret: Return, types: seq<ArgType>)
    requires forall j :: 0 <= j < |types| ==> types[j].alignment > 0
    ensures BytesAt(ret, types, 0) == if ret.Struct? then 4 else 0
  {
  }

  lemma BytesNext(ret: Return, types: seq<ArgType>, i: nat)
    requires i < |types| && forall j :: 0 <= j < |types| ==> types[j].alignment > 0
    ensures BytesAt(ret, types, i + 1) ==
            AlignUp(BytesAt(ret, types, i), types[i].alignment) + AlignUp(types[i].size, 4)
  {
    hide AlignUp;
  }

  // cif->bytes in the end
  function CifBytes(abi: Abi, ret: Return, types: seq<ArgType>): nat
    requires forall j :: 0 <= j < |types| ==> types[j].alignment > 0
  {
    var b := AlignUp(BytesAt(ret, types, |types|) + (if InMemory(abi, ret) then 4 else 0), 8);
    if b < 16 then 16 else b
  }

  method PrepBytes(abi: Abi, ret: Return, types: seq<ArgType>) returns (bytes: nat)
    requires forall j :: 0 <= j < |types| ==> types[j].alignment > 0
    ensures bytes == CifBytes(abi, ret, types)
  {
    hide AlignUp, Extents;
    AlignedIs(4, 4, 4);
    ExtentsAligned(types);
    bytes := P.PrepCore(4, ret.Struct?, Extents(types));
    if InMemory(abi, ret) {
      bytes := bytes + 4;
    }
    bytes := AlignUp(bytes, 8);
    if bytes < 16 {
      bytes := 16;
    }
  }

  // The bytes set aside are the least multiple of 8 that covers the running count, the word for a
  // value returned in memory, and the four core registers.
  lemma LeastCover(abi: Abi, ret: Return, types: seq<ArgType>, n: nat)
    requires forall j :: 0 <= j < |types| ==> types[j].alignment > 0
    ensures var count := BytesAt(ret, types, |types|) + (if InMemory(abi, ret) then 4 else 0);
            && CifBytes(abi, ret, types) % 8 == 0 && 16 <= CifBytes(abi, ret, types)
            && count <= CifBytes(abi, ret, types)
            && (n % 8 == 0 && 16 <= n && count <= n ==> CifBytes(abi, ret, types) <= n)
  {
    hide AlignUp, BytesAt, InMemory;
    var count := BytesAt(ret, types, |types|) + (if InMemory(abi, ret) then 4 else 0);
    Aligned(count, 8);
    if n % 8 == 0 && count <= n < AlignUp(count, 8) {
      Multiples(n, AlignUp(count, 8), 8);
    }
  }

  // ---- The soft-float walkers -----------------------------------------------------------

  // argp of ffi_prep_args_SYSV and of ffi_prep_incoming_args_SYSV before argument i
  function SysvAt(c: Call, i: nat): nat
    requires i <= |c.types|
  {
    if i == 0 then c.base + (if c.inMemory then 4 else 0)
    else At(c.types[i - 1], SysvAt(c, i - 1)) + PutSize(c.types[i - 1])
  }

  function SysvClosureAt(c: Call, i: nat): nat
    requires i <= |c.types|
  {
    if i == 0 then c.base + (if c.inMemory then 4 else 0)
    else At(c.types[i - 1], SysvClosureAt(c, i - 1)) + c.types[i - 1].size
  }

  lemma {:induction false} SysvAgrees(c: Call, i: nat)
    requires CallOK(c) && i <= |c.types|
    ensures SysvAt(c, i) == AlignUp(SysvClosureAt(c, i), 4)
    ensures i < |c.types| ==> At(c.types[i], SysvClosureAt(c, i)) == At(c.types[i], SysvAt(c, i))
  {
    hide At, PutSize, AlignUp, TypeOK;
    if i == 0 {
      EndsBy(c.base, c.base);
      EndsBy(c.base + 4, c.base + 4);
    } else {
      SysvAgrees(c, i - 1);
      assert TypeOK(c.types[i - 1]);
      Spot(c.types[i - 1], SysvClosureAt(c, i - 1));
      SpotEnd(c.types[i - 1], At(c.types[i - 1], SysvClosureAt(c, i - 1)));
    }
    if i < |c.types| {
      assert TypeOK(c.types[i]);
      Spot(c.types[i], SysvClosureAt(c, i));
    }
  }

  // ffi_prep_args_SYSV, as far as where it writes each argument
  method PrepArgsSysv(c: Call) returns (slots: seq<nat>, end: nat)
    ensures |slots| == |c.types| && (forall i :: 0 <= i < |slots| ==> slots[i] == At(c.types[i], SysvAt(c, i)))
    ensures end == SysvAt(c, |c.types|)
  {
    hide At, PutSize;
    slots := [];
    var argp: nat := c.base;
    if c.inMemory {
      argp := argp + 4;
    }
    for i := 0 to |c.types|
      invariant argp == SysvAt(c, i) && |slots| == i
      invariant forall j :: 0 <= j < i ==> slots[j] == At(c.types[j], SysvAt(c, j))
    {
      argp := At(c.types[i], argp);
      slots := slots + [argp];
      argp := argp + PutSize(c.types[i]);
    }
    end := argp;
  }

  // ffi_prep_incoming_args_SYSV finds each argument where the call wrote it.
  method PrepIncomingSysv(c: Call) returns (avalue: seq<nat>)
    requires CallOK(c)
    ensures |avalue| == |c.types| && forall i :: 0 <= i < |avalue| ==> avalue[i] == At(c.types[i], SysvAt(c, i))
  {
    hide At, AlignUp, TypeOK, SysvAt;
    avalue := [];
    var argp: nat := c.base;
    if c.inMemory {
      argp := argp + 4;
    }
    for i := 0 to |c.types|
      invariant argp == SysvClosureAt(c, i) && |avalue| == i
      invariant forall j :: 0 <= j < i ==> avalue[j] == At(c.types[j], SysvAt(c, j))
    {
      SysvAgrees(c, i);
      argp := At(c.types[i], argp);
      avalue := avalue + [argp];
      argp := argp + c.types[i].size;
    }
  }

  // ---- The bound ------------------------------------------------------------------------

  ghost predicate Natural(ty: ArgType) {
    TypeOK(ty) && (ty.alignment == 1 || ty.alignment == 2 || ty.alignment == 4 || ty.alignment == 8)
  }

  ghost predicate AllNatural(types: seq<ArgType>) {
    forall i {:trigger Natural(types[i])} :: 0 <= i < |types| ==> Natural(types[i])
  }

  // The call that ffi_call_int makes of prepared types.
  ghost function CallOf(abi: Abi, ret: Return, base: nat, types: seq<ArgType>): Call
    requires AllNatural(types)
  {
    assert TypesOK(VfpsOf(types)) by {
      VfpsFine(types);
    }
    Call(base, InMemory(abi, ret), types, if abi == VFP then LaidOut(VfpsOf(types), |types|).0.args else [])
  }

  lemma VfpsFine(types: seq<ArgType>)
    requires AllNatural(types)
    ensures TypesOK(VfpsOf(types))
  {
    forall i | 0 <= i < |types| ensures VfpOK(VfpsOf(types)[i]) {
      assert Natural(types[i]);
    }
  }

  // How far the arguments reach: the hard-float walker runs if some argument is in a VFP register.
  ghost function Needed(abi: Abi, ret: Return, base: nat, types: seq<ArgType>): int
    requires AllNatural(types)
  {
    var c := CallOf(abi, ret, base, types);
    (if c.vfpArgs != [] then CallAt(c, |types|).argp else SysvAt(c, |types|)) - base
  }

  ghost predicate Fits(abi: Abi, ret: Return, base: nat, types: seq<ArgType>)
    requires AllNatural(types)
  {
    AlignmentsPositive(types);
    Needed(abi, ret, base, types) <= CifBytes(abi, ret, types)
  }

  // For all argument lists the area is big enough.
  ghost predicate Safe(abi: Abi, ret: Return) {
    forall base: nat, types {:trigger Fits(abi, ret, base, types)} ::
      base % 8 == 0 && AllNatural(types) ==> Fits(abi, ret, base, types)
  }

  // One argument moves the count at least as far as a cursor that is not ahead of it.
  lemma KeepsUp(base: nat, ty: ArgType, p: nat, b: nat)
    requires Natural(ty) && base % 8 == 0 && base <= p <= base + b && b % 4 == 0
    ensures At(ty, p) + PutSize(ty) <= base + AlignUp(b, ty.alignment) + AlignUp(ty.size, 4)
    ensures (AlignUp(b, ty.alignment) + AlignUp(ty.size, 4)) % 4 == 0 && AlignUp(b, ty.alignment) >= b
  {
    hide AlignUp;
    var a := Alignment(ty);
    if ty.alignment == 8 {
      assert a == 8;
    } else {
      assert a == 4;
      EightFour(base);
    }
    AlignMono(p - base, b, a);
    AlignShift(p - base, base, a);
    Aligned(b, ty.alignment);
    Aligned(ty.size, 4);
    CountAligned(ty, b);
  }

  lemma CountAligned(ty: ArgType, b: nat)
    requires Natural(ty) && b % 4 == 0
    ensures AlignUp(b, ty.alignment) == AlignUp(b, Alignment(ty)) && AlignUp(b, ty.alignment) % 4 == 0
  {
    hide AlignUp, TypeOK;
    if ty.alignment == 8 {
      Aligned(b, 8);
      EightFour(AlignUp(b, 8));
    } else {
      AlignedIs(b, 4, b);
      if ty.alignment == 1 {
        AlignedIs(b, 1, b);
      } else if ty.alignment == 2 {
        AlignedIs(b, 2, b);
      }
    }
  }

  lemma {:induction false} SysvFits(c: Call, ret: Return, i: nat)
    requires AllNatural(c.types) && c.base % 8 == 0 && i <= |c.types| && (c.inMemory ==> ret.Struct?)
    ensures forall j :: 0 <= j < |c.types| ==> c.types[j].alignment > 0
    ensures c.base <= SysvAt(c, i) <= c.base + BytesAt(ret, c.types, i) && BytesAt(ret, c.types, i) % 4 == 0
  {
    hide At, PutSize, AlignUp, Natural;
    AlignmentsPositive(c.types);
    if i > 0 {
      SysvFits(c, ret, i - 1);
      assert Natural(c.types[i - 1]);
      KeepsUp(c.base, c.types[i - 1], SysvAt(c, i - 1), BytesAt(ret, c.types, i - 1));
      NaturalFine(c.types[i - 1]);
      Spot(c.types[i - 1], SysvAt(c, i - 1));
    }
  }

  lemma NaturalFine(ty: ArgType)
    requires Natural(ty)
    ensures TypeOK(ty)
  {
  }

  lemma AlignmentsPositive(types: seq<ArgType>)
    requires AllNatural(types)
    ensures forall j :: 0 <= j < |types| ==> types[j].alignment > 0
  {
    forall j | 0 <= j < |types| ensures types[j].alignment > 0 {
      assert Natural(types[j]);
    }
  }

  // Before the first candidate that fails, five registers' worth of arguments were counted.
  lemma {:induction false} StoppedLate(types: seq<Vfp>, k: nat)
    requires TypesOK(types) && k <= |types| && LaidOut(types, k).1
    ensures RegsPlaced(types, k) >= 5
  {
    hide LowestFree, LowestFit, After;
    if LaidOut(types, k - 1).1 {
      StoppedLate(types, k - 1);
    } else {
      StateKept(types, k - 1);
      UsedCount(types, k - 1);
      FailedNone(LaidOut(types, k - 1).0.used, types[k - 1]);
      FailsLate(LaidOut(types, k - 1).0, types[k - 1]);
    }
  }

  lemma FailedNone(used: set<nat>, v: Vfp)
    requires VfpOK(v) && !v.NotVfp? && LowestFit(used, v, 0) == NREGS
    ensures NoneSuits(used, v)
  {
    forall r: nat ensures !Suits(used, v, r) {
    }
  }

  lemma {:induction false} CountsRegs(ret: Return, types: seq<ArgType>, i: nat)
    requires AllNatural(types) && i <= |types|
    ensures forall j :: 0 <= j < |types| ==> types[j].alignment > 0
    ensures 4 * RegsPlaced(VfpsOf(types), i) <= BytesAt(ret, types, i) && BytesAt(ret, types, i) % 4 == 0
  {
    hide AlignUp, Natural;
    AlignmentsPositive(types);
    if i > 0 {
      CountsRegs(ret, types, i - 1);
      var ty := types[i - 1];
      assert Natural(ty);
      KeepsUp(0, ty, 0, BytesAt(ret, types, i - 1));
      NaturalFine(ty);
      Aligned(ty.size, 4);
    }
  }

  // While nothing is on the stack the register cursor, afterwards the stack cursor, is not ahead
  // of the count.
  ghost predicate Covered(c: Call, s: Cursors, b: nat) {
    && CursorsOK(c, s) && b % 4 == 0
    && (if s.stackUsed then s.argp <= c.base + b else s.regp <= c.base + b)
    && (s.done && !s.stackUsed ==> s.regp == c.base + 16)
  }

  lemma StepCovered(c: Call, ty: ArgType, s: Cursors, b: nat)
    requires c.base % 8 == 0 && Natural(ty) && Covered(c, s, b)
    requires ty.vfp != NotVfp && s.vi >= |c.vfpArgs| ==> b >= 16
    ensures Covered(c, CallStep(c, ty, s).1, AlignUp(b, ty.alignment) + AlignUp(ty.size, 4))
  {
    hide At, PutSize, AlignUp, Padded, Natural;
    NaturalFine(ty);
    StepBelow(c, ty, s, 0, 0);
    Spot(ty, s.regp);
    Spot(ty, s.argp);
    SpotEnd(ty, At(ty, s.regp));
    if s.stackUsed {
      KeepsUp(c.base, ty, s.argp, b);
    } else {
      KeepsUp(c.base, ty, s.regp, b);
      if s.done || ty.vfp != NotVfp {
        if b >= 16 {
          KeepsUp(c.base, ty, s.argp, b);
        }
      }
    }
  }

  lemma {:induction false} AllCovered(c: Call, ret: Return, i: nat)
    requires Prepared(c) && AllNatural(c.types) && c.base % 8 == 0 && i <= |c.types| && (c.inMemory ==> ret.Struct?)
    ensures forall j :: 0 <= j < |c.types| ==> c.types[j].alignment > 0
    ensures Covered(c, CallAt(c, i), BytesAt(ret, c.types, i))
  {
    hide CallStep, AlignUp, Natural, LaidOut, TypeOK;
    AlignmentsPositive(c.types);
    if i > 0 {
      AllCovered(c, ret, i - 1);
      var ty := c.types[i - 1];
      assert Natural(ty);
      if ty.vfp != NotVfp && CallAt(c, i - 1).vi >= |c.vfpArgs| {
        SpillsLate(c, ret, i - 1);
      }
      StepCovered(c, ty, CallAt(c, i - 1), BytesAt(ret, c.types, i - 1));
    }
  }

  // When a candidate finds no registers, at least 16 bytes have been counted.
  lemma SpillsLate(c: Call, ret: Return, i: nat)
    requires Prepared(c) && AllNatural(c.types) && i < |c.types|
    requires c.types[i].vfp != NotVfp && CallAt(c, i).vi >= |c.vfpArgs|
    ensures forall j :: 0 <= j < |c.types| ==> c.types[j].alignment > 0
    ensures BytesAt(ret, c.types, i) >= 16
  {
    hide CallStep, AlignUp, Natural, LowestFit, LowestFree, TypeOK;
    var types := VfpsOf(c.types);
    AlignmentsPositive(c.types);
    EntriesUsed(c, i);
    EntryOf(types, i);
    CountsRegs(ret, c.types, i);
    if LaidOut(types, i).1 {
      StoppedLate(types, i);
    } else {
      StateKept(types, i);
      UsedCount(types, i);
      FailedNone(LaidOut(types, i).0.used, types[i]);
      FailsLate(LaidOut(types, i).0, types[i]);
    }
  }

  // The area suffices for every list unless a complex value is returned in memory.
  lemma FitsAlways(abi: Abi, ret: Return, base: nat, types: seq<ArgType>)
    requires base % 8 == 0 && AllNatural(types) && !(ret.Complex? && InMemory(abi, ret))
    ensures Fits(abi, ret, base, types)
  {
    hide CallAt, SysvAt, BytesAt, Natural, LaidOut;
    var c := CallOf(abi, ret, base, types);
    AlignmentsPositive(types);
    VfpsFine(types);
    AllTypesFine(types);
    EightFour(base);
    var b := BytesAt(ret, types, |types|);
    Aligned(b + (if InMemory(abi, ret) then 4 else 0), 8);
    if c.vfpArgs != [] {
      AllCovered(c, ret, |types|);
    } else {
      SysvFits(c, ret, |types|);
    }
  }

  lemma EightFour(x: nat)
    requires x % 8 == 0
    ensures x % 4 == 0
  {
  }

  lemma AllTypesFine(types: seq<ArgType>)
    requires AllNatural(types)
    ensures forall i {:trigger TypeOK(types[i])} :: 0 <= i < |types| ==> TypeOK(types[i])
  {
    forall i {:trigger TypeOK(types[i])} | 0 <= i < |types| ensures TypeOK(types[i]) {
      assert Natural(types[i]);
    }
  }

  // ---- When it does not fit -------------------------------------------------------------

  function Int(size: nat): ArgType { ArgType(size, size, NotVfp, Raw) }

  const FLOAT := ArgType(4, 4, Floats(1), Raw)

  // With a complex value returned in memory the count starts without the address that the
  // arguments start with, and the four bytes added in the end do not make up for the padding.
  lemma ComplexOverruns(abi: Abi, ret: Return)
    requires ret.Complex? && InMemory(abi, ret)
    ensures var types := if abi == SYSV then [Int(8), Int(4)] else [Int(8), FLOAT, Int(4), Int(8), Int(4)];
            AllNatural(types) && !Fits(abi, ret, 0, types)
  {
    if abi == SYSV {
      SysvOverruns(ret);
    } else {
      VfpOverruns(ret);
    }
  }

  lemma SysvOverruns(ret: Return)
    requires ret.Complex? && InMemory(SYSV, ret)
    ensures var types := [Int(8), Int(4)];
            AllNatural(types) && !Fits(SYSV, ret, 0, types)
  {
    hide BytesAt, AlignUp;
    AlignedIs(0, 8, 0);
    AlignedIs(4, 8, 8);
    AlignedIs(8, 4, 8);
    AlignedIs(4, 4, 4);
    AlignedIs(16, 4, 16);
    AlignedIs(16, 8, 16);
    var types := [Int(8), Int(4)];
    assert Natural(Int(8)) && Natural(Int(4));
    var c := CallOf(SYSV, ret, 0, types);
    assert SysvAt(c, 0) == 4 && SysvAt(c, 1) == 16 && SysvAt(c, 2) == 20;
    BytesFirst(ret, types);
    BytesNext(ret, types, 0);
    BytesNext(ret, types, 1);
    assert BytesAt(ret, types, 1) == 8 && BytesAt(ret, types, 2) == 12;
  }

  lemma VfpOverruns(ret: Return)
    requires ret.Complex? && InMemory(VFP, ret)
    ensures var types := [Int(8), FLOAT, Int(4), Int(8), Int(4)];
            AllNatural(types) && !Fits(VFP, ret, 0, types)
  {
    hide BytesAt, AlignUp;
    AlignedIs(4, 8, 8);
    AlignedIs(8, 4, 8);
    AlignedIs(16, 4, 16);
    AlignedIs(4, 4, 4);
    AlignedIs(20, 8, 24);
    AlignedIs(32, 4, 32);
    AlignedIs(0, 8, 0);
    AlignedIs(12, 4, 12);
    AlignedIs(16, 8, 16);
    AlignedIs(24, 4, 24);
    AlignedIs(32, 8, 32);
    var types := [Int(8), FLOAT, Int(4), Int(8), Int(4)];
    assert Natural(Int(8)) && Natural(Int(4)) && Natural(FLOAT);
    VfpsFine(types);
    FloatLaidOut(VfpsOf(types));
    var c := CallOf(VFP, ret, 0, types);
    assert |c.vfpArgs| == 1;
    assert CallAt(c, 0) == Cursors(4, 16, 0, false, false);
    assert CallAt(c, 1) == Cursors(16, 16, 0, false, true);
    assert CallAt(c, 2) == Cursors(16, 16, 1, false, true);
    assert CallAt(c, 3) == Cursors(16, 20, 1, true, true);
    assert CallAt(c, 4) == Cursors(16, 32, 1, true, true);
    assert CallAt(c, 5) == Cursors(16, 36, 1, true, true);
    BytesFirst(ret, types);
    BytesNext(ret, types, 0);
    BytesNext(ret, types, 1);
    BytesNext(ret, types, 2);
    BytesNext(ret, types, 3);
    BytesNext(ret, types, 4);
    assert BytesAt(ret, types, 1) == 8 && BytesAt(ret, types, 2) == 12;
    assert BytesAt(ret, types, 3) == 16 && BytesAt(ret, types, 4) == 24 && BytesAt(ret, types, 5) == 28;
  }

  lemma FloatLaidOut(types: seq<Vfp>)
    requires types == [NotVfp, Floats(1), NotVfp, NotVfp, NotVfp]
    ensures TypesOK(types) && |LaidOut(types, 5).0.args| == 1
  {
    assert LaidOut(types, 0) == (START, false) && LaidOut(types, 1) == (START, false);
    assert Suits({}, Floats(1), 0);
    var s := LaidOut(types, 2);
    assert !s.1 && |s.0.args| == 1;
    assert LaidOut(types, 3) == s && LaidOut(types, 4) == s && LaidOut(types, 5) == s;
  }

  // The prepared area suffices for every argument list exactly if the value returned is not a
  // complex one that goes to memory.
  lemma SafeIff(abi: Abi, ret: Return)
    ensures Safe(abi, ret) <==> !(ret.Complex? && InMemory(abi, ret))
  {
    hide Fits, InMemory;
    if ret.Complex? && InMemory(abi, ret) {
      ComplexOverruns(abi, ret);
      var types := if abi == SYSV then [Int(8), Int(4)] else [Int(8), FLOAT, Int(4), Int(8), Int(4)];
      assert !Fits(abi, ret, 0, types);
    } else {
      forall base: nat, types {:trigger Fits(abi, ret, base, types)} | base % 8 == 0 && AllNatural(types)
        ensures Fits(abi, ret, base, types)
      {
        FitsAlways(abi, ret, base, types);
      }
    }
  }
}
