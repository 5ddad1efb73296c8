// The stack area of an AArch64 call: arguments from its start upwards, copies of structures from
// its end downwards, in the bytes that were set aside when the cif was prepared.

module A64Bytes {
  import opened Words
  import opened Align
  import P = PrepCif
  import opened A64Args

  // Whether the value returned is a structure, and whether it is returned in memory
  datatype Return = Return(isStruct: bool, inMemory: bool)

  function First(ret: Return): nat { if ret.isStruct then 8 else 0 }

  function Extents(types: seq<ArgType>): seq<P.Extent> {
    seq(|types|, i requires 0 <= i < |types| => P.Extent(Size(types[i]), AlignOf(types[i])))
  }

  // The running count of ffi_prep_cif_core before argument i
  function BytesAt(ret: Return, types: seq<ArgType>, i: nat): nat
    requires AllOK(types) && i <= |types|
  {
    P.BytesAt(8, First(ret), Extents(types), i)
  }

  lemma ExtentsAligned(types: seq<ArgType>)
    requires AllOK(types)
    ensures |Extents(types)| == |types| && forall j :: 0 <= j < |types| ==> Extents(types)[j].alignment > 0
  {
  }

  lemma BytesFirst(ret: Return, types: seq<ArgType>)
    requires AllOK(types)
    ensures BytesAt(ret, types, 0) == First(ret) == if ret.isStruct then 8 else 0
  {
  }

  lemma BytesNext(ret: Return, types: seq<ArgType>, i: nat)
    requires i < |types| && AllOK(types)
    ensures BytesAt(ret, types, i + 1) ==
            AlignUp(BytesAt(ret, types, i), AlignOf(types[i])) + AlignUp(Size(types[i]), 8)
  {
    hide AlignUp;
  }

  // cif->bytes, after ffi_prep_cif_machdep
  function CifBytes(ret: Return, types: seq<ArgType>): nat
    requires AllOK(types)
  {
    AlignUp(BytesAt(ret, types, |types|) + (if ret.inMemory then 8 else 0), 16)
  }

  method PrepBytes(ret: Return, types: seq<ArgType>) returns (bytes: nat)
    requires AllOK(types)
    ensures bytes == CifBytes(ret, types)
  {
    hide AlignUp, Extents;
    AlignedIs(8, 8, 8);
    ExtentsAligned(types);
    bytes := P.PrepCore(8, ret.isStruct, Extents(types));
    if ret.inMemory {
      bytes := bytes + 8;
    }
    bytes := AlignUp(bytes, 16);
  }

  // The bytes set aside are the least multiple of 16 that covers the running count and, for a value
  // returned in memory, a word.
  lemma LeastCover(ret: Return, types: seq<ArgType>, n: nat)
    requires AllOK(types)
    ensures var count := BytesAt(ret, types, |types|) + (if ret.inMemory then 8 else 0);
            && CifBytes(ret, types) % 16 == 0 && count <= CifBytes(ret, types)
            && (n % 16 == 0 && count <= n ==> CifBytes(ret, types) <= n)
  {
    hide AlignUp, BytesAt;
    var count := BytesAt(ret, types, |types|) + (if ret.inMemory then 8 else 0);
    Aligned(count, 16);
    if n % 16 == 0 && count <= n < CifBytes(ret, types) {
      Multiples(n, CifBytes(ret, types), 16);
    }
  }

  // ---- Tallies by the way arguments are passed ------------------------------------------

  datatype Way = InRegisters | Stacked | RefInRegister | RefStacked

  function WayOf(ty: ArgType, slot: Slot): Way {
    if ByRef(ty) then (if slot.OnStack? then RefStacked else RefInRegister)
    else if slot.OnStack? then Stacked
    else InRegisters
  }

  // The padding on the stack in front of an argument aligned to more than a word
  function Pad(ty: ArgType, nsaa: nat): nat {
    var n := AlignUp(nsaa, 8);
    Aligned(n, Widened(AlignOf(ty)));
    AlignUp(n, Widened(AlignOf(ty))) - n
  }

  // What the types before i contribute to each: bytes in registers, bytes on the stack, bytes of
  // copied structures, how many pointers to copies are on the stack, and the padding there.
  datatype Tally = Tally(regs: nat, stack: nat, refs: nat, spilled: nat, pads: nat)

  function Add(t: Tally, ty: ArgType, slot: Slot, nsaa: nat): Tally {
    var n := AlignUp(Size(ty), 8);
    match WayOf(ty, slot)
    case InRegisters => t.(regs := t.regs + n)
    case Stacked => t.(stack := t.stack + n, pads := t.pads + Pad(ty, nsaa))
    case RefInRegister => t.(refs := t.refs + n)
    case RefStacked => t.(refs := t.refs + n, spilled := t.spilled + 1, pads := t.pads + Pad(ty, nsaa))
  }

  function TallyAt(types: seq<ArgType>, size: nat, i: nat): Tally
    requires AllOK(types) && i <= |types|
  {
    if i == 0 then Tally(0, 0, 0, 0, 0)
    else
      Add(TallyAt(types, size, i - 1), types[i - 1], CallSlot(types, size, i - 1), CallAt(types, size, i - 1).nsaa)
  }

  // How much the size falls short of a multiple of a
  function Short(size: nat, a: nat): nat
    requires a > 0
  {
    Aligned(size, a);
    AlignUp(size, a) - size
  }

  // How far copies reach down from the end, with one more of type ty after others that use so much:
  // the copy starts at a multiple of its alignment.
  function UseWith(size: nat, use: nat, ty: ArgType): nat
    requires AlignOf(ty) > 0
  {
    var short := Short(size, AlignOf(ty));
    Aligned(use + Size(ty) + short, AlignOf(ty));
    AlignUp(use + Size(ty) + short, AlignOf(ty)) - short
  }

  function StructUse(types: seq<ArgType>, size: nat, i: nat): nat
    requires AllOK(types) && i <= |types|
  {
    if i == 0 then 0
    else if ByRef(types[i - 1]) then UseWith(size, StructUse(types, size, i - 1), types[i - 1])
    else StructUse(types, size, i - 1)
  }

  predicate Narrow(ty: ArgType) { AlignOf(ty) == 1 || AlignOf(ty) == 2 || AlignOf(ty) == 4 || AlignOf(ty) == 8 }

  ghost predicate AllNarrow(types: seq<ArgType>) {
    AllOK(types) && forall i {:trigger types[i]} :: 0 <= i < |types| ==> Narrow(types[i])
  }

  // ---- The argument area ----------------------------------------------------------------

  lemma NsaaStep(ty: ArgType, s: ArgState)
    requires TypeOK(ty)
    ensures var (slot, t) := CallStep(ty, s);
            AlignUp(t.nsaa, 8) == AlignUp(s.nsaa, 8)
              + if !slot.OnStack? then 0 else Pad(ty, s.nsaa) + if ByRef(ty) then 8 else AlignUp(Size(ty), 8)
  {
    hide AlignUp;
    var a, n := Widened(AlignOf(ty)), AlignUp(s.nsaa, 8);
    AlignTwice(s.nsaa, 8, a);
    Aligned(n, a);
    MultipleOf(AlignUp(n, a), a, 8);
    AlignShift(Size(ty), AlignUp(n, a), 8);
    AlignShift(8, AlignUp(n, a), 8);
    AlignedIs(8, 8, 8);
  }

  // The rounded NSAA is what was put on the stack, word by word, with the padding there.
  lemma {:induction false} NsaaIs(types: seq<ArgType>, size: nat, i: nat)
    requires AllOK(types) && i <= |types|
    ensures var t := TallyAt(types, size, i);
            AlignUp(CallAt(types, size, i).nsaa, 8) == t.stack + 8 * t.spilled + t.pads
  {
    hide AlignUp, CallStep, Pad;
    if i == 0 {
      AlignedIs(0, 8, 0);
    } else {
      NsaaIs(types, size, i - 1);
      NsaaStep(types[i - 1], CallAt(types, size, i - 1));
    }
  }

  // Narrow alignments never pad the stack.
  lemma {:induction false} NoPads(types: seq<ArgType>, size: nat, i: nat)
    requires AllNarrow(types) && i <= |types|
    ensures TallyAt(types, size, i).pads == 0
  {
    hide AlignUp, CallSlot;
    if i > 0 {
      NoPads(types, size, i - 1);
      var nsaa := CallAt(types, size, i - 1).nsaa;
      Aligned(nsaa, 8);
      AlignedIs(AlignUp(nsaa, 8), 8, AlignUp(nsaa, 8));
    }
  }

  // The bytes of all arguments
  function Counted(t: Tally): nat { t.regs + t.stack + t.refs }

  // Every argument is counted.
  lemma {:induction false} CountCovers(ret: Return, types: seq<ArgType>, size: nat, i: nat)
    requires AllOK(types) && i <= |types|
    ensures First(ret) + Counted(TallyAt(types, size, i)) <= BytesAt(ret, types, i)
  {
    hide AlignUp, CallAt, CallSlot, BytesAt, TallyAt, Counted, TypeOK, First;
    if i == 0 {
      BytesFirst(ret, types);
      NothingTold(types, size);
    } else {
      CountCovers(ret, types, size, i - 1);
      BytesNext(ret, types, i - 1);
      CountNext(types, size, i - 1);
      PowerPositive(types[i - 1]);
      NoLess(BytesAt(ret, types, i - 1), AlignOf(types[i - 1]));
    }
  }

  lemma PowerPositive(ty: ArgType)
    requires TypeOK(ty)
    ensures AlignOf(ty) > 0
  {
  }

  lemma AddCounts(t: Tally, ty: ArgType, slot: Slot, nsaa: nat)
    ensures Counted(Add(t, ty, slot, nsaa)) == Counted(t) + AlignUp(Size(ty), 8)
  {
    hide AlignUp, Pad;
  }

  // Narrow alignments never pad the count either.
  lemma {:induction false} CountIs(ret: Return, types: seq<ArgType>, size: nat, i: nat)
    requires AllNarrow(types) && i <= |types|
    ensures BytesAt(ret, types, i) == First(ret) + Counted(TallyAt(types, size, i)) && BytesAt(ret, types, i) % 8 == 0
  {
    hide AlignUp, CallAt, CallSlot, BytesAt, TallyAt, Counted, TypeOK, Narrow, First;
    if i == 0 {
      BytesFirst(ret, types);
      FirstWhole(ret);
      NothingTold(types, size);
    } else {
      CountIs(ret, types, size, i - 1);
      BytesNext(ret, types, i - 1);
      CountNext(types, size, i - 1);
      CountNarrow(BytesAt(ret, types, i - 1), types[i - 1]);
    }
  }

  lemma NothingTold(types: seq<ArgType>, size: nat)
    requires AllOK(types)
    ensures Counted(TallyAt(types, size, 0)) == 0
  {
  }

  lemma CountNext(types: seq<ArgType>, size: nat, i: nat)
    requires AllOK(types) && i < |types|
    ensures Counted(TallyAt(types, size, i + 1)) == Counted(TallyAt(types, size, i)) + AlignUp(Size(types[i]), 8)
  {
    hide AlignUp, CallAt, CallSlot, Add, TypeOK;
    AddCounts(TallyAt(types, size, i), types[i], CallSlot(types, size, i), CallAt(types, size, i).nsaa);
  }

  lemma FirstWhole(ret: Return)
    ensures First(ret) % 8 == 0
  {
  }

  lemma CountNarrow(b: nat, ty: ArgType)
    requires Narrow(ty) && b % 8 == 0
    ensures AlignUp(b, AlignOf(ty)) == b && (b + AlignUp(Size(ty), 8)) % 8 == 0
  {
    hide AlignUp;
    NoPad(b, ty);
    Aligned(Size(ty), 8);
  }

  lemma NoPad(b: nat, ty: ArgType)
    requires Narrow(ty) && b % 8 == 0
    ensures AlignUp(b, AlignOf(ty)) == b
  {
    hide AlignUp;
    if AlignOf(ty) == 1 {
      AlignedIs(b, 1, b);
    } else if AlignOf(ty) == 2 {
      AlignedIs(b, 2, b);
    } else if AlignOf(ty) == 4 {
      AlignedIs(b, 4, b);
    } else {
      AlignedIs(b, 8, b);
    }
  }

  lemma NoRefStep(ty: ArgType, s: ArgState, b: nat)
    requires TypeOK(ty) && !ByRef(ty) && AlignUp(s.nsaa, 8) <= b && b % 8 == 0
    ensures AlignUp(CallStep(ty, s).1.nsaa, 8) <= AlignUp(b, AlignOf(ty)) + AlignUp(Size(ty), 8)
    ensures (AlignUp(b, AlignOf(ty)) + AlignUp(Size(ty), 8)) % 8 == 0
  {
    hide AlignUp, PowerOrWide;
    AlignsUnder(s.nsaa, b, ty);
    Aligned(Size(ty), 8);
    AlignShift(Size(ty), AlignUp(s.nsaa, Widened(AlignOf(ty))), 8);
  }

  // Without copies the argument area suffices for every list, whatever the alignments.
  lemma {:induction false} NoRefFits(ret: Return, types: seq<ArgType>, size: nat, i: nat)
    requires AllOK(types) && i <= |types| && forall j :: 0 <= j < |types| ==> !ByRef(types[j])
    ensures AlignUp(CallAt(types, size, i).nsaa, 8) <= BytesAt(ret, types, i) && BytesAt(ret, types, i) % 8 == 0
  {
    hide AlignUp, CallStep, TypeOK;
    if i == 0 {
      AlignedIs(0, 8, 0);
    } else {
      NoRefFits(ret, types, size, i - 1);
      NoRefStep(types[i - 1], CallAt(types, size, i - 1), BytesAt(ret, types, i - 1));
    }
  }

  lemma AlignsUnder(nsaa: nat, b: nat, ty: ArgType)
    requires TypeOK(ty) && AlignUp(nsaa, 8) <= b && b % 8 == 0
    ensures AlignUp(nsaa, Widened(AlignOf(ty))) <= AlignUp(b, AlignOf(ty))
    ensures AlignUp(nsaa, Widened(AlignOf(ty))) % 8 == 0 && AlignUp(b, AlignOf(ty)) % 8 == 0 &&
            b <= AlignUp(b, AlignOf(ty))
  {
    hide AlignUp;
    var a := AlignOf(ty);
    Aligned(b, a);
    if a <= 8 {
      assert Narrow(ty);
      NoPad(b, ty);
      Aligned(nsaa, 8);
    } else {
      WideAligned(nsaa, b, a);
    }
  }

  lemma WideAligned(nsaa: nat, b: nat, a: nat)
    requires a > 8 && a % 8 == 0 && AlignUp(nsaa, 8) <= b
    ensures AlignUp(nsaa, a) <= AlignUp(b, a) && AlignUp(nsaa, a) % 8 == 0 && AlignUp(b, a) % 8 == 0
  {
    hide AlignUp;
    AlignTwice(nsaa, 8, a);
    AlignMono(AlignUp(nsaa, 8), b, a);
    Aligned(nsaa, a);
    Aligned(b, a);
    MultipleOf(AlignUp(nsaa, a), a, 8);
    MultipleOf(AlignUp(b, a), a, 8);
  }

  // ---- The structure area ---------------------------------------------------------------

  lemma DownIsUp(end: nat, x: nat, a: nat)
    requires a > 0 && end % a == 0
    ensures AlignDown(end - x, a) == end - AlignUp(x, a)
  {
    hide AlignUp, AlignDown;
    Aligned(x, a);
    var y, k, m := AlignUp(x, a), end / a, AlignUp(x, a) / a;
    assert end == a * k && y == a * m;
    assert a * (k - m) == end - y;
    DownTo(end - x, a, k - m, y - x);
  }

  lemma DownTo(x: int, a: nat, k: int, r: nat)
    requires a > 0 && x == a * k + r && r < a
    ensures AlignDown(x, a) == a * k
  {
    var q := x / a;
    assert x == a * q + x % a;
    assert a * (q - k) == r - x % a;
    if q < k {
      AtLeastOnce(a, k - q);
    } else if q > k {
      AtLeastOnce(a, q - k);
    }
  }

  // The same with an end that is no multiple
  lemma DownIsShort(end: nat, x: nat, a: nat)
    requires a > 0
    ensures AlignDown(end - x, a) == end - (AlignUp(x + Short(end, a), a) - Short(end, a))
  {
    hide AlignUp, AlignDown;
    Aligned(end, a);
    DownIsUp(AlignUp(end, a), x + Short(end, a), a);
  }

  lemma NarrowDivides(end: nat, ty: ArgType)
    requires end % 8 == 0 && Narrow(ty)
    ensures end % AlignOf(ty) == 0
  {
    if AlignOf(ty) == 1 {
    } else if AlignOf(ty) == 2 {
    } else if AlignOf(ty) == 4 {
    }
  }

  lemma AreaStep(ty: ArgType, s: ArgState)
    requires TypeOK(ty)
    ensures CallStep(ty, s).1.nextStructArea == if ByRef(ty) then StructDest(s, ty) else s.nextStructArea
  {
  }

  lemma {:induction false} StructAreaIs(types: seq<ArgType>, size: nat, i: nat)
    requires AllOK(types) && i <= |types|
    ensures CallAt(types, size, i).nextStructArea == size - StructUse(types, size, i)
  {
    hide AlignUp, AlignDown, CallStep, Short;
    if i > 0 {
      StructAreaIs(types, size, i - 1);
      var ty := types[i - 1];
      AreaStep(ty, CallAt(types, size, i - 1));
      if ByRef(ty) {
        DownIsShort(size, StructUse(types, size, i - 1) + Size(ty), AlignOf(ty));
      }
    }
  }

  // Structures by reference are aligned to no more than a pointer is.
  ghost predicate AllPlain(types: seq<ArgType>) {
    AllOK(types) && forall i {:trigger types[i]} :: 0 <= i < |types| ==> PlainRef(types[i])
  }

  // Nothing is short of such an alignment.
  lemma PlainUse(size: nat, use: nat, ty: ArgType)
    requires TypeOK(ty) && PlainRef(ty) && ByRef(ty) && size % 8 == 0
    ensures Narrow(ty) && UseWith(size, use, ty) == AlignUp(use + Size(ty), AlignOf(ty))
  {
    hide AlignUp;
    NarrowDivides(size, ty);
    AlignedIs(size, AlignOf(ty), size);
  }

  // The copies take no more than was counted for the structures.
  lemma {:induction false} UseBounded(types: seq<ArgType>, size: nat, i: nat)
    requires AllPlain(types) && i <= |types| && size % 8 == 0
    ensures AlignUp(StructUse(types, size, i), 8) <= TallyAt(types, size, i).refs
  {
    hide AlignUp, CallSlot, Pad, UseWith, TypeOK;
    if i == 0 {
      AlignedIs(0, 8, 0);
    } else {
      UseBounded(types, size, i - 1);
      var u, ty := StructUse(types, size, i - 1), types[i - 1];
      if ByRef(ty) {
        PlainUse(size, u, ty);
        UseStep(u, ty);
      }
    }
  }

  lemma UseStep(u: nat, ty: ArgType)
    requires Narrow(ty)
    ensures AlignUp(AlignUp(u + Size(ty), AlignOf(ty)), 8) <= AlignUp(u, 8) + AlignUp(Size(ty), 8)
  {
    hide AlignUp;
    Aligned(Size(ty), 8);
    Aligned(u, 8);
    var top := AlignUp(u, 8) + AlignUp(Size(ty), 8);
    NarrowDivides(top, ty);
    UpTo(u + Size(ty), AlignOf(ty), top);
    UpTo(AlignUp(u + Size(ty), AlignOf(ty)), 8, top);
  }

  lemma UpTo(x: nat, a: nat, top: nat)
    requires a > 0 && x <= top && top % a == 0
    ensures AlignUp(x, a) <= top
  {
    AlignMono(x, top, a);
    AlignedIs(top, a, top);
  }

  ghost predicate WholeWords(types: seq<ArgType>) {
    forall j :: 0 <= j < |types| && ByRef(types[j]) ==> Size(types[j]) % 8 == 0
  }

  // Structures of whole words take just what was counted.
  lemma {:induction false} UseExact(types: seq<ArgType>, size: nat, i: nat)
    requires AllPlain(types) && i <= |types| && WholeWords(types) && size % 8 == 0
    ensures StructUse(types, size, i) == TallyAt(types, size, i).refs && StructUse(types, size, i) % 8 == 0
  {
    hide AlignUp, CallSlot, Pad, UseWith, TypeOK;
    if i > 0 {
      UseExact(types, size, i - 1);
      var u, ty := StructUse(types, size, i - 1), types[i - 1];
      if ByRef(ty) {
        PlainUse(size, u, ty);
        NoPad(u + Size(ty), ty);
        AlignedIs(Size(ty), 8, Size(ty));
      }
    }
  }

  // ---- Do the two meet? -----------------------------------------------------------------

  // After the call has placed all arguments, the areas share no word.
  ghost predicate Disjoint(types: seq<ArgType>, size: nat)
    requires AllOK(types)
  {
    var s := CallAt(types, size, |types|);
    AlignUp(s.nsaa, 8) <= s.nextStructArea
  }

  lemma SizeFacts(ret: Return, types: seq<ArgType>)
    requires AllOK(types)
    ensures BytesAt(ret, types, |types|) <= CifBytes(ret, types) && CifBytes(ret, types) % 8 == 0
  {
    hide AlignUp, BytesAt;
    Aligned(BytesAt(ret, types, |types|) + (if ret.inMemory then 8 else 0), 16);
    MultipleOf(CifBytes(ret, types), 16, 8);
  }

  // Arguments and copies together need at most the prepared bytes, a word for every pointer to a
  // copy that found no register, and the padding on the stack; narrow alignments need no padding.
  lemma AreaBound(ret: Return, types: seq<ArgType>)
    requires AllPlain(types)
    ensures var size, n := CifBytes(ret, types), |types|;
            var t := TallyAt(types, size, n);
            && AlignUp(CallAt(types, size, n).nsaa, 8) + AlignUp(StructUse(types, size, n), 8)
                 <= size + 8 * t.spilled + t.pads
            && (AllNarrow(types) ==> t.pads == 0)
            && CallAt(types, size, n).nextStructArea == size - StructUse(types, size, n) >= 0
  {
    hide AlignUp, CallAt, TallyAt, StructUse, BytesAt, CifBytes;
    var size, n := CifBytes(ret, types), |types|;
    SizeFacts(ret, types);
    NsaaIs(types, size, n);
    CountCovers(ret, types, size, n);
    StructAreaIs(types, size, n);
    UseBounded(types, size, n);
    Aligned(StructUse(types, size, n), 8);
    if AllNarrow(types) {
      NoPads(types, size, n);
    }
  }

  // For every list the areas stay apart exactly if what is stacked, the spilled pointers, the
  // padding on the stack and the copies fit.
  lemma DisjointIff(types: seq<ArgType>, size: nat)
    requires AllOK(types)
    ensures var t := TallyAt(types, size, |types|);
            Disjoint(types, size) <==> t.stack + 8 * t.spilled + t.pads + StructUse(types, size, |types|) <= size
  {
    hide AlignUp, CallAt, TallyAt, StructUse;
    NsaaIs(types, size, |types|);
    StructAreaIs(types, size, |types|);
  }

  // In words a caller can count: enough bytes of other arguments must be in registers, or counted
  // for no argument, to make room for the spilled pointers and the padding; if structures are whole
  // words, just that.
  lemma RoomForPointers(ret: Return, types: seq<ArgType>)
    requires AllPlain(types)
    ensures var size := CifBytes(ret, types);
            var t := TallyAt(types, size, |types|);
            var spare := size - Counted(t);
            && spare >= 0
            && (8 * t.spilled + t.pads <= t.regs + spare ==> Disjoint(types, size))
            && (WholeWords(types) ==> (Disjoint(types, size) <==> 8 * t.spilled + t.pads <= t.regs + spare))
  {
    hide AlignUp, CallAt, TallyAt, StructUse, BytesAt, CifBytes, WholeWords, Disjoint;
    var size, n := CifBytes(ret, types), |types|;
    SizeFacts(ret, types);
    DisjointIff(types, size);
    CountCovers(ret, types, size, n);
    UseBounded(types, size, n);
    Aligned(StructUse(types, size, n), 8);
    if WholeWords(types) {
      UseExact(types, size, n);
    }
  }

  // Ten structures of 24 bytes: eight pointers fill the registers, and the other two land on the
  // copies, which take all of the area.
  lemma TenStructsOverlap()
    ensures var types := seq(10, i => Composite(24, 8));
            AllNarrow(types) && !Disjoint(types, CifBytes(Return(false, false), types))
  {
    var types := seq(10, i => Composite(24, 8));
    var ret := Return(false, false);
    var size := CifBytes(ret, types);
    assert AllNarrow(types);
    TenStructs(types, size, 10);
    RoomForPointers(ret, types);
    CountIs(ret, types, size, 10);
    AlignedIs(240, 16, 240);
  }

  lemma {:induction false} TenStructs(types: seq<ArgType>, size: nat, k: nat)
    requires AllNarrow(types) && |types| == 10 && k <= 10 && forall i :: 0 <= i < 10 ==> types[i] == Composite(24, 8)
    ensures CallAt(types, size, k).ngrn == (if k <= 8 then k else 8)
    ensures TallyAt(types, size, k) == Tally(0, 0, 24 * k, if k <= 8 then 0 else k - 8, 0)
  {
    hide Pad;
    NoPads(types, size, k);
    if k > 0 {
      TenStructs(types, size, k - 1);
      AlignedIs(24, 8, 24);
    }
  }

  // The second way to meet: no pointer is spilled, and every structure by reference is plainly
  // aligned, but the floating-point values on the stack alternate between 4 and 16 bytes.
  function MixedType(i: nat): ArgType {
    if i == 0 || i == 2 then Hfa(4, 4, 4)
    else if i == 1 || i % 3 == 0 then Hfa(1, 4, 4)
    else if i % 3 == 1 then Composite(24, 8)
    else Hfa(1, 16, 16)
  }

  function MixedTypes(): seq<ArgType> { seq(27, i requires 0 <= i < 27 => MixedType(i)) }

  lemma MixedFine()
    ensures AllPlain(MixedTypes()) && |MixedTypes()| == 27
  {
  }

  // The padding on the stack, which ffi_prep_cif_core counted in other places, makes the areas meet.
  lemma PaddingOverlaps()
    ensures AllPlain(MixedTypes())
    ensures var types, ret := MixedTypes(), Return(false, false);
            TallyAt(types, CifBytes(ret, types), |types|).spilled == 0 && !Disjoint(types, CifBytes(ret, types))
  {
    hide AlignUp, CallAt, TallyAt, BytesAt, MixedTypes;
    MixedFine();
    var types, ret := MixedTypes(), Return(false, false);
    MixedCount(8);
    AlignedIs(432, 16, 432);
    MixedAt(432, 8);
    AlignedIs(272, 8, 272);
  }

  // The count and the state after the first k rounds of three
  lemma {:induction false} MixedCount(k: nat)
    requires k <= 8
    ensures AllPlain(MixedTypes())
    ensures BytesAt(Return(false, false), MixedTypes(), 3 + 3 * k) == if k == 0 then 40 else 48 + 48 * k
  {
    hide AlignUp, BytesAt;
    MixedFine();
    MixedSizes();
    var types, ret := MixedTypes(), Return(false, false);
    if k == 0 {
      BytesFirst(ret, types);
      BytesNext(ret, types, 0);
      BytesNext(ret, types, 1);
      BytesNext(ret, types, 2);
      AlignedIs(0, 4, 0);
      AlignedIs(16, 4, 16);
      AlignedIs(24, 4, 24);
    } else {
      MixedCount(k - 1);
      var i, b := 3 * k, BytesAt(ret, types, 3 * k);
      assert types[i] == Hfa(1, 4, 4) && types[i + 1] == Composite(24, 8) && types[i + 2] == Hfa(1, 16, 16);
      BytesNext(ret, types, i);
      BytesNext(ret, types, i + 1);
      BytesNext(ret, types, i + 2);
      AlignedIs(b, 4, b);
      AlignedIs(b + 8, 8, b + 8);
      AlignedIs(b + 32, 16, if k == 1 then 80 else b + 32);
    }
  }

  lemma MixedSizes()
    ensures AlignUp(4, 8) == 8 && AlignUp(16, 8) == 16 && AlignUp(24, 8) == 24
  {
    AlignedIs(4, 8, 8);
    AlignedIs(16, 8, 16);
    AlignedIs(24, 8, 24);
  }

  lemma NextAt(types: seq<ArgType>, size: nat, i: nat)
    requires AllOK(types) && i < |types|
    ensures var (slot, t) := CallStep(types[i], CallAt(types, size, i));
            && CallAt(types, size, i + 1) == t
            && ((slot.OnStack? && ByRef(types[i]))
                || TallyAt(types, size, i + 1).spilled == TallyAt(types, size, i).spilled)
  {
    hide AlignUp, CallStep, Pad;
  }

  lemma {:induction false} MixedAt(size: nat, k: nat)
    requires k <= 8 && size % 8 == 0
    ensures AllPlain(MixedTypes())
    ensures CallAt(MixedTypes(), size, 3 + 3 * k) == ArgState(k, 8, 16 + 32 * k, size - 24 * k)
    ensures TallyAt(MixedTypes(), size, 3 + 3 * k).spilled == 0
  {
    hide CallAt, CallStep, TallyAt, Init;
    MixedFine();
    var types := MixedTypes();
    if k == 0 {
      StartAt(types, size);
      FirstRound(size);
      NextAt(types, size, 0);
      NextAt(types, size, 1);
      NextAt(types, size, 2);
    } else {
      MixedAt(size, k - 1);
      var i := 3 * k;
      assert types[i] == Hfa(1, 4, 4) && types[i + 1] == Composite(24, 8) && types[i + 2] == Hfa(1, 16, 16);
      MixedRound(k - 1, 16 + 32 * (k - 1), size - 24 * (k - 1));
      NextAt(types, size, i);
      NextAt(types, size, i + 1);
      NextAt(types, size, i + 2);
    }
  }

  lemma StartAt(types: seq<ArgType>, size: nat)
    requires AllOK(types)
    ensures CallAt(types, size, 0) == ArgState(0, 0, 0, size) && TallyAt(types, size, 0).spilled == 0
  {
  }

  lemma FirstRound(size: nat)
    ensures CallStep(Hfa(4, 4, 4), ArgState(0, 0, 0, size)).1 == ArgState(0, 4, 0, size)
    ensures CallStep(Hfa(1, 4, 4), ArgState(0, 4, 0, size)).1 == ArgState(0, 5, 0, size)
    ensures CallStep(Hfa(4, 4, 4), ArgState(0, 5, 0, size)).1 == ArgState(0, 8, 16, size)
  {
    hide AlignUp;
    AlignedIs(0, 8, 0);
  }

  lemma MixedRound(k: nat, n: nat, area: int)
    requires area % 8 == 0 && n % 16 == 0 && k < 8
    ensures CallStep(Hfa(1, 4, 4), ArgState(k, 8, n, area)).1 == ArgState(k, 8, n + 4, area)
    ensures CallStep(Composite(24, 8), ArgState(k, 8, n + 4, area)) == (InX(k), ArgState(k + 1, 8, n + 4, area - 24))
    ensures CallStep(Hfa(1, 16, 16), ArgState(k + 1, 8, n + 4, area - 24)).1 == ArgState(k + 1, 8, n + 32, area - 24)
  {
    hide AlignUp;
    AlignedIs(n, 8, n);
    AlignedIs(n + 4, 16, n + 16);
  }
}
