// The bytes of an ARM hard-float call: ffi_prep_args_VFP writes them, ffi_prep_incoming_args_VFP
// tells where they are, and every argument arrives whole.

module ArmCalls {
  import opened Words
  import opened Align
  import opened Bytes
  import opened VfpLayout
  import opened ArmArgs

  // The stack image and the load area of the VFP registers
  datatype Image = Image(stack: Memory, vfp: Memory)

  // The bytes ffi_put_arg stores for a little-endian value: small integers are widened to a word.
  function PutBytes(ty: ArgType, data: seq<Byte>): (s: seq<Byte>)
    requires |data| == ty.size > 0 && (ty.extension != Raw ==> ty.size <= 2)
    ensures data <= s && |s| <= PutSize(ty)
  {
    Aligned(ty.size, 4);
    AlignedIs(1, 4, 4);
    AlignedIs(2, 4, 4);
    match ty.extension
    case Raw => data
    case Unsigned => Lengthened(data, false, 4)
    case Signed => Lengthened(data, true, 4)
  }

  function Put(im: Image, slot: Slot, bytes: seq<Byte>): Image {
    match slot
    case InVfp(reg) => im.(vfp := Write(im.vfp, 4 * reg, bytes))
    case InMem(addr) => im.(stack := Write(im.stack, addr, bytes))
  }

  function Get(im: Image, slot: Slot, n: nat): seq<int> {
    match slot
    case InVfp(reg) => Read(im.vfp, 4 * reg, n)
    case InMem(addr) => Read(im.stack, addr, n)
  }

  // The values of the arguments, and the return address if one is passed.
  ghost predicate DataOK(c: Call, data: seq<seq<Byte>>, rvalue: seq<Byte>) {
    |data| == |c.types| && |rvalue| == 4 && forall i :: 0 <= i < |data| ==> |data[i]| == c.types[i].size
  }

  ghost function VfpsOf(types: seq<ArgType>): seq<Vfp> { seq(|types|, i requires 0 <= i < |types| => types[i].vfp) }

  // The call was prepared: vfpArgs is what layout_vfp_args left in the cif.
  ghost predicate Prepared(c: Call) {
    CallOK(c) && TypesOK(VfpsOf(c.types)) && c.vfpArgs == LaidOut(VfpsOf(c.types), |c.types|).0.args
  }

  ghost function ImageAt(c: Call, data: seq<seq<Byte>>, rvalue: seq<Byte>, i: nat): Image
    requires CallOK(c) && DataOK(c, data, rvalue) && i <= |c.types|
  {
    if i == 0 then Image(if c.inMemory then Write(map[], c.base, rvalue) else map[], map[])
    else
      assert TypeOK(c.types[i - 1]);
      Put(ImageAt(c, data, rvalue, i - 1), CallSlot(c, i - 1), PutBytes(c.types[i - 1], data[i - 1]))
  }

  // ffi_prep_args_VFP
  method PrepArgs(c: Call, rvalue: seq<Byte>, data: seq<seq<Byte>>) returns (im: Image)
    requires CallOK(c) && DataOK(c, data, rvalue)
    ensures im == ImageAt(c, data, rvalue, |c.types|)
  {
    hide At, Padded, PutSize, PutBytes, TypeOK;
    im := Image(map[], map[]);
    var vi, stackUsed, done := 0, false, false;
    var regp: nat := c.base;
    var argp: nat := regp + 16;
    var eo := argp;
    if c.inMemory {
      im := im.(stack := Write(im.stack, regp, rvalue));
      regp := regp + 4;
    }
    for i := 0 to |c.types|
      invariant Cursors(regp, argp, vi, stackUsed, done) == CallAt(c, i) && im == ImageAt(c, data, rvalue, i)
    {
      var ty := c.types[i];
      assert TypeOK(ty);
      ByTypes(ty);
      var bytes := PutBytes(ty, data[i]);
      var isVfp := ty.vfp != NotVfp;
      if vi < |c.vfpArgs| && isVfp {
        im := im.(vfp := Write(im.vfp, 4 * c.vfpArgs[vi], bytes));
        vi := vi + 1;
        continue;
      } else if !done && !isVfp {
        var tregp := At(ty, regp);
        var size := Padded(ty);
        if tregp + size <= eo {
          im := im.(stack := Write(im.stack, tregp, bytes));
          regp := tregp + PutSize(ty);
          done := regp == argp;
          continue;
        } else if !stackUsed {
          stackUsed, done := true, true;
          im := im.(stack := Write(im.stack, tregp, bytes));
          argp := tregp + PutSize(ty);
          continue;
        }
      }
      stackUsed := true;
      argp := At(ty, argp);
      im := im.(stack := Write(im.stack, argp, bytes));
      argp := argp + PutSize(ty);
    }
  }

  // ffi_prep_incoming_args_VFP
  method PrepIncoming(c: Call) returns (avalue: seq<Slot>)
    ensures |avalue| == |c.types| && forall i :: 0 <= i < |avalue| ==> avalue[i] == ClosureSlot(c, i)
  {
    avalue := [];
    var vi, stackUsed, done := 0, false, false;
    var regp: nat := c.base;
    var argp: nat := regp + 16;
    var eo := argp;
    if c.inMemory {
      regp := regp + 4;
    }
    for i := 0 to |c.types|
      invariant Cursors(regp, argp, vi, stackUsed, done) == ClosureAt(c, i)
      invariant |avalue| == i && forall j :: 0 <= j < i ==> avalue[j] == ClosureSlot(c, j)
    {
      var ty := c.types[i];
      var isVfp := ty.vfp != NotVfp;
      var z := ty.size;
      if vi < |c.vfpArgs| && isVfp {
        avalue := avalue + [InVfp(c.vfpArgs[vi])];
        vi := vi + 1;
        continue;
      } else if !done && !isVfp {
        var tregp := At(ty, regp);
        z := Padded(ty);
        if tregp + z <= eo || !stackUsed {
          avalue := avalue + [InMem(tregp)];
          regp := tregp + z;
          if regp > eo {
            argp := regp;
          }
          if regp >= eo {
            done, stackUsed := true, true;
          }
          continue;
        }
      }
      stackUsed := true;
      argp := At(ty, argp);
      avalue := avalue + [InMem(argp)];
      argp := argp + z;
    }
  }

  // ---- Nothing is overwritten -----------------------------------------------------------

  // What the call's cursors say about what lies below them.
  ghost predicate CursorsOK(c: Call, s: Cursors) {
    && c.base <= s.regp <= c.base + 16 <= s.argp
    && (!s.stackUsed ==> s.argp == c.base + 16)
  }

  // An earlier argument lies below the register cursor, or below the stack cursor and in core
  // registers only if those are given up.
  ghost predicate Below(c: Call, s: Cursors, a: nat, size: nat) {
    a + size <= s.regp || (a + size <= s.argp && s.stackUsed && (s.done || a >= c.base + 16))
  }

  lemma StepBelow(c: Call, ty: ArgType, s: Cursors, a: nat, size: nat)
    requires c.base % 4 == 0 && TypeOK(ty) && CursorsOK(c, s)
    ensures var (slot, t) := CallStep(c, ty, s);
            && CursorsOK(c, t)
            && (Below(c, s, a, size) ==> Below(c, t, a, size))
            && (slot.InMem? ==> Below(c, t, slot.addr, PutSize(ty)))
            && (slot.InMem? && Below(c, s, a, size) ==> a + size <= slot.addr || slot.addr + PutSize(ty) <= a)
  {
    hide AlignUp, At, PutSize, Padded, TypeOK;
    Spot(ty, s.regp);
    Spot(ty, s.argp);
    SpotEnd(ty, At(ty, s.regp));
    EndsBy(At(ty, s.regp) + Padded(ty), c.base + 16);
  }

  lemma {:induction false} CursorsKept(c: Call, i: nat)
    requires CallOK(c) && i <= |c.types|
    ensures CursorsOK(c, CallAt(c, i))
  {
    hide CallStep, TypeOK;
    if i > 0 {
      CursorsKept(c, i - 1);
      assert TypeOK(c.types[i - 1]);
      StepBelow(c, c.types[i - 1], CallAt(c, i - 1), 0, 0);
    }
  }

  lemma {:induction false} EarlierBelow(c: Call, j: nat, i: nat)
    requires CallOK(c) && j < i <= |c.types| && CallSlot(c, j).InMem?
    ensures Below(c, CallAt(c, i), CallSlot(c, j).addr, PutSize(c.types[j]))
  {
    hide CallStep, TypeOK;
    CursorsKept(c, i - 1);
    assert TypeOK(c.types[i - 1]);
    var a, size := CallSlot(c, j).addr, PutSize(c.types[j]);
    if j < i - 1 {
      EarlierBelow(c, j, i - 1);
    }
    StepBelow(c, c.types[i - 1], CallAt(c, i - 1), a, size);
  }

  lemma {:induction false} ReturnBelow(c: Call, i: nat)
    requires CallOK(c) && i <= |c.types| && c.inMemory
    ensures Below(c, CallAt(c, i), c.base, 4)
  {
    hide CallStep, TypeOK;
    if i > 0 {
      ReturnBelow(c, i - 1);
      CursorsKept(c, i - 1);
      assert TypeOK(c.types[i - 1]);
      StepBelow(c, c.types[i - 1], CallAt(c, i - 1), c.base, 4);
    }
  }

  // The register entries a walker has used are those of the candidates placed so far.
  lemma {:induction false} EntriesUsed(c: Call, i: nat)
    requires Prepared(c) && i <= |c.types|
    ensures CallAt(c, i).vi == |LaidOut(VfpsOf(c.types), i).0.args|
  {
    hide At, PutSize, Padded, LowestFit, LowestFree;
    if i > 0 {
      EntriesUsed(c, i - 1);
      if c.types[i - 1].vfp != NotVfp {
        EntryOf(VfpsOf(c.types), i - 1);
      }
    }
  }

  // A candidate's slot is the registers it was given.
  lemma VfpSlot(c: Call, i: nat)
    requires Prepared(c) && i < |c.types| && CallSlot(c, i).InVfp?
    ensures IsPlaced(VfpsOf(c.types), i) && CallSlot(c, i) == InVfp(RegOf(VfpsOf(c.types), i))
  {
    hide At, PutSize, Padded, LowestFit, LowestFree, LaidOut;
    EntriesUsed(c, i);
    EntryOf(VfpsOf(c.types), i);
  }

  function AddressOf(slot: Slot): nat { if slot.InVfp? then 4 * slot.reg else slot.addr }

  ghost predicate Apart(s: Slot, n: nat, t: Slot, m: nat) {
    s.InVfp? == t.InVfp? ==> Separate(AddressOf(s), n, AddressOf(t), m)
  }

  // No two arguments share a byte.
  lemma SlotsApart(c: Call, j: nat, i: nat)
    requires Prepared(c) && j < i < |c.types|
    ensures Apart(CallSlot(c, j), PutSize(c.types[j]), CallSlot(c, i), PutSize(c.types[i]))
  {
    hide At, Padded, CallStep, PutSize;
    assert TypeOK(c.types[i]) && TypeOK(c.types[j]);
    if CallSlot(c, j).InMem? && CallSlot(c, i).InMem? {
      CursorsKept(c, i);
      EarlierBelow(c, j, i);
      StepBelow(c, c.types[i], CallAt(c, i), CallSlot(c, j).addr, PutSize(c.types[j]));
    } else if CallSlot(c, j).InVfp? && CallSlot(c, i).InVfp? {
      VfpSlot(c, j);
      VfpSlot(c, i);
      BlocksApart(VfpsOf(c.types), j, i);
      WordSized(c.types[j]);
      WordSized(c.types[i]);
    }
  }

  lemma WordSized(ty: ArgType)
    requires TypeOK(ty) && ty.vfp != NotVfp
    ensures PutSize(ty) == 4 * Regs(ty.vfp)
  {
    AlignedIs(ty.size, 4, ty.size);
  }

  // ---- Every argument arrives -----------------------------------------------------------

  function MemoryOf(im: Image, slot: Slot): Memory { if slot.InVfp? then im.vfp else im.stack }

  ghost predicate Holds(im: Image, slot: Slot, bytes: seq<Byte>) { HoldsAt(MemoryOf(im, slot), AddressOf(slot), bytes) }

  lemma PutHolds(im: Image, slot: Slot, bytes: seq<Byte>, other: Slot, more: seq<Byte>)
    requires Holds(im, slot, bytes) && Apart(slot, |bytes|, other, |more|)
    ensures Holds(Put(im, other, more), slot, bytes)
  {
    hide HoldsAt, Write;
    if slot.InVfp? == other.InVfp? {
      Untouched(MemoryOf(im, slot), AddressOf(slot), bytes, AddressOf(other), more);
    }
  }

  lemma ApartLess(s: Slot, n: nat, t: Slot, m: nat, n': nat, m': nat)
    requires Apart(s, n, t, m) && n' <= n && m' <= m
    ensures Apart(s, n', t, m')
  {
  }

  lemma {:induction false} Survives(c: Call, data: seq<seq<Byte>>, rvalue: seq<Byte>, j: nat, i: nat)
    requires Prepared(c) && DataOK(c, data, rvalue) && j < i <= |c.types|
    ensures TypeOK(c.types[j]) && Holds(ImageAt(c, data, rvalue, i), CallSlot(c, j), PutBytes(c.types[j], data[j]))
  {
    hide CallSlot, PutSize, Holds, Apart, Put, TypeOK, CallAt, CallStep, VfpOK;
    assert TypeOK(c.types[j]) && TypeOK(c.types[i - 1]);
    ByTypes(c.types[j]);
    ByTypes(c.types[i - 1]);
    var bytes, more := PutBytes(c.types[j], data[j]), PutBytes(c.types[i - 1], data[i - 1]);
    var before := ImageAt(c, data, rvalue, i - 1);
    if j < i - 1 {
      Survives(c, data, rvalue, j, i - 1);
      SlotsApart(c, j, i - 1);
      ApartLess(CallSlot(c, j), PutSize(c.types[j]), CallSlot(c, i - 1), PutSize(c.types[i - 1]), |bytes|, |more|);
      PutHolds(before, CallSlot(c, j), bytes, CallSlot(c, i - 1), more);
    } else {
      JustPut(before, CallSlot(c, j), bytes);
    }
  }

  lemma ByTypes(ty: ArgType)
    requires TypeOK(ty)
    ensures ty.size > 0 && (ty.extension != Raw ==> ty.size <= 2)
  {
  }

  lemma JustPut(im: Image, slot: Slot, bytes: seq<Byte>)
    ensures Holds(Put(im, slot, bytes), slot, bytes)
  {
    hide HoldsAt, Write;
    Written(MemoryOf(im, slot), AddressOf(slot), bytes);
  }

  // Marshalling and unmarshalling undo each other: for every argument list, what the closure reads
  // at the slot it computes is the value the call was given, byte for byte.
  lemma RoundTrip(c: Call, data: seq<seq<Byte>>, rvalue: seq<Byte>, i: nat)
    requires Prepared(c) && DataOK(c, data, rvalue) && i < |c.types|
    ensures Get(ImageAt(c, data, rvalue, |c.types|), ClosureSlot(c, i), c.types[i].size) == data[i]
  {
    hide CallSlot, ClosureSlot, ImageAt, TypeOK;
    SlotsAgree(c, i);
    assert TypeOK(c.types[i]);
    ByTypes(c.types[i]);
    Survives(c, data, rvalue, i, |c.types|);
    var im, slot := ImageAt(c, data, rvalue, |c.types|), CallSlot(c, i);
    ReadBack(MemoryOf(im, slot), AddressOf(slot), PutBytes(c.types[i], data[i]), c.types[i].size);
  }

  // A callee that looks at the whole word finds a small integer extended: the word is its value,
  // modulo 2^32.
  lemma WordIsValue(c: Call, data: seq<seq<Byte>>, rvalue: seq<Byte>, i: nat)
    requires Prepared(c) && DataOK(c, data, rvalue) && i < |c.types| && c.types[i].extension != Raw
    ensures Value(Get(ImageAt(c, data, rvalue, |c.types|), CallSlot(c, i), 4)) ==
            Number(data[i], c.types[i].extension == Signed) % Bound(4)
  {
    hide CallSlot, ImageAt, TypeOK, Value, Bound, Number, Lengthened;
    assert TypeOK(c.types[i]);
    ByTypes(c.types[i]);
    Survives(c, data, rvalue, i, |c.types|);
    var im, slot, s := ImageAt(c, data, rvalue, |c.types|), CallSlot(c, i), PutBytes(c.types[i], data[i]);
    ReadBack(MemoryOf(im, slot), AddressOf(slot), s, 4);
    assert s[..4] == s;
    LengthenedIs(data[i], c.types[i].extension == Signed, 4);
  }

  // The k-th of the words that start at VFP register r
  ghost predicate WordIn(im: Image, r: nat, data: seq<Byte>, k: nat) {
    4 * k + 4 <= |data| && Read(im.vfp, 4 * (r + k), 4) == data[4 * k..4 * k + 4]
  }

  // A candidate has its words in the single-precision registers from its first one on.
  lemma RegistersHoldWords(c: Call, data: seq<seq<Byte>>, rvalue: seq<Byte>, i: nat)
    requires Prepared(c) && DataOK(c, data, rvalue) && i < |c.types| && CallSlot(c, i).InVfp?
    ensures !c.types[i].vfp.NotVfp?
    ensures forall k :: 0 <= k < Regs(c.types[i].vfp) ==>
              WordIn(ImageAt(c, data, rvalue, |c.types|), CallSlot(c, i).reg, data[i], k)
  {
    hide CallSlot, ImageAt, TypeOK, Read, LaidOut, WordIn, PutBytes, Regs;
    CandidateIs(c, i);
    ByTypes(c.types[i]);
    var im, slot, s := ImageAt(c, data, rvalue, |c.types|), CallSlot(c, i), PutBytes(c.types[i], data[i]);
    Survives(c, data, rvalue, i, |c.types|);
    ReadBack(MemoryOf(im, slot), AddressOf(slot), s, |data[i]|);
    assert s[..|data[i]|] == data[i];
    forall k | 0 <= k < Regs(c.types[i].vfp) ensures WordIn(im, slot.reg, data[i], k) {
      WordFound(im, slot.reg, data[i], k);
    }
  }

  lemma WordFound(im: Image, r: nat, data: seq<Byte>, k: nat)
    requires Read(im.vfp, 4 * r, |data|) == data && 4 * k + 4 <= |data|
    ensures WordIn(im, r, data, k)
  {
    hide Read;
    ReadPart(im.vfp, 4 * r, |data|, 4 * k, 4 * k + 4);
  }

  lemma CandidateIs(c: Call, i: nat)
    requires Prepared(c) && i < |c.types| && CallSlot(c, i).InVfp?
    ensures TypeOK(c.types[i]) && !c.types[i].vfp.NotVfp? && c.types[i].size == 4 * Regs(c.types[i].vfp)
  {
    hide At, PutSize, Padded, LaidOut;
    assert TypeOK(c.types[i]);
  }

  // The address for a value returned in memory arrives as well.
  lemma {:induction false} ReturnArrives(c: Call, data: seq<seq<Byte>>, rvalue: seq<Byte>, i: nat)
    requires Prepared(c) && DataOK(c, data, rvalue) && i <= |c.types| && c.inMemory
    ensures Holds(ImageAt(c, data, rvalue, i), InMem(c.base), rvalue)
  {
    hide PutSize, Put, PutBytes, TypeOK, CallStep, CallAt, Holds, LaidOut;
    if i == 0 {
      JustPut(Image(map[], map[]), InMem(c.base), rvalue);
      assert Put(Image(map[], map[]), InMem(c.base), rvalue) == ImageAt(c, data, rvalue, 0) by {
        StartImage(c, data, rvalue);
      }
    } else {
      ReturnArrives(c, data, rvalue, i - 1);
      assert TypeOK(c.types[i - 1]);
      ByTypes(c.types[i - 1]);
      CursorsKept(c, i - 1);
      ReturnBelow(c, i - 1);
      StepBelow(c, c.types[i - 1], CallAt(c, i - 1), c.base, 4);
      PutHolds(ImageAt(c, data, rvalue, i - 1), InMem(c.base), rvalue, CallSlot(c, i - 1),
               PutBytes(c.types[i - 1], data[i - 1]));
    }
  }

  lemma StartImage(c: Call, data: seq<seq<Byte>>, rvalue: seq<Byte>)
    requires CallOK(c) && DataOK(c, data, rvalue) && c.inMemory
    ensures Put(Image(map[], map[]), InMem(c.base), rvalue) == ImageAt(c, data, rvalue, 0)
  {
  }
}
