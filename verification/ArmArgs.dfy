// Arguments on 32-bit ARM: where ffi_call_int puts each one, and where a closure, walking the same
// types with cursors and flags of its own, looks for it.

module ArmArgs {
  import opened Words
  import opened Align
  import opened VfpLayout

  datatype Extension = Signed | Unsigned | Raw

  // An argument type; vfp is what vfp_type_p says, extension how ffi_put_arg widens it.
  datatype ArgType = ArgType(size: nat, alignment: nat, vfp: Vfp, extension: Extension)

  // Alignments are powers of two, and the registers of a candidate hold just its bytes.
  ghost predicate TypeOK(ty: ArgType) {
    && ty.size > 0 && (ty.alignment == 1 || ty.alignment == 2 || (ty.alignment > 0 && ty.alignment % 4 == 0))
    && VfpOK(ty.vfp) && (!ty.vfp.NotVfp? ==> ty.size == 4 * Regs(ty.vfp))
    && (ty.extension != Raw ==> ty.size <= 2)
  }

  // The parts of a call both sides share: the stack image starts at base, and vfpArgs are the
  // first vfp_nargs entries of cif->vfp_args.
  datatype Call = Call(base: nat, inMemory: bool, types: seq<ArgType>, vfpArgs: seq<nat>)

  ghost predicate CallOK(c: Call) {
    c.base % 4 == 0 && forall i {:trigger TypeOK(c.types[i])} :: 0 <= i < |c.types| ==> TypeOK(c.types[i])
  }

  // ffi_align
  function Alignment(ty: ArgType): (a: nat)
    ensures a > 0
  {
    if ty.alignment < 4 then 4 else ty.alignment
  }

  function At(ty: ArgType, p: nat): nat { AlignUp(p, Alignment(ty)) }

  // What ffi_put_arg returns
  function PutSize(ty: ArgType): nat { AlignUp(ty.size, 4) }

  function Padded(ty: ArgType): nat { if ty.size < 4 then 4 else ty.size }

  // A VFP register's slot in vfp_space, or an address in the stack image.
  datatype Slot = InVfp(reg: nat) | InMem(addr: nat)

  // The locals of either walker
  datatype Cursors = Cursors(regp: nat, argp: nat, vi: nat, stackUsed: bool, done: bool)

  function Start(c: Call): Cursors {
    Cursors(c.base + (if c.inMemory then 4 else 0), c.base + 16, 0, false, false)
  }

  // One round of ffi_prep_args_VFP
  function CallStep(c: Call, ty: ArgType, s: Cursors): (Slot, Cursors) {
    var eo := c.base + 16;
    var tregp := At(ty, s.regp);
    if s.vi < |c.vfpArgs| && ty.vfp != NotVfp then (InVfp(c.vfpArgs[s.vi]), s.(vi := s.vi + 1))
    else if !s.done && ty.vfp == NotVfp && tregp + Padded(ty) <= eo then
      var regp := tregp + PutSize(ty);
      (InMem(tregp), s.(regp := regp, done := regp == s.argp))
    else if !s.done && ty.vfp == NotVfp && !s.stackUsed then
      (InMem(tregp), s.(stackUsed := true, done := true, argp := tregp + PutSize(ty)))
    else
      var argp := At(ty, s.argp);
      (InMem(argp), s.(stackUsed := true, argp := argp + PutSize(ty)))
  }

  // One round of ffi_prep_incoming_args_VFP, which does not round what it advances by
  function ClosureStep(c: Call, ty: ArgType, s: Cursors): (Slot, Cursors) {
    var eo := c.base + 16;
    var tregp := At(ty, s.regp);
    if s.vi < |c.vfpArgs| && ty.vfp != NotVfp then (InVfp(c.vfpArgs[s.vi]), s.(vi := s.vi + 1))
    else if !s.done && ty.vfp == NotVfp && (tregp + Padded(ty) <= eo || !s.stackUsed) then
      var regp := tregp + Padded(ty);
      (InMem(tregp), s.(regp := regp, argp := if regp > eo then regp else s.argp,
                        done := regp >= eo, stackUsed := s.stackUsed || regp >= eo))
    else
      var argp := At(ty, s.argp);
      var z := if !s.done && ty.vfp == NotVfp then Padded(ty) else ty.size;
      (InMem(argp), s.(stackUsed := true, argp := argp + z))
  }

  // The walkers before argument i
  function CallAt(c: Call, i: nat): Cursors
    requires i <= |c.types|
  {
    if i == 0 then Start(c) else CallStep(c, c.types[i - 1], CallAt(c, i - 1)).1
  }

  function ClosureAt(c: Call, i: nat): Cursors
    requires i <= |c.types|
  {
    if i == 0 then Start(c) else ClosureStep(c, c.types[i - 1], ClosureAt(c, i - 1)).1
  }

  function CallSlot(c: Call, i: nat): Slot
    requires i < |c.types|
  {
    CallStep(c, c.types[i], CallAt(c, i)).0
  }

  function ClosureSlot(c: Call, i: nat): Slot
    requires i < |c.types|
  {
    ClosureStep(c, c.types[i], ClosureAt(c, i)).0
  }

  // ---- Agreement ------------------------------------------------------------------------

  ghost predicate Closed(c: Call, s: Cursors) { s.done || AlignUp(s.regp, 4) >= c.base + 16 }

  // The call's cursors are the closure's rounded up; the flags may differ, but only while core
  // registers are exactly used up.
  ghost predicate Related(c: Call, s: Cursors, d: Cursors) {
    var eo := c.base + 16;
    && s.vi == d.vi
    && s.regp % 4 == 0 && s.argp % 4 == 0 && s.argp == AlignUp(d.argp, 4) && s.argp >= eo
    && (Closed(c, s) <==> Closed(c, d))
    && (!Closed(c, s) ==> s.regp == AlignUp(d.regp, 4) && s.regp < eo && s.stackUsed == d.stackUsed)
    && (Closed(c, s) && !d.done ==> AlignUp(d.regp, 4) == eo)
    && (Closed(c, s) && !s.done ==> s.regp == eo && s.stackUsed)
    && (!s.stackUsed ==> s.argp == eo) && (!d.stackUsed ==> d.argp == eo)
    && (d.done ==> d.stackUsed) && (s.stackUsed ==> d.stackUsed)
  }

  // The aligned spot for ty from p on.
  lemma Spot(ty: ArgType, p: nat)
    requires TypeOK(ty)
    ensures p <= At(ty, p) && At(ty, p) % 4 == 0 && At(ty, AlignUp(p, 4)) == At(ty, p) && AlignUp(p, 4) <= At(ty, p)
  {
    hide AlignUp;
    var a := Alignment(ty);
    assert a % 4 == 0;
    Aligned(p, a);
    MultipleOf(AlignUp(p, a), a, 4);
    AlignTwice(p, 4, a);
    Aligned(AlignUp(p, 4), a);
  }

  // The cursor after ty was put or read at q, rounded.
  lemma SpotEnd(ty: ArgType, q: nat)
    requires TypeOK(ty) && q % 4 == 0
    ensures PutSize(ty) % 4 == 0 && PutSize(ty) > 0 && ty.size <= PutSize(ty) && Padded(ty) <= PutSize(ty)
    ensures AlignUp(q + ty.size, 4) == q + PutSize(ty) && AlignUp(q + Padded(ty), 4) == q + PutSize(ty)
    ensures AlignUp(q + PutSize(ty), 4) == q + PutSize(ty)
  {
    hide AlignUp;
    Aligned(ty.size, 4);
    AlignShift(ty.size, q, 4);
    PaddedSize(ty);
    AlignShift(Padded(ty), q, 4);
    AlignedIs(q + PutSize(ty), 4, q + PutSize(ty));
  }

  lemma PaddedSize(ty: ArgType)
    requires TypeOK(ty)
    ensures AlignUp(Padded(ty), 4) == PutSize(ty) && Padded(ty) <= PutSize(ty)
  {
    Aligned(ty.size, 4);
    AlignedIs(Padded(ty), 4, PutSize(ty));
  }

  // Whether a chunk of four-byte words ends by eo can be told from its unrounded end.
  lemma EndsBy(x: nat, eo: nat)
    requires eo % 4 == 0
    ensures AlignUp(x, 4) <= eo <==> x <= eo
    ensures x % 4 == 0 ==> AlignUp(x, 4) == x
  {
    Aligned(x, 4);
    if x % 4 == 0 {
      AlignedIs(x, 4, x);
    }
    if AlignUp(x, 4) > eo {
      Multiples(eo, AlignUp(x, 4), 4);
    }
  }

  lemma StepAgrees(c: Call, ty: ArgType, s: Cursors, d: Cursors)
    requires c.base % 4 == 0 && TypeOK(ty) && Related(c, s, d)
    ensures CallStep(c, ty, s).0 == ClosureStep(c, ty, d).0
    ensures Related(c, CallStep(c, ty, s).1, ClosureStep(c, ty, d).1)
  {
    hide AlignUp, At, PutSize, Padded, TypeOK;
    if s.vi < |c.vfpArgs| && ty.vfp != NotVfp {
    } else if ty.vfp != NotVfp {
      OnStack(c, ty, s, d);
    } else if Closed(c, s) && d.done {
      AfterRegisters(c, ty, s, d);
    } else if Closed(c, s) {
      RegistersJustUsed(c, ty, s, d);
    } else if At(ty, s.regp) + Padded(ty) <= c.base + 16 {
      InRegisters(c, ty, s, d);
    } else {
      PastRegisters(c, ty, s, d);
    }
  }

  // A candidate without registers goes on the stack on both sides.
  lemma OnStack(c: Call, ty: ArgType, s: Cursors, d: Cursors)
    requires c.base % 4 == 0 && TypeOK(ty) && Related(c, s, d) && ty.vfp != NotVfp && s.vi >= |c.vfpArgs|
    ensures CallStep(c, ty, s).0 == ClosureStep(c, ty, d).0
    ensures Related(c, CallStep(c, ty, s).1, ClosureStep(c, ty, d).1)
  {
    hide AlignUp, At, PutSize, Padded, TypeOK;
    Spot(ty, d.argp);
    Spot(ty, s.argp);
    SpotEnd(ty, At(ty, s.argp));
  }

  // With room in the core registers, both sides use them,
  lemma InRegisters(c: Call, ty: ArgType, s: Cursors, d: Cursors)
    requires c.base % 4 == 0 && TypeOK(ty) && Related(c, s, d) && ty.vfp == NotVfp && !Closed(c, s)
    requires At(ty, s.regp) + Padded(ty) <= c.base + 16
    ensures CallStep(c, ty, s).0 == ClosureStep(c, ty, d).0
    ensures Related(c, CallStep(c, ty, s).1, ClosureStep(c, ty, d).1)
  {
    hide AlignUp, At, PutSize, Padded, TypeOK;
    var eo, t := c.base + 16, At(ty, s.regp);
    var next, end := t + PutSize(ty), t + Padded(ty);
    Spot(ty, d.regp);
    assert CallStep(c, ty, s) == (InMem(t), s.(regp := next, done := next == s.argp));
    assert ClosureStep(c, ty, d) ==
           (InMem(t), d.(regp := end, done := end >= eo, stackUsed := d.stackUsed || end >= eo));
    hide CallStep, ClosureStep;
    SpotEnd(ty, t);
    EndsBy(end, eo);
  }

  // and with too little they split the argument or go on on the stack as one.
  lemma PastRegisters(c: Call, ty: ArgType, s: Cursors, d: Cursors)
    requires c.base % 4 == 0 && TypeOK(ty) && Related(c, s, d) && ty.vfp == NotVfp && !Closed(c, s)
    requires At(ty, s.regp) + Padded(ty) > c.base + 16
    ensures CallStep(c, ty, s).0 == ClosureStep(c, ty, d).0
    ensures Related(c, CallStep(c, ty, s).1, ClosureStep(c, ty, d).1)
  {
    if s.stackUsed {
      PastToStack(c, ty, s, d);
    } else {
      PastSplit(c, ty, s, d);
    }
  }

  // The argument goes on the stack, where some already are,
  lemma PastToStack(c: Call, ty: ArgType, s: Cursors, d: Cursors)
    requires c.base % 4 == 0 && TypeOK(ty) && Related(c, s, d) && ty.vfp == NotVfp && !Closed(c, s)
    requires At(ty, s.regp) + Padded(ty) > c.base + 16 && s.stackUsed
    ensures CallStep(c, ty, s).0 == ClosureStep(c, ty, d).0
    ensures Related(c, CallStep(c, ty, s).1, ClosureStep(c, ty, d).1)
  {
    hide AlignUp, At, PutSize, Padded, TypeOK;
    Spot(ty, d.regp);
    Spot(ty, d.argp);
    Spot(ty, s.argp);
    SpotEnd(ty, At(ty, s.argp));
  }

  // or it begins in the registers and ends on the stack.
  lemma PastSplit(c: Call, ty: ArgType, s: Cursors, d: Cursors)
    requires c.base % 4 == 0 && TypeOK(ty) && Related(c, s, d) && ty.vfp == NotVfp && !Closed(c, s)
    requires At(ty, s.regp) + Padded(ty) > c.base + 16 && !s.stackUsed
    ensures CallStep(c, ty, s).0 == ClosureStep(c, ty, d).0
    ensures Related(c, CallStep(c, ty, s).1, ClosureStep(c, ty, d).1)
  {
    hide AlignUp, At, PutSize, Padded, TypeOK;
    Spot(ty, d.regp);
    SpotEnd(ty, At(ty, s.regp));
    EndsBy(At(ty, s.regp) + Padded(ty), c.base + 16);
  }

  // With the core registers used up, both go on on the stack,
  lemma AfterRegisters(c: Call, ty: ArgType, s: Cursors, d: Cursors)
    requires c.base % 4 == 0 && TypeOK(ty) && Related(c, s, d) && ty.vfp == NotVfp && Closed(c, s) && d.done
    ensures CallStep(c, ty, s).0 == ClosureStep(c, ty, d).0
    ensures Related(c, CallStep(c, ty, s).1, ClosureStep(c, ty, d).1)
  {
    hide AlignUp, At, PutSize, Padded, TypeOK;
    Spot(ty, s.regp);
    Spot(ty, d.argp);
    Spot(ty, s.argp);
    SpotEnd(ty, At(ty, s.argp));
    PadPositive(ty);
  }

  // or the closure thinks it still reads registers, and finds the same address.
  lemma RegistersJustUsed(c: Call, ty: ArgType, s: Cursors, d: Cursors)
    requires c.base % 4 == 0 && TypeOK(ty) && Related(c, s, d) && ty.vfp == NotVfp && Closed(c, s) && !d.done
    ensures CallStep(c, ty, s).0 == ClosureStep(c, ty, d).0
    ensures Related(c, CallStep(c, ty, s).1, ClosureStep(c, ty, d).1)
  {
    hide AlignUp, At, PutSize, Padded, TypeOK;
    Spot(ty, s.regp);
    Spot(ty, d.regp);
    Spot(ty, d.argp);
    Spot(ty, s.argp);
    SpotEnd(ty, At(ty, s.argp));
    EndsBy(At(ty, s.argp) + Padded(ty), c.base + 16);
    PadPositive(ty);
  }

  lemma PadPositive(ty: ArgType)
    ensures Padded(ty) >= 4
  {
  }

  // For every argument list the closure looks for each argument where the call put it.
  lemma {:induction false} WalkersRelated(c: Call, i: nat)
    requires CallOK(c) && i <= |c.types|
    ensures Related(c, CallAt(c, i), ClosureAt(c, i))
  {
    hide Related, CallStep, ClosureStep, TypeOK;
    if i == 0 {
      StartRelated(c);
    } else {
      WalkersRelated(c, i - 1);
      assert TypeOK(c.types[i - 1]);
      StepAgrees(c, c.types[i - 1], CallAt(c, i - 1), ClosureAt(c, i - 1));
    }
  }

  lemma StartRelated(c: Call)
    requires c.base % 4 == 0
    ensures Related(c, Start(c), Start(c))
  {
    AlignedIs(c.base + 16, 4, c.base + 16);
    AlignedIs(c.base, 4, c.base);
    AlignedIs(c.base + 4, 4, c.base + 4);
  }

  lemma SlotsAgree(c: Call, i: nat)
    requires CallOK(c) && i < |c.types|
    ensures ClosureSlot(c, i) == CallSlot(c, i)
  {
    WalkersRelated(c, i);
    assert TypeOK(c.types[i]);
    StepAgrees(c, c.types[i], CallAt(c, i), ClosureAt(c, i));
  }
}
