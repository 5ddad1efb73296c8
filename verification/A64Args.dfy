// Arguments on AArch64, for FFI_SYSV outside Apple systems: the marshalling state of ffi_call_int
// and of ffi_closure_SYSV_inner, and where each side places an argument.

module A64Args {
  import opened Words
  import opened Align

  const N_X_ARG_REG: nat := 8
  const N_V_ARG_REG: nat := 8

  // An integer or pointer of the given size; n floating-point values of unit bytes each, alone or
  // as a homogeneous aggregate; any other structure or complex number.
  datatype ArgType =
    | Int(size: nat, signed: bool)
    | Hfa(n: nat, unit: nat, alignment: nat)
    | Composite(bytes: nat, alignment: nat)

  function Size(ty: ArgType): nat {
    match ty
    case Int(size, _) => size
    case Hfa(n, unit, _) => n * unit
    case Composite(bytes, _) => bytes
  }

  // ty->alignment; integers are aligned to their size.
  function AlignOf(ty: ArgType): nat { if ty.Int? then ty.size else ty.alignment }

  predicate PowerOrWide(a: nat) { a == 1 || a == 2 || a == 4 || (a > 0 && a % 8 == 0) }

  predicate TypeOK(ty: ArgType) {
    && PowerOrWide(AlignOf(ty)) && Size(ty) > 0
    && (ty.Int? ==> ty.size <= 8)
    && (ty.Hfa? ==> 1 <= ty.n <= 4 && (ty.unit == 4 || ty.unit == 8 || ty.unit == 16))
  }

  // Composites of more than 16 bytes are copied, and a pointer to the copy is passed.
  predicate ByRef(ty: ArgType) { ty.Composite? && ty.bytes > 16 }

  // struct arg_state
  datatype ArgState = ArgState(ngrn: nat, nsrn: nat, nsaa: nat, nextStructArea: int)

  // arg_init
  function Init(size: nat): ArgState { ArgState(0, 0, 0, size) }

  // Registers, or an offset from the start of the stack area
  datatype Slot = InX(reg: nat) | InV(reg: nat) | OnStack(offset: nat)

  function Widened(a: nat): (b: nat)
    ensures b >= 8
  {
    if a < 8 then 8 else a
  }

  // allocate_to_stack
  function ToStack(s: ArgState, alignment: nat, size: nat): (Slot, ArgState) {
    var nsaa := AlignUp(s.nsaa, Widened(alignment));
    (OnStack(nsaa), s.(nsaa := nsaa + size))
  }

  // FFI_ALIGN_DOWN, for the powers of two that alignments are
  function AlignDown(x: int, a: nat): int
    requires a > 0
  {
    x / a * a
  }

  // allocate_and_copy_struct_to_stack: where the copy goes
  function StructDest(s: ArgState, ty: ArgType): int
    requires AlignOf(ty) > 0
  {
    AlignDown(s.nextStructArea - Size(ty), AlignOf(ty))
  }

  function XRegs(ty: ArgType): nat { (Size(ty) + 7) / 8 }

  // One round of ffi_call_int: where the argument goes, or the pointer to its copy
  function CallStep(ty: ArgType, s: ArgState): (Slot, ArgState)
    requires TypeOK(ty)
  {
    match ty
    case Int(size, _) =>
      if s.ngrn < N_X_ARG_REG then (InX(s.ngrn), s.(ngrn := s.ngrn + 1))
      else
        var (slot, t) := ToStack(s, AlignOf(ty), size);
        (slot, t.(ngrn := N_X_ARG_REG))
    case Hfa(n, _, alignment) =>
      if s.nsrn + n <= N_V_ARG_REG then (InV(s.nsrn), s.(nsrn := s.nsrn + n))
      else ToStack(s.(nsrn := N_V_ARG_REG), alignment, Size(ty))
    case Composite(bytes, alignment) =>
      if bytes > 16 then
        var c := s.(nextStructArea := StructDest(s, ty));
        if c.ngrn < N_X_ARG_REG then (InX(c.ngrn), c.(ngrn := c.ngrn + 1))
        else
          var (slot, t) := ToStack(c, alignment, 8);
          (slot, t.(ngrn := N_X_ARG_REG))
      else if s.ngrn + XRegs(ty) <= N_X_ARG_REG then (InX(s.ngrn), s.(ngrn := s.ngrn + XRegs(ty)))
      else ToStack(s.(ngrn := N_X_ARG_REG), alignment, bytes)
  }

  // allocate_int_to_reg_or_stack, which aligns a stack slot to its size
  function IntToRegOrStack(s: ArgState, size: nat): (Slot, ArgState) {
    if s.ngrn < N_X_ARG_REG then (InX(s.ngrn), s.(ngrn := s.ngrn + 1))
    else ToStack(s.(ngrn := N_X_ARG_REG), size, size)
  }

  // One round of ffi_closure_SYSV_inner
  function ClosureStep(ty: ArgType, s: ArgState): (Slot, ArgState)
    requires TypeOK(ty)
  {
    match ty
    case Int(size, _) => IntToRegOrStack(s, size)
    case Hfa(n, _, alignment) =>
      if s.nsrn + n <= N_V_ARG_REG then (InV(s.nsrn), s.(nsrn := s.nsrn + n))
      else ToStack(s.(nsrn := N_V_ARG_REG), alignment, Size(ty))
    case Composite(bytes, alignment) =>
      if bytes > 16 then IntToRegOrStack(s, 8)
      else if s.ngrn + XRegs(ty) <= N_X_ARG_REG then (InX(s.ngrn), s.(ngrn := s.ngrn + XRegs(ty)))
      else ToStack(s.(ngrn := N_X_ARG_REG), alignment, bytes)
  }

  ghost predicate AllOK(types: seq<ArgType>) { forall i {:trigger types[i]} :: 0 <= i < |types| ==> TypeOK(types[i]) }

  // The two states before argument i, of a call prepared with size bytes
  function CallAt(types: seq<ArgType>, size: nat, i: nat): ArgState
    requires AllOK(types) && i <= |types|
  {
    if i == 0 then Init(size) else CallStep(types[i - 1], CallAt(types, size, i - 1)).1
  }

  function ClosureAt(types: seq<ArgType>, size: nat, i: nat): ArgState
    requires AllOK(types) && i <= |types|
  {
    if i == 0 then Init(size) else ClosureStep(types[i - 1], ClosureAt(types, size, i - 1)).1
  }

  function CallSlot(types: seq<ArgType>, size: nat, i: nat): Slot
    requires AllOK(types) && i < |types|
  {
    CallStep(types[i], CallAt(types, size, i)).0
  }

  function ClosureSlot(types: seq<ArgType>, size: nat, i: nat): Slot
    requires AllOK(types) && i < |types|
  {
    ClosureStep(types[i], ClosureAt(types, size, i)).0
  }

  // ---- Agreement ------------------------------------------------------------------------

  // The closure does not copy structures; all else is the same.
  ghost predicate Same(s: ArgState, d: ArgState) { d == s.(nextStructArea := d.nextStructArea) }

  ghost predicate StepsAgree(ty: ArgType, s: ArgState, d: ArgState)
    requires TypeOK(ty)
  {
    CallStep(ty, s).0 == ClosureStep(ty, d).0 && Same(CallStep(ty, s).1, ClosureStep(ty, d).1)
  }

  // A pointer to a copy is aligned like the structure by the call and like a pointer by the
  // closure: the two agree wherever the structure's alignment asks no more than a pointer's.
  predicate PlainRef(ty: ArgType) { ByRef(ty) ==> AlignOf(ty) <= 8 }

  lemma StepAgrees(ty: ArgType, s: ArgState, d: ArgState)
    requires TypeOK(ty) && PlainRef(ty) && Same(s, d)
    ensures StepsAgree(ty, s, d)
  {
  }

  lemma {:induction false} StatesAgree(types: seq<ArgType>, size: nat, i: nat)
    requires AllOK(types) && i <= |types| && forall j :: 0 <= j < i ==> PlainRef(types[j])
    ensures Same(CallAt(types, size, i), ClosureAt(types, size, i))
  {
    hide CallStep, ClosureStep;
    if i > 0 {
      StatesAgree(types, size, i - 1);
      StepAgrees(types[i - 1], CallAt(types, size, i - 1), ClosureAt(types, size, i - 1));
    }
  }

  // Whether both sides find the same place for ty after any arguments they agree on.
  ghost predicate AlwaysAgrees(ty: ArgType)
    requires TypeOK(ty)
  {
    forall before: seq<ArgType>, size: nat ::
      AllOK(before) && (forall j :: 0 <= j < |before| ==> PlainRef(before[j])) ==>
        StepsAgree(ty, CallAt(before, size, |before|), ClosureAt(before, size, |before|))
  }

  // That is so exactly for the types that are not passed by reference with a wide alignment.
  lemma AgreesIff(ty: ArgType)
    requires TypeOK(ty)
    ensures AlwaysAgrees(ty) <==> PlainRef(ty)
  {
    if PlainRef(ty) {
      forall before: seq<ArgType>, size: nat
        | AllOK(before) && forall j :: 0 <= j < |before| ==> PlainRef(before[j])
        ensures StepsAgree(ty, CallAt(before, size, |before|), ClosureAt(before, size, |before|))
      {
        StatesAgree(before, size, |before|);
        StepAgrees(ty, CallAt(before, size, |before|), ClosureAt(before, size, |before|));
      }
    } else {
      var before := seq(9, i => Int(8, false));
      NineInts(before, 0);
      WideDiffers(ty, CallAt(before, 0, 9), ClosureAt(before, 0, 9));
      assert !StepsAgree(ty, CallAt(before, 0, |before|), ClosureAt(before, 0, |before|));
    }
  }

  // Nine integers fill the registers and one stack slot.
  lemma NineInts(types: seq<ArgType>, size: nat)
    requires |types| == 9 && forall i :: 0 <= i < 9 ==> types[i] == Int(8, false)
    ensures AllOK(types) && (forall j :: 0 <= j < 9 ==> PlainRef(types[j]))
    ensures CallAt(types, size, 9) == ArgState(8, 0, 8, size) && ClosureAt(types, size, 9) == ArgState(8, 0, 8, size)
  {
    IntsFill(types, size, 8);
    AlignedIs(0, 8, 0);
  }

  lemma {:induction false} IntsFill(types: seq<ArgType>, size: nat, k: nat)
    requires |types| == 9 && (forall i :: 0 <= i < 9 ==> types[i] == Int(8, false)) && k <= 8
    ensures AllOK(types)
    ensures CallAt(types, size, k) == ArgState(k, 0, 0, size) && ClosureAt(types, size, k) == ArgState(k, 0, 0, size)
  {
    if k > 0 {
      IntsFill(types, size, k - 1);
    }
  }

  lemma WideDiffers(ty: ArgType, s: ArgState, d: ArgState)
    requires TypeOK(ty) && !PlainRef(ty) && s == ArgState(8, 0, 8, s.nextStructArea) && Same(s, d)
    ensures CallStep(ty, s).0 != ClosureStep(ty, d).0
  {
    hide AlignUp, PowerOrWide;
    WideUp(AlignOf(ty));
    AlignedIs(8, 8, 8);
  }

  lemma WideUp(a: nat)
    requires a > 8
    ensures AlignUp(8, a) == a
  {
    QuotientUnique(a, a, 1, 0);
    AlignedIs(8, a, a);
  }
}
