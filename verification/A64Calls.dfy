// The bytes of an AArch64 call: what ffi_call_int writes to the register images, the argument
// area and the structure area, and what ffi_closure_SYSV_inner finds there.

module A64Calls {
  import opened Words
  import opened Align
  import opened Bytes
  import opened A64Args
  import opened A64Bytes

  // Memory is told by the distance from the stack area, which struct call_context lies right below:
  // eight 16-byte images of the V registers, then eight words of X registers.
  function AddressOf(slot: Slot): int {
    match slot
    case InX(r) => -64 + 8 * r
    case InV(r) => -192 + 16 * r
    case OnStack(o) => o
  }

  datatype Piece = Piece(at: int, bytes: seq<Byte>)

  function WritePiece(m: Memory, p: Piece): Memory { Write(m, p.at, p.bytes) }

  function WriteAll(m: Memory, ps: seq<Piece>): Memory
    decreases |ps|
  {
    if ps == [] then m else WritePiece(WriteAll(m, ps[..|ps| - 1]), ps[|ps| - 1])
  }

  // extend_integer_type, stored little-endian in eight bytes
  function Extended(ty: ArgType, data: seq<Byte>): (s: seq<Byte>)
    requires ty.Int? && 0 < ty.size <= 8 && |data| == ty.size
    ensures |s| == 8 && data <= s
  {
    Lengthened(data, ty.signed, 8)
  }

  // extend_hfa_type: each element of unit bytes at the start of its own 16-byte slot
  function Spread(a: int, unit: nat, data: seq<Byte>): (ps: seq<Piece>)
    requires unit > 0
    ensures forall k :: 0 <= k < |ps| ==> ps[k].at == a + 16 * k && |ps[k].bytes| == unit
    decreases |data|
  {
    if |data| < unit then [] else [Piece(a, data[..unit])] + Spread(a + 16, unit, data[unit..])
  }

  // compress_hfa_type: size bytes of elements read back from their slots
  function Gathered(m: Memory, a: int, unit: nat, size: nat): seq<int>
    requires unit > 0
    decreases size
  {
    if size < unit then [] else Read(m, a, unit) + Gathered(m, a + 16, unit, size - unit)
  }

  lemma {:induction false} SpreadCount(a: int, unit: nat, data: seq<Byte>, n: nat)
    requires unit > 0 && |data| == n * unit
    ensures |Spread(a, unit, data)| == n
    decreases n
  {
    if n > 0 {
      assert n * unit == (n - 1) * unit + unit;
      SpreadCount(a + 16, unit, data[unit..], n - 1);
    } else {
      assert n * unit == 0;
    }
  }

  // ---- The two sides --------------------------------------------------------------------

  // What ffi_call_int writes for an argument: to its slot, and for a structure passed by
  // reference first the copy at dest and then the address of the copy.
  function Pieces(ty: ArgType, slot: Slot, dest: int, base: nat, data: seq<Byte>): seq<Piece>
    requires TypeOK(ty) && |data| == Size(ty)
  {
    var a := AddressOf(slot);
    match ty
    case Int(_, _) => [Piece(a, Extended(ty, data))]
    case Hfa(_, unit, _) => if slot.InV? then Spread(a, unit, data) else [Piece(a, data)]
    case Composite(_, _) =>
      if ByRef(ty) then [Piece(dest, data), Piece(a, WordBytes(if base + dest < 0 then 0 else base + dest, 8))]
      else [Piece(a, data)]
  }

  // What ffi_closure_SYSV_inner points an argument at, read as a value of the type
  function Received(ty: ArgType, slot: Slot, base: nat, m: Memory): seq<int>
    requires TypeOK(ty)
  {
    var a := AddressOf(slot);
    match ty
    case Int(size, _) => Read(m, a, size)
    case Hfa(_, unit, _) => if slot.InV? then Gathered(m, a, unit, Size(ty)) else Read(m, a, Size(ty))
    case Composite(bytes, _) => if ByRef(ty) then Read(m, Value(Read(m, a, 8)) - base, bytes) else Read(m, a, bytes)
  }

  ghost predicate DataOK(types: seq<ArgType>, data: seq<seq<Byte>>) {
    AllOK(types) && |data| == |types| && forall i :: 0 <= i < |data| ==> |data[i]| == Size(types[i])
  }

  ghost function PiecesOf(types: seq<ArgType>, size: nat, base: nat, data: seq<seq<Byte>>, i: nat): seq<Piece>
    requires DataOK(types, data) && i < |types|
  {
    var dest := if ByRef(types[i]) then StructDest(CallAt(types, size, i), types[i]) else 0;
    Pieces(types[i], CallSlot(types, size, i), dest, base, data[i])
  }

  ghost function MemoryAt(types: seq<ArgType>, size: nat, base: nat, data: seq<seq<Byte>>, i: nat): Memory
    requires DataOK(types, data) && i <= |types|
  {
    if i == 0 then map[]
    else WriteAll(MemoryAt(types, size, base, data, i - 1), PiecesOf(types, size, base, data, i - 1))
  }

  // ffi_call_int, as far as the arguments go
  method Marshal(types: seq<ArgType>, size: nat, base: nat, data: seq<seq<Byte>>) returns (m: Memory, s: ArgState)
    requires DataOK(types, data)
    ensures m == MemoryAt(types, size, base, data, |types|) && s == CallAt(types, size, |types|)
  {
    hide Write, TypeOK, CallStep, StructDest;
    m, s := map[], Init(size);
    for i := 0 to |types|
      invariant s == CallAt(types, size, i) && m == MemoryAt(types, size, base, data, i)
    {
      var slot, dest, t := Outgoing(types[i], s);
      s := t;
      m := WriteAll(m, Pieces(types[i], slot, dest, base, data[i]));
    }
  }

  // The body of its loop, up to the writes
  method Outgoing(ty: ArgType, s0: ArgState) returns (slot: Slot, dest: int, s: ArgState)
    requires TypeOK(ty)
    ensures (slot, s) == CallStep(ty, s0) && AlignOf(ty) > 0
    ensures dest == if ByRef(ty) then StructDest(s0, ty) else 0
  {
    hide AlignUp, AlignDown;
    dest, s := 0, s0;
    match ty {
      case Int(n, _) =>
        slot, s := PointerOrInt(ty, s, AlignOf(ty), n);
      case Hfa(n, _, alignment) =>
        if s.nsrn + n <= N_V_ARG_REG {
          slot := InV(s.nsrn);
          s := s.(nsrn := s.nsrn + n);
        } else {
          s := s.(nsrn := N_V_ARG_REG);
          var (d, t) := ToStack(s, alignment, Size(ty));
          slot, s := d, t;
        }
      case Composite(bytes, alignment) =>
        if bytes > 16 {
          dest := AlignDown(s.nextStructArea - bytes, alignment);
          s := s.(nextStructArea := dest);
          slot, s := PointerOrInt(ty, s, alignment, 8);
        } else if s.ngrn + (bytes + 7) / 8 <= N_X_ARG_REG {
          slot := InX(s.ngrn);
          s := s.(ngrn := s.ngrn + (bytes + 7) / 8);
        } else {
          s := s.(ngrn := N_X_ARG_REG);
          var (d, t) := ToStack(s, alignment, bytes);
          slot, s := d, t;
        }
    }
  }

  // The code after the label do_pointer
  method PointerOrInt(ty: ArgType, s: ArgState, alignment: nat, size: nat) returns (slot: Slot, t: ArgState)
    ensures (slot, t) ==
              if s.ngrn < N_X_ARG_REG then (InX(s.ngrn), s.(ngrn := s.ngrn + 1))
              else (ToStack(s, alignment, size).0, ToStack(s, alignment, size).1.(ngrn := N_X_ARG_REG))
  {
    if s.ngrn < N_X_ARG_REG {
      slot, t := InX(s.ngrn), s.(ngrn := s.ngrn + 1);
    } else {
      var (d, r) := ToStack(s, alignment, size);
      slot, t := d, r.(ngrn := N_X_ARG_REG);
    }
  }

  // ffi_closure_SYSV_inner
  method Unmarshal(types: seq<ArgType>, size: nat, base: nat, m: Memory) returns (values: seq<seq<int>>)
    requires AllOK(types)
    ensures |values| == |types|
    ensures forall i :: 0 <= i < |values| ==> values[i] == Received(types[i], ClosureSlot(types, size, i), base, m)
  {
    hide TypeOK, Received, ClosureStep;
    values := [];
    var s := Init(size);
    for i := 0 to |types|
      invariant s == ClosureAt(types, size, i) && |values| == i
      invariant forall j :: 0 <= j < i ==> values[j] == Received(types[j], ClosureSlot(types, size, j), base, m)
    {
      var slot, t := Incoming(types[i], s);
      s := t;
      values := values + [Received(types[i], slot, base, m)];
    }
  }

  // The body of its loop
  method Incoming(ty: ArgType, s0: ArgState) returns (slot: Slot, s: ArgState)
    requires TypeOK(ty)
    ensures (slot, s) == ClosureStep(ty, s0)
  {
    hide AlignUp;
    s := s0;
    match ty {
      case Int(n, _) =>
        var (d, t) := IntToRegOrStack(s, n);
        slot, s := d, t;
      case Hfa(n, _, alignment) =>
        if s.nsrn + n <= N_V_ARG_REG {
          slot := InV(s.nsrn);
          s := s.(nsrn := s.nsrn + n);
        } else {
          s := s.(nsrn := N_V_ARG_REG);
          var (d, t) := ToStack(s, alignment, Size(ty));
          slot, s := d, t;
        }
      case Composite(bytes, alignment) =>
        if bytes > 16 {
          var (d, t) := IntToRegOrStack(s, 8);
          slot, s := d, t;
        } else if s.ngrn + (bytes + 7) / 8 <= N_X_ARG_REG {
          slot := InX(s.ngrn);
          s := s.(ngrn := s.ngrn + (bytes + 7) / 8);
        } else {
          s := s.(ngrn := N_X_ARG_REG);
          var (d, t) := ToStack(s, alignment, bytes);
          slot, s := d, t;
        }
    }
  }

  // ---- Nothing is overwritten -----------------------------------------------------------

  // The bytes an argument takes at its slot: whole words or 16-byte images, or just its own.
  function Extent(ty: ArgType, slot: Slot): nat {
    if slot.InV? then (if ty.Hfa? then 16 * ty.n else 0)
    else if ty.Int? || ByRef(ty) then 8
    else if slot.InX? then 8 * XRegs(ty)
    else Size(ty)
  }

  ghost predicate StateOK(s: ArgState) { s.ngrn <= 8 && s.nsrn <= 8 }

  // An argument placed before state s lies below what s hands out next.
  ghost predicate Below(s: ArgState, slot: Slot, extent: nat) {
    match slot
    case InX(_) => AddressOf(slot) + extent <= -64 + 8 * s.ngrn
    case InV(_) => AddressOf(slot) + extent <= -192 + 16 * s.nsrn
    case OnStack(o) => o + extent <= AlignUp(s.nsaa, 8)
  }

  lemma ToStackUp(s: ArgState, alignment: nat, size: nat, extent: nat)
    requires PowerOrWide(alignment) && (extent <= size || (extent <= 8 && size > 0))
    ensures var (slot, t) := ToStack(s, alignment, size);
            && slot.offset >= AlignUp(s.nsaa, 8) && slot.offset + extent <= AlignUp(t.nsaa, 8)
            && AlignUp(s.nsaa, 8) <= AlignUp(t.nsaa, 8)
  {
    hide AlignUp;
    var a := Widened(alignment);
    assert a % 8 == 0;
    Aligned(s.nsaa, a);
    AlignTwice(s.nsaa, 8, a);
    Aligned(AlignUp(s.nsaa, 8), a);
    MultipleOf(AlignUp(s.nsaa, a), a, 8);
    AlignShift(size, AlignUp(s.nsaa, a), 8);
    Aligned(size, 8);
    if size > 0 && AlignUp(size, 8) < 8 {
      Multiples(0, AlignUp(size, 8), 8);
    }
  }

  lemma StepPlaces(ty: ArgType, s: ArgState)
    requires TypeOK(ty) && StateOK(s)
    ensures var (slot, t) := CallStep(ty, s);
            && StateOK(t) && Below(t, slot, Extent(ty, slot))
            && AlignUp(s.nsaa, 8) <= AlignUp(t.nsaa, 8) && s.ngrn <= t.ngrn && s.nsrn <= t.nsrn
            && (slot.InX? ==> slot.reg == s.ngrn) && (slot.InV? ==> slot.reg == s.nsrn)
            && (slot.OnStack? ==> slot.offset >= AlignUp(s.nsaa, 8))
            && (slot.InV? ==> ty.Hfa?)
  {
    hide AlignUp;
    ToStackUp(s, AlignOf(ty), Size(ty), if ty.Int? then 8 else Size(ty));
    ToStackUp(s, AlignOf(ty), 8, 8);
  }

  lemma StaysBelow(s: ArgState, t: ArgState, slot: Slot, extent: nat)
    requires Below(s, slot, extent) && AlignUp(s.nsaa, 8) <= AlignUp(t.nsaa, 8) && s.ngrn <= t.ngrn && s.nsrn <= t.nsrn
    ensures Below(t, slot, extent)
  {
  }

  lemma {:induction false} StateKept(types: seq<ArgType>, size: nat, i: nat)
    requires AllOK(types) && i <= |types|
    ensures StateOK(CallAt(types, size, i))
  {
    hide CallStep, TypeOK;
    if i > 0 {
      StateKept(types, size, i - 1);
      StepPlaces(types[i - 1], CallAt(types, size, i - 1));
    }
  }

  lemma {:induction false} EarlierBelow(types: seq<ArgType>, size: nat, j: nat, i: nat)
    requires AllOK(types) && j < i <= |types|
    ensures Below(CallAt(types, size, i), CallSlot(types, size, j), Extent(types[j], CallSlot(types, size, j)))
  {
    hide CallStep, TypeOK, AlignUp, Below;
    StateKept(types, size, i - 1);
    StepPlaces(types[i - 1], CallAt(types, size, i - 1));
    if j < i - 1 {
      EarlierBelow(types, size, j, i - 1);
      StaysBelow(CallAt(types, size, i - 1), CallAt(types, size, i), CallSlot(types, size, j),
                 Extent(types[j], CallSlot(types, size, j)));
    }
  }

  // The slots of two arguments share no byte.
  lemma SlotsApart(types: seq<ArgType>, size: nat, j: nat, i: nat)
    requires AllOK(types) && j < i < |types|
    ensures var (s, t) := (CallSlot(types, size, j), CallSlot(types, size, i));
            Separate(AddressOf(s), Extent(types[j], s), AddressOf(t), Extent(types[i], t))
  {
    hide CallStep, TypeOK, AlignUp;
    StateKept(types, size, i);
    StateKept(types, size, j);
    EarlierBelow(types, size, j, i);
    StepPlaces(types[j], CallAt(types, size, j));
    StepPlaces(types[i], CallAt(types, size, i));
  }

  // Where a copy goes, it ends by where the structure area started, and it stays above what is
  // allocated later.
  lemma CopyPlaces(ty: ArgType, s: ArgState)
    requires TypeOK(ty)
    ensures CallStep(ty, s).1.nextStructArea <= s.nextStructArea
    ensures ByRef(ty) ==>
              CallStep(ty, s).1.nextStructArea == StructDest(s, ty) && StructDest(s, ty) + Size(ty) <= s.nextStructArea
  {
    hide AlignUp;
    if ByRef(ty) {
      DownBelow(s.nextStructArea - Size(ty), AlignOf(ty));
    }
  }

  // It starts at the last multiple of its alignment from which it still ends there.
  lemma CopySpot(ty: ArgType, s: ArgState)
    requires TypeOK(ty) && ByRef(ty)
    ensures StructDest(s, ty) % AlignOf(ty) == 0
    ensures StructDest(s, ty) + Size(ty) <= s.nextStructArea < StructDest(s, ty) + Size(ty) + AlignOf(ty)
  {
    DownBelow(s.nextStructArea - Size(ty), AlignOf(ty));
  }

  lemma DownBelow(x: int, a: nat)
    requires a > 0
    ensures AlignDown(x, a) <= x < AlignDown(x, a) + a && AlignDown(x, a) % a == 0
  {
    Multiple(a, x / a);
  }

  lemma Multiple(a: nat, q: int)
    requires a > 0
    ensures q * a % a == 0
  {
    var r, k := q * a % a, q * a / a;
    assert a * (q - k) == r;
    if q > k {
      AtLeastOnce(a, q - k);
    } else if q < k {
      AtLeastOnce(a, k - q);
    }
  }

  lemma {:induction false} AreaShrinks(types: seq<ArgType>, size: nat, j: nat, i: nat)
    requires AllOK(types) && j <= i <= |types|
    ensures CallAt(types, size, i).nextStructArea <= CallAt(types, size, j).nextStructArea
    decreases i - j
  {
    hide CallStep, TypeOK;
    if j < i {
      AreaShrinks(types, size, j, i - 1);
      CopyPlaces(types[i - 1], CallAt(types, size, i - 1));
    }
  }

  ghost function DestOf(types: seq<ArgType>, size: nat, i: nat): int
    requires AllOK(types) && i < |types|
  {
    if ByRef(types[i]) then StructDest(CallAt(types, size, i), types[i]) else 0
  }

  lemma CopiesApart(types: seq<ArgType>, size: nat, j: nat, i: nat)
    requires AllOK(types) && j < i < |types| && ByRef(types[j]) && ByRef(types[i])
    ensures Separate(DestOf(types, size, j), Size(types[j]), DestOf(types, size, i), Size(types[i]))
  {
    hide CallStep, TypeOK, StructDest;
    CopyPlaces(types[j], CallAt(types, size, j));
    CopyPlaces(types[i], CallAt(types, size, i));
    AreaShrinks(types, size, j + 1, i);
  }

  // With the areas disjoint no slot meets a copy.
  lemma SlotAndCopyApart(types: seq<ArgType>, size: nat, j: nat, i: nat)
    requires AllOK(types) && j < |types| && i < |types| && ByRef(types[i]) && Disjoint(types, size)
    ensures var s := CallSlot(types, size, j);
            Separate(AddressOf(s), Extent(types[j], s), DestOf(types, size, i), Size(types[i])) &&
              DestOf(types, size, i) >= 0
  {
    hide CallStep, TypeOK, StructDest, AlignUp;
    var n := |types|;
    EarlierBelow(types, size, j, n);
    StateKept(types, size, n);
    CopyPlaces(types[i], CallAt(types, size, i));
    AreaShrinks(types, size, i + 1, n);
    NotNegative(CallAt(types, size, n).nsaa);
  }

  lemma NotNegative(x: nat)
    ensures AlignUp(x, 8) >= 0
  {
  }

  // ---- Every argument arrives -----------------------------------------------------------

  ghost predicate Holds(m: Memory, p: Piece) { HoldsAt(m, p.at, p.bytes) }

  ghost predicate AllHold(m: Memory, ps: seq<Piece>) { forall k :: 0 <= k < |ps| ==> Holds(m, ps[k]) }

  lemma {:induction false} UntouchedByAll(m: Memory, p: Piece, qs: seq<Piece>)
    requires Holds(m, p) && forall k :: 0 <= k < |qs| ==> Separate(p.at, |p.bytes|, qs[k].at, |qs[k].bytes|)
    ensures Holds(WriteAll(m, qs), p)
    decreases |qs|
  {
    hide HoldsAt, Write;
    if qs != [] {
      var last := |qs| - 1;
      UntouchedByAll(m, p, qs[..last]);
      Untouched(WriteAll(m, qs[..last]), p.at, p.bytes, qs[last].at, qs[last].bytes);
    }
  }

  // The pieces of one argument are apart from each other.
  ghost predicate Scattered(ps: seq<Piece>) {
    forall j, k :: 0 <= j < k < |ps| ==> Separate(ps[j].at, |ps[j].bytes|, ps[k].at, |ps[k].bytes|)
  }

  lemma {:induction false} AllWritten(m: Memory, ps: seq<Piece>)
    requires Scattered(ps)
    ensures AllHold(WriteAll(m, ps), ps)
    decreases |ps|
  {
    hide HoldsAt, Write;
    if ps != [] {
      var last := |ps| - 1;
      AllWritten(m, ps[..last]);
      Written(WriteAll(m, ps[..last]), ps[last].at, ps[last].bytes);
      forall k | 0 <= k < |ps| ensures Holds(WriteAll(m, ps), ps[k]) {
        if k < last {
          assert ps[..last][k] == ps[k];
          Untouched(WriteAll(m, ps[..last]), ps[k].at, ps[k].bytes, ps[last].at, ps[last].bytes);
        }
      }
    }
  }

  // Every piece lies at the argument's slot or is the copy.
  ghost predicate Inside(p: Piece, a: int, extent: nat) { a <= p.at && p.at + |p.bytes| <= a + extent }

  lemma PiecesInside(ty: ArgType, s: ArgState, dest: int, base: nat, data: seq<Byte>)
    requires TypeOK(ty) && |data| == Size(ty) && StateOK(s)
    ensures var slot := CallStep(ty, s).0;
            var ps := Pieces(ty, slot, dest, base, data);
            forall k :: 0 <= k < |ps| ==>
              Inside(ps[k], AddressOf(slot), Extent(ty, slot)) || (ByRef(ty) && ps[k] == Piece(dest, data))
  {
    hide AlignUp, AlignDown, PowerOrWide;
    var slot := CallStep(ty, s).0;
    if ty.Hfa? && slot.InV? {
      SpreadCount(AddressOf(slot), ty.unit, data, ty.n);
    }
  }

  lemma PiecesScattered(ty: ArgType, slot: Slot, dest: int, base: nat, data: seq<Byte>)
    requires TypeOK(ty) && |data| == Size(ty)
    requires ByRef(ty) ==> Separate(AddressOf(slot), 8, dest, Size(ty))
    ensures Scattered(Pieces(ty, slot, dest, base, data))
  {
  }

  // Pieces of different arguments are apart.
  lemma OthersApart(types: seq<ArgType>, size: nat, base: nat, data: seq<seq<Byte>>, j: nat, k: nat, i: nat)
    requires DataOK(types, data) && j < i < |types| && Disjoint(types, size) &&
             k < |PiecesOf(types, size, base, data, j)|
    ensures var p := PiecesOf(types, size, base, data, j)[k];
            var qs := PiecesOf(types, size, base, data, i);
            forall l :: 0 <= l < |qs| ==> Separate(p.at, |p.bytes|, qs[l].at, |qs[l].bytes|)
  {
    hide CallStep, TypeOK, StructDest, AlignUp, Pieces, Extent, AddressOf;
    StateKept(types, size, j);
    StateKept(types, size, i);
    PiecesInside(types[j], CallAt(types, size, j), DestOf(types, size, j), base, data[j]);
    PiecesInside(types[i], CallAt(types, size, i), DestOf(types, size, i), base, data[i]);
    SlotsApart(types, size, j, i);
    if ByRef(types[j]) {
      SlotAndCopyApart(types, size, i, j);
    }
    if ByRef(types[i]) {
      SlotAndCopyApart(types, size, j, i);
    }
    if ByRef(types[j]) && ByRef(types[i]) {
      CopiesApart(types, size, j, i);
    }
  }

  lemma {:induction false} Survive(types: seq<ArgType>, size: nat, base: nat, data: seq<seq<Byte>>, j: nat, i: nat)
    requires DataOK(types, data) && j < i <= |types| && Disjoint(types, size)
    ensures AllHold(MemoryAt(types, size, base, data, i), PiecesOf(types, size, base, data, j))
    decreases i
  {
    hide PiecesOf, Holds, TypeOK;
    var before, ps := MemoryAt(types, size, base, data, i - 1), PiecesOf(types, size, base, data, j);
    if j < i - 1 {
      Survive(types, size, base, data, j, i - 1);
      forall k | 0 <= k < |ps| ensures Holds(MemoryAt(types, size, base, data, i), ps[k]) {
        OthersApart(types, size, base, data, j, k, i - 1);
        UntouchedByAll(before, ps[k], PiecesOf(types, size, base, data, i - 1));
      }
    } else {
      OwnPieces(types, size, base, data, j);
      AllWritten(before, ps);
    }
  }

  lemma OwnPieces(types: seq<ArgType>, size: nat, base: nat, data: seq<seq<Byte>>, j: nat)
    requires DataOK(types, data) && j < |types| && Disjoint(types, size)
    ensures Scattered(PiecesOf(types, size, base, data, j))
  {
    hide CallStep, TypeOK, StructDest, AlignUp, Pieces, Scattered;
    if ByRef(types[j]) {
      SlotAndCopyApart(types, size, j, j);
      StateKept(types, size, j);
      StepPlaces(types[j], CallAt(types, size, j));
    }
    PiecesScattered(types[j], CallSlot(types, size, j), DestOf(types, size, j), base, data[j]);
  }

  lemma {:induction false} GatherSpread(m: Memory, a: int, unit: nat, data: seq<Byte>, n: nat)
    requires unit > 0 && |data| == n * unit && AllHold(m, Spread(a, unit, data))
    ensures Gathered(m, a, unit, |data|) == data
    decreases n
  {
    hide HoldsAt, Read;
    if n > 0 {
      assert n * unit == (n - 1) * unit + unit;
      var ps, rest := Spread(a, unit, data), Spread(a + 16, unit, data[unit..]);
      assert ps == [Piece(a, data[..unit])] + rest;
      forall k | 0 <= k < |rest| ensures Holds(m, rest[k]) {
        assert rest[k] == ps[k + 1];
      }
      GatherSpread(m, a + 16, unit, data[unit..], n - 1);
      assert ps[0] == Piece(a, data[..unit]) && Holds(m, ps[0]);
      ReadBack(m, ps[0].at, ps[0].bytes, unit);
      assert data == data[..unit] + data[unit..];
    } else {
      assert n * unit == 0;
    }
  }

  lemma Receives(ty: ArgType, slot: Slot, dest: int, base: nat, data: seq<Byte>, m: Memory)
    requires TypeOK(ty) && |data| == Size(ty) && AllHold(m, Pieces(ty, slot, dest, base, data))
    requires ByRef(ty) ==> 0 <= base + dest < Bound(8)
    ensures Received(ty, slot, base, m) == data
  {
    hide HoldsAt, Read, WordBytes, Value, Bound, PowerOrWide;
    var ps := Pieces(ty, slot, dest, base, data);
    if ty.Hfa? && slot.InV? {
      GatherSpread(m, AddressOf(slot), ty.unit, data, ty.n);
    } else if ByRef(ty) {
      assert Holds(m, ps[0]) && Holds(m, ps[1]);
      ReadBack(m, ps[1].at, ps[1].bytes, 8);
      ValueOfBytes(base + dest, 8, Bound(8));
      assert ps[1].bytes[..8] == WordBytes(base + dest, 8);
      ReadBack(m, ps[0].at, ps[0].bytes, |data|);
      assert ps[0].bytes[..|data|] == data;
    } else {
      assert Holds(m, ps[0]);
      ReadBack(m, ps[0].at, ps[0].bytes, |data|);
      assert ps[0].bytes[..|data|] == data;
    }
  }

  // For every argument list whose areas stay apart, and whose copied structures are aligned to at
  // most eight bytes, the closure receives every argument's bytes.
  lemma RoundTrip(types: seq<ArgType>, size: nat, base: nat, data: seq<seq<Byte>>, i: nat)
    requires DataOK(types, data) && i < |types| && Disjoint(types, size) && base + size < Bound(8)
    requires forall j :: 0 <= j < |types| ==> PlainRef(types[j])
    ensures Received(types[i], ClosureSlot(types, size, i), base, MemoryAt(types, size, base, data, |types|)) == data[i]
  {
    hide CallStep, ClosureStep, TypeOK, StructDest, Pieces, Received, AllHold, Bound;
    StatesAgree(types, size, i);
    StepAgrees(types[i], CallAt(types, size, i), ClosureAt(types, size, i));
    Survive(types, size, base, data, i, |types|);
    if ByRef(types[i]) {
      SlotAndCopyApart(types, size, i, i);
      CopyPlaces(types[i], CallAt(types, size, i));
      AreaShrinks(types, size, 0, i);
    }
    Receives(types[i], CallSlot(types, size, i), DestOf(types, size, i), base, data[i],
             MemoryAt(types, size, base, data, |types|));
  }

  // ---- What the callee finds ------------------------------------------------------------

  lemma {:induction false} SpreadAt(a: int, unit: nat, data: seq<Byte>, n: nat, k: nat)
    requires unit > 0 && |data| == n * unit && k < n
    ensures 0 <= k * unit && k * unit + unit <= |data| && k < |Spread(a, unit, data)|
    ensures Spread(a, unit, data)[k] == Piece(a + 16 * k, data[k * unit..k * unit + unit])
    decreases k
  {
    assert n * unit == (n - 1) * unit + unit;
    if k == 0 {
      assert k * unit == 0;
    } else {
      assert k * unit == (k - 1) * unit + unit;
      SpreadAt(a + 16, unit, data[unit..], n - 1, k - 1);
    }
  }

  // The k-th of the elements that start at register r
  ghost predicate ElementIn(m: Memory, r: nat, unit: nat, data: seq<Byte>, k: nat) {
    var from := k * unit;
    0 <= from && from + unit <= |data| && Read(m, AddressOf(InV(r + k)), unit) == data[from..from + unit]
  }

  // The k-th word of a small composite that starts at register r, or what there is of it
  ghost predicate WordIn(m: Memory, r: nat, data: seq<Byte>, k: nat) {
    var to := if 8 * k + 8 <= |data| then 8 * k + 8 else |data|;
    8 * k < |data| ==> Read(m, AddressOf(InX(r + k)), to - 8 * k) == data[8 * k..to]
  }

  // What the callee is to find for an argument at its slot: an integer as a whole register,
  // extended; every element of a homogeneous aggregate at the start of a register of its own; the
  // address of a copy; and else just the bytes, in registers word by word.
  ghost predicate Delivered(ty: ArgType, slot: Slot, dest: int, base: nat, data: seq<Byte>, m: Memory)
    requires TypeOK(ty) && |data| == Size(ty)
  {
    var a := AddressOf(slot);
    match ty
    case Int(_, signed) => Value(Read(m, a, 8)) == Number(data, signed) % Bound(8)
    case Hfa(n, unit, _) =>
      if slot.InV? then forall k :: 0 <= k < n ==> ElementIn(m, slot.reg, unit, data, k)
      else Read(m, a, |data|) == data
    case Composite(_, _) =>
      if ByRef(ty) then Value(Read(m, a, 8)) == base + dest && Read(m, dest, |data|) == data
      else Read(m, a, |data|) == data && (slot.InX? ==> forall k: nat :: WordIn(m, slot.reg, data, k))
  }

  lemma ElementFound(m: Memory, r: nat, unit: nat, data: seq<Byte>, n: nat, k: nat)
    requires unit > 0 && |data| == n * unit && k < n && AllHold(m, Spread(AddressOf(InV(r)), unit, data))
    ensures ElementIn(m, r, unit, data, k)
  {
    hide HoldsAt, Read, Spread;
    var ps := Spread(AddressOf(InV(r)), unit, data);
    SpreadAt(AddressOf(InV(r)), unit, data, n, k);
    assert Holds(m, ps[k]);
    ReadBack(m, ps[k].at, ps[k].bytes, unit);
    assert ps[k].bytes[..unit] == ps[k].bytes;
  }

  lemma WordFound(m: Memory, r: nat, data: seq<Byte>, k: nat)
    requires Read(m, AddressOf(InX(r)), |data|) == data
    ensures WordIn(m, r, data, k)
  {
    hide Read;
    if 8 * k < |data| {
      ReadPart(m, AddressOf(InX(r)), |data|, 8 * k, if 8 * k + 8 <= |data| then 8 * k + 8 else |data|);
    }
  }

  lemma Whole(m: Memory, p: Piece)
    requires Holds(m, p)
    ensures Read(m, p.at, |p.bytes|) == p.bytes
  {
    hide Read;
    ReadBack(m, p.at, p.bytes, |p.bytes|);
    assert p.bytes[..|p.bytes|] == p.bytes;
  }

  lemma PieceDelivers(ty: ArgType, slot: Slot, dest: int, base: nat, data: seq<Byte>, m: Memory)
    requires TypeOK(ty) && |data| == Size(ty) && AllHold(m, Pieces(ty, slot, dest, base, data))
    requires ByRef(ty) ==> 0 <= base + dest < Bound(8)
    ensures Delivered(ty, slot, dest, base, data, m)
  {
    hide HoldsAt, Read, WordBytes, Value, Bound, Number, Lengthened, Spread, PowerOrWide, ElementIn, WordIn;
    var ps := Pieces(ty, slot, dest, base, data);
    if ty.Int? {
      Whole(m, ps[0]);
      LengthenedIs(data, ty.signed, 8);
    } else if ty.Hfa? && slot.InV? {
      forall k | 0 <= k < ty.n ensures ElementIn(m, slot.reg, ty.unit, data, k) {
        ElementFound(m, slot.reg, ty.unit, data, ty.n, k);
      }
    } else if ByRef(ty) {
      Whole(m, ps[0]);
      Whole(m, ps[1]);
      ValueOfBytes(base + dest, 8, Bound(8));
    } else {
      Whole(m, ps[0]);
      if slot.InX? {
        forall k: nat ensures WordIn(m, slot.reg, data, k) {
          WordFound(m, slot.reg, data, k);
        }
      }
    }
  }

  // So does every callee that relies on nothing but the registers and the stack, for every list of
  // arguments whose areas stay apart.
  lemma AllDelivered(types: seq<ArgType>, size: nat, base: nat, data: seq<seq<Byte>>, i: nat)
    requires DataOK(types, data) && i < |types| && Disjoint(types, size) && base + size < Bound(8)
    ensures Delivered(types[i], CallSlot(types, size, i), DestOf(types, size, i), base, data[i],
                      MemoryAt(types, size, base, data, |types|))
  {
    hide CallStep, ClosureStep, TypeOK, StructDest, Pieces, AllHold, Bound, Delivered;
    Survive(types, size, base, data, i, |types|);
    if ByRef(types[i]) {
      SlotAndCopyApart(types, size, i, i);
      CopyPlaces(types[i], CallAt(types, size, i));
      AreaShrinks(types, size, 0, i);
    }
    PieceDelivers(types[i], CallSlot(types, size, i), DestOf(types, size, i), base, data[i],
                  MemoryAt(types, size, base, data, |types|));
  }
}
