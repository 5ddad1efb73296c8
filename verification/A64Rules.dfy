// Where arguments go on AArch64, told from the list of their types alone: by sums over the earlier
// arguments instead of a state. Both sides of a call follow these rules.

module A64Rules {
  import opened Align
  import opened A64Args

  // The least number of eight-byte words that hold so many bytes
  function WordsFor(bytes: nat): (n: nat)
    ensures 8 * n >= bytes && forall k: nat :: 8 * k >= bytes ==> n <= k
  {
    if bytes == 0 then 0 else if bytes <= 8 then 1 else 1 + WordsFor(bytes - 8)
  }

  // The registers of either kind that an argument takes if it gets any: one for an integer or the
  // address of a copy, as many as hold a small composite, one for every floating-point value.
  function XNeed(ty: ArgType): nat {
    match ty
    case Int(_, _) => 1
    case Hfa(_, _, _) => 0
    case Composite(bytes, _) => if bytes > 16 then 1 else WordsFor(bytes)
  }

  function VNeed(ty: ArgType): nat { if ty.Hfa? then ty.n else 0 }

  function XSum(types: seq<ArgType>, i: nat): nat
    requires i <= |types|
  {
    if i == 0 then 0 else XSum(types, i - 1) + XNeed(types[i - 1])
  }

  function VSum(types: seq<ArgType>, i: nat): nat
    requires i <= |types|
  {
    if i == 0 then 0 else VSum(types, i - 1) + VNeed(types[i - 1])
  }

  // An argument is in registers if it and all before it that want the same kind fit in eight.
  predicate InRegs(types: seq<ArgType>, i: nat)
    requires i < |types|
  {
    if types[i].Hfa? then VSum(types, i + 1) <= 8 else XSum(types, i + 1) <= 8
  }

  // What an argument takes on the stack, and at multiples of what; the address of a copy is aligned
  // like the copy.
  function StackBytes(ty: ArgType): nat { if ty.Composite? && ty.bytes > 16 then 8 else Size(ty) }

  function StackAlign(ty: ArgType): (a: nat)
    ensures a >= 8
  {
    if AlignOf(ty) > 8 then AlignOf(ty) else 8
  }

  // The end of the last of the first i arguments that are on the stack
  function StackEnd(types: seq<ArgType>, i: nat): nat
    requires i <= |types|
    decreases i, 0
  {
    if i == 0 then 0
    else if InRegs(types, i - 1) then StackEnd(types, i - 1)
    else StackSpot(types, i - 1) + StackBytes(types[i - 1])
  }

  function StackSpot(types: seq<ArgType>, i: nat): (o: nat)
    requires i < |types|
    ensures o % StackAlign(types[i]) == 0
    ensures StackEnd(types, i) <= o < StackEnd(types, i) + StackAlign(types[i])
    decreases i, 1
  {
    Aligned(StackEnd(types, i), StackAlign(types[i]));
    AlignUp(StackEnd(types, i), StackAlign(types[i]))
  }

  function PlaceOf(types: seq<ArgType>, i: nat): Slot
    requires i < |types|
  {
    if !InRegs(types, i) then OnStack(StackSpot(types, i))
    else if types[i].Hfa? then InV(VSum(types, i))
    else InX(XSum(types, i))
  }

  // ---- The rules are kept ---------------------------------------------------------------

  function UpTo8(n: nat): nat { if n < 8 then n else 8 }

  // The state as the rules tell it
  ghost predicate AsTold(types: seq<ArgType>, i: nat, s: ArgState)
    requires i <= |types|
  {
    s.ngrn == UpTo8(XSum(types, i)) && s.nsrn == UpTo8(VSum(types, i)) && s.nsaa == StackEnd(types, i)
  }

  lemma WordsAreXRegs(bytes: nat)
    ensures WordsFor(bytes) == (bytes + 7) / 8
  {
    assert 8 * ((bytes + 7) / 8) >= bytes;
    assert forall k: nat :: 8 * k >= bytes ==> (bytes + 7) / 8 <= k;
  }

  lemma CallFollows(types: seq<ArgType>, i: nat, s: ArgState)
    requires i < |types| && TypeOK(types[i]) && AsTold(types, i, s)
    ensures CallStep(types[i], s).0 == PlaceOf(types, i) && AsTold(types, i + 1, CallStep(types[i], s).1)
  {
    hide AlignUp, PowerOrWide, WordsFor;
    if types[i].Composite? {
      WordsAreXRegs(types[i].bytes);
    }
  }

  lemma ClosureFollows(types: seq<ArgType>, i: nat, s: ArgState)
    requires i < |types| && TypeOK(types[i]) && PlainRef(types[i]) && AsTold(types, i, s)
    ensures ClosureStep(types[i], s).0 == PlaceOf(types, i) && AsTold(types, i + 1, ClosureStep(types[i], s).1)
  {
    hide CallStep, ClosureStep;
    CallFollows(types, i, s);
    StepAgrees(types[i], s, s);
  }

  lemma {:induction false} StatesAsTold(types: seq<ArgType>, size: nat, i: nat)
    requires AllOK(types) && i <= |types|
    ensures AsTold(types, i, CallAt(types, size, i))
    ensures (forall j :: 0 <= j < i ==> PlainRef(types[j])) ==> AsTold(types, i, ClosureAt(types, size, i))
  {
    hide CallStep, ClosureStep, AsTold, TypeOK;
    if i == 0 {
      NothingYet(types, size);
    } else {
      StatesAsTold(types, size, i - 1);
      CallFollows(types, i - 1, CallAt(types, size, i - 1));
      if forall j :: 0 <= j < i ==> PlainRef(types[j]) {
        ClosureFollows(types, i - 1, ClosureAt(types, size, i - 1));
      }
    }
  }

  lemma NothingYet(types: seq<ArgType>, size: nat)
    requires AllOK(types)
    ensures AsTold(types, 0, CallAt(types, size, 0)) && AsTold(types, 0, ClosureAt(types, size, 0))
  {
  }

  // For every list the call puts every argument where the rules say, and the closure looks for it
  // there, unless a structure passed by reference is aligned to more than eight bytes.
  lemma PlacesAsTold(types: seq<ArgType>, size: nat, i: nat)
    requires AllOK(types) && i < |types|
    ensures CallSlot(types, size, i) == PlaceOf(types, i)
    ensures (forall j :: 0 <= j <= i ==> PlainRef(types[j])) ==> ClosureSlot(types, size, i) == PlaceOf(types, i)
  {
    hide CallStep, ClosureStep, AsTold, TypeOK, PlaceOf;
    StatesAsTold(types, size, i);
    CallFollows(types, i, CallAt(types, size, i));
    if forall j :: 0 <= j <= i ==> PlainRef(types[j]) {
      ClosureFollows(types, i, ClosureAt(types, size, i));
    }
  }

  // ---- What the rules mean --------------------------------------------------------------

  lemma {:induction false} SumsGrow(types: seq<ArgType>, j: nat, i: nat)
    requires j <= i <= |types|
    ensures XSum(types, j) <= XSum(types, i) && VSum(types, j) <= VSum(types, i)
    decreases i - j
  {
    if j < i {
      SumsGrow(types, j, i - 1);
    }
  }

  // An argument is on the stack exactly if fewer registers are left than it needs,
  lemma StackedIff(types: seq<ArgType>, size: nat, i: nat)
    requires AllOK(types) && i < |types|
    ensures CallSlot(types, size, i).OnStack? <==>
              if types[i].Hfa? then 8 - CallAt(types, size, i).nsrn < types[i].n
              else 8 - CallAt(types, size, i).ngrn < XNeed(types[i])
  {
    hide CallStep;
    PlacesAsTold(types, size, i);
    StatesAsTold(types, size, i);
  }

  // and then no later one that wants the same kind is in registers.
  lemma ClosedForGood(types: seq<ArgType>, size: nat, j: nat, i: nat)
    requires AllOK(types) && j < i < |types| && types[i].Hfa? == types[j].Hfa?
    ensures CallSlot(types, size, j).OnStack? ==> CallSlot(types, size, i).OnStack?
  {
    hide CallSlot, StackSpot, XNeed, VNeed;
    PlacesAsTold(types, size, j);
    PlacesAsTold(types, size, i);
    SumsGrow(types, j + 1, i);
  }
}
