// The procedure call standard for 32-bit ARM, section 5.5 of ARM IHI 0042 with the rules for VFP
// registers of section 6.1.2.3, as a reference for where ffi_call_int puts arguments. The
// soft-float walker follows it always; the hard-float one departs from it in one case, told here
// exactly.

module ArmRules {
  import opened Align
  import opened VfpLayout
  import opened ArmArgs
  import opened ArmCalls
  import opened ArmBytes

  // The next core register number, and the next stacked argument address in words from the start
  // of the stack area; how many candidates have been through.
  datatype Rules = Rules(ncrn: nat, nsaa: nat, vi: nat)

  // The least number of words that hold so many bytes
  function WordsFor(bytes: nat): (n: nat)
    ensures 4 * n >= bytes && forall k: nat :: 4 * k >= bytes ==> n <= k
  {
    if bytes == 0 then 0 else if bytes <= 4 then 1 else 1 + WordsFor(bytes - 4)
  }

  // Rounded up to an even number for a doubleword-aligned type
  function Evened(ty: ArgType, k: nat): nat { if ty.alignment == 8 && k % 2 == 1 then k + 1 else k }

  // Stage C.3 and C.4: with r core registers gone, the argument fits in the others.
  predicate FitsFrom(ty: ArgType, r: nat) { Evened(ty, r) + WordsFor(ty.size) <= 4 }

  // Stage C.7 and C.8
  function RuleStacked(c: Call, ty: ArgType, s: Rules): (Slot, Rules) {
    var n := Evened(ty, s.nsaa);
    (InMem(c.base + 16 + 4 * n), s.(nsaa := n + WordsFor(ty.size)))
  }

  // Stage C for one argument, with the entries of vfp_args for C.1.vfp
  function RuleStep(c: Call, ty: ArgType, s: Rules): (Slot, Rules) {
    if ty.vfp != NotVfp then
      if s.vi < |c.vfpArgs| then (InVfp(c.vfpArgs[s.vi]), s.(vi := s.vi + 1)) else RuleStacked(c, ty, s)
    else
      var r, w := Evened(ty, s.ncrn), WordsFor(ty.size);
      if FitsFrom(ty, s.ncrn) then (InMem(c.base + 4 * r), s.(ncrn := r + w))
      else if r < 4 && s.nsaa == 0 then (InMem(c.base + 4 * r), s.(ncrn := 4, nsaa := r + w - 4))
      else RuleStacked(c, ty, s.(ncrn := 4))
  }

  // Stage A
  function RulesAt(c: Call, i: nat): Rules
    requires i <= |c.types|
  {
    if i == 0 then Rules(if c.inMemory then 1 else 0, 0, 0) else RuleStep(c, c.types[i - 1], RulesAt(c, i - 1)).1
  }

  function RuleSlot(c: Call, i: nat): Slot
    requires i < |c.types|
  {
    RuleStep(c, c.types[i], RulesAt(c, i)).0
  }

  // ---- Words and addresses --------------------------------------------------------------

  lemma SpotIs(base: nat, ty: ArgType, k: nat)
    requires Natural(ty) && base % 8 == 0
    ensures At(ty, base + 4 * k) == base + 4 * Evened(ty, k)
  {
    hide AlignUp;
    var a, y := Alignment(ty), base + 4 * Evened(ty, k);
    if ty.alignment == 8 {
      assert y % 8 == 0;
      AlignedIs(base + 4 * k, 8, y);
    } else {
      assert a == 4 && y % 4 == 0;
      AlignedIs(base + 4 * k, 4, y);
    }
  }

  lemma SizeIs(ty: ArgType)
    requires TypeOK(ty)
    ensures PutSize(ty) == 4 * WordsFor(ty.size) && WordsFor(ty.size) > 0
    ensures forall m: int :: Padded(ty) <= 4 * m <==> WordsFor(ty.size) <= m
  {
    hide AlignUp;
    AlignedIs(ty.size, 4, 4 * WordsFor(ty.size));
    var n := WordsFor(ty.size);
    assert 4 * (n - 1) < ty.size by {
      assert n > 0;
      var k: nat := n - 1;
      assert 4 * k >= ty.size ==> n <= k;
    }
  }

  // ---- Following the rules --------------------------------------------------------------

  ghost predicate CallFine(c: Call) { CallOK(c) && c.base % 8 == 0 && AllNatural(c.types) }

  // The hard-float walker's cursors are where the rules are.
  ghost predicate Together(c: Call, s: Cursors, a: Rules) {
    && s.vi == a.vi && s.argp == c.base + 16 + 4 * a.nsaa && a.ncrn <= 4 && (s.stackUsed <==> a.nsaa > 0)
    && (if s.done then a.ncrn == 4 else s.regp == c.base + 4 * a.ncrn && (a.ncrn == 4 ==> s.stackUsed))
  }

  // The rules close the core registers for good, with some of them free.
  ghost predicate Skips(c: Call, j: nat)
    requires j < |c.types|
  {
    var ty, a := c.types[j], RulesAt(c, j);
    ty.vfp == NotVfp && a.nsaa > 0 && a.ncrn < 4 && !FitsFrom(ty, a.ncrn)
  }

  // The walker keeps them open from r on.
  ghost predicate Lagging(c: Call, s: Cursors, a: Rules, r: nat) {
    && s.vi == a.vi && s.argp == c.base + 16 + 4 * a.nsaa && a.ncrn == 4 && s.stackUsed && !s.done
    && s.regp == c.base + 4 * r && r < 4
  }

  lemma StepTogether(c: Call, ty: ArgType, s: Cursors, a: Rules)
    requires c.base % 8 == 0 && Natural(ty) && Together(c, s, a)
    ensures CallStep(c, ty, s).0 == RuleStep(c, ty, a).0
    ensures if ty.vfp == NotVfp && a.nsaa > 0 && a.ncrn < 4 && !FitsFrom(ty, a.ncrn) then
              Lagging(c, CallStep(c, ty, s).1, RuleStep(c, ty, a).1, a.ncrn)
            else Together(c, CallStep(c, ty, s).1, RuleStep(c, ty, a).1)
  {
    hide At, PutSize, Padded, WordsFor, TypeOK, Natural, Evened, FitsFrom;
    RegisterSpot(c.base, ty, a.ncrn);
    StackSpot(c.base, ty, a.nsaa);
  }

  // What the walker computes of an argument, in words
  lemma RegisterSpot(base: nat, ty: ArgType, r: nat)
    requires base % 8 == 0 && Natural(ty) && r <= 4
    ensures At(ty, base + 4 * r) == base + 4 * Evened(ty, r) && r <= Evened(ty, r) <= 4
    ensures At(ty, base + 4 * r) + Padded(ty) <= base + 16 <==> FitsFrom(ty, r)
    ensures FitsFrom(ty, r) <==> Evened(ty, r) + WordsFor(ty.size) <= 4
    ensures PutSize(ty) == 4 * WordsFor(ty.size) && WordsFor(ty.size) > 0
  {
    hide At, PutSize, Padded, WordsFor, TypeOK;
    SpotIs(base, ty, r);
    SizeIs(ty);
    var m := 4 - Evened(ty, r);
    assert Padded(ty) <= 4 * m <==> WordsFor(ty.size) <= m;
  }

  lemma StackSpot(base: nat, ty: ArgType, n: nat)
    requires base % 8 == 0 && Natural(ty)
    ensures At(ty, base + 16 + 4 * n) == base + 16 + 4 * Evened(ty, n) && n <= Evened(ty, n)
    ensures n == 0 ==> Evened(ty, n) == 0
  {
    hide At, TypeOK;
    SpotIs(base, ty, n + 4);
    assert Evened(ty, n + 4) == Evened(ty, n) + 4;
  }

  // Behind the rules the walker differs exactly at the next argument that fits.
  lemma StepLagging(c: Call, ty: ArgType, s: Cursors, a: Rules, r: nat)
    requires c.base % 8 == 0 && Natural(ty) && Lagging(c, s, a, r)
    ensures if ty.vfp == NotVfp && FitsFrom(ty, r) then
              CallStep(c, ty, s).0 == InMem(c.base + 4 * Evened(ty, r)) != RuleStep(c, ty, a).0
            else CallStep(c, ty, s).0 == RuleStep(c, ty, a).0
                 && Lagging(c, CallStep(c, ty, s).1, RuleStep(c, ty, a).1, r)
  {
    hide At, PutSize, Padded, WordsFor, TypeOK, Natural, Evened, FitsFrom;
    RegisterSpot(c.base, ty, r);
    RegisterSpot(c.base, ty, 4);
    StackSpot(c.base, ty, a.nsaa);
  }

  // A later argument fits in the registers that j left free.
  ghost predicate Overtakes(c: Call, j: nat, i: nat)
    requires j < i < |c.types|
  {
    Skips(c, j) && c.types[i].vfp == NotVfp && FitsFrom(c.types[i], RulesAt(c, j).ncrn)
  }

  ghost predicate NoneBefore(c: Call, i: nat)
    requires i <= |c.types|
  {
    forall j, k :: 0 <= j < k < i ==> !Overtakes(c, j, k)
  }

  // Where the two are before argument i; some is the argument that was skipped, i if none was.
  ghost predicate Standing(c: Call, i: nat, some: nat)
    requires some <= i <= |c.types|
  {
    && (forall j :: 0 <= j < i ==> (Skips(c, j) <==> j == some))
    && if some < i then Lagging(c, CallAt(c, i), RulesAt(c, i), RulesAt(c, some).ncrn)
       else Together(c, CallAt(c, i), RulesAt(c, i))
  }

  lemma {:induction false} Follow(c: Call, i: nat) returns (some: nat)
    requires CallFine(c) && i <= |c.types| && NoneBefore(c, i)
    ensures some <= i && Standing(c, i, some)
    ensures forall k :: 0 <= k < i ==> CallSlot(c, k) == RuleSlot(c, k)
  {
    hide CallStep, RuleStep, Lagging, Together, Natural, TypeOK;
    some := i;
    if i == 0 {
      StartTogether(c);
    } else {
      var ty := c.types[i - 1];
      assert Natural(ty);
      some := Follow(c, i - 1);
      if some < i - 1 {
        assert !Overtakes(c, some, i - 1);
        StepLagging(c, ty, CallAt(c, i - 1), RulesAt(c, i - 1), RulesAt(c, some).ncrn);
        ClosedThen(c, CallAt(c, i - 1), RulesAt(c, i - 1), RulesAt(c, some).ncrn);
      } else {
        StepTogether(c, ty, CallAt(c, i - 1), RulesAt(c, i - 1));
        some := if Skips(c, i - 1) then i - 1 else i;
      }
    }
  }

  lemma StartTogether(c: Call)
    requires c.base % 8 == 0
    ensures Together(c, CallAt(c, 0), RulesAt(c, 0))
  {
  }

  lemma ClosedThen(c: Call, s: Cursors, a: Rules, r: nat)
    requires Lagging(c, s, a, r)
    ensures a.ncrn == 4
  {
  }

  ghost predicate AsRuled(c: Call) { forall i :: 0 <= i < |c.types| ==> CallSlot(c, i) == RuleSlot(c, i) }

  ghost predicate Overtaken(c: Call) { exists j, i :: 0 <= j < i < |c.types| && Overtakes(c, j, i) }

  lemma {:induction false} Differs(c: Call, j: nat, i: nat)
    requires CallFine(c) && j < i < |c.types| && Overtakes(c, j, i)
    ensures !AsRuled(c)
    decreases i
  {
    hide CallStep, RuleStep, FitsFrom, Lagging, Together, Natural, TypeOK, Skips;
    if k, m :| 0 <= k < m < i && Overtakes(c, k, m) {
      Differs(c, k, m);
    } else {
      var some := Follow(c, i);
      assert some == j;
      assert Natural(c.types[i]);
      StepLagging(c, c.types[i], CallAt(c, i), RulesAt(c, i), RulesAt(c, j).ncrn);
      assert CallSlot(c, i) != RuleSlot(c, i);
    }
  }

  // The hard-float walker puts every argument where the standard says exactly if no argument
  // overtakes one that went to the stack, though core registers were free, because the stack was
  // in use.
  lemma AsRuledIff(c: Call)
    requires CallFine(c)
    ensures AsRuled(c) <==> !Overtaken(c)
  {
    if Overtaken(c) {
      var j, i :| 0 <= j < i < |c.types| && Overtakes(c, j, i);
      Differs(c, j, i);
    } else {
      var some := Follow(c, |c.types|);
    }
  }

  // Two aggregates of four doubles fill the VFP registers, and a double goes to the stack. An
  // integer takes r0, a structure of four words does not fit in the other three, and yet the walker
  // gives r1 to the integer after it.
  function Late(): seq<ArgType> {
    var quad, word := ArgType(32, 8, Doubles(4), Raw), ArgType(4, 4, NotVfp, Raw);
    [quad, quad, ArgType(8, 8, Doubles(1), Raw), word, ArgType(16, 4, NotVfp, Raw), word]
  }

  lemma LateOvertakes(base: nat)
    requires base % 8 == 0
    ensures AllNatural(Late()) && TypesOK(VfpsOf(Late()))
    ensures var c := Call(base, false, Late(), LaidOut(VfpsOf(Late()), |Late()|).0.args);
            && Prepared(c) && Overtaken(c) && !AsRuled(c)
            && CallSlot(c, 5) == InMem(base + 4) && RuleSlot(c, 5) == InMem(base + 40)
  {
    hide LaidOut, CallStep, RuleStep, Skips, FitsFrom, Natural, TypeOK, Lagging, Together, WordsFor;
    var types := Late();
    LateFine();
    TwoEntries();
    var c := Call(base, false, types, LaidOut(VfpsOf(types), |types|).0.args);
    LateRules(c);
    assert Overtakes(c, 4, 5);
    Differs(c, 4, 5);
    NoneEarlier(c);
    var some := Follow(c, 5);
    assert some == 4 && Natural(types[5]);
    StepLagging(c, types[5], CallAt(c, 5), RulesAt(c, 5), 1);
  }

  lemma LateFine()
    ensures AllNatural(Late()) && TypesOK(VfpsOf(Late())) && |Late()| == 6
    ensures forall i :: 0 <= i < 6 ==> TypeOK(Late()[i])
    ensures Late()[5].alignment == 4 && Late()[5].vfp == NotVfp
  {
  }

  lemma TwoEntries()
    requires TypesOK(VfpsOf(Late()))
    ensures |LaidOut(VfpsOf(Late()), 6).0.args| == 2
  {
    hide LowestFit, LaidOut, After, VfpsOf;
    var vs := VfpsOf(Late());
    LateVfps();
    QuadAt(0, {});
    QuadAt(8, Block(0, 8));
    NothingLaid(vs);
    LaidStep(vs, 0, START);
    var s := QuadAfter(START, 0);
    assert s.used == Block(0, 8);
    LaidStep(vs, 1, s);
    var t := QuadAfter(s, 8);
    FullAfter(t.used);
    LaidStep(vs, 2, t);
    NoMore(t);
    Stopped(vs, 3);
  }

  lemma LateVfps()
    ensures var vs := VfpsOf(Late());
            |vs| == 6 && vs[0] == Doubles(4) && vs[1] == Doubles(4) && vs[2] == Doubles(1)
  {
  }

  lemma NothingLaid(vs: seq<Vfp>)
    requires TypesOK(vs)
    ensures LaidOut(vs, 0) == (START, false)
  {
  }

  lemma LaidStep(vs: seq<Vfp>, k: nat, s: VfpState)
    requires TypesOK(vs) && k < |vs| && LaidOut(vs, k) == (s, false) && !vs[k].NotVfp?
    ensures LaidOut(vs, k + 1) == (After(s, vs[k]), LowestFit(s.used, vs[k], 0) == NREGS)
  {
    hide After, LowestFit;
  }

  lemma QuadAfter(s: VfpState, r: nat) returns (t: VfpState)
    requires LowestFit(s.used, Doubles(4), 0) == r && r < NREGS
    ensures t == After(s, Doubles(4)) && t.used == s.used + Block(r, 8) && |t.args| == |s.args| + 1
  {
    hide LowestFit, LowestFree;
    t := After(s, Doubles(4));
  }

  lemma NoMore(t: VfpState)
    requires LowestFit(t.used, Doubles(1), 0) == NREGS
    ensures After(t, Doubles(1)).args == t.args
  {
    hide LowestFit, LowestFree;
  }

  lemma QuadAt(r: nat, used: set<nat>)
    requires used == Block(0, r) && (r == 0 || r == 8)
    ensures LowestFit(used, Doubles(4), 0) == r
  {
    hide LowestFit;
    forall q: nat | Suits(used, Doubles(4), q) ensures r <= q {
      assert q !in used;
    }
    OneLowest(used, Doubles(4), r);
  }

  lemma FullAfter(used: set<nat>)
    requires forall i: nat :: i < NREGS ==> i in used
    ensures LowestFit(used, Doubles(1), 0) == NREGS
  {
    hide LowestFit;
    forall q: nat | q < NREGS ensures !Suits(used, Doubles(1), q) {
      assert q in used;
    }
    NoFit(used, Doubles(1), NREGS);
  }

  lemma LateRules(c: Call)
    requires c.types == Late() && |c.vfpArgs| == 2 && c.base % 8 == 0 && !c.inMemory
    ensures RulesAt(c, 4) == Rules(1, 2, 2) && Skips(c, 4) && Overtakes(c, 4, 5)
    ensures RuleSlot(c, 5) == InMem(c.base + 40)
  {
    LateSizes();
    hide WordsFor;
    assert RulesAt(c, 0) == Rules(0, 0, 0);
    assert RulesAt(c, 1) == Rules(0, 0, 1);
    assert RulesAt(c, 2) == Rules(0, 0, 2);
    assert RulesAt(c, 3) == Rules(0, 2, 2);
    assert RulesAt(c, 4) == Rules(1, 2, 2);
    assert RulesAt(c, 5) == Rules(4, 6, 2);
  }

  lemma LateSizes()
    ensures WordsFor(4) == 1 && WordsFor(8) == 2 && WordsFor(16) == 4
  {
    assert WordsFor(12) == 3;
  }

  lemma NoneEarlier(c: Call)
    requires c.types == Late() && RulesAt(c, 4) == Rules(1, 2, 2)
    ensures NoneBefore(c, 5)
  {
    hide WordsFor;
    forall j, k | 0 <= j < k < 5 ensures !Overtakes(c, j, k) {
      if j == 3 {
        LateSizes();
      }
    }
  }

  // ---- The soft-float walker ------------------------------------------------------------

  // Without VFP registers nothing is a candidate.
  function Softened(c: Call): Call {
    c.(types := seq(|c.types|, i requires 0 <= i < |c.types| => c.types[i].(vfp := NotVfp)), vfpArgs := [])
  }

  // One cursor runs through registers and stack.
  ghost predicate InLine(c: Call, argp: nat, a: Rules) {
    && (a.nsaa > 0 ==> a.ncrn == 4) && a.ncrn <= 4 && argp == c.base + 4 * (a.ncrn + a.nsaa)
  }

  lemma StepInLine(c: Call, ty: ArgType, argp: nat, a: Rules)
    requires c.base % 8 == 0 && Natural(ty) && ty.vfp == NotVfp && InLine(c, argp, a)
    ensures RuleStep(c, ty, a).0 == InMem(At(ty, argp))
    ensures InLine(c, At(ty, argp) + PutSize(ty), RuleStep(c, ty, a).1)
  {
    hide At, PutSize, Padded, WordsFor, TypeOK, Natural, Evened, FitsFrom;
    RegisterSpot(c.base, ty, a.ncrn);
    StackSpot(c.base, ty, a.nsaa);
  }

  lemma {:induction false} SysvInLine(c: Call, i: nat)
    requires CallFine(c) && i <= |c.types|
    ensures InLine(c, SysvAt(c, i), RulesAt(Softened(c), i))
  {
    hide At, PutSize, RuleStep, InLine, Natural, TypeOK;
    if i == 0 {
      StartInLine(c);
    } else {
      SysvInLine(c, i - 1);
      SoftStep(c, i - 1);
    }
  }

  lemma StartInLine(c: Call)
    ensures InLine(c, SysvAt(c, 0), RulesAt(Softened(c), 0))
  {
  }

  lemma SoftStep(c: Call, i: nat)
    requires CallFine(c) && i < |c.types| && InLine(c, SysvAt(c, i), RulesAt(Softened(c), i))
    ensures RuleSlot(Softened(c), i) == InMem(At(c.types[i], SysvAt(c, i)))
    ensures InLine(c, SysvAt(c, i + 1), RulesAt(Softened(c), i + 1))
  {
    hide At, PutSize, RuleStep;
    var d, ty := Softened(c), c.types[i];
    assert Natural(ty);
    assert d.types[i] == ty.(vfp := NotVfp);
    SameSpots(ty, SysvAt(c, i));
    StepInLine(d, d.types[i], SysvAt(c, i), RulesAt(d, i));
  }

  lemma SameSpots(ty: ArgType, p: nat)
    requires Natural(ty)
    ensures var soft := ty.(vfp := NotVfp); Natural(soft) && At(soft, p) == At(ty, p) && PutSize(soft) == PutSize(ty)
  {
  }

  // The soft-float walker puts every argument where the standard says, for every list.
  lemma SysvAsRuled(c: Call, i: nat)
    requires CallFine(c) && i < |c.types|
    ensures RuleSlot(Softened(c), i) == InMem(At(c.types[i], SysvAt(c, i)))
  {
    SysvInLine(c, i);
    SoftStep(c, i);
  }

  // ---- The address of the value returned ------------------------------------------------

  // An integer that comes first is in r0, unless that holds the address for a structure or complex
  // value of more than four bytes which no VFP registers take.
  lemma FirstInteger(abi: Abi, ret: Return, base: nat, types: seq<ArgType>)
    requires base % 8 == 0 && AllNatural(types) && types != []
    requires types[0].vfp == NotVfp && types[0].size == 4 && types[0].alignment == 4
    ensures var c := CallOf(abi, ret, base, types);
            var large := !ret.Simple? && ret.size >= 5 && (abi == SYSV || ret.vfp.NotVfp?);
            && CallSlot(c, 0) == InMem(base + if large then 4 else 0)
            && At(types[0], SysvAt(c, 0)) == base + if large then 4 else 0
  {
    hide AlignUp, LaidOut;
    var c := CallOf(abi, ret, base, types);
    assert Natural(types[0]);
    SpotIs(base, types[0], 0);
    SpotIs(base, types[0], 1);
  }
}
