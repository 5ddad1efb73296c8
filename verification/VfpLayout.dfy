// The register allocator of the ARM hard-float port: place_vfp_arg and layout_vfp_args, against
// the rule of section 6.1.2.3 of ARM IHI 0042 (C.1.vfp and C.2.vfp): the lowest-numbered free
// registers in a row, with back-filling, until the first candidate that does not fit.

module VfpLayout {
  import opened Words

  const NREGS: nat := 16

  // What vfp_type_p finds: not a candidate, or that many floats or doubles.
  datatype Vfp = NotVfp | Floats(n: nat) | Doubles(n: nat)

  predicate VfpOK(v: Vfp) { v.NotVfp? || 1 <= v.n <= 4 }

  function Regs(v: Vfp): nat { if v.NotVfp? then 0 else if v.Floats? then v.n else 2 * v.n }

  function Step(v: Vfp): (a: nat)
    ensures a > 0
  {
    if v.Doubles? then 2 else 1
  }

  // cif->vfp_used, vfp_reg_free, and the first vfp_nargs entries of vfp_args
  datatype VfpState = VfpState(used: set<nat>, free: nat, args: seq<nat>)

  function Block(r: nat, n: nat): (b: set<nat>)
    ensures forall i: nat :: i in b <==> r <= i < r + n
    decreases n
  {
    if n == 0 then {} else Block(r, n - 1) + {r + n - 1}
  }

  // The registers r, r + 1, ... suit v.
  ghost predicate Suits(used: set<nat>, v: Vfp, r: nat) {
    && (v.Doubles? ==> r % 2 == 0) && r + Regs(v) <= NREGS
    && forall i: nat :: r <= i < r + Regs(v) ==> i !in used
  }

  ghost predicate NoneSuits(used: set<nat>, v: Vfp) { forall r: nat :: !Suits(used, v, r) }

  // r is the lowest-numbered register that suits v.
  ghost predicate Lowest(used: set<nat>, v: Vfp, r: nat) {
    Suits(used, v, r) && forall q: nat :: Suits(used, v, q) ==> r <= q
  }

  // free is the lowest free register, 16 if there is none.
  ghost predicate FreeOK(s: VfpState) {
    && s.free <= NREGS && s.free !in s.used
    && (forall i: nat :: i < s.free ==> i in s.used)
    && (forall i :: i in s.used ==> i < NREGS)
  }

  // Above a wholly free even-odd pair nothing is used: gaps are single odd registers.
  ghost predicate PairsOK(used: set<nat>) {
    forall p: nat, q: nat {:trigger p in used, q in used} ::
      p % 2 == 0 && p !in used && p + 1 !in used && p <= q ==> q !in used
  }

  ghost predicate StateOK(s: VfpState) { FreeOK(s) && PairsOK(s.used) }

  const START := VfpState({}, 0, [])

  // The allocator's state after one candidate that fits at r, and after one that does not.
  function Placed(s: VfpState, v: Vfp, r: nat, free: nat): VfpState {
    VfpState(s.used + Block(r, Regs(v)), free, s.args + [r])
  }

  function AllUsed(s: VfpState): VfpState { VfpState(Block(0, NREGS), NREGS, s.args) }

  // The lowest fit from r on, NREGS if there is none.
  ghost function LowestFit(used: set<nat>, v: Vfp, r: nat): (q: nat)
    requires VfpOK(v) && !v.NotVfp?
    ensures q == NREGS || (q >= r && Suits(used, v, q))
    ensures forall p: nat :: r <= p && Suits(used, v, p) ==> q <= p
    decreases NREGS - r
  {
    if r + Regs(v) > NREGS then NREGS else if Suits(used, v, r) then r else LowestFit(used, v, r + 1)
  }

  ghost function LowestFree(used: set<nat>, r: nat): (q: nat)
    requires r <= NREGS
    ensures r <= q <= NREGS && (forall i :: r <= i < q ==> i in used) && (q < NREGS ==> q !in used)
    decreases NREGS - r
  {
    if r == NREGS || r !in used then r else LowestFree(used, r + 1)
  }

  // What place_vfp_arg does, by its rule.
  ghost function After(s: VfpState, v: Vfp): VfpState
    requires VfpOK(v) && !v.NotVfp?
  {
    var r := LowestFit(s.used, v, 0);
    if r == NREGS then AllUsed(s) else Placed(s, v, r, LowestFree(s.used + Block(r, Regs(v)), 0))
  }

  // The state of layout_vfp_args before candidate k, and whether it has stopped.
  ghost function LaidOut(types: seq<Vfp>, k: nat): (VfpState, bool)
    requires k <= |types| && forall i :: 0 <= i < |types| ==> VfpOK(types[i])
  {
    if k == 0 then (START, false)
    else
      var (s, stop) := LaidOut(types, k - 1);
      if stop || types[k - 1].NotVfp? then (s, stop)
      else (After(s, types[k - 1]), LowestFit(s.used, types[k - 1], 0) == NREGS)
  }

  // The part of a cif the allocator writes.
  class Cif {
    var vfp: VfpState

    constructor ()
      ensures vfp == START
    {
      vfp := START;
    }

    // place_vfp_arg: 1 if there is no room
    method PlaceVfpArg(v: Vfp) returns (failed: bool)
      requires StateOK(vfp) && VfpOK(v) && !v.NotVfp?
      modifies this
      ensures vfp == After(old(vfp), v) && (failed <==> LowestFit(old(vfp).used, v, 0) == NREGS)
      ensures !failed ==> StateOK(vfp)
      ensures failed ==> (forall r: nat :: r in vfp.used <==> r < 16) && vfp.free == 16 && vfp.args == old(vfp).args
    {
      hide PairsOK, Suits, LowestFit, LowestFree;
      var reg, align, nregs := vfp.free, Step(v), Regs(v);
      StartAligned(vfp, v);
      if reg % 2 == 1 && align == 2 {
        reg := reg + 1;
      }
      while reg + nregs <= NREGS
        invariant (v.Doubles? ==> reg % 2 == 0) && vfp == old(vfp)
        invariant forall q: nat :: q < reg ==> !Suits(vfp.used, v, q)
        invariant vfp.free <= reg <= NREGS + 2
        decreases NREGS + 2 - reg
      {
        var s := reg;
        while s < reg + nregs && s !in vfp.used
          invariant reg <= s <= reg + nregs && forall i :: reg <= i < s ==> i !in vfp.used
        {
          s := s + 1;
        }
        if s == reg + nregs {
          ghost var before, r := vfp, reg;
          Extended(vfp, v, reg);
          vfp := vfp.(used := vfp.used + Block(reg, nregs), args := vfp.args + [reg]);
          if vfp.free in vfp.used {
            reg := reg + nregs;
            while reg in vfp.used
              invariant r + nregs <= reg <= NREGS && forall i :: r <= i < reg ==> i in vfp.used
              decreases NREGS - reg
            {
              reg := reg + 1;
            }
            vfp := vfp.(free := reg);
          }
          PlacedAt(before, v, r, vfp);
          return false;
        }
        Blocked(vfp.used, v, reg, s);
        reg := reg + align;
      }
      NoFit(vfp.used, v, reg);
      vfp := AllUsed(vfp);
      failed := true;
    }

    // layout_vfp_args
    method Layout(types: seq<Vfp>)
      requires forall i :: 0 <= i < |types| ==> VfpOK(types[i])
      modifies this
      ensures vfp == LaidOut(types, |types|).0
    {
      hide StateOK, After, LowestFit;
      vfp := START;
      StartOK();
      var i := 0;
      while i < |types|
        invariant 0 <= i <= |types| && StateOK(vfp) && LaidOut(types, i) == (vfp, false)
      {
        if types[i] != NotVfp {
          var failed := PlaceVfpArg(types[i]);
          if failed {
            Stopped(types, i + 1);
            return;
          }
        }
        i := i + 1;
      }
    }
  }

  lemma StartOK()
    ensures StateOK(START)
  {
  }

  lemma NoFit(used: set<nat>, v: Vfp, reg: nat)
    requires VfpOK(v) && !v.NotVfp? && reg + Regs(v) > NREGS && forall q: nat :: q < reg ==> !Suits(used, v, q)
    ensures LowestFit(used, v, 0) == NREGS
  {
  }

  lemma PlacedAt(s: VfpState, v: Vfp, r: nat, t: VfpState)
    requires VfpOK(v) && !v.NotVfp? && Lowest(s.used, v, r) && t == Placed(s, v, r, t.free) && FreeOK(t)
    ensures t == After(s, v) && LowestFit(s.used, v, 0) == r < NREGS
  {
    hide LowestFree, LowestFit;
    OneLowest(s.used, v, r);
    OneFree(t);
  }

  lemma OneLowest(used: set<nat>, v: Vfp, r: nat)
    requires VfpOK(v) && !v.NotVfp? && Lowest(used, v, r)
    ensures LowestFit(used, v, 0) == r < NREGS
  {
  }

  lemma OneFree(t: VfpState)
    requires FreeOK(t)
    ensures LowestFree(t.used, 0) == t.free
  {
  }

  lemma {:induction false} Stopped(types: seq<Vfp>, k: nat)
    requires k <= |types| && (forall i :: 0 <= i < |types| ==> VfpOK(types[i])) && LaidOut(types, k).1
    ensures LaidOut(types, |types|) == LaidOut(types, k)
    decreases |types| - k
  {
    hide After, LowestFit;
    if k < |types| {
      Stopped(types, k + 1);
    }
  }

  // Below the first aligned register from the lowest free one on, nothing suits.
  lemma StartAligned(s: VfpState, v: Vfp)
    requires StateOK(s) && VfpOK(v) && !v.NotVfp?
    ensures forall q: nat :: q < s.free ==> !Suits(s.used, v, q)
    ensures s.free % 2 == 1 && v.Doubles? ==> !Suits(s.used, v, s.free)
  {
    forall q: nat | q < s.free ensures !Suits(s.used, v, q) {
      assert q in s.used;
    }
  }

  lemma Blocked(used: set<nat>, v: Vfp, reg: nat, s: nat)
    requires VfpOK(v) && !v.NotVfp? && (v.Doubles? ==> reg % 2 == 0) && reg <= s < reg + Regs(v) && s in used
    ensures forall q: nat :: reg <= q < reg + Step(v) ==> !Suits(used, v, q)
  {
    forall q: nat | reg <= q < reg + Step(v) ensures !Suits(used, v, q) {
      if v.Doubles? && q == reg + 1 {
        assert q % 2 == 1;
      }
    }
  }

  // Placing at the lowest fit leaves no wholly free pair below what is used.
  lemma Extended(s: VfpState, v: Vfp, r: nat)
    requires StateOK(s) && VfpOK(v) && !v.NotVfp? && (v.Doubles? ==> r % 2 == 0) && r + Regs(v) <= NREGS && s.free <= r
    requires forall i :: r <= i < r + Regs(v) ==> i !in s.used
    requires forall q: nat :: q < r ==> !Suits(s.used, v, q)
    ensures Lowest(s.used, v, r) && PairsOK(s.used + Block(r, Regs(v)))
    ensures s.free in s.used + Block(r, Regs(v)) ==> r == s.free
  {
    var b := Block(r, Regs(v));
    var used := s.used + b;
    assert Suits(s.used, v, r);
    forall p: nat, q: nat | p % 2 == 0 && p !in used && p + 1 !in used && p <= q ensures q !in used {
      if q in b && p < r {
        assert p + 1 < r;
        assert Suits(s.used, v, p);
      }
    }
  }

  // ---- What the layout is like ----------------------------------------------------------

  ghost predicate TypesOK(types: seq<Vfp>) { forall i :: 0 <= i < |types| ==> VfpOK(types[i]) }

  // Candidate k was given registers.
  ghost predicate IsPlaced(types: seq<Vfp>, k: nat)
    requires TypesOK(types) && k < |types|
  {
    !types[k].NotVfp? && !LaidOut(types, k + 1).1
  }

  ghost function RegOf(types: seq<Vfp>, k: nat): (r: nat)
    requires TypesOK(types) && k < |types| && IsPlaced(types, k)
    ensures Lowest(LaidOut(types, k).0.used, types[k], r)
  {
    LowestFit(LaidOut(types, k).0.used, types[k], 0)
  }

  // Register i went to candidate j.
  ghost predicate Holds(types: seq<Vfp>, j: nat, i: nat)
    requires TypesOK(types) && j < |types|
  {
    IsPlaced(types, j) && RegOf(types, j) <= i < RegOf(types, j) + Regs(types[j])
  }

  lemma {:induction false} StateKept(types: seq<Vfp>, k: nat)
    requires TypesOK(types) && k <= |types| && !LaidOut(types, k).1
    ensures StateOK(LaidOut(types, k).0)
  {
    hide LowestFit, LowestFree;
    if k > 0 {
      StateKept(types, k - 1);
      if !types[k - 1].NotVfp? {
        StepOK(LaidOut(types, k - 1).0, types[k - 1]);
      }
    } else {
      StartOK();
    }
  }

  // The registers in use are those of the candidates placed so far, until one fails.
  lemma {:induction false} UsedIsUnion(types: seq<Vfp>, k: nat, i: nat)
    requires TypesOK(types) && k <= |types| && !LaidOut(types, k).1
    ensures i in LaidOut(types, k).0.used <==> exists j: nat :: j < k && Holds(types, j, i)
  {
    hide LowestFit, LowestFree, StateOK;
    if k > 0 {
      UsedIsUnion(types, k - 1, i);
      if !types[k - 1].NotVfp? {
        StateKept(types, k - 1);
        StepOK(LaidOut(types, k - 1).0, types[k - 1]);
        assert Holds(types, k - 1, i) <==> i in Block(RegOf(types, k - 1), Regs(types[k - 1]));
      } else {
        assert !Holds(types, k - 1, i);
      }
    }
  }

  lemma StepOK(s: VfpState, v: Vfp)
    requires StateOK(s) && VfpOK(v) && !v.NotVfp? && LowestFit(s.used, v, 0) < NREGS
    ensures var r := LowestFit(s.used, v, 0);
            && After(s, v).used == s.used + Block(r, Regs(v)) && StateOK(After(s, v))
  {
    var r := LowestFit(s.used, v, 0);
    StartAligned(s, v);
    assert Suits(s.used, v, r);
    Extended(s, v, r);
  }

  // Registers are never given twice, doubles start at even ones.
  lemma BlocksApart(types: seq<Vfp>, j: nat, k: nat)
    requires TypesOK(types) && j < k < |types| && IsPlaced(types, j) && IsPlaced(types, k)
    ensures var q, r := RegOf(types, j), RegOf(types, k);
            && (q + Regs(types[j]) <= r || r + Regs(types[k]) <= q)
            && r + Regs(types[k]) <= NREGS && (types[k].Doubles? ==> r % 2 == 0)
  {
    hide LowestFit;
    NotStopped(types, k);
    var q, r := RegOf(types, j), RegOf(types, k);
    UsedIsUnion(types, k, q);
    UsedIsUnion(types, k, r);
    assert Holds(types, j, q);
    assert q <= r < q + Regs(types[j]) ==> Holds(types, j, r);
  }

  lemma NotStopped(types: seq<Vfp>, k: nat)
    requires TypesOK(types) && k < |types| && !LaidOut(types, k + 1).1
    ensures !LaidOut(types, k).1
  {
  }

  // The final list holds the registers of the placed candidates in order: as many as candidates
  // came before, as long as none has failed.
  lemma {:induction false} ArgsPrefix(types: seq<Vfp>, k: nat, n: nat)
    requires TypesOK(types) && k <= n <= |types|
    ensures LaidOut(types, k).0.args <= LaidOut(types, n).0.args
    ensures LaidOut(types, k).1 ==> LaidOut(types, n) == LaidOut(types, k)
    decreases n - k
  {
    hide LowestFit, LowestFree;
    if k < n {
      ArgsPrefix(types, k, n - 1);
    }
  }

  // What a walker over the arguments relies on: the candidate k is placed exactly if fewer
  // candidates came before it than there are entries, and its entry is the one with that index.
  lemma EntryOf(types: seq<Vfp>, k: nat)
    requires TypesOK(types) && k < |types| && !types[k].NotVfp?
    ensures var before, args := |LaidOut(types, k).0.args|, LaidOut(types, |types|).0.args;
            && (IsPlaced(types, k) <==> before < |args|)
            && (IsPlaced(types, k) ==> args[before] == RegOf(types, k))
  {
    hide LowestFit, LowestFree;
    ArgsPrefix(types, k, |types|);
    ArgsPrefix(types, k + 1, |types|);
  }

  // ---- The first failure ----------------------------------------------------------------

  ghost function RegsPlaced(types: seq<Vfp>, k: nat): nat
    requires k <= |types|
  {
    if k == 0 then 0 else RegsPlaced(types, k - 1) + Regs(types[k - 1])
  }

  lemma {:induction false} UsedCount(types: seq<Vfp>, k: nat)
    requires TypesOK(types) && k <= |types| && !LaidOut(types, k).1
    ensures |LaidOut(types, k).0.used| == RegsPlaced(types, k) && |LaidOut(types, k).0.args| <= RegsPlaced(types, k)
  {
    hide LowestFit, After;
    if k > 0 {
      UsedCount(types, k - 1);
      if !types[k - 1].NotVfp? {
        AddsUp(LaidOut(types, k - 1).0, types[k - 1]);
      }
    }
  }

  // So there are never more entries than vfp_args has room for.
  lemma {:induction false} EntriesFit(types: seq<Vfp>, k: nat)
    requires TypesOK(types) && k <= |types|
    ensures |LaidOut(types, k).0.args| <= NREGS
  {
    hide LowestFit, LowestFree, PairsOK, Block;
    if k > 0 && LaidOut(types, k).1 {
      EntriesFit(types, k - 1);
    } else if k > 0 {
      UsedCount(types, k);
      StateKept(types, k);
      AtMostAll(LaidOut(types, k).0.used);
    }
  }

  lemma AtMostAll(used: set<nat>)
    requires forall i :: i in used ==> i < NREGS
    ensures |used| <= NREGS
  {
    BlockCount(0, NREGS);
    var all := Block(0, NREGS);
    assert all == used + (all - used);
  }

  lemma AddsUp(s: VfpState, v: Vfp)
    requires VfpOK(v) && !v.NotVfp? && LowestFit(s.used, v, 0) != NREGS
    ensures |After(s, v).used| == |s.used| + Regs(v) && |After(s, v).args| == |s.args| + 1 <= |s.args| + Regs(v)
  {
    var r := LowestFit(s.used, v, 0);
    assert Suits(s.used, v, r);
    BlockCount(r, Regs(v));
    assert s.used !! Block(r, Regs(v));
  }

  lemma {:induction false} BlockCount(r: nat, n: nat)
    ensures |Block(r, n)| == n
  {
    if n > 0 {
      BlockCount(r, n - 1);
      OneMore(Block(r, n - 1), r + n - 1);
    }
  }

  lemma OneMore(s: set<nat>, q: nat)
    requires q !in s
    ensures |s + {q}| == |s| + 1
  {
  }

  // A candidate can only fail when at least five registers are in use: every even-odd pair up to
  // r9 has one, or four doubles would fit from the free pair on.
  lemma FailsLate(s: VfpState, v: Vfp)
    requires StateOK(s) && VfpOK(v) && !v.NotVfp? && NoneSuits(s.used, v)
    ensures |s.used| >= 5
  {
    PairUsed(s, v, 0);
    PairUsed(s, v, 2);
    PairUsed(s, v, 4);
    PairUsed(s, v, 6);
    PairUsed(s, v, 8);
    AtLeastFive(s.used, if 0 in s.used then 0 else 1, if 2 in s.used then 2 else 3, if 4 in s.used then 4 else 5,
                if 6 in s.used then 6 else 7, if 8 in s.used then 8 else 9);
  }

  lemma AtLeastFive(used: set<nat>, a: nat, b: nat, c: nat, d: nat, e: nat)
    requires a < b < c < d < e && a in used && b in used && c in used && d in used && e in used
    ensures |used| >= 5
  {
    var five := {a, b, c, d, e};
    assert |five| == 5;
    assert used == five + (used - five);
  }

  lemma PairUsed(s: VfpState, v: Vfp, p: nat)
    requires StateOK(s) && VfpOK(v) && !v.NotVfp? && NoneSuits(s.used, v) && p % 2 == 0 && p <= 8
    ensures p in s.used || p + 1 in s.used
  {
    assert !Suits(s.used, v, p);
  }
}
