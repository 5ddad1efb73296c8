// The 32-bit bin maps of dlmalloc: one bit per bin, set exactly for the non-empty bins, and
// the bit tricks that find the next non-empty bin without looking at the bins.

module BinMap {
  import opened Words

  // idx2bit
  function Bit(i: Index): Word {
    BitSize(i);
    Pow2(i)
  }

  predicate Marked(m: Word, i: Index) { Has(m, i) }

  function Mark(m: Word, i: Index): (r: Word)
    ensures forall j: Index :: Marked(r, j) <==> (j == i || Marked(m, j))
  {
    MarkAll(m, i);
    Or(m, Bit(i))
  }

  function Clear(m: Word, i: Index): (r: Word)
    ensures forall j: Index :: Marked(r, j) <==> (j != i && Marked(m, j))
  {
    ClearAll(m, i);
    And(m, Not32(Bit(i)))
  }

  function Not32(x: Word): Word {
    WordSizes();
    Not(x, 32)
  }

  function Neg32(x: Word): Word {
    WordSizes();
    Neg(x, 32)
  }

  // least_bit
  function LeastBit(x: Word): Word { And(x, Neg32(x)) }

  // left_bits
  function LeftBits(x: Word): Word {
    OrWord(Shl32(x, 1), Neg32(Shl32(x, 1)));
    Or(Shl32(x, 1), Neg32(Shl32(x, 1)))
  }

  // One step of compute_bit2idx: K = Y >> s & w, then Y >>= K.
  function StepShift(y: nat, s: nat, w: nat): nat { And(Shr(y, s), w) }

  function Step(y: nat, s: nat, w: nat): nat { Shr(y, StepShift(y, s, w)) }

  // compute_bit2idx
  function BitToIndex(x: Word): nat
    requires x > 0
  {
    var y0 := x - 1;
    var y1 := Step(y0, 12, 16);
    var y2 := Step(y1, 5, 8);
    var y3 := Step(y2, 2, 4);
    var y4 := Step(y3, 1, 2);
    StepShift(y0, 12, 16) + StepShift(y1, 5, 8) + StepShift(y2, 2, 4) + StepShift(y3, 1, 2)
    + StepShift(y4, 1, 1) + Step(y4, 1, 1)
  }

  // The lowest marked bin of a map that has one, as compute_bit2idx(least_bit(m)).
  function FirstMarked(m: Word): (i: Index)
    requires m != 0
    ensures Marked(m, i) && forall j: Index :: j < i ==> !Marked(m, j)
  {
    FirstMarkedLowest(m);
    BitToIndex(LeastBit(m))
  }

  // left_bits(idx2bit(i)) & m: the marked bins strictly above i.
  function Above(m: Word, i: Index): (r: Word)
    ensures forall j: Index :: Marked(r, j) <==> i < j && Marked(m, j)
  {
    AboveAll(m, i);
    And(m, LeftBits(Bit(i)))
  }

  lemma BitSize(i: Index)
    ensures Pow2(i) < WORD32
  {
    WordSizes();
    Pow2Less(i, 32);
  }

  lemma OrWord(x: Word, y: Word)
    ensures Or(x, y) < WORD32
  {
    WordSizes();
    OrRange(x, y, 32);
  }

  lemma MarkAll(m: Word, i: Index)
    ensures Or(m, Bit(i)) < WORD32
    ensures forall j: Index :: Marked(Or(m, Bit(i)), j) <==> (j == i || Marked(m, j))
  {
    OrWord(m, Bit(i));
    forall j: Index ensures Has(Or(m, Bit(i)), j) <==> (j == i || Has(m, j)) {
      HasOr(m, Bit(i), j);
      HasPow2(i, j);
    }
  }

  lemma ClearAll(m: Word, i: Index)
    ensures forall j: Index :: Marked(And(m, Not32(Bit(i))), j) <==> (j != i && Marked(m, j))
  {
    forall j: Index ensures Has(And(m, Not32(Bit(i))), j) <==> (j != i && Has(m, j)) {
      HasAnd(m, Not32(Bit(i)), j);
      WordSizes();
      HasNot(Bit(i), 32, j);
      HasPow2(i, j);
    }
  }

  lemma BitDoubled(i: Index)
    ensures Shl32(Bit(i), 1) == if i == 31 then 0 else Pow2(i + 1)
    ensures i < 31 ==> Pow2(i + 1) < WORD32
  {
    WordSizes();
    if i < 31 {
      Pow2Less(i + 1, 32);
    }
    assert Pow2(1) == 2;
    assert Bit(i) * Pow2(1) == 2 * Bit(i) == Pow2(i + 1);
  }

  lemma LeftBitsAbove(i: Index, j: Index)
    ensures Has(LeftBits(Bit(i)), j) <==> i < j
  {
    BitDoubled(i);
    WordSizes();
    if i == 31 {
      HasOr(0, 0, j);
      HasZero(j);
    } else {
      HasOr(Pow2(i + 1), Neg(Pow2(i + 1), 32), j);
      HasNegPow2(i + 1, 32, j);
      HasPow2(i + 1, j);
    }
  }

  lemma AboveAll(m: Word, i: Index)
    ensures forall j: Index :: Marked(And(m, LeftBits(Bit(i))), j) <==> i < j && Marked(m, j)
  {
    forall j: Index ensures Has(And(m, LeftBits(Bit(i))), j) <==> i < j && Has(m, j) {
      HasAnd(m, LeftBits(Bit(i)), j);
      LeftBitsAbove(i, j);
    }
  }

  // On 2^n - 1, testing bit b asks whether n > b.
  lemma {:induction false} OnesBelow(n: nat, b: nat)
    ensures And(Shr(Pow2(n) - 1, b), 1) == if n > b then 1 else 0
    ensures Shr(Pow2(n) - 1, b) == if n > b then Pow2(n - b) - 1 else 0
  {
    if b > 0 {
      OnesBelow(n, b - 1);
    }
    assert And(0, 0) == 0;
    ParityMask(Shr(Pow2(n) - 1, b));
  }

  lemma ParityMask(x: nat)
    ensures And(x, 1) == x % 2
  {
    AndZero(x / 2);
  }

  lemma {:induction false} AndZero(x: nat)
    ensures And(x, 0) == 0
  {
    if x > 0 {
      AndZero(x / 2);
    }
  }

  // (y >> s) & w, for y = 2^n - 1 and w = 2^k, is w exactly when n > s + k.
  lemma {:induction false} MaskOnes(n: nat, s: nat, k: nat)
    ensures And(Shr(Pow2(n) - 1, s), Pow2(k)) == if n > s + k then Pow2(k) else 0
    decreases k
  {
    if k == 0 {
      OnesBelow(n, s);
    } else {
      MaskOnes(n, s + 1, k - 1);
      if Shr(Pow2(n) - 1, s) == 0 {
        OnesBelow(n, s);
      }
    }
  }

  // A step takes 2^n - 1 to 2^(n - w) - 1 when n > w, and otherwise leaves it.
  lemma StepOnes(n: nat, s: nat, k: nat, w: nat) returns (m: nat)
    requires Pow2(k) == w && s + k == w
    ensures m == (if n > w then n - w else n)
    ensures StepShift(Pow2(n) - 1, s, w) == n - m
    ensures Step(Pow2(n) - 1, s, w) == Pow2(m) - 1
  {
    MaskOnes(n, s, k);
    OnesBelow(n, w);
    m := if n > w then n - w else n;
  }

  lemma BitToIndexInverts(n: Index)
    ensures BitToIndex(Bit(n)) == n
  {
    assert Pow2(4) == 16 && Pow2(3) == 8 && Pow2(2) == 4 && Pow2(1) == 2 && Pow2(0) == 1;
    var n1 := StepOnes(n, 12, 4, 16);
    var n2 := StepOnes(n1, 5, 3, 8);
    var n3 := StepOnes(n2, 2, 2, 4);
    var n4 := StepOnes(n3, 1, 1, 2);
    var n5 := StepOnes(n4, 1, 0, 1);
    assert n5 == 0 || n5 == 1;
  }

  lemma FirstMarkedLowest(m: Word)
    requires m != 0
    ensures LeastBit(m) > 0 && BitToIndex(LeastBit(m)) < 32
    ensures var i := BitToIndex(LeastBit(m));
            Marked(m, i) && forall j: Index :: j < i ==> !Marked(m, j)
  {
    WordSizes();
    var i := LeastBitIsLowest(m, 32);
    BitToIndexInverts(i);
  }

  lemma SomeMarked(m: Word)
    ensures m == 0 <==> forall j: Index :: !Marked(m, j)
  {
    if m != 0 {
      assert Marked(m, FirstMarked(m));
    } else {
      forall j: Index ensures !Marked(m, j) {
        HasZero(j);
      }
    }
  }

  // Shift left and isolate, then index: the next marked bin above i, if there is one.
  lemma NextMarked(m: Word, i: Index)
    ensures var left := Above(m, i);
            if left == 0 then forall j: Index :: i < j ==> !Marked(m, j)
            else
              var n := FirstMarked(left);
              i < n && Marked(m, n) && forall j: Index :: i < j < n ==> !Marked(m, j)
  {
    var left := Above(m, i);
    SomeMarked(left);
    if left == 0 {
      forall j: Index | i < j ensures !Marked(m, j) {
        assert !Marked(left, j);
      }
    } else {
      var n := FirstMarked(left);
      assert Marked(left, n);
      forall j: Index | i < j < n ensures !Marked(m, j) {
        assert !Marked(left, j);
      }
    }
  }

  // dlmalloc's smallbits = smallmap >> idx: its two low bits are bin idx and the bin after
  // it, and the complement of the lowest is the correction of idx to a non-empty bin.
  lemma ShiftedMapLow(m: Word, i: Index)
    ensures var bits := Shr(m, i);
            && bits < WORD32
            && (And(bits, 3) == 0 <==> !Marked(m, i) && (i < 31 ==> !Marked(m, i + 1)))
            && And(Not32(bits), 1) == (if Marked(m, i) then 0 else 1)
  {
    var bits := Shr(m, i);
    ShrSmaller(m, i);
    HasShr(m, i, 0);
    HasShr(m, i, 1);
    LowPair(bits);
    ParityMask(Not32(bits));
    WordSizes();
    HasNot(bits, 32, 0);
    if i == 31 {
      NoBin(m, 32);
    }
  }

  // smallbits is zero when no bin from idx on is marked.
  lemma ShiftedMapZero(m: Word, i: Index)
    ensures Shr(m, i) == 0 <==> forall j: Index :: i <= j ==> !Marked(m, j)
  {
    var bits := Shr(m, i);
    ShrSmaller(m, i);
    if bits == 0 {
      forall j: Index | i <= j ensures !Marked(m, j) {
        HasShr(m, i, j - i);
        HasZero(j - i);
      }
    } else {
      var k := FirstMarked(bits);
      HasShr(m, i, k);
      if i + k < 32 {
        assert Marked(m, i + k);
      } else {
        NoBin(m, i + k);
      }
    }
  }

  lemma LowPair(x: nat)
    ensures And(x, 3) == 0 <==> !Has(x, 0) && !Has(x, 1)
  {
    ParityMask(x / 2);
    assert x > 0 ==> And(x, 3) == 2 * And(x / 2, 1) + if x % 2 == 1 then 1 else 0;
    assert Has(x, 1) <==> Has(x / 2, 0);
  }

  lemma {:induction false} ShrSmaller(x: nat, n: nat)
    ensures Shr(x, n) <= x
  {
    if n > 0 {
      ShrSmaller(x, n - 1);
    }
  }

  lemma {:induction false} NoHighBit(x: nat, w: nat, i: nat)
    requires x < Pow2(w) && w <= i
    ensures !Has(x, i)
  {
    if w == 0 {
      HasZero(i);
    } else {
      NoHighBit(x / 2, w - 1, i - 1);
    }
  }

  lemma NoBin(m: Word, i: nat)
    requires i >= 32
    ensures !Has(m, i)
  {
    WordSizes();
    NoHighBit(m, 32, i);
  }

  // (smallbits << idx) & left_bits(idx2bit(idx)): shifting back up loses no bin above idx.
  lemma ShiftedBack(m: Word, i: Index, j: Index)
    requires i < j
    ensures Has(Shr(m, i) * Pow2(i), j) <==> Marked(m, j)
  {
    HasScaled(Shr(m, i), i, j);
    HasShr(m, i, j - i);
  }

  lemma ShiftedWord(m: Word, i: Index)
    ensures Shl32(Shr(m, i), i) == Shr(m, i) * Pow2(i)
  {
    hide Shr, Pow2;
    ShrIsDivision(m, i);
    Rounded(m, Pow2(i));
  }

  // (bits << i) & left_bits(idx2bit(i))
  function BitsAbove(bits: Word, i: Index): Word { And(Shl32(bits, i), LeftBits(Bit(i))) }

  lemma ShiftedAbove(m: Word, i: Index)
    ensures Shr(m, i) < WORD32
    ensures forall j: Index :: Marked(BitsAbove(Shr(m, i), i), j) <==> i < j && Marked(m, j)
  {
    ShrSmaller(m, i);
    ShiftedWord(m, i);
    forall j: Index ensures Marked(BitsAbove(Shr(m, i), i), j) <==> i < j && Marked(m, j) {
      HasAnd(Shl32(Shr(m, i), i), LeftBits(Bit(i)), j);
      LeftBitsAbove(i, j);
      if i < j {
        ShiftedBack(m, i, j);
      }
    }
  }

  lemma {:induction false} HasScaled(x: nat, n: nat, j: nat)
    requires n <= j
    ensures Has(x * Pow2(n), j) <==> Has(x, j - n)
  {
    if n > 0 {
      assert x * Pow2(n) == 2 * (x * Pow2(n - 1));
      HasScaled(x, n - 1, j - 1);
    }
  }
}
