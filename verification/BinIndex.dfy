// Bin indexing of dlmalloc on a 64-bit size_t: the branch-free computation of a tree bin's
// index, the size range of each bin, and the order in which a bin's trie inspects size bits.

module BinIndex {
  import opened Words

  const NSMALLBINS: nat := 32
  const NTREEBINS: nat := 32
  const MIN_LARGE_SIZE: nat := 256

  predicate IsSmall(s: nat) { s / 8 < NSMALLBINS }

  function SmallIndex(s: nat): nat { s / 8 }

  // ((y - c) >> 16) & w on a 32-bit word, for a power of two w
  function Probe(y: nat, c: nat, w: nat): nat
    requires w > 0
  {
    (y - c) % WORD32 / 0x10000 / w % 2 * w
  }

  // The portable "find the highest set bit" of compute_tree_index.
  function HighBit(x: nat): int {
    var n0 := Probe(x, 0x100, 8);
    var y1 := Shl32(x, n0);
    var k1 := Probe(y1, 0x1000, 4);
    var y2 := Shl32(y1, k1);
    var k2 := Probe(y2, 0x4000, 2);
    var y3 := Shl32(y2, k2);
    14 - (n0 + k1 + k2) + y3 / 0x8000
  }

  // compute_tree_index
  function ComputeTreeIndex(s: SizeT): int {
    var x := s / 256;
    if x == 0 then 0
    else if x > 0xFFFF then NTREEBINS - 1
    else
      var k := HighBit(x);
      if k < 0 then 0 else 2 * k + Shr(s, k + 7) % 2
  }

  // minsize_for_tree_index
  function MinSize(i: Index): (m: nat) {
    Pow2(i / 2 + 8) + if i % 2 == 1 then Pow2(i / 2 + 7) else 0
  }

  // The tree bin of a size, by its definition: the first bin whose successor starts above it.
  function TreeBin(s: nat): Index { BinFrom(s, 0) }

  function BinFrom(s: nat, i: Index): Index
    decreases NTREEBINS - i
  {
    if i == NTREEBINS - 1 || s < MinSize(i + 1) then i else BinFrom(s, i + 1)
  }

  // The number of low size bits the trie of bin i resolves: bit_for_tree_index(i) + 1.
  function Resolved(i: Index): (w: nat)
    ensures w <= 64
  {
    if i == NTREEBINS - 1 then 64 else i / 2 + 7
  }

  // leftshift_for_tree_index
  function LeftShift(i: Index): nat {
    if i == NTREEBINS - 1 then 0 else 63 - (i / 2 + 6)
  }

  // The bits of s above the lowest Resolved(i) - d ones: what a trie node at depth d fixes.
  function Key(i: Index, s: nat, d: nat): nat
    requires d <= Resolved(i)
  {
    Shr(s, Resolved(i) - d)
  }

  lemma ProbeValue(y: nat, c: nat, w: nat)
    requires y < 0x10000 && c <= 0x10000 && w in {2, 4, 8}
    ensures Probe(y, c, w) == if y < c then w else 0
  {
    if y < c {
      assert (y - c) % WORD32 == y - c + WORD32;
      assert (y - c) % WORD32 / 0x10000 == 0xFFFF;
    } else {
      assert (y - c) % WORD32 == y - c;
      assert (y - c) / 0x10000 == 0;
    }
  }

  lemma ProbeShift(y: nat, c: nat, w: nat, f: nat)
    requires y < 0x10000 && c <= 0x10000 && w in {2, 4, 8} && f == Pow2(w) && (y < c ==> y * f < WORD32)
    ensures Probe(y, c, w) == if y < c then w else 0
    ensures Shl32(y, Probe(y, c, w)) == if y < c then y * f else y
  {
    ProbeValue(y, c, w);
  }

  lemma HighBitStages(x: nat)
    requires 0 < x <= 0xFFFF
    ensures var n0 := if x < 0x100 then 8 else 0;
            var y1 := if x < 0x100 then x * 256 else x;
            var k1 := if y1 < 0x1000 then 4 else 0;
            var y2 := if y1 < 0x1000 then y1 * 16 else y1;
            var k2 := if y2 < 0x4000 then 2 else 0;
            var y3 := if y2 < 0x4000 then y2 * 4 else y2;
            0x4000 <= y3 < 0x10000 && HighBit(x) == 14 - (n0 + k1 + k2) + y3 / 0x8000
  {
    Pow2Small();
    ProbeShift(x, 0x100, 8, 256);
    var y1 := Shl32(x, Probe(x, 0x100, 8));
    ProbeShift(y1, 0x1000, 4, 16);
    var y2 := Shl32(y1, Probe(y1, 0x1000, 4));
    ProbeShift(y2, 0x4000, 2, 4);
  }

  lemma HighBitCorrect(x: nat)
    requires 0 < x <= 0xFFFF
    ensures 0 <= HighBit(x) < 16 && Pow2(HighBit(x)) <= x < 2 * Pow2(HighBit(x))
  {
    hide HighBit;
    HighBitStages(x);
    Pow2Small();
  }

  // ---- Tree indices -------------------------------------------------------------------

  lemma {:induction false} MinSizeMonotone(i: Index, j: Index)
    requires i <= j
    ensures MinSize(i) <= MinSize(j)
    decreases j - i
  {
    if i < j {
      MinSizeMonotone(i, j - 1);
      MinSizeStep(j - 1);
    }
  }

  lemma MinSizeStep(i: Index)
    requires i + 1 < NTREEBINS
    ensures MinSize(i) < MinSize(i + 1)
  {
    var k := i / 2;
    assert Pow2(k + 8) == 2 * Pow2(k + 7) && Pow2(k + 9) == 2 * Pow2(k + 8);
    if i % 2 == 1 {
      assert (i + 1) / 2 == k + 1 && (i + 1) % 2 == 0;
    } else {
      assert (i + 1) / 2 == k && (i + 1) % 2 == 1;
    }
  }

  lemma {:induction false} BinFromRange(s: nat, i: Index)
    ensures BinFrom(s, i) >= i
    ensures MinSize(i) <= s ==> InBin(s, BinFrom(s, i))
    decreases NTREEBINS - i
  {
    if i == NTREEBINS - 1 || s < MinSize(i + 1) {
      assert BinFrom(s, i) == i;
    } else {
      BinFromRange(s, i + 1);
    }
  }

  // The bin of a large size is the only one whose size range holds it; the last is open.
  lemma TreeBinRange(s: nat, i: Index)
    requires s >= MIN_LARGE_SIZE
    ensures i == TreeBin(s) <==> InBin(s, i)
  {
    assert Pow2(8) == 256;
    BinFromRange(s, 0);
    if i < TreeBin(s) {
      MinSizeMonotone(i + 1, TreeBin(s));
    } else if TreeBin(s) < i {
      MinSizeMonotone(TreeBin(s) + 1, i);
    }
  }

  predicate InBin(s: nat, i: Index) {
    MinSize(i) <= s && (i + 1 < NTREEBINS ==> s < MinSize(i + 1))
  }

  lemma BinsOrdered(s: nat, i: Index, t: nat, j: Index)
    requires InBin(s, i) && InBin(t, j) && i < j
    ensures s < t
  {
    MinSizeMonotone(i + 1, j);
  }

  lemma TreeBinOrders(s: nat, t: nat)
    requires MIN_LARGE_SIZE <= s && MIN_LARGE_SIZE <= t
    requires TreeBin(s) < TreeBin(t)
    ensures s < t
  {
    TreeBinRange(s, TreeBin(s));
    TreeBinRange(t, TreeBin(t));
    BinsOrdered(s, TreeBin(s), t, TreeBin(t));
  }

  // Bin 2k holds the sizes in [2p, 3p) and bin 2k+1 those in [3p, 4p), with p = 1 << (k+7).
  lemma HalfRanges(k: nat)
    requires k < 16
    ensures MinSize(2 * k) == 2 * Pow2(k + 7)
    ensures MinSize(2 * k + 1) == 3 * Pow2(k + 7)
    ensures k < 15 ==> MinSize(2 * k + 2) == 4 * Pow2(k + 7)
  {
    assert (2 * k + 1) / 2 == k && (2 * k + 1) % 2 == 1;
    assert Pow2(k + 8) == 2 * Pow2(k + 7) && Pow2(k + 9) == 2 * Pow2(k + 8);
  }

  predicate LowerHalf(s: nat, p: nat) { 2 * p <= s < 3 * p }

  predicate UpperHalf(s: nat, p: nat) { 3 * p <= s < 4 * p }

  lemma BinOfLower(s: nat, k: nat)
    requires k < 16 && LowerHalf(s, Pow2(k + 7))
    ensures TreeBin(s) == 2 * k
  {
    LargeHalf(k);
    HalfRanges(k);
    TreeBinRange(s, 2 * k);
  }

  lemma BinOfUpper(s: nat, k: nat)
    requires k < 16 && UpperHalf(s, Pow2(k + 7))
    ensures TreeBin(s) == 2 * k + 1
  {
    hide TreeBin;
    UpperInBin(s, k);
    LargeHalf(k);
    TreeBinRange(s, 2 * k + 1);
  }

  lemma UpperInBin(s: nat, k: nat)
    requires k < 16 && UpperHalf(s, Pow2(k + 7))
    ensures InBin(s, 2 * k + 1)
  {
    HalfRanges(k);
    var i := 2 * k + 1;
    assert i + 1 == 2 * k + 2;
  }

  lemma {:induction false} LargeHalf(k: nat)
    ensures Pow2(k + 7) >= 128
  {
    Pow2Small();
    if k > 0 {
      LargeHalf(k - 1);
    }
  }

  lemma BinOfHighBit(s: nat, k: nat)
    requires k < 16 && Pow2(k) <= s / 256 < 2 * Pow2(k)
    ensures 2 * k + Shr(s, k + 7) % 2 == TreeBin(s)
  {
    hide TreeBin, Pow2;
    TwoHalves(s, k);
    if Shr(s, k + 7) == 2 {
      BinOfLower(s, k);
    } else {
      BinOfUpper(s, k);
    }
  }

  // The branch-free computation finds the bin.
  lemma ComputeTreeIndexCorrect(s: SizeT)
    ensures ComputeTreeIndex(s) == TreeBin(s)
  {
    var x := s / 256;
    if x == 0 {
      HalfRanges(0);
      Pow2Small();
    } else if x > 0xFFFF {
      HalfRanges(15);
      assert Pow2(22) == 0x40_0000 by { Pow2Small(); Pow2Add(16, 6); }
      TreeBinRange(s, 31);
    } else {
      HighBitCorrect(x);
      BinOfHighBit(s, HighBit(x));
    }
  }

  lemma TwoHalves(s: nat, k: nat)
    requires Pow2(k) <= s / 256 < 2 * Pow2(k)
    ensures var p, h := Pow2(k + 7), Shr(s, k + 7);
            (h == 2 && LowerHalf(s, p)) || (h == 3 && UpperHalf(s, p))
  {
    var p := Pow2(k + 7);
    Pow2Add(k, 7);
    assert Pow2(7) == 128;
    assert 2 * p <= s < 4 * p;
    ShrIsDivision(s, k + 7);
    HalfQuotient(s, p);
  }

  // All sizes of one bin share the bits its trie does not resolve.
  lemma RootKey(s: SizeT, t: SizeT)
    requires MIN_LARGE_SIZE <= s && MIN_LARGE_SIZE <= t && TreeBin(s) == TreeBin(t)
    ensures Key(TreeBin(s), s, 0) == Key(TreeBin(t), t, 0)
  {
    BinPrefix(s);
    BinPrefix(t);
  }

  lemma BinPrefix(s: SizeT)
    requires MIN_LARGE_SIZE <= s
    ensures Key(TreeBin(s), s, 0) == if TreeBin(s) == NTREEBINS - 1 then 0 else 2 + TreeBin(s) % 2
  {
    TreeBinRange(s, TreeBin(s));
    RangePrefix(s, TreeBin(s));
  }

  lemma RangePrefix(s: SizeT, i: Index)
    requires InBin(s, i)
    ensures Shr(s, Resolved(i)) == if i == NTREEBINS - 1 then 0 else 2 + i % 2
  {
    if i == NTREEBINS - 1 {
      WordSizes();
      ShrIsDivision(s, 64);
      QuotientUnique(s, WORD64, 0, s);
    } else {
      var k := i / 2;
      assert i == 2 * k || i == 2 * k + 1;
      HalfRanges(k);
      ShrIsDivision(s, k + 7);
      HalfQuotient(s, Pow2(k + 7));
    }
  }

  lemma HalfQuotient(s: nat, p: nat)
    requires p > 0
    ensures LowerHalf(s, p) ==> s / p == 2
    ensures UpperHalf(s, p) ==> s / p == 3
  {
    if LowerHalf(s, p) {
      QuotientUnique(s, p, 2, s - 2 * p);
    } else if UpperHalf(s, p) {
      QuotientUnique(s, p, 3, s - 3 * p);
    }
  }

  // At depth d the trie walk tests the sign bit of the size shifted left d times past its
  // bin's starting shift: that is the next bit of the key.
  lemma WalkBit(s: SizeT, i: Index, d: nat)
    requires d < Resolved(i)
    ensures Shl64(s, LeftShift(i) + d) / Pow2(63) == Key(i, s, d + 1) % 2
    ensures Key(i, s, d) == Key(i, s, d + 1) / 2
  {
    SignBit(s, LeftShift(i) + d);
  }
}
