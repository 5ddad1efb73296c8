// From the bytes asked for to the size of a chunk, and from that to the size of a mapping.

module Requests {
  import opened Words
  import opened HeapState
  import opened HeapGrowth

  const CHUNK_OVERHEAD: nat := 8
  const MIN_REQUEST: nat := 23
  const MAX_SMALL_REQUEST: nat := 240
  const MAX_REQUEST: nat := 0xFFFF_FFFF_FFFF_FF80
  const MAX_SIZE_T: nat := 0xFFFF_FFFF_FFFF_FFFF

  // pad_request
  function PadRequest(bytes: SizeT): SizeT { Add64(bytes, CHUNK_OVERHEAD + 7) / 8 * 8 }

  // The chunk size dlmalloc looks for; MAX_SIZE_T, which nothing has, when the request is too big.
  function RequestSize(bytes: SizeT): SizeT {
    if bytes <= MAX_SMALL_REQUEST then (if bytes < MIN_REQUEST then MIN_CHUNK_SIZE else PadRequest(bytes))
    else if bytes >= MAX_REQUEST then MAX_SIZE_T
    else PadRequest(bytes)
  }

  // Padding never wraps, and gives the least legal size that has room for the bytes and a head.
  lemma RequestFits(bytes: SizeT)
    requires bytes < MAX_REQUEST
    ensures var nb := RequestSize(bytes);
            && nb % 8 == 0 && nb >= MIN_CHUNK_SIZE && bytes + CHUNK_OVERHEAD <= nb
            && (forall s: nat :: s % 8 == 0 && s >= MIN_CHUNK_SIZE && bytes + CHUNK_OVERHEAD <= s ==> nb <= s)
            && (bytes <= MAX_SMALL_REQUEST ==> nb < 256) && (bytes > MAX_SMALL_REQUEST ==> nb >= 256)
  {
    var nb := RequestSize(bytes);
    assert Add64(bytes, 15) == bytes + 15;
    Rounded(bytes + 15, 8);
    forall s: nat | s % 8 == 0 && s >= MIN_CHUNK_SIZE && bytes + CHUNK_OVERHEAD <= s ensures nb <= s {
      if bytes >= MIN_REQUEST {
        assert s == 8 * (s / 8) && nb == 8 * ((bytes + 15) / 8);
      }
    }
  }

  // granularity_align; g is a power of two, so that masking is rounding down.
  function GranularityAlign(s: SizeT, g: PageSize): SizeT {
    PageRounds(Add64(s, g), g);
    Add64(s, g) / g * g
  }

  lemma PageRounds(r: SizeT, g: PageSize)
    ensures 0 < g && 0 <= r / g * g < WORD64
  {
    hide IsPageSize;
    PageBound(g);
    Rounded(r, g);
  }

  // The size sys_alloc asks mmap for.
  function SystemSize(nb: SizeT, g: PageSize): SizeT {
    GranularityAlign(Add64(nb, TOP_FOOT_SIZE + 1), g)
  }

  ghost predicate IsPageSize(g: nat) { exists k :: 3 <= k < 63 && g == Pow2(k) }

  type PageSize = g: nat | IsPageSize(g) witness Pow2(12)

  lemma PageBound(g: nat)
    requires IsPageSize(g)
    ensures 8 <= g < WORD64 / 2
  {
    var k :| 3 <= k < 63 && g == Pow2(k);
    assert Pow2(3) == 8;
    if k > 3 {
      Pow2Less(3, k);
    }
    Pow2Less(k, 63);
    WordSizes();
    assert Pow2(64) == 2 * Pow2(63);
  }

  lemma PageMultiple(g: nat) returns (c: nat)
    requires IsPageSize(g)
    ensures g == 8 * c
  {
    var k :| 3 <= k < 63 && g == Pow2(k);
    Pow2Add(3, k - 3);
    assert Pow2(3) == 8;
    c := Pow2(k - 3);
  }

  lemma AlignedUp(s: SizeT, g: PageSize)
    ensures 0 < g < WORD64 / 2
    ensures if s + g < WORD64 then s < GranularityAlign(s, g) <= s + g else GranularityAlign(s, g) <= s + g - WORD64
  {
    hide Add64, IsPageSize;
    PageBound(g);
    var r := Add64(s, g);
    Rounded(r, g);
    WrapsOnce(s, g);
  }

  lemma AlignedBy8(s: SizeT, g: PageSize)
    ensures g > 0 && GranularityAlign(s, g) % 8 == 0 && GranularityAlign(s, g) % g == 0
  {
    hide Add64, IsPageSize;
    PageBound(g);
    var c := PageMultiple(g);
    var k := Add64(s, g) / g;
    TimesEight(k, c);
    QuotientUnique(k * g, g, k, 0);
  }

  lemma TimesEight(k: nat, c: nat)
    ensures k * (8 * c) % 8 == 0
  {
    assert k * (8 * c) == 8 * (k * c);
    QuotientUnique(k * (8 * c), 8, k * c, 0);
  }

  lemma WrapsOnce(a: SizeT, b: SizeT)
    ensures Add64(a, b) == if a + b < WORD64 then a + b else a + b - WORD64
  {
  }

  // Either the sum wraps around, and the comparison with nb shows it, or there is room for nb
  // bytes and more in the new top, in whole pages, of which there is at most one too many.
  lemma SystemSizeFits(nb: SizeT, g: PageSize)
    ensures SystemSize(nb, g) > nb <==> nb + TOP_FOOT_SIZE + 1 + g < WORD64
    ensures g > 0 && SystemSize(nb, g) % g == 0
    ensures SystemSize(nb, g) > nb ==>
              SystemSize(nb, g) % 8 == 0 && nb + TOP_FOOT_SIZE + 1 < SystemSize(nb, g) <= nb + TOP_FOOT_SIZE + 1 + g
  {
    hide GranularityAlign, Add64, IsPageSize;
    WrapsOnce(nb, TOP_FOOT_SIZE + 1);
    AlignedUp(Add64(nb, TOP_FOOT_SIZE + 1), g);
    AlignedBy8(Add64(nb, TOP_FOOT_SIZE + 1), g);
  }
}
