// internal_memalign: an aligned chunk is found inside a bigger one, and what is left over in
// front and behind is handed back.

module Memalign {
  import opened Words
  import opened Rings
  import opened HeapState
  import opened HeapSteps
  import opened Segments
  import opened Tags
  import opened Requests
  import opened Allocator
  import G = Align
  import T = Tiling

  const MALLOC_ALIGNMENT: nat := 8

  // ---- Alignment ------------------------------------------------------------------------

  ghost predicate IsPow2(a: nat) { exists k: nat :: a == Pow2(k) }

  // alignment & (alignment - 1) is 0 for powers of two only.
  lemma {:induction false} PowerTest(a: nat)
    requires a > 0
    ensures And(a, a - 1) == 0 <==> IsPow2(a)
  {
    if a == 1 {
      assert a == Pow2(0);
    } else if a % 2 == 1 {
      AndSelf(a / 2);
      assert (a - 1) / 2 == a / 2;
      forall k: nat ensures a != Pow2(k) {
        assert k > 0 ==> Pow2(k) == 2 * Pow2(k - 1);
      }
    } else {
      PowerTest(a / 2);
      assert (a - 1) / 2 == a / 2 - 1;
      PowerHalf(a);
    }
  }

  lemma PowerHalf(a: nat)
    requires a > 0 && a % 2 == 0
    ensures IsPow2(a) <==> IsPow2(a / 2)
  {
    if IsPow2(a) {
      var k: nat :| a == Pow2(k);
      assert k > 0;
      assert a / 2 == Pow2(k - 1);
    }
    if IsPow2(a / 2) {
      var k: nat :| a / 2 == Pow2(k);
      assert a == Pow2(k + 1);
    }
  }

  lemma {:induction false} AndSelf(x: nat)
    ensures And(x, x) == x
  {
    if x > 0 {
      AndSelf(x / 2);
    }
  }

  // At least a minimum chunk, and rounded up to a power of two. Above 2^63 the loop of the
  // source shifts its only bit out and never ends.
  method NormalAlignment(alignment: SizeT) returns (a: SizeT)
    requires 0 < alignment <= 0x8000_0000_0000_0000
    ensures IsPow2(a) && a >= alignment && a >= MIN_CHUNK_SIZE && a <= 0x8000_0000_0000_0000
    ensures IsPow2(alignment) && alignment >= MIN_CHUNK_SIZE ==> a == alignment
    ensures a < 2 * alignment || a == MIN_CHUNK_SIZE
  {
    a := if alignment < MIN_CHUNK_SIZE then MIN_CHUNK_SIZE else alignment;
    var least := a;
    assert Pow2(5) == MIN_CHUNK_SIZE;
    PowerTest(a);
    if And(a, a - 1) != 0 {
      a := 16;
      ghost var k := 4;
      assert Pow2(4) == 16;
      WordSizes();
      while a < least
        invariant 4 <= k <= 63 && a == Pow2(k) && (a > 16 ==> a < 2 * least)
        decreases 64 - k
      {
        if k >= 63 {
          TopBit();
          assert false;
        }
        a := 2 * a;
        k := k + 1;
        PowerFits(k);
      }
      PowerFits(k);
    }
  }

  // After n rounds the loop has shifted 16 by n places; it ends once that is at least the alignment.
  ghost predicate LoopEnds(alignment: SizeT) { exists n: nat :: Shl64(16, n) >= alignment }

  // So it ends exactly for alignments up to 2^63: after that its one bit is shifted out.
  lemma LoopEndsIff(alignment: SizeT)
    ensures LoopEnds(alignment) <==> alignment <= 0x8000_0000_0000_0000
  {
    hide Shl64;
    Shifted16(59);
    assert Shl64(16, 59) == 0x8000_0000_0000_0000;
    forall n: nat ensures Shl64(16, n) <= 0x8000_0000_0000_0000 {
      Shifted16(n);
    }
  }

  lemma {:induction false} Shifted16(n: nat)
    ensures Shl64(16, n) == if n <= 59 then Pow2(n + 4) else 0
    ensures n <= 59 ==> Pow2(n + 4) <= 0x8000_0000_0000_0000
    ensures n == 59 ==> Pow2(n + 4) == 0x8000_0000_0000_0000
  {
    TopBit();
    if n == 0 {
      assert Shl64(16, 0) == 16 && Pow2(4) == 16;
    } else {
      hide Shl64;
      Shifted16(n - 1);
      ShiftOnce(16, n - 1);
      Doubled(Shl64(16, n - 1));
      assert Pow2(n + 4) == 2 * Pow2(n + 3);
      if n <= 59 {
        PowerFits(n + 4);
      }
    }
  }

  lemma Doubled(s: SizeT)
    ensures s < 0x8000_0000_0000_0000 ==> Shl64(s, 1) == 2 * s
    ensures s == 0x8000_0000_0000_0000 ==> Shl64(s, 1) == 0
  {
    assert Pow2(1) == 2;
  }

  lemma TopBit()
    ensures Pow2(63) == 0x8000_0000_0000_0000
  {
    WordSizes();
    assert Pow2(64) == 2 * Pow2(63);
  }

  lemma PowerFits(k: nat)
    requires k <= 63
    ensures Pow2(k) <= 0x8000_0000_0000_0000
  {
    TopBit();
    if k < 63 {
      Pow2Less(k, 63);
    }
  }

  // ---- Cutting chunks in use ------------------------------------------------------------

  // set_inuse on any spot, which may hold any word if no chunk has been there.
  method SetInuse(m: MallocState, p: Addr, s: nat)
    requires s > 0
    modifies m`tags
    ensures m.tags.foot == old(m.tags).foot && p in m.tags.head && p + s in m.tags.head
    ensures s + 2 <= m.tags.head[p] <= s + 3
    ensures p in old(m.tags).head ==> m.tags.head[p] == s + old(m.tags).head[p] % 2 + CINUSE_BIT
    ensures Pinuse(m.tags.head[p + s])
    ensures p + s in old(m.tags).head ==> m.tags.head[p + s] == WithPinuse(old(m.tags).head[p + s])
    ensures forall q :: q in old(m.tags).head && q != p && q != p + s ==>
              q in m.tags.head && m.tags.head[q] == old(m.tags).head[q]
  {
    var w: nat, v: nat := *, *;
    if p in m.tags.head {
      w := m.tags.head[p];
    }
    var head := m.tags.head[p := s + w % 2 + CINUSE_BIT];
    if p + s in head {
      v := head[p + s];
    }
    m.tags := m.tags.(head := head[p + s := WithPinuse(v)]);
  }

  ghost predicate CanPart(m: MallocState, p: Addr, nb: nat)
    reads m, m.small, m.tree
  {
    && m.Valid() && p in m.heap.live && p in m.heap.cs
    && MIN_CHUNK_SIZE <= nb && nb % 8 == 0 && nb + MIN_CHUNK_SIZE <= m.heap.cs[p].size
  }

  // The leading space becomes a chunk of its own: tags of the rest, then of the leader.
  method CutLeader(m: MallocState, p: Addr, lead: nat, rest: nat)
    requires CanPart(m, p, lead) && rest == m.heap.cs[p].size - lead
    modifies m`tags, m`heap
    ensures m.Valid() && m.heap == Parted(old(m.heap), p, lead)
  {
    hide HeapX, SegmentsOK;
    ghost var h, t := m.heap, m.tags;
    TagsAround(h, t, m.segs, p);
    SetInuse(m, p + lead, rest);
    SetInuse(m, p, lead);
    Odd(rest);
    Part(h, t, m.segs, p, lead, m.tags);
    m.heap := Parted(h, p, lead);
  }

  // The spare room at the end becomes a chunk: tags of the front, then of the remainder.
  method CutTrailer(m: MallocState, p: Addr, nb: nat, rest: nat)
    requires CanPart(m, p, nb) && rest == m.heap.cs[p].size - nb
    modifies m`tags, m`heap
    ensures m.Valid() && m.heap == Parted(old(m.heap), p, nb)
  {
    hide HeapX, SegmentsOK;
    ghost var h, t := m.heap, m.tags;
    TagsAround(h, t, m.segs, p);
    SetInuse(m, p, nb);
    SetInuse(m, p + nb, rest);
    Part(h, t, m.segs, p, nb, m.tags);
    m.heap := Parted(h, p, nb);
  }

  lemma Odd(s: nat)
    requires s % 8 == 0
    ensures WithPinuse(s + 2) == s + 3 && WithPinuse(s + 3) == s + 3
  {
    FlagBits(s / 8, 2);
    FlagBits(s / 8, 3);
  }

  lemma TagsAround(h: Heap, t: Tags, segs: seq<Segment>, p: Addr)
    requires Sound(h, t, segs, 0) && p in h.live
    ensures p in h.cs && p > 0 && h.cs[p].size % 8 == 0 && p in t.head
    ensures var n := T.Next(h.cs, p);
            n in h.cs && n in t.head && WithPinuse(t.head[n]) == t.head[n]
    ensures forall q :: p < q < T.Next(h.cs, p) ==> q !in h.cs
    ensures ChunkSize(t.head[p]) == h.cs[p].size && p % 8 == 0
  {
    InUse(h, p);
    Read(t, h.cs, p);
    Read(t, h.cs, T.Next(h.cs, p));
    forall q | p < q < T.Next(h.cs, p) ensures q !in h.cs {
      T.NoneInside(h.cs, p, q);
    }
  }

  // request2size
  function NeededSize(bytes: SizeT): SizeT {
    if bytes < MIN_REQUEST then MIN_CHUNK_SIZE else PadRequest(bytes)
  }

  lemma NeededFits(bytes: SizeT)
    requires bytes < MAX_REQUEST
    ensures RequestSize(bytes) == NeededSize(bytes)
    ensures var nb := NeededSize(bytes);
            nb % 8 == 0 && nb >= MIN_CHUNK_SIZE && bytes + CHUNK_OVERHEAD <= nb &&
              (nb == MIN_CHUNK_SIZE || nb <= bytes + 15)
  {
    RequestFits(bytes);
    assert Add64(bytes, 15) == bytes + 15;
  }

  lemma PowerOf8(a: nat)
    requires IsPow2(a) && a >= 8
    ensures a % 8 == 0
  {
    var k: nat :| a == Pow2(k);
    assert Pow2(3) == 8 && Pow2(2) == 4 && Pow2(1) == 2 && Pow2(0) == 1;
    assert k >= 3;
    Pow2Add(3, k - 3);
    QuotientUnique(a, 8, Pow2(k - 3), 0);
  }

  // (mem + a - 1) & -a: the next multiple of a.
  lemma RoundedUp(mem: nat, a: nat)
    requires IsPow2(a) && a >= 8 && mem % a != 0 && mem % 8 == 0
    ensures var r := (mem + a - 1) / a * a;
            mem < r < mem + a && r % a == 0 && r % 8 == 0 && (r + a) % a == 0
  {
    PowerOf8(a);
    var k := mem / a;
    assert mem == a * k + mem % a;
    QuotientUnique(mem + a - 1, a, k + 1, mem % a - 1);
    QuotientUnique((k + 1) * a, a, k + 1, 0);
    QuotientUnique((k + 2) * a, a, k + 2, 0);
    EighthOf(k + 1, a);
  }

  lemma EighthOf(k: nat, a: nat)
    requires a % 8 == 0
    ensures k * a % 8 == 0
  {
    assert k * a == 8 * (k * (a / 8));
    QuotientUnique(k * a, 8, k * (a / 8), 0);
  }

  // The aligned spot internal_memalign chooses in the chunk p: the first one, or the next if
  // that leaves less than a minimum chunk in front.
  function AlignedSpot(p: nat, a: nat): Addr
    requires a > 0
  {
    var br := (p + 16 + a - 1) / a * a - 16;
    if br - p >= MIN_CHUNK_SIZE then br else br + a
  }

  lemma SpotFits(p: nat, a: nat)
    requires IsPow2(a) && a >= MIN_CHUNK_SIZE && (p + 16) % a != 0 && p % 8 == 0
    ensures var lead := AlignedSpot(p, a) - p;
            MIN_CHUNK_SIZE <= lead <= a + MIN_CHUNK_SIZE - 8 && lead % 8 == 0
    ensures (AlignedSpot(p, a) + 16) % a == 0
  {
    hide IsPow2;
    RoundedUp(p + 16, a);
    PowerOf8(a);
    SpotNear(p, a, (p + 16 + a - 1) / a * a);
  }

  // It is the first aligned spot that leaves room for a leader.
  lemma SpotFirst(p: nat, a: nat, q: nat)
    requires IsPow2(a) && a >= MIN_CHUNK_SIZE && (p + 16) % a != 0 && p % 8 == 0
    requires q >= p + MIN_CHUNK_SIZE && (q + 16) % a == 0
    ensures AlignedSpot(p, a) <= q
  {
    hide IsPow2, AlignedSpot;
    SpotFits(p, a);
    if q < AlignedSpot(p, a) {
      G.Multiples(q + 16, AlignedSpot(p, a) + 16, a);
    }
  }

  lemma SpotNear(p: nat, a: nat, r: nat)
    requires p + 16 < r < p + 16 + a && r % 8 == 0 && p % 8 == 0 && a % 8 == 0 && a >= MIN_CHUNK_SIZE
    ensures var lead := (if r - 16 - p >= MIN_CHUNK_SIZE then r - 16 else r - 16 + a) - p;
            MIN_CHUNK_SIZE <= lead <= a + MIN_CHUNK_SIZE - 8 && lead % 8 == 0
  {
  }

  // A multiple of a power of two is one of every smaller power.
  lemma PowersDivide(x: nat, a: nat, b: nat)
    requires IsPow2(a) && IsPow2(b) && b <= a && x % a == 0
    ensures b > 0 && x % b == 0
  {
    var i: nat :| a == Pow2(i);
    var j: nat :| b == Pow2(j);
    if i < j {
      Pow2Less(i, j);
    }
    Pow2Add(j, i - j);
    Divides(x, b, Pow2(i - j), x / a);
  }

  lemma Divides(x: nat, b: nat, c: nat, k: nat)
    requires b > 0 && x == b * c * k
    ensures x % b == 0
  {
    assert b * c * k == b * (c * k);
    QuotientUnique(x, b, c * k, 0);
  }

  lemma SubMax(a: nat)
    requires a <= 0x8000_0000_0000_0000
    ensures Sub64(MAX_REQUEST, a) == MAX_REQUEST - a
  {
  }

  lemma SlackIs(bytes: SizeT, a: nat)
    requires NeededSize(bytes) + a + MIN_CHUNK_SIZE - CHUNK_OVERHEAD < WORD64
    ensures WithSlack(bytes, a) == NeededSize(bytes) + a + MIN_CHUNK_SIZE - CHUNK_OVERHEAD
  {
    hide NeededSize;
  }

  lemma RequestInRange(bytes: SizeT, a: nat)
    requires MIN_CHUNK_SIZE <= a <= 0x8000_0000_0000_0000 && bytes < Sub64(MAX_REQUEST, a)
    ensures bytes < MAX_REQUEST && NeededSize(bytes) + a + MIN_CHUNK_SIZE - CHUNK_OVERHEAD < WORD64
  {
    assert Sub64(MAX_REQUEST, a) == MAX_REQUEST - a;
    NeededFits(bytes);
  }

  // Whether a request is refused, if the system answers to each size as answer tells
  ghost predicate RefusedBy(h: Heap, bytes: SizeT, granularity: PageSize, answer: SizeT -> Mapping) {
    Refused(h, RequestSize(bytes), granularity, answer(SystemSize(RequestSize(bytes), granularity)))
  }

  // Malloc, for internal_malloc
  method Allocate(m: MallocState, bytes: SizeT, answer: SizeT -> Mapping) returns (mem: Addr)
    requires m.Valid() && forall s: SizeT :: Offered(m.segs, answer(s), s)
    modifies m, m.small, m.tree
    ensures m.Valid() && ExecKept(old(m.segs), m.segs)
    ensures mem == 0 ==> m.heap == old(m.heap) && m.segs == old(m.segs)
    ensures mem != 0 ==> mem > 16 && bytes < MAX_REQUEST && Allotted(old(m.heap), m.heap, NeededSize(bytes), mem - 16)
    ensures mem == 0 <==> RefusedBy(old(m.heap), bytes, m.granularity, answer)
  {
    if bytes < MAX_REQUEST {
      NeededFits(bytes);
    }
    mem := m.Malloc(bytes, answer(SystemSize(RequestSize(bytes), m.granularity)));
  }

  // What internal_memalign asks for: room to find an aligned spot and cut off a leader
  function WithSlack(bytes: SizeT, a: nat): SizeT {
    Add64(NeededSize(bytes), a + MIN_CHUNK_SIZE - CHUNK_OVERHEAD)
  }

  // What internal_memalign achieves: one more live chunk p of the right size, the others kept.
  ghost predicate Aligned(h: Heap, g: Heap, bytes: SizeT, p: Addr, a: nat) {
    && a > 0 && (p + 16) % a == 0
    && p !in h.live && g.live == h.live + {p} && KeepsLive(h, g) && h.records <= g.records
    && p in g.cs && bytes + CHUNK_OVERHEAD <= g.cs[p].size <= NeededSize(bytes) + MIN_CHUNK_SIZE
  }

  // The chunks live in h, except p, are so in g, with their sizes.
  ghost predicate Others(h: Heap, g: Heap, p: Addr) {
    forall q :: q in h.live && q != p ==> q in g.live && q in h.cs && q in g.cs && g.cs[q].size == h.cs[q].size
  }

  lemma FreedOthers(h: Heap, g: Heap, k: Heap, p: Addr, l: Addr)
    requires Others(h, g, p) && k.live == g.live - {l} && KeepsLive(g, k) && (l !in h.live || l == p)
    ensures Others(h, k, p)
  {
  }

  lemma LiveAligned(h: Heap, p: Addr)
    requires HeapOK(h) && p in h.live
    ensures p > 0 && p % 8 == 0 && p in h.cs
  {
    InUse(h, p);
  }

  // Find an aligned spot in the chunk of mem0 and cut off a leader in front of it, if needed.
  method CutToAlignment(m: MallocState, mem0: Addr, alignment: nat, nb: nat) returns (p: Addr, leader: Addr)
    requires m.Valid() && mem0 - 16 in m.heap.live && mem0 - 16 in m.heap.cs
    requires IsPow2(alignment) && alignment >= MIN_CHUNK_SIZE && nb >= MIN_CHUNK_SIZE && nb % 8 == 0
    requires m.heap.cs[mem0 - 16].size >= nb + alignment + MIN_CHUNK_SIZE
    modifies m`tags, m`heap
    ensures m.Valid() && p > 0 && (p + 16) % alignment == 0 && m.heap.records == old(m.heap).records
    ensures p in m.heap.live && p in m.heap.cs && m.heap.cs[p].size >= nb && Others(old(m.heap), m.heap, mem0 - 16)
    ensures if leader == 0 then p == mem0 - 16 && m.heap == old(m.heap)
            else leader == mem0 && p !in old(m.heap).live && m.heap.live == old(m.heap).live + {p}
    ensures mem0 > 16 && p == if mem0 % alignment == 0 then mem0 - 16 else AlignedSpot(mem0 - 16, alignment)
    ensures p + m.heap.cs[p].size == mem0 - 16 + old(m.heap).cs[mem0 - 16].size
  {
    hide HeapX, SegmentsOK, IsPow2, KeepsLive, AlignedSpot;
    leader := 0;
    p := mem0 - 16;
    LiveAligned(m.heap, p);
    AllLive(m.heap);
    if mem0 % alignment != 0 {
      SpotFits(p, alignment);
      var pos := AlignedSpot(p, alignment);
      var leadsize := pos - p;
      TagsAround(m.heap, m.tags, m.segs, p);
      var newsize := ChunkSize(m.tags.head[p]) - leadsize;
      PartedIs(m.heap, p, leadsize);
      CutLeader(m, p, leadsize, newsize);
      leader := p + 16;
      p := pos;
    }
  }

  // Cut off what is behind nb bytes, if that is more than the least chunk.
  method CutBehind(m: MallocState, p: Addr, nb: nat) returns (trailer: Addr)
    requires m.Valid() && p in m.heap.live && p in m.heap.cs && m.heap.cs[p].size >= nb >= MIN_CHUNK_SIZE && nb % 8 == 0
    modifies m`tags, m`heap
    ensures m.Valid() && m.heap.records == old(m.heap).records && Others(old(m.heap), m.heap, p)
    ensures p in m.heap.live && p in m.heap.cs
    ensures if old(m.heap).cs[p].size <= nb + MIN_CHUNK_SIZE then trailer == 0 && m.heap == old(m.heap)
            else trailer == p + nb + 16 != 0 && m.heap.cs[p].size == nb && trailer - 16 !in old(m.heap).live
                 && m.heap.live == old(m.heap).live + {trailer - 16}
  {
    hide HeapX, TagsOK, SegmentsOK, KeepsLive;
    ghost var g := m.heap;
    TagsAround(m.heap, m.tags, m.segs, p);
    LiveAligned(g, p);
    AllLive(g);
    trailer := 0;
    var size := ChunkSize(m.tags.head[p]);
    if size > nb + MIN_CHUNK_SIZE {
      PartedIs(g, p, nb);
      CutTrailer(m, p, nb, size - nb);
      trailer := p + nb + 16;
    }
  }

  // The part of internal_memalign after the allocation: cut off leader and trailer, free both.
  method Trim(m: MallocState, mem0: Addr, alignment: nat, nb: nat) returns (mem: Addr)
    requires m.Valid() && mem0 - 16 in m.heap.live && mem0 - 16 in m.heap.cs
    requires IsPow2(alignment) && alignment >= MIN_CHUNK_SIZE && nb >= MIN_CHUNK_SIZE && nb % 8 == 0
    requires m.heap.cs[mem0 - 16].size >= nb + alignment + MIN_CHUNK_SIZE
    modifies m`own, m`tags, m`heap, m.small, m.tree
    ensures m.Valid() && mem > 16 && mem % alignment == 0
    ensures mem == mem0 || mem - 16 !in old(m.heap).live
    ensures m.heap.live == old(m.heap).live - {mem0 - 16} + {mem - 16} && m.heap.records == old(m.heap).records
    ensures Others(old(m.heap), m.heap, mem0 - 16)
    ensures mem - 16 in m.heap.cs && nb <= m.heap.cs[mem - 16].size <= nb + MIN_CHUNK_SIZE
    ensures mem0 > 16 && mem - 16 == if mem0 % alignment == 0 then mem0 - 16 else AlignedSpot(mem0 - 16, alignment)
    ensures || m.heap.cs[mem - 16].size == nb
            || mem + m.heap.cs[mem - 16].size == mem0 + old(m.heap).cs[mem0 - 16].size
  {
    hide HeapX, AlignedSpot, TagsOK, SegmentsOK, IsPow2, KeepsLive, Rejoined;
    ghost var h, p0 := m.heap, mem0 - 16;
    var p, leader := CutToAlignment(m, mem0, alignment, nb);
    AllLive(h);
    var trailer := CutBehind(m, p, nb);
    FreeBoth(m, leader, trailer, p);
    mem := p + 16;
  }

  method FreeBoth(m: MallocState, leader: Addr, trailer: Addr, ghost p: Addr)
    requires m.Valid() && p in m.heap.live && p in m.heap.cs
    requires leader != 0 ==> leader - 16 in m.heap.live && leader - 16 != p
    requires trailer != 0 ==> trailer - 16 in m.heap.live && trailer - 16 != p && trailer != leader
    modifies m`own, m`tags, m`heap, m.small, m.tree
    ensures m.Valid() && m.heap.records == old(m.heap).records && KeepsLive(old(m.heap), m.heap)
    ensures m.heap.live == old(m.heap).live - (if leader == 0 then {} else {leader - 16}) -
            (if trailer == 0 then {} else {trailer - 16})
    ensures p in m.heap.cs && m.heap.cs[p].size == old(m.heap).cs[p].size
  {
    if leader != 0 {
      m.Free(leader);
    }
    if trailer != 0 {
      m.Free(trailer);
    }
  }

  lemma AllLive(h: Heap)
    requires HeapOK(h)
    ensures forall q :: q in h.live ==> q in h.cs
  {
  }

  lemma PartedIs(h: Heap, p: Addr, nb: nat)
    requires HeapOK(h) && p in h.live && p in h.cs && MIN_CHUNK_SIZE <= nb && nb % 8 == 0 &&
             nb + MIN_CHUNK_SIZE <= h.cs[p].size
    ensures var g := Parted(h, p, nb);
            && Others(h, g, p) && p + nb !in h.cs && p in g.cs && g.cs[p].size == nb && p + nb in g.cs
            && g.cs[p + nb].size == h.cs[p].size - nb
  {
    PartLive(h, p, nb);
  }

  lemma TrimmedIs(h: Heap, g: Heap, k: Heap, bytes: SizeT, nb: nat, a: nat, p0: Addr, p: Addr)
    requires Allotted(h, g, nb, p0) && Others(g, k, p0) && g.records == k.records
    requires p == p0 || p !in g.live
    requires k.live == g.live - {p0} + {p} && a > 0 && (p + 16) % a == 0
    requires p in k.cs && bytes + CHUNK_OVERHEAD <= k.cs[p].size <= NeededSize(bytes) + MIN_CHUNK_SIZE
    ensures Aligned(h, k, bytes, p, a)
  {
  }

  // internal_memalign. answer tells what mmap would answer to each size.
  method Memalign(m: MallocState, alignment: SizeT, bytes: SizeT, answer: SizeT -> Mapping)
    returns (mem: Addr, ghost a: nat)
    requires m.Valid() && alignment <= 0x8000_0000_0000_0000
    requires forall s: SizeT :: Offered(m.segs, answer(s), s)
    modifies m, m.small, m.tree
    ensures m.Valid() && ExecKept(old(m.segs), m.segs)
    ensures mem == 0 ==> m.heap == old(m.heap) && m.segs == old(m.segs)
    ensures IsPow2(a) && a >= alignment
    ensures if alignment <= MALLOC_ALIGNMENT then a == MALLOC_ALIGNMENT
            else a >= MIN_CHUNK_SIZE && (a == MIN_CHUNK_SIZE || a < 2 * alignment)
    ensures mem == 0 <==>
              if alignment <= MALLOC_ALIGNMENT then RefusedBy(old(m.heap), bytes, m.granularity, answer)
              else bytes >= MAX_REQUEST - a || RefusedBy(old(m.heap), WithSlack(bytes, a), m.granularity, answer)
    ensures mem != 0 ==> Aligned(old(m.heap), m.heap, bytes, mem - 16, a)
    ensures mem != 0 && IsPow2(alignment) ==> mem % alignment == 0
  {
    hide HeapX, SegmentsOK, KeepsLive, Sub64, PadRequest, RequestSize, RefusedBy, WithSlack;
    mem, a := 0, MALLOC_ALIGNMENT;
    assert a == Pow2(3);
    if alignment <= MALLOC_ALIGNMENT {
      mem := Allocate(m, bytes, answer);
      if mem != 0 {
        LiveAligned(m.heap, mem - 16);
        NeededFits(bytes);
      }
    } else {
      var al := NormalAlignment(alignment);
      a := al;
      SubMax(al);
      if bytes < Sub64(MAX_REQUEST, al) {
        RequestInRange(bytes, al);
        mem := AllocateAligned(m, al, bytes, answer);
      }
    }
    if mem != 0 && IsPow2(alignment) {
      PowersDivide(mem, a, alignment);
    }
  }

  method AllocateAligned(m: MallocState, a: nat, bytes: SizeT, answer: SizeT -> Mapping) returns (mem: Addr)
    requires m.Valid() && IsPow2(a) && a >= MIN_CHUNK_SIZE
    requires bytes < MAX_REQUEST && NeededSize(bytes) + a + MIN_CHUNK_SIZE - CHUNK_OVERHEAD < WORD64
    requires forall s: SizeT :: Offered(m.segs, answer(s), s)
    modifies m, m.small, m.tree
    ensures m.Valid() && ExecKept(old(m.segs), m.segs)
    ensures mem == 0 ==> m.heap == old(m.heap) && m.segs == old(m.segs)
    ensures mem != 0 ==> mem > 16 && Aligned(old(m.heap), m.heap, bytes, mem - 16, a)
    ensures mem == 0 <==> RefusedBy(old(m.heap), WithSlack(bytes, a), m.granularity, answer)
  {
    hide HeapX, SegmentsOK, KeepsLive, Sub64, IsPow2, PadRequest, RequestSize, RefusedBy, WithSlack, ExecKept, Others,
         Aligned;
    NeededFits(bytes);
    SlackIs(bytes, a);
    var nb := NeededSize(bytes);
    var req: SizeT := nb + a + MIN_CHUNK_SIZE - CHUNK_OVERHEAD;
    mem := Allocate(m, req, answer);
    if mem != 0 {
      ghost var g, p0 := m.heap, mem - 16;
      NeededFits(req);
      mem := Trim(m, mem, a, nb);
      TrimmedIs(old(m.heap), g, m.heap, bytes, NeededSize(req), a, p0, mem - 16);
    }
  }
}
