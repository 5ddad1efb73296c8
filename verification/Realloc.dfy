// internal_realloc: a chunk is cut, or grows into top, or moves with its bytes.

module Realloc {
  import opened Words
  import opened Rings
  import opened Bytes
  import opened HeapState
  import opened HeapSteps
  import opened Segments
  import opened Tags
  import opened Requests
  import opened Allocator
  import opened Memalign
  import opened Payloads
  import T = Tiling

  // ---- Growing into top -----------------------------------------------------------------

  ghost predicate CanStretch(h: Heap, p: Addr, nb: nat) {
    && p in h.live && p in h.cs && h.top in h.cs && T.Next(h.cs, p) == h.top
    && h.cs[p].size < nb < h.cs[p].size + h.topsize && nb % 8 == 0 && h.topsize == h.cs[h.top].size
  }

  // The chunk in use below top takes so much of it that it has nb bytes.
  ghost function Stretched(h: Heap, p: Addr, nb: nat): Heap
    requires CanStretch(h, p, nb)
  {
    h.(cs := T.Split(T.Merged(h.cs, p), p, nb, true, false), top := p + nb, topsize := h.cs[p].size + h.topsize - nb)
  }

  // Only the chunk and top change, and no other chunk borders top.
  lemma StretchView(h: Heap, p: Addr, nb: nat)
    requires HeapOK(h) && CanStretch(h, p, nb)
    ensures var cs := Stretched(h, p, nb).cs;
            && T.Tiled(cs) && cs.Keys == h.cs.Keys - {h.top} + {p + nb} && p + nb !in h.cs && p != h.top
            && cs[p] == h.cs[p].(size := nb) && cs[p + nb] == T.Chunk(h.cs[p].size + h.topsize - nb, true, false, p)
            && (forall q :: q in h.cs && q != p && q != h.top ==>
                  cs[q] == h.cs[q] && T.Next(h.cs, q) != h.top && T.Next(h.cs, q) != p + nb)
            && T.Next(cs, p + nb) !in cs && T.Next(h.cs, h.top) !in h.cs
  {
    hide PlacedOK, LoneOK;
    InUse(h, p);
    TopNotRecord(h, 0);
    T.Neighbours(h.cs, p);
    T.NoneInside(h.cs, h.top, p + nb);
    T.MergeTiled(h.cs, p);
    T.SplitTiled(T.Merged(h.cs, p), p, nb, true, false);
    forall q | q in h.cs && q != p && q != h.top ensures T.Next(h.cs, q) != h.top && T.Next(h.cs, q) != p + nb {
      assert T.Apart(h.cs, q, p) && T.Apart(h.cs, p, q) && T.Apart(h.cs, h.top, q);
      assert T.ChunkOK(h.cs, q);
    }
  }

  lemma Stretch(h: Heap, p: Addr, nb: nat)
    requires HeapOK(h) && CanStretch(h, p, nb)
    ensures var g := Stretched(h, p, nb);
            HeapOK(g) && p in g.cs && g.cs[p].size == nb && p + nb !in h.cs
            && forall q :: q in h.live && q != p ==> q in h.cs && q in g.cs && g.cs[q].size == h.cs[q].size
  {
    hide T.Split, T.Merged, T.Tiled;
    var g := Stretched(h, p, nb);
    StretchView(h, p, nb);
    InUse(h, p);
    assert PlacedOK(h, 0, p) && PlacedOK(h, 0, h.top) && LoneOK(h, 0, p) && LoneOK(h, 0, h.top);
    forall q {:trigger PlacedOK(g, 0, q)} | q in g.cs ensures PlacedOK(g, 0, q) {
      if q != p && q != g.top {
        assert PlacedOK(h, 0, q);
      }
    }
    forall q {:trigger LoneOK(g, 0, q)} ensures LoneOK(g, 0, q) {
      assert LoneOK(h, 0, q);
    }
  }

  // The head words of the chunk, with its pinuse bit as it was, and of top.
  ghost predicate StretchWritten(h: Heap, t: Tags, u: Tags, p: Addr, nb: nat)
    requires CanStretch(h, p, nb)
  {
    && u.foot == t.foot
    && p in t.head && p in u.head && u.head[p] == nb + t.head[p] % 2 + CINUSE_BIT
    && p + nb in u.head && u.head[p + nb] == h.cs[p].size + h.topsize - nb + PINUSE_BIT
    && forall q :: q in h.cs && q != p && q in t.head ==> q in u.head && u.head[q] == t.head[q]
  }

  lemma StretchTags(h: Heap, t: Tags, u: Tags, p: Addr, nb: nat)
    requires HeapOK(h) && TagsOK(t, h.cs) && CanStretch(h, p, nb) && StretchWritten(h, t, u, p, nb)
    ensures TagsOK(u, Stretched(h, p, nb).cs)
  {
    hide T.Split, T.Merged, PlacedOK, LoneOK;
    var cs, ds := h.cs, Stretched(h, p, nb).cs;
    StretchView(h, p, nb);
    InUse(h, p);
    assert TagOK(t, cs, p);
    HeadRead(cs[p]);
    forall q {:trigger TagOK(u, ds, q)} | q in ds ensures TagOK(u, ds, q) {
      if q != p && q != p + nb {
        assert TagOK(t, cs, q);
      }
    }
  }

  lemma StretchSegments(h: Heap, segs: seq<Segment>, p: Addr, nb: nat)
    requires HeapOK(h) && SegmentsOK(h, segs) && CanStretch(h, p, nb)
    ensures SegmentsOK(Stretched(h, p, nb), segs)
  {
    hide SegmentsOK, PlacedOK, LoneOK;
    InUse(h, p);
    TopNotRecord(h, 0);
    var g := h.(cs := T.Merged(h.cs, p), top := p);
    KeptByMerge(h, segs, g, p);
    T.MergeTiled(h.cs, p);
    KeptBySplit(g, segs, Stretched(h, p, nb), p, nb, true, false);
  }

  // ---- The bytes ------------------------------------------------------------------------

  // Every byte from a up to b is as before.
  ghost predicate Unchanged(m: Memory, n: Memory, a: int, b: int) {
    forall i :: a <= i < b && i in m ==> i in n && n[i] == m[i]
  }

  // What is at dst is what was at src.
  ghost predicate Copied(m: Memory, n: Memory, src: int, dst: int, count: int) {
    forall a :: src <= a < src + count && a in m ==> a - src + dst in n && n[a - src + dst] == m[a]
  }

  // memcpy; bytes nobody has written yet are none
  function CopyBytes(m: Memory, dst: Addr, src: Addr, count: nat): Memory {
    m + map a: int {:trigger a in m} | dst <= a < dst + count && a - dst + src in m :: m[a - dst + src]
  }

  function Min(a: int, b: int): int { if a < b then a else b }

  // ---- Reallocation ---------------------------------------------------------------------

  // Whether the chunk p can have nb bytes where it is.
  ghost predicate InPlace(h: Heap, p: Addr, nb: nat) {
    p in h.cs && (h.cs[p].size >= nb || (T.Next(h.cs, p) == h.top && h.cs[p].size + h.topsize > nb))
  }

  // p gave way to q, which has room for the bytes; all other chunks in use are kept.
  ghost predicate Replaced(h: Heap, g: Heap, p: Addr, q: Addr, bytes: nat) {
    && g.live == h.live - {p} + {q} && (q == p || q !in h.live) && Others(h, g, p) && h.records <= g.records
    && q in g.cs && g.cs[q].size >= bytes + CHUNK_OVERHEAD
  }

  // So little bigger than nb that nothing can be split off.
  ghost predicate Snug(h: Heap, p: Addr, nb: nat) { p in h.cs && nb <= h.cs[p].size < nb + MIN_CHUNK_SIZE }

  // The part of internal_realloc that works in place: null if there is no room.
  method Resize(m: MallocState, oldmem: Addr, nb: nat) returns (mem: Addr)
    requires m.Valid() && oldmem - 16 in m.heap.live && nb >= MIN_CHUNK_SIZE && nb % 8 == 0
    modifies m`own, m`tags, m`heap, m.small, m.tree
    ensures m.Valid() && (mem == 0 || mem == oldmem)
    ensures mem != 0 <==> InPlace(old(m.heap), oldmem - 16, nb)
    ensures mem == 0 ==> unchanged(m, m.small, m.tree)
    ensures mem != 0 ==> Replaced(old(m.heap), m.heap, oldmem - 16, oldmem - 16, nb - CHUNK_OVERHEAD)
    ensures mem != 0 ==> Snug(m.heap, oldmem - 16, nb)
  {
    hide HeapX, SegmentsOK, TagsOK;
    ghost var h, t := m.heap, m.tags;
    var oldp := oldmem - 16;
    TagsAround(h, t, m.segs, oldp);
    AllLive(h);
    var oldsize := ChunkSize(m.tags.head[oldp]);
    mem := 0;
    if oldsize >= nb {
      var rsize := oldsize - nb;
      mem := oldmem;
      if rsize >= MIN_CHUNK_SIZE {
        PartedIs(h, oldp, nb);
        CutTrailer(m, oldp, nb, rsize);
        ghost var g := m.heap;
        m.Free(oldp + nb + 16);
        FreedOthers(h, g, m.heap, oldp, oldp + nb);
      }
    } else if oldp + oldsize == m.own.top && oldsize + m.own.topsize > nb {
      StretchIntoTop(m, oldp, oldsize, nb);
      mem := oldmem;
    }
  }

  method StretchIntoTop(m: MallocState, oldp: Addr, oldsize: nat, nb: nat)
    requires m.Valid() && oldp in m.heap.live && oldp in m.heap.cs && oldsize == m.heap.cs[oldp].size
    requires oldp + oldsize == m.heap.top && oldsize < nb < oldsize + m.heap.topsize && nb % 8 == 0
    modifies m`own, m`tags, m`heap
    ensures m.Valid() && Replaced(old(m.heap), m.heap, oldp, oldp, nb - CHUNK_OVERHEAD) && Snug(m.heap, oldp, nb)
  {
    hide SegmentsOK, TagsOK, PlacedOK, LoneOK, T.Split, T.Merged, T.Tiled;
    ghost var h, t := m.heap, m.tags;
    TopNotRecord(h, 0);
    AllLive(h);
    assert CanStretch(h, oldp, nb);
    TagsAround(h, t, m.segs, oldp);
    Stretch(h, oldp, nb);
    StretchSegments(h, m.segs, oldp, nb);
    var newtopsize := oldsize + m.own.topsize - nb;
    var newtop := oldp + nb;
    Memalign.SetInuse(m, oldp, nb);
    m.tags := m.tags.(head := m.tags.head[newtop := newtopsize + PINUSE_BIT]);
    m.own := m.own.(top := newtop, topsize := newtopsize);
    m.heap := Stretched(h, oldp, nb);
    StretchTags(h, t, m.tags, oldp, nb);
  }

  // The bytes every owner but that of p may have written, in h, are in n as they were in m.
  ghost predicate OthersUnchanged(h: Heap, m: Memory, n: Memory, p: Addr) {
    forall q :: q in h.live && q != p && q in h.cs ==> Unchanged(m, n, Start(q), Stop(h, q))
  }

  // internal_realloc. memory holds the payloads, mapping is what mmap would answer if asked.
  method Realloc(m: MallocState, memory: Memory, oldmem: Addr, bytes: SizeT, mapping: Mapping)
    returns (mem: Addr, after: Memory)
    requires m.Valid() && oldmem - 16 in m.heap.live && oldmem - 16 in m.heap.cs
    requires var size := SystemSize(RequestSize(bytes), m.granularity);
             size > RequestSize(bytes) ==> Offered(m.segs, mapping, size)
    modifies m, m.small, m.tree
    ensures m.Valid() && ExecKept(old(m.segs), m.segs)
    ensures mem == 0 ==> m.heap == old(m.heap) && m.segs == old(m.segs) && after == memory
    ensures mem != 0 ==> bytes < MAX_REQUEST && Replaced(old(m.heap), m.heap, oldmem - 16, mem - 16, bytes)
    ensures mem != 0 ==> Snug(m.heap, mem - 16, NeededSize(bytes))
    ensures mem != 0 ==>
              Copied(memory, after, oldmem, mem, Min(old(m.heap).cs[oldmem - 16].size - CHUNK_OVERHEAD, bytes))
    ensures OthersUnchanged(old(m.heap), memory, after, oldmem - 16)
    ensures mem == 0 <==>
              || bytes >= MAX_REQUEST
              || (!InPlace(old(m.heap), oldmem - 16, NeededSize(bytes))
                  && Refused(old(m.heap), RequestSize(bytes), m.granularity, mapping))
    ensures bytes < MAX_REQUEST ==> (mem == oldmem <==> InPlace(old(m.heap), oldmem - 16, NeededSize(bytes)))
  {
    hide HeapX, SegmentsOK, TagsOK, KeepsLive, RequestSize, PadRequest, Replaced, Copied, Refused;
    mem, after := 0, memory;
    if bytes >= MAX_REQUEST {
      return;
    }
    NeededFits(bytes);
    mem := Resize(m, oldmem, NeededSize(bytes));
    if mem == 0 {
      mem, after := Move(m, memory, oldmem, bytes, mapping);
    } else {
      Roomier(old(m.heap), m.heap, oldmem - 16, NeededSize(bytes) - CHUNK_OVERHEAD, bytes);
      SameCopied(memory, oldmem, Min(old(m.heap).cs[oldmem - 16].size - CHUNK_OVERHEAD, bytes));
    }
  }

  // malloc, copy, free
  method Move(m: MallocState, memory: Memory, oldmem: Addr, bytes: SizeT, mapping: Mapping)
    returns (mem: Addr, after: Memory)
    requires m.Valid() && oldmem - 16 in m.heap.live && oldmem - 16 in m.heap.cs && bytes < MAX_REQUEST
    requires var size := SystemSize(RequestSize(bytes), m.granularity);
             size > RequestSize(bytes) ==> Offered(m.segs, mapping, size)
    modifies m, m.small, m.tree
    ensures m.Valid() && ExecKept(old(m.segs), m.segs) && mem != oldmem
    ensures mem == 0 <==> Refused(old(m.heap), RequestSize(bytes), m.granularity, mapping)
    ensures mem == 0 ==> m.heap == old(m.heap) && m.segs == old(m.segs) && after == memory
    ensures mem != 0 ==>
              Replaced(old(m.heap), m.heap, oldmem - 16, mem - 16, bytes) && Snug(m.heap, mem - 16, NeededSize(bytes))
    ensures mem != 0 ==>
              Copied(memory, after, oldmem, mem, Min(old(m.heap).cs[oldmem - 16].size - CHUNK_OVERHEAD, bytes))
    ensures OthersUnchanged(old(m.heap), memory, after, oldmem - 16)
  {
    hide HeapX, SegmentsOK, TagsOK, KeepsLive, RequestSize, PadRequest, Served, Refused, RestPlaced, Replaced, Copied,
         ExecKept, Allotted, OthersUnchanged, SystemSize, Offered, CopyBytes;
    ghost var h := m.heap;
    TagsAround(h, m.tags, m.segs, oldmem - 16);
    LiveSize(h, oldmem - 16);
    var oldsize := ChunkSize(m.tags.head[oldmem - 16]);
    after := memory;
    mem := m.Malloc(bytes, mapping);
    if mem != 0 {
      ghost var g := m.heap;
      TwoLive(h, g, RequestSize(bytes), oldmem - 16, mem - 16);
      var oc := oldsize - CHUNK_OVERHEAD;
      var count := if oc < bytes then oc else bytes;
      after := CopyBytes(memory, mem, oldmem, count);
      CopyApart(h, g, memory, after, oldmem - 16, mem - 16, bytes, count);
      m.Free(oldmem);
      Moved(h, g, m.heap, oldmem - 16, mem - 16, bytes);
    } else {
      NoneChanged(h, memory, oldmem - 16);
    }
  }

  lemma TwoLive(h: Heap, g: Heap, nb: nat, p: Addr, q: Addr)
    requires Allotted(h, g, nb, q) && p in h.live
    ensures p in g.live && p != q
  {
  }

  lemma NoneChanged(h: Heap, m: Memory, p: Addr)
    ensures OthersUnchanged(h, m, m, p)
  {
  }

  lemma Roomier(h: Heap, g: Heap, p: Addr, room: nat, bytes: nat)
    requires Replaced(h, g, p, p, room) && bytes <= room
    ensures Replaced(h, g, p, p, bytes)
  {
  }

  lemma SameCopied(m: Memory, a: Addr, count: int)
    ensures Copied(m, m, a, a, count)
  {
  }

  lemma LiveSize(h: Heap, p: Addr)
    requires HeapOK(h) && p in h.live
    ensures p in h.cs && h.cs[p].size >= MIN_CHUNK_SIZE
  {
    At(h, 0, p);
  }

  lemma Moved(h: Heap, g: Heap, k: Heap, p: Addr, q: Addr, bytes: SizeT)
    requires HeapOK(h) && HeapOK(g) && p in h.live && bytes < MAX_REQUEST && Allotted(h, g, RequestSize(bytes), q)
    requires k.live == g.live - {p} && k.records == g.records && KeepsLive(g, k)
    ensures Replaced(h, k, p, q, bytes) && Snug(k, q, NeededSize(bytes))
  {
    RequestFits(bytes);
    NeededFits(bytes);
    AllLive(h);
    AllLive(g);
  }

  // The new place is apart from every payload in use, also the old place.
  lemma CopyApart(h: Heap, g: Heap, m: Memory, n: Memory, p: Addr, q: Addr, bytes: SizeT, count: nat)
    requires HeapOK(h) && HeapOK(g) && p in h.live && bytes < MAX_REQUEST && Allotted(h, g, RequestSize(bytes), q)
    requires count <= bytes && n == CopyBytes(m, Start(q), Start(p), count)
    ensures Copied(m, n, Start(p), Start(q), count)
    ensures OthersUnchanged(h, m, n, p)
  {
    Given(h, g, bytes, q);
  }
}
