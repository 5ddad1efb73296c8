// What a caller of dlmalloc sees: the bytes between a chunk's head and the next chunk's.

module Payloads {
  import opened Words
  import opened Rings
  import opened Tiling
  import opened HeapState
  import opened HeapSteps
  import opened Requests

  // chunk2mem, and the end of the payload, which takes in the next chunk's prev_foot.
  function Start(p: Addr): Addr { p + 16 }

  ghost function Stop(h: Heap, p: Addr): Addr
    requires p in h.cs
  {
    Next(h.cs, p) + 8
  }

  // A successful dlmalloc gives an aligned payload with room for the bytes asked for, apart from
  // every other payload in use, and all others keep theirs.
  lemma Given(h: Heap, g: Heap, bytes: SizeT, p: Addr)
    requires HeapOK(h) && HeapOK(g) && bytes < MAX_REQUEST && Allotted(h, g, RequestSize(bytes), p)
    ensures p in g.cs && Start(p) % 8 == 0 && Start(p) + bytes <= Stop(g, p)
    ensures forall q :: q in h.live ==> q in h.cs && q in g.cs && Stop(g, q) == Stop(h, q) && Apart(g, p, q)
  {
    RequestFits(bytes);
    InUse(g, p);
    forall q | q in h.live ensures q in h.cs && q in g.cs && Stop(g, q) == Stop(h, q) && Apart(g, p, q) {
      InUse(h, q);
      PayloadsApart(g, p, q);
    }
  }

  ghost predicate Apart(h: Heap, p: Addr, q: Addr)
    requires p in h.cs && q in h.cs
  {
    Stop(h, p) <= Start(q) || Stop(h, q) <= Start(p)
  }

  lemma PayloadsApart(h: Heap, p: Addr, q: Addr)
    requires HeapOK(h) && p in h.live && q in h.live && p != q
    ensures p in h.cs && q in h.cs && Apart(h, p, q)
  {
    assert Tiling.Apart(h.cs, p, q) && Tiling.Apart(h.cs, q, p);
  }

  // What a caller writes into its payload reaches no head word, and of no free chunk any word:
  // neither its links nor its foot.
  lemma PayloadIsCallers(h: Heap, p: Addr, q: Addr)
    requires HeapOK(h) && p in h.live && q in h.cs && q != p
    ensures p in h.cs
    ensures q + 16 <= Start(p) || Stop(h, p) <= q + 8
    ensures !h.cs[q].cinuse ==> Stop(h, q) <= Start(p) || Stop(h, p) <= q + 8
  {
    assert Tiling.Apart(h.cs, p, q) && Tiling.Apart(h.cs, q, p);
    assert ChunkOK(h.cs, q) && ChunkOK(h.cs, p);
  }
}
