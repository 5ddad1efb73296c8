// The chunks of the heap as a value: which addresses start a chunk, how big it is, and the
// inuse bits of the chunk and of the one before it. Boundary tags are this value in memory.

module Tiling {
  import opened Words
  import opened Rings

  // prev is the start of the chunk just below, 0 for the first chunk of a segment.
  datatype Chunk = Chunk(size: nat, pinuse: bool, cinuse: bool, prev: Addr)

  type Chunks = map<Addr, Chunk>

  ghost function Next(cs: Chunks, p: Addr): Addr
    requires p in cs
  {
    p + cs[p].size
  }

  // A chunk agrees with its neighbours: the next chunk's pinuse is this one's cinuse.
  ghost predicate ChunkOK(cs: Chunks, p: Addr) {
    && p in cs && p > 0 && p % 8 == 0 && cs[p].size > 0 && cs[p].size % 8 == 0 && Next(cs, p) < WORD64
    && (Next(cs, p) in cs ==> cs[Next(cs, p)].prev == p)
    && (if cs[p].prev == 0 then cs[p].pinuse
        else cs[p].prev in cs && Next(cs, cs[p].prev) == p && cs[p].pinuse == cs[cs[p].prev].cinuse)
  }

  ghost predicate Apart(cs: Chunks, p: Addr, q: Addr) {
    p in cs && q in cs && p < q ==> Next(cs, p) <= q
  }

  ghost predicate Tiled(cs: Chunks) {
    && (forall p {:trigger ChunkOK(cs, p)} :: p in cs ==> ChunkOK(cs, p))
    && (forall p, q {:trigger Apart(cs, p, q)} :: Apart(cs, p, q))
  }

  // What the chunk at n knows of the one below it, if there is a chunk at n.
  function Told(cs: Chunks, n: Addr, prev: Addr, pinuse: bool): Chunks {
    if n in cs then cs[n := cs[n].(prev := prev, pinuse := pinuse)] else cs
  }

  // The chunk p put in use or set free.
  ghost function Marked(cs: Chunks, p: Addr, cinuse: bool): Chunks
    requires p in cs
  {
    Told(cs[p := cs[p].(cinuse := cinuse)], Next(cs, p), p, cinuse)
  }

  // The chunk p cut after nb bytes into two, with the given inuse bits.
  ghost function Split(cs: Chunks, p: Addr, nb: nat, first: bool, second: bool): Chunks
    requires p in cs && nb < cs[p].size
  {
    var r := p + nb;
    Told(cs, Next(cs, p), r, second)[p := cs[p].(size := nb, cinuse := first)]
        [r := Chunk(cs[p].size - nb, first, second, p)]
  }

  // The chunk p and the one after it made one, with the latter's inuse bit.
  ghost function Merged(cs: Chunks, p: Addr): Chunks
    requires p in cs && Next(cs, p) in cs
  {
    var n := Next(cs, p);
    Told(cs - {n}, Next(cs, n), p, cs[n].cinuse)[p := cs[p].(size := cs[p].size + cs[n].size, cinuse := cs[n].cinuse)]
  }

  lemma Neighbours(cs: Chunks, p: Addr)
    requires Tiled(cs) && p in cs
    ensures ChunkOK(cs, p)
    ensures Next(cs, p) in cs ==> ChunkOK(cs, Next(cs, p))
    ensures cs[p].prev != 0 ==> ChunkOK(cs, cs[p].prev)
  {
    assert ChunkOK(cs, p);
    if Next(cs, p) in cs {
      assert ChunkOK(cs, Next(cs, p));
    }
    if cs[p].prev != 0 {
      assert ChunkOK(cs, cs[p].prev);
    }
  }

  // No chunk starts inside another.
  lemma NoneInside(cs: Chunks, p: Addr, a: Addr)
    requires Tiled(cs) && p in cs && p < a < Next(cs, p)
    ensures a !in cs
  {
    assert Apart(cs, p, a);
  }

  lemma InOrder(cs: Chunks, p: Addr, q: Addr)
    requires Tiled(cs) && p in cs && q in cs && p < q
    ensures Next(cs, p) <= q
  {
    assert Apart(cs, p, q);
  }

  lemma MarkTiled(cs: Chunks, p: Addr, cinuse: bool)
    requires Tiled(cs) && p in cs
    ensures Tiled(Marked(cs, p, cinuse))
  {
    var ds := Marked(cs, p, cinuse);
    forall q {:trigger ChunkOK(ds, q)} | q in ds ensures ChunkOK(ds, q) {
      Neighbours(cs, q);
      Neighbours(cs, p);
    }
    forall q, r {:trigger Apart(ds, q, r)} ensures Apart(ds, q, r) {
      assert Apart(cs, q, r);
    }
  }

  lemma SplitApart(cs: Chunks, p: Addr, nb: nat, first: bool, second: bool, q: Addr, s: Addr)
    requires Tiled(cs) && p in cs && 0 < nb < cs[p].size
    ensures Apart(Split(cs, p, nb, first, second), q, s)
  {
    assert Apart(cs, q, s);
    assert Apart(cs, q, p) && Apart(cs, p, q) && Apart(cs, p, s);
  }

  // A chunk that is neither cut nor right after the cut one keeps its neighbours.
  lemma SplitOther(cs: Chunks, p: Addr, nb: nat, first: bool, second: bool, q: Addr)
    requires Tiled(cs) && p in cs && 0 < nb < cs[p].size
    requires q in cs && q != p && q != Next(cs, p)
    ensures ChunkOK(Split(cs, p, nb, first, second), q)
  {
    hide Tiled;
    NoneInside(cs, p, p + nb);
    Neighbours(cs, q);
    if q < p {
      InOrder(cs, q, p);
    } else {
      InOrder(cs, p, q);
    }
  }

  lemma SplitChunk(cs: Chunks, p: Addr, nb: nat, first: bool, second: bool, q: Addr)
    requires Tiled(cs) && p in cs && 0 < nb < cs[p].size && nb % 8 == 0
    requires q in cs || q == p + nb
    ensures ChunkOK(Split(cs, p, nb, first, second), q)
  {
    hide Tiled;
    NoneInside(cs, p, p + nb);
    Neighbours(cs, p);
    if q == p || q == p + nb {
      SplitPieces(cs, p, nb, first, second);
    } else if q != Next(cs, p) {
      SplitOther(cs, p, nb, first, second, q);
    }
  }

  lemma SplitPieces(cs: Chunks, p: Addr, nb: nat, first: bool, second: bool)
    requires ChunkOK(cs, p) && 0 < nb < cs[p].size && nb % 8 == 0 && p + nb !in cs
    requires cs[p].prev != 0 ==> ChunkOK(cs, cs[p].prev)
    ensures ChunkOK(Split(cs, p, nb, first, second), p) && ChunkOK(Split(cs, p, nb, first, second), p + nb)
  {
  }

  lemma SplitTiled(cs: Chunks, p: Addr, nb: nat, first: bool, second: bool)
    requires Tiled(cs) && p in cs && 0 < nb < cs[p].size && nb % 8 == 0
    ensures Tiled(Split(cs, p, nb, first, second)) && p + nb !in cs
  {
    var ds := Split(cs, p, nb, first, second);
    NoneInside(cs, p, p + nb);
    forall q {:trigger ChunkOK(ds, q)} | q in ds ensures ChunkOK(ds, q) {
      SplitChunk(cs, p, nb, first, second, q);
    }
    forall q, s {:trigger Apart(ds, q, s)} ensures Apart(ds, q, s) {
      SplitApart(cs, p, nb, first, second, q, s);
    }
  }

  lemma MergeTiled(cs: Chunks, p: Addr)
    requires Tiled(cs) && p in cs && Next(cs, p) in cs
    ensures Tiled(Merged(cs, p))
  {
    var ds, n := Merged(cs, p), Next(cs, p);
    Neighbours(cs, p);
    Neighbours(cs, n);
    forall q {:trigger ChunkOK(ds, q)} | q in ds ensures ChunkOK(ds, q) {
      Neighbours(cs, q);
      assert Apart(cs, p, q) && Apart(cs, q, p) && Apart(cs, n, q);
    }
    forall q, s {:trigger Apart(ds, q, s)} ensures Apart(ds, q, s) {
      assert Apart(cs, q, s) && Apart(cs, n, s);
    }
  }

  // ---- Room outside the chunks ----------------------------------------------------------

  // No chunk reaches into [lo, hi).
  ghost predicate Clear(cs: Chunks, lo: int, hi: int) {
    forall q {:trigger q in cs} :: q in cs ==> Next(cs, q) <= lo || hi <= q
  }

  lemma NotIn(cs: Chunks, a: Addr, lo: int, hi: int)
    requires Tiled(cs) && Clear(cs, lo, hi) && lo <= a < hi
    ensures a !in cs
  {
    assert a in cs ==> ChunkOK(cs, a);
  }

  // A new chunk c at a, which the chunk after it, if any, is told of.
  function Added(cs: Chunks, a: Addr, c: Chunk): Chunks {
    Told(cs, a + c.size, a, c.cinuse)[a := c]
  }

  ghost predicate CanAdd(cs: Chunks, a: Addr, c: Chunk) {
    && a > 0 && a % 8 == 0 && c.size > 0 && c.size % 8 == 0 && a + c.size < WORD64
    && Clear(cs, a, a + c.size)
    && (a + c.size in cs ==> cs[a + c.size].prev == 0)
    && (if c.prev == 0 then c.pinuse && Clear(cs, a - 1, a + c.size)
        else c.prev in cs && Next(cs, c.prev) == a && c.pinuse == cs[c.prev].cinuse)
  }

  lemma AddedChunk(cs: Chunks, a: Addr, c: Chunk, q: Addr)
    requires Tiled(cs) && CanAdd(cs, a, c) && q in Added(cs, a, c)
    ensures ChunkOK(Added(cs, a, c), q)
  {
    hide Tiled;
    NotIn(cs, a, a, a + c.size);
    if c.prev != 0 {
      Neighbours(cs, c.prev);
    }
    if q in cs {
      Neighbours(cs, q);
      if c.prev != 0 && q < c.prev {
        InOrder(cs, q, c.prev);
      } else if c.prev != 0 && c.prev < q {
        InOrder(cs, c.prev, q);
      }
    }
  }

  lemma AddedView(cs: Chunks, a: Addr, c: Chunk, q: Addr)
    requires a !in cs && c.size > 0 && q in cs
    ensures var ds := Added(cs, a, c);
            && q in ds && ds[q].size == cs[q].size && ds[q].cinuse == cs[q].cinuse
            && (if q == a + c.size then ds[q].pinuse == c.cinuse && ds[q].prev == a else ds[q] == cs[q])
    ensures Added(cs, a, c).Keys == cs.Keys + {a} && Added(cs, a, c)[a] == c
  {
  }

  lemma AddedTiled(cs: Chunks, a: Addr, c: Chunk)
    requires Tiled(cs) && CanAdd(cs, a, c)
    ensures Tiled(Added(cs, a, c)) && a !in cs
  {
    var ds := Added(cs, a, c);
    NotIn(cs, a, a, a + c.size);
    forall q {:trigger ChunkOK(ds, q)} | q in ds ensures ChunkOK(ds, q) {
      AddedChunk(cs, a, c, q);
    }
    forall p, q {:trigger Apart(ds, p, q)} ensures Apart(ds, p, q) {
      assert Apart(cs, p, q);
    }
  }

  // The last chunk of a run, with another size and inuse bit.
  ghost function Resized(cs: Chunks, p: Addr, size: nat, cinuse: bool): Chunks
    requires p in cs
  {
    cs[p := cs[p].(size := size, cinuse := cinuse)]
  }

  lemma ResizedTiled(cs: Chunks, p: Addr, size: nat, cinuse: bool)
    requires Tiled(cs) && p in cs && Next(cs, p) !in cs && size > cs[p].size && size % 8 == 0 && p + size < WORD64
    requires Clear(cs, Next(cs, p), p + size + 1)
    ensures Tiled(Resized(cs, p, size, cinuse))
  {
    var ds := Resized(cs, p, size, cinuse);
    forall q {:trigger ChunkOK(ds, q)} | q in ds ensures ChunkOK(ds, q) {
      Neighbours(cs, q);
    }
    forall q, r {:trigger Apart(ds, q, r)} ensures Apart(ds, q, r) {
      assert Apart(cs, q, r);
    }
  }
}
