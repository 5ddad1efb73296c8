// The heap invariant of dlmalloc, and the value-level steps that malloc and free are made of.

module HeapState {
  import opened Words
  import opened BinIndex
  import opened Rings
  import opened Tiling

  const MIN_CHUNK_SIZE: nat := 32

  type BinSizes = map<Addr, nat>

  // small and tree are the chunks in the bins with their sizes; records are the chunks that
  // hold segment records, in use but nobody's to free.
  datatype Heap = Heap(
    cs: Chunks,
    top: Addr, topsize: nat,
    dv: Addr, dvsize: nat,
    small: BinSizes, tree: BinSizes,
    live: set<Addr>, records: set<Addr>)

  ghost predicate IsDv(h: Heap, p: Addr) { h.dvsize > 0 && p == h.dv }

  ghost predicate IsBinned(h: Heap, p: Addr) { p in h.small || p in h.tree }

  // Free, and neither top nor the designated victim nor the chunk in hand, if any.
  ghost predicate Idle(h: Heap, x: Addr, p: Addr)
    requires p in h.cs
  {
    !h.cs[p].cinuse && p != h.top && !IsDv(h, p) && (x == 0 || p != x)
  }

  // A chunk is where its size and status say: in exactly one bin when free, unless it is the
  // designated victim, top, or x, the chunk an operation has in hand.
  ghost predicate PlacedOK(h: Heap, x: Addr, p: Addr) {
    && p in h.cs
    && (h.cs[p].cinuse <==> p in h.live || p in h.records)
    && !(p in h.live && p in h.records)
    && (p != h.top ==> h.cs[p].size >= MIN_CHUNK_SIZE)
    && (Next(h.cs, p) in h.cs <==> p != h.top && p !in h.records)
    && (p in h.small <==> Idle(h, x, p) && IsSmall(h.cs[p].size))
    && (p in h.tree <==> Idle(h, x, p) && !IsSmall(h.cs[p].size))
    && (p in h.small ==> h.small[p] == h.cs[p].size)
    && (p in h.tree ==> h.tree[p] == h.cs[p].size)
  }

  // No free chunk borders another; only around x may they still have to be merged.
  ghost predicate LoneOK(h: Heap, x: Addr, p: Addr) {
    p in h.cs && !h.cs[p].cinuse ==> h.cs[p].pinuse || (x != 0 && (p == x || h.cs[p].prev == x))
  }

  ghost predicate TopOK(h: Heap) {
    if h.top == 0 then h.cs == map[] && h.topsize == 0
    else h.top in h.cs && !h.cs[h.top].cinuse && h.cs[h.top].size == h.topsize
  }

  ghost predicate DvOK(h: Heap) {
    if h.dvsize == 0 then h.dv == 0
    else h.dv in h.cs && !h.cs[h.dv].cinuse && h.cs[h.dv].size == h.dvsize && h.dv != h.top
  }

  ghost predicate Within(h: Heap) {
    && h.live <= h.cs.Keys && h.records <= h.cs.Keys
    && h.small.Keys <= h.cs.Keys && h.tree.Keys <= h.cs.Keys
  }

  // The invariant with the free chunk x in hand; x is 0 between operations.
  ghost predicate HeapX(h: Heap, x: Addr) {
    && Tiled(h.cs) && TopOK(h) && DvOK(h) && Within(h)
    && (x != 0 ==> x in h.cs && !h.cs[x].cinuse && x != h.top && !IsDv(h, x))
    && (forall p {:trigger PlacedOK(h, x, p)} :: p in h.cs ==> PlacedOK(h, x, p))
    && (forall p {:trigger LoneOK(h, x, p)} :: LoneOK(h, x, p))
  }

  ghost predicate HeapOK(h: Heap) { HeapX(h, 0) }

  // What every step leaves alone: a chunk live before and after keeps its place and size.
  ghost predicate KeepsLive(h: Heap, g: Heap) {
    forall p :: p in h.live && p in g.live && p in h.cs ==> p in g.cs && g.cs[p].size == h.cs[p].size
  }

  // ---- Steps --------------------------------------------------------------------------

  // A free chunk is taken out of wherever it is.
  ghost function Unbinned(h: Heap, p: Addr): Heap {
    h.(small := h.small - {p}, tree := h.tree - {p},
       dv := if IsDv(h, p) then 0 else h.dv, dvsize := if IsDv(h, p) then 0 else h.dvsize)
  }

  ghost function Binned(h: Heap, p: Addr): Heap
    requires p in h.cs
  {
    if IsSmall(h.cs[p].size) then h.(small := h.small[p := h.cs[p].size])
    else h.(tree := h.tree[p := h.cs[p].size])
  }

  ghost function AsDv(h: Heap, p: Addr): Heap
    requires p in h.cs
  {
    h.(dv := p, dvsize := h.cs[p].size)
  }

  ghost function UsedWhole(h: Heap, p: Addr): Heap
    requires p in h.cs
  {
    h.(cs := Marked(h.cs, p, true), live := h.live + {p})
  }

  ghost function UsedFront(h: Heap, p: Addr, nb: nat): Heap
    requires p in h.cs && nb < h.cs[p].size
  {
    h.(cs := Split(h.cs, p, nb, true, false), live := h.live + {p})
  }

  ghost function TopFront(h: Heap, nb: nat): Heap
    requires h.top in h.cs && h.cs[h.top].size == h.topsize && nb < h.topsize
  {
    h.(cs := Split(h.cs, h.top, nb, true, false), live := h.live + {h.top},
       top := h.top + nb, topsize := h.topsize - nb)
  }

  ghost function Freed(h: Heap, p: Addr): Heap
    requires p in h.cs
  {
    h.(cs := Marked(h.cs, p, false), live := h.live - {p})
  }

  ghost function Joined(h: Heap, p: Addr): Heap
    requires p in h.cs && Next(h.cs, p) in h.cs
  {
    h.(cs := Merged(h.cs, p))
  }

  ghost function JoinedTop(h: Heap, p: Addr): Heap
    requires p in h.cs && Next(h.cs, p) in h.cs
  {
    h.(cs := Merged(h.cs, p), top := p, topsize := h.cs[p].size + h.topsize)
  }

  lemma At(h: Heap, x: Addr, p: Addr)
    requires HeapX(h, x) && p in h.cs
    ensures PlacedOK(h, x, p) && LoneOK(h, x, p) && ChunkOK(h.cs, p)
    ensures Next(h.cs, p) in h.cs ==>
              && PlacedOK(h, x, Next(h.cs, p)) && LoneOK(h, x, Next(h.cs, p)) && ChunkOK(h.cs, Next(h.cs, p))
    ensures h.cs[p].prev != 0 ==>
              && PlacedOK(h, x, h.cs[p].prev) && LoneOK(h, x, h.cs[p].prev) && ChunkOK(h.cs, h.cs[p].prev)
  {
    hide PlacedOK, LoneOK;
    Tiling.Neighbours(h.cs, p);
    assert PlacedOK(h, x, p) && LoneOK(h, x, p);
    if Next(h.cs, p) in h.cs {
      assert PlacedOK(h, x, Next(h.cs, p)) && LoneOK(h, x, Next(h.cs, p));
    }
    if h.cs[p].prev != 0 {
      assert PlacedOK(h, x, h.cs[p].prev) && LoneOK(h, x, h.cs[p].prev);
    }
  }

  lemma TakeOut(h: Heap, p: Addr)
    requires HeapOK(h) && p in h.cs && !h.cs[p].cinuse && p != h.top
    ensures HeapX(Unbinned(h, p), p)
    ensures h.cs[p].pinuse && Next(h.cs, p) in h.cs && h.cs[Next(h.cs, p)].cinuse
    ensures h.cs[p].size >= MIN_CHUNK_SIZE
  {
    var g := Unbinned(h, p);
    At(h, 0, p);
    forall q {:trigger PlacedOK(g, p, q)} | q in g.cs ensures PlacedOK(g, p, q) {
      assert PlacedOK(h, 0, q);
    }
    forall q {:trigger LoneOK(g, p, q)} ensures LoneOK(g, p, q) {
      assert LoneOK(h, 0, q);
    }
  }

  lemma PutInBin(h: Heap, x: Addr)
    requires HeapX(h, x) && x != 0 && h.cs[x].pinuse && (Next(h.cs, x) in h.cs ==> h.cs[Next(h.cs, x)].cinuse)
    ensures HeapOK(Binned(h, x)) && !IsBinned(h, x)
  {
    var g := Binned(h, x);
    At(h, x, x);
    forall q {:trigger PlacedOK(g, 0, q)} | q in g.cs ensures PlacedOK(g, 0, q) {
      assert PlacedOK(h, x, q);
    }
    LoneAgain(h, x, g);
  }

  // With x merged as far as it goes, no two free chunks touch.
  lemma LoneAgain(h: Heap, x: Addr, g: Heap)
    requires HeapX(h, x) && x != 0 && h.cs[x].pinuse && (Next(h.cs, x) in h.cs ==> h.cs[Next(h.cs, x)].cinuse)
    requires g.cs == h.cs
    ensures forall q {:trigger LoneOK(g, 0, q)} :: LoneOK(g, 0, q)
  {
    forall q {:trigger LoneOK(g, 0, q)} ensures LoneOK(g, 0, q) {
      assert LoneOK(h, x, q);
      if q in h.cs {
        assert ChunkOK(h.cs, q);
      }
    }
  }

  lemma MakeDv(h: Heap, x: Addr)
    requires HeapX(h, x) && x != 0 && h.dvsize == 0
    requires h.cs[x].pinuse && (Next(h.cs, x) in h.cs ==> h.cs[Next(h.cs, x)].cinuse)
    ensures HeapOK(AsDv(h, x))
  {
    var g := AsDv(h, x);
    At(h, x, x);
    forall q {:trigger PlacedOK(g, 0, q)} | q in g.cs ensures PlacedOK(g, 0, q) {
      assert PlacedOK(h, x, q);
    }
    LoneAgain(h, x, g);
  }

  // replace_dv: the old victim, if any, goes to a bin.
  lemma BinOldDv(h: Heap, x: Addr)
    requires HeapX(h, x) && h.dvsize > 0
    ensures h.dv in h.cs && h.cs[h.dv].size == h.dvsize && !IsBinned(h, h.dv)
    ensures HeapX(Binned(h, h.dv).(dv := 0, dvsize := 0), x)
  {
    var g := Binned(h, h.dv).(dv := 0, dvsize := 0);
    At(h, x, h.dv);
    forall q {:trigger PlacedOK(g, x, q)} | q in g.cs ensures PlacedOK(g, x, q) {
      assert PlacedOK(h, x, q);
    }
    forall q {:trigger LoneOK(g, x, q)} ensures LoneOK(g, x, q) {
      assert LoneOK(h, x, q);
    }
  }

  lemma UseWhole(h: Heap, x: Addr)
    requires HeapX(h, x) && x != 0 && h.cs[x].pinuse && (Next(h.cs, x) in h.cs ==> h.cs[Next(h.cs, x)].cinuse)
    ensures HeapOK(UsedWhole(h, x)) && x !in h.live && KeepsLive(h, UsedWhole(h, x))
  {
    var g := UsedWhole(h, x);
    At(h, x, x);
    MarkTiled(h.cs, x, true);
    forall q {:trigger PlacedOK(g, 0, q)} | q in g.cs ensures PlacedOK(g, 0, q) {
      assert PlacedOK(h, x, q);
    }
    forall q {:trigger LoneOK(g, 0, q)} ensures LoneOK(g, 0, q) {
      assert LoneOK(h, x, q);
      if q in h.cs {
        assert ChunkOK(h.cs, q);
      }
    }
  }

  lemma UseFront(h: Heap, x: Addr, nb: nat)
    requires HeapX(h, x) && x != 0 && h.cs[x].pinuse
    requires MIN_CHUNK_SIZE <= nb && nb % 8 == 0 && nb + MIN_CHUNK_SIZE <= h.cs[x].size
    ensures HeapX(UsedFront(h, x, nb), x + nb) && x !in h.live && KeepsLive(h, UsedFront(h, x, nb))
    ensures var g := UsedFront(h, x, nb);
            && x + nb in g.cs && g.cs[x + nb].pinuse && g.cs[x + nb].size == h.cs[x].size - nb
            && Next(g.cs, x + nb) == Next(h.cs, x)
            && (Next(h.cs, x) in h.cs <==> Next(h.cs, x) in g.cs)
            && (Next(h.cs, x) in h.cs ==> g.cs[Next(h.cs, x)].cinuse == h.cs[Next(h.cs, x)].cinuse)
  {
    var g := UsedFront(h, x, nb);
    At(h, x, x);
    SplitTiled(h.cs, x, nb, true, false);
    forall q {:trigger PlacedOK(g, x + nb, q)} | q in g.cs ensures PlacedOK(g, x + nb, q) {
      if q != x + nb {
        assert PlacedOK(h, x, q);
        assert Apart(h.cs, q, x) && Apart(h.cs, x, q);
      }
    }
    forall q {:trigger LoneOK(g, x + nb, q)} ensures LoneOK(g, x + nb, q) {
      assert LoneOK(h, x, q);
      if q in h.cs {
        assert ChunkOK(h.cs, q);
      }
    }
  }

  lemma UseTopFront(h: Heap, nb: nat)
    requires HeapOK(h) && MIN_CHUNK_SIZE <= nb < h.topsize && nb % 8 == 0
    ensures h.top in h.cs && h.topsize == h.cs[h.top].size
    ensures HeapOK(TopFront(h, nb)) && h.top !in h.live && KeepsLive(h, TopFront(h, nb))
  {
    var g := TopFront(h, nb);
    At(h, 0, h.top);
    SplitTiled(h.cs, h.top, nb, true, false);
    forall q {:trigger PlacedOK(g, 0, q)} | q in g.cs ensures PlacedOK(g, 0, q) {
      if q != g.top {
        assert PlacedOK(h, 0, q);
        assert Apart(h.cs, q, h.top) && Apart(h.cs, h.top, q);
      }
    }
    forall q {:trigger LoneOK(g, 0, q)} ensures LoneOK(g, 0, q) {
      assert LoneOK(h, 0, q);
      if q in h.cs {
        assert ChunkOK(h.cs, q);
      }
    }
  }

  lemma Release(h: Heap, p: Addr)
    requires HeapOK(h) && p in h.live
    ensures p in h.cs && Next(h.cs, p) in h.cs && h.cs[p].cinuse
    ensures HeapX(Freed(h, p), p) && KeepsLive(h, Freed(h, p))
  {
    var g := Freed(h, p);
    At(h, 0, p);
    MarkTiled(h.cs, p, false);
    forall q {:trigger PlacedOK(g, p, q)} | q in g.cs ensures PlacedOK(g, p, q) {
      assert PlacedOK(h, 0, q);
    }
    forall q {:trigger LoneOK(g, p, q)} ensures LoneOK(g, p, q) {
      assert LoneOK(h, 0, q);
      if q in h.cs {
        assert ChunkOK(h.cs, q);
      }
    }
  }

  // Consolidate backward: the free chunk q below x is taken out and swallows x.
  lemma AbsorbPrev(h: Heap, x: Addr)
    requires HeapX(h, x) && x != 0 && !h.cs[x].pinuse
    ensures var q := h.cs[x].prev;
            && q in h.cs && Next(h.cs, q) == x && !h.cs[q].cinuse && h.cs[q].pinuse && q != h.top
            && HeapX(Joined(Unbinned(h, q), q), q)
            && KeepsLive(h, Joined(Unbinned(h, q), q))
            && Joined(h, q).cs[q].pinuse
  {
    var q := h.cs[x].prev;
    At(h, x, x);
    var g := Joined(Unbinned(h, q), q);
    MergeTiled(h.cs, q);
    assert PlacedOK(h, x, q) && LoneOK(h, x, q);
    JoinPlaced(h, x, q, q);
  }

  // Consolidate forward: x swallows the free chunk above it, which is taken out.
  lemma AbsorbNext(h: Heap, x: Addr)
    requires HeapX(h, x) && x != 0 && h.cs[x].pinuse
    requires Next(h.cs, x) in h.cs && !h.cs[Next(h.cs, x)].cinuse && Next(h.cs, x) != h.top
    ensures var n := Next(h.cs, x);
            && HeapX(Joined(Unbinned(h, n), x), x)
            && KeepsLive(h, Joined(Unbinned(h, n), x))
            && Next(h.cs, n) in h.cs && h.cs[Next(h.cs, n)].cinuse
            && Joined(h, x).cs[x].pinuse
            && Next(Joined(h, x).cs, x) == Next(h.cs, n) && Next(h.cs, n) in Joined(h, x).cs
            && Joined(h, x).cs[Next(h.cs, n)].cinuse
  {
    At(h, x, x);
    var n := Next(h.cs, x);
    At(h, x, n);
    MergeTiled(h.cs, x);
    JoinPlaced(h, x, x, n);
  }

  // Of the adjacent free chunks a and its next, one is x and the other, o, is taken out.
  lemma JoinPlaced(h: Heap, x: Addr, a: Addr, o: Addr)
    requires HeapX(h, x) && x != 0 && a in h.cs && Next(h.cs, a) in h.cs
    requires (a == x && o == Next(h.cs, a)) || (a == o && x == Next(h.cs, a))
    requires !h.cs[o].cinuse && o != h.top && h.cs[a].pinuse
    requires Tiled(Merged(h.cs, a))
    ensures HeapX(Joined(Unbinned(h, o), a), a) && KeepsLive(h, Joined(Unbinned(h, o), a))
  {
    var g := Joined(Unbinned(h, o), a);
    At(h, x, a);
    At(h, x, Next(h.cs, a));
    forall q {:trigger PlacedOK(g, a, q)} | q in g.cs ensures PlacedOK(g, a, q) {
      assert PlacedOK(h, x, q);
      assert ChunkOK(h.cs, q);
    }
    forall q {:trigger LoneOK(g, a, q)} ensures LoneOK(g, a, q) {
      assert LoneOK(h, x, q);
      if q in h.cs {
        assert ChunkOK(h.cs, q);
      }
    }
  }

  // x swallows top and becomes it.
  lemma AbsorbTop(h: Heap, x: Addr)
    requires HeapX(h, x) && x != 0 && h.cs[x].pinuse && h.top != 0 && Next(h.cs, x) == h.top
    ensures h.top in h.cs && HeapOK(JoinedTop(h, x)) && KeepsLive(h, JoinedTop(h, x))
  {
    At(h, x, x);
    At(h, x, h.top);
    MergeTiled(h.cs, x);
    var g := JoinedTop(h, x);
    forall q {:trigger PlacedOK(g, 0, q)} | q in g.cs ensures PlacedOK(g, 0, q) {
      assert PlacedOK(h, x, q);
      assert ChunkOK(h.cs, q);
    }
    forall q {:trigger LoneOK(g, 0, q)} ensures LoneOK(g, 0, q) {
      assert LoneOK(h, x, q);
      if q in h.cs {
        assert ChunkOK(h.cs, q);
      }
    }
  }
}
