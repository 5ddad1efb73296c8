// The steps of malloc and free with everything they keep: the heap invariant, the boundary
// tags in memory and the tiling of the segments.

module HeapSteps {
  import opened Words
  import opened BinIndex
  import opened Rings
  import opened HeapState
  import opened HeapGrowth
  import opened Segments
  import opened Tags
  import opened Tiling

  // The chunk x, if not 0, is free and in hand, with its tags written.
  ghost predicate Sound(h: Heap, t: Tags, segs: seq<Segment>, x: Addr) {
    HeapX(h, x) && TagsOK(t, h.cs) && SegmentsOK(h, segs)
  }

  // The free chunk x is in hand and its tags are yet to be written.
  ghost predicate SoundBut(h: Heap, t: Tags, segs: seq<Segment>, x: Addr, stale: bool) {
    && x != 0 && x in h.cs && HeapX(h, x) && TagsBut(t, h.cs, x, stale) && SegmentsOK(h, segs)
    && Next(h.cs, x) in h.cs
  }

  ghost predicate NextInUse(h: Heap, x: Addr) {
    x in h.cs && h.cs[x].pinuse && Next(h.cs, x) in h.cs && h.cs[Next(h.cs, x)].cinuse
  }

  // Where a free chunk that is neither top nor in hand is.
  ghost predicate FreeAt(h: Heap, p: Addr, s: nat) {
    && p in h.cs && h.cs[p].size == s < WORD64
    && (p == h.dv ==> h.dvsize == s > 0 && !IsBinned(h, p))
    && (p != h.dv ==> if IsSmall(s) then p in h.small && h.small[p] == s && p !in h.tree
                        else p in h.tree && h.tree[p] == s && p !in h.small)
  }

  ghost predicate SameTop(h: Heap, g: Heap) { g.top == h.top && g.topsize == h.topsize }

  ghost predicate SameDv(h: Heap, g: Heap) { g.dv == h.dv && g.dvsize == h.dvsize }

  ghost predicate SameOwners(h: Heap, g: Heap) { g.live == h.live && g.records == h.records && KeepsLive(h, g) }

  lemma WhereFree(h: Heap, x: Addr, p: Addr)
    requires HeapX(h, x) && p in h.cs && !h.cs[p].cinuse && p != h.top && (x == 0 || p != x)
    ensures FreeAt(h, p, h.cs[p].size) && p !in h.records && h.cs[p].size >= MIN_CHUNK_SIZE
  {
    At(h, x, p);
  }

  // ---- Free -----------------------------------------------------------------------------

  // Where the free space from start to n goes, with dv the designated victim so far: together with
  // n, if that is free, to top, if that follows, to the victim, if that is at either end, and else
  // to a bin.
  ghost predicate Landed(h: Heap, g: Heap, start: Addr, n: Addr, dv: Addr, dvsize: nat) {
    && n in h.cs
    && if n == h.top then
         && g.top == start && g.topsize == n - start + h.topsize
         && if dv == start then g.dvsize == 0 else g.dv == dv && g.dvsize == dvsize
       else
         var size := n - start + if h.cs[n].cinuse then 0 else h.cs[n].size;
         && SameTop(h, g)
         && if dv == start || dv == n then g.dv == start && g.dvsize == size
            else g.dv == dv && g.dvsize == dvsize && IsBinned(g, start) && start in g.cs && g.cs[start].size == size
  }

  // The space of p lands with the free chunk before it, if there is one.
  ghost predicate Rejoined(h: Heap, g: Heap, p: Addr) {
    p in h.cs && Landed(h, g, if h.cs[p].pinuse then p else h.cs[p].prev, Next(h.cs, p), h.dv, h.dvsize)
  }

  // Only n's size and inuse bit matter of the heap before.
  lemma LandedFrom(h: Heap, k: Heap, g: Heap, start: Addr, n: Addr, dv: Addr, dvsize: nat)
    requires Landed(k, g, start, n, dv, dvsize) && SameTop(h, k) && n in h.cs
    requires h.cs[n].size == k.cs[n].size && h.cs[n].cinuse == k.cs[n].cinuse
    ensures Landed(h, g, start, n, dv, dvsize)
  {
  }

  lemma StartFree(h: Heap, t: Tags, segs: seq<Segment>, p: Addr)
    requires Sound(h, t, segs, 0) && p in h.live
    ensures p in h.cs && p > 0 && p != h.dv && p in t.head && ChunkSize(t.head[p]) == h.cs[p].size &&
            (Pinuse(t.head[p]) <==> h.cs[p].pinuse)
    ensures !h.cs[p].pinuse ==>
              p in t.foot && h.cs[p].prev == p - t.foot[p] && h.cs[p].prev in h.cs &&
                h.cs[h.cs[p].prev].size == t.foot[p]
    ensures SoundBut(Freed(h, p), t, segs, p, true) && KeepsLive(h, Freed(h, p)) && SameOwners(Freed(h, p), Freed(h, p))
    ensures var c := Freed(h, p).cs[p]; c.size == h.cs[p].size && c.pinuse == h.cs[p].pinuse && c.prev == h.cs[p].prev
    ensures var n, cs := Next(h.cs, p), Freed(h, p).cs;
            n in h.cs && n in cs && cs[n].size == h.cs[n].size && cs[n].cinuse == h.cs[n].cinuse
    ensures !h.cs[p].pinuse ==> var q, cs := h.cs[p].prev, Freed(h, p).cs; q in cs && cs[q].size == h.cs[q].size
  {
    hide PlacedOK, LoneOK, TagOK;
    Release(h, p);
    Read(t, h.cs, p);
    FreedTags(t, h.cs, p);
    KeptByMark(h, segs, Freed(h, p), p, false);
    Neighbours(h.cs, p);
  }

  lemma ReadNext(h: Heap, t: Tags, segs: seq<Segment>, x: Addr, stale: bool)
    requires SoundBut(h, t, segs, x, stale)
    ensures var n := Next(h.cs, x);
            && n in t.head && ChunkSize(t.head[n]) == h.cs[n].size && (Cinuse(t.head[n]) <==> h.cs[n].cinuse)
            && (stale ==> Pinuse(t.head[n])) && x < n
            && (if h.cs[n].cinuse then n != h.top && n != h.dv else n != h.top ==> FreeAt(h, n, h.cs[n].size))
  {
    hide PlacedOK, LoneOK, TagOK;
    var n := Next(h.cs, x);
    Neighbours(h.cs, n);
    Neighbours(h.cs, x);
    HeadRead(h.cs[n].(pinuse := stale || h.cs[n].pinuse));
    if !h.cs[n].cinuse && n != h.top {
      WhereFree(h, x, n);
    }
  }

  lemma JoinPrev(h: Heap, t: Tags, segs: seq<Segment>, x: Addr)
    requires SoundBut(h, t, segs, x, true) && !h.cs[x].pinuse
    ensures var q := h.cs[x].prev;
            && q in h.cs && q > 0 && Next(h.cs, q) == x && FreeAt(h, q, h.cs[q].size)
            && var g := Joined(Unbinned(h, q), q);
            && SoundBut(g, t, segs, q, true) && SameOwners(h, g)
            && g.cs[q].pinuse && g.cs[q].size == h.cs[q].size + h.cs[x].size && Next(g.cs, q) == Next(h.cs, x)
            && g.cs[Next(h.cs, x)].cinuse == h.cs[Next(h.cs, x)].cinuse
            && g.cs[Next(h.cs, x)].size == h.cs[Next(h.cs, x)].size
  {
    hide PlacedOK, LoneOK, TagOK;
    Neighbours(h.cs, x);
    AbsorbPrev(h, x);
    BackwardTags(t, h.cs, x, true);
    var q := h.cs[x].prev;
    WhereFree(h, x, q);
    NotRecord(h, x);
    KeptByMerge(h, segs, Joined(Unbinned(h, q), q), q);
    Neighbours(h.cs, q);
  }

  lemma NotRecord(h: Heap, x: Addr)
    requires HeapX(h, x) && x != 0
    ensures x !in h.records
  {
    At(h, x, x);
  }

  lemma JoinNext(h: Heap, t: Tags, segs: seq<Segment>, x: Addr)
    requires SoundBut(h, t, segs, x, true) && h.cs[x].pinuse
    requires !h.cs[Next(h.cs, x)].cinuse && Next(h.cs, x) != h.top
    ensures var n := Next(h.cs, x);
            var g := Joined(Unbinned(h, n), x);
            && SoundBut(g, t, segs, x, false) && SameOwners(h, g)
            && NextInUse(g, x) && g.cs[x].size == h.cs[x].size + h.cs[n].size
  {
    hide PlacedOK, LoneOK, TagOK;
    var n := Next(h.cs, x);
    AbsorbNext(h, x);
    ForwardTags(t, h.cs, x, true);
    WhereFree(h, x, n);
    NotRecord(h, x);
    KeptByMerge(h, segs, Joined(Unbinned(h, n), x), x);
  }

  lemma JoinTop(h: Heap, t: Tags, segs: seq<Segment>, x: Addr)
    requires SoundBut(h, t, segs, x, true) && h.cs[x].pinuse && Next(h.cs, x) == h.top
    ensures var g := JoinedTop(h, x);
            && Sound(g, t.(head := t.head[x := h.cs[x].size + h.topsize + PINUSE_BIT]), segs, 0) && SameOwners(h, g)
  {
    hide PlacedOK, LoneOK, TagOK;
    AbsorbTop(h, x);
    var g := JoinedTop(h, x);
    ForwardTags(t, h.cs, x, true);
    NotRecord(h, x);
    TopNotRecord(h, x);
    KeptByMerge(h, segs, g, x);
    AllLastX(g);
    MergedTagsWritten(t, g.cs, x);
  }

  lemma TopNotRecord(h: Heap, x: Addr)
    requires HeapX(h, x) && h.top in h.cs
    ensures h.top !in h.records && Next(h.cs, h.top) !in h.cs
  {
    At(h, x, h.top);
  }

  lemma AllLastX(h: Heap)
    requires HeapOK(h) && h.top != 0
    ensures h.top in h.cs && Next(h.cs, h.top) !in h.cs && h.cs[h.top].pinuse && h.cs[h.top].size == h.topsize
  {
    At(h, 0, h.top);
  }

  // The tags of the chunk in hand are written: with the next chunk in use, or after a merge.
  lemma WriteFree(h: Heap, t: Tags, segs: seq<Segment>, x: Addr, stale: bool)
    requires SoundBut(h, t, segs, x, stale) && h.cs[x].pinuse
    ensures !stale ==> Sound(h, SetSizeAndPinuseOfFree(t, x, h.cs[x].size), segs, x)
    ensures Next(h.cs, x) in t.head && Sound(h, SetFreeWithPinuse(t, x, h.cs[x].size, Next(h.cs, x)), segs, x)
  {
    hide PlacedOK, LoneOK, TagOK;
    FreeTagsWritten(t, h.cs, x, stale);
    if !stale {
      MergedTagsWritten(t, h.cs, x);
    }
  }

  lemma BinIt(h: Heap, t: Tags, segs: seq<Segment>, x: Addr)
    requires Sound(h, t, segs, x) && x != 0 && NextInUse(h, x)
    ensures Sound(Binned(h, x), t, segs, 0) && SameOwners(h, Binned(h, x))
    ensures !IsBinned(h, x) && x > 0 && h.cs[x].size < WORD64
  {
    hide PlacedOK, LoneOK, TagOK;
    PutInBin(h, x);
    Neighbours(h.cs, x);
    SameTiles(h, Binned(h, x), segs);
  }

  lemma DvIt(h: Heap, t: Tags, segs: seq<Segment>, x: Addr)
    requires Sound(h, t, segs, x) && x != 0 && NextInUse(h, x) && h.dvsize == 0
    ensures Sound(AsDv(h, x), t, segs, 0) && SameOwners(h, AsDv(h, x))
  {
    hide PlacedOK, LoneOK, TagOK;
    MakeDv(h, x);
    SameTiles(h, AsDv(h, x), segs);
  }

  lemma SameTiles(h: Heap, g: Heap, segs: seq<Segment>)
    requires SegmentsOK(h, segs) && g.cs == h.cs && g.top == h.top && g.records == h.records
    ensures SegmentsOK(g, segs)
  {
    forall p {:trigger InSegment(g, segs, p)} | p in g.cs ensures InSegment(g, segs, p) {
      assert InSegment(h, segs, p);
    }
  }

  lemma OwnersTrans(h: Heap, g: Heap, k: Heap)
    requires KeepsLive(h, g) && g.live <= h.live && SameOwners(g, k)
    ensures KeepsLive(h, k) && (SameOwners(h, g) ==> SameOwners(h, k))
  {
  }

  // ---- Malloc ---------------------------------------------------------------------------

  // The chunk p was not in use and now is, with between nb and nb + 31 bytes; no other is taken away.
  ghost predicate Allotted(h: Heap, g: Heap, nb: nat, p: Addr) {
    && p in g.cs && p !in h.live && g.live == h.live + {p} && h.records <= g.records && KeepsLive(h, g)
    && nb <= g.cs[p].size < nb + MIN_CHUNK_SIZE
  }

  // Where what p has to spare goes, if it is a chunk: of top it stays top, and else it becomes the
  // designated victim, but for a large request met from a bin it is binned.
  ghost predicate RestPlaced(h: Heap, g: Heap, nb: nat, large: bool, p: Addr) {
    && p in h.cs && nb <= h.cs[p].size
    && var rest := h.cs[p].size - nb;
    if p == h.top then g.top == p + nb && g.topsize == rest && SameDv(h, g)
    else
      && SameTop(h, g)
      && if rest < MIN_CHUNK_SIZE then if IsDv(h, p) then g.dvsize == 0 else SameDv(h, g)
         else if large && !IsDv(h, p) then
           SameDv(h, g) && IsBinned(g, p + nb) && p + nb in g.cs && g.cs[p + nb].size == rest
         else g.dv == p + nb && g.dvsize == rest
  }

  // A chunk in a bin is free and as big as the bin says.
  lemma BinnedIs(h: Heap, t: Tags, segs: seq<Segment>, p: Addr)
    requires Sound(h, t, segs, 0) && IsBinned(h, p)
    ensures p in h.cs && !h.cs[p].cinuse && p != h.top && !IsDv(h, p) && FreeAt(h, p, h.cs[p].size)
    ensures p in h.small ==> h.small[p] == h.cs[p].size
    ensures p in h.tree ==> h.tree[p] == h.cs[p].size
    ensures h.cs[p].size % 8 == 0
  {
    At(h, 0, p);
  }

  lemma DvIs(h: Heap, t: Tags, segs: seq<Segment>)
    requires Sound(h, t, segs, 0) && h.dvsize > 0
    ensures h.dv in h.cs && !h.cs[h.dv].cinuse && h.dv != h.top && h.cs[h.dv].size == h.dvsize && !IsBinned(h, h.dv)
  {
    At(h, 0, h.dv);
  }

  lemma TakeFree(h: Heap, t: Tags, segs: seq<Segment>, p: Addr)
    requires Sound(h, t, segs, 0) && p in h.cs && !h.cs[p].cinuse && p != h.top
    ensures var g := Unbinned(h, p);
            Sound(g, t, segs, p) && NextInUse(g, p) && SameOwners(h, g) && p > 0 && p !in h.live
    ensures h.cs[p].size % 8 == 0 && MIN_CHUNK_SIZE <= h.cs[p].size < WORD64
  {
    TakeOut(h, p);
    At(h, 0, p);
    SameTiles(h, Unbinned(h, p), segs);
  }

  lemma TakeWhole(h: Heap, t: Tags, segs: seq<Segment>, p: Addr)
    requires p != 0 && Sound(h, t, segs, p) && NextInUse(h, p)
    ensures h.cs[p].size > 0 && Next(h.cs, p) in t.head
    ensures var g := UsedWhole(h, p);
            Sound(g, SetInuseAndPinuse(t, p, h.cs[p].size), segs, 0) && p in g.cs && g.cs[p].size == h.cs[p].size
            && p !in h.live && KeepsLive(h, g)
  {
    hide PlacedOK, LoneOK, TagOK;
    UseWhole(h, p);
    SetInuseTags(t, h.cs, p);
    KeptByMark(h, segs, UsedWhole(h, p), p, true);
    Neighbours(h.cs, p);
  }

  lemma TakeFront(h: Heap, t: Tags, segs: seq<Segment>, p: Addr, nb: nat)
    requires p != 0 && Sound(h, t, segs, p) && NextInUse(h, p)
    requires MIN_CHUNK_SIZE <= nb && nb % 8 == 0 && nb + MIN_CHUNK_SIZE <= h.cs[p].size
    ensures var g, r := UsedFront(h, p, nb), p + nb;
            var u := SetSizeAndPinuseOfFree(SetSizeAndPinuseOfInuse(t, p, nb), r, h.cs[p].size - nb);
            && u == SetSizeAndPinuseOfInuse(SetSizeAndPinuseOfFree(t, r, h.cs[p].size - nb), p, nb)
            && Sound(g, u, segs, r) && p in g.cs && g.cs[p].size == nb && p !in h.live && KeepsLive(h, g)
            && r in g.cs && g.cs[r].size == h.cs[p].size - nb && NextInUse(g, r) && r > 0
  {
    hide PlacedOK, LoneOK, TagOK;
    UseFront(h, p, nb);
    assert TagsOK(SetSizeAndPinuseOfFree(SetSizeAndPinuseOfInuse(t, p, nb), p + nb, h.cs[p].size - nb),
                  UsedFront(h, p, nb).cs) by {
      SplitTags(t, h.cs, p, nb);
    }
    hide TagsOK, SetSizeAndPinuseOfFree, SetSizeAndPinuseOfInuse;
    NotRecord(h, p);
    InHeap(h, p);
    KeptBySplit(h, segs, UsedFront(h, p, nb), p, nb, true, false);
    Neighbours(h.cs, p);
    EitherOrder(t, p, nb, h.cs[p].size - nb);
  }

  // The two writes are apart.
  lemma EitherOrder(t: Tags, p: Addr, nb: nat, rsize: nat)
    requires nb > 0
    ensures SetSizeAndPinuseOfFree(SetSizeAndPinuseOfInuse(t, p, nb), p + nb, rsize) ==
            SetSizeAndPinuseOfInuse(SetSizeAndPinuseOfFree(t, p + nb, rsize), p, nb)
  {
    assert t.head[p := nb + 3][p + nb := rsize + 1] == t.head[p + nb := rsize + 1][p := nb + 3];
  }

  lemma InHeap(h: Heap, x: Addr)
    requires HeapX(h, x) && h.cs != map[]
    ensures h.top in h.cs && h.records <= h.cs.Keys
  {
  }

  lemma TakeTop(h: Heap, t: Tags, segs: seq<Segment>, nb: nat)
    requires Sound(h, t, segs, 0) && MIN_CHUNK_SIZE <= nb < h.topsize && nb % 8 == 0
    ensures h.top in h.cs && h.cs[h.top].size == h.topsize && Allotted(h, TopFront(h, nb), nb, h.top)
    ensures Sound(TopFront(h, nb),
                  SetSizeAndPinuseOfInuse(t.(head := t.head[h.top + nb := h.topsize - nb + PINUSE_BIT]), h.top, nb),
                  segs, 0)
  {
    hide PlacedOK, LoneOK, TagOK;
    InHeap(h, 0);
    UseTopFront(h, nb);
    TopNotRecord(h, 0);
    AllLastX(h);
    SplitLastTags(t, h.cs, h.top, nb);
    KeptBySplit(h, segs, TopFront(h, nb), h.top, nb, true, false);
  }

  // The old designated victim goes to its bin.
  lemma BinDv(h: Heap, t: Tags, segs: seq<Segment>, x: Addr)
    requires Sound(h, t, segs, x) && x != 0 && NextInUse(h, x) && h.dvsize > 0
    ensures h.dv in h.cs && h.dv > 0 && h.cs[h.dv].size == h.dvsize && !IsBinned(h, h.dv)
    ensures var g := Binned(h, h.dv).(dv := 0, dvsize := 0);
            Sound(g, t, segs, x) && NextInUse(g, x) && SameOwners(h, g)
  {
    hide PlacedOK, LoneOK, TagOK;
    BinOldDv(h, x);
    Neighbours(h.cs, h.dv);
    SameTiles(h, Binned(h, h.dv).(dv := 0, dvsize := 0), segs);
  }

  // ---- Memalign -------------------------------------------------------------------------

  // A chunk in use is cut into two in use.
  ghost function Parted(h: Heap, p: Addr, nb: nat): Heap
    requires p in h.cs && nb < h.cs[p].size
  {
    h.(cs := Split(h.cs, p, nb, true, true), live := h.live + {p + nb})
  }

  // The head words of both parts, with p's pinuse bit as it was; no other chunk's changes.
  ghost predicate PartsWritten(h: Heap, t: Tags, u: Tags, p: Addr, nb: nat)
    requires p in h.cs && nb < h.cs[p].size
  {
    && u.foot == t.foot
    && p in t.head && p in u.head && u.head[p] == nb + t.head[p] % 2 + CINUSE_BIT
    && p + nb in u.head && u.head[p + nb] == h.cs[p].size - nb + PINUSE_BIT + CINUSE_BIT
    && forall q :: q in h.cs && q != p && q in t.head ==> q in u.head && u.head[q] == t.head[q]
  }

  lemma PartLive(h: Heap, p: Addr, nb: nat)
    requires HeapOK(h) && p in h.live && p in h.cs && MIN_CHUNK_SIZE <= nb && nb % 8 == 0 &&
             nb + MIN_CHUNK_SIZE <= h.cs[p].size
    ensures var g := Parted(h, p, nb);
            HeapOK(g) && p + nb !in h.cs && p in g.cs && g.cs[p].size == nb && p + nb in g.cs
            && g.cs[p + nb].size == h.cs[p].size - nb
            && forall q :: q in h.live && q != p ==> q in g.cs && q in h.cs && g.cs[q].size == h.cs[q].size
  {
    var g := Parted(h, p, nb);
    At(h, 0, p);
    SplitTiled(h.cs, p, nb, true, true);
    forall q {:trigger PlacedOK(g, 0, q)} | q in g.cs ensures PlacedOK(g, 0, q) {
      if q != p + nb {
        assert PlacedOK(h, 0, q);
        assert Apart(h.cs, q, p) && Apart(h.cs, p, q);
      }
    }
    forall q {:trigger LoneOK(g, 0, q)} ensures LoneOK(g, 0, q) {
      assert LoneOK(h, 0, q);
      if q in h.cs {
        assert ChunkOK(h.cs, q);
      }
    }
  }

  lemma PartTags(h: Heap, t: Tags, u: Tags, p: Addr, nb: nat)
    requires Tiled(h.cs) && TagsOK(t, h.cs) && p in h.cs && h.cs[p].cinuse && 0 < nb < h.cs[p].size && nb % 8 == 0
    requires PartsWritten(h, t, u, p, nb)
    ensures TagsOK(u, Split(h.cs, p, nb, true, true))
  {
    var cs := h.cs;
    var ds := Split(cs, p, nb, true, true);
    NoneInside(cs, p, p + nb);
    Neighbours(cs, p);
    assert TagOK(t, cs, p);
    HeadRead(cs[p]);
    forall q {:trigger TagOK(u, ds, q)} | q in ds ensures TagOK(u, ds, q) {
      if q != p && q != p + nb {
        assert TagOK(t, cs, q) && ChunkOK(cs, q);
        assert Apart(cs, p, q) && Apart(cs, q, p);
      }
    }
  }

  lemma Part(h: Heap, t: Tags, segs: seq<Segment>, p: Addr, nb: nat, u: Tags)
    requires Sound(h, t, segs, 0) && p in h.live && p in h.cs
    requires MIN_CHUNK_SIZE <= nb && nb % 8 == 0 && nb + MIN_CHUNK_SIZE <= h.cs[p].size && PartsWritten(h, t, u, p, nb)
    ensures var g := Parted(h, p, nb);
            && Sound(g, u, segs, 0) && p + nb !in h.cs && p in g.cs && g.cs[p].size == nb && p + nb in g.cs
            && g.cs[p + nb].size == h.cs[p].size - nb
            && forall q :: q in h.live && q != p ==> q in g.cs && q in h.cs && g.cs[q].size == h.cs[q].size
  {
    hide PlacedOK, LoneOK, TagOK, PartsWritten;
    PartLive(h, p, nb);
    InUse(h, p);
    InHeap(h, 0);
    PartTags(h, t, u, p, nb);
    KeptBySplit(h, segs, Parted(h, p, nb), p, nb, true, true);
  }

  lemma InUse(h: Heap, p: Addr)
    requires HeapOK(h) && p in h.live
    ensures p in h.cs && h.cs[p].cinuse && p !in h.records && Next(h.cs, p) in h.cs && p != h.top && p > 0
    ensures h.cs[p].size % 8 == 0 && p % 8 == 0 && h.cs[Next(h.cs, p)].pinuse
  {
    At(h, 0, p);
  }

  // ---- Which chunk ----------------------------------------------------------------------

  ghost predicate Fits(h: Heap, nb: nat, q: Addr) { IsBinned(h, q) && q in h.cs && h.cs[q].size >= nb }

  // The best fit among the chunks in bins.
  ghost predicate Smallest(h: Heap, nb: nat, p: Addr) {
    Fits(h, nb, p) && forall q {:trigger Fits(h, nb, q)} :: Fits(h, nb, q) ==> h.cs[p].size <= h.cs[q].size
  }

  ghost predicate NoneFits(h: Heap, nb: nat) { forall q {:trigger Fits(h, nb, q)} :: !Fits(h, nb, q) }

  // In a small bin, and so little bigger than nb that nothing can be split off.
  ghost predicate Exact(h: Heap, nb: nat, q: Addr) { q in h.small && Fits(h, nb, q) && h.cs[q].size < nb + 16 }

  // Whether a request for a chunk of nb bytes can be met without new memory.
  ghost predicate CanServe(h: Heap, nb: nat) { !NoneFits(h, nb) || nb <= h.dvsize || nb < h.topsize }

  // The policy of dlmalloc. Small requests prefer an exact small bin, then the designated victim,
  // then the smallest binned chunk that fits; large ones the best fit of bins and victim. Only
  // when nothing else fits is top cut.
  ghost predicate Served(h: Heap, nb: nat, large: bool, p: Addr) {
    if IsBinned(h, p) then
      Smallest(h, nb, p) && (h.dvsize < nb || if large then h.cs[p].size < h.dvsize else Exact(h, nb, p))
    else if p == h.dv then
      && nb <= h.dvsize
      && forall q {:trigger Fits(h, nb, q)} :: Fits(h, nb, q) ==>
           if large then h.dvsize <= h.cs[q].size else !Exact(h, nb, q)
    else p == h.top && nb < h.topsize && h.dvsize < nb && NoneFits(h, nb)
  }

  // What fits, told by the bins alone.
  lemma FitsByBins(h: Heap, t: Tags, segs: seq<Segment>, nb: nat, q: Addr)
    requires Sound(h, t, segs, 0)
    ensures Fits(h, nb, q) <==> (q in h.small && h.small[q] >= nb) || (q in h.tree && h.tree[q] >= nb)
    ensures q in h.small ==>
              q in h.cs && h.cs[q].size == h.small[q] && h.small[q] < MIN_LARGE_SIZE && h.small[q] % 8 == 0
    ensures q in h.tree ==> q in h.cs && h.cs[q].size == h.tree[q] && MIN_LARGE_SIZE <= h.tree[q] && q !in h.small
  {
    hide LoneOK, TagOK, InSegment;
    if IsBinned(h, q) {
      BinnedIs(h, t, segs, q);
    }
  }

  // The first chunk of the first small bin that is big enough and not empty.
  lemma ChosenSmall(h: Heap, t: Tags, segs: seq<Segment>, nb: nat, p: Addr)
    requires Sound(h, t, segs, 0) && p in h.small && nb <= h.small[p] && nb % 8 == 0
    requires h.dvsize < nb || h.small[p] < nb + 16
    requires forall q :: q in h.small && h.small[q] >= nb ==> h.small[p] <= h.small[q]
    ensures Served(h, nb, false, p) && CanServe(h, nb)
  {
    hide PlacedOK, LoneOK, TagOK, HeapX;
    FitsByBins(h, t, segs, nb, p);
    forall q {:trigger Fits(h, nb, q)} | Fits(h, nb, q) ensures h.cs[p].size <= h.cs[q].size {
      FitsByBins(h, t, segs, nb, q);
    }
  }

  lemma ChosenTree(h: Heap, t: Tags, segs: seq<Segment>, nb: nat, large: bool, p: Addr)
    requires Sound(h, t, segs, 0) && p in h.tree && nb <= h.tree[p]
    requires h.dvsize < nb || (large && h.tree[p] < h.dvsize)
    requires forall q :: q in h.tree && h.tree[q] >= nb ==> h.tree[p] <= h.tree[q]
    requires forall q :: q in h.small ==> h.small[q] < nb
    ensures Served(h, nb, large, p) && CanServe(h, nb)
  {
    hide PlacedOK, LoneOK, TagOK, HeapX;
    FitsByBins(h, t, segs, nb, p);
    forall q {:trigger Fits(h, nb, q)} | Fits(h, nb, q) ensures h.cs[p].size <= h.cs[q].size {
      FitsByBins(h, t, segs, nb, q);
    }
  }

  lemma ChosenDv(h: Heap, t: Tags, segs: seq<Segment>, nb: nat, large: bool)
    requires Sound(h, t, segs, 0) && 0 < nb <= h.dvsize
    requires !large ==> forall q :: q in h.small && h.small[q] >= nb ==> h.small[q] >= nb + 16
    requires large ==> nb >= MIN_LARGE_SIZE && forall q :: q in h.tree && h.tree[q] >= nb ==> h.dvsize <= h.tree[q]
    ensures Served(h, nb, large, h.dv) && CanServe(h, nb)
  {
    hide PlacedOK, LoneOK, TagOK, HeapX;
    DvIs(h, t, segs);
    forall q {:trigger Fits(h, nb, q)} | Fits(h, nb, q)
      ensures if large then h.dvsize <= h.cs[q].size else !Exact(h, nb, q) {
      FitsByBins(h, t, segs, nb, q);
    }
  }

  // Nothing in bins and no victim will do.
  lemma ChosenTop(h: Heap, t: Tags, segs: seq<Segment>, nb: nat, large: bool)
    requires Sound(h, t, segs, 0) && h.dvsize < nb
    requires forall q :: q in h.small ==> h.small[q] < nb
    requires forall q :: q in h.tree ==> h.tree[q] < nb
    ensures CanServe(h, nb) <==> nb < h.topsize
    ensures nb < h.topsize ==> Served(h, nb, large, h.top)
  {
    hide PlacedOK, LoneOK, TagOK;
    forall q {:trigger Fits(h, nb, q)} ensures !Fits(h, nb, q) {
      FitsByBins(h, t, segs, nb, q);
    }
    if nb < h.topsize {
      At(h, 0, h.top);
    }
  }
}
