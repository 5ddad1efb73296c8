// dlmalloc's malloc_state: the designated victim, top, the two kinds of bins, the boundary tags
// and the segment list, with malloc, free and the acquisition of memory from the system.

module Allocator {
  import opened Words
  import opened BinIndex
  import opened BinMap
  import opened Rings
  import opened SmallBins
  import opened TreeBins
  import opened HeapState
  import opened HeapGrowth
  import opened Segments
  import opened Tags
  import opened HeapSteps
  import opened GrowthSteps
  import opened Regions
  import opened Requests
  import T = Tiling
  import F = Forest
  import C = Chains

  // What mmap would answer: nothing, or a region and how far from it its executable alias is.
  datatype Mapping = Failed | Mapped(base: Addr, execOffset: int)

  // mmap answers with pages of no segment.
  ghost predicate Offered(segs: seq<Segment>, m: Mapping, size: nat) {
    m.Mapped? ==> Fresh(segs, RegionOf(m, size))
  }

  // A request for a chunk of nb bytes is refused exactly if neither the heap nor the system has it.
  ghost predicate Refused(h: Heap, nb: SizeT, granularity: PageSize, mapping: Mapping) {
    !CanServe(h, nb) && (mapping.Failed? || SystemSize(nb, granularity) <= nb)
  }

  ghost function RegionOf(m: Mapping, size: nat): Segment
    requires m.Mapped?
  {
    Segment(m.base, size, m.execOffset)
  }

  datatype Reserve = Reserve(top: Addr, topsize: nat, dv: Addr, dvsize: nat)

  // granularity is the page size; heap is what the tags, the bins and the four words of own stand for together.
  class MallocState {
    var own: Reserve
    var tags: Tags
    var segs: seq<Segment>
    const small: SmallBins
    const tree: TreeBins
    const granularity: PageSize
    ghost var heap: Heap

    // The bins hold what heap says.
    ghost predicate Stocked()
      reads this, small, tree
    {
      small.Valid() && tree.Valid() && heap.small == small.size && heap.tree == tree.tree.size
    }

    ghost predicate OwnOK()
      reads this
    {
      own == Reserve(heap.top, heap.topsize, heap.dv, heap.dvsize)
    }

    ghost predicate Valid()
      reads this, small, tree
    {
      Stocked() && OwnOK() && Sound(heap, tags, segs, 0)
    }

    constructor (pageSize: PageSize)
      ensures Valid() && heap.cs == map[] && segs == [] && fresh(small) && fresh(tree)
    {
      granularity := pageSize;
      own := Reserve(0, 0, 0, 0);
      tags := Tags(map[], map[]);
      segs := [];
      small := new SmallBins();
      tree := new TreeBins();
      heap := Heap(map[], 0, 0, 0, 0, map[], map[], {}, {});
    }

    // unlink_chunk
    method UnlinkChunk(p: Addr, s: nat)
      requires Stocked() && !IsDv(heap, p)
      requires if IsSmall(s) then p in heap.small && heap.small[p] == s && p !in heap.tree
               else p in heap.tree && p !in heap.small
      modifies this`heap, small, tree
      ensures Stocked() && heap == Unbinned(old(heap), p)
    {
      if IsSmall(s) {
        small.UnlinkSmallChunk(p, s);
        assert heap.tree - {p} == heap.tree;
      } else {
        tree.UnlinkLargeChunk(p);
        assert heap.small - {p} == heap.small;
      }
      heap := Unbinned(heap, p);
    }

    // insert_chunk
    method InsertChunk(p: Addr, s: nat)
      requires Stocked() && p > 0 && p in heap.cs && heap.cs[p].size == s < WORD64 && !IsBinned(heap, p)
      modifies this`heap, small, tree
      ensures Stocked() && heap == Binned(old(heap), p)
    {
      if IsSmall(s) {
        small.InsertSmallChunk(p, s);
      } else {
        tree.InsertLargeChunk(p, s);
      }
      heap := Binned(heap, p);
    }

    // Whether own is up to date but for x, which own may still call the designated victim.
    ghost predicate OwnBut(x: Addr)
      reads this
    {
      && own.top == heap.top && own.topsize == heap.topsize
      && (if own.dv == x then heap.dv == 0 && heap.dvsize == 0 else own.dv == heap.dv && own.dvsize == heap.dvsize)
    }

    // set_free_with_pinuse and insert_chunk
    method BinFree(q: Addr, qsize: nat, n: Addr, ghost stale: bool)
      requires Stocked() && OwnOK() && SoundBut(heap, tags, segs, q, stale) && NextInUse(heap, q)
      requires qsize == heap.cs[q].size && n == q + qsize
      modifies this`tags, this`heap, small, tree
      ensures Valid() && SameOwners(old(heap), heap) && heap == Binned(old(heap), q)
    {
      hide HeapX, TagsOK, TagsBut, SegmentsOK, KeepsLive, IsSmall;
      WriteFree(heap, tags, segs, q, stale);
      tags := SetFreeWithPinuse(tags, q, qsize, n);
      BinIt(heap, tags, segs, q);
      InsertChunk(q, qsize);
    }

    // The chunk in hand takes the designated victim, which follows it, and becomes it.
    method JoinVictim(p: Addr, psize: nat)
      requires Stocked() && SoundBut(heap, tags, segs, p, true) && OwnOK() && p > 0
      requires psize == heap.cs[p].size && heap.cs[p].pinuse && own.dv == p + psize
      modifies this`own, this`tags, this`heap
      ensures Valid() && SameOwners(old(heap), heap)
      ensures SameTop(old(heap), heap) && heap.dv == p && heap.dvsize == psize + old(heap).dvsize
    {
      hide HeapX, TagsOK, TagsBut, SegmentsOK, KeepsLive, T.Merged, T.Marked, IsSmall;
      ghost var h, next := heap, own.dv;
      ReadNext(heap, tags, segs, p, true);
      DvFree(heap, p);
      JoinNext(heap, tags, segs, p);
      assert heap.small - {next} == heap.small && heap.tree - {next} == heap.tree;
      heap := Joined(Unbinned(heap, next), p);
      ghost var g := heap;
      var dsize := own.dvsize + psize;
      own := own.(dv := p, dvsize := dsize);
      WriteFree(heap, tags, segs, p, false);
      tags := SetSizeAndPinuseOfFree(tags, p, dsize);
      DvIt(heap, tags, segs, p);
      heap := AsDv(heap, p);
      OwnersTrans(h, g, heap);
    }

    // The chunk in hand, merged with the one after it, stays the victim or is binned.
    method PlaceMerged(p: Addr, psize: nat)
      requires Stocked() && SoundBut(heap, tags, segs, p, false) && OwnBut(p) && p > 0
      requires psize == heap.cs[p].size && NextInUse(heap, p)
      modifies this`own, this`tags, this`heap, small, tree
      ensures Valid() && SameOwners(old(heap), heap) && SameTop(old(heap), heap)
      ensures if old(own).dv == p then heap.dv == p && heap.dvsize == psize
              else heap.dv == old(own).dv && heap.dvsize == old(own).dvsize && IsBinned(heap, p)
                   && p in heap.cs && heap.cs[p].size == psize
    {
      hide HeapX, TagsOK, TagsBut, SegmentsOK, KeepsLive, IsSmall;
      WriteFree(heap, tags, segs, p, false);
      tags := SetSizeAndPinuseOfFree(tags, p, psize);
      if p == own.dv {
        own := own.(dvsize := psize);
        DvIt(heap, tags, segs, p);
        heap := AsDv(heap, p);
      } else {
        BinIt(heap, tags, segs, p);
        InsertChunk(p, psize);
      }
    }

    // The part of dlfree that merges with a next chunk which is not top.
    method MergeNext(p: Addr, psize: nat, next: Addr)
      requires Stocked() && SoundBut(heap, tags, segs, p, true) && OwnBut(p) && p > 0
      requires psize == heap.cs[p].size && next == p + psize && heap.cs[p].pinuse
      requires !heap.cs[next].cinuse && next != heap.top
      modifies this`own, this`tags, this`heap, small, tree
      ensures Valid() && SameOwners(old(heap), heap)
      ensures Landed(old(heap), heap, p, next, old(own).dv, old(own).dvsize)
    {
      hide HeapX, TagsOK, TagsBut, SegmentsOK, KeepsLive, T.Merged, T.Marked, IsSmall;
      ghost var h := heap;
      ReadNext(heap, tags, segs, p, true);
      if next == own.dv {
        JoinVictim(p, psize);
        return;
      }
      JoinNext(heap, tags, segs, p);
      ghost var g := Joined(Unbinned(heap, next), p);
      var nsize := ChunkSize(tags.head[next]);
      UnlinkChunk(next, nsize);
      heap := Joined(heap, p);
      PlaceMerged(p, psize + nsize);
      OwnersTrans(h, g, heap);
    }

    // The second half of dlfree: consolidate forward, then bin.
    method FreeForward(p: Addr, psize: nat, next: Addr)
      requires Stocked() && SoundBut(heap, tags, segs, p, true) && OwnBut(p) && p > 0
      requires psize == heap.cs[p].size && next == p + psize && heap.cs[p].pinuse
      requires own.dv == p ==> !heap.cs[next].cinuse
      modifies this`own, this`tags, this`heap, small, tree
      ensures Valid() && SameOwners(old(heap), heap)
      ensures Landed(old(heap), heap, p, next, old(own).dv, old(own).dvsize)
    {
      hide HeapX, TagsOK, TagsBut, SegmentsOK, KeepsLive, T.Merged, T.Marked, IsSmall;
      ghost var h := heap;
      ReadNext(heap, tags, segs, p, true);
      if !Cinuse(tags.head[next]) {
        if next == own.top {
          JoinTop(heap, tags, segs, p);
          var tsize := own.topsize + psize;
          own := own.(top := p, topsize := tsize);
          tags := tags.(head := tags.head[p := tsize + PINUSE_BIT]);
          heap := JoinedTop(heap, p);
          if p == own.dv {
            own := own.(dv := 0, dvsize := 0);
          }
          return;
        }
        MergeNext(p, psize, next);
      } else {
        BinFree(p, psize, next, true);
      }
    }

    // dlfree
    method Free(mem: Addr)
      requires Valid() && (mem != 0 ==> mem - 16 in heap.live)
      modifies this`own, this`tags, this`heap, small, tree
      ensures Valid()
      ensures if mem == 0 then heap == old(heap)
              else heap.live == old(heap).live - {mem - 16} && heap.records == old(heap).records &&
                   KeepsLive(old(heap), heap)
      ensures mem != 0 ==> Rejoined(old(heap), heap, mem - 16)
    {
      hide HeapX, TagsOK, TagsBut, SegmentsOK, KeepsLive, T.Merged, T.Marked, IsSmall;
      if mem == 0 {
        return;
      }
      var p := mem - 16;
      StartFree(heap, tags, segs, p);
      ghost var h := heap;
      heap := Freed(heap, p);
      ghost var g := heap;
      var psize := ChunkSize(tags.head[p]);
      if Pinuse(tags.head[p]) {
        FreeForward(p, psize, p + psize);
        LandedFrom(h, g, heap, p, p + psize, h.dv, h.dvsize);
      } else {
        FreeBackward(p, psize, p + psize);
        LandedFrom(h, g, heap, h.cs[p].prev, p + psize, h.dv, h.dvsize);
      }
      OwnersTrans(h, g, heap);
    }

    // The part of dlfree for a chunk whose previous one is free: that is taken out and swallows it.
    method FreeBackward(p: Addr, psize: nat, next: Addr)
      requires Stocked() && OwnOK() && SoundBut(heap, tags, segs, p, true) && !heap.cs[p].pinuse
      requires psize == heap.cs[p].size && next == p + psize
      requires p in tags.foot && heap.cs[p].prev == p - tags.foot[p] && heap.cs[p].prev in heap.cs
      requires tags.foot[p] == heap.cs[heap.cs[p].prev].size
      modifies this`own, this`tags, this`heap, small, tree
      ensures Valid() && SameOwners(old(heap), heap)
      ensures Landed(old(heap), heap, old(heap).cs[p].prev, next, old(own).dv, old(own).dvsize)
    {
      hide HeapX, TagsOK, TagsBut, SegmentsOK, KeepsLive, T.Merged, T.Marked, IsSmall;
      ghost var h := heap;
      var prevsize := tags.foot[p];
      JoinPrev(heap, tags, segs, p);
      var prev := p - prevsize;
      var size := psize + prevsize;
      if prev != own.dv {
        UnlinkChunk(prev, prevsize);
        heap := Joined(heap, prev);
      } else {
        assert heap.small - {prev} == heap.small && heap.tree - {prev} == heap.tree;
        heap := Joined(Unbinned(heap, prev), prev);
        ReadNext(heap, tags, segs, prev, true);
        if Pinuse(tags.head[next]) && Cinuse(tags.head[next]) {
          BackToVictim(prev, size, next);
          OwnersTrans(h, Joined(Unbinned(h, prev), prev), heap);
          return;
        }
      }
      ghost var k := heap;
      FreeForward(prev, size, next);
      OwnersTrans(h, k, heap);
      LandedFrom(h, k, heap, prev, next, old(own).dv, old(own).dvsize);
    }

    // The victim has swallowed the chunk after it and stays the victim.
    method BackToVictim(p: Addr, psize: nat, next: Addr)
      requires Stocked() && SoundBut(heap, tags, segs, p, true) && OwnBut(p) && p > 0 && own.dv == p
      requires psize == heap.cs[p].size && next == p + psize && NextInUse(heap, p)
      modifies this`own, this`tags, this`heap
      ensures Valid() && SameOwners(old(heap), heap)
      ensures Landed(old(heap), heap, p, next, old(own).dv, old(own).dvsize)
    {
      hide HeapX, TagsOK, TagsBut, SegmentsOK, KeepsLive, T.Merged, T.Marked, IsSmall;
      ReadNext(heap, tags, segs, p, true);
      own := own.(dvsize := psize);
      WriteFree(heap, tags, segs, p, true);
      tags := SetFreeWithPinuse(tags, p, psize, next);
      DvIt(heap, tags, segs, p);
      heap := AsDv(heap, p);
    }

    // ---- malloc -------------------------------------------------------------------------

    // set_inuse_and_pinuse on the free chunk in hand
    method UseAll(p: Addr, s: nat)
      requires Stocked() && OwnOK() && p != 0 && Sound(heap, tags, segs, p) && NextInUse(heap, p) &&
               s == heap.cs[p].size
      modifies this`tags, this`heap
      ensures Valid() && heap == UsedWhole(old(heap), p) && p !in old(heap).live && KeepsLive(old(heap), heap)
      ensures p in heap.cs && heap.cs[p].size == s
    {
      hide HeapX, TagsOK, SegmentsOK, KeepsLive;
      TakeWhole(heap, tags, segs, p);
      tags := SetInuseAndPinuse(tags, p, s);
      heap := UsedWhole(heap, p);
    }

    // The chunk in hand is cut: nb bytes are put in use and the rest is the new chunk in hand.
    method CutFront(p: Addr, s: nat, nb: nat) returns (r: Addr)
      requires Stocked() && OwnOK() && p != 0 && Sound(heap, tags, segs, p) && NextInUse(heap, p) &&
               s == heap.cs[p].size
      requires MIN_CHUNK_SIZE <= nb && nb % 8 == 0 && nb + MIN_CHUNK_SIZE <= s
      modifies this`tags, this`heap
      ensures Stocked() && OwnOK() && r == p + nb != 0 && Sound(heap, tags, segs, r) && NextInUse(heap, r)
      ensures heap == UsedFront(old(heap), p, nb) && p !in old(heap).live && KeepsLive(old(heap), heap)
      ensures p in heap.cs && heap.cs[p].size == nb && heap.cs[r].size == s - nb
    {
      hide HeapX, TagsOK, SegmentsOK, KeepsLive;
      TakeFront(heap, tags, segs, p, nb);
      r := p + nb;
      tags := SetSizeAndPinuseOfInuse(tags, p, nb);
      tags := SetSizeAndPinuseOfFree(tags, r, s - nb);
      heap := UsedFront(heap, p, nb);
    }

    // replace_dv; the old victim is known to be small.
    method ReplaceDv(p: Addr, s: nat)
      requires Stocked() && OwnOK() && p != 0 && Sound(heap, tags, segs, p) && NextInUse(heap, p) &&
               s == heap.cs[p].size
      requires heap.dvsize < MIN_LARGE_SIZE
      modifies this`own, this`heap, small
      ensures Valid() && SameOwners(old(heap), heap) && SameTop(old(heap), heap) && heap.dv == p && heap.dvsize == s
    {
      hide HeapX, TagsOK, SegmentsOK, KeepsLive;
      ghost var h := heap;
      var dvs := own.dvsize;
      if dvs != 0 {
        BinDv(heap, tags, segs, p);
        small.InsertSmallChunk(own.dv, dvs);
        heap := Binned(heap, own.dv).(dv := 0, dvsize := 0);
      }
      own := own.(dvsize := s, dv := p);
      DvIt(heap, tags, segs, p);
      if dvs != 0 {
        OwnersTrans(h, heap, AsDv(heap, p));
      }
      heap := AsDv(heap, p);
    }

    // A remainderless fit: the first chunk of small bin i.
    method TakeExactSmall(i: Index, nb: nat) returns (mem: Addr)
      requires Valid() && Marked(small.smallmap, i) && nb <= 8 * i <= nb + 8
      modifies this`tags, this`heap, small
      ensures Valid() && Allotted(old(heap), heap, nb, mem - 16) && RestPlaced(old(heap), heap, nb, false, mem - 16)
      ensures mem - 16 in old(heap).small && old(heap).small[mem - 16] == 8 * i
    {
      hide HeapX, TagsOK, SegmentsOK, KeepsLive, Has, BinsOK;
      ghost var h := heap;
      var p := small.UnlinkFirstSmallChunk(i);
      BinnedIs(h, tags, segs, p);
      TakeFree(h, tags, segs, p);
      assert heap.tree - {p} == heap.tree;
      heap := Unbinned(heap, p);
      ghost var g := heap;
      UseAll(p, 8 * i);
      KeptInUse(h, g, heap);
      mem := p + 16;
    }

    // The first chunk of the next non-empty small bin i, the rest of which becomes the victim.
    method TakeNextSmall(i: Index, nb: nat) returns (mem: Addr)
      requires Valid() && Marked(small.smallmap, i) && MIN_CHUNK_SIZE <= nb <= 8 * i && nb % 8 == 0 && heap.dvsize < nb
      modifies this`own, this`tags, this`heap, small
      ensures Valid() && Allotted(old(heap), heap, nb, mem - 16) && RestPlaced(old(heap), heap, nb, false, mem - 16)
      ensures mem - 16 in old(heap).small && old(heap).small[mem - 16] == 8 * i
    {
      hide HeapX, TagsOK, SegmentsOK, KeepsLive, Has, BinsOK;
      ghost var h := heap;
      var p := small.UnlinkFirstSmallChunk(i);
      BinnedIs(h, tags, segs, p);
      TakeFree(h, tags, segs, p);
      assert heap.tree - {p} == heap.tree;
      heap := Unbinned(heap, p);
      ghost var g := heap;
      var rsize := 8 * i - nb;
      if rsize < MIN_CHUNK_SIZE {
        UseAll(p, 8 * i);
        KeptInUse(h, g, heap);
      } else {
        var r := CutFront(p, 8 * i, nb);
        KeptInUse(h, g, heap);
        ghost var k := heap;
        ReplaceDv(r, rsize);
        StillAllotted(h, k, heap, nb, p);
      }
      mem := p + 16;
    }

    // tmalloc_large: the best fit in the tree bins, unless the victim fits as well.
    method TmallocLarge(nb: SizeT) returns (mem: Addr)
      requires Valid() && nb >= MIN_LARGE_SIZE && nb % 8 == 0
      modifies this`tags, this`heap, small, tree
      ensures Valid()
      ensures mem == 0 ==>
                && unchanged(this, small, tree)
                && forall x :: x in heap.tree && heap.tree[x] >= nb ==> nb <= heap.dvsize <= heap.tree[x]
      ensures mem != 0 ==>
                && Allotted(old(heap), heap, nb, mem - 16)
                && mem - 16 in old(heap).tree && nb <= old(heap).tree[mem - 16]
                && (forall x :: x in old(heap).tree && old(heap).tree[x] >= nb ==>
                     old(heap).tree[mem - 16] <= old(heap).tree[x])
                && (heap.dvsize < nb || old(heap).tree[mem - 16] < heap.dvsize) && heap.dvsize == old(heap).dvsize
                && RestPlaced(old(heap), heap, nb, true, mem - 16)
    {
      hide HeapX, TagsOK, SegmentsOK, KeepsLive, F.ForestOK, C.ChainsOK, MapAgrees;
      mem := 0;
      var v, rsize := tree.FindBest(nb);
      if v != 0 {
        BinnedIs(heap, tags, segs, v);
        DvBounded(heap);
        if rsize < Sub64(own.dvsize, nb) {
          mem := CarveLarge(v, rsize, nb);
        }
      }
    }

    // The end of tmalloc_large: v is taken out, and what it has to spare goes back to a bin.
    method CarveLarge(v: Addr, rsize: nat, nb: nat) returns (mem: Addr)
      requires Valid() && v in heap.tree && heap.tree[v] == nb + rsize && nb >= MIN_CHUNK_SIZE && nb % 8 == 0
      modifies this`tags, this`heap, small, tree
      ensures Valid() && mem == v + 16 && Allotted(old(heap), heap, nb, v) && heap.dvsize == old(heap).dvsize && v > 0
      ensures RestPlaced(old(heap), heap, nb, true, v)
    {
      hide HeapX, TagsOK, SegmentsOK, KeepsLive, F.ForestOK, C.ChainsOK, MapAgrees;
      ghost var h := heap;
      BinnedIs(heap, tags, segs, v);
      TakeFree(heap, tags, segs, v);
      UnlinkChunk(v, rsize + nb);
      ghost var g := heap;
      if rsize < MIN_CHUNK_SIZE {
        UseAll(v, rsize + nb);
        KeptInUse(h, g, heap);
      } else {
        var r := CutFront(v, rsize + nb, nb);
        KeptInUse(h, g, heap);
        ghost var k := heap;
        BinIt(heap, tags, segs, r);
        InsertChunk(r, rsize);
        StillAllotted(h, k, heap, nb, v);
      }
      mem := v + 16;
    }

    // tmalloc_small: the smallest chunk of the tree bins, the rest of which becomes the victim.
    method TmallocSmall(nb: nat) returns (mem: Addr)
      requires Valid() && MIN_CHUNK_SIZE <= nb < MIN_LARGE_SIZE && nb % 8 == 0 && tree.treemap != 0 && heap.dvsize < nb
      modifies this`own, this`tags, this`heap, small, tree
      ensures Valid() && Allotted(old(heap), heap, nb, mem - 16) && RestPlaced(old(heap), heap, nb, false, mem - 16)
      ensures mem - 16 in old(heap).tree
      ensures forall x :: x in old(heap).tree ==> old(heap).tree[mem - 16] <= old(heap).tree[x]
    {
      hide HeapX, TagsOK, SegmentsOK, KeepsLive, F.ForestOK, C.ChainsOK, MapAgrees;
      ghost var h := heap;
      var v, rsize := tree.FindSmallest(nb);
      BinnedIs(heap, tags, segs, v);
      TakeFree(heap, tags, segs, v);
      UnlinkChunk(v, rsize + nb);
      ghost var g := heap;
      if rsize < MIN_CHUNK_SIZE {
        UseAll(v, rsize + nb);
        KeptInUse(h, g, heap);
      } else {
        var r := CutFront(v, rsize + nb, nb);
        KeptInUse(h, g, heap);
        ghost var k := heap;
        ReplaceDv(r, rsize);
        StillAllotted(h, k, heap, nb, v);
      }
      mem := v + 16;
    }

    // Split or exhaust the designated victim.
    method TakeDv(nb: nat) returns (mem: Addr)
      requires Valid() && MIN_CHUNK_SIZE <= nb <= heap.dvsize && nb % 8 == 0
      modifies this`own, this`tags, this`heap
      ensures Valid() && Allotted(old(heap), heap, nb, mem - 16) && mem - 16 == old(heap).dv
      ensures RestPlaced(old(heap), heap, nb, false, mem - 16) && RestPlaced(old(heap), heap, nb, true, mem - 16)
    {
      hide HeapX, TagsOK, SegmentsOK, KeepsLive;
      ghost var h := heap;
      var rsize := own.dvsize - nb;
      var p := own.dv;
      DvIs(heap, tags, segs);
      TakeFree(heap, tags, segs, p);
      assert heap.small - {p} == heap.small && heap.tree - {p} == heap.tree;
      heap := Unbinned(heap, p);
      ghost var g := heap;
      if rsize >= MIN_CHUNK_SIZE {
        TakeFront(heap, tags, segs, p, nb);
        var r := p + nb;
        own := own.(dv := r, dvsize := rsize);
        tags := SetSizeAndPinuseOfFree(tags, r, rsize);
        tags := SetSizeAndPinuseOfInuse(tags, p, nb);
        ghost var k := UsedFront(heap, p, nb);
        KeptInUse(h, g, k);
        DvIt(k, tags, segs, r);
        heap := AsDv(k, r);
        StillAllotted(h, k, heap, nb, p);
      } else {
        var dvs := own.dvsize;
        own := own.(dvsize := 0, dv := 0);
        UseAll(p, dvs);
        KeptInUse(h, g, heap);
      }
      mem := p + 16;
    }

    method SplitTop(nb: nat) returns (mem: Addr)
      requires Valid() && MIN_CHUNK_SIZE <= nb < heap.topsize && nb % 8 == 0
      modifies this`own, this`tags, this`heap
      ensures Valid() && Allotted(old(heap), heap, nb, mem - 16) && mem - 16 == old(heap).top
      ensures old(heap).top in old(heap).cs && old(heap).cs[old(heap).top].size == old(heap).topsize
      ensures heap == TopFront(old(heap), nb)
      ensures RestPlaced(old(heap), heap, nb, false, mem - 16) && RestPlaced(old(heap), heap, nb, true, mem - 16)
    {
      hide HeapX, TagsOK, SegmentsOK, KeepsLive;
      TakeTop(heap, tags, segs, nb);
      var rsize := own.topsize - nb;
      var p := own.top;
      var r := p + nb;
      own := own.(topsize := rsize, top := r);
      tags := tags.(head := tags.head[r := rsize + PINUSE_BIT]);
      tags := SetSizeAndPinuseOfInuse(tags, p, nb);
      heap := TopFront(heap, nb);
      mem := p + 16;
    }

    // ---- Memory from the system ---------------------------------------------------------

    // segment_holding
    method SegmentHolding(a: Addr) returns (i: nat)
      ensures i == Home(segs, a)
    {
      i := 0;
      while i < |segs| && !Holds(segs[i], a)
        invariant i <= |segs| && Home(segs, a) == i + Home(segs[i..], a)
      {
        assert segs[i..][1..] == segs[i + 1..];
        i := i + 1;
      }
    }

    // The first segment that ends at a, |segs| if none does.
    method SegmentEndingAt(a: Addr) returns (i: nat)
      ensures i == EndingAt(segs, a)
    {
      i := 0;
      while i < |segs| && End(segs[i]) != a
        invariant i <= |segs| && forall j :: 0 <= j < i ==> End(segs[j]) != a
      {
        i := i + 1;
      }
    }

    // The first segment that starts at a, |segs| if none does.
    method SegmentStartingAt(a: Addr) returns (i: nat)
      ensures i == StartingAt(segs, a)
    {
      i := 0;
      while i < |segs| && segs[i].base != a
        invariant i <= |segs| && forall j :: 0 <= j < i ==> segs[j].base != a
      {
        i := i + 1;
      }
    }

    // prepend_alloc: allocate from the start of a region right in front of a segment's first
    // chunk, and consolidate the rest with that chunk.
    method PrependAlloc(newbase: Addr, oldbase: Addr, nb: nat) returns (mem: Addr)
      requires Stocked() && OwnOK() && SoundBut(heap, tags, segs, newbase, true) && heap.cs[newbase].pinuse
      requires oldbase == T.Next(heap.cs, newbase)
      requires MIN_CHUNK_SIZE <= nb && nb % 8 == 0 && nb + MIN_CHUNK_SIZE <= heap.cs[newbase].size
      modifies this`own, this`tags, this`heap, small, tree
      ensures Valid() && mem == newbase + 16 && Allotted(old(heap), heap, nb, newbase)
      ensures heap.records == old(heap).records && heap.cs[newbase].size == nb
      ensures Landed(old(heap), heap, newbase + nb, oldbase, old(heap).dv, old(heap).dvsize)
    {
      hide HeapX, TagsOK, TagsBut, SegmentsOK, KeepsLive, T.Merged, T.Marked, IsSmall;
      ghost var h := heap;
      var p, oldfirst := newbase, oldbase;
      var q, qsize := p + nb, oldfirst - p - nb;
      CutInHand(heap, tags, segs, p, nb, true);
      tags := SetSizeAndPinuseOfInuse(tags, p, nb);
      heap := UsedFront(heap, p, nb);
      ghost var g := heap;
      ConsolidateFront(q, qsize, oldfirst);
      StillAllotted(h, g, heap, nb, p);
      FrontLanded(h, g, heap, p, nb, oldfirst);
      mem := p + 16;
    }

    method ConsolidateFront(q: Addr, qsize: nat, first: Addr)
      requires Stocked() && OwnOK() && SoundBut(heap, tags, segs, q, true) && heap.cs[q].pinuse && q > 0
      requires qsize == heap.cs[q].size && first == q + qsize
      modifies this`own, this`tags, this`heap, small, tree
      ensures Valid() && SameOwners(old(heap), heap)
      ensures Landed(old(heap), heap, q, first, old(heap).dv, old(heap).dvsize)
    {
      hide HeapX, TagsOK, TagsBut, SegmentsOK, KeepsLive, T.Merged, T.Marked, IsSmall;
      ghost var h := heap;
      var oldfirst, qsize := first, qsize;
      InHandNotDv(heap, q);
      ReadNext(heap, tags, segs, q, true);
      if oldfirst == own.top {
        JoinTop(heap, tags, segs, q);
        var tsize := own.topsize + qsize;
        own := own.(topsize := tsize, top := q);
        tags := tags.(head := tags.head[q := tsize + PINUSE_BIT]);
        heap := JoinedTop(heap, q);
      } else if oldfirst == own.dv {
        JoinVictim(q, qsize);
      } else {
        ghost var stale := Cinuse(tags.head[oldfirst]);
        if !Cinuse(tags.head[oldfirst]) {
          var nsize := ChunkSize(tags.head[oldfirst]);
          JoinNext(heap, tags, segs, q);
          UnlinkChunk(oldfirst, nsize);
          heap := Joined(heap, q);
          oldfirst := oldfirst + nsize;
          qsize := qsize + nsize;
        } else {
          KeepsItself(heap);
        }
        ghost var g := heap;
        BinFree(q, qsize, oldfirst, stale);
        OwnersTrans(h, g, heap);
      }
    }

    // The trailing fenceposts of add_segment: at least two, in the room behind the record.
    method InsertFenceposts(first: Addr, oldEnd: Addr) returns (nfences: nat)
      requires first + 32 <= oldEnd && (oldEnd - first) % 8 == 0
      modifies this`tags
      ensures nfences >= 2 && first + 8 * nfences == oldEnd - 8
      ensures tags.foot == old(tags).foot
      ensures forall j :: 0 <= j < nfences ==> first + 8 * j in tags.head && tags.head[first + 8 * j] == FENCEPOST_HEAD
      ensures forall a :: a in old(tags).head && !(first <= a < oldEnd) ==>
                a in tags.head && tags.head[a] == old(tags).head[a]
    {
      var p := first;
      nfences := 0;
      while true
        invariant p == first + 8 * nfences && p + 16 <= oldEnd && (oldEnd - p) % 8 == 0
        invariant tags.foot == old(tags).foot
        invariant forall j :: 0 <= j < nfences ==>
                    first + 8 * j in tags.head && tags.head[first + 8 * j] == FENCEPOST_HEAD
        invariant forall a :: a in old(tags).head && !(first <= a < oldEnd) ==>
                    a in tags.head && tags.head[a] == old(tags).head[a]
        decreases oldEnd - p
      {
        var nextp := p + 8;
        tags := tags.(head := tags.head[p := FENCEPOST_HEAD]);
        nfences := nfences + 1;
        if nextp + 8 < oldEnd {
          p := nextp;
        } else {
          break;
        }
      }
    }

    // The part of add_segment that writes: the new top, the record over or behind the old top, and
    // the fenceposts. There are psize bytes left of the old top.
    method WriteSegment(r: Segment) returns (psize: nat)
      requires Valid() && heap.top != 0 && Fresh(segs, r) && r.size > TOP_FOOT_SIZE
      modifies this`own, this`tags, this`segs, this`heap
      ensures Stocked() && OwnOK() && segs == [r] + old(segs) && ExecKept(old(segs), segs)
      ensures SameButRecord(old(heap), heap) && old(heap).top in old(heap).cs
      ensures heap == NewTop(old(heap), r.base, r.size - TOP_FOOT_SIZE)
      ensures psize == RecordAt(old(heap)) - old(heap).top
      ensures if psize == 0 then Sound(heap, tags, segs, 0)
              else SoundBut(heap, tags, segs, old(heap).top, true) && NextInUse(heap, old(heap).top)
                   && heap.cs[old(heap).top].size == psize
    {
      hide HeapX, TagsOK, TagsBut, SegmentsOK, KeepsLive, Fresh, ExecKept, RecordWritten, Home, AlignOffset;
      ghost var h, t := heap, tags;
      var oldTop := own.top;
      var i := SegmentHolding(oldTop);
      TopEnd(heap, tags, segs);
      var oldEnd := End(segs[i]);
      var rawsp := oldEnd - (RECORD_SIZE + 32 + 7);
      var asp := rawsp + AlignOffset(rawsp + 16);
      var csp := if asp < oldTop + MIN_CHUNK_SIZE then oldTop else asp;
      var n := r.size - TOP_FOOT_SIZE;
      own := own.(top := r.base, topsize := n);
      tags := InitTop(tags, r.base, n);
      tags := SetSizeAndPinuseOfInuse(tags, csp, RECORD_SIZE);
      segs := [r] + segs;
      ghost var v := tags;
      TopSizeAligned(h);
      var nfences := InsertFenceposts(csp + RECORD_SIZE, oldEnd);
      WrittenApart(h, t, old(segs), r, v, tags);
      Retire(h, t, old(segs), r, tags);
      heap := NewTop(heap, r.base, n);
      psize := csp - oldTop;
    }

    // add_segment
    method AddSegment(r: Segment)
      requires Valid() && heap.top != 0 && Fresh(segs, r) && r.size > TOP_FOOT_SIZE
      modifies this, small, tree
      ensures Valid() && segs == [r] + old(segs) && ExecKept(old(segs), segs) && SameButRecord(old(heap), heap)
      ensures heap.top == r.base && heap.topsize == r.size - TOP_FOOT_SIZE
      ensures SameDv(old(heap), heap) && Retired(old(heap), heap)
    {
      hide HeapX, TagsOK, TagsBut, SegmentsOK, KeepsLive, Fresh, ExecKept, Retired, RecordAt, WithRecord;
      ghost var h := heap;
      RetiredBy(heap, segs, r);
      var oldTop := own.top;
      var psize := WriteSegment(r);
      if psize != 0 {
        ghost var g := heap;
        BinFree(oldTop, psize, oldTop + psize, true);
        StillOwned(h, g, heap);
      }
    }

    // sys_alloc
    method SysAlloc(nb: SizeT, mapping: Mapping) returns (mem: Addr)
      requires Valid() && MIN_CHUNK_SIZE <= nb && (nb % 8 == 0 || nb == MAX_SIZE_T)
      requires SystemSize(nb, granularity) > nb ==> Offered(segs, mapping, SystemSize(nb, granularity))
      modifies this, small, tree
      ensures Valid() && ExecKept(old(segs), segs)
      ensures mem == 0 <==> mapping.Failed? || SystemSize(nb, granularity) <= nb
      ensures if mem == 0 then unchanged(this, small, tree) else mem > 16 && Allotted(old(heap), heap, nb, mem - 16)
      ensures mem != 0 ==>
                var r := RegionOf(mapping, SystemSize(nb, granularity));
                ServedFrom(old(heap), old(segs), heap, segs, r, nb, mem - 16)
    {
      hide HeapX, TagsOK, TagsBut, SegmentsOK, KeepsLive, Home, SystemSize, TopGrew, CutFrom, JointOf, SegmentsWith,
           TopFront;
      mem := 0;
      KeepsItself(heap);
      SystemSizeFits(nb, granularity);
      var rsize := SystemSize(nb, granularity);
      if rsize > nb && mapping.Mapped? {
        ghost var h := heap;
        var r := Segment(mapping.base, rsize, mapping.execOffset);
        var done := AddMemory(r, nb);
        if done != 0 {
          mem := done;
        } else {
          ghost var g := heap;
          TopSizeAligned(heap);
          CutGrown(h, g, r, JointOf(old(segs), h.top, r), nb);
          mem := SplitTop(nb);
          TakenFrom(h, g, heap, nb, mem - 16);
        }
      }
    }

    // The region is the first segment.
    method StartTop(r: Segment)
      requires Valid() && heap.top == 0 && Fresh(segs, r) && r.size > TOP_FOOT_SIZE
      modifies this`own, this`tags, this`segs, this`heap
      ensures Valid() && ExecKept(old(segs), segs) && SameButRecord(old(heap), heap)
      ensures segs == [r] && heap.top == r.base && heap.topsize == r.size - TOP_FOOT_SIZE
      ensures SameDv(old(heap), heap) && heap.records == old(heap).records
    {
      hide HeapX, TagsOK, SegmentsOK, KeepsLive, Home;
      NoSegments(heap, segs);
      FirstTop(heap, tags, segs, r);
      NoExec(segs, [r]);
      segs := [r];
      own := own.(top := r.base, topsize := r.size - TOP_FOOT_SIZE);
      tags := InitTop(tags, r.base, r.size - TOP_FOOT_SIZE);
      heap := Begun(heap, r.base, r.size - TOP_FOOT_SIZE);
    }

    // The region makes top and its segment i longer.
    method AppendToTop(r: Segment, i: nat)
      requires Valid() && heap.top != 0 && Fresh(segs, r) && i < |segs| && r.base == End(segs[i])
      requires Holds(segs[i], heap.top)
      modifies this`own, this`tags, this`segs, this`heap
      ensures Valid() && ExecKept(old(segs), segs) && SameButRecord(old(heap), heap)
      ensures segs == Grown(old(segs), i, old(segs)[i].base, old(segs)[i].size + r.size)
      ensures heap.top == old(heap).top && heap.topsize == old(heap).topsize + r.size
      ensures SameDv(old(heap), heap) && heap.records == old(heap).records
    {
      hide HeapX, TagsOK, KeepsLive, Home, Disjoint;
      HomeIs(segs, i, heap.top);
      hide SegmentsOK;
      LongerTop(heap, tags, segs, r);
      segs := Grown(segs, i, segs[i].base, segs[i].size + r.size);
      var topsize := own.topsize + r.size;
      own := own.(topsize := topsize);
      tags := InitTop(tags, own.top, topsize);
      heap := Extended(heap, r.size);
    }

    // The region goes in front of segment j, and the request is served from it.
    method PrependMemory(r: Segment, nb: nat, j: nat) returns (mem: Addr)
      requires Valid() && Fresh(segs, r) && nb + TOP_FOOT_SIZE + 1 < r.size && MIN_CHUNK_SIZE <= nb && nb % 8 == 0
      requires j < |segs| && End(r) == segs[j].base
      modifies this, small, tree
      ensures Valid() && ExecKept(old(segs), segs) && mem == r.base + 16 > 16 && Allotted(old(heap), heap, nb, r.base)
      ensures segs == Grown(old(segs), j, r.base, old(segs)[j].size + r.size)
      ensures heap.records == old(heap).records && r.base in heap.cs && heap.cs[r.base].size == nb
      ensures Landed(old(heap), heap, r.base + nb, End(r), old(heap).dv, old(heap).dvsize)
    {
      hide HeapX, TagsOK, TagsBut, SegmentsOK, KeepsLive, Home, Disjoint;
      ghost var h := heap;
      var oldbase := segs[j].base;
      BaseIs(heap, segs, j);
      NewFront(heap, tags, segs, j, r);
      segs := Grown(segs, j, r.base, segs[j].size + r.size);
      heap := Opened(heap, r.base, r.size);
      ghost var g := heap;
      mem := PrependAlloc(r.base, oldbase, nb);
      TakenFrom(h, g, heap, nb, r.base);
      LandedFrom(h, g, heap, r.base + nb, oldbase, h.dv, h.dvsize);
    }

    // The part of sys_alloc that makes a new region r part of the heap: as the first segment, at
    // the end or the start of one, or on its own. Only the third allocates at once.
    method AddMemory(r: Segment, nb: nat) returns (mem: Addr)
      requires Valid() && Fresh(segs, r) && nb + TOP_FOOT_SIZE + 1 < r.size && MIN_CHUNK_SIZE <= nb && nb % 8 == 0
      modifies this, small, tree
      ensures Valid() && ExecKept(old(segs), segs)
      ensures if mem == 0 then SameButRecord(old(heap), heap) && nb < heap.topsize
              else mem > 16 && Allotted(old(heap), heap, nb, mem - 16)
      ensures var w := JointOf(old(segs), old(heap).top, r);
              && segs == SegmentsWith(old(segs), r, w)
              && if mem == 0 then TopGrew(old(heap), heap, r, w)
                 else w.InFront? && CutFrom(old(heap), heap, r, w, nb, mem - 16)
    {
      hide HeapX, TagsOK, TagsBut, SegmentsOK, KeepsLive, Home, Disjoint, EndingAt, StartingAt, Landed, Retired,
           ExecKept, Allotted, SegsApart;
      mem := 0;
      if own.top == 0 {
        StartTop(r);
        return;
      }
      SomeTop(heap, tags, segs);
      var i := SegmentEndingAt(r.base);
      if i < |segs| && r.execOffset == segs[i].execOffset && Holds(segs[i], own.top) {
        AppendToTop(r, i);
        return;
      }
      var j := SegmentStartingAt(End(r));
      if j < |segs| && r.execOffset == segs[j].execOffset {
        mem := PrependMemory(r, nb, j);
      } else {
        AddSegment(r);
      }
    }

    // dlmalloc. mapping is what mmap would answer if asked.
    method Malloc(bytes: SizeT, mapping: Mapping) returns (mem: Addr)
      requires Valid()
      requires var size := SystemSize(RequestSize(bytes), granularity);
               size > RequestSize(bytes) ==> Offered(segs, mapping, size)
      modifies this, small, tree
      ensures Valid() && ExecKept(old(segs), segs)
      ensures if mem == 0 then heap == old(heap) && segs == old(segs)
              else mem > 16 && Allotted(old(heap), heap, RequestSize(bytes), mem - 16)
      ensures CanServe(old(heap), RequestSize(bytes)) ==>
                && mem != 0 && segs == old(segs)
                && Served(old(heap), RequestSize(bytes), bytes > MAX_SMALL_REQUEST, mem - 16)
                && RestPlaced(old(heap), heap, RequestSize(bytes), bytes > MAX_SMALL_REQUEST, mem - 16)
      ensures mem == 0 <==> Refused(old(heap), RequestSize(bytes), granularity, mapping)
      ensures mem != 0 && !CanServe(old(heap), RequestSize(bytes)) ==>
                var nb := RequestSize(bytes);
                && mapping.Mapped?
                && var r := RegionOf(mapping, SystemSize(nb, granularity));
                ServedFrom(old(heap), old(segs), heap, segs, r, nb, mem - 16)
      ensures bytes >= MAX_REQUEST ==> mem == 0
    {
      hide HeapX, TagsOK, SegmentsOK, KeepsLive, F.ForestOK, C.ChainsOK, MapAgrees, Served, Allotted, RestPlaced,
           CanServe, SystemSize, Has, ServedFrom;
      ghost var h, t := heap, tags;
      SameExec(segs);
      var nb: SizeT := RequestSize(bytes);
      DvBounded(heap);
      if bytes < MAX_REQUEST {
        RequestFits(bytes);
      }
      mem := 0;
      if bytes <= MAX_SMALL_REQUEST {
        mem := SmallFromBins(nb);
      } else if bytes < MAX_REQUEST {
        mem := LargeFromBins(nb);
      } else {
        NoneSoBig(heap, tags, segs);
        SystemSizeFits(nb, granularity);
      }
      if mem == 0 {
        if nb <= own.dvsize {
          ChosenDv(h, t, segs, nb, bytes > MAX_SMALL_REQUEST);
          TopOrDvAbove(heap);
          mem := TakeDv(nb);
        } else {
          ChosenTop(h, t, segs, nb, bytes > MAX_SMALL_REQUEST);
          if nb < own.topsize {
            TopSizeAligned(heap);
            mem := SplitTop(nb);
          } else {
            mem := SysAlloc(nb, mapping);
          }
        }
      }
    }

    // The first half of dlmalloc for a small request.
    method SmallFromBins(nb: nat) returns (mem: Addr)
      requires Valid() && MIN_CHUNK_SIZE <= nb < MIN_LARGE_SIZE && nb % 8 == 0
      modifies this`own, this`tags, this`heap, small, tree
      ensures Valid()
      ensures if mem == 0 then
                && unchanged(this, small, tree)
                && (forall q :: q in heap.small && heap.small[q] >= nb ==> heap.small[q] >= nb + 16)
                && (nb <= heap.dvsize || (heap.tree == map[] && forall q :: q in heap.small ==> heap.small[q] < nb))
              else
                && mem > 16 && Allotted(old(heap), heap, nb, mem - 16)
                && Served(old(heap), nb, false, mem - 16) && CanServe(old(heap), nb)
                && RestPlaced(old(heap), heap, nb, false, mem - 16)
    {
      hide HeapX, TagsOK, SegmentsOK, KeepsLive, F.ForestOK, C.ChainsOK, MapAgrees, Served, Allotted, RestPlaced,
           CanServe, Has, BinsOK, Shr, And, Not32, BitsAbove;
      ghost var h, t := heap, tags;
      mem := 0;
      var idx: Index := SmallIndex(nb);
      SmallBits(heap, tags, segs, small.smallmap, small.links, small.bins, nb);
      var smallbits := Shr(small.smallmap, idx);
      if And(smallbits, 3) != 0 {
        var i: Index := idx + And(Not32(smallbits), 1);
        mem := TakeExactSmall(i, nb);
        ChosenSmall(h, t, segs, nb, mem - 16);
        BinnedPositive(h, mem - 16);
      } else if nb > own.dvsize {
        if smallbits != 0 {
          var i: Index := FirstMarked(BitsAbove(smallbits, idx));
          mem := TakeNextSmall(i, nb);
          ChosenSmall(h, t, segs, nb, mem - 16);
          BinnedPositive(h, mem - 16);
        } else if tree.treemap != 0 {
          mem := TmallocSmall(nb);
          TreeSizes(h, t, segs);
          ChosenTree(h, t, segs, nb, false, mem - 16);
          BinnedPositive(h, mem - 16);
        } else {
          NoneMarked(tree.tree, tree.list, tree.treemap);
        }
      }
    }

    // The first half of dlmalloc for a large request.
    method LargeFromBins(nb: SizeT) returns (mem: Addr)
      requires Valid() && nb >= MIN_LARGE_SIZE && nb % 8 == 0
      modifies this`tags, this`heap, small, tree
      ensures Valid()
      ensures if mem == 0 then
                && unchanged(this, small, tree)
                && (forall q :: q in heap.small ==> heap.small[q] < nb)
                && (forall q :: q in heap.tree && heap.tree[q] >= nb ==> nb <= heap.dvsize <= heap.tree[q])
              else
                && mem > 16 && Allotted(old(heap), heap, nb, mem - 16)
                && Served(old(heap), nb, true, mem - 16) && CanServe(old(heap), nb)
                && RestPlaced(old(heap), heap, nb, true, mem - 16)
    {
      hide HeapX, TagsOK, SegmentsOK, KeepsLive, F.ForestOK, C.ChainsOK, MapAgrees, Served, Allotted, RestPlaced,
           CanServe, Has, BinsOK;
      ghost var h, t := heap, tags;
      mem := 0;
      SmallSizes(h, t, segs);
      if tree.treemap != 0 {
        mem := TmallocLarge(nb);
        if mem != 0 {
          ChosenTree(h, t, segs, nb, true, mem - 16);
          BinnedPositive(h, mem - 16);
        }
      } else {
        NoneMarked(tree.tree, tree.list, tree.treemap);
      }
    }
  }

  lemma BaseIs(h: Heap, segs: seq<Segment>, j: nat)
    requires SegmentsOK(h, segs) && j < |segs|
    ensures segs[j].base in h.cs
  {
  }

  // The rest of a region lands as it does from the chunk that was cut.
  lemma FrontLanded(h: Heap, g: Heap, k: Heap, p: Addr, nb: nat, n: Addr)
    requires p in h.cs && 0 < nb < h.cs[p].size && n == T.Next(h.cs, p) && n in h.cs && n != p
    requires g == UsedFront(h, p, nb)
    requires Landed(g, k, p + nb, n, g.dv, g.dvsize) && p in k.cs && SameOwners(g, k)
    ensures Landed(h, k, p + nb, n, h.dv, h.dvsize) && k.cs[p].size == nb && k.records == h.records
  {
    assert p in g.live && p in g.cs && g.cs[p].size == nb;
  }

  lemma KeepsItself(h: Heap)
    ensures SameOwners(h, h)
  {
  }

  lemma DvFree(h: Heap, x: Addr)
    requires HeapX(h, x) && h.dv != 0
    ensures h.dv in h.cs && !h.cs[h.dv].cinuse && h.dvsize > 0 && h.dv != h.top
  {
  }

  lemma TopSizeAligned(h: Heap)
    requires HeapOK(h) && (h.top != 0 || h.topsize > 0)
    ensures h.top > 0 && h.topsize > 0 && h.topsize % 8 == 0 && h.top in h.cs
  {
    AllLastX(h);
    assert T.ChunkOK(h.cs, h.top);
  }

  lemma StillOwned(h: Heap, g: Heap, k: Heap)
    requires SameButRecord(h, g) && SameOwners(g, k)
    ensures SameButRecord(h, k)
  {
  }

  lemma TakenFrom(h: Heap, g: Heap, k: Heap, nb: nat, p: Addr)
    requires SameButRecord(h, g) && Allotted(g, k, nb, p)
    ensures Allotted(h, k, nb, p)
  {
  }

  lemma SomeTop(h: Heap, t: Tags, segs: seq<Segment>)
    requires Sound(h, t, segs, 0) && h.top != 0
    ensures SegsApart(segs) && h.top in h.cs
  {
  }

  // Before memory has been obtained there is no segment.
  lemma NoSegments(h: Heap, segs: seq<Segment>)
    requires HeapOK(h) && SegmentsOK(h, segs) && h.top == 0
    ensures segs == []
  {
    if segs != [] {
      HomeBase(h, segs, 0);
      assert false;
    }
  }

  lemma NoExec(segs: seq<Segment>, after: seq<Segment>)
    requires segs == []
    ensures ExecKept(segs, after)
  {
  }

  lemma SameExec(segs: seq<Segment>)
    ensures ExecKept(segs, segs)
  {
  }

  lemma SmallSizes(h: Heap, t: Tags, segs: seq<Segment>)
    requires Sound(h, t, segs, 0)
    ensures forall q :: q in h.small ==> h.small[q] < MIN_LARGE_SIZE && h.small[q] == 8 * SmallIndex(h.small[q])
  {
    forall q | q in h.small ensures h.small[q] < MIN_LARGE_SIZE && h.small[q] == 8 * SmallIndex(h.small[q]) {
      FitsByBins(h, t, segs, 0, q);
    }
  }

  // What smallmap >> idx tells about the small chunks: an exact bin, the next bin, or none.
  lemma SmallBits(h: Heap, t: Tags, segs: seq<Segment>, m: Word, links: SmallLinks, bins: seq<seq<Addr>>, nb: nat)
    requires Sound(h, t, segs, 0) && BinsOK(m, links, h.small, bins) && nb % 8 == 0 && nb < MIN_LARGE_SIZE
    ensures var idx: Index := SmallIndex(nb);
            var bits := Shr(m, idx);
            && bits < WORD32
            && (if And(bits, 3) != 0 then
                  var i := idx + And(Not32(bits), 1);
                  i < 32 && Marked(m, i) && nb <= 8 * i <= nb + 8
                  && forall q :: q in h.small && h.small[q] >= nb ==> 8 * i <= h.small[q]
                else forall q :: q in h.small && h.small[q] >= nb ==> nb + 16 <= h.small[q])
            && (bits == 0 ==> forall q :: q in h.small ==> h.small[q] < nb)
            && (bits != 0 && And(bits, 3) == 0 ==>
                  BitsAbove(bits, idx) != 0 &&
                  var i := FirstMarked(BitsAbove(bits, idx));
                  Marked(m, i) && nb <= 8 * i && forall q :: q in h.small && h.small[q] >= nb ==> 8 * i <= h.small[q])
  {
    hide HeapX, TagsOK, SegmentsOK, Has, BinsOK, Shr, And, LeftBits, LeastBit, BitToIndex, Not32;
    var idx: Index := SmallIndex(nb);
    var bits := Shr(m, idx);
    ShiftedMapLow(m, idx);
    ShiftedMapZero(m, idx);
    ShiftedAbove(m, idx);
    SmallSizes(h, t, segs);
    if And(bits, 3) != 0 {
      UnmarkedBins(m, links, h.small, bins, idx, idx + And(Not32(bits), 1));
    } else {
      UnmarkedBins(m, links, h.small, bins, idx, idx + 2);
      SomeMarked(BitsAbove(bits, idx));
      if bits == 0 {
        UnmarkedBins(m, links, h.small, bins, idx, 32);
      } else {
        UnmarkedBins(m, links, h.small, bins, idx, FirstMarked(BitsAbove(bits, idx)));
      }
    }
  }

  lemma TreeSizes(h: Heap, t: Tags, segs: seq<Segment>)
    requires Sound(h, t, segs, 0)
    ensures forall q :: q in h.tree ==> MIN_LARGE_SIZE <= h.tree[q]
  {
    forall q | q in h.tree ensures MIN_LARGE_SIZE <= h.tree[q] {
      FitsByBins(h, t, segs, 0, q);
    }
  }

  lemma BinnedPositive(h: Heap, p: Addr)
    requires HeapOK(h) && IsBinned(h, p)
    ensures p > 0
  {
    assert T.ChunkOK(h.cs, p);
  }

  lemma TopOrDvAbove(h: Heap)
    requires HeapOK(h) && h.dvsize > 0
    ensures h.dv > 0
  {
    assert T.ChunkOK(h.cs, h.dv);
  }

  // No chunk has MAX_SIZE_T bytes.
  lemma NoneSoBig(h: Heap, t: Tags, segs: seq<Segment>)
    requires Sound(h, t, segs, 0)
    ensures h.dvsize < MAX_SIZE_T && h.topsize < MAX_SIZE_T
    ensures forall q :: q in h.small ==> h.small[q] < MAX_SIZE_T
    ensures forall q :: q in h.tree ==> h.tree[q] < MAX_SIZE_T
  {
    assert forall p {:trigger T.ChunkOK(h.cs, p)} :: p in h.cs ==> T.ChunkOK(h.cs, p);
    assert h.dvsize > 0 ==> T.ChunkOK(h.cs, h.dv);
    assert h.top != 0 ==> T.ChunkOK(h.cs, h.top);
    forall q | IsBinned(h, q)
      ensures (q in h.small ==> h.small[q] < MAX_SIZE_T) && (q in h.tree ==> h.tree[q] < MAX_SIZE_T)
    {
      FitsByBins(h, t, segs, 0, q);
      assert T.ChunkOK(h.cs, q);
    }
  }

  lemma DvBounded(h: Heap)
    requires HeapOK(h)
    ensures h.dvsize < WORD64 && h.topsize < WORD64
  {
    if h.dvsize > 0 {
      At(h, 0, h.dv);
    }
    if h.top != 0 {
      At(h, 0, h.top);
    }
  }

  lemma KeptInUse(h: Heap, g: Heap, k: Heap)
    requires SameOwners(h, g) && KeepsLive(g, k) && h.live <= k.live
    ensures KeepsLive(h, k)
  {
  }

  lemma StillAllotted(h: Heap, g: Heap, k: Heap, nb: nat, p: Addr)
    requires Allotted(h, g, nb, p) && SameOwners(g, k)
    ensures Allotted(h, k, nb, p)
  {
  }
}
