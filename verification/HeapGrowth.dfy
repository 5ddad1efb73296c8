// The steps by which memory from the system joins the heap: the first top, a longer top, a
// chunk in front of a segment, and a new top whose predecessor gets a segment record.

module HeapGrowth {
  import opened Words
  import opened BinIndex
  import opened Rings
  import opened Tiling
  import opened HeapState

  // pad_request(sizeof(struct malloc_segment))
  const RECORD_SIZE: nat := 40
  const TOP_FOOT_SIZE: nat := 72

  ghost function Begun(h: Heap, base: Addr, n: nat): Heap {
    h.(cs := map[base := Chunk(n, true, false, 0)], top := base, topsize := n)
  }

  ghost function Extended(h: Heap, n: nat): Heap
    requires h.top in h.cs
  {
    h.(cs := Resized(h.cs, h.top, h.topsize + n, false), topsize := h.topsize + n)
  }

  // A free chunk of n bytes, to be kept in hand, just below the first chunk of a segment.
  ghost function Opened(h: Heap, base: Addr, n: nat): Heap {
    h.(cs := Added(h.cs, base, Chunk(n, true, false, 0)))
  }

  // Where add_segment puts the record: after the old top, or over it if it is too small to keep.
  ghost function RecordAt(h: Heap): Addr
    requires h.top in h.cs
  {
    if h.topsize < MIN_CHUNK_SIZE then h.top else Next(h.cs, h.top)
  }

  ghost function WithRecord(h: Heap): Chunks
    requires h.top in h.cs
  {
    if h.topsize < MIN_CHUNK_SIZE then Resized(h.cs, h.top, RECORD_SIZE, true)
    else Added(h.cs, Next(h.cs, h.top), Chunk(RECORD_SIZE, false, true, h.top))
  }

  ghost function NewTop(h: Heap, base: Addr, n: nat): Heap
    requires h.top in h.cs
  {
    h.(cs := Added(WithRecord(h), base, Chunk(n, true, false, 0)),
       records := h.records + {RecordAt(h)}, top := base, topsize := n)
  }

  lemma Begin(h: Heap, base: Addr, n: nat)
    requires HeapOK(h) && h.top == 0 && base > 0 && base % 8 == 0 && n > 0 && n % 8 == 0 && base + n < WORD64
    ensures HeapOK(Begun(h, base, n)) && h.live == {}
  {
    var g := Begun(h, base, n);
    AddedTiled(h.cs, base, Chunk(n, true, false, 0));
    assert Added(h.cs, base, Chunk(n, true, false, 0)) == g.cs;
    assert forall q {:trigger PlacedOK(g, 0, q)} :: q in g.cs ==> q == base && PlacedOK(g, 0, q);
    assert forall q {:trigger LoneOK(g, 0, q)} :: LoneOK(g, 0, q);
  }

  lemma Extend(h: Heap, n: nat)
    requires HeapOK(h) && h.top != 0 && n > 0 && n % 8 == 0
    requires Clear(h.cs, h.top + h.topsize, h.top + h.topsize + n + 1) && h.top + h.topsize + n < WORD64
    ensures h.top in h.cs && HeapOK(Extended(h, n)) && KeepsLive(h, Extended(h, n))
  {
    hide Tiled;
    var g := Extended(h, n);
    At(h, 0, h.top);
    ResizedTiled(h.cs, h.top, h.topsize + n, false);
    NotIn(g.cs, Next(g.cs, h.top), Next(g.cs, h.top), Next(g.cs, h.top) + 1);
    forall q {:trigger PlacedOK(g, 0, q)} | q in g.cs ensures PlacedOK(g, 0, q) {
      assert PlacedOK(h, 0, q);
    }
    forall q {:trigger LoneOK(g, 0, q)} ensures LoneOK(g, 0, q) {
      assert LoneOK(h, 0, q);
    }
  }

  // A chunk is where it should be as long as nothing about it changes.
  lemma PlacedKept(h: Heap, g: Heap, y: Addr, q: Addr)
    requires PlacedOK(h, 0, q) && q in g.cs && g.cs[q].size == h.cs[q].size && g.cs[q].cinuse == h.cs[q].cinuse
    requires Next(g.cs, q) in g.cs <==> Next(h.cs, q) in h.cs
    requires g == h.(cs := g.cs, records := g.records, top := g.top, topsize := g.topsize)
    requires (q in g.records <==> q in h.records) && (q == g.top <==> q == h.top) && (y == 0 || q != y)
    ensures PlacedOK(g, y, q)
  {
  }

  lemma Open(h: Heap, base: Addr, n: nat)
    requires HeapOK(h) && base > 0 && base % 8 == 0 && n >= MIN_CHUNK_SIZE && n % 8 == 0 &&
             Clear(h.cs, base - 1, base + n)
    requires base + n in h.cs && h.cs[base + n].prev == 0
    ensures HeapX(Opened(h, base, n), base) && base !in h.cs && KeepsLive(h, Opened(h, base, n))
  {
    hide Tiled, Added, ChunkOK;
    var g, c := Opened(h, base, n), Chunk(n, true, false, 0);
    At(h, 0, base + n);
    CanOpen(h, base, n);
    AddedTiled(h.cs, base, c);
    forall q | q in h.cs
      ensures q in g.cs && Next(g.cs, q) == Next(h.cs, q) != base && g.cs[q].cinuse == h.cs[q].cinuse
    {
      AddedView(h.cs, base, c, q);
    }
    AddedView(h.cs, base, c, base + n);
    forall q {:trigger PlacedOK(g, base, q)} | q in g.cs ensures PlacedOK(g, base, q) {
      if q != base {
        assert PlacedOK(h, 0, q);
        PlacedKept(h, g, base, q);
      }
    }
    forall q {:trigger LoneOK(g, base, q)} ensures LoneOK(g, base, q) {
      assert LoneOK(h, 0, q);
      if q in h.cs {
        AddedView(h.cs, base, c, q);
      }
    }
  }

  lemma CanOpen(h: Heap, base: Addr, n: nat)
    requires HeapOK(h) && base > 0 && base % 8 == 0 && n >= MIN_CHUNK_SIZE && n % 8 == 0 &&
             Clear(h.cs, base - 1, base + n)
    requires base + n in h.cs && h.cs[base + n].prev == 0
    ensures CanAdd(h.cs, base, Chunk(n, true, false, 0))
  {
    hide Tiled;
    At(h, 0, base + n);
  }

  // The room a new top needs, and that behind the old one.
  ghost predicate HasRoom(h: Heap, base: Addr, n: nat) {
    && base > 0 && base % 8 == 0 && n > 0 && n % 8 == 0 && base + n < WORD64
    && Clear(h.cs, base - 1, base + n + 1)
    && Clear(h.cs, h.top + h.topsize, h.top + h.topsize + TOP_FOOT_SIZE)
    && (h.top + h.topsize + TOP_FOOT_SIZE <= base || base + n + TOP_FOOT_SIZE <= h.top)
    && h.top + h.topsize + TOP_FOOT_SIZE < WORD64
  }

  lemma AddTop(h: Heap, base: Addr, n: nat)
    requires HeapOK(h) && h.top != 0 && HasRoom(h, base, n)
    ensures h.top in h.cs
    ensures var g := NewTop(h, base, n);
            && HeapX(g, if h.topsize < MIN_CHUNK_SIZE then 0 else h.top) && KeepsLive(h, g)
            && RecordAt(h) !in h.live && RecordAt(h) !in h.records
            && g.cs[h.top].pinuse && g.cs[RecordAt(h)].cinuse
            && (h.topsize >= MIN_CHUNK_SIZE ==> Next(g.cs, h.top) == RecordAt(h))
  {
    hide Tiled;
    var g := NewTop(h, base, n);
    At(h, 0, h.top);
    RecordTiled(h, base, n);
    var x := if h.topsize < MIN_CHUNK_SIZE then 0 else h.top;
    forall q {:trigger PlacedOK(g, x, q)} | q in g.cs ensures PlacedOK(g, x, q) {
      if q in h.cs && q != h.top {
        assert PlacedOK(h, 0, q);
        NotBefore(h.cs, h.top, q);
        PlacedKept(h, g, x, q);
      }
    }
    forall q {:trigger LoneOK(g, x, q)} ensures LoneOK(g, x, q) {
      assert LoneOK(h, 0, q);
    }
  }

  lemma NotBefore(cs: Chunks, p: Addr, q: Addr)
    requires Tiled(cs) && p in cs && q in cs && p != q
    ensures Next(cs, q) != Next(cs, p)
  {
    assert Apart(cs, p, q) && Apart(cs, q, p) && ChunkOK(cs, p) && ChunkOK(cs, q);
  }

  lemma RecordTiled(h: Heap, base: Addr, n: nat)
    requires HeapOK(h) && h.top != 0 && HasRoom(h, base, n)
    ensures h.top in h.cs && base !in h.cs && base != RecordAt(h) && (RecordAt(h) == h.top || RecordAt(h) !in h.cs)
    ensures base + n !in NewTop(h, base, n).cs && RecordAt(h) + RECORD_SIZE !in NewTop(h, base, n).cs
    ensures Tiled(NewTop(h, base, n).cs)
  {
    hide Tiled, WithRecord;
    At(h, 0, h.top);
    RecordPlaced(h);
    var w := WithRecord(h);
    NotIn(h.cs, base, base - 1, base + n + 1);
    NotIn(h.cs, base + n, base - 1, base + n + 1);
    AddedTiled(w, base, Chunk(n, true, false, 0));
  }

  // The record chunk alone, over the old top or in the room behind it.
  lemma RecordPlaced(h: Heap)
    requires HeapOK(h) && h.top != 0 && Clear(h.cs, h.top + h.topsize, h.top + h.topsize + TOP_FOOT_SIZE)
    requires h.top + h.topsize + TOP_FOOT_SIZE < WORD64
    ensures h.top in h.cs && Tiled(WithRecord(h)) && (RecordAt(h) == h.top || RecordAt(h) !in h.cs)
    ensures RecordAt(h) + RECORD_SIZE !in WithRecord(h) && WithRecord(h).Keys == h.cs.Keys + {RecordAt(h)}
    ensures h.top <= RecordAt(h) && RecordAt(h) + RECORD_SIZE <= h.top + h.topsize + TOP_FOOT_SIZE
    ensures WithRecord(h)[RecordAt(h)].size == RECORD_SIZE
    ensures forall q :: q in h.cs && q != RecordAt(h) ==> WithRecord(h)[q] == h.cs[q]
  {
    hide Tiled;
    At(h, 0, h.top);
    var r, e := RecordAt(h), Next(h.cs, h.top);
    NotIn(h.cs, r + RECORD_SIZE, e, e + TOP_FOOT_SIZE);
    if r == h.top {
      ResizedTiled(h.cs, r, RECORD_SIZE, true);
    } else {
      NotIn(h.cs, r, r, r + TOP_FOOT_SIZE);
      AddedTiled(h.cs, r, Chunk(RECORD_SIZE, false, true, h.top));
    }
  }

  // What changes with a new top: the old one, the record and the new one, nothing else.
  lemma NewTopView(h: Heap, base: Addr, n: nat)
    requires HeapOK(h) && h.top != 0 && HasRoom(h, base, n)
    ensures h.top in h.cs
    ensures var cs, r := NewTop(h, base, n).cs, RecordAt(h);
            && cs.Keys == h.cs.Keys + {r, base} && base !in h.cs && base != r
            && (forall q :: q in h.cs && q != r ==> cs[q] == h.cs[q])
            && cs[base] == Chunk(n, true, false, 0) && base + n !in cs && r + RECORD_SIZE !in cs
            && cs[r].size == RECORD_SIZE && cs[r].cinuse
            && (if r == h.top then cs[r].prev == h.cs[r].prev && cs[r].pinuse == h.cs[r].pinuse
                else r == Next(h.cs, h.top) && r !in h.cs && cs[r].prev == h.top && !cs[r].pinuse)
            && h.top <= r && Next(h.cs, h.top) <= r + RECORD_SIZE <= h.top + h.topsize + RECORD_SIZE
  {
    hide Tiled, PlacedOK, LoneOK;
    At(h, 0, h.top);
    RecordTiled(h, base, n);
    RecordPlaced(h);
  }
}
