// The steps of sys_alloc with everything they keep.

module GrowthSteps {
  import opened Words
  import opened BinIndex
  import opened Rings
  import opened HeapState
  import opened HeapGrowth
  import opened Segments
  import opened Tags
  import opened Tiling
  import opened HeapSteps

  const FENCEPOST_HEAD: nat := 11

  // init_top, for an aligned p
  function InitTop(t: Tags, p: Addr, n: nat): Tags {
    t.(head := t.head[p := n + PINUSE_BIT][p + n := TOP_FOOT_SIZE])
  }

  lemma FirstTop(h: Heap, t: Tags, segs: seq<Segment>, r: Segment)
    requires Sound(h, t, segs, 0) && h.top == 0 && SegOK(r) && r.size > TOP_FOOT_SIZE
    ensures var g := Begun(h, r.base, r.size - TOP_FOOT_SIZE);
            Sound(g, InitTop(t, r.base, r.size - TOP_FOOT_SIZE), [r], 0) && SameOwners(h, g)
  {
    var n := r.size - TOP_FOOT_SIZE;
    Begin(h, r.base, n);
    FirstSegment(h, r);
    var u, ds := InitTop(t, r.base, n), Begun(h, r.base, n).cs;
    forall p {:trigger TagOK(u, ds, p)} | p in ds ensures TagOK(u, ds, p) {
      assert p == r.base;
    }
  }

  lemma LongerTop(h: Heap, t: Tags, segs: seq<Segment>, r: Segment)
    requires Sound(h, t, segs, 0) && h.top != 0 && Fresh(segs, r)
    requires Home(segs, h.top) < |segs| && r.base == End(segs[Home(segs, h.top)])
    ensures var i := Home(segs, h.top);
            var after := Grown(segs, i, segs[i].base, segs[i].size + r.size);
            && h.top in h.cs
            && var g := Extended(h, r.size);
            && Sound(g, InitTop(t, h.top, h.topsize + r.size), after, 0)
            && SameOwners(h, g) && ExecKept(segs, after)
  {
    hide PlacedOK, LoneOK, TagOK, Home, InSegment;
    AllLastX(h);
    RoomBehindTop(h, segs, r);
    Extend(h, r.size);
    Append(h, segs, r);
    var g := Extended(h, r.size);
    AllLastX(g);
    ResizedTags(t, h.cs, h.top, h.topsize + r.size, false);
    PlainWords(Chunk(h.topsize + r.size, true, false, 0));
    TagsFrame(t.(head := t.head[h.top := h.topsize + r.size + PINUSE_BIT]),
              InitTop(t, h.top, h.topsize + r.size), g.cs);
  }

  // prepend_alloc: the region in front of segment i becomes a free chunk in hand.
  lemma NewFront(h: Heap, t: Tags, segs: seq<Segment>, i: nat, r: Segment)
    requires Sound(h, t, segs, 0) && Fresh(segs, r) && i < |segs| && End(r) == segs[i].base && r.size >= MIN_CHUNK_SIZE
    ensures var after := Grown(segs, i, r.base, segs[i].size + r.size);
            var g := Opened(h, r.base, r.size);
            && SoundBut(g, t, after, r.base, true) && SameOwners(h, g) && ExecKept(segs, after)
            && g.cs[r.base].pinuse && g.cs[r.base].size == r.size && Next(g.cs, r.base) == End(r)
  {
    hide PlacedOK, LoneOK, TagOK, TagsOK, TagsBut, Home, InSegment, Clear, SegmentsOK, ExecKept;
    HomeBase(h, segs, i);
    AllLast(h);
    RegionClear(h, segs, r);
    Open(h, r.base, r.size);
    CanOpen(h, r.base, r.size);
    Prepend(h, segs, i, r);
    AddedTags(t, h.cs, r.base, r.size);
  }

  // The front of the chunk in hand is put in use, the rest of it is then in hand.
  lemma CutInHand(h: Heap, t: Tags, segs: seq<Segment>, x: Addr, nb: nat, stale: bool)
    requires SoundBut(h, t, segs, x, stale) && h.cs[x].pinuse
    requires MIN_CHUNK_SIZE <= nb && nb % 8 == 0 && nb + MIN_CHUNK_SIZE <= h.cs[x].size
    ensures var g := UsedFront(h, x, nb);
            && SoundBut(g, SetSizeAndPinuseOfInuse(t, x, nb), segs, x + nb, stale) && Allotted(h, g, nb, x)
            && g.cs[x + nb].pinuse && g.cs[x + nb].size == h.cs[x].size - nb && x + nb > 0
  {
    hide PlacedOK, LoneOK, TagOK;
    UseFront(h, x, nb);
    CutTags(t, h.cs, x, nb, stale);
    NotRecord(h, x);
    InHeap(h, x);
    KeptBySplit(h, segs, UsedFront(h, x, nb), x, nb, true, false);
    Neighbours(h.cs, x);
  }

  // Memory after add_segment has written the tags of the new top and of the record, and only
  // words outside chunks besides.
  ghost predicate RecordWritten(h: Heap, t: Tags, u: Tags, base: Addr, n: nat)
    requires h.top in h.cs
  {
    && u.foot == t.foot
    && base in u.head && u.head[base] == n + PINUSE_BIT
    && RecordAt(h) in u.head && u.head[RecordAt(h)] == RECORD_SIZE + PINUSE_BIT + CINUSE_BIT
    && (forall p :: p in h.cs && p != RecordAt(h) && p in t.head ==> p in u.head && u.head[p] == t.head[p])
  }

  lemma Retire(h: Heap, t: Tags, segs: seq<Segment>, r: Segment, u: Tags)
    requires Sound(h, t, segs, 0) && h.top != 0 && Fresh(segs, r) && r.size > TOP_FOOT_SIZE
    requires h.top in h.cs && RecordWritten(h, t, u, r.base, r.size - TOP_FOOT_SIZE)
    ensures var g := NewTop(h, r.base, r.size - TOP_FOOT_SIZE);
            && SameButRecord(h, g) && ExecKept(segs, [r] + segs)
            && (if h.topsize < MIN_CHUNK_SIZE then Sound(g, u, [r] + segs, 0)
                else SoundBut(g, u, [r] + segs, h.top, true) && NextInUse(g, h.top) && h.top > 0
                     && Next(g.cs, h.top) == RecordAt(h) && g.cs[h.top].size == h.topsize)
  {
    hide PlacedOK, LoneOK, TagOK, Home, InSegment, HasRoom, RecordWritten, WithRecord;
    var n := r.size - TOP_FOOT_SIZE;
    RoomForTop(h, segs, r);
    AddTop(h, r.base, n);
    Push(h, segs, r);
    NewTopView(h, r.base, n);
    RetireTags(h, t, u, r.base, n);
    AllLastX(h);
    Neighbours(h.cs, h.top);
  }

  ghost predicate SameButRecord(h: Heap, g: Heap) { g.live == h.live && h.records <= g.records && KeepsLive(h, g) }

  lemma RetireTags(h: Heap, t: Tags, u: Tags, base: Addr, n: nat)
    requires HeapOK(h) && TagsOK(t, h.cs) && h.top != 0 && HasRoom(h, base, n) && h.top in h.cs
    requires RecordWritten(h, t, u, base, n)
    ensures var g := NewTop(h, base, n);
            if h.topsize < MIN_CHUNK_SIZE then TagsOK(u, g.cs) else TagsBut(u, g.cs, h.top, true)
  {
    hide PlacedOK, LoneOK, TagOK, HasRoom;
    AllLastX(h);
    RecordTiled(h, base, n);
    NewTopView(h, base, n);
    RoomClear(h, base, n);
    RecordPlaced(h);
    var k := RecordAt(h);
    if h.topsize < MIN_CHUNK_SIZE {
      var v := t.(head := t.head[k := HeadWord(Chunk(RECORD_SIZE, true, true, 0))]);
      ResizedTags(t, h.cs, k, RECORD_SIZE, true);
      AloneTags(v, u, WithRecord(h), base, n);
    } else {
      TailTags(t, h.cs, h.top, RECORD_SIZE);
      AloneTagsBut(SetSizeAndPinuseOfInuse(t, k, RECORD_SIZE), u, WithRecord(h), h.top, true, base, n);
    }
  }

  lemma RoomClear(h: Heap, base: Addr, n: nat)
    requires HeapOK(h) && h.top != 0 && HasRoom(h, base, n)
    ensures h.top in h.cs && Clear(h.cs, h.top + h.topsize, h.top + h.topsize + TOP_FOOT_SIZE)
    ensures h.top + h.topsize + TOP_FOOT_SIZE < WORD64 && n > 0
    ensures forall q :: q in WithRecord(h) ==> Next(WithRecord(h), q) != base
  {
    hide PlacedOK, LoneOK;
    AllLastX(h);
    RecordPlaced(h);
    var r := RecordAt(h);
    forall q | q in WithRecord(h) ensures Next(WithRecord(h), q) != base {
      if q != r {
        assert q in h.cs;
      }
    }
  }

  // align_offset, and where add_segment looks for the record before it considers the old top
  function AlignOffset(a: Addr): nat { (8 - a % 8) % 8 }

  lemma TopEnd(h: Heap, t: Tags, segs: seq<Segment>)
    requires Sound(h, t, segs, 0) && h.top != 0
    ensures var i := Home(segs, h.top);
            && i < |segs| && Holds(segs[i], h.top) && End(segs[i]) == h.top + h.topsize + TOP_FOOT_SIZE
            && var raw := End(segs[i]) - (RECORD_SIZE + 32 + 7);
            raw + AlignOffset(raw + 16) == h.top + h.topsize
    ensures h.top in h.cs && h.cs[h.top].size == h.topsize && Next(h.cs, h.top) == h.top + h.topsize
  {
    hide PlacedOK, LoneOK, TagOK, Home;
    AllLastX(h);
    assert InSegment(h, segs, h.top) && ChunkOK(h.cs, h.top);
    RawAligned(h.top + h.topsize);
  }

  lemma RawAligned(e: nat)
    requires e % 8 == 0
    ensures var raw := e + TOP_FOOT_SIZE - (RECORD_SIZE + 32 + 7);
            raw + AlignOffset(raw + 16) == e
  {
    assert (e - 7 + 16) % 8 == 1;
  }

  // The writes of add_segment reach no chunk but the record and the new top.
  lemma WrittenApart(h: Heap, t: Tags, segs: seq<Segment>, r: Segment, v: Tags, u: Tags)
    requires Sound(h, t, segs, 0) && h.top != 0 && Fresh(segs, r) && r.size > TOP_FOOT_SIZE && h.top in h.cs
    requires v == SetSizeAndPinuseOfInuse(InitTop(t, r.base, r.size - TOP_FOOT_SIZE), RecordAt(h), RECORD_SIZE)
    requires u.foot == v.foot
    requires forall a :: a in v.head && !(RecordAt(h) + RECORD_SIZE <= a < h.top + h.topsize + TOP_FOOT_SIZE) ==>
               a in u.head && u.head[a] == v.head[a]
    ensures RecordWritten(h, t, u, r.base, r.size - TOP_FOOT_SIZE)
  {
    hide PlacedOK, LoneOK, TagOK, Home, SegmentsOK;
    var n := r.size - TOP_FOOT_SIZE;
    RoomForTop(h, segs, r);
    NotIn(h.cs, r.base, r.base - 1, r.base + n + 1);
    NotIn(h.cs, r.base + n, r.base - 1, r.base + n + 1);
    RecordTiled(h, r.base, n);
    TopEnd(h, t, segs);
    forall p | p in h.cs && p != RecordAt(h) && p in t.head ensures p in u.head && u.head[p] == t.head[p] {
      FootHasNone(h, p);
    }
  }

  lemma FootHasNone(h: Heap, p: Addr)
    requires HeapOK(h) && h.top in h.cs && p in h.cs
    requires Clear(h.cs, h.top + h.topsize, h.top + h.topsize + TOP_FOOT_SIZE) && Next(h.cs, h.top) == h.top + h.topsize
    ensures p <= h.top || h.top + h.topsize + TOP_FOOT_SIZE <= p
  {
    assert ChunkOK(h.cs, p) && Apart(h.cs, h.top, p);
  }
}
