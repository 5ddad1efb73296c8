// The segments that memory from the system forms, and how the chunks tile them.

module Segments {
  import opened Words
  import opened Rings
  import opened Tiling
  import opened HeapState
  import opened HeapGrowth

  // execOffset is the distance from a segment to its executable alias.
  datatype Segment = Segment(base: Addr, size: nat, execOffset: int)

  function End(s: Segment): Addr { s.base + s.size }

  predicate Holds(s: Segment, a: Addr) { s.base <= a < End(s) }

  // The first segment that holds a, |segs| if none does.
  ghost function Home(segs: seq<Segment>, a: Addr): (i: nat)
    ensures i <= |segs|
    ensures i < |segs| ==> Holds(segs[i], a)
    ensures forall j :: 0 <= j < i ==> !Holds(segs[j], a)
  {
    if segs == [] || Holds(segs[0], a) then 0 else 1 + Home(segs[1..], a)
  }

  ghost predicate Disjoint(s: Segment, t: Segment) { End(s) <= t.base || End(t) <= s.base }

  ghost predicate SegOK(s: Segment) {
    s.base > 0 && s.size > 0 && s.base % 8 == 0 && s.size % 8 == 0 && End(s) < WORD64
  }

  ghost predicate SegsApart(segs: seq<Segment>) {
    && (forall i :: 0 <= i < |segs| ==> SegOK(segs[i]))
    && (forall i, j :: 0 <= i < j < |segs| ==> Disjoint(segs[i], segs[j]))
  }

  // A chunk within its segment: the first one starts it, the one after is in it too, and only
  // the room for a record and fenceposts is left after the last.
  ghost predicate InSegment(h: Heap, segs: seq<Segment>, p: Addr) {
    && p in h.cs
    && var i := Home(segs, p);
    && i < |segs|
    && (h.cs[p].prev == 0 <==> p == segs[i].base)
    && (Next(h.cs, p) in h.cs ==> Home(segs, Next(h.cs, p)) == i)
    && (p == h.top ==> Next(h.cs, p) + TOP_FOOT_SIZE == End(segs[i]))
    && (p in h.records ==> Next(h.cs, p) + 32 <= End(segs[i]) < Next(h.cs, p) + 64)
  }

  ghost predicate SegmentsOK(h: Heap, segs: seq<Segment>) {
    && SegsApart(segs)
    && (forall i :: 0 <= i < |segs| ==> segs[i].base in h.cs)
    && (forall p {:trigger InSegment(h, segs, p)} :: p in h.cs ==> InSegment(h, segs, p))
  }

  lemma HomeIs(segs: seq<Segment>, i: nat, a: Addr)
    requires SegsApart(segs) && i < |segs| && Holds(segs[i], a)
    ensures Home(segs, a) == i
  {
    var j := Home(segs, a);
    assert j < i ==> Disjoint(segs[j], segs[i]);
  }

  // ---- What chunk steps keep ------------------------------------------------------------

  lemma KeptByMark(h: Heap, segs: seq<Segment>, g: Heap, p: Addr, cinuse: bool)
    requires SegmentsOK(h, segs) && Tiled(h.cs) && p in h.cs
    requires g.cs == Marked(h.cs, p, cinuse) && g.top == h.top && g.records == h.records
    ensures SegmentsOK(g, segs)
  {
    Neighbours(h.cs, p);
    forall q {:trigger InSegment(g, segs, q)} | q in g.cs ensures InSegment(g, segs, q) {
      assert InSegment(h, segs, q);
    }
  }

  lemma KeptBySplit(h: Heap, segs: seq<Segment>, g: Heap, p: Addr, nb: nat, first: bool, second: bool)
    requires SegmentsOK(h, segs) && Tiled(h.cs) && p in h.cs && 0 < nb < h.cs[p].size && p !in h.records
    requires h.records <= h.cs.Keys && h.top in h.cs && (Next(h.cs, p) in h.cs || p == h.top)
    requires g.cs == Split(h.cs, p, nb, first, second) && g.top == (if p == h.top then p + nb else h.top)
    requires g.records == h.records
    ensures SegmentsOK(g, segs)
  {
    hide Home;
    Neighbours(h.cs, p);
    assert InSegment(h, segs, p);
    var i := Home(segs, p);
    NoneInside(h.cs, p, p + nb);
    HomeIs(segs, i, p + nb);
    forall q {:trigger InSegment(g, segs, q)} | q in g.cs ensures InSegment(g, segs, q) {
      if q != p && q != p + nb {
        assert InSegment(h, segs, q) && ChunkOK(h.cs, q);
        assert Apart(h.cs, q, p) && Apart(h.cs, p, q);
      }
    }
  }

  lemma KeptByMerge(h: Heap, segs: seq<Segment>, g: Heap, p: Addr)
    requires SegmentsOK(h, segs) && Tiled(h.cs) && p in h.cs && Next(h.cs, p) in h.cs
    requires p !in h.records && Next(h.cs, p) !in h.records && p != h.top
    requires g.cs == Merged(h.cs, p) && g.top == (if Next(h.cs, p) == h.top then p else h.top) && g.records == h.records
    ensures SegmentsOK(g, segs)
  {
    hide Home;
    var n := Next(h.cs, p);
    Neighbours(h.cs, p);
    Neighbours(h.cs, n);
    assert InSegment(h, segs, p) && InSegment(h, segs, n);
    forall q {:trigger InSegment(g, segs, q)} | q in g.cs ensures InSegment(g, segs, q) {
      assert InSegment(h, segs, q) && ChunkOK(h.cs, q);
    }
    forall i | 0 <= i < |segs| ensures segs[i].base in g.cs {
      if segs[i].base == n {
        HomeBase(h, segs, i);
      }
    }
  }

  lemma HomeBase(h: Heap, segs: seq<Segment>, i: nat)
    requires SegmentsOK(h, segs) && Tiled(h.cs) && i < |segs|
    ensures segs[i].base in h.cs && Home(segs, segs[i].base) == i && h.cs[segs[i].base].prev == 0
  {
    var b := segs[i].base;
    assert InSegment(h, segs, b);
    HomeIs(segs, i, b);
  }

  // ---- Free room ------------------------------------------------------------------------

  // A chunk at the end of its segment is the last there.
  lemma {:induction false} LastOf(h: Heap, segs: seq<Segment>, p: Addr, q: Addr)
    requires SegmentsOK(h, segs) && Tiled(h.cs) && p in h.cs && q in h.cs && Next(h.cs, p) !in h.cs
    requires Home(segs, q) == Home(segs, p)
    ensures q <= p
    decreases q
  {
    hide Home;
    Neighbours(h.cs, q);
    assert InSegment(h, segs, p) && InSegment(h, segs, q);
    if p < q {
      assert h.cs[q].prev != 0;
      var r := h.cs[q].prev;
      assert InSegment(h, segs, r);
      assert Apart(h.cs, r, p);
      LastOf(h, segs, p, r);
    }
  }

  // Past the last chunk of a segment there is nothing up to the segment's end.
  lemma FootClear(h: Heap, segs: seq<Segment>, p: Addr)
    requires SegmentsOK(h, segs) && Tiled(h.cs) && p in h.cs && Next(h.cs, p) !in h.cs
    requires Home(segs, p) < |segs| && Next(h.cs, p) <= End(segs[Home(segs, p)])
    ensures Clear(h.cs, Next(h.cs, p), End(segs[Home(segs, p)]))
  {
    hide Home;
    assert InSegment(h, segs, p);
    var i := Home(segs, p);
    forall q {:trigger q in h.cs} | q in h.cs ensures Next(h.cs, q) <= Next(h.cs, p) || End(segs[i]) <= q {
      assert InSegment(h, segs, q) && ChunkOK(h.cs, q) && ChunkOK(h.cs, p);
      assert Apart(h.cs, p, q) && Apart(h.cs, q, p);
      if q > p && q < End(segs[i]) {
        HomeIs(segs, i, q);
        LastOf(h, segs, p, q);
      }
    }
  }

  // A region apart from every segment is apart from every chunk.
  lemma RegionClear(h: Heap, segs: seq<Segment>, r: Segment)
    requires SegmentsOK(h, segs) && Tiled(h.cs) && (forall i :: 0 <= i < |segs| ==> Disjoint(segs[i], r))
    requires forall p :: p in h.cs && Next(h.cs, p) !in h.cs ==> p == h.top || p in h.records
    ensures Clear(h.cs, r.base - 1, End(r))
  {
    hide Home;
    forall q {:trigger q in h.cs} | q in h.cs ensures Next(h.cs, q) <= r.base - 1 || End(r) <= q {
      assert InSegment(h, segs, q);
      assert Disjoint(segs[Home(segs, q)], r);
      if Next(h.cs, q) in h.cs {
        assert InSegment(h, segs, Next(h.cs, q));
      }
    }
  }

  // ---- What memory from the system does to the list -------------------------------------

  function Grown(segs: seq<Segment>, i: nat, base: Addr, size: nat): seq<Segment>
    requires i < |segs|
  {
    segs[i := Segment(base, size, segs[i].execOffset)]
  }

  // Every address keeps the executable alias it has.
  ghost predicate ExecKept(segs: seq<Segment>, after: seq<Segment>) {
    forall a {:trigger Home(after, a)} :: Home(segs, a) < |segs| ==>
      Home(after, a) < |after| && after[Home(after, a)].execOffset == segs[Home(segs, a)].execOffset
  }

  ghost predicate Fresh(segs: seq<Segment>, r: Segment) {
    SegOK(r) && forall i :: 0 <= i < |segs| ==> Disjoint(segs[i], r)
  }

  lemma GrownApart(segs: seq<Segment>, i: nat, r: Segment, base: Addr)
    requires SegsApart(segs) && Fresh(segs, r) && i < |segs|
    requires (r.base == End(segs[i]) && base == segs[i].base) || (End(r) == segs[i].base && base == r.base)
    ensures var after := Grown(segs, i, base, segs[i].size + r.size);
            && SegsApart(after) && ExecKept(segs, after)
            && (forall a {:trigger Home(after, a)} :: Home(segs, a) < |segs| ==> Home(after, a) == Home(segs, a))
            && (forall a {:trigger Home(after, a)} :: Holds(r, a) ==> Home(after, a) == i)
  {
    hide Home, SegOK;
    var after := Grown(segs, i, base, segs[i].size + r.size);
    GrownOK(segs, i, r, base);
    forall a {:trigger Home(after, a)} | Home(segs, a) < |segs| ensures Home(after, a) == Home(segs, a) {
      HomeIs(after, Home(segs, a), a);
    }
    forall a {:trigger Home(after, a)} | Holds(r, a) ensures Home(after, a) == i {
      HomeIs(after, i, a);
    }
  }

  lemma GrownOK(segs: seq<Segment>, i: nat, r: Segment, base: Addr)
    requires SegsApart(segs) && Fresh(segs, r) && i < |segs|
    requires (r.base == End(segs[i]) && base == segs[i].base) || (End(r) == segs[i].base && base == r.base)
    ensures SegsApart(Grown(segs, i, base, segs[i].size + r.size))
  {
    var after := Grown(segs, i, base, segs[i].size + r.size);
    assert SegOK(after[i]);
    forall j, k | 0 <= j < k < |after| ensures Disjoint(after[j], after[k]) {
      assert Disjoint(segs[j], segs[k]) && Disjoint(segs[j], r) && Disjoint(segs[k], r);
    }
  }

  lemma PushedApart(segs: seq<Segment>, r: Segment)
    requires SegsApart(segs) && Fresh(segs, r)
    ensures var after := [r] + segs;
            && SegsApart(after) && ExecKept(segs, after)
            && (forall a {:trigger Home(after, a)} :: Home(segs, a) < |segs| ==> Home(after, a) == Home(segs, a) + 1)
  {
    hide Home;
    var after := [r] + segs;
    forall j, k | 0 <= j < k < |after| ensures Disjoint(after[j], after[k]) {
      assert after[k] == segs[k - 1];
      if j > 0 {
        assert after[j] == segs[j - 1] && Disjoint(segs[j - 1], segs[k - 1]);
      }
    }
    forall a {:trigger Home(after, a)} | Home(segs, a) < |segs| ensures Home(after, a) == Home(segs, a) + 1 {
      HomeIs(after, Home(segs, a) + 1, a);
    }
  }

  lemma FirstSegment(h: Heap, r: Segment)
    requires SegOK(r) && r.size > TOP_FOOT_SIZE && h.records == {}
    ensures SegmentsOK(Begun(h, r.base, r.size - TOP_FOOT_SIZE), [r])
  {
    var g := Begun(h, r.base, r.size - TOP_FOOT_SIZE);
    forall p {:trigger InSegment(g, [r], p)} | p in g.cs ensures InSegment(g, [r], p) {
      HomeIs([r], 0, p);
    }
  }

  lemma Append(h: Heap, segs: seq<Segment>, r: Segment)
    requires HeapOK(h) && SegmentsOK(h, segs) && Fresh(segs, r) && h.top in h.cs
    requires Home(segs, h.top) < |segs| && r.base == End(segs[Home(segs, h.top)])
    ensures var i := Home(segs, h.top);
            var after := Grown(segs, i, segs[i].base, segs[i].size + r.size);
            SegmentsOK(Extended(h, r.size), after) && ExecKept(segs, after)
  {
    hide Home, PlacedOK, LoneOK;
    var i := Home(segs, h.top);
    var after := Grown(segs, i, segs[i].base, segs[i].size + r.size);
    GrownApart(segs, i, r, segs[i].base);
    var g := Extended(h, r.size);
    forall p {:trigger InSegment(g, after, p)} | p in g.cs ensures InSegment(g, after, p) {
      AppendKeeps(h, segs, r, p);
    }
    assert forall j :: 0 <= j < |segs| ==> after[j].base == segs[j].base;
  }

  lemma AppendKeeps(h: Heap, segs: seq<Segment>, r: Segment, p: Addr)
    requires HeapOK(h) && SegmentsOK(h, segs) && Fresh(segs, r) && h.top in h.cs && p in h.cs
    requires Home(segs, h.top) < |segs| && r.base == End(segs[Home(segs, h.top)])
    ensures var i := Home(segs, h.top);
            InSegment(Extended(h, r.size), Grown(segs, i, segs[i].base, segs[i].size + r.size), p)
  {
    hide Home, PlacedOK, LoneOK, HeapX, SegsApart, Tiled, Fresh, SegOK, InSegment, Grown, Extended;
    GrownApart(segs, Home(segs, h.top), r, segs[Home(segs, h.top)].base);
    assert InSegment(h, segs, p) && InSegment(h, segs, h.top);
    LastIsTop(h, segs, p);
    if p == h.top {
      TopIs(h, segs, r);
      AppendTop(h, segs, r);
    } else {
      AppendOther(h, segs, r, p);
    }
  }

  lemma TopIs(h: Heap, segs: seq<Segment>, r: Segment)
    requires HeapOK(h) && SegmentsOK(h, segs) && Fresh(segs, r) && h.top in h.cs
    ensures h.cs[h.top].size == h.topsize && SegOK(r)
    ensures var i := Home(segs, h.top); i < |segs| && SegOK(segs[i]) && Holds(segs[i], h.top)
  {
    hide PlacedOK, LoneOK;
    assert InSegment(h, segs, h.top);
  }

  lemma AppendTop(h: Heap, segs: seq<Segment>, r: Segment)
    requires h.top in h.cs && InSegment(h, segs, h.top) && h.top !in h.records
    requires h.cs[h.top].size == h.topsize && SegOK(r) && r.base == End(segs[Home(segs, h.top)])
    requires var i := Home(segs, h.top);
             var after := Grown(segs, i, segs[i].base, segs[i].size + r.size);
             SegsApart(after) && Home(after, h.top) == i && SegOK(segs[i]) && Holds(segs[i], h.top)
    ensures var i := Home(segs, h.top);
            InSegment(Extended(h, r.size), Grown(segs, i, segs[i].base, segs[i].size + r.size), h.top)
  {
    hide Home, SegsApart;
    var i := Home(segs, h.top);
    HomeIs(Grown(segs, i, segs[i].base, segs[i].size + r.size), i, Next(h.cs, h.top) + r.size);
  }

  lemma AppendOther(h: Heap, segs: seq<Segment>, r: Segment, p: Addr)
    requires h.top in h.cs && InSegment(h, segs, p) && p != h.top && Home(segs, h.top) < |segs|
    requires Home(segs, p) == Home(segs, h.top) ==> p !in h.records
    requires var i := Home(segs, h.top);
             var after := Grown(segs, i, segs[i].base, segs[i].size + r.size);
             forall a {:trigger Home(after, a)} :: Home(segs, a) < |segs| ==> Home(after, a) == Home(segs, a)
    ensures var i := Home(segs, h.top);
            InSegment(Extended(h, r.size), Grown(segs, i, segs[i].base, segs[i].size + r.size), p)
  {
    hide Home;
  }

  // The segment of top holds no record; the chunk after top's end is not one.
  lemma LastIsTop(h: Heap, segs: seq<Segment>, p: Addr)
    requires HeapOK(h) && SegmentsOK(h, segs) && h.top in h.cs && p in h.cs
    ensures Home(segs, p) == Home(segs, h.top) && p in h.records ==> p == h.top
    ensures h.top !in h.records && Next(h.cs, h.top) !in h.cs && (p in h.records ==> Next(h.cs, p) !in h.cs)
    ensures p != h.top && p !in h.records ==> Next(h.cs, p) in h.cs
  {
    assert PlacedOK(h, 0, p) && PlacedOK(h, 0, h.top);
    if Home(segs, p) == Home(segs, h.top) && p in h.records {
      LastOf(h, segs, p, h.top);
      LastOf(h, segs, h.top, p);
    }
  }

  lemma Prepend(h: Heap, segs: seq<Segment>, i: nat, r: Segment)
    requires HeapOK(h) && SegmentsOK(h, segs) && Fresh(segs, r) && i < |segs| && End(r) == segs[i].base
    requires r.base !in h.cs && Clear(h.cs, r.base - 1, End(r))
    ensures var after := Grown(segs, i, r.base, segs[i].size + r.size);
            SegmentsOK(Opened(h, r.base, r.size), after) && ExecKept(segs, after)
  {
    hide Home, PlacedOK, LoneOK;
    var after := Grown(segs, i, r.base, segs[i].size + r.size);
    GrownApart(segs, i, r, r.base);
    HomeBase(h, segs, i);
    var g := Opened(h, r.base, r.size);
    forall p {:trigger InSegment(g, after, p)} | p in g.cs ensures InSegment(g, after, p) {
      if p != r.base {
        assert InSegment(h, segs, p) && ChunkOK(h.cs, p);
        assert Next(g.cs, p) == Next(h.cs, p) != r.base;
      } else {
        assert Home(after, p) == i && Home(after, End(r)) == i;
      }
    }
  }

  lemma Push(h: Heap, segs: seq<Segment>, r: Segment)
    requires HeapOK(h) && SegmentsOK(h, segs) && Fresh(segs, r) && r.size > TOP_FOOT_SIZE
    requires h.top != 0 && HasRoom(h, r.base, r.size - TOP_FOOT_SIZE) && h.top in h.cs
    ensures SegmentsOK(NewTop(h, r.base, r.size - TOP_FOOT_SIZE), [r] + segs) && ExecKept(segs, [r] + segs)
  {
    hide Home, PlacedOK, LoneOK, HasRoom, WithRecord, Added, InSegment, HeapX;
    var after, n := [r] + segs, r.size - TOP_FOOT_SIZE;
    PushedApart(segs, r);
    var g := NewTop(h, r.base, n);
    NewTopView(h, r.base, n);
    forall p {:trigger InSegment(g, after, p)} | p in g.cs ensures InSegment(g, after, p) {
      if p in h.cs && p != h.top {
        PushKeeps(h, segs, r, p);
      } else if p == r.base {
        PushTop(h, segs, r);
      } else {
        PushOldTop(h, segs, r, p);
      }
    }
    assert forall j :: 0 < j < |after| ==> after[j].base == segs[j - 1].base;
  }

  lemma PushTop(h: Heap, segs: seq<Segment>, r: Segment)
    requires HeapOK(h) && SegmentsOK(h, segs) && Fresh(segs, r) && r.size > TOP_FOOT_SIZE
    requires h.top != 0 && HasRoom(h, r.base, r.size - TOP_FOOT_SIZE) && h.top in h.cs
    ensures InSegment(NewTop(h, r.base, r.size - TOP_FOOT_SIZE), [r] + segs, r.base)
  {
    hide Home, PlacedOK, LoneOK, HasRoom, WithRecord, Added;
    PushedApart(segs, r);
    HomeIs([r] + segs, 0, r.base);
    NewTopView(h, r.base, r.size - TOP_FOOT_SIZE);
  }

  // The old top and the record, which may be put over it
  lemma PushOldTop(h: Heap, segs: seq<Segment>, r: Segment, p: Addr)
    requires HeapOK(h) && SegmentsOK(h, segs) && Fresh(segs, r) && r.size > TOP_FOOT_SIZE
    requires h.top != 0 && HasRoom(h, r.base, r.size - TOP_FOOT_SIZE) && h.top in h.cs
    requires p == h.top || p == RecordAt(h)
    ensures InSegment(NewTop(h, r.base, r.size - TOP_FOOT_SIZE), [r] + segs, p)
  {
    hide Home, PlacedOK, LoneOK, HasRoom, WithRecord, Added;
    PushedApart(segs, r);
    NewTopView(h, r.base, r.size - TOP_FOOT_SIZE);
    assert InSegment(h, segs, h.top);
    HomeIs(segs, Home(segs, h.top), RecordAt(h));
  }

  lemma PushKeeps(h: Heap, segs: seq<Segment>, r: Segment, p: Addr)
    requires HeapOK(h) && SegmentsOK(h, segs) && Fresh(segs, r) && r.size > TOP_FOOT_SIZE
    requires h.top != 0 && HasRoom(h, r.base, r.size - TOP_FOOT_SIZE) && h.top in h.cs && p in h.cs && p != h.top
    ensures InSegment(NewTop(h, r.base, r.size - TOP_FOOT_SIZE), [r] + segs, p)
  {
    hide Home, PlacedOK, LoneOK, HasRoom, WithRecord, Added;
    PushedApart(segs, r);
    NewTopView(h, r.base, r.size - TOP_FOOT_SIZE);
    assert InSegment(h, segs, p);
    LastIsTop(h, segs, p);
    NotBefore(h.cs, h.top, p);
  }

  lemma ClearWithin(cs: Chunks, lo: int, hi: int, lo': int, hi': int)
    requires Clear(cs, lo, hi) && lo <= lo' && hi' <= hi
    ensures Clear(cs, lo', hi')
  {
  }

  lemma RoomForTop(h: Heap, segs: seq<Segment>, r: Segment)
    requires HeapOK(h) && SegmentsOK(h, segs) && Fresh(segs, r) && r.size > TOP_FOOT_SIZE && h.top != 0
    ensures HasRoom(h, r.base, r.size - TOP_FOOT_SIZE)
  {
    hide Home, PlacedOK, LoneOK, Clear, Tiled, SegmentsOK, InSegment, SegsApart;
    AllLast(h);
    RegionClear(h, segs, r);
    ClearWithin(h.cs, r.base - 1, End(r), r.base - 1, End(r) - TOP_FOOT_SIZE + 1);
    RoomInFoot(h, segs, r);
  }

  lemma RoomInFoot(h: Heap, segs: seq<Segment>, r: Segment)
    requires HeapOK(h) && SegmentsOK(h, segs) && Fresh(segs, r) && h.top in h.cs
    ensures var foot := h.top + h.topsize;
            && Clear(h.cs, foot, foot + TOP_FOOT_SIZE) && foot + TOP_FOOT_SIZE < WORD64
            && (foot + TOP_FOOT_SIZE <= r.base || End(r) <= h.top)
  {
    hide Home, PlacedOK, LoneOK, Clear;
    AllLast(h);
    assert InSegment(h, segs, h.top) && ChunkOK(h.cs, h.top);
    FootClear(h, segs, h.top);
    assert Disjoint(segs[Home(segs, h.top)], r);
  }

  lemma RoomBehindTop(h: Heap, segs: seq<Segment>, r: Segment)
    requires HeapOK(h) && SegmentsOK(h, segs) && Fresh(segs, r) && h.top in h.cs
    requires Home(segs, h.top) < |segs| && r.base == End(segs[Home(segs, h.top)])
    ensures Clear(h.cs, h.top + h.topsize, h.top + h.topsize + r.size + 1) && h.top + h.topsize + r.size < WORD64
  {
    hide Home, PlacedOK, LoneOK;
    AllLast(h);
    RegionClear(h, segs, r);
    assert InSegment(h, segs, h.top);
    FootClear(h, segs, h.top);
    assert forall q :: q in h.cs ==> ChunkOK(h.cs, q);
  }

  lemma AllLast(h: Heap)
    requires HeapOK(h)
    ensures forall p :: p in h.cs && Next(h.cs, p) !in h.cs ==> p == h.top || p in h.records
    ensures h.top != 0 ==> h.top in h.cs && Next(h.cs, h.top) == h.top + h.topsize && Next(h.cs, h.top) !in h.cs
  {
    assert forall p :: p in h.cs ==> PlacedOK(h, 0, p);
  }

  // ---- Tiling of the segments -----------------------------------------------------------

  // From a segment's base up to the room kept at its end every address is in some chunk.
  lemma {:induction false} Covered(h: Heap, segs: seq<Segment>, i: nat, a: Addr) returns (p: Addr)
    requires HeapOK(h) && SegmentsOK(h, segs) && i < |segs| && segs[i].base <= a && a + TOP_FOOT_SIZE < End(segs[i])
    ensures p in h.cs && p <= a < Next(h.cs, p) && Home(segs, p) == i
  {
    HomeBase(h, segs, i);
    p := segs[i].base;
    while Next(h.cs, p) <= a
      invariant p in h.cs && p <= a && Home(segs, p) == i
      decreases a - p
    {
      assert InSegment(h, segs, p) && ChunkOK(h.cs, p);
      LastIsTop(h, segs, if h.top in h.cs then h.top else p);
      AllLast(h);
      p := Next(h.cs, p);
    }
  }

  // No address is in two chunks.
  lemma OnlyChunk(h: Heap, p: Addr, q: Addr, a: Addr)
    requires HeapOK(h) && p in h.cs && q in h.cs && p <= a < Next(h.cs, p) && q <= a < Next(h.cs, q)
    ensures p == q
  {
    assert Apart(h.cs, p, q) && Apart(h.cs, q, p);
  }
}
