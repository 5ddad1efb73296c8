// Where sys_alloc puts a new region: which segment it joins, where the request is cut from, and
// what becomes of the rest and of the old top.

module Regions {
  import opened Words
  import opened Rings
  import opened Tiling
  import opened HeapState
  import opened HeapGrowth
  import opened HeapSteps
  import opened Segments

  // The first segment that ends at a, and the first that starts there; |segs| if none does.
  ghost function EndingAt(segs: seq<Segment>, a: Addr): (i: nat)
    ensures i <= |segs| && (i < |segs| ==> End(segs[i]) == a)
    ensures forall j :: 0 <= j < i ==> End(segs[j]) != a
  {
    if segs == [] || End(segs[0]) == a then 0 else 1 + EndingAt(segs[1..], a)
  }

  ghost function StartingAt(segs: seq<Segment>, a: Addr): (i: nat)
    ensures i <= |segs| && (i < |segs| ==> segs[i].base == a)
    ensures forall j :: 0 <= j < i ==> segs[j].base != a
  {
    if segs == [] || segs[0].base == a then 0 else 1 + StartingAt(segs[1..], a)
  }

  // A region is the first segment, continues the one of top, precedes one, or is one of its own.
  datatype Joint = First | Behind(i: nat) | InFront(j: nat) | Alone

  // Regions are joined only to a segment whose executable alias is as far away as theirs.
  ghost function JointOf(segs: seq<Segment>, top: Addr, r: Segment): (w: Joint)
    ensures w.Behind? ==> w.i < |segs|
    ensures w.InFront? ==> w.j < |segs|
  {
    var i, j := EndingAt(segs, r.base), StartingAt(segs, End(r));
    if top == 0 then First
    else if i < |segs| && segs[i].execOffset == r.execOffset && Holds(segs[i], top) then Behind(i)
    else if j < |segs| && segs[j].execOffset == r.execOffset then InFront(j)
    else Alone
  }

  ghost function SegmentsWith(segs: seq<Segment>, r: Segment, w: Joint): seq<Segment>
    requires (w.Behind? ==> w.i < |segs|) && (w.InFront? ==> w.j < |segs|)
  {
    match w
    case First => [r]
    case Behind(i) => Grown(segs, i, segs[i].base, segs[i].size + r.size)
    case InFront(j) => Grown(segs, j, r.base, segs[j].size + r.size)
    case Alone => [r] + segs
  }

  // The old top got a segment record, and what is left of it is binned.
  ghost predicate Retired(h: Heap, g: Heap) {
    && h.top in h.cs && g.records == h.records + {RecordAt(h)}
    && (RecordAt(h) != h.top ==>
          IsBinned(g, h.top) && h.top in g.cs && g.cs[h.top].size == RecordAt(h) - h.top)
  }

  // The region as top, or part of it, before anything is allocated
  ghost predicate TopGrew(h: Heap, g: Heap, r: Segment, w: Joint) {
    && SameDv(h, g)
    && match w
       case First => g.records == h.records && g.top == r.base && g.topsize == r.size - TOP_FOOT_SIZE
       case Behind(_) => g.records == h.records && g.top == h.top && g.topsize == h.topsize + r.size
       case InFront(_) => false
       case Alone => Retired(h, g) && g.top == r.base && g.topsize == r.size - TOP_FOOT_SIZE
  }

  // A chunk of nb bytes is cut off the grown top, or off the region in front of a segment; then the
  // rest of the region joins what was first there.
  ghost predicate CutFrom(h: Heap, g: Heap, r: Segment, w: Joint, nb: nat, p: Addr) {
    && p in g.cs && g.cs[p].size == nb
    && match w
       case First => p == r.base && g.records == h.records && SameDv(h, g)
                     && g.top == p + nb && g.topsize == r.size - TOP_FOOT_SIZE - nb
       case Behind(_) => p == h.top && g.records == h.records && SameDv(h, g)
                         && g.top == p + nb && g.topsize == h.topsize + r.size - nb
       case InFront(_) => p == r.base && g.records == h.records && Landed(h, g, p + nb, End(r), h.dv, h.dvsize)
       case Alone => p == r.base && Retired(h, g) && SameDv(h, g)
                     && g.top == p + nb && g.topsize == r.size - TOP_FOOT_SIZE - nb
  }

  // All that a request of nb bytes does with a region from the system
  ghost predicate ServedFrom(h: Heap, segs: seq<Segment>, g: Heap, after: seq<Segment>, r: Segment, nb: nat, p: Addr) {
    var w := JointOf(segs, h.top, r);
    after == SegmentsWith(segs, r, w) && CutFrom(h, g, r, w, nb, p)
  }

  lemma CutGrown(h: Heap, g: Heap, r: Segment, w: Joint, nb: nat)
    requires TopGrew(h, g, r, w) && HeapOK(g) && g.top != 0 && 0 < nb < g.topsize && nb % 8 == 0
    ensures g.top in g.cs && g.cs[g.top].size == g.topsize && CutFrom(h, TopFront(g, nb), r, w, nb, g.top)
  {
    hide PlacedOK, LoneOK, RecordAt;
    SplitTiled(g.cs, g.top, nb, true, false);
    if w.Alone? && RecordAt(h) != h.top {
      BinnedApart(g, h.top);
    }
  }

  lemma BinnedApart(h: Heap, p: Addr)
    requires HeapOK(h) && IsBinned(h, p)
    ensures p in h.cs && p != h.top
  {
    At(h, 0, p);
  }

  // With a new top, the old one is retired once what is left of it is binned.
  lemma RetiredBy(h: Heap, segs: seq<Segment>, r: Segment)
    requires HeapOK(h) && SegmentsOK(h, segs) && Fresh(segs, r) && r.size > TOP_FOOT_SIZE && h.top != 0
    ensures h.top in h.cs
    ensures var g := NewTop(h, r.base, r.size - TOP_FOOT_SIZE);
            if RecordAt(h) == h.top then Retired(h, g) else h.top in g.cs && Retired(h, Binned(g, h.top))
  {
    hide PlacedOK, LoneOK, HasRoom, WithRecord, SegmentsOK, Fresh;
    RoomForTop(h, segs, r);
    NewTopView(h, r.base, r.size - TOP_FOOT_SIZE);
    assert h.top in h.cs && h.cs[h.top].size == h.topsize;
  }

  lemma InHandNotDv(h: Heap, x: Addr)
    requires HeapX(h, x) && x != 0
    ensures h.dv != x
  {
  }
}
