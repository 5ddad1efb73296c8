// The debug checkers of dlmalloc: what they assert of chunks, bins and trees, told in terms of the
// words and links they read, holds in every state between operations.

module Checkers {
  import opened Words
  import opened BinIndex
  import opened BinMap
  import opened Rings
  import opened SmallBins
  import opened TreeBins
  import opened TreeSearch
  import opened HeapState
  import opened HeapGrowth
  import opened HeapSteps
  import opened Segments
  import opened Tags
  import opened Allocator
  import F = Forest
  import C = Chains
  import T = Tiling

  // ---- Chunks ---------------------------------------------------------------------------

  // next_chunk and prev_chunk
  function NextChunk(t: Tags, p: Addr): Addr
    requires p in t.head
  {
    p + ChunkSize(t.head[p])
  }

  function PrevChunk(t: Tags, p: Addr): Addr
    requires p in t.foot
  {
    p - t.foot[p]
  }

  predicate HeadAt(t: Tags, p: Addr) { p in t.head && NextChunk(t, p) in t.head }

  // do_check_inuse_chunk
  predicate InuseChecked(t: Tags, p: Addr) {
    && (p + 16) % 8 == 0 && HeadAt(t, p) && Cinuse(t.head[p]) && Pinuse(t.head[NextChunk(t, p)])
    && (Pinuse(t.head[p]) || (p in t.foot && HeadAt(t, PrevChunk(t, p)) && NextChunk(t, PrevChunk(t, p)) == p))
  }

  // do_check_free_chunk; the links follow below
  predicate FreeChecked(t: Tags, p: Addr) {
    && (p + 16) % 8 == 0 && HeadAt(t, p) && !Cinuse(t.head[p]) && !Pinuse(t.head[NextChunk(t, p)])
    && ChunkSize(t.head[p]) >= MIN_CHUNK_SIZE && Pinuse(t.head[p]) && Cinuse(t.head[NextChunk(t, p)])
    && NextChunk(t, p) in t.foot && t.foot[NextChunk(t, p)] == ChunkSize(t.head[p])
  }

  lemma InuseChecks(h: Heap, t: Tags, segs: seq<Segment>, p: Addr)
    requires Sound(h, t, segs, 0) && p in h.live
    ensures InuseChecked(t, p)
  {
    hide PlacedOK, LoneOK;
    InUse(h, p);
    Read(t, h.cs, p);
    Read(t, h.cs, T.Next(h.cs, p));
    At(h, 0, p);
    if !h.cs[p].pinuse {
      Read(t, h.cs, h.cs[p].prev);
    }
  }

  lemma FreeChecks(h: Heap, t: Tags, segs: seq<Segment>, p: Addr)
    requires Sound(h, t, segs, 0) && p in h.cs && !h.cs[p].cinuse && p != h.top
    ensures FreeChecked(t, p)
  {
    TakeOut(h, p);
    At(h, 0, p);
    Read(t, h.cs, p);
    Read(t, h.cs, T.Next(h.cs, p));
  }

  // do_check_top_chunk, and what do_check_malloc_state asserts of the two special chunks
  lemma TopAndDvChecks(m: MallocState)
    requires m.Valid()
    ensures var top := m.own.top;
            top != 0 ==>
              && top in m.tags.head && ChunkSize(m.tags.head[top]) == m.own.topsize > 0 && Pinuse(m.tags.head[top])
              && Home(m.segs, top) < |m.segs| && m.own.topsize == End(m.segs[Home(m.segs, top)]) - top - TOP_FOOT_SIZE
              && top !in m.small.size && top !in m.tree.tree.size
    ensures var dv := m.own.dv;
            m.own.dvsize != 0 ==>
              && dv in m.tags.head && ChunkSize(m.tags.head[dv]) == m.own.dvsize >= MIN_CHUNK_SIZE
              && dv !in m.small.size && dv !in m.tree.tree.size
  {
    var h, t := m.heap, m.tags;
    if h.top != 0 {
      At(h, 0, h.top);
      AllLastX(h);
      Read(t, h.cs, h.top);
      assert InSegment(h, m.segs, h.top);
    }
    if h.dvsize != 0 {
      DvIs(h, t, m.segs);
      At(h, 0, h.dv);
      Read(t, h.cs, h.dv);
    }
  }

  // do_check_malloced_chunk: at most 31 bytes more than asked for
  lemma MallocedChecks(h: Heap, g: Heap, t: Tags, segs: seq<Segment>, nb: nat, p: Addr)
    requires Sound(g, t, segs, 0) && Allotted(h, g, nb, p)
    ensures InuseChecked(t, p)
    ensures var sz := ChunkSize(t.head[p]); sz % 8 == 0 && MIN_CHUNK_SIZE <= sz && nb <= sz < nb + MIN_CHUNK_SIZE
  {
    InuseChecks(g, t, segs, p);
    At(g, 0, p);
    Read(t, g.cs, p);
  }

  // ---- Trees ----------------------------------------------------------------------------

  // What do_check_tree asserts of the node t alone
  ghost predicate NodeChecked(f: F.Forest, t: Addr) {
    && t in f.size && t in f.index && t in f.parent && F.Slot(t, false) in f.child && F.Slot(t, true) in f.child
    && MIN_LARGE_SIZE <= f.size[t] < WORD64 && f.index[t] == ComputeTreeIndex(f.size[t])
    && MinSize(f.index[t]) <= f.size[t]
    && (f.index[t] == NTREEBINS - 1 || f.size[t] < MinSize(f.index[t] + 1))
  }

  ghost predicate LinkedFrom(f: F.Forest, t: Addr)
    requires t in f.parent
  {
    match f.parent[t]
    case Chained => false
    case AtBin(i) => i < |f.bins| && f.bins[i] == t
    case Under(p) => p != t && exists side :: F.Slot(p, side) in f.child && f.child[F.Slot(p, side)] == t
  }

  ghost predicate ChildChecked(f: F.Forest, t: Addr, side: bool)
    requires F.Slot(t, side) in f.child
  {
    var c := f.child[F.Slot(t, side)];
    c != 0 ==> c != t && c in f.size && c in f.parent && f.parent[c] == F.Under(t)
  }

  lemma NodeChecks(f: F.Forest, c: C.Chains, t: Addr)
    requires F.ForestOK(f) && t in f.depth
    ensures NodeChecked(f, t) && LinkedFrom(f, t) && ChildChecked(f, t, false) && ChildChecked(f, t, true)
    ensures var c0, c1 := f.child[F.Slot(t, false)], f.child[F.Slot(t, true)];
            c0 != 0 && c1 != 0 ==> c0 in f.size && c1 in f.size && f.size[c0] < f.size[c1]
  {
    hide TreeBin, Resolved, Key, F.K;
    assert F.NodeOK(f, t);
    F.Neighbours(f, t);
    ComputeTreeIndexCorrect(f.size[t]);
    TreeBinRange(f.size[t], f.index[t]);
    var c0, c1 := f.child[F.Slot(t, false)], f.child[F.Slot(t, true)];
    if c0 != 0 {
      F.ChildDepth(f, t, false);
    }
    if c1 != 0 {
      F.ChildDepth(f, t, true);
    }
    if c0 != 0 && c1 != 0 {
      F.LeftSmaller(f, c0, c1, t);
    }
  }

  // The links of a binned chunk lead back to it.
  ghost predicate LinksChecked(fd: Links, bk: Links, p: Addr) {
    p in fd && p in bk && fd[p] in bk && bk[p] in fd && bk[fd[p]] == p && fd[bk[p]] == p
  }

  // What it asserts of every chunk u on the ring of t
  lemma RingChecks(f: F.Forest, c: C.Chains, t: Addr, u: Addr)
    requires F.ForestOK(f) && C.ChainsOK(f, c) && t in f.depth && t in c.ring && u in c.ring[t]
    ensures u in f.size && t in f.size && f.size[u] == f.size[t] && u in f.index && t in f.index &&
            f.index[u] == f.index[t]
    ensures LinksChecked(c.fd, c.bk, u)
    ensures u in f.parent && (f.parent[u] == F.Chained <==> u != t)
    ensures u != t ==> F.IsLeaf(f, u)
  {
    assert C.RingOK(c, t) && F.NodeOK(f, t);
    assert c.owner[u] == t;
    C.OwnerSize(f, c, u);
    var k: nat :| k < |c.ring[t]| && c.ring[t][k] == u;
    BackAndForth(c.fd, c.bk, c.ring[t], k);
  }

  lemma BackAndForth(fd: Links, bk: Links, s: seq<Addr>, k: nat)
    requires IsRing(fd, bk, s) && k < |s|
    ensures LinksChecked(fd, bk, s[k]) && bk[s[k]] == Pred(s, k)
  {
    var next := if k + 1 < |s| then k + 1 else 0;
    var prev := if k > 0 then k - 1 else |s| - 1;
    assert fd[s[k]] == s[next] && bk[s[k]] == s[prev];
    assert bk[s[next]] == Pred(s, next) && fd[s[prev]] == Succ(s, prev);
  }

  // ---- Links ----------------------------------------------------------------------------

  // What do_check_smallbin asserts of a chunk of the bin: besides its links, that the chunk in front
  // of it belongs to the same bin, unless that is the bin's header.
  lemma SmallLinks(s: SmallBins, p: Addr)
    requires s.Valid() && p in s.size
    ensures LinksChecked(s.links.fd, s.links.bk, p)
    ensures var i, b := SmallIndex(s.size[p]), s.links.bk[p];
            Marked(s.smallmap, i) && (b == Header(i) || (b in s.size && SmallIndex(s.size[b]) == i))
  {
    hide IsRing;
    var i: Index := SmallIndex(s.size[p]);
    assert BinOK(s.smallmap, s.links, s.size, s.bins, i);
    var k: nat :| k < |s.bins[i]| && s.bins[i][k] == p;
    var r := RingOf(s.bins, i);
    assert r[k + 1] == p;
    BackAndForth(s.links.fd, s.links.bk, r, k + 1);
    assert k > 0 ==> r[k] == s.bins[i][k - 1] && r[k] in s.bins[i];
  }

  // What do_check_free_chunk asserts of the links, and do_check_smallbin of the size in front.
  lemma FreeLinks(m: MallocState, p: Addr)
    requires m.Valid() && IsBinned(m.heap, p)
    ensures p in m.heap.small || p in m.tree.tree.size
    ensures if p in m.heap.small then LinksChecked(m.small.links.fd, m.small.links.bk, p)
            else LinksChecked(m.tree.list.fd, m.tree.list.bk, p)
    ensures p in m.heap.small ==>
              var b, s := m.small.links.bk[p], m.heap.cs[p].size;
              IsSmall(s) && (b == Header(SmallIndex(s)) || (b in m.heap.cs && m.heap.cs[b].size == s))
  {
    hide TagsOK, SegmentsOK, BinsOK, F.ForestOK, C.ChainsOK, MapAgrees;
    At(m.heap, 0, p);
    if p in m.heap.small {
      SmallLinks(m.small, p);
      var b := m.small.links.bk[p];
      if b in m.heap.small {
        At(m.heap, 0, b);
      }
    } else {
      TreeMember(m.tree.tree, m.tree.list, p);
      RingChecks(m.tree.tree, m.tree.list, m.tree.list.owner[p], p);
    }
  }

  lemma TreeMember(f: F.Forest, c: C.Chains, p: Addr)
    requires F.ForestOK(f) && C.ChainsOK(f, c) && p in f.size
    ensures p in c.owner && c.owner[p] in f.depth && c.owner[p] in c.ring && p in c.ring[c.owner[p]]
  {
    C.OwnerSize(f, c, p);
  }

  // ---- Finding a chunk ------------------------------------------------------------------

  // bin_find: by links alone, whether the chunk is in the bin for its size.
  method BinFind(m: MallocState, x: Addr) returns (found: bool)
    requires m.Valid() && x in m.heap.cs
    ensures found <==> IsBinned(m.heap, x)
  {
    hide HeapX, TagsOK, SegmentsOK, BinsOK, F.ForestOK, C.ChainsOK, MapAgrees;
    SizeIs(m, x);
    var size := ChunkSize(m.tags.head[x]);
    if IsSmall(size) {
      found := FindSmall(m.small, x, SmallIndex(size));
    } else {
      found := FindLarge(m.tree, x, size);
    }
  }

  lemma SizeIs(m: MallocState, x: Addr)
    requires m.Valid() && x in m.heap.cs
    ensures x > 0 && x in m.tags.head && ChunkSize(m.tags.head[x]) == m.heap.cs[x].size < WORD64
    ensures x in m.heap.small ==>
              m.heap.small[x] == m.heap.cs[x].size && IsSmall(m.heap.cs[x].size) && x !in m.heap.tree
    ensures x in m.heap.tree ==> m.heap.tree[x] == m.heap.cs[x].size && !IsSmall(m.heap.cs[x].size)
    ensures x in m.heap.small <==> x in m.small.size
    ensures x in m.heap.tree <==> x in m.tree.tree.size
  {
    At(m.heap, 0, x);
    Read(m.tags, m.heap.cs, x);
  }

  method FindSmall(s: SmallBins, x: Addr, i: Index) returns (found: bool)
    requires s.Valid() && x > 0 && (x in s.size ==> SmallIndex(s.size[x]) == i)
    ensures found <==> x in s.size
  {
    hide IsRing, Distinct, Forward, Backward;
    assert BinOK(s.smallmap, s.links, s.size, s.bins, i);
    found := false;
    if Marked(s.smallmap, i) {
      ghost var r := RingOf(s.bins, i);
      RingMember(s.bins, i);
      ghost var k := 0;
      var p := Header(i);
      while true
        invariant 0 <= k < |r| && p == r[k] && x !in r[..k]
        decreases |r| - k
      {
        if p == x {
          return true;
        }
        RingStep(s.links.fd, s.links.bk, r, k);
        p := s.links.fd[p];
        k := k + 1;
        if p == Header(i) {
          break;
        }
      }
    }
  }

  // One step along a ring: to the next node, or at its end back to the first.
  lemma RingStep(fd: Links, bk: Links, s: seq<Addr>, k: nat)
    requires IsRing(fd, bk, s) && k < |s|
    ensures s[k] in fd && fd[s[k]] == Succ(s, k)
    ensures fd[s[k]] == s[0] <==> k + 1 == |s|
  {
  }

  method FindLarge(b: TreeBins, x: Addr, s: SizeT) returns (found: bool)
    requires b.Valid() && s >= MIN_LARGE_SIZE && (x in b.tree.size ==> b.tree.size[x] == s)
    ensures found <==> x in b.tree.size
  {
    hide TreeBin, Key, F.ForestOK, C.ChainsOK, F.UpOK, F.DownOK, Shl64, F.K, Pow2, F.NodeOfSize, SizesFrom, LeftShift;
    ComputeTreeIndexCorrect(s);
    var i: Index := ComputeTreeIndex(s);
    found := false;
    if Marked(b.treemap, i) {
      var t := b.tree.bins[i];
      PlaceFromRoot(b.tree, s, i);
      var sizebits := Shl64(s, LeftShift(i));
      while t != 0 && b.tree.size[t] != s
        invariant if t == 0 then forall n :: !F.NodeOfSize(b.tree, n, s)
                  else OnPath(b.tree, i, s, t) && SizesFrom(b.tree, s, t) &&
                       sizebits == Shl64(s, LeftShift(i) + b.tree.depth[t])
        decreases t != 0, if t == 0 then 0 else Resolved(i) - b.tree.depth[t]
      {
        WalkStep(b.tree, i, s, t, sizebits);
        t := b.tree.child[F.Slot(t, sizebits / Pow2(63) % 2 == 1)];
        sizebits := Shl64(sizebits, 1);
      }
      NodeOrNone(b.tree, b.list, x, s, t);
      if t != 0 {
        found := FindOnRing(b, x, t);
      }
    } else {
      NotInBin(b.tree, b.list, b.treemap, x, s);
    }
  }

  // A chunk is stored exactly if it is on the ring of the node of its size.
  lemma NodeOrNone(f: F.Forest, c: C.Chains, x: Addr, s: nat, t: Addr)
    requires F.ForestOK(f) && C.ChainsOK(f, c) && (x in f.size ==> f.size[x] == s)
    requires if t == 0 then forall n :: !F.NodeOfSize(f, n, s) else F.NodeOfSize(f, t, s)
    ensures t == 0 ==> x !in f.size
    ensures t != 0 ==> t in c.ring && (x in c.ring[t] <==> x in f.size)
  {
    if x in f.size {
      assert C.MemberOK(f, c, x);
      assert F.NodeOfSize(f, c.owner[x], s);
    }
    if t != 0 {
      assert C.RingOK(c, t);
    }
  }

  lemma NotInBin(f: F.Forest, c: C.Chains, m: Word, x: Addr, s: SizeT)
    requires F.ForestOK(f) && C.ChainsOK(f, c) && MapAgrees(f, m) && s >= MIN_LARGE_SIZE
    requires !Marked(m, TreeBin(s)) && (x in f.size ==> f.size[x] == s)
    ensures x !in f.size
  {
    if x in f.size {
      C.OwnerSize(f, c, x);
      F.EmptyBin(f, TreeBin(s), c.owner[x]);
    }
  }

  method FindOnRing(b: TreeBins, x: Addr, t: Addr) returns (found: bool)
    requires b.Valid() && t in b.list.ring
    ensures found <==> x in b.list.ring[t]
  {
    hide F.ForestOK, IsRing, Distinct, Forward, Backward;
    assert C.RingOK(b.list, t);
    ghost var j: nat :| j < |b.list.ring[t]| && b.list.ring[t][j] == t;
    ghost var r := Rotated(b.list.ring[t], j);
    Rotate(b.list.fd, b.list.bk, b.list.ring[t], j);
    RotatedMembers(b.list.ring[t], j);
    ghost var k := 0;
    var u := t;
    found := false;
    while true
      invariant 0 <= k < |r| && u == r[k] && r[0] == t && x !in r[..k]
      decreases |r| - k
    {
      if u == x {
        return true;
      }
      RingStep(b.list.fd, b.list.bk, r, k);
      u := b.list.fd[u];
      k := k + 1;
      if u == t {
        break;
      }
    }
  }

  // What traverse_and_check asserts of the bins: chunks in use are in none, free ones in one unless
  // they are the designated victim, and no two free chunks follow each other.
  lemma TraverseChecks(m: MallocState, p: Addr)
    requires m.Valid() && p in m.heap.cs && p != m.heap.top
    ensures if m.heap.cs[p].cinuse then !IsBinned(m.heap, p)
            else (IsBinned(m.heap, p) || p == m.own.dv) && !(p in m.heap.small && p in m.heap.tree)
    ensures !m.heap.cs[p].cinuse && m.heap.cs[p].prev != 0 ==>
              m.heap.cs[p].prev in m.heap.cs && m.heap.cs[m.heap.cs[p].prev].cinuse
  {
    At(m.heap, 0, p);
  }
}
