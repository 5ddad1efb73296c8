// The tree bins of a malloc_state: 32 tries of free chunks of at least 256 bytes, searched
// for the best fit, and the bit map of the non-empty ones.

module TreeBins {
  import opened Words
  import opened BinIndex
  import opened BinMap
  import opened Rings
  import opened Forest
  import opened Chains
  import opened TreeSearch

  // tree and list hold the tree-chunk fields of memory, for every chunk now in the bins:
  // tree.size is the size in the head word; entries of chunks that left are stale.
  class TreeBins {
    var treemap: Word
    var tree: Forest
    var list: Chains

    ghost predicate Valid()
      reads this
    {
      ForestOK(tree) && ChainsOK(tree, list) && MapAgrees(tree, treemap)
    }

    constructor ()
      ensures Valid() && tree.size == map[]
    {
      treemap := 0;
      tree := Forest(map[], map[], map[], map[], seq(NTREEBINS, i => 0), map[]);
      list := Chains(map[], map[], map[], map[]);
      new;
      SomeMarked(treemap);
      forall i: Index ensures RootOK(tree, i) {
      }
    }

    // insert_large_chunk
    method InsertLargeChunk(x: Addr, s: SizeT)
      requires Valid() && x != 0 && x !in tree.size && s >= MIN_LARGE_SIZE
      modifies this
      ensures Valid() && tree.size == old(tree.size)[x := s]
    {
      ComputeTreeIndexCorrect(s);
      var i: Index := ComputeTreeIndex(s);
      if !Marked(treemap, i) {
        PlaceRoot(x, s, i);
      } else {
        var t, slot := FindPlace(s, i);
        if tree.size[t] != s {
          PlaceLeaf(x, s, i, t, slot);
        } else {
          PlaceTwin(x, s, i, t);
        }
      }
    }

    // The walk of insert_large_chunk: to the node of size s, or to the empty slot where a
    // node of that size belongs.
    method FindPlace(s: SizeT, i: Index) returns (t: Addr, slot: Slot)
      requires Valid() && s >= MIN_LARGE_SIZE && i == TreeBin(s) && Marked(treemap, i)
      ensures OnPath(tree, i, s, t)
      ensures tree.size[t] != s ==>
                && Unresolved(tree, i, t)
                && slot == Slot(t, PathSide(i, s, tree.depth[t])) && tree.child[slot] == 0
                && forall n :: !NodeOfSize(tree, n, s)
    {
      hide TreeBin, Key, ForestOK, ChainsOK, UpOK, DownOK, Shl64, K, Pow2, NodeOfSize, SizesFrom, LeftShift;
      t := tree.bins[i];
      PlaceFromRoot(tree, s, i);
      var k := Shl64(s, LeftShift(i));
      slot := Slot(t, false);
      while tree.size[t] != s
        invariant OnPath(tree, i, s, t) && SizesFrom(tree, s, t)
        invariant k == Shl64(s, LeftShift(i) + tree.depth[t])
        decreases Resolved(i) - tree.depth[t]
      {
        WalkStep(tree, i, s, t, k);
        slot := Slot(t, k / Pow2(63) % 2 == 1);
        k := Shl64(k, 1);
        if tree.child[slot] == 0 {
          break;
        }
        t := tree.child[slot];
      }
    }

    method PlaceRoot(x: Addr, s: SizeT, i: Index)
      requires Valid() && x != 0 && x !in tree.size && s >= MIN_LARGE_SIZE
      requires i == TreeBin(s) && !Marked(treemap, i)
      modifies this
      ensures Valid() && tree.size == old(tree.size)[x := s]
    {
      hide TreeBin, Key, Resolved, ChainsOK, NodeOK, RootOK, Has;
      PlacedRoot(tree, list, x, s);
      treemap := Mark(treemap, i);
      tree := tree.(
        size := tree.size[x := s], index := tree.index[x := i],
        child := tree.child[Slot(x, false) := 0][Slot(x, true) := 0],
        bins := tree.bins[i := x], parent := tree.parent[x := AtBin(i)], depth := tree.depth[x := 0]);
      list := Chains(list.fd[x := x], list.bk[x := x], list.ring[x := [x]], list.owner[x := x]);
    }

    method PlaceLeaf(x: Addr, s: SizeT, i: Index, t: Addr, slot: Slot)
      requires Valid() && x != 0 && x !in tree.size && s >= MIN_LARGE_SIZE && i == TreeBin(s)
      requires OnPath(tree, i, s, t) && Unresolved(tree, i, t)
      requires slot == Slot(t, PathSide(i, s, tree.depth[t])) && tree.child[slot] == 0
      requires forall n :: !NodeOfSize(tree, n, s)
      modifies this
      ensures Valid() && tree.size == old(tree.size)[x := s]
    {
      hide TreeBin, Key, Resolved, ForestOK, ChainsOK, Stored, NodeOfSize, OnPath, PathSide, Marked;
      PlacedLeaf(tree, list, x, s, t);
      tree := tree.(
        size := tree.size[x := s], index := tree.index[x := i],
        child := tree.child[Slot(x, false) := 0][Slot(x, true) := 0][slot := x],
        parent := tree.parent[x := Under(t)], depth := tree.depth[x := tree.depth[t] + 1]);
      list := Chains(list.fd[x := x], list.bk[x := x], list.ring[x := [x]], list.owner[x := x]);
    }

    method PlaceTwin(x: Addr, s: SizeT, i: Index, t: Addr)
      requires Valid() && x != 0 && x !in tree.size && s >= MIN_LARGE_SIZE && i == TreeBin(s)
      requires OnPath(tree, i, s, t) && tree.size[t] == s
      modifies this
      ensures Valid() && tree.size == old(tree.size)[x := s]
    {
      hide TreeBin, Key, Resolved, ForestOK, ChainsOK, Stored, NodeOfSize, Marked;
      RingAt(tree, list, t);
      ghost var p :| 0 <= p < |list.ring[t]| && list.ring[t][p] == t;
      PlacedTwin(tree, list, x, s, t, p);
      tree := tree.(
        size := tree.size[x := s], index := tree.index[x := i],
        child := tree.child[Slot(x, false) := 0][Slot(x, true) := 0],
        parent := tree.parent[x := Chained]);
      var f := list.fd[t];
      list := list.(fd := list.fd[t := x][x := f], bk := list.bk[f := x][x := t],
                    ring := list.ring[t := [t, x] + Rotated(list.ring[t], p)[1..]],
                    owner := list.owner[x := t]);
    }

    // The search of tmalloc_large: the smallest stored chunk of at least nb bytes, with what
    // it has to spare, or 0 if there is none.
    method FindBest(nb: SizeT) returns (v: Addr, rsize: SizeT)
      requires Valid() && nb >= MIN_LARGE_SIZE
      ensures v == 0 <==> forall x :: x in tree.size ==> tree.size[x] < nb
      ensures v != 0 ==> v in tree.size && tree.size[v] == nb + rsize
      ensures v != 0 ==> forall x :: x in tree.size && tree.size[x] >= nb ==> tree.size[v] <= tree.size[x]
    {
      v, rsize := 0, Sub64(0, nb);
      ComputeTreeIndexCorrect(nb);
      var idx: Index := ComputeTreeIndex(nb);
      var t := tree.bins[idx];
      if t != 0 {
        v, rsize, t := SearchPath(nb, idx);
      } else {
        NoneInBin(tree, nb);
      }
      if t == 0 && v == 0 {
        t := NextRoot(nb, idx, rsize);
      }
      v, rsize := SearchLeft(nb, t, v, rsize);
      BestOfAll(tree, list, nb, v, rsize);
    }

    // The walk down the path of nb in its bin: the best fit on the path, and the deepest
    // subtree hanging off the path to the right.
    method SearchPath(nb: SizeT, idx: Index) returns (v: Addr, rsize: SizeT, t: Addr)
      requires Valid() && nb >= MIN_LARGE_SIZE && idx == TreeBin(nb) && tree.bins[idx] != 0
      ensures Candidate(tree, nb, v, rsize)
      ensures t != 0 ==> NodeOK(tree, t) && (rsize == 0 || AllFit(tree, nb, t))
      ensures if v == 0 && t == 0 then NoFitUpTo(tree, nb, idx) else Covers(tree, nb, rsize, t)
    {
      hide TreeBin, Key, ForestOK, ChainsOK, UpOK, DownOK, Shl64, K, Pow2, PathCovers, Covers, AllFit, NoFitUpTo,
           OffPath, LeftShift, Sub64;
      t := tree.bins[idx];
      RootOnPath(tree, nb);
      v, rsize := 0, Sub64(0, nb);
      StartSearch(tree, nb);
      var sizebits := Shl64(nb, LeftShift(idx));
      var rst := 0;
      while true
        invariant OnPath(tree, idx, nb, t) && OffPath(tree, idx, nb, t, rst) && rsize > 0
        invariant Candidate(tree, nb, v, rsize) && (v != 0 ==> tree.index[v] == idx)
        invariant PathCovers(tree, idx, nb, rsize, t, rst)
        invariant sizebits == Shl64(nb, LeftShift(idx) + tree.depth[t])
        decreases Resolved(idx) - tree.depth[t]
      {
        var trem := Sub64(tree.size[t], nb);
        Remainder(tree, nb, v, rsize, t);
        PathCoversLess(tree, idx, nb, rsize, t, rst);
        if trem < rsize {
          v := t;
          rsize := trem;
          if rsize == 0 {
            NothingBetter(tree, nb, t);
            break;
          }
        }
        SearchStep(tree, idx, nb, rsize, t, rst, sizebits);
        var rt := tree.child[Slot(t, true)];
        t := tree.child[Slot(t, sizebits / Pow2(63) % 2 == 1)];
        if rt != 0 && rt != t {
          rst := rt;
        }
        if t == 0 {
          t := rst;
          SearchEnd(tree, nb, v, rsize, rst);
          break;
        }
        sizebits := Shl64(sizebits, 1);
      }
    }

    // The root of the next non-empty bin above idx, or 0.
    method NextRoot(nb: SizeT, idx: Index, ghost rsize: nat) returns (t: Addr)
      requires Valid() && nb >= MIN_LARGE_SIZE && idx == TreeBin(nb) && NoFitUpTo(tree, nb, idx)
      ensures t != 0 ==> NodeOK(tree, t) && AllFit(tree, nb, t)
      ensures Covers(tree, nb, rsize, t)
    {
      t := 0;
      NextMarked(treemap, idx);
      var leftbits := Above(treemap, idx);
      if leftbits != 0 {
        var i := FirstMarked(leftbits);
        t := tree.bins[i];
        EnterNextBin(tree, treemap, nb, rsize, idx, i);
      } else {
        NoNextBin(tree, treemap, nb, idx);
      }
    }

    // Down the leftmost path from t: the smallest size of a subtree is on it.
    method SearchLeft(nb: SizeT, t0: Addr, v0: Addr, rsize0: SizeT) returns (v: Addr, rsize: SizeT)
      requires Valid() && nb > 0 && Candidate(tree, nb, v0, rsize0) && Covers(tree, nb, rsize0, t0)
      requires t0 != 0 ==> NodeOK(tree, t0) && (rsize0 == 0 || AllFit(tree, nb, t0))
      ensures Candidate(tree, nb, v, rsize) && Covers(tree, nb, rsize, 0)
    {
      hide TreeBin, Key, ForestOK, ChainsOK, UpOK, DownOK, K, Marked, Covers, AllFit;
      var t := t0;
      v, rsize := v0, rsize0;
      while t != 0
        invariant t != 0 ==> NodeOK(tree, t) && (rsize == 0 || AllFit(tree, nb, t))
        invariant Candidate(tree, nb, v, rsize) && Covers(tree, nb, rsize, t)
        decreases if t == 0 then 0 else Resolved(tree.index[t]) - tree.depth[t] + 1
      {
        var trem := Sub64(tree.size[t], nb);
        Remainder(tree, nb, v, rsize, t);
        FitsHere(tree, nb, rsize, t);
        CoversLess(tree, nb, rsize, t);
        if trem < rsize {
          rsize := trem;
          v := t;
        }
        LeftStep(tree, nb, rsize, t);
        t := LeftmostChild(tree, t);
      }
    }

    // The search of tmalloc_small: the smallest chunk of all, which a small request fits.
    method FindSmallest(nb: SizeT) returns (v: Addr, rsize: SizeT)
      requires Valid() && nb < MIN_LARGE_SIZE && treemap != 0
      ensures v in tree.size && tree.size[v] == nb + rsize
      ensures forall x :: x in tree.size ==> tree.size[v] <= tree.size[x]
    {
      hide TreeBin, Key, ForestOK, ChainsOK, UpOK, DownOK, K, Covers, Has, Sub64;
      var i := FirstMarked(treemap);
      var t := tree.bins[i];
      EnterFirstBin(tree, treemap, nb, i);
      AmpleSize(tree, nb, t);
      v, rsize := t, Sub64(tree.size[t], nb);
      CoversLess(tree, nb, WORD64, t);
      LeftStep(tree, nb, rsize, t);
      t := LeftmostChild(tree, t);
      while t != 0
        invariant t != 0 ==> NodeOK(tree, t)
        invariant NodeOK(tree, v) && tree.size[v] == nb + rsize && Covers(tree, nb, rsize, t)
        decreases if t == 0 then 0 else Resolved(tree.index[t]) - tree.depth[t] + 1
      {
        AmpleSize(tree, nb, t);
        var trem := Sub64(tree.size[t], nb);
        CoversLess(tree, nb, rsize, t);
        if trem < rsize {
          rsize := trem;
          v := t;
        }
        LeftStep(tree, nb, rsize, t);
        t := LeftmostChild(tree, t);
      }
      SmallestOfAll(tree, list, nb, v, rsize);
    }

    // unlink_large_chunk
    method UnlinkLargeChunk(x: Addr)
      requires Valid() && x in tree.size
      modifies this
      ensures Valid() && tree.size == old(tree.size) - {x}
    {
      hide TreeBin, Key, Resolved, ForestOK, UpOK, DownOK, IsRing, Relinked, Replaced, LeafDetached, Removed;
      ghost var f, c := tree, list;
      OwnerSize(tree, list, x);
      ghost var t := list.owner[x];
      ghost var k :| 0 <= k < |list.ring[t]| && list.ring[t][k] == x;
      RingEnds(list, t, k);
      var xp := tree.parent[x];
      var r := 0;
      if list.bk[x] != x {
        var n := list.fd[x];
        r := list.bk[x];
        list := list.(fd := list.fd[r := n], bk := list.bk[n := r]);
        if xp != Chained {
          TwinCanReplace(f, c, x, r);
          Relink(x, xp, r);
          UnlinkedHead(f, c, x, k, r);
          list := list.(ring := WithoutTwin(c, x, x, k, r).ring, owner := WithoutTwin(c, x, x, k, r).owner);
        } else {
          UnlinkedTwin(f, c, x, t, k);
          list := list.(ring := WithoutTwin(c, x, t, k, t).ring, owner := WithoutTwin(c, x, t, k, t).owner);
        }
      } else {
        AloneIsNode(f, c, x, t, k);
        r := DetachRightmost(x);
        if r != 0 {
          LeafCanReplace(f, x, r);
          UnlinkedInner(f, c, x, r);
        } else {
          UnlinkedLeaf(f, c, x);
        }
        Relink(x, xp, r);
        list := list.(ring := c.ring - {x}, owner := c.owner - {x});
      }
      tree := Forgotten(tree, x);
    }

    // The node that replaces x, its rightmost descendant, cut from the tree; 0 for a leaf.
    method DetachRightmost(x: Addr) returns (r: Addr)
      requires Valid() && x in tree.depth
      modifies this`tree
      ensures tree.size == old(tree).size
      ensures r == 0 ==> tree == old(tree) && IsLeaf(tree, x)
      ensures r != 0 ==> var f := old(tree);
                         NodeOK(f, r) && Within(f, r, x) && r != x && IsLeaf(f, r) && tree == LeafDetached(f, r)
    {
      hide TreeBin, Key, Resolved, ForestOK, ChainsOK, UpOK, DownOK, Within, K;
      ghost var f := tree;
      NodeOf(tree, x);
      var rp := Slot(x, true);
      r := tree.child[rp];
      if r == 0 {
        rp := Slot(x, false);
        r := tree.child[rp];
      }
      if r != 0 {
        DescendToChild(tree, x, x, rp.side);
        while true
          invariant tree == f && NodeOK(f, x)
          invariant NodeOK(tree, r) && Within(tree, r, x) && r != x && tree.depth[r] > tree.depth[x]
          invariant NodeOK(tree, rp.node) && tree.child[rp] == r
          invariant tree.depth[r] <= Resolved(tree.index[x])
          decreases Resolved(tree.index[x]) - tree.depth[r]
        {
          var cp := Slot(r, true);
          if tree.child[cp] == 0 {
            cp := Slot(r, false);
          }
          if tree.child[cp] == 0 {
            break;
          }
          DescendToChild(tree, x, r, cp.side);
          rp := cp;
          r := tree.child[cp];
        }
        CutSlot(tree, r, rp);
        tree := tree.(child := tree.child[rp := 0], depth := tree.depth - {r});
      }
    }

    // The last part of unlink_large_chunk: r, or nothing, takes the place of the node x.
    method Relink(x: Addr, xp: Parent, r: Addr)
      requires ForestOK(tree) && MapAgrees(tree, treemap) && NodeOK(tree, x) && tree.parent[x] == xp
      requires if r == 0 then IsLeaf(tree, x) else CanReplace(tree, x, r)
      modifies this`tree, this`treemap
      ensures tree == if r == 0 then LeafDetached(old(tree), x) else Replaced(old(tree), x, r)
      ensures MapAgrees(tree, treemap) && tree.size == old(tree).size
    {
      hide TreeBin, Key, Resolved, ForestOK, UpOK, DownOK, K;
      ghost var f := tree;
      RootSlot(tree, x);
      var h := tree.index[x];
      if tree.bins[h] == x {
        tree := tree.(bins := tree.bins[h := r]);
        if r == 0 {
          treemap := Clear(treemap, h);
        }
      } else {
        var p := xp.node;
        if tree.child[Slot(p, false)] == x {
          tree := tree.(child := tree.child[Slot(p, false) := r]);
        } else {
          tree := tree.(child := tree.child[Slot(p, true) := r]);
        }
      }
      assert tree == Relinked(f, x, r);
      if r != 0 {
        RelinkedChildren(f, x, r);
        tree := tree.(parent := tree.parent[r := xp]);
        var c0 := tree.child[Slot(x, false)];
        if c0 != 0 {
          tree := tree.(child := tree.child[Slot(r, false) := c0], parent := tree.parent[c0 := Under(r)]);
        }
        var c1 := tree.child[Slot(x, true)];
        if c1 != 0 {
          tree := tree.(child := tree.child[Slot(r, true) := c1], parent := tree.parent[c1 := Under(r)]);
        }
        tree := tree.(depth := (f.depth - {x})[r := f.depth[x]]);
      } else {
        tree := tree.(depth := f.depth - {x});
      }
    }
  }

  // t has size bits left to branch on.
  ghost predicate Unresolved(f: Forest, i: Index, t: Addr) {
    t in f.depth && f.depth[t] < Resolved(i)
  }

  lemma UnresolvedBits(f: Forest, i: Index, s: nat, t: Addr)
    requires OnPath(f, i, s, t) && f.size[t] != s
    ensures f.depth[t] < Resolved(i)
  {
    if f.depth[t] == Resolved(i) {
      KeyFull(i, s);
      KeyFull(i, f.size[t]);
    }
  }

  // Any node of size s lies no higher than t.
  ghost predicate SizesFrom(f: Forest, s: nat, t: Addr) {
    t in f.depth && forall n :: NodeOfSize(f, n, s) ==> f.depth[n] >= f.depth[t]
  }

  lemma PlaceFromRoot(f: Forest, s: SizeT, i: Index)
    requires ForestOK(f) && s >= MIN_LARGE_SIZE && i == TreeBin(s) && f.bins[i] != 0
    ensures OnPath(f, i, s, f.bins[i]) && SizesFrom(f, s, f.bins[i]) && f.depth[f.bins[i]] == 0
  {
    hide TreeBin, Key;
    RootOnPath(f, s);
  }

  lemma SizesBelow(f: Forest, i: Index, s: nat, t: Addr)
    requires ForestOK(f) && OnPath(f, i, s, t) && f.size[t] != s && i == TreeBin(s)
    requires SizesFrom(f, s, t)
    ensures forall n :: NodeOfSize(f, n, s) ==> f.depth[n] >= f.depth[t] + 1
  {
    hide TreeBin, Resolved, Key;
    forall n | NodeOfSize(f, n, s) ensures f.depth[n] >= f.depth[t] + 1 {
      assert NodeOK(f, n);
      if f.depth[n] == f.depth[t] {
        SamePlace(f, n, t);
      }
    }
  }

  // One step of the walk: the sign bit of k chooses the child on the path of s, and where
  // there is none, no node has size s.
  lemma WalkStep(f: Forest, i: Index, s: SizeT, t: Addr, k: SizeT)
    requires ForestOK(f) && OnPath(f, i, s, t) && SizesFrom(f, s, t)
    requires f.size[t] != s && s >= MIN_LARGE_SIZE && i == TreeBin(s)
    requires k == Shl64(s, LeftShift(i) + f.depth[t])
    ensures Unresolved(f, i, t) && (k / Pow2(63) % 2 == 1) == PathSide(i, s, f.depth[t])
    ensures Shl64(k, 1) == Shl64(s, LeftShift(i) + f.depth[t] + 1)
    ensures Slot(t, PathSide(i, s, f.depth[t])) in f.child
    ensures var c := f.child[Slot(t, PathSide(i, s, f.depth[t]))];
            if c == 0 then forall n :: !NodeOfSize(f, n, s)
            else OnPath(f, i, s, c) && f.depth[c] == f.depth[t] + 1 && SizesFrom(f, s, c)
  {
    hide TreeBin, Resolved, Key, Shl64;
    UnresolvedBits(f, i, s, t);
    WalkBit(s, i, f.depth[t]);
    ShiftOnce(s, LeftShift(i) + f.depth[t]);
    PathChild(f, i, s, t);
    SizesBelow(f, i, s, t);
    if f.child[Slot(t, PathSide(i, s, f.depth[t]))] == 0 {
      NoSuchSize(f, t, s);
    }
  }

  lemma RingAt(f: Forest, c: Chains, t: Addr)
    requires ChainsOK(f, c) && t in f.depth
    ensures t in c.ring && t in c.ring[t] && t in c.fd && t in c.bk
  {
    assert RingOK(c, t);
  }

  lemma FreshChunk(f: Forest, x: Addr, s: SizeT)
    requires ForestOK(f) && x != 0 && x !in f.size && s >= MIN_LARGE_SIZE
    ensures Fresh(f, x, s)
  {
    forall t | t in f.depth ensures t in f.size {
      assert NodeOK(f, t);
    }
  }

  lemma PlacedRoot(f: Forest, c: Chains, x: Addr, s: SizeT)
    requires ForestOK(f) && ChainsOK(f, c) && x != 0 && x !in f.size && s >= MIN_LARGE_SIZE
    requires f.bins[TreeBin(s)] == 0
    ensures ForestOK(AsRoot(f, x, s, TreeBin(s))) && ChainsOK(AsRoot(f, x, s, TreeBin(s)), WithAlone(c, x))
  {
    hide TreeBin, ChainsOK;
    FreshChunk(f, x, s);
    RootInserted(f, x, s);
    GrownTree(f, AsRoot(f, x, s, TreeBin(s)), c, x);
  }

  lemma PlacedLeaf(f: Forest, c: Chains, x: Addr, s: SizeT, t: Addr)
    requires ForestOK(f) && ChainsOK(f, c) && x != 0 && x !in f.size && s >= MIN_LARGE_SIZE
    requires OnPath(f, TreeBin(s), s, t) && Unresolved(f, TreeBin(s), t)
    requires f.child[Slot(t, PathSide(TreeBin(s), s, f.depth[t]))] == 0
    requires forall n :: !NodeOfSize(f, n, s)
    ensures var g := AsLeaf(f, x, s, TreeBin(s), t, PathSide(TreeBin(s), s, f.depth[t]));
            ForestOK(g) && ChainsOK(g, WithAlone(c, x))
  {
    hide TreeBin, ForestOK, ChainsOK, Key, Resolved;
    FreshChunk(f, x, s);
    LeafInserted(f, x, s, t);
    GrownTree(f, AsLeaf(f, x, s, TreeBin(s), t, PathSide(TreeBin(s), s, f.depth[t])), c, x);
  }

  lemma PlacedTwin(f: Forest, c: Chains, x: Addr, s: SizeT, t: Addr, p: nat)
    requires ForestOK(f) && ChainsOK(f, c) && x != 0 && x !in f.size && s >= MIN_LARGE_SIZE
    requires OnPath(f, TreeBin(s), s, t) && f.size[t] == s
    requires t in c.ring && p < |c.ring[t]| && c.ring[t][p] == t && t in c.fd
    ensures var g := AsTwin(f, x, s, TreeBin(s));
            ForestOK(g) && ChainsOK(g, WithTwin(c, x, t, p))
  {
    hide TreeBin, ForestOK, ChainsOK;
    FreshChunk(f, x, s);
    TwinInserted(f, x, s);
    TwinLinked(f, AsTwin(f, x, s, TreeBin(s)), x, s);
    TwinAdded(f, AsTwin(f, x, s, TreeBin(s)), c, x, t, p);
  }

  // An insertion that makes x a tree node leaves the other stored chunks as they were.
  lemma GrownTree(f: Forest, g: Forest, c: Chains, x: Addr)
    requires ForestOK(f) && ForestOK(g) && ChainsOK(f, c)
    requires x !in f.size && x !in f.depth && g.size.Keys == f.size.Keys + {x} && g.depth.Keys == f.depth.Keys + {x}
    requires forall y :: y in f.size ==> g.size[y] == f.size[y]
    requires forall y :: y in f.index && y != x ==> y in g.index && g.index[y] == f.index[y]
    requires forall y :: y in f.parent && y != x ==> y in g.parent && g.parent[y] == f.parent[y]
    requires forall sl :: sl in f.child && sl.node !in g.depth ==> sl in g.child && g.child[sl] == f.child[sl]
    requires forall sl :: sl in f.child ==> sl in g.child
    ensures ChainsOK(g, WithAlone(c, x))
  {
    hide TreeBin, ForestOK;
    assert NodeOK(g, x) by { NodeOf(g, x); }
    AloneAdded(f, g, c, x);
  }

  lemma NodeOf(g: Forest, x: Addr)
    requires ForestOK(g) && x in g.depth
    ensures NodeOK(g, x)
  {
  }

  lemma TwinLinked(f: Forest, g: Forest, x: Addr, s: SizeT)
    requires Fresh(f, x, s) && g == AsTwin(f, x, s, TreeBin(s))
    ensures TwinGained(f, g, x)
  {
    hide TreeBin;
  }

  // ---- Searching ----------------------------------------------------------------------

  // The best fit seen so far; before there is one, rsize is -nb.
  ghost predicate Candidate(f: Forest, nb: SizeT, v: Addr, rsize: SizeT) {
    if v == 0 then rsize == Sub64(0, nb) else NodeOK(f, v) && f.size[v] == nb + rsize
  }

  lemma StartSearch(f: Forest, nb: SizeT)
    requires nb > 0
    ensures Sub64(0, nb) == WORD64 - nb && Candidate(f, nb, 0, Sub64(0, nb))
    ensures forall i: Index, t :: OffPath(f, i, nb, t, 0)
  {
  }

  ghost predicate OffPath(f: Forest, i: Index, nb: nat, t: Addr, rst: Addr) {
    rst != 0 ==> RightOfPath(f, i, nb, rst) && t in f.depth && f.depth[rst] <= f.depth[t]
  }

  // No chunk that fits lies in a bin up to idx.
  ghost predicate NoFitUpTo(f: Forest, nb: nat, idx: Index) {
    forall n {:trigger Fits(f, nb, n)} :: Fits(f, nb, n) ==> idx < f.index[n]
  }

  // A wrapped remainder never beats the candidate.
  lemma Remainder(f: Forest, nb: SizeT, v: Addr, rsize: SizeT, t: Addr)
    requires Candidate(f, nb, v, rsize) && NodeOK(f, t) && nb > 0
    ensures Sub64(f.size[t], nb) < rsize <==> f.size[t] >= nb && f.size[t] - nb < rsize
    ensures f.size[t] >= nb ==> Sub64(f.size[t], nb) == f.size[t] - nb
  {
    hide UpOK, DownOK, TreeBin, Resolved;
    WrappedRemainder(0, nb);
    WrappedRemainder(f.size[t], nb);
  }

  lemma WrappedRemainder(s: SizeT, nb: SizeT)
    ensures Sub64(s, nb) == if s >= nb then s - nb else WORD64 - (nb - s)
  {
  }

  // Every binned chunk has room for a small request.
  lemma AmpleSize(f: Forest, nb: SizeT, t: Addr)
    requires NodeOK(f, t) && nb < MIN_LARGE_SIZE
    ensures Sub64(f.size[t], nb) == f.size[t] - nb >= 0
  {
    hide UpOK, DownOK, TreeBin, Resolved, Sub64;
    WrappedRemainder(f.size[t], nb);
  }

  lemma PathCoversLess(f: Forest, i: Index, nb: nat, rsize: nat, t: Addr, rst: Addr)
    requires PathCovers(f, i, nb, rsize, t, rst)
    ensures forall r: nat :: r <= rsize ==> PathCovers(f, i, nb, r, t, rst)
  {
  }

  lemma CoversLess(f: Forest, nb: nat, rsize: nat, t: Addr)
    requires Covers(f, nb, rsize, t)
    ensures forall r: nat :: r <= rsize ==> Covers(f, nb, r, t)
  {
  }

  lemma NothingBetter(f: Forest, nb: nat, t: Addr)
    ensures Covers(f, nb, 0, t)
  {
  }

  lemma FitsHere(f: Forest, nb: nat, rsize: nat, t: Addr)
    requires NodeOK(f, t) && (rsize == 0 || AllFit(f, nb, t))
    ensures rsize == 0 || f.size[t] >= nb
  {
    assert Within(f, t, t);
  }

  lemma SearchStep(f: Forest, i: Index, nb: SizeT, rsize: nat, t: Addr, rst: Addr, sizebits: SizeT)
    requires ForestOK(f) && OnPath(f, i, nb, t) && OffPath(f, i, nb, t, rst)
    requires PathCovers(f, i, nb, rsize, t, rst) && i == TreeBin(nb)
    requires rsize > 0 && (f.size[t] >= nb ==> rsize <= f.size[t] - nb)
    requires sizebits == Shl64(nb, LeftShift(i) + f.depth[t])
    ensures Slot(t, true) in f.child && Slot(t, sizebits / Pow2(63) % 2 == 1) in f.child
    ensures var r := f.child[Slot(t, true)];
            var c := f.child[Slot(t, sizebits / Pow2(63) % 2 == 1)];
            var rst' := if r != 0 && r != c then r else rst;
            && PathCovers(f, i, nb, rsize, c, rst')
            && (rst' != 0 ==> RightOfPath(f, i, nb, rst'))
            && (c != 0 ==> OnPath(f, i, nb, c) && OffPath(f, i, nb, c, rst')
                           && f.depth[c] == f.depth[t] + 1 && f.depth[c] <= Resolved(i)
                           && Shl64(sizebits, 1) == Shl64(nb, LeftShift(i) + f.depth[c]))
  {
    hide TreeBin, Resolved, Key, Shl64, PathCovers, Pow2, LeftShift, ForestOK, UpOK, DownOK;
    UnresolvedBits(f, i, nb, t);
    WalkBit(nb, i, f.depth[t]);
    ShiftOnce(nb, LeftShift(i) + f.depth[t]);
    StepPath(f, i, nb, rsize, t, rst);
    PathChild(f, i, nb, t);
    PathSides(f, i, nb, t);
  }

  lemma PathSides(f: Forest, i: Index, nb: SizeT, t: Addr)
    requires ForestOK(f) && OnPath(f, i, nb, t) && Unresolved(f, i, t)
    ensures var r := f.child[Slot(t, true)];
            r != 0 ==> NodeOK(f, r) && f.depth[r] == f.depth[t] + 1
  {
    hide TreeBin, Resolved, Key;
    if f.child[Slot(t, true)] != 0 {
      ChildDepth(f, t, true);
    }
  }

  lemma SearchEnd(f: Forest, nb: SizeT, v: Addr, rsize: SizeT, rst: Addr)
    requires ForestOK(f) && nb >= MIN_LARGE_SIZE && PathCovers(f, TreeBin(nb), nb, rsize, 0, rst)
    requires Candidate(f, nb, v, rsize) && (v != 0 ==> f.index[v] == TreeBin(nb))
    requires rst != 0 ==> RightOfPath(f, TreeBin(nb), nb, rst)
    ensures rst != 0 ==> NodeOK(f, rst) && AllFit(f, nb, rst)
    ensures if v == 0 && rst == 0 then NoFitUpTo(f, nb, TreeBin(nb)) else Covers(f, nb, rsize, rst)
  {
    hide TreeBin, Resolved, Key, ForestOK, UpOK, DownOK;
    if rst != 0 {
      RightFits(f, TreeBin(nb), nb, rst);
    }
    if v == 0 && rst == 0 {
      forall n {:trigger Fits(f, nb, n)} | Fits(f, nb, n) ensures TreeBin(nb) < f.index[n] {
        if f.index[n] != TreeBin(nb) {
          OtherBins(f, nb, n);
        }
      }
    } else {
      LeavePath(f, nb, rsize, v, rst);
    }
  }

  lemma NoneInBin(f: Forest, nb: SizeT)
    requires ForestOK(f) && nb >= MIN_LARGE_SIZE && f.bins[TreeBin(nb)] == 0
    ensures NoFitUpTo(f, nb, TreeBin(nb))
  {
    hide TreeBin;
    forall n {:trigger Fits(f, nb, n)} | Fits(f, nb, n) ensures TreeBin(nb) < f.index[n] {
      EmptyBin(f, TreeBin(nb), n);
      OtherBins(f, nb, n);
    }
  }

  ghost predicate MapAgrees(f: Forest, m: Word) {
    |f.bins| == NTREEBINS && forall i: Index :: Marked(m, i) <==> f.bins[i] != 0
  }

  lemma EnterNextBin(f: Forest, m: Word, nb: SizeT, rsize: nat, idx: Index, i: Index)
    requires ForestOK(f) && MapAgrees(f, m) && nb >= MIN_LARGE_SIZE && idx == TreeBin(nb)
    requires NoFitUpTo(f, nb, idx) && idx < i && Marked(m, i)
    requires forall j: Index :: idx < j < i ==> !Marked(m, j)
    ensures f.bins[i] != 0 && NodeOK(f, f.bins[i]) && AllFit(f, nb, f.bins[i])
    ensures Covers(f, nb, rsize, f.bins[i])
  {
    hide TreeBin, Marked;
    forall n {:trigger Fits(f, nb, n)} | Fits(f, nb, n) ensures i <= f.index[n] {
      if f.index[n] < i {
        assert !Marked(m, f.index[n]);
        EmptyBin(f, f.index[n], n);
      }
    }
    EnterBin(f, nb, rsize, i);
    forall n {:trigger NodeOK(f, n)} | NodeOK(f, n) && Within(f, n, f.bins[i]) ensures f.size[n] >= nb {
      TreeBinOrders(nb, f.size[n]);
    }
  }

  lemma NoNextBin(f: Forest, m: Word, nb: SizeT, idx: Index)
    requires ForestOK(f) && MapAgrees(f, m) && NoFitUpTo(f, nb, idx)
    requires forall j: Index :: idx < j ==> !Marked(m, j)
    ensures forall rsize: nat :: Covers(f, nb, rsize, 0)
  {
    hide TreeBin, Marked;
    forall n {:trigger Fits(f, nb, n)} ensures !Fits(f, nb, n) {
      if Fits(f, nb, n) {
        EmptyBin(f, f.index[n], n);
      }
    }
  }

  lemma EnterFirstBin(f: Forest, m: Word, nb: SizeT, i: Index)
    requires ForestOK(f) && MapAgrees(f, m) && Marked(m, i) && nb < MIN_LARGE_SIZE
    requires forall j: Index :: j < i ==> !Marked(m, j)
    ensures f.bins[i] != 0 && NodeOK(f, f.bins[i]) && Covers(f, nb, WORD64, f.bins[i])
  {
    hide TreeBin, Marked;
    forall n {:trigger Fits(f, nb, n)} | Fits(f, nb, n) ensures i <= f.index[n] {
      if f.index[n] < i {
        assert !Marked(m, f.index[n]);
        EmptyBin(f, f.index[n], n);
      }
    }
    EnterBin(f, nb, WORD64, i);
  }

  lemma LeftStep(f: Forest, nb: nat, rsize: nat, t: Addr)
    requires ForestOK(f) && NodeOK(f, t) && Covers(f, nb, rsize, t)
    requires rsize == 0 || (f.size[t] >= nb && rsize <= f.size[t] - nb)
    ensures var c := LeftmostChild(f, t);
            && Covers(f, nb, rsize, c)
            && (c != 0 ==> NodeOK(f, c) && f.depth[c] == f.depth[t] + 1 && f.index[c] == f.index[t])
            && (c != 0 && AllFit(f, nb, t) ==> AllFit(f, nb, c))
  {
    hide TreeBin, Key, Resolved, ForestOK, UpOK, DownOK, Covers, AllFit;
    StepLeft(f, nb, rsize, t);
    if LeftmostChild(f, t) != 0 {
      LeftmostDeeper(f, nb, t);
    }
  }

  // What holds of the tree nodes holds of every stored chunk.
  lemma BestOfAll(f: Forest, c: Chains, nb: SizeT, v: Addr, rsize: SizeT)
    requires ForestOK(f) && ChainsOK(f, c) && nb > 0
    requires Candidate(f, nb, v, rsize) && Covers(f, nb, rsize, 0)
    ensures v == 0 <==> forall x :: x in f.size ==> f.size[x] < nb
    ensures v != 0 ==> v in f.size && f.size[v] == nb + rsize
    ensures v != 0 ==> forall x :: x in f.size && f.size[x] >= nb ==> f.size[v] <= f.size[x]
  {
    hide TreeBin, Key, Resolved, ForestOK, ChainsOK, UpOK, DownOK, IsRing;
    forall x | x in f.size && f.size[x] >= nb ensures v != 0 && f.size[v] <= f.size[x] {
      OwnerSize(f, c, x);
      assert Fits(f, nb, c.owner[x]);
    }
  }

  lemma SmallestOfAll(f: Forest, c: Chains, nb: SizeT, v: Addr, rsize: SizeT)
    requires ForestOK(f) && ChainsOK(f, c) && nb < MIN_LARGE_SIZE
    requires NodeOK(f, v) && f.size[v] == nb + rsize && Covers(f, nb, rsize, 0)
    ensures v in f.size && forall x :: x in f.size ==> f.size[v] <= f.size[x]
  {
    hide TreeBin, Key, Resolved, ForestOK, ChainsOK, UpOK, DownOK, IsRing;
    forall x | x in f.size ensures f.size[v] <= f.size[x] {
      OwnerSize(f, c, x);
      assert Fits(f, nb, c.owner[x]);
    }
  }

  // With no bin marked there is no chunk.
  lemma NoneMarked(f: Forest, c: Chains, m: Word)
    requires ForestOK(f) && ChainsOK(f, c) && MapAgrees(f, m) && m == 0
    ensures f.size == map[]
  {
    hide TreeBin, Key, Resolved, ForestOK, ChainsOK, Marked, IsRing;
    SomeMarked(m);
    forall x | x in f.size ensures false {
      OwnerSize(f, c, x);
      var n := c.owner[x];
      assert !Marked(m, f.index[n]);
      EmptyBin(f, f.index[n], n);
    }
  }

  // ---- Unlinking ----------------------------------------------------------------------

  lemma RingEnds(c: Chains, t: Addr, k: nat)
    requires RingOK(c, t) && k < |c.ring[t]|
    ensures c.ring[t][k] in c.fd && c.ring[t][k] in c.bk
    ensures c.bk[c.ring[t][k]] == c.ring[t][k] <==> |c.ring[t]| == 1
    ensures c.bk[c.ring[t][k]] in c.ring[t]
  {
    RingAlone(c.fd, c.bk, c.ring[t], k);
  }

  lemma AloneIsNode(f: Forest, c: Chains, x: Addr, t: Addr, k: nat)
    requires RingOK(c, t) && k < |c.ring[t]| && c.ring[t][k] == x && |c.ring[t]| == 1
    ensures x == t && c.ring[x] == [x]
  {
    hide IsRing;
  }

  lemma DescendToChild(f: Forest, x: Addr, t: Addr, side: bool)
    requires ForestOK(f) && NodeOK(f, x) && NodeOK(f, t) && (t == x || Within(f, t, x))
    requires Slot(t, side) in f.child && f.child[Slot(t, side)] != 0
    requires f.depth[x] <= f.depth[t]
    ensures var c := f.child[Slot(t, side)];
            && NodeOK(f, c) && Within(f, c, x) && c != x && f.depth[c] == f.depth[t] + 1
            && f.depth[c] <= Resolved(f.index[x])
  {
    hide TreeBin, Key, Resolved;
    ChildDepth(f, t, side);
    assert Within(f, t, x);
    WithinTrans(f, f.child[Slot(t, side)], t, x);
  }

  lemma CutSlot(f: Forest, r: Addr, rp: Slot)
    requires ForestOK(f) && NodeOK(f, r) && NodeOK(f, rp.node) && rp in f.child && f.child[rp] == r
    ensures f.(child := f.child[rp := 0], depth := f.depth - {r}) == LeafDetached(f, r)
  {
    hide TreeBin, Key, Resolved, ForestOK, UpOK, DownOK, K;
    OnlyLink(f, r);
    assert rp == Slot(rp.node, rp.side);
  }

  lemma RootSlot(f: Forest, x: Addr)
    requires ForestOK(f) && NodeOK(f, x)
    ensures f.index[x] < |f.bins| && (f.bins[f.index[x]] == x <==> f.parent[x] == AtBin(f.index[x]))
    ensures f.bins[f.index[x]] != x ==>
              f.parent[x].Under? && Slot(f.parent[x].node, false) in f.child && Slot(f.parent[x].node, true) in f.child
  {
    hide TreeBin, Key, Resolved, K;
    OnlyLink(f, x);
  }

  lemma RelinkedChildren(f: Forest, x: Addr, r: Addr)
    requires ForestOK(f) && CanReplace(f, x, r)
    ensures var g := Relinked(f, x, r);
            && Slot(x, false) in g.child && g.child[Slot(x, false)] == f.child[Slot(x, false)]
            && Slot(x, true) in g.child && g.child[Slot(x, true)] == f.child[Slot(x, true)]
            && r != x
  {
    hide TreeBin, Key, Resolved, K;
    OnlyLink(f, x);
  }

  lemma TwinCanReplace(f: Forest, c: Chains, x: Addr, r: Addr)
    requires ForestOK(f) && ChainsOK(f, c) && x in f.depth && x in c.ring && r in c.ring[x] && r != x
    ensures CanReplace(f, x, r) && forall n :: n != x ==> !NodeOfSize(f, n, f.size[r])
  {
    hide TreeBin, Key, Resolved, UpOK, DownOK;
    NodeOf(f, x);
    assert RingOK(c, x);
    assert MemberOK(f, c, r);
    forall n | n != x ensures !NodeOfSize(f, n, f.size[r]) {
      assert NodeOfSize(f, x, f.size[r]);
    }
  }

  lemma LeafCanReplace(f: Forest, x: Addr, r: Addr)
    requires ForestOK(f) && x in f.depth
    requires NodeOK(f, r) && Within(f, r, x) && r != x && IsLeaf(f, r)
    ensures var g := LeafDetached(f, r);
            && ForestOK(g) && CanReplace(g, x, r) && g.parent == f.parent && g.bins == f.bins
            && forall n :: n != x ==> !NodeOfSize(g, n, f.size[r])
  {
    hide TreeBin, Key, Resolved, UpOK, DownOK;
    var g := LeafDetached(f, r);
    LeafRemoved(f, r);
    NodeOf(f, x);
    NodeOf(g, x);
    NotRoot(f, r, x);
    LeafLinks(f, r);
    forall n ensures !NodeOfSize(g, n, f.size[r]) {
      assert NodeOfSize(f, r, f.size[r]);
      assert NodeOfSize(g, n, f.size[r]) ==> NodeOfSize(f, n, f.size[r]) && n != r;
    }
  }

  lemma NotRoot(f: Forest, r: Addr, x: Addr)
    requires ForestOK(f) && NodeOK(f, r) && NodeOK(f, x) && Within(f, r, x) && r != x
    ensures f.parent[r].Under?
  {
    hide TreeBin, Key, Resolved;
    var c := Descend(f, r, x);
  }

  lemma LeafLinks(f: Forest, r: Addr)
    requires ForestOK(f) && NodeOK(f, r) && f.parent[r].Under? && IsLeaf(f, r)
    ensures IsLeaf(LeafDetached(f, r), r) && Stored(LeafDetached(f, r), r)
    ensures forall sl :: sl in f.child && f.child[sl] == 0 ==> LeafDetached(f, r).child[sl] == 0
    ensures f.child.Keys == LeafDetached(f, r).child.Keys
  {
    hide TreeBin, Key, Resolved, K;
    OnlyLink(f, r);
  }

  // Each way to unlink x keeps the invariant: as a chained twin,
  lemma UnlinkedTwin(f: Forest, c: Chains, x: Addr, t: Addr, k: nat)
    requires ForestOK(f) && ChainsOK(f, c) && MemberOK(f, c, x) && t == c.owner[x]
    requires k < |c.ring[t]| && c.ring[t][k] == x && |c.ring[t]| > 1 && x in c.fd && x in c.bk
    requires f.parent[x] == Chained
    ensures ForestOK(Forgotten(f, x)) && ChainsOK(Forgotten(f, x), WithoutTwin(c, x, t, k, t))
  {
    hide TreeBin, Key, Resolved, ForestOK, Stored, IsLeaf, DownOK;
    forall u | u in f.depth ensures u != x {
      NodeOf(f, u);
    }
    TwinRemoved(f, x);
    ForgottenOthers(f, x);
    assert RingOK(c, t);
    TwinDropped(f, Forgotten(f, x), c, x, t, k, t);
  }

  lemma ForgottenOthers(f: Forest, x: Addr)
    ensures forall y :: y != x && Stored(f, y) ==> Stored(Forgotten(f, x), y)
    ensures forall y :: IsLeaf(f, y) ==> IsLeaf(Forgotten(f, x), y)
  {
    hide TreeBin;
  }

  // as the tree node of its size, a twin taking its place,
  lemma UnlinkedHead(f: Forest, c: Chains, x: Addr, k: nat, r: Addr)
    requires ForestOK(f) && ChainsOK(f, c) && x in f.depth && x in c.ring && x in f.size
    requires k < |c.ring[x]| && c.ring[x][k] == x && |c.ring[x]| > 1 && x in c.fd && x in c.bk
    requires r in c.ring[x] && r != x && CanReplace(f, x, r)
    requires forall n :: n != x ==> !NodeOfSize(f, n, f.size[r])
    ensures var g := Forgotten(Replaced(f, x, r), x);
            ForestOK(g) && ChainsOK(g, WithoutTwin(c, x, x, k, r))
  {
    hide ForestOK, ChainsOK, Replaced, NodeOfSize, TwinLost, UpOK, DownOK, TreeBin, K;
    HeadLost(f, c, x, r);
    TwinDropped(f, Forgotten(Replaced(f, x, r), x), c, x, x, k, r);
  }

  // What becomes of the tree
  lemma HeadLost(f: Forest, c: Chains, x: Addr, r: Addr)
    requires ForestOK(f) && ChainsOK(f, c) && x in f.depth && x in c.ring && x in f.size
    requires r in c.ring[x] && r != x && CanReplace(f, x, r)
    requires forall n :: n != x ==> !NodeOfSize(f, n, f.size[r])
    ensures var g := Forgotten(Replaced(f, x, r), x);
            ForestOK(g) && TwinLost(f, g, x, x, r)
  {
    hide TreeBin, Key, Resolved, K, ForestOK, UpOK, DownOK;
    var g := Replaced(f, x, r);
    NodeReplaced(f, x, r);
    TwinRemoved(g, x);
    ReplacedOthers(f, x, r);
    assert RingOK(c, x);
    assert MemberOK(f, c, r);
  }

  // as a leaf,
  lemma UnlinkedLeaf(f: Forest, c: Chains, x: Addr)
    requires ForestOK(f) && ChainsOK(f, c) && x in f.depth && x in c.ring && c.ring[x] == [x]
    requires x in f.size && x in f.parent && IsLeaf(f, x)
    ensures var g := Forgotten(LeafDetached(f, x), x);
            ForestOK(g) && ChainsOK(g, WithoutRing(c, x))
  {
    hide TreeBin, Key, Resolved, K, ForestOK, UpOK, DownOK;
    NodeOf(f, x);
    var g := LeafDetached(f, x);
    LeafRemoved(f, x);
    TwinRemoved(g, x);
    RelinkedOthers(f, x, 0);
    RingDropped(f, Forgotten(g, x), c, x);
  }

  // and as an inner node, a leaf below it taking its place.
  lemma UnlinkedInner(f: Forest, c: Chains, x: Addr, r: Addr)
    requires ForestOK(f) && ChainsOK(f, c) && x in f.depth && x in c.ring && c.ring[x] == [x]
    requires x in f.size && NodeOK(f, r) && r != x && IsLeaf(f, r)
    requires ForestOK(LeafDetached(f, r)) && CanReplace(LeafDetached(f, r), x, r)
    requires forall n :: n != x ==> !NodeOfSize(LeafDetached(f, r), n, f.size[r])
    ensures var g := Forgotten(Replaced(LeafDetached(f, r), x, r), x);
            ForestOK(g) && ChainsOK(g, WithoutRing(c, x))
  {
    hide TreeBin, Key, Resolved, K, ForestOK, UpOK, DownOK;
    var e := LeafDetached(f, r);
    var g := Replaced(e, x, r);
    NodeReplaced(e, x, r);
    TwinRemoved(g, x);
    RelinkedOthers(f, r, 0);
    ReplacedOthers(e, x, r);
    RingDropped(f, Forgotten(g, x), c, x);
  }

  // Relinking leaves the links of chunks outside the tree.
  lemma RelinkedOthers(f: Forest, x: Addr, r: Addr)
    requires ForestOK(f) && NodeOK(f, x)
    ensures var g := Relinked(f, x, r);
            && g.parent == f.parent && g.size == f.size && g.index == f.index && f.child.Keys == g.child.Keys
            && forall sl :: sl in f.child && sl.node !in f.depth ==> g.child[sl] == f.child[sl]
  {
    hide TreeBin, Key, Resolved, K;
    OnlyLink(f, x);
  }

  lemma ReplacedOthers(f: Forest, x: Addr, r: Addr)
    requires ForestOK(f) && CanReplace(f, x, r)
    ensures var g := Replaced(f, x, r);
            && g.size == f.size && g.index == f.index && f.child.Keys == g.child.Keys
            && f.parent.Keys == g.parent.Keys
            && (forall sl :: sl in f.child && sl.node !in f.depth && sl.node != r ==> g.child[sl] == f.child[sl])
            && (forall y :: y in f.parent && y !in f.depth && y != r ==> g.parent[y] == f.parent[y])
  {
    hide TreeBin, Key, Resolved, K;
    RelinkedOthers(f, x, r);
    Neighbours(f, x);
  }
}
