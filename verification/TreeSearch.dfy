// Why the walks of tmalloc_large and tmalloc_small find a best fit: at every step, each chunk
// that fits is no better than the best one seen, or is still ahead of the walk.

module TreeSearch {
  import opened Words
  import opened BinIndex
  import opened Rings
  import opened Forest

  // leftmost_child
  function LeftmostChild(f: Forest, t: Addr): Addr
    requires Slot(t, false) in f.child && Slot(t, true) in f.child
  {
    if f.child[Slot(t, false)] != 0 then f.child[Slot(t, false)] else f.child[Slot(t, true)]
  }

  ghost predicate Fits(f: Forest, nb: nat, n: Addr) { NodeOK(f, n) && f.size[n] >= nb }

  // n is at t or below it, or is beaten by t.
  ghost predicate Ahead(f: Forest, n: Addr, t: Addr) {
    t != 0 && (Within(f, n, t) || (n in f.size && t in f.size && f.size[t] < f.size[n]))
  }

  // On the leftmost walk.
  ghost predicate Covers(f: Forest, nb: nat, rsize: nat, t: Addr) {
    forall n {:trigger Fits(f, nb, n)} :: Fits(f, nb, n) ==> rsize <= f.size[n] - nb || Ahead(f, n, t)
  }

  // On the walk down the path of nb in bin i, rst being the deepest untaken right subtree.
  ghost predicate PathCovers(f: Forest, i: Index, nb: nat, rsize: nat, t: Addr, rst: Addr) {
    forall n {:trigger Fits(f, nb, n)} :: Fits(f, nb, n) && f.index[n] == i ==>
      rsize <= f.size[n] - nb || (t != 0 && Within(f, n, t)) || Ahead(f, n, rst)
  }

  ghost predicate AllFit(f: Forest, nb: nat, t: Addr) {
    forall n {:trigger NodeOK(f, n)} :: NodeOK(f, n) && Within(f, n, t) ==> f.size[n] >= nb
  }

  // t is on the path of nb, or at the root of a subtree to the right of it.
  ghost predicate OnPath(f: Forest, i: Index, nb: nat, t: Addr) {
    NodeOK(f, t) && f.index[t] == i && K(f, t, f.depth[t]) == Key(i, nb, f.depth[t])
  }

  ghost predicate RightOfPath(f: Forest, i: Index, nb: nat, t: Addr) {
    NodeOK(f, t) && f.index[t] == i && K(f, t, f.depth[t]) > Key(i, nb, f.depth[t])
  }

  lemma RightFits(f: Forest, i: Index, nb: nat, t: Addr)
    requires RightOfPath(f, i, nb, t)
    ensures AllFit(f, nb, t) && f.size[t] > nb
  {
    hide TreeBin, Resolved, Key;
    forall n {:trigger NodeOK(f, n)} | NodeOK(f, n) && Within(f, n, t) ensures f.size[n] >= nb {
      KeyOrders(i, nb, f.size[n], f.depth[t]);
    }
    KeyOrders(i, nb, f.size[t], f.depth[t]);
  }

  lemma KeyOrders(i: Index, s: nat, t: nat, d: nat)
    requires d <= Resolved(i) && Key(i, s, d) < Key(i, t, d)
    ensures s < t
  {
    ShrOrders(s, t, Resolved(i) - d);
  }

  // One step of the leftmost walk, t having been looked at.
  lemma StepLeft(f: Forest, nb: nat, rsize: nat, t: Addr)
    requires ForestOK(f) && NodeOK(f, t) && Covers(f, nb, rsize, t)
    requires rsize == 0 || (f.size[t] >= nb && rsize <= f.size[t] - nb)
    ensures Covers(f, nb, rsize, LeftmostChild(f, t))
  {
    var c := LeftmostChild(f, t);
    forall n {:trigger Fits(f, nb, n)} | Fits(f, nb, n) ensures rsize <= f.size[n] - nb || Ahead(f, n, c) {
      if rsize > f.size[n] - nb {
        StepLeftOne(f, n, t);
      }
    }
  }

  lemma StepLeftOne(f: Forest, n: Addr, t: Addr)
    requires ForestOK(f) && NodeOK(f, n) && NodeOK(f, t) && Within(f, n, t) && n != t
    ensures Ahead(f, n, LeftmostChild(f, t))
  {
    hide TreeBin, Key;
    var d := Descend(f, n, t);
    var c := LeftmostChild(f, t);
    if d != c {
      ChildDepth(f, t, false);
      LeftSmaller(f, c, n, t);
    }
  }

  lemma LeftmostDeeper(f: Forest, nb: nat, t: Addr)
    requires ForestOK(f) && NodeOK(f, t) && LeftmostChild(f, t) != 0
    ensures var c := LeftmostChild(f, t); NodeOK(f, c) && f.depth[c] == f.depth[t] + 1 && f.index[c] == f.index[t]
    ensures AllFit(f, nb, t) ==> AllFit(f, nb, LeftmostChild(f, t))
  {
    hide TreeBin, Resolved, Key;
    var c := LeftmostChild(f, t);
    if f.child[Slot(t, false)] != 0 {
      ChildDepth(f, t, false);
    } else {
      ChildDepth(f, t, true);
    }
    if AllFit(f, nb, t) {
      forall n {:trigger NodeOK(f, n)} | NodeOK(f, n) && Within(f, n, c) ensures f.size[n] >= nb {
        WithinTrans(f, n, c, t);
      }
    }
  }

  // The child of t on the path of nb.
  function PathSide(i: Index, nb: nat, d: nat): bool
    requires d < Resolved(i)
  {
    Key(i, nb, d + 1) % 2 == 1
  }

  lemma PathChild(f: Forest, i: Index, nb: nat, t: Addr)
    requires ForestOK(f) && OnPath(f, i, nb, t) && f.depth[t] < Resolved(i)
    ensures var c := f.child[Slot(t, PathSide(i, nb, f.depth[t]))];
            c != 0 ==> OnPath(f, i, nb, c) && f.depth[c] == f.depth[t] + 1
    ensures var r := f.child[Slot(t, true)];
            r != 0 && !PathSide(i, nb, f.depth[t]) ==> RightOfPath(f, i, nb, r)
  {
    hide TreeBin, Resolved;
    KeyStep(i, nb, f.depth[t]);
    var c := f.child[Slot(t, PathSide(i, nb, f.depth[t]))];
    if c != 0 {
      ChildDepth(f, t, PathSide(i, nb, f.depth[t]));
      KeyStep(i, f.size[c], f.depth[t]);
    }
    var r := f.child[Slot(t, true)];
    if r != 0 {
      ChildDepth(f, t, true);
      KeyStep(i, f.size[r], f.depth[t]);
    }
  }

  // One step down the path of nb, t having been looked at.
  lemma StepPath(f: Forest, i: Index, nb: nat, rsize: nat, t: Addr, rst: Addr)
    requires ForestOK(f) && OnPath(f, i, nb, t) && f.depth[t] < Resolved(i)
    requires PathCovers(f, i, nb, rsize, t, rst)
    requires f.size[t] >= nb ==> rsize <= f.size[t] - nb
    requires rst != 0 ==> RightOfPath(f, i, nb, rst) && f.depth[rst] <= f.depth[t]
                          && Key(i, nb, f.depth[rst]) < K(f, rst, f.depth[rst])
    ensures var c := f.child[Slot(t, PathSide(i, nb, f.depth[t]))];
            var r := f.child[Slot(t, true)];
            PathCovers(f, i, nb, rsize, c, if r != 0 && r != c then r else rst)
  {
    var side := PathSide(i, nb, f.depth[t]);
    var c, r := f.child[Slot(t, side)], f.child[Slot(t, true)];
    var rst' := if r != 0 && r != c then r else rst;
    PathChild(f, i, nb, t);
    forall n {:trigger Fits(f, nb, n)} | Fits(f, nb, n) && f.index[n] == i
      ensures rsize <= f.size[n] - nb || (c != 0 && Within(f, n, c)) || Ahead(f, n, rst')
    {
      if rsize > f.size[n] - nb {
        if Within(f, n, t) {
          BelowPath(f, i, nb, t, n);
        } else if rst' != rst {
          DeeperIsSmaller(f, i, nb, t, r, rst, n);
        }
      }
    }
  }

  lemma BelowPath(f: Forest, i: Index, nb: nat, t: Addr, n: Addr)
    requires ForestOK(f) && OnPath(f, i, nb, t) && f.depth[t] < Resolved(i)
    requires NodeOK(f, n) && Within(f, n, t) && n != t && f.size[n] >= nb
    ensures var c := f.child[Slot(t, PathSide(i, nb, f.depth[t]))];
            var r := f.child[Slot(t, true)];
            (c != 0 && Within(f, n, c)) || (r != 0 && r != c && Within(f, n, r))
  {
    hide TreeBin, Resolved;
    var d := Descend(f, n, t);
    KeyStep(i, nb, f.depth[t]);
    KeyStep(i, f.size[n], f.depth[t]);
    var side := Side(f, n, f.depth[t] + 1);
    if side != PathSide(i, nb, f.depth[t]) {
      if !side {
        KeyOrders(i, f.size[n], nb, f.depth[t] + 1);
      } else if f.child[Slot(t, false)] != 0 {
        ChildDepth(f, t, false);
        ChildDepth(f, t, true);
      }
    }
  }

  // A deeper right turn off the path leads to smaller sizes than a shallower one.
  lemma DeeperIsSmaller(f: Forest, i: Index, nb: nat, t: Addr, r: Addr, rst: Addr, n: Addr)
    requires ForestOK(f) && OnPath(f, i, nb, t) && NodeOK(f, r) && Within(f, r, t)
    requires RightOfPath(f, i, nb, rst) && f.depth[rst] <= f.depth[t]
    requires NodeOK(f, n) && f.index[n] == i && Ahead(f, n, rst)
    ensures f.size[r] < f.size[n]
  {
    hide TreeBin, Resolved;
    var d := f.depth[rst];
    KeyOnPath(f, i, nb, t, r, d);
    if Within(f, n, rst) {
      KeyOrders(i, f.size[r], f.size[n], d);
    } else {
      KeyOrders(i, f.size[r], f.size[rst], d);
    }
  }

  lemma KeyOnPath(f: Forest, i: Index, nb: nat, t: Addr, r: Addr, d: nat)
    requires OnPath(f, i, nb, t) && NodeOK(f, r) && Within(f, r, t) && d <= f.depth[t]
    ensures Key(i, f.size[r], d) == Key(i, nb, d)
  {
    hide TreeBin, Resolved;
    KeyCoarser(i, f.size[r], nb, d, f.depth[t]);
  }

  // ---- From bin to bin ----------------------------------------------------------------

  // Every node of bin i lies below the bin's root.
  lemma BelowRoot(f: Forest, i: Index, n: Addr)
    requires ForestOK(f) && NodeOK(f, n) && f.index[n] == i
    ensures f.bins[i] != 0 && NodeOK(f, f.bins[i]) && Within(f, n, f.bins[i])
    ensures f.depth[f.bins[i]] == 0 && f.index[f.bins[i]] == i
  {
    if f.bins[i] == 0 {
      EmptyBin(f, i, n);
    }
    assert RootOK(f, i);
    assert NodeOK(f, f.bins[i]);
    RootKey(f.size[n], f.size[f.bins[i]]);
  }

  // The root of a bin is on the path of every size that belongs to the bin.
  lemma RootOnPath(f: Forest, nb: SizeT)
    requires ForestOK(f) && nb >= MIN_LARGE_SIZE && f.bins[TreeBin(nb)] != 0
    ensures OnPath(f, TreeBin(nb), nb, f.bins[TreeBin(nb)])
    ensures f.depth[f.bins[TreeBin(nb)]] == 0
    ensures PathCovers(f, TreeBin(nb), nb, WORD64 - nb, f.bins[TreeBin(nb)], 0)
  {
    var i := TreeBin(nb);
    assert RootOK(f, i);
    var t := f.bins[i];
    assert NodeOK(f, t);
    RootKey(nb, f.size[t]);
    forall n {:trigger Fits(f, nb, n)} | Fits(f, nb, n) && f.index[n] == i ensures Within(f, n, t) {
      BelowRoot(f, i, n);
    }
  }

  // Sizes that fit but belong to another bin belong to a higher one.
  lemma OtherBins(f: Forest, nb: SizeT, n: Addr)
    requires NodeOK(f, n) && nb >= MIN_LARGE_SIZE && f.index[n] != TreeBin(nb)
    ensures f.size[n] >= nb <==> TreeBin(nb) < f.index[n]
  {
    hide TreeBin;
    if f.index[n] < TreeBin(nb) {
      TreeBinOrders(f.size[n], nb);
    } else {
      TreeBinOrders(nb, f.size[n]);
    }
  }

  // After the walk down the path, what is left is the deepest untaken right subtree.
  lemma LeavePath(f: Forest, nb: SizeT, rsize: nat, v: Addr, rst: Addr)
    requires ForestOK(f) && nb >= MIN_LARGE_SIZE && PathCovers(f, TreeBin(nb), nb, rsize, 0, rst)
    requires v != 0 ==> NodeOK(f, v) && f.index[v] == TreeBin(nb) && f.size[v] >= nb && rsize == f.size[v] - nb
    requires rst != 0 ==> NodeOK(f, rst) && f.index[rst] == TreeBin(nb)
    requires v != 0 || rst != 0
    ensures Covers(f, nb, rsize, rst)
  {
    hide TreeBin, Resolved, Key;
    forall n {:trigger Fits(f, nb, n)} | Fits(f, nb, n) ensures rsize <= f.size[n] - nb || Ahead(f, n, rst) {
      if f.index[n] != TreeBin(nb) {
        OtherBins(f, nb, n);
        if v != 0 {
          TreeBinOrders(f.size[v], f.size[n]);
        } else {
          TreeBinOrders(f.size[rst], f.size[n]);
        }
      }
    }
  }

  // Starting at the root of the first non-empty bin from bin lo on.
  lemma EnterBin(f: Forest, nb: nat, rsize: nat, j: Index)
    requires ForestOK(f) && f.bins[j] != 0
    requires forall n {:trigger Fits(f, nb, n)} :: Fits(f, nb, n) ==> j <= f.index[n]
    ensures NodeOK(f, f.bins[j]) && f.depth[f.bins[j]] == 0 && Covers(f, nb, rsize, f.bins[j])
    ensures f.index[f.bins[j]] == j
  {
    hide TreeBin, Resolved, Key;
    assert RootOK(f, j);
    var t := f.bins[j];
    assert NodeOK(f, t);
    forall n {:trigger Fits(f, nb, n)} | Fits(f, nb, n) ensures Ahead(f, n, t) {
      if f.index[n] == j {
        BelowRoot(f, j, n);
      } else {
        TreeBinOrders(f.size[t], f.size[n]);
      }
    }
  }
}
