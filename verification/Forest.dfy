// The tree bins of dlmalloc as a value: bitwise tries keyed on chunk size, whose nodes are
// the chunks themselves, linked by child and parent addresses.

module Forest {
  import opened Words
  import opened BinIndex
  import opened Rings

  // The address of a child field, &T->child[side].
  datatype Slot = Slot(node: Addr, side: bool)

  // A parent field: null for a chained chunk, the bin for a root, else the node above.
  datatype Parent = Chained | AtBin(bin: Index) | Under(node: Addr)

  // size and index are the head and index fields of every stored chunk; depth is defined on
  // the chunks that are tree nodes.
  datatype Forest = Forest(
    size: map<Addr, nat>,
    index: map<Addr, Index>,
    child: map<Slot, Addr>,
    parent: map<Addr, Parent>,
    bins: seq<Addr>,
    ghost depth: map<Addr, nat>)

  ghost predicate Stored(f: Forest, x: Addr) {
    && x != 0 && x in f.size && MIN_LARGE_SIZE <= f.size[x] < WORD64
    && x in f.index && f.index[x] == TreeBin(f.size[x])
    && Slot(x, false) in f.child && Slot(x, true) in f.child && x in f.parent
  }

  // The size bits a node at depth d of n's bin shares with its whole subtree.
  ghost function K(f: Forest, n: Addr, d: nat): nat {
    if n in f.size && n in f.index && d <= Resolved(f.index[n]) then Key(f.index[n], f.size[n], d) else 0
  }

  // The child slot under which a node at depth d > 0 hangs: its last resolved bit.
  ghost function Side(f: Forest, n: Addr, d: nat): bool { K(f, n, d) % 2 == 1 }

  ghost predicate UpOK(f: Forest, t: Addr)
    requires t in f.parent && t in f.depth && t in f.index
  {
    match f.parent[t]
    case Chained => false
    case AtBin(i) => i == f.index[t] && f.depth[t] == 0 && i < |f.bins| && f.bins[i] == t
    case Under(p) =>
      && p in f.depth && p in f.index && f.index[p] == f.index[t]
      && f.depth[t] == f.depth[p] + 1
      && K(f, p, f.depth[p]) == K(f, t, f.depth[p])
      && Slot(p, Side(f, t, f.depth[t])) in f.child
      && f.child[Slot(p, Side(f, t, f.depth[t]))] == t
  }

  ghost predicate DownOK(f: Forest, t: Addr, side: bool)
    requires t in f.depth && Slot(t, side) in f.child
  {
    var c := f.child[Slot(t, side)];
    c != 0 ==> && c in f.depth && c in f.parent && f.parent[c] == Under(t)
               && Side(f, c, f.depth[c]) == side
  }

  ghost predicate NodeOK(f: Forest, t: Addr) {
    && t in f.depth && Stored(f, t) && f.depth[t] <= Resolved(f.index[t])
    && UpOK(f, t) && DownOK(f, t, false) && DownOK(f, t, true)
  }

  ghost predicate RootOK(f: Forest, i: Index) {
    && i < |f.bins|
    && (f.bins[i] != 0 ==>
          f.bins[i] in f.depth && f.bins[i] in f.parent && f.parent[f.bins[i]] == AtBin(i))
  }

  ghost predicate NodeOfSize(f: Forest, t: Addr, s: nat) {
    t in f.depth && t in f.size && f.size[t] == s
  }

  // Each tree holds one node per size.
  ghost predicate OnePerSize(f: Forest) {
    forall t, u, s: nat :: NodeOfSize(f, t, s) && NodeOfSize(f, u, s) ==> t == u
  }

  ghost predicate ForestOK(f: Forest) {
    && |f.bins| == NTREEBINS
    && (forall t {:trigger NodeOK(f, t)} :: t in f.depth ==> NodeOK(f, t))
    && (forall i: Index {:trigger RootOK(f, i)} :: RootOK(f, i))
    && OnePerSize(f)
  }

  // n lies in the subtree of t, n itself being there included.
  ghost predicate Within(f: Forest, n: Addr, t: Addr) {
    && n in f.depth && t in f.depth && n in f.index && t in f.index && f.index[n] == f.index[t]
    && f.depth[t] <= f.depth[n] && K(f, n, f.depth[t]) == K(f, t, f.depth[t])
  }

  // ---- Keys ---------------------------------------------------------------------------

  lemma KeyStep(i: Index, s: nat, d: nat)
    requires d < Resolved(i)
    ensures Key(i, s, d) == Key(i, s, d + 1) / 2
  {
  }

  lemma KeyCoarser(i: Index, s: nat, t: nat, d: nat, e: nat)
    requires d <= e <= Resolved(i) && Key(i, s, e) == Key(i, t, e)
    ensures Key(i, s, d) == Key(i, t, d)
  {
    ShrAgreeAbove(s, t, Resolved(i) - e, Resolved(i) - d);
  }

  lemma KeyFull(i: Index, s: nat)
    ensures Key(i, s, Resolved(i)) == s
  {
  }

  // ---- Positions ----------------------------------------------------------------------

  // A depth and a key determine the node.
  lemma {:induction false} SamePlace(f: Forest, a: Addr, b: Addr)
    requires ForestOK(f) && a in f.depth && b in f.depth
    requires NodeOK(f, a) && NodeOK(f, b)
    requires f.index[a] == f.index[b] && f.depth[a] == f.depth[b]
    requires K(f, a, f.depth[a]) == K(f, b, f.depth[a])
    ensures a == b
    decreases f.depth[a]
  {
    if f.depth[a] > 0 {
      var p, q := f.parent[a].node, f.parent[b].node;
      assert NodeOK(f, p) && NodeOK(f, q);
      KeyStep(f.index[a], f.size[a], f.depth[p]);
      KeyStep(f.index[b], f.size[b], f.depth[p]);
      SamePlace(f, p, q);
    }
  }

  // Below t, the next bit of a size leads towards the node of that size.
  lemma {:induction false} Descend(f: Forest, n: Addr, t: Addr) returns (c: Addr)
    requires ForestOK(f) && NodeOK(f, n) && NodeOK(f, t)
    requires Within(f, n, t) && n != t
    ensures f.depth[t] < f.depth[n]
    ensures c == f.child[Slot(t, Side(f, n, f.depth[t] + 1))] && c != 0
    ensures NodeOK(f, c) && f.depth[c] == f.depth[t] + 1 && Within(f, n, c)
    decreases f.depth[n]
  {
    hide Key, TreeBin, Resolved;
    if f.depth[n] == f.depth[t] {
      SamePlace(f, n, t);
    }
    var p := f.parent[n].node;
    assert NodeOK(f, p);
    if f.depth[p] == f.depth[t] {
      SamePlace(f, p, t);
      c := n;
    } else {
      KeyCoarser(f.index[n], f.size[p], f.size[n], f.depth[t], f.depth[p]);
      assert Within(f, p, t);
      c := Descend(f, p, t);
      KeyCoarser(f.index[n], f.size[p], f.size[n], f.depth[c], f.depth[p]);
    }
  }

  // A node with a child has a size bit left to resolve.
  lemma ChildDepth(f: Forest, t: Addr, side: bool)
    requires ForestOK(f) && NodeOK(f, t) && f.child[Slot(t, side)] != 0
    ensures var c := f.child[Slot(t, side)];
            NodeOK(f, c) && f.depth[c] == f.depth[t] + 1 && Within(f, c, t) && Side(f, c, f.depth[c]) == side
  {
    hide Key, TreeBin, Resolved;
    assert NodeOK(f, f.child[Slot(t, side)]);
  }

  lemma WithinTrans(f: Forest, a: Addr, b: Addr, c: Addr)
    requires Within(f, a, b) && Within(f, b, c) && f.depth[b] <= Resolved(f.index[b])
    requires a in f.size && b in f.size && c in f.size
    ensures Within(f, a, c)
  {
    KeyCoarser(f.index[a], f.size[a], f.size[b], f.depth[c], f.depth[b]);
  }

  // In a tree, the sizes below one child are all smaller than those below the other.
  lemma LeftSmaller(f: Forest, a: Addr, b: Addr, t: Addr)
    requires NodeOK(f, a) && NodeOK(f, b) && NodeOK(f, t)
    requires Within(f, a, t) && Within(f, b, t) && f.depth[t] < Resolved(f.index[t])
    requires !Side(f, a, f.depth[t] + 1) && Side(f, b, f.depth[t] + 1)
    ensures f.size[a] < f.size[b]
  {
    hide TreeBin, Resolved;
    SplitKeys(f.index[t], f.size[a], f.size[b], f.depth[t]);
  }

  lemma SplitKeys(i: Index, s: nat, t: nat, d: nat)
    requires d < Resolved(i) && Key(i, s, d) == Key(i, t, d)
    requires Key(i, s, d + 1) % 2 == 0 && Key(i, t, d + 1) % 2 == 1
    ensures s < t
  {
    KeyStep(i, s, d);
    KeyStep(i, t, d);
    ShrOrders(s, t, Resolved(i) - (d + 1));
  }

  // ---- Framing ------------------------------------------------------------------------

  // g agrees with f about n's size, bin and depth.
  ghost predicate SameMark(f: Forest, g: Forest, n: Addr) {
    && n in f.size && n in g.size && f.size[n] == g.size[n]
    && n in f.index && n in g.index && f.index[n] == g.index[n]
    && n in f.depth && n in g.depth && f.depth[n] == g.depth[n]
  }

  ghost predicate SameDown(f: Forest, g: Forest, t: Addr, side: bool) {
    && Slot(t, side) in f.child && Slot(t, side) in g.child
    && f.child[Slot(t, side)] == g.child[Slot(t, side)]
    && var c := f.child[Slot(t, side)];
    && (c != 0 ==> SameMark(f, g, c) && c in f.parent && c in g.parent && f.parent[c] == g.parent[c])
  }

  ghost predicate SameUp(f: Forest, g: Forest, t: Addr) {
    && t in f.parent && t in g.parent && f.parent[t] == g.parent[t]
    && match f.parent[t] {
         case Chained => true
         case AtBin(i) => i < |f.bins| && i < |g.bins| && f.bins[i] == g.bins[i]
         case Under(p) =>
           && SameMark(f, g, p)
           && (t in f.depth ==>
                 && Slot(p, Side(f, t, f.depth[t])) in f.child && Slot(p, Side(f, t, f.depth[t])) in g.child
                 && f.child[Slot(p, Side(f, t, f.depth[t]))] == g.child[Slot(p, Side(f, t, f.depth[t]))])
       }
  }

  // What a node's invariant depends on.
  lemma NodeFrame(f: Forest, g: Forest, t: Addr)
    requires NodeOK(f, t)
    requires SameMark(f, g, t) && SameUp(f, g, t) && SameDown(f, g, t, false) && SameDown(f, g, t, true)
    ensures NodeOK(g, t)
  {
    hide Key, TreeBin, Resolved;
  }

  // ---- Insertion ----------------------------------------------------------------------

  // Where the walk for a size falls off the tree, the size is nowhere in it.
  lemma NoSuchSize(f: Forest, t: Addr, s: SizeT)
    requires ForestOK(f) && NodeOK(f, t) && s >= MIN_LARGE_SIZE && f.index[t] == TreeBin(s)
    requires f.size[t] != s && f.depth[t] < Resolved(f.index[t])
    requires K(f, t, f.depth[t]) == Key(f.index[t], s, f.depth[t])
    requires f.child[Slot(t, Key(f.index[t], s, f.depth[t] + 1) % 2 == 1)] == 0
    requires forall n :: NodeOfSize(f, n, s) ==> f.depth[n] >= f.depth[t]
    ensures forall n :: !NodeOfSize(f, n, s)
  {
    forall n ensures !NodeOfSize(f, n, s) {
      if NodeOfSize(f, n, s) {
        assert NodeOK(f, n);
        assert Within(f, n, t);
        var c := Descend(f, n, t);
      }
    }
  }

  function Initialised(f: Forest, x: Addr, s: nat, i: Index): Forest {
    f.(size := f.size[x := s],
       index := f.index[x := i],
       child := f.child[Slot(x, false) := 0][Slot(x, true) := 0])
  }

  ghost function AsRoot(f: Forest, x: Addr, s: nat, i: Index): Forest
    requires i < |f.bins|
  {
    var g := Initialised(f, x, s, i);
    g.(bins := g.bins[i := x], parent := g.parent[x := AtBin(i)], depth := g.depth[x := 0])
  }

  ghost function AsLeaf(f: Forest, x: Addr, s: nat, i: Index, t: Addr, side: bool): Forest
    requires t in f.depth
  {
    var g := Initialised(f, x, s, i);
    g.(child := g.child[Slot(t, side) := x],
       parent := g.parent[x := Under(t)],
       depth := g.depth[x := f.depth[t] + 1])
  }

  function AsTwin(f: Forest, x: Addr, s: nat, i: Index): Forest {
    var g := Initialised(f, x, s, i);
    g.(parent := g.parent[x := Chained])
  }

  ghost predicate Fresh(f: Forest, x: Addr, s: nat) {
    x != 0 && x !in f.size && x !in f.depth && MIN_LARGE_SIZE <= s < WORD64
  }

  // The nodes around t, none of which a fresh chunk is.
  lemma Neighbours(f: Forest, t: Addr)
    requires ForestOK(f) && t in f.depth
    ensures NodeOK(f, t)
    ensures f.parent[t].Under? ==> NodeOK(f, f.parent[t].node)
    ensures f.child[Slot(t, false)] != 0 ==> NodeOK(f, f.child[Slot(t, false)])
    ensures f.child[Slot(t, true)] != 0 ==> NodeOK(f, f.child[Slot(t, true)])
  {
    hide Key, TreeBin, Resolved;
    assert NodeOK(f, t);
    if f.parent[t].Under? {
      assert NodeOK(f, f.parent[t].node);
    }
    if f.child[Slot(t, false)] != 0 {
      assert NodeOK(f, f.child[Slot(t, false)]);
    }
    if f.child[Slot(t, true)] != 0 {
      assert NodeOK(f, f.child[Slot(t, true)]);
    }
  }

  lemma EmptyBin(f: Forest, i: Index, n: Addr)
    requires ForestOK(f) && f.bins[i] == 0 && NodeOK(f, n)
    ensures f.index[n] != i
    decreases f.depth[n]
  {
    hide Key, TreeBin, Resolved;
    if f.depth[n] > 0 {
      var p := f.parent[n].node;
      assert NodeOK(f, p);
      EmptyBin(f, i, p);
    }
  }

  lemma SizeAdded(f: Forest, g: Forest, x: Addr, s: nat)
    requires OnePerSize(f) && forall n :: !NodeOfSize(f, n, s)
    requires g.depth.Keys <= f.depth.Keys + {x} && x in g.size && g.size[x] == s
    requires forall n :: n in g.depth && n != x && n in g.size ==> n in f.size && f.size[n] == g.size[n]
    ensures OnePerSize(g)
  {
    forall t, u, z: nat | NodeOfSize(g, t, z) && NodeOfSize(g, u, z) ensures t == u {
      if t != x {
        assert NodeOfSize(f, t, z);
      }
      if u != x {
        assert NodeOfSize(f, u, z);
      }
    }
  }

  lemma SizesKept(f: Forest, g: Forest)
    requires OnePerSize(f) && g.depth.Keys <= f.depth.Keys
    requires forall n :: n in g.depth && n in g.size ==> n in f.size && f.size[n] == g.size[n]
    ensures OnePerSize(g)
  {
    forall t, u, z: nat | NodeOfSize(g, t, z) && NodeOfSize(g, u, z) ensures t == u {
      assert NodeOfSize(f, t, z) && NodeOfSize(f, u, z);
    }
  }

  lemma RootInserted(f: Forest, x: Addr, s: SizeT)
    requires ForestOK(f) && Fresh(f, x, s) && f.bins[TreeBin(s)] == 0
    ensures ForestOK(AsRoot(f, x, s, TreeBin(s)))
  {
    hide Key, TreeBin, Resolved;
    var i := TreeBin(s);
    var g := AsRoot(f, x, s, i);
    forall t {:trigger NodeOK(g, t)} | t in g.depth ensures NodeOK(g, t) {
      if t != x {
        RootElsewhere(f, x, s, t);
      }
    }
    forall j: Index ensures RootOK(g, j) {
      assert RootOK(f, j);
    }
    forall n ensures !NodeOfSize(f, n, s) {
      if NodeOfSize(f, n, s) {
        assert NodeOK(f, n);
        EmptyBin(f, i, n);
      }
    }
    SizeAdded(f, g, x, s);
  }

  lemma RootElsewhere(f: Forest, x: Addr, s: SizeT, t: Addr)
    requires ForestOK(f) && Fresh(f, x, s) && TreeBin(s) < |f.bins| && f.bins[TreeBin(s)] == 0 && t in f.depth
    ensures NodeOK(AsRoot(f, x, s, TreeBin(s)), t)
  {
    hide Key, TreeBin, Resolved, K, ForestOK;
    Neighbours(f, t);
    EmptyBin(f, TreeBin(s), t);
    NodeFrame(f, AsRoot(f, x, s, TreeBin(s)), t);
  }

  // g agrees with f about n's size, bin and depth, its parent and its child on the side.
  ghost predicate SameFields(f: Forest, g: Forest, n: Addr, side: bool) {
    && SameMark(f, g, n) && n in f.parent && n in g.parent && g.parent[n] == f.parent[n]
    && Slot(n, side) in f.child && Slot(n, side) in g.child && g.child[Slot(n, side)] == f.child[Slot(n, side)]
  }

  lemma LeafFields(f: Forest, x: Addr, s: SizeT, t: Addr, side: bool, n: Addr, d: bool)
    requires Fresh(f, x, s) && NodeOK(f, n) && t in f.depth && Slot(t, side) in f.child
    requires n != t || d != side
    ensures SameFields(f, AsLeaf(f, x, s, TreeBin(s), t, side), n, d) &&
            AsLeaf(f, x, s, TreeBin(s), t, side).bins == f.bins
  {
    hide Key, TreeBin, Resolved, K, UpOK, DownOK;
  }

  lemma LeafElsewhere(f: Forest, x: Addr, s: SizeT, t: Addr, side: bool, u: Addr)
    requires ForestOK(f) && Fresh(f, x, s) && t in f.depth && u in f.depth && u != t
    requires Slot(t, side) in f.child && f.child[Slot(t, side)] == 0
    ensures NodeOK(AsLeaf(f, x, s, TreeBin(s), t, side), u)
  {
    hide Key, TreeBin, Resolved, K, ForestOK, AsLeaf;
    Neighbours(f, u);
    var g := AsLeaf(f, x, s, TreeBin(s), t, side);
    LeafFields(f, x, s, t, side, u, false);
    LeafFields(f, x, s, t, side, u, true);
    forall d: bool ensures SameDown(f, g, u, d) {
      var c := f.child[Slot(u, d)];
      if c != 0 {
        LeafFields(f, x, s, t, side, c, !side);
      }
    }
    if f.parent[u].Under? {
      var p, d := f.parent[u].node, Side(f, u, f.depth[u]);
      assert p != t || d != side;
      LeafFields(f, x, s, t, side, p, d);
    }
    NodeFrame(f, g, u);
  }

  lemma LeafInserted(f: Forest, x: Addr, s: SizeT, t: Addr)
    requires ForestOK(f) && Fresh(f, x, s) && NodeOK(f, t) && f.index[t] == TreeBin(s)
    requires f.depth[t] < Resolved(f.index[t])
    requires K(f, t, f.depth[t]) == Key(f.index[t], s, f.depth[t])
    requires f.child[Slot(t, Key(f.index[t], s, f.depth[t] + 1) % 2 == 1)] == 0
    requires forall n :: !NodeOfSize(f, n, s)
    ensures ForestOK(AsLeaf(f, x, s, TreeBin(s), t, Key(f.index[t], s, f.depth[t] + 1) % 2 == 1))
  {
    hide Key, TreeBin, Resolved, K;
    var side := Key(f.index[t], s, f.depth[t] + 1) % 2 == 1;
    var g := AsLeaf(f, x, s, TreeBin(s), t, side);
    Neighbours(f, t);
    NewLeaf(f, x, s, t);
    LeafParent(f, x, s, t);
    forall u {:trigger NodeOK(g, u)} | u in g.depth ensures NodeOK(g, u) {
      if u != x && u != t {
        LeafElsewhere(f, x, s, t, side, u);
      }
    }
    forall j: Index ensures RootOK(g, j) {
      assert RootOK(f, j);
    }
    SizeAdded(f, g, x, s);
  }

  lemma NewLeaf(f: Forest, x: Addr, s: SizeT, t: Addr)
    requires Fresh(f, x, s) && NodeOK(f, t) && f.index[t] == TreeBin(s)
    requires f.depth[t] < Resolved(f.index[t])
    requires K(f, t, f.depth[t]) == Key(f.index[t], s, f.depth[t])
    ensures NodeOK(AsLeaf(f, x, s, TreeBin(s), t, Key(f.index[t], s, f.depth[t] + 1) % 2 == 1), x)
  {
    hide Key, TreeBin, Resolved;
    var g := AsLeaf(f, x, s, TreeBin(s), t, Key(f.index[t], s, f.depth[t] + 1) % 2 == 1);
    assert t != x;
    assert g.child[Slot(x, false)] == 0 && g.child[Slot(x, true)] == 0;
    assert UpOK(g, x);
  }

  lemma LeafParent(f: Forest, x: Addr, s: SizeT, t: Addr)
    requires Fresh(f, x, s) && NodeOK(f, t) && f.index[t] == TreeBin(s)
    requires f.parent[t].Under? ==> NodeOK(f, f.parent[t].node)
    requires f.child[Slot(t, false)] != 0 ==> NodeOK(f, f.child[Slot(t, false)])
    requires f.child[Slot(t, true)] != 0 ==> NodeOK(f, f.child[Slot(t, true)])
    requires f.depth[t] < Resolved(f.index[t])
    requires K(f, t, f.depth[t]) == Key(f.index[t], s, f.depth[t])
    requires f.child[Slot(t, Key(f.index[t], s, f.depth[t] + 1) % 2 == 1)] == 0
    ensures NodeOK(AsLeaf(f, x, s, TreeBin(s), t, Key(f.index[t], s, f.depth[t] + 1) % 2 == 1), t)
  {
    hide Key, TreeBin, Resolved, AsLeaf;
    var side := Key(f.index[t], s, f.depth[t] + 1) % 2 == 1;
    var g := AsLeaf(f, x, s, TreeBin(s), t, side);
    LeafFields(f, x, s, t, side, t, !side);
    var c := f.child[Slot(t, !side)];
    if c != 0 {
      LeafFields(f, x, s, t, side, c, !side);
    }
    if f.parent[t].Under? {
      LeafFields(f, x, s, t, side, f.parent[t].node, Side(f, t, f.depth[t]));
    }
    LeafBelow(f, x, s, t);
  }

  lemma LeafBelow(f: Forest, x: Addr, s: SizeT, t: Addr)
    requires Fresh(f, x, s) && NodeOK(f, t) && f.index[t] == TreeBin(s) && f.depth[t] < Resolved(f.index[t])
    ensures var side := Key(f.index[t], s, f.depth[t] + 1) % 2 == 1;
            var g := AsLeaf(f, x, s, TreeBin(s), t, side);
            t in g.depth && Slot(t, side) in g.child && DownOK(g, t, side)
  {
    hide Key, TreeBin, Resolved;
  }

  lemma TwinInserted(f: Forest, x: Addr, s: SizeT)
    requires ForestOK(f) && Fresh(f, x, s)
    ensures ForestOK(AsTwin(f, x, s, TreeBin(s)))
  {
    hide Key, TreeBin, Resolved;
    var g := AsTwin(f, x, s, TreeBin(s));
    forall t {:trigger NodeOK(g, t)} | t in g.depth ensures NodeOK(g, t) {
      Neighbours(f, t);
      NodeFrame(f, g, t);
    }
    forall j: Index ensures RootOK(g, j) {
      assert RootOK(f, j);
    }
    SizesKept(f, g);
  }

  // ---- Removal ------------------------------------------------------------------------

  ghost predicate IsLeaf(f: Forest, x: Addr) {
    && Slot(x, false) in f.child && f.child[Slot(x, false)] == 0
    && Slot(x, true) in f.child && f.child[Slot(x, true)] == 0
  }

  // The side on which p's link to x is found, looking left first.
  function LinkSide(f: Forest, p: Addr, x: Addr): bool {
    !(Slot(p, false) in f.child && f.child[Slot(p, false)] == x)
  }

  // x's parent's or bin's link to it becomes r.
  function Relinked(f: Forest, x: Addr, r: Addr): Forest
    requires x in f.parent
  {
    match f.parent[x]
    case Chained => f
    case AtBin(i) => if i < |f.bins| then f.(bins := f.bins[i := r]) else f
    case Under(p) => f.(child := f.child[Slot(p, LinkSide(f, p, x)) := r])
  }

  // A leaf taken out of its tree; its own links stay.
  ghost function LeafDetached(f: Forest, x: Addr): Forest
    requires x in f.parent
  {
    Relinked(f, x, 0).(depth := f.depth - {x})
  }

  function Forgotten(f: Forest, x: Addr): Forest {
    f.(size := f.size - {x})
  }

  // A node hangs under its parent on the side of its last resolved bit, and only there.
  lemma OnlyLink(f: Forest, x: Addr)
    requires ForestOK(f) && NodeOK(f, x)
    ensures forall t, side :: NodeOK(f, t) && f.child[Slot(t, side)] == x ==>
                                f.parent[x] == Under(t) && side == Side(f, x, f.depth[x])
    ensures forall i: Index :: f.bins[i] == x ==> f.parent[x] == AtBin(i)
    ensures f.parent[x].Under? ==>
              var p := f.parent[x].node;
              NodeOK(f, p) && p != x && LinkSide(f, p, x) == Side(f, x, f.depth[x])
  {
    hide Key, TreeBin, Resolved, K;
    if f.parent[x].Under? {
      assert NodeOK(f, f.parent[x].node);
    }
    forall t, side | NodeOK(f, t) && f.child[Slot(t, side)] == x
      ensures f.parent[x] == Under(t) && side == Side(f, x, f.depth[x])
    {
      assert side == false || side == true;
    }
    forall i: Index | f.bins[i] == x ensures f.parent[x] == AtBin(i) {
      assert RootOK(f, i);
    }
  }

  lemma LeafRemoved(f: Forest, x: Addr)
    requires ForestOK(f) && NodeOK(f, x) && IsLeaf(f, x)
    ensures ForestOK(LeafDetached(f, x))
  {
    hide Key, TreeBin, Resolved, K;
    var g := LeafDetached(f, x);
    OnlyLink(f, x);
    forall t {:trigger NodeOK(g, t)} | t in g.depth ensures NodeOK(g, t) {
      DetachedNode(f, x, t);
    }
    forall j: Index ensures RootOK(g, j) {
      assert RootOK(f, j);
    }
    SizesKept(f, g);
  }

  lemma DetachedNode(f: Forest, x: Addr, t: Addr)
    requires ForestOK(f) && NodeOK(f, x) && IsLeaf(f, x) && t in f.depth && t != x
    ensures NodeOK(LeafDetached(f, x), t)
  {
    hide Key, TreeBin, Resolved;
    var g := LeafDetached(f, x);
    OnlyLink(f, x);
    Neighbours(f, t);
    OnlyLink(f, t);
    if f.parent[x] == Under(t) {
      var side := Side(f, x, f.depth[x]);
      assert Stored(g, t) && UpOK(g, t);
      assert DownOK(g, t, side);
      assert DownOK(f, t, !side);
      assert DownOK(g, t, !side);
    } else {
      NodeFrame(f, g, t);
    }
  }

  // A stored chunk outside the tree is forgotten.
  lemma TwinRemoved(f: Forest, x: Addr)
    requires ForestOK(f) && x !in f.depth
    ensures ForestOK(Forgotten(f, x))
  {
    hide Key, TreeBin, Resolved;
    var g := Forgotten(f, x);
    forall t {:trigger NodeOK(g, t)} | t in g.depth ensures NodeOK(g, t) {
      Neighbours(f, t);
      NodeFrame(f, g, t);
    }
    forall j: Index ensures RootOK(g, j) {
      assert RootOK(f, j);
    }
    SizesKept(f, g);
  }

  function Adopted(f: Forest, r: Addr, c: Addr, side: bool): Forest {
    if c == 0 then f
    else f.(child := f.child[Slot(r, side) := c], parent := f.parent[c := Under(r)])
  }

  // r takes over the place of x: x's parent or bin links to r, and r adopts x's children.
  ghost function Replaced(f: Forest, x: Addr, r: Addr): Forest
    requires x in f.parent && Slot(x, false) in f.child && Slot(x, true) in f.child && x in f.depth
  {
    var g1 := Relinked(f, x, r);
    var g2 := g1.(parent := g1.parent[r := f.parent[x]]);
    var g3 := Adopted(g2, r, f.child[Slot(x, false)], false);
    Adopted(g3, r, f.child[Slot(x, true)], true).(depth := (f.depth - {x})[r := f.depth[x]])
  }

  ghost predicate CanReplace(f: Forest, x: Addr, r: Addr) {
    && NodeOK(f, x) && r !in f.depth && Stored(f, r) && IsLeaf(f, r)
    && f.index[r] == f.index[x] && K(f, r, f.depth[x]) == K(f, x, f.depth[x])
  }

  // What the replacement changed, link by link.
  lemma ReplacedLinks(f: Forest, x: Addr, r: Addr)
    requires ForestOK(f) && CanReplace(f, x, r)
    ensures var g := Replaced(f, x, r);
            && g.size == f.size && g.index == f.index && |g.bins| == |f.bins|
            && (forall i: Index :: g.bins[i] == if f.parent[x] == AtBin(i) then r else f.bins[i])
            && (forall t, side :: NodeOK(f, t) && t != x ==>
                  && Slot(t, side) in g.child
                  && g.child[Slot(t, side)] ==
                     if f.parent[x] == Under(t) && side == Side(f, x, f.depth[x]) then r else f.child[Slot(t, side)])
            && (forall side :: Slot(r, side) in g.child && g.child[Slot(r, side)] == f.child[Slot(x, side)])
            && r in g.parent && g.parent[r] == f.parent[x]
            && (forall t :: NodeOK(f, t) && t != x ==>
                  t in g.parent && g.parent[t] == if f.parent[t] == Under(x) then Under(r) else f.parent[t])
  {
    hide Key, TreeBin, Resolved, K;
    OnlyLink(f, x);
    Neighbours(f, x);
    var g := Replaced(f, x, r);
    forall t, side: bool | NodeOK(f, t) && t != x
      ensures && Slot(t, side) in g.child
              && g.child[Slot(t, side)] ==
                 if f.parent[x] == Under(t) && side == Side(f, x, f.depth[x]) then r else f.child[Slot(t, side)]
    {
      assert side == false || side == true;
    }
    forall side ensures Slot(r, side) in g.child && g.child[Slot(r, side)] == f.child[Slot(x, side)] {
      assert side == false || side == true;
    }
    ReplacedParents(f, x, r);
  }

  lemma ReplacedParents(f: Forest, x: Addr, r: Addr)
    requires ForestOK(f) && CanReplace(f, x, r)
    ensures var g := Replaced(f, x, r);
            && r in g.parent && g.parent[r] == f.parent[x]
            && (forall t :: NodeOK(f, t) && t != x ==>
                  t in g.parent && g.parent[t] == if f.parent[t] == Under(x) then Under(r) else f.parent[t])
  {
    hide Key, TreeBin, Resolved, K;
    Neighbours(f, x);
    var g := Replaced(f, x, r);
    var c0, c1 := f.child[Slot(x, false)], f.child[Slot(x, true)];
    forall t | NodeOK(f, t) && t != x
      ensures t in g.parent && g.parent[t] == if f.parent[t] == Under(x) then Under(r) else f.parent[t]
    {
      hide NodeOK;
      ChildOf(f, t, x);
      assert t != r;
      assert g.parent[t] == if t == c0 || t == c1 then Under(r) else f.parent[t];
    }
  }

  lemma ChildOf(f: Forest, t: Addr, x: Addr)
    requires ForestOK(f) && NodeOK(f, t) && NodeOK(f, x)
    ensures f.parent[t] == Under(x) <==> t == f.child[Slot(x, false)] || t == f.child[Slot(x, true)]
    ensures t != 0
  {
    hide Key, TreeBin, Resolved, K;
  }

  // The replacement keeps every key: r's size agrees with x on the bits x's place resolves.
  lemma NodeReplaced(f: Forest, x: Addr, r: Addr)
    requires ForestOK(f) && CanReplace(f, x, r)
    requires forall n :: n != x ==> !NodeOfSize(f, n, f.size[r])
    ensures ForestOK(Replaced(f, x, r))
  {
    hide Key, TreeBin, Resolved, K;
    var g := Replaced(f, x, r);
    forall t {:trigger NodeOK(g, t)} | t in g.depth ensures NodeOK(g, t) {
      if t == r {
        Replacement(f, x, r);
      } else {
        ReplacedNode(f, x, r, t);
      }
    }
    ReplacedLinks(f, x, r);
    forall j: Index ensures RootOK(g, j) {
      assert RootOK(f, j);
      if f.bins[j] != 0 {
        assert NodeOK(f, f.bins[j]);
      }
    }
    forall t, u, z: nat | NodeOfSize(g, t, z) && NodeOfSize(g, u, z) ensures t == u {
      if t != r {
        assert NodeOfSize(f, t, z);
      }
      if u != r {
        assert NodeOfSize(f, u, z);
      }
    }
  }

  lemma Replacement(f: Forest, x: Addr, r: Addr)
    requires ForestOK(f) && CanReplace(f, x, r)
    ensures NodeOK(Replaced(f, x, r), r)
  {
    hide Key, TreeBin, Resolved;
    var g := Replaced(f, x, r);
    ReplacedLinks(f, x, r);
    Neighbours(f, x);
    OnlyLink(f, x);
    if f.parent[x].Under? {
      var p := f.parent[x].node;
      KeyCoarser(f.index[x], f.size[x], f.size[r], f.depth[p], f.depth[x]);
    }
    assert UpOK(g, r);
    assert DownOK(g, r, false) by { AdoptedChild(f, x, r, false); }
    assert DownOK(g, r, true) by { AdoptedChild(f, x, r, true); }
  }

  lemma AdoptedChild(f: Forest, x: Addr, r: Addr, side: bool)
    requires ForestOK(f) && CanReplace(f, x, r)
    ensures var g := Replaced(f, x, r);
            && r in g.depth && Slot(r, side) in g.child && DownOK(g, r, side)
  {
    hide ForestOK, Key, TreeBin, Resolved;
    var g, c := Replaced(f, x, r), f.child[Slot(x, side)];
    assert g.size == f.size && g.index == f.index && Slot(r, side) in g.child && g.child[Slot(r, side)] == c by {
      ReplacedLinks(f, x, r);
    }
    if c != 0 {
      ChildDepth(f, x, side);
      assert c in g.parent && g.parent[c] == Under(r) by {
        ReplacedLinks(f, x, r);
      }
    }
  }

  lemma ReplacedNode(f: Forest, x: Addr, r: Addr, t: Addr)
    requires ForestOK(f) && CanReplace(f, x, r)
    requires t in f.depth && t != x && t != r
    ensures NodeOK(Replaced(f, x, r), t)
  {
    hide Key, TreeBin, Resolved;
    var g := Replaced(f, x, r);
    ReplacedLinks(f, x, r);
    Neighbours(f, t);
    OnlyLink(f, x);
    OnlyLink(f, t);
    assert Stored(g, t) && t in g.depth && g.depth[t] == f.depth[t];
    assert UpOK(g, t) by {
      if f.parent[t] == Under(x) {
        assert g.parent[t] == Under(r);
      }
    }
    assert DownOK(g, t, false) by { ReplacedDown(f, x, r, t, false); }
    assert DownOK(g, t, true) by { ReplacedDown(f, x, r, t, true); }
  }

  lemma ReplacedDown(f: Forest, x: Addr, r: Addr, t: Addr, side: bool)
    requires ForestOK(f) && CanReplace(f, x, r)
    requires NodeOK(f, t) && t != x && t != r
    ensures var g := Replaced(f, x, r);
            t in g.depth && Slot(t, side) in g.child && DownOK(g, t, side)
  {
    hide Key, TreeBin, Resolved;
    ReplacedLinks(f, x, r);
    Neighbours(f, t);
    OnlyLink(f, x);
    var c := f.child[Slot(t, side)];
    if c != 0 && c != x {
      ChildDepth(f, t, side);
    }
  }
}
