// The rings of equal-sized chunks that hang off the nodes of the tree bins.

module Chains {
  import opened Words
  import opened BinIndex
  import opened Rings
  import opened Forest

  // ring lists the chunks of a tree node's size in fd order; owner names that node.
  datatype Chains = Chains(fd: Links, bk: Links, ghost ring: map<Addr, seq<Addr>>, ghost owner: map<Addr, Addr>)

  ghost predicate RingOK(c: Chains, t: Addr) {
    && t in c.ring && t in c.ring[t] && IsRing(c.fd, c.bk, c.ring[t])
    && (forall x :: x in c.ring[t] ==> x in c.owner && c.owner[x] == t)
  }

  ghost predicate MemberOK(f: Forest, c: Chains, x: Addr) {
    && Stored(f, x)
    && x in c.owner && c.owner[x] in f.depth && c.owner[x] in c.ring && x in c.ring[c.owner[x]]
    && c.owner[x] in f.size && f.size[x] == f.size[c.owner[x]]
    && (x in f.depth ==> c.owner[x] == x)
    && (x !in f.depth ==> f.parent[x] == Chained && IsLeaf(f, x))
  }

  // Every stored chunk is in the ring of the one tree node of its size.
  ghost predicate ChainsOK(f: Forest, c: Chains) {
    && c.ring.Keys == f.depth.Keys
    && c.owner.Keys == f.size.Keys
    && (forall t {:trigger RingOK(c, t)} :: t in c.ring ==> RingOK(c, t))
    && (forall x {:trigger MemberOK(f, c, x)} :: x in f.size ==> MemberOK(f, c, x))
  }

  lemma OwnerSize(f: Forest, c: Chains, x: Addr)
    requires ForestOK(f) && ChainsOK(f, c) && x in f.size
    ensures MemberOK(f, c, x) && NodeOK(f, c.owner[x]) && RingOK(c, c.owner[x])
    ensures f.index[x] == f.index[c.owner[x]]
  {
    assert MemberOK(f, c, x);
    assert NodeOK(f, c.owner[x]);
    assert RingOK(c, c.owner[x]);
  }

  lemma RingKept(c: Chains, d: Chains, t: Addr)
    requires RingOK(c, t) && t in d.ring && d.ring[t] == c.ring[t]
    requires forall x :: x in c.ring[t] ==> x in d.owner && d.owner[x] == t
    requires forall x :: x in c.ring[t] && x in c.fd ==> x in d.fd && d.fd[x] == c.fd[x]
    requires forall x :: x in c.ring[t] && x in c.bk ==> x in d.bk && d.bk[x] == c.bk[x]
    ensures RingOK(d, t)
  {
    RingFrame(c.fd, c.bk, d.fd, d.bk, c.ring[t]);
  }

  // ---- A new ring ---------------------------------------------------------------------

  ghost function WithAlone(c: Chains, x: Addr): Chains {
    Chains(c.fd[x := x], c.bk[x := x], c.ring[x := [x]], c.owner[x := x])
  }

  ghost predicate TreeGained(f: Forest, g: Forest, x: Addr) {
    && g.size.Keys == f.size.Keys + {x} && x !in f.size && Stored(g, x)
    && g.depth.Keys == f.depth.Keys + {x}
    && OthersKept(f, g, x)
  }

  // g keeps what the chains need of every stored chunk of f other than x.
  ghost predicate OthersKept(f: Forest, g: Forest, x: Addr) {
    forall y :: y in f.size && y != x && Stored(f, y) ==>
                  && Stored(g, y) && g.size[y] == f.size[y] && (y in g.depth <==> y in f.depth)
                  && (y !in f.depth && f.parent[y] == Chained ==> g.parent[y] == Chained)
                  && (y !in f.depth && IsLeaf(f, y) ==> IsLeaf(g, y))
  }

  lemma AloneAdded(f: Forest, g: Forest, c: Chains, x: Addr)
    requires ChainsOK(f, c) && TreeGained(f, g, x)
    ensures ChainsOK(g, WithAlone(c, x))
  {
    hide Stored, IsLeaf;
    var d := WithAlone(c, x);
    forall t {:trigger RingOK(d, t)} | t in d.ring ensures RingOK(d, t) {
      if t != x {
        assert RingOK(c, t);
        forall y | y in c.ring[t] ensures y != x {
          assert y in c.owner;
        }
        RingKept(c, d, t);
      }
    }
    forall y {:trigger MemberOK(g, d, y)} | y in g.size ensures MemberOK(g, d, y) {
      if y != x {
        assert MemberOK(f, c, y);
        assert MemberOK(f, c, c.owner[y]);
      }
    }
  }

  // ---- A longer ring ------------------------------------------------------------------

  ghost function WithTwin(c: Chains, x: Addr, t: Addr, k: nat): Chains
    requires t in c.ring && k < |c.ring[t]| && t in c.fd
  {
    var s := Rotated(c.ring[t], k);
    Chains(c.fd[t := x][x := c.fd[t]], c.bk[c.fd[t] := x][x := t],
           c.ring[t := [t, x] + s[1..]], c.owner[x := t])
  }

  ghost predicate TwinGained(f: Forest, g: Forest, x: Addr) {
    && g.size.Keys == f.size.Keys + {x} && x !in f.size && Stored(g, x)
    && g.depth == f.depth && x !in f.depth && g.parent[x] == Chained && IsLeaf(g, x)
    && OthersKept(f, g, x)
  }

  lemma RingLengthened(f: Forest, c: Chains, x: Addr, t: Addr, k: nat)
    requires ChainsOK(f, c) && x !in f.size
    requires t in c.ring && k < |c.ring[t]| && c.ring[t][k] == t && t in c.fd
    ensures forall u :: u in WithTwin(c, x, t, k).ring ==> RingOK(WithTwin(c, x, t, k), u)
    ensures forall y :: y in WithTwin(c, x, t, k).ring[t] <==> y in c.ring[t] || y == x
  {
    hide Stored, IsLeaf, Rotated;
    var d := WithTwin(c, x, t, k);
    assert RingOK(c, t);
    assert x !in c.ring[t];
    RingInsert(c.fd, c.bk, c.ring[t], k, x);
    forall u {:trigger RingOK(d, u)} | u in d.ring ensures RingOK(d, u) {
      if u != t {
        assert RingOK(c, u);
        forall y | y in c.ring[u] ensures y != x && y !in c.ring[t] {
          assert y in c.owner && c.owner[y] == u;
        }
        RingKept(c, d, u);
      }
    }
  }

  lemma TwinAdded(f: Forest, g: Forest, c: Chains, x: Addr, t: Addr, k: nat)
    requires ChainsOK(f, c) && TwinGained(f, g, x)
    requires t in c.ring && k < |c.ring[t]| && c.ring[t][k] == t && t in c.fd
    requires t in f.size && Stored(f, t) && f.size[t] == g.size[x]
    ensures ChainsOK(g, WithTwin(c, x, t, k))
  {
    hide Stored, IsLeaf, IsRing, Rotated;
    RingLengthened(f, c, x, t, k);
    forall y {:trigger MemberOK(g, WithTwin(c, x, t, k), y)} | y in g.size
      ensures MemberOK(g, WithTwin(c, x, t, k), y)
    {
      if y != x {
        assert MemberOK(f, c, y);
        assert MemberOK(f, c, c.owner[y]);
      }
    }
  }

  // ---- A shorter ring -----------------------------------------------------------------

  // x leaves the ring of its owner t, which r now owns.
  ghost function WithoutTwin(c: Chains, x: Addr, t: Addr, k: nat, r: Addr): Chains
    requires t in c.ring && k < |c.ring[t]| && x in c.fd && x in c.bk
  {
    Chains(c.fd[c.bk[x] := c.fd[x]], c.bk[c.fd[x] := c.bk[x]],
           (c.ring - {t})[r := Removed(c.ring[t], k)],
           map y | y in c.owner && y != x :: if c.owner[y] == t then r else c.owner[y])
  }

  // The tree lost x; if x was the node t, then r is the node in its place.
  ghost predicate TwinLost(f: Forest, g: Forest, x: Addr, t: Addr, r: Addr) {
    && x in f.size && g.size.Keys == f.size.Keys - {x}
    && t in f.depth && g.depth.Keys == f.depth.Keys - {t} + {r}
    && (r == t || r !in f.depth)
    && (if x == t then r != t else r == t)
    && (forall y :: y in f.size && y != x && Stored(f, y) ==>
          && Stored(g, y) && g.size[y] == f.size[y]
          && (y !in f.depth && y != r ==>
                (f.parent[y] == Chained ==> g.parent[y] == Chained) && (IsLeaf(f, y) ==> IsLeaf(g, y))))
  }

  lemma RingShortened(f: Forest, c: Chains, x: Addr, t: Addr, k: nat, r: Addr)
    requires ChainsOK(f, c) && t in c.ring && k < |c.ring[t]| && c.ring[t][k] == x && x in c.fd && x in c.bk
    requires |c.ring[t]| > 1 && r in c.ring[t] && r != x
    requires r == t || r !in c.ring
    ensures var d := WithoutTwin(c, x, t, k, r);
            forall u :: u in d.ring ==> RingOK(d, u)
    ensures forall y :: y in Removed(c.ring[t], k) <==> y in c.ring[t] && y != x
  {
    var d := WithoutTwin(c, x, t, k, r);
    assert RingOK(c, t);
    RingRemove(c.fd, c.bk, c.ring[t], k);
    RemovedMembers(c.ring[t], k);
    RingAlone(c.fd, c.bk, c.ring[t], k);
    forall u {:trigger RingOK(d, u)} | u in d.ring ensures RingOK(d, u) {
      if u != r {
        OtherRing(f, c, x, t, k, r, u);
      }
    }
  }

  lemma OtherRing(f: Forest, c: Chains, x: Addr, t: Addr, k: nat, r: Addr, u: Addr)
    requires ChainsOK(f, c) && t in c.ring && k < |c.ring[t]| && c.ring[t][k] == x && x in c.fd && x in c.bk
    requires u in c.ring && u != t && u != r && c.fd[x] in c.ring[t] && c.bk[x] in c.ring[t]
    ensures RingOK(WithoutTwin(c, x, t, k, r), u)
  {
    hide IsRing, Removed;
    var d := WithoutTwin(c, x, t, k, r);
    assert RingOK(c, t) && RingOK(c, u);
    forall y | y in c.ring[u] ensures y !in c.ring[t] {
      assert y in c.owner && c.owner[y] == u;
    }
    RingKept(c, d, u);
  }

  lemma TwinDropped(f: Forest, g: Forest, c: Chains, x: Addr, t: Addr, k: nat, r: Addr)
    requires ChainsOK(f, c) && TwinLost(f, g, x, t, r)
    requires t in c.ring && k < |c.ring[t]| && c.ring[t][k] == x && x in c.fd && x in c.bk
    requires |c.ring[t]| > 1 && r in c.ring[t]
    ensures ChainsOK(g, WithoutTwin(c, x, t, k, r))
  {
    hide Stored, IsLeaf, IsRing;
    RingShortened(f, c, x, t, k, r);
    var d := WithoutTwin(c, x, t, k, r);
    assert d.ring.Keys == g.depth.Keys;
    assert d.owner.Keys == g.size.Keys;
    forall y {:trigger MemberOK(g, d, y)} | y in g.size ensures MemberOK(g, d, y) {
      OthersStay(f, g, c, x, t, k, r, y);
    }
  }

  lemma OthersStay(f: Forest, g: Forest, c: Chains, x: Addr, t: Addr, k: nat, r: Addr, y: Addr)
    requires ChainsOK(f, c) && TwinLost(f, g, x, t, r) && y in g.size
    requires t in c.ring && k < |c.ring[t]| && c.ring[t][k] == x && x in c.fd && x in c.bk
    requires |c.ring[t]| > 1 && r in c.ring[t]
    requires forall y :: y in Removed(c.ring[t], k) <==> y in c.ring[t] && y != x
    ensures MemberOK(g, WithoutTwin(c, x, t, k, r), y)
  {
    hide Stored, IsLeaf, IsRing, Removed;
    assert RingOK(c, t);
    assert MemberOK(f, c, x) && MemberOK(f, c, r) && MemberOK(f, c, t);
    assert MemberOK(f, c, y);
    assert MemberOK(f, c, c.owner[y]);
    if c.owner[y] != t && y in f.depth {
      assert y != r;
    }
  }

  // ---- A ring gone --------------------------------------------------------------------

  ghost function WithoutRing(c: Chains, x: Addr): Chains {
    Chains(c.fd, c.bk, c.ring - {x}, c.owner - {x})
  }

  ghost predicate NodeLost(f: Forest, g: Forest, x: Addr) {
    && g.size.Keys == f.size.Keys - {x}
    && g.depth.Keys == f.depth.Keys - {x}
    && (forall y :: y in f.size && y != x && Stored(f, y) ==>
          && Stored(g, y) && g.size[y] == f.size[y]
          && (y !in f.depth ==>
                (f.parent[y] == Chained ==> g.parent[y] == Chained) && (IsLeaf(f, y) ==> IsLeaf(g, y))))
  }

  lemma RingDropped(f: Forest, g: Forest, c: Chains, x: Addr)
    requires ChainsOK(f, c) && NodeLost(f, g, x) && x in f.depth && x in f.size
    requires c.ring[x] == [x]
    ensures ChainsOK(g, WithoutRing(c, x))
  {
    hide Stored, IsLeaf;
    var d := WithoutRing(c, x);
    assert RingOK(c, x);
    forall t {:trigger RingOK(d, t)} | t in d.ring ensures RingOK(d, t) {
      assert RingOK(c, t);
      RingKept(c, d, t);
    }
    forall y {:trigger MemberOK(g, d, y)} | y in g.size ensures MemberOK(g, d, y) {
      assert MemberOK(f, c, y);
      assert MemberOK(f, c, c.owner[y]);
    }
  }
}
