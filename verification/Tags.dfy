// Boundary tags: the head word of every chunk and the prev_foot word after every free one,
// the macros that write them, and the chunks they stand for.

module Tags {
  import opened Words
  import opened Rings
  import opened Tiling

  const PINUSE_BIT: nat := 1
  const CINUSE_BIT: nat := 2

  // head[p] is the head field of the chunk at p and foot[p] its prev_foot field. While the
  // chunk before p is in use that field is the last word of its payload.
  datatype Tags = Tags(head: map<Addr, nat>, foot: map<Addr, nat>)

  function ChunkSize(w: nat): nat { w / 8 * 8 }

  predicate Pinuse(w: nat) { w % 2 == 1 }

  predicate Cinuse(w: nat) { w / 2 % 2 == 1 }

  // w | PINUSE_BIT
  function WithPinuse(w: nat): nat { if Pinuse(w) then w else w + PINUSE_BIT }

  // w & ~PINUSE_BIT
  function WithoutPinuse(w: nat): nat { if Pinuse(w) then w - PINUSE_BIT else w }

  function HeadWord(c: Chunk): nat {
    c.size + (if c.pinuse then PINUSE_BIT else 0) + (if c.cinuse then CINUSE_BIT else 0)
  }

  // set_inuse_and_pinuse
  function SetInuseAndPinuse(t: Tags, p: Addr, s: nat): Tags
    requires p + s in t.head && s > 0
  {
    var head := t.head[p := s + PINUSE_BIT + CINUSE_BIT];
    t.(head := head[p + s := WithPinuse(head[p + s])])
  }

  // set_size_and_pinuse_of_inuse_chunk
  function SetSizeAndPinuseOfInuse(t: Tags, p: Addr, s: nat): Tags {
    t.(head := t.head[p := s + PINUSE_BIT + CINUSE_BIT])
  }

  // set_size_and_pinuse_of_free_chunk
  function SetSizeAndPinuseOfFree(t: Tags, p: Addr, s: nat): Tags {
    t.(head := t.head[p := s + PINUSE_BIT], foot := t.foot[p + s := s])
  }

  // set_free_with_pinuse
  function SetFreeWithPinuse(t: Tags, p: Addr, s: nat, n: Addr): Tags
    requires n in t.head
  {
    SetSizeAndPinuseOfFree(t.(head := t.head[n := WithoutPinuse(t.head[n])]), p, s)
  }

  ghost predicate TagOK(t: Tags, cs: Chunks, p: Addr) {
    && p in cs && p in t.head && t.head[p] == HeadWord(cs[p])
    && (!cs[p].cinuse && Next(cs, p) in cs ==> Next(cs, p) in t.foot && t.foot[Next(cs, p)] == cs[p].size)
  }

  ghost predicate TagsOK(t: Tags, cs: Chunks) {
    forall p {:trigger TagOK(t, cs, p)} :: p in cs ==> TagOK(t, cs, p)
  }

  // Around a chunk x that an operation has in hand its own tags need not be written yet, nor,
  // while stale, the pinuse bit after it.
  ghost predicate TagsBut(t: Tags, cs: Chunks, x: Addr, stale: bool) {
    && x in cs && !cs[x].cinuse
    && (forall p {:trigger TagOK(t, cs, p)} :: p in cs && p != x && p != Next(cs, x) ==> TagOK(t, cs, p))
    && (Next(cs, x) in cs ==> NextTagOK(t, cs, Next(cs, x), stale))
  }

  ghost predicate NextTagOK(t: Tags, cs: Chunks, n: Addr, stale: bool) {
    && n in cs && n in t.head && t.head[n] == HeadWord(cs[n].(pinuse := stale || cs[n].pinuse))
    && (!cs[n].cinuse && Next(cs, n) in cs ==> Next(cs, n) in t.foot && t.foot[Next(cs, n)] == cs[n].size)
  }

  // A head word tells size and both bits.
  lemma HeadRead(c: Chunk)
    requires c.size % 8 == 0
    ensures ChunkSize(HeadWord(c)) == c.size && (Pinuse(HeadWord(c)) <==> c.pinuse) &&
            (Cinuse(HeadWord(c)) <==> c.cinuse)
  {
    FlagBits(c.size / 8, (if c.pinuse then 1 else 0) + (if c.cinuse then 2 else 0));
  }

  lemma FlagBits(k: nat, b: nat)
    requires b < 4
    ensures (8 * k + b) / 8 == k && (8 * k + b) % 2 == b % 2 && (8 * k + b) / 2 % 2 == b / 2
  {
    QuotientUnique(8 * k + b, 8, k, b);
    QuotientUnique(8 * k + b, 2, 4 * k + b / 2, b % 2);
    QuotientUnique(4 * k + b / 2, 2, 2 * k, b / 2);
  }

  lemma PinuseBit(c: Chunk)
    requires c.size % 8 == 0
    ensures WithPinuse(HeadWord(c)) == HeadWord(c.(pinuse := true))
    ensures WithoutPinuse(HeadWord(c)) == HeadWord(c.(pinuse := false))
  {
    HeadRead(c);
  }

  lemma PlainWords(c: Chunk)
    ensures c.pinuse && c.cinuse ==> HeadWord(c) == c.size + PINUSE_BIT + CINUSE_BIT
    ensures c.pinuse && !c.cinuse ==> HeadWord(c) == c.size + PINUSE_BIT
  {
  }

  // What the tags tell about a chunk and its neighbours.
  lemma Read(t: Tags, cs: Chunks, p: Addr)
    requires Tiled(cs) && TagsOK(t, cs) && p in cs
    ensures p in t.head && ChunkSize(t.head[p]) == cs[p].size
    ensures (Pinuse(t.head[p]) <==> cs[p].pinuse) && (Cinuse(t.head[p]) <==> cs[p].cinuse)
    ensures !cs[p].pinuse ==>
              p in t.foot && cs[p].prev == p - t.foot[p] && cs[p].prev in cs && cs[cs[p].prev].size == t.foot[p]
  {
    Neighbours(cs, p);
    assert TagOK(t, cs, p);
    HeadRead(cs[p]);
    if !cs[p].pinuse {
      assert TagOK(t, cs, cs[p].prev);
    }
  }

  lemma SetInuseTags(t: Tags, cs: Chunks, p: Addr)
    requires Tiled(cs) && TagsOK(t, cs) && p in cs && cs[p].pinuse && Next(cs, p) in cs
    ensures Next(cs, p) in t.head && cs[p].size > 0
    ensures TagsOK(SetInuseAndPinuse(t, p, cs[p].size), Marked(cs, p, true))
  {
    hide HeadWord, WithPinuse;
    var n := Next(cs, p);
    Neighbours(cs, p);
    assert TagOK(t, cs, p) && TagOK(t, cs, n);
    PinuseBit(cs[n]);
    PlainWords(cs[p].(cinuse := true));
    var u, ds := SetInuseAndPinuse(t, p, cs[p].size), Marked(cs, p, true);
    forall q {:trigger TagOK(u, ds, q)} | q in ds ensures TagOK(u, ds, q) {
      assert TagOK(t, cs, q);
    }
  }

  // A free chunk is cut: the front is put in use, the rest is tagged free.
  lemma SplitTags(t: Tags, cs: Chunks, p: Addr, nb: nat)
    requires Tiled(cs) && TagsOK(t, cs) && p in cs && cs[p].pinuse && !cs[p].cinuse && 0 < nb < cs[p].size
    ensures TagsOK(SetSizeAndPinuseOfFree(SetSizeAndPinuseOfInuse(t, p, nb), p + nb, cs[p].size - nb),
                   Split(cs, p, nb, true, false))
  {
    var u := SetSizeAndPinuseOfFree(SetSizeAndPinuseOfInuse(t, p, nb), p + nb, cs[p].size - nb);
    var ds := Split(cs, p, nb, true, false);
    NoneInside(cs, p, p + nb);
    Neighbours(cs, p);
    forall q {:trigger TagOK(u, ds, q)} | q in ds ensures TagOK(u, ds, q) {
      if q != p && q != p + nb {
        assert TagOK(t, cs, q) && ChunkOK(cs, q);
        assert Apart(cs, p, q) && Apart(cs, q, p);
      }
    }
  }

  // The last chunk of a segment is cut: its rest has no foot.
  lemma SplitLastTags(t: Tags, cs: Chunks, p: Addr, nb: nat)
    requires Tiled(cs) && TagsOK(t, cs) && p in cs && cs[p].pinuse && 0 < nb < cs[p].size && Next(cs, p) !in cs
    ensures TagsOK(SetSizeAndPinuseOfInuse(t.(head := t.head[p + nb := cs[p].size - nb + PINUSE_BIT]), p, nb),
                   Split(cs, p, nb, true, false))
  {
    var u := SetSizeAndPinuseOfInuse(t.(head := t.head[p + nb := cs[p].size - nb + PINUSE_BIT]), p, nb);
    var ds := Split(cs, p, nb, true, false);
    NoneInside(cs, p, p + nb);
    Neighbours(cs, p);
    forall q {:trigger TagOK(u, ds, q)} | q in ds ensures TagOK(u, ds, q) {
      if q != p && q != p + nb {
        assert TagOK(t, cs, q) && ChunkOK(cs, q);
        assert Apart(cs, p, q) && Apart(cs, q, p);
      }
    }
  }

  // A chunk set free in the abstract: the tags do not tell yet.
  lemma FreedTags(t: Tags, cs: Chunks, p: Addr)
    requires Tiled(cs) && TagsOK(t, cs) && p in cs && cs[p].cinuse
    ensures TagsBut(t, Marked(cs, p, false), p, true)
  {
    var ds, n := Marked(cs, p, false), Next(cs, p);
    Neighbours(cs, p);
    if n in cs {
      assert TagOK(t, cs, n);
    }
    forall q {:trigger TagOK(t, ds, q)} | q in ds && q != p && q != n ensures TagOK(t, ds, q) {
      assert TagOK(t, cs, q);
    }
  }

  lemma BackwardTags(t: Tags, cs: Chunks, x: Addr, stale: bool)
    requires Tiled(cs) && TagsBut(t, cs, x, stale) && !cs[x].pinuse
    ensures cs[x].prev in cs && Next(cs, cs[x].prev) == x && TagsBut(t, Merged(cs, cs[x].prev), cs[x].prev, stale)
  {
    Neighbours(cs, x);
    var q := cs[x].prev;
    var ds := Merged(cs, q);
    forall r {:trigger TagOK(t, ds, r)} | r in ds && r != q && r != Next(ds, q) ensures TagOK(t, ds, r) {
      assert TagOK(t, cs, r) && ChunkOK(cs, r);
    }
  }

  lemma ForwardTags(t: Tags, cs: Chunks, x: Addr, stale: bool)
    requires Tiled(cs) && TagsBut(t, cs, x, stale) && Next(cs, x) in cs && !cs[Next(cs, x)].cinuse
    ensures TagsBut(t, Merged(cs, x), x, false)
  {
    var n := Next(cs, x);
    Neighbours(cs, x);
    Neighbours(cs, n);
    var ds := Merged(cs, x);
    if Next(cs, n) in cs {
      assert TagOK(t, cs, Next(cs, n));
    }
    forall r {:trigger TagOK(t, ds, r)} | r in ds && r != x && r != Next(ds, x) ensures TagOK(t, ds, r) {
      assert TagOK(t, cs, r) && ChunkOK(cs, r);
      assert Apart(cs, x, r) && Apart(cs, n, r);
    }
  }

  lemma FreeTagsWritten(t: Tags, cs: Chunks, x: Addr, stale: bool)
    requires Tiled(cs) && TagsBut(t, cs, x, stale) && cs[x].pinuse && Next(cs, x) in cs
    ensures Next(cs, x) in t.head && TagsOK(SetFreeWithPinuse(t, x, cs[x].size, Next(cs, x)), cs)
  {
    hide HeadWord, WithoutPinuse;
    var n := Next(cs, x);
    Neighbours(cs, x);
    var u := SetFreeWithPinuse(t, x, cs[x].size, n);
    PinuseBit(cs[n].(pinuse := stale || cs[n].pinuse));
    PlainWords(cs[x]);
    forall r {:trigger TagOK(u, cs, r)} | r in cs ensures TagOK(u, cs, r) {
      if r != x {
        assert r != n ==> TagOK(t, cs, r);
        assert ChunkOK(cs, r);
      }
    }
  }

  lemma MergedTagsWritten(t: Tags, cs: Chunks, x: Addr)
    requires Tiled(cs) && TagsBut(t, cs, x, false) && cs[x].pinuse
    ensures TagsOK(SetSizeAndPinuseOfFree(t, x, cs[x].size), cs)
    ensures Next(cs, x) !in cs ==> TagsOK(t.(head := t.head[x := cs[x].size + PINUSE_BIT]), cs)
  {
    var n := Next(cs, x);
    Neighbours(cs, x);
    var u := SetSizeAndPinuseOfFree(t, x, cs[x].size);
    forall r {:trigger TagOK(u, cs, r)} | r in cs ensures TagOK(u, cs, r) {
      if r != x {
        assert r != n ==> TagOK(t, cs, r);
        assert ChunkOK(cs, r);
      }
    }
    var v := t.(head := t.head[x := cs[x].size + PINUSE_BIT]);
    if n !in cs {
      forall r {:trigger TagOK(v, cs, r)} | r in cs ensures TagOK(v, cs, r) {
        assert r != x ==> TagOK(t, cs, r);
      }
    }
  }

  // ---- Tags in memory from the system ---------------------------------------------------

  // The tags of chunks do not depend on words elsewhere.
  lemma TagsFrame(t: Tags, u: Tags, cs: Chunks)
    requires TagsOK(t, cs) && u.foot == t.foot
    requires forall p :: p in cs && p in t.head ==> p in u.head && u.head[p] == t.head[p]
    ensures TagsOK(u, cs)
  {
    forall p {:trigger TagOK(u, cs, p)} | p in cs ensures TagOK(u, cs, p) {
      assert TagOK(t, cs, p);
    }
  }

  // A chunk of fresh memory in front of the chunk that so far began its segment.
  lemma AddedTags(t: Tags, cs: Chunks, a: Addr, n: nat)
    requires Tiled(cs) && TagsOK(t, cs) && CanAdd(cs, a, Chunk(n, true, false, 0)) && a + n in cs
    ensures TagsBut(t, Added(cs, a, Chunk(n, true, false, 0)), a, true)
  {
    var ds, o := Added(cs, a, Chunk(n, true, false, 0)), a + n;
    NotIn(cs, a, a, a + n);
    Neighbours(cs, o);
    assert TagOK(t, cs, o);
    forall q {:trigger TagOK(t, ds, q)} | q in ds && q != a && q != o ensures TagOK(t, ds, q) {
      assert TagOK(t, cs, q) && ChunkOK(cs, q);
    }
  }

  // The chunk in hand is cut; its rest is the new one in hand.
  lemma CutTags(t: Tags, cs: Chunks, x: Addr, nb: nat, stale: bool)
    requires Tiled(cs) && TagsBut(t, cs, x, stale) && cs[x].pinuse && 0 < nb < cs[x].size
    ensures TagsBut(SetSizeAndPinuseOfInuse(t, x, nb), Split(cs, x, nb, true, false), x + nb, stale)
  {
    var u, ds, n := SetSizeAndPinuseOfInuse(t, x, nb), Split(cs, x, nb, true, false), Next(cs, x);
    NoneInside(cs, x, x + nb);
    Neighbours(cs, x);
    forall q {:trigger TagOK(u, ds, q)} | q in ds && q != x + nb && q != Next(ds, x + nb) ensures TagOK(u, ds, q) {
      if q != x {
        assert TagOK(t, cs, q) && ChunkOK(cs, q);
        assert Apart(cs, x, q) && Apart(cs, q, x);
      }
    }
  }

  // The last chunk of a segment, which has no foot, with another head word.
  lemma ResizedTags(t: Tags, cs: Chunks, p: Addr, size: nat, cinuse: bool)
    requires Tiled(cs) && TagsOK(t, cs) && p in cs && Next(cs, p) !in cs && p + size !in cs && cs[p].pinuse
    ensures TagsOK(t.(head := t.head[p := HeadWord(Chunk(size, true, cinuse, 0))]), Resized(cs, p, size, cinuse))
  {
    var u, ds := t.(head := t.head[p := HeadWord(Chunk(size, true, cinuse, 0))]), Resized(cs, p, size, cinuse);
    forall q {:trigger TagOK(u, ds, q)} | q in ds ensures TagOK(u, ds, q) {
      assert TagOK(t, cs, q);
    }
  }

  // A chunk in use after the last one, which is from now on in hand.
  lemma TailTags(t: Tags, cs: Chunks, p: Addr, size: nat)
    requires Tiled(cs) && TagsOK(t, cs) && p in cs && !cs[p].cinuse && Next(cs, p) !in cs && size > 0
    requires Next(cs, p) + size !in cs
    ensures var r := Next(cs, p);
            TagsBut(SetSizeAndPinuseOfInuse(t, r, size), Added(cs, r, Chunk(size, false, true, p)), p, true)
  {
    var r := Next(cs, p);
    var u, ds := SetSizeAndPinuseOfInuse(t, r, size), Added(cs, r, Chunk(size, false, true, p));
    Neighbours(cs, p);
    forall q {:trigger TagOK(u, ds, q)} | q in ds && q != p && q != r ensures TagOK(u, ds, q) {
      assert TagOK(t, cs, q) && ChunkOK(cs, q);
      assert Apart(cs, p, q) && Apart(cs, q, p);
    }
  }

  // A chunk in fresh memory that borders no other.
  lemma AloneTags(t: Tags, u: Tags, cs: Chunks, a: Addr, n: nat)
    requires TagsOK(t, cs) && a !in cs && a + n !in cs && n > 0
    requires forall q :: q in cs ==> Next(cs, q) != a
    requires u.foot == t.foot && a in u.head && u.head[a] == n + PINUSE_BIT
    requires forall p :: p in cs && p in t.head ==> p in u.head && u.head[p] == t.head[p]
    ensures TagsOK(u, Added(cs, a, Chunk(n, true, false, 0)))
  {
    var ds := Added(cs, a, Chunk(n, true, false, 0));
    forall q {:trigger TagOK(u, ds, q)} | q in ds ensures TagOK(u, ds, q) {
      assert q in cs ==> TagOK(t, cs, q);
    }
  }

  lemma AloneTagsBut(t: Tags, u: Tags, cs: Chunks, x: Addr, stale: bool, a: Addr, n: nat)
    requires TagsBut(t, cs, x, stale) && a !in cs && a + n !in cs && n > 0
    requires forall q :: q in cs ==> Next(cs, q) != a
    requires u.foot == t.foot && a in u.head && u.head[a] == n + PINUSE_BIT
    requires forall p :: p in cs && p in t.head ==> p in u.head && u.head[p] == t.head[p]
    ensures TagsBut(u, Added(cs, a, Chunk(n, true, false, 0)), x, stale)
  {
    var ds := Added(cs, a, Chunk(n, true, false, 0));
    forall q {:trigger TagOK(u, ds, q)} | q in ds && q != x && q != Next(ds, x) ensures TagOK(u, ds, q) {
      assert q in cs ==> TagOK(t, cs, q);
    }
  }
}
