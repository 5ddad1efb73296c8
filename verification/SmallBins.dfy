// The small bins of a malloc_state: 32 circular lists of free chunks of one size each, every
// one headed by a pair of words that stands in for a chunk, and the map of non-empty bins.

module SmallBins {
  import opened Words
  import opened BinIndex
  import opened BinMap
  import opened Rings

  // smallbin_at: the header of bin i, at an address no chunk has.
  function Header(i: Index): (b: Addr)
    ensures b < 0
  {
    -1 - i
  }

  // The fd and bk fields of binned chunks and headers.
  datatype SmallLinks = SmallLinks(fd: Links, bk: Links)

  ghost function RingOf(bins: seq<seq<Addr>>, i: Index): seq<Addr>
    requires i < |bins|
  {
    [Header(i)] + bins[i]
  }

  // An empty bin's header is stale: only the map tells that the bin is empty.
  ghost predicate BinOK(m: Word, links: SmallLinks, size: map<Addr, nat>, bins: seq<seq<Addr>>, i: Index) {
    && i < |bins|
    && (Marked(m, i) <==> bins[i] != [])
    && (bins[i] != [] ==> IsRing(links.fd, links.bk, RingOf(bins, i)))
    && (forall x :: x in bins[i] ==> x > 0 && x in size && SmallIndex(size[x]) == i)
  }

  ghost predicate BinsOK(m: Word, links: SmallLinks, size: map<Addr, nat>, bins: seq<seq<Addr>>) {
    && |bins| == NSMALLBINS
    && (forall i: Index {:trigger BinOK(m, links, size, bins, i)} :: BinOK(m, links, size, bins, i))
    && (forall x :: x in size ==> x > 0 && IsSmall(size[x]) && x in bins[SmallIndex(size[x])])
  }

  // bins lists each bin's chunks from the front, size their sizes: both follow the links.
  class SmallBins {
    var smallmap: Word
    var links: SmallLinks
    ghost var bins: seq<seq<Addr>>
    ghost var size: map<Addr, nat>

    ghost predicate Valid()
      reads this
    {
      BinsOK(smallmap, links, size, bins)
    }

    constructor ()
      ensures Valid() && size == map[]
    {
      smallmap := 0;
      links := SmallLinks(map[], map[]);
      bins := seq(NSMALLBINS, i => []);
      size := map[];
      new;
      SomeMarked(0);
      forall i: Index ensures BinOK(smallmap, links, size, bins, i) {
      }
    }

    // insert_small_chunk
    method InsertSmallChunk(p: Addr, s: nat)
      requires Valid() && p > 0 && p !in size && IsSmall(s)
      modifies this
      ensures Valid() && size == old(size)[p := s]
      ensures bins == old(bins)[SmallIndex(s) := [p] + old(bins)[SmallIndex(s)]]
    {
      var i: Index := SmallIndex(s);
      var b := Header(i);
      var f := b;
      Inserted(smallmap, links, size, bins, p, s);
      if !Marked(smallmap, i) {
        smallmap := Mark(smallmap, i);
      } else {
        f := links.fd[b];
      }
      links := SmallLinks(links.fd[b := p][p := f], links.bk[f := p][p := b]);
      size, bins := size[p := s], bins[i := [p] + bins[i]];
    }

    // unlink_small_chunk
    method UnlinkSmallChunk(p: Addr, s: nat)
      requires Valid() && p in size && s == size[p]
      modifies this
      ensures Valid() && size == old(size) - {p}
    {
      var i: Index := SmallIndex(s);
      ghost var k :| 0 <= k < |bins[i]| && bins[i][k] == p;
      Member(smallmap, links, size, bins, i, k);
      Unlinked(smallmap, links, size, bins, i, k);
      var f, b := links.fd[p], links.bk[p];
      if f == b {
        smallmap := Clear(smallmap, i);
      } else {
        links := SmallLinks(links.fd[b := f], links.bk[f := b]);
      }
      size, bins := size - {p}, bins[i := Removed(bins[i], k)];
    }

    // unlink_first_small_chunk
    method UnlinkFirstSmallChunk(i: Index) returns (p: Addr)
      requires Valid() && Marked(smallmap, i)
      modifies this
      ensures Valid() && p in old(size) && SmallIndex(old(size)[p]) == i && size == old(size) - {p}
      ensures old(bins)[i] == [p] + bins[i] && bins == old(bins)[i := bins[i]]
    {
      var b := Header(i);
      assert BinOK(smallmap, links, size, bins, i);
      Member(smallmap, links, size, bins, i, 0);
      Unlinked(smallmap, links, size, bins, i, 0);
      p := links.fd[b];
      var f := links.fd[p];
      if b == f {
        smallmap := Clear(smallmap, i);
      } else {
        links := SmallLinks(links.fd[b := f], links.bk[f := b]);
      }
      size, bins := size - {p}, bins[i := Removed(bins[i], 0)];
    }
  }

  // A bin is marked exactly when some chunk has its index.
  lemma MarkedBin(m: Word, links: SmallLinks, size: map<Addr, nat>, bins: seq<seq<Addr>>, i: Index)
    requires BinsOK(m, links, size, bins)
    ensures Marked(m, i) <==> exists x :: x in size && SmallIndex(size[x]) == i
  {
    assert BinOK(m, links, size, bins, i);
    if Marked(m, i) {
      var x := bins[i][0];
      assert x in bins[i];
      assert x in size && SmallIndex(size[x]) == i;
    }
    forall x | x in size && SmallIndex(size[x]) == i ensures Marked(m, i) {
      assert x in bins[i];
    }
  }

  // No chunk has the index of an unmarked bin.
  lemma UnmarkedBins(m: Word, links: SmallLinks, size: map<Addr, nat>, bins: seq<seq<Addr>>, lo: nat, hi: nat)
    requires BinsOK(m, links, size, bins) && forall j: Index :: lo <= j < hi ==> !Marked(m, j)
    ensures forall x :: x in size ==> SmallIndex(size[x]) < lo || hi <= SmallIndex(size[x])
  {
    hide Has;
    forall x | x in size ensures SmallIndex(size[x]) < lo || hi <= SmallIndex(size[x]) {
      assert IsSmall(size[x]);
      MarkedBin(m, links, size, bins, SmallIndex(size[x]));
    }
  }

  lemma RingMember(bins: seq<seq<Addr>>, i: Index)
    requires i < |bins|
    ensures forall x :: x in RingOf(bins, i) <==> x == Header(i) || x in bins[i]
  {
  }

  lemma Member(m: Word, links: SmallLinks, size: map<Addr, nat>, bins: seq<seq<Addr>>, i: Index, k: nat)
    requires BinsOK(m, links, size, bins) && k < |bins[i]|
    ensures var p := bins[i][k];
            && p in size && p in links.fd && p in links.bk && Header(i) in links.fd
            && (links.fd[p] == links.bk[p] <==> |bins[i]| == 1)
            && (links.fd[p] == Header(i) <==> k == |bins[i]| - 1)
            && (links.bk[p] == Header(i) <==> k == 0)
            && links.fd[Header(i)] == bins[i][0]
  {
    assert BinOK(m, links, size, bins, i);
    var r := RingOf(bins, i);
    assert r[k + 1] == bins[i][k] && r[0] == Header(i);
    RingAlone(links.fd, links.bk, r, k + 1);
  }

  // Chunks of other bins keep their links.
  lemma OtherBin(m: Word, n: Word, links: SmallLinks, after: SmallLinks, size: map<Addr, nat>,
                 after_size: map<Addr, nat>, bins: seq<seq<Addr>>, after_bins: seq<seq<Addr>>, j: Index)
    requires BinOK(m, links, size, bins, j) && j < |after_bins| && after_bins[j] == bins[j]
    requires Marked(n, j) <==> Marked(m, j)
    requires forall x :: x in bins[j] ==> x in after_size && after_size[x] == size[x]
    requires forall x :: x in RingOf(bins, j) && x in links.fd ==> x in after.fd && after.fd[x] == links.fd[x]
    requires forall x :: x in RingOf(bins, j) && x in links.bk ==> x in after.bk && after.bk[x] == links.bk[x]
    ensures BinOK(n, after, after_size, after_bins, j)
  {
    if bins[j] != [] {
      RingFrame(links.fd, links.bk, after.fd, after.bk, RingOf(bins, j));
    }
  }

  lemma Inserted(m: Word, links: SmallLinks, size: map<Addr, nat>, bins: seq<seq<Addr>>, p: Addr, s: nat)
    requires BinsOK(m, links, size, bins) && p > 0 && p !in size && IsSmall(s)
    ensures var i: Index := SmallIndex(s);
            var b := Header(i);
            && (Marked(m, i) ==> b in links.fd)
            && var f := if Marked(m, i) then links.fd[b] else b;
            BinsOK(if Marked(m, i) then m else Mark(m, i),
                   SmallLinks(links.fd[b := p][p := f], links.bk[f := p][p := b]),
                   size[p := s], bins[i := [p] + bins[i]])
  {
    hide Has, IsRing;
    var i: Index := SmallIndex(s);
    var b := Header(i);
    assert BinOK(m, links, size, bins, i);
    var after_bins, after_size := bins[i := [p] + bins[i]], size[p := s];
    if Marked(m, i) {
      Member(m, links, size, bins, i, 0);
    }
    var f := if Marked(m, i) then links.fd[b] else b;
    var n := if Marked(m, i) then m else Mark(m, i);
    var after := SmallLinks(links.fd[b := p][p := f], links.bk[f := p][p := b]);
    InsertedRing(m, links, size, bins, p, i);
    forall j: Index ensures BinOK(n, after, after_size, after_bins, j) {
      if j != i {
        assert BinOK(m, links, size, bins, j);
        RingMember(bins, j);
        OtherBin(m, n, links, after, size, after_size, bins, after_bins, j);
      }
    }
    forall x | x in after_size ensures x in after_bins[SmallIndex(after_size[x])] {
      assert x != p ==> x in bins[SmallIndex(size[x])];
    }
  }

  lemma InsertedRing(m: Word, links: SmallLinks, size: map<Addr, nat>, bins: seq<seq<Addr>>, p: Addr, i: Index)
    requires BinsOK(m, links, size, bins) && p > 0 && p !in size
    requires Marked(m, i) ==> Header(i) in links.fd
    ensures var b := Header(i);
            var f := if Marked(m, i) then links.fd[b] else b;
            IsRing(links.fd[b := p][p := f], links.bk[f := p][p := b], RingOf(bins[i := [p] + bins[i]], i))
    ensures Marked(m, i) ==> links.fd[Header(i)] in bins[i]
  {
    hide Has;
    var b := Header(i);
    assert BinOK(m, links, size, bins, i);
    var r := RingOf(bins[i := [p] + bins[i]], i);
    if Marked(m, i) {
      Member(m, links, size, bins, i, 0);
      InsertSecond(links.fd, links.bk, RingOf(bins, i), p);
      assert [b, p] + RingOf(bins, i)[1..] == r;
    } else {
      assert r == [b, p];
    }
  }

  lemma Unlinked(m: Word, links: SmallLinks, size: map<Addr, nat>, bins: seq<seq<Addr>>, i: Index, k: nat)
    requires BinsOK(m, links, size, bins) && k < |bins[i]|
    requires bins[i][k] in links.fd && bins[i][k] in links.bk
    ensures var p := bins[i][k];
            var f, b := links.fd[p], links.bk[p];
            BinsOK(if f == b then Clear(m, i) else m,
                   if f == b then links else SmallLinks(links.fd[b := f], links.bk[f := b]),
                   size - {p}, bins[i := Removed(bins[i], k)])
  {
    hide Has, IsRing;
    var p := bins[i][k];
    Member(m, links, size, bins, i, k);
    var f, b := links.fd[p], links.bk[p];
    var n := if f == b then Clear(m, i) else m;
    var after := if f == b then links else SmallLinks(links.fd[b := f], links.bk[f := b]);
    var after_bins := bins[i := Removed(bins[i], k)];
    UnlinkedRing(m, links, size, bins, i, k);
    forall j: Index ensures BinOK(n, after, size - {p}, after_bins, j) {
      assert BinOK(m, links, size, bins, j);
      assert BinOK(m, links, size, bins, i);
      if j != i {
        RingMember(bins, j);
        OtherBin(m, n, links, after, size, size - {p}, bins, after_bins, j);
      }
    }
  }

  lemma TailDistinct(r: seq<Addr>)
    requires |r| > 0 && Distinct(r)
    ensures Distinct(r[1..])
  {
  }

  lemma UnlinkedRing(m: Word, links: SmallLinks, size: map<Addr, nat>, bins: seq<seq<Addr>>, i: Index, k: nat)
    requires BinsOK(m, links, size, bins) && k < |bins[i]|
    requires bins[i][k] in links.fd && bins[i][k] in links.bk
    ensures var p := bins[i][k];
            var f, b := links.fd[p], links.bk[p];
            && (|bins[i]| > 1 ==>
                  IsRing(links.fd[b := f], links.bk[f := b], RingOf(bins[i := Removed(bins[i], k)], i)))
            && (forall x :: x in Removed(bins[i], k) <==> x in bins[i] && x != p)
            && |Removed(bins[i], k)| == |bins[i]| - 1
            && (f == Header(i) || f in bins[i]) && (b == Header(i) || b in bins[i])
  {
    hide Has, Forward, Backward;
    assert BinOK(m, links, size, bins, i);
    var r := RingOf(bins, i);
    assert r[k + 1] == bins[i][k] && r[1..] == bins[i];
    TailDistinct(r);
    hide Distinct;
    RemovedMembers(bins[i], k);
    RingMember(bins, i);
    RingAlone(links.fd, links.bk, r, k + 1);
    if |bins[i]| > 1 {
      RingRemove(links.fd, links.bk, r, k + 1);
      RemovedTail(bins, i, k);
    }
  }

  lemma RemovedTail(bins: seq<seq<Addr>>, i: Index, k: nat)
    requires i < |bins| && k < |bins[i]|
    ensures Removed(RingOf(bins, i), k + 1) == RingOf(bins[i := Removed(bins[i], k)], i)
  {
  }
}
