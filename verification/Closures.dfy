// closures.c: closures are chunks of the dlmalloc heap, paired with a static trampoline where
// the platform has those and with the executable alias of their segment where it has not.

module Closures {
  import opened Words
  import opened Rings
  import opened HeapState
  import opened HeapSteps
  import opened Tags
  import opened Segments
  import opened Requests
  import opened Allocator
  import opened Pool
  import opened Trampolines

  // The code pointer of the closure at p: its trampoline's, or the same place in the alias.
  ghost predicate CodeIs(segs: seq<Segment>, passed: bool, pool: Pool, ftramp: map<Addr, Addr>, p: Addr, code: Addr) {
    && Home(segs, p) < |segs|
    && if passed then
         && p in ftramp && ftramp[p] in pool.live && ftramp[p] in pool.tramp
         && code == pool.tramp[ftramp[p]].data.code
       else code == p + segs[Home(segs, p)].execOffset
  }

  ghost predicate ClosureOK(live: set<Addr>, segs: seq<Segment>, passed: bool, pool: Pool,
                            ftramp: map<Addr, Addr>, issued: map<Addr, Addr>, p: Addr) {
    p in issued && p - 16 in live && CodeIs(segs, passed, pool, ftramp, p, issued[p])
  }

  // Two closures have trampolines of their own.
  ghost predicate OwnTramp(passed: bool, ftramp: map<Addr, Addr>, issued: map<Addr, Addr>, p: Addr, q: Addr) {
    passed && p in issued && q in issued && p != q && p in ftramp && q in ftramp ==> ftramp[p] != ftramp[q]
  }

  // What holds of every closure handed out and not yet freed; issued tells its code pointer.
  ghost predicate ClosuresOK(live: set<Addr>, segs: seq<Segment>, passed: bool, pool: Pool,
                             ftramp: map<Addr, Addr>, issued: map<Addr, Addr>) {
    && (forall p {:trigger ClosureOK(live, segs, passed, pool, ftramp, issued, p)} ::
          p in issued ==> ClosureOK(live, segs, passed, pool, ftramp, issued, p))
    && (forall p, q {:trigger OwnTramp(passed, ftramp, issued, p, q)} :: OwnTramp(passed, ftramp, issued, p, q))
  }

  // Trampolines are in use, none is free and the system gives no new table.
  ghost predicate NoTramp(passed: bool, pool: Pool, mem: TableMemory) {
    passed && pool.nfreeTables == 0 && mem.Denied?
  }

  // A trampoline in use stays as it is.
  ghost predicate TrampKept(pool: Pool, after: Pool, x: Addr) {
    x in pool.live && x in pool.tramp ==>
      x in after.live && x in after.tramp && after.tramp[x].data == pool.tramp[x].data
  }

  ghost predicate TrampsKept(pool: Pool, after: Pool) {
    forall x {:trigger TrampKept(pool, after, x)} :: TrampKept(pool, after, x)
  }

  ghost predicate OthersKept(pool: Pool, after: Pool, f: Addr) {
    forall x {:trigger TrampKept(pool, after, x)} :: x != f ==> TrampKept(pool, after, x)
  }

  // Growing the heap changes no code pointer: segments merge only at equal offsets.
  lemma HeapGrown(live: set<Addr>, segs: seq<Segment>, passed: bool, pool: Pool, ftramp: map<Addr, Addr>,
                  issued: map<Addr, Addr>, live': set<Addr>, segs': seq<Segment>)
    requires ClosuresOK(live, segs, passed, pool, ftramp, issued)
    requires live <= live' && ExecKept(segs, segs')
    ensures ClosuresOK(live', segs', passed, pool, ftramp, issued)
  {
    forall p {:trigger ClosureOK(live', segs', passed, pool, ftramp, issued, p)} | p in issued
      ensures ClosureOK(live', segs', passed, pool, ftramp, issued, p)
    {
      assert ClosureOK(live, segs, passed, pool, ftramp, issued, p);
    }
  }

  lemma PoolChanged(live: set<Addr>, segs: seq<Segment>, passed: bool, pool: Pool, ftramp: map<Addr, Addr>,
                    issued: map<Addr, Addr>, passed': bool, pool': Pool)
    requires ClosuresOK(live, segs, passed, pool, ftramp, issued)
    requires issued == map[] || (passed' == passed && (passed ==> TrampsKept(pool, pool')))
    ensures ClosuresOK(live, segs, passed', pool', ftramp, issued)
  {
    forall p {:trigger ClosureOK(live, segs, passed', pool', ftramp, issued, p)} | p in issued
      ensures ClosureOK(live, segs, passed', pool', ftramp, issued, p)
    {
      assert ClosureOK(live, segs, passed, pool, ftramp, issued, p) && issued != map[];
      if passed {
        assert TrampKept(pool, pool', ftramp[p]);
      }
    }
    forall p, q {:trigger OwnTramp(passed', ftramp, issued, p, q)} ensures OwnTramp(passed', ftramp, issued, p, q) {
      assert OwnTramp(passed, ftramp, issued, p, q);
    }
  }

  // A new closure, with the trampoline f if those are in use.
  lemma ClosureAdded(live: set<Addr>, segs: seq<Segment>, passed: bool, pool: Pool, ftramp: map<Addr, Addr>,
                     issued: map<Addr, Addr>, p: Addr, code: Addr, f: Addr)
    requires ClosuresOK(live, segs, passed, pool, ftramp, issued) && p !in issued && p - 16 in live
    requires CodeIs(segs, passed, pool, ftramp[p := f], p, code)
    requires passed ==> forall q :: q in issued && q in ftramp ==> ftramp[q] != f
    ensures ClosuresOK(live, segs, passed, pool, ftramp[p := f], issued[p := code])
  {
    var g, after := ftramp[p := f], issued[p := code];
    forall q {:trigger ClosureOK(live, segs, passed, pool, g, after, q)} | q in after
      ensures ClosureOK(live, segs, passed, pool, g, after, q)
    {
      if q != p {
        assert ClosureOK(live, segs, passed, pool, ftramp, issued, q);
      }
    }
    forall q, r {:trigger OwnTramp(passed, g, after, q, r)} ensures OwnTramp(passed, g, after, q, r) {
      assert OwnTramp(passed, ftramp, issued, q, r);
    }
  }

  lemma ClosureGone(live: set<Addr>, segs: seq<Segment>, passed: bool, pool: Pool, ftramp: map<Addr, Addr>,
                    issued: map<Addr, Addr>, p: Addr, pool': Pool)
    requires ClosuresOK(live, segs, passed, pool, ftramp, issued) && p in issued
    requires passed ==> p in ftramp && OthersKept(pool, pool', ftramp[p])
    ensures ClosuresOK(live - {p - 16}, segs, passed, pool', ftramp, issued - {p})
  {
    var after := issued - {p};
    forall q {:trigger ClosureOK(live - {p - 16}, segs, passed, pool', ftramp, after, q)} | q in after
      ensures ClosureOK(live - {p - 16}, segs, passed, pool', ftramp, after, q)
    {
      assert ClosureOK(live, segs, passed, pool, ftramp, issued, q) && OwnTramp(passed, ftramp, issued, p, q);
      if passed {
        assert TrampKept(pool, pool', ftramp[q]);
      }
    }
    forall q, r {:trigger OwnTramp(passed, ftramp, after, q, r)} ensures OwnTramp(passed, ftramp, after, q, r) {
      assert OwnTramp(passed, ftramp, issued, q, r);
    }
  }

  lemma StillInUse(sh: Shape, p: Pool, g: Pool, x: Addr)
    requires PoolOK(sh, p) && PoolOK(sh, g) && Kept(p, g) && g.live == if x == 0 then p.live else p.live + {x}
    ensures TrampsKept(p, g)
  {
  }

  lemma OthersStay(sh: Shape, p: Pool, g: Pool, x: Addr)
    requires x in p.tramp && p.tramp[x].data.table in p.free && PutBack(sh, p, g, x) && PoolOK(sh, g)
    requires forall y :: y in g.live ==> y in p.tramp && y in g.tramp && g.tramp[y].data == p.tramp[y].data
    ensures OthersKept(p, g, x)
  {
  }

  lemma IssuedIs(h: Heap, segs: seq<Segment>, passed: bool, pool: Pool, ftramp: map<Addr, Addr>,
                 issued: map<Addr, Addr>, p: Addr)
    requires ClosuresOK(h.live, segs, passed, pool, ftramp, issued) && p in issued && HeapOK(h)
    ensures p - 16 in h.live && p != 0 && issued != map[]
    ensures passed ==> p in ftramp && ftramp[p] in pool.live && ftramp[p] in pool.tramp
  {
    assert ClosureOK(h.live, segs, passed, pool, ftramp, issued, p);
    InUse(h, p - 16);
  }

  // A chunk of no closure is freed.
  lemma ClosuresLeft(live: set<Addr>, segs: seq<Segment>, passed: bool, pool: Pool, ftramp: map<Addr, Addr>,
                     issued: map<Addr, Addr>, p: Addr)
    requires ClosuresOK(live, segs, passed, pool, ftramp, issued) && p !in issued
    ensures ClosuresOK(live - {p - 16}, segs, passed, pool, ftramp, issued)
  {
    forall q {:trigger ClosureOK(live - {p - 16}, segs, passed, pool, ftramp, issued, q)} | q in issued
      ensures ClosureOK(live - {p - 16}, segs, passed, pool, ftramp, issued, q)
    {
      assert ClosureOK(live, segs, passed, pool, ftramp, issued, q);
    }
  }

  // A trampoline that was not in use belongs to no closure.
  lemma TrampFresh(live: set<Addr>, segs: seq<Segment>, pool: Pool, pool': Pool, ftramp: map<Addr, Addr>,
                   issued: map<Addr, Addr>, f: Addr)
    requires ClosuresOK(live, segs, true, pool, ftramp, issued) && f !in pool.live
    ensures forall q :: q in issued && q in ftramp ==> ftramp[q] != f
  {
    forall q | q in issued && q in ftramp ensures ftramp[q] != f {
      assert ClosureOK(live, segs, true, pool, ftramp, issued, q);
    }
  }

  // A chunk that was not live is no closure's.
  lemma NotIssued(live: set<Addr>, segs: seq<Segment>, passed: bool, pool: Pool, ftramp: map<Addr, Addr>,
                  issued: map<Addr, Addr>, p: Addr)
    requires ClosuresOK(live, segs, passed, pool, ftramp, issued) && p - 16 !in live
    ensures p !in issued
  {
    assert p in issued ==> ClosureOK(live, segs, passed, pool, ftramp, issued, p);
  }

  // The payload of a chunk lies in the chunk's segment.
  lemma PayloadHome(h: Heap, t: Tags, segs: seq<Segment>, p: Addr)
    requires Sound(h, t, segs, 0) && p in h.live
    ensures Home(segs, p + 16) < |segs|
  {
    hide Home;
    InUse(h, p);
    assert InSegment(h, segs, p);
    assert InSegment(h, segs, p + h.cs[p].size);
    At(h, 0, p);
    HomeIs(segs, Home(segs, p), p + 16);
  }

  // The heap of closures, the trampolines and the closures handed out.
  class ClosureHeap {
    const gm: MallocState
    const tramps: TrampGlobals
    const platform: Platform
    var ftramp: map<Addr, Addr>
    ghost var issued: map<Addr, Addr>

    // Whether trampolines are supported has been found out for good.
    ghost predicate Settled()
      reads tramps
    {
      tramps.status != Uninitialized || Hopeless(platform)
    }

    ghost predicate Valid()
      reads this, tramps, gm, gm.small, gm.tree
    {
      && gm.Valid() && tramps.Valid() && 0 < platform.size <= platform.mapSize
      && (issued != map[] ==> Settled())
      && ClosuresOK(gm.heap.live, gm.segs, tramps.status == Passed, tramps.pool, ftramp, issued)
    }

    // A chunk just allocated, at whose payload a closure is to be
    ghost predicate NewClosure(ptr: Addr)
      reads this, gm
    {
      ptr > 16 && ptr - 16 in gm.heap.live && ptr - 16 in gm.heap.cs && ptr !in issued && Home(gm.segs, ptr) < |gm.segs|
    }

    constructor (pageSize: PageSize, platform: Platform)
      requires 0 < platform.size <= platform.mapSize
      ensures Valid() && issued == map[] && this.platform == platform
    {
      this.platform := platform;
      gm := new MallocState(pageSize);
      tramps := new TrampGlobals();
      ftramp := map[];
      issued := map[];
    }

    // ffi_data_to_code_pointer
    method DataToCode(data: Addr, first: TableMemory) returns (code: Addr)
      requires Valid() && PlatformOK(platform, first)
      requires data in issued || Home(gm.segs, data) == |gm.segs|
      modifies tramps
      ensures Valid()
      ensures code == if data in issued then issued[data] else data
      ensures tramps.pool.live == old(tramps.pool).live
    {
      ghost var p, passed := tramps.pool, tramps.status == Passed;
      assert data in issued ==> ClosureOK(gm.heap.live, gm.segs, passed, p, ftramp, issued, data);
      var i := gm.SegmentHolding(data);
      if i < |gm.segs| {
        var ok := tramps.Init(platform, first);
        assert passed ==> TrampsKept(p, tramps.pool);
        PoolChanged(gm.heap.live, gm.segs, passed, p, ftramp, issued, ok, tramps.pool);
        if !ok {
          code := data + gm.segs[i].execOffset;
        } else {
          code := tramps.GetAddr(ftramp[data]);
        }
      } else {
        code := data;
      }
    }

    // The part of ffi_closure_alloc after dlmalloc: the closure ptr gets the alias of its
    // segment or, where supported, a trampoline; without one it is given up.
    method Pair(ptr: Addr, first: TableMemory, mem: TableMemory) returns (kept: bool, code: Addr)
      requires Valid() && PlatformOK(platform, first) && NewClosure(ptr)
      requires tramps.status == Passed && tramps.pool.nfreeTables == 0 ==> MayGrant(tramps.shape, tramps.pool, mem)
      modifies this, tramps, gm`own, gm`tags, gm`heap, gm.small, gm.tree
      ensures Valid() && (kept ==> gm.heap == old(gm.heap))
      ensures !kept ==> gm.heap.live == old(gm.heap).live - {ptr - 16}
      ensures issued == if kept then old(issued)[ptr := code] else old(issued)
      ensures kept <==> !NoTramp(old(tramps.status) == Passed, old(tramps.pool), mem)
      ensures tramps.status == Passed <==>
                if old(tramps.status) == Uninitialized then Supported(platform, first) else old(tramps.status) == Passed
      ensures kept ==> CodeIs(gm.segs, tramps.status == Passed, tramps.pool, ftramp, ptr, code)
      ensures if kept && tramps.status == Passed then
                && ptr in ftramp && ftramp[ptr] !in old(tramps.pool).live
                && tramps.pool.live == old(tramps.pool).live + {ftramp[ptr]}
              else tramps.pool.live == old(tramps.pool).live
    {
      hide HeapX, TagsOK, SegmentsOK, ClosuresOK, PoolX, Home, PlatformOK;
      ghost var live, pool, passed := gm.heap.live, tramps.pool, tramps.status == Passed;
      var i := gm.SegmentHolding(ptr);
      code := ptr + gm.segs[i].execOffset;
      kept := true;
      var ok := tramps.Init(platform, first);
      assert issued != map[] && passed ==> TrampsKept(pool, tramps.pool);
      PoolChanged(live, gm.segs, passed, pool, ftramp, issued, ok, tramps.pool);
      if ok {
        kept, code := PairTramp(ptr, first, mem);
      } else {
        ClosureAdded(live, gm.segs, false, tramps.pool, ftramp, issued, ptr, code, 0);
        ftramp, issued := ftramp[ptr := 0], issued[ptr := code];
      }
    }

    // The same where trampolines are supported.
    method PairTramp(ptr: Addr, first: TableMemory, mem: TableMemory) returns (kept: bool, code: Addr)
      requires Valid() && PlatformOK(platform, first) && NewClosure(ptr) && tramps.status == Passed
      requires tramps.pool.nfreeTables == 0 ==> MayGrant(tramps.shape, tramps.pool, mem)
      modifies this, tramps, gm`own, gm`tags, gm`heap, gm.small, gm.tree
      ensures Valid() && (kept ==> gm.heap == old(gm.heap))
      ensures !kept ==> gm.heap.live == old(gm.heap).live - {ptr - 16}
      ensures issued == if kept then old(issued)[ptr := code] else old(issued)
      ensures kept <==> !NoTramp(true, old(tramps.pool), mem)
      ensures tramps.status == Passed && tramps.shape == old(tramps.shape)
      ensures kept ==> CodeIs(gm.segs, true, tramps.pool, ftramp, ptr, code) && ftramp[ptr] !in old(tramps.pool).live
      ensures tramps.pool.live == old(tramps.pool).live + if kept then {ftramp[ptr]} else {}
    {
      hide HeapX, TagsOK, SegmentsOK, ClosuresOK, PoolX, Home, PlatformOK;
      ghost var live, p := gm.heap.live, tramps.pool;
      var f := tramps.Alloc(0, platform, first, mem);
      StillInUse(tramps.shape, p, tramps.pool, f);
      PoolChanged(live, gm.segs, true, p, ftramp, issued, true, tramps.pool);
      kept, code := f != 0, 0;
      if kept {
        TrampFresh(live, gm.segs, p, tramps.pool, ftramp, issued, f);
        code := tramps.GetAddr(f);
        ClosureAdded(live, gm.segs, true, tramps.pool, ftramp, issued, ptr, code, f);
        ftramp, issued := ftramp[ptr := f], issued[ptr := code];
      } else {
        gm.Free(ptr);
        ClosuresLeft(live, gm.segs, true, tramps.pool, ftramp, issued, ptr);
      }
    }

    // ffi_closure_alloc. mapping answers for the heap, first and mem for tables of trampolines.
    method Alloc(wantsCode: bool, size: SizeT, mapping: Mapping, first: TableMemory, mem: TableMemory)
      returns (ptr: Addr, code: Addr)
      requires Valid() && PlatformOK(platform, first)
      requires var s := SystemSize(RequestSize(size), gm.granularity);
               s > RequestSize(size) ==> Offered(gm.segs, mapping, s)
      requires tramps.status == Passed && tramps.pool.nfreeTables == 0 ==> MayGrant(tramps.shape, tramps.pool, mem)
      modifies this, tramps, gm, gm.small, gm.tree
      ensures Valid()
      ensures ptr == 0 ==> issued == old(issued) && gm.heap.live == old(gm.heap).live
      ensures ptr != 0 ==> ptr !in old(issued) && issued == old(issued)[ptr := code]
      ensures ptr != 0 ==> ptr - 16 in gm.heap.cs && gm.heap.cs[ptr - 16].size >= size + CHUNK_OVERHEAD
      ensures ptr == 0 <==> || !wantsCode
                            || Refused(old(gm.heap), RequestSize(size), gm.granularity, mapping)
                            || NoTramp(old(tramps.status) == Passed, old(tramps.pool), mem)
      ensures ptr != 0 ==>
                && (tramps.status == Passed <==>
                      if old(tramps.status) == Uninitialized then Supported(platform, first)
                      else old(tramps.status) == Passed)
                && CodeIs(gm.segs, tramps.status == Passed, tramps.pool, ftramp, ptr, code)
      ensures if ptr != 0 && tramps.status == Passed then
                && ptr in ftramp && ftramp[ptr] !in old(tramps.pool).live
                && tramps.pool.live == old(tramps.pool).live + {ftramp[ptr]}
              else tramps.pool.live == old(tramps.pool).live
    {
      hide HeapX, TagsOK, SegmentsOK, ClosuresOK, Served, CanServe, ExecKept, PoolX, RequestSize, SystemSize,
           Refused, NoTramp, Supported, CodeIs;
      ptr, code := 0, 0;
      if !wantsCode {
        return;
      }
      ghost var live, segs := gm.heap.live, gm.segs;
      ptr := gm.Malloc(size, mapping);
      if ptr == 0 {
        HeapGrown(live, segs, tramps.status == Passed, tramps.pool, ftramp, issued, gm.heap.live, gm.segs);
        return;
      }
      HeapGrown(live, segs, tramps.status == Passed, tramps.pool, ftramp, issued, gm.heap.live, gm.segs);
      NotIssued(live, segs, tramps.status == Passed, tramps.pool, ftramp, issued, ptr);
      RequestFits(size);
      PayloadHome(gm.heap, gm.tags, gm.segs, ptr - 16);
      var kept: bool;
      kept, code := Pair(ptr, first, mem);
      if !kept {
        ptr := 0;
      }
    }

    // ffi_closure_free, given the writable address
    method Free(ptr: Addr, first: TableMemory)
      requires Valid() && PlatformOK(platform, first) && ptr in issued
      modifies this, tramps, gm`own, gm`tags, gm`heap, gm.small, gm.tree
      ensures Valid() && issued == old(issued) - {ptr} && KeepsLive(old(gm.heap), gm.heap)
      ensures gm.heap.live == old(gm.heap).live - {ptr - 16}
      ensures if old(tramps.status) == Passed then
                && ptr in old(ftramp) && old(ftramp)[ptr] in old(tramps.pool).live
                && tramps.pool.live == old(tramps.pool).live - {old(ftramp)[ptr]}
              else tramps.pool.live == old(tramps.pool).live
    {
      hide HeapX, TagsOK, SegmentsOK, ClosuresOK, PoolX, CodeIs, KeepsLive;
      ghost var live, pool, passed := gm.heap.live, tramps.pool, tramps.status == Passed;
      IssuedIs(gm.heap, gm.segs, passed, pool, ftramp, issued, ptr);
      var ok := tramps.Init(platform, first);
      if ok {
        tramps.Release(ftramp[ptr]);
        OthersStay(tramps.shape, pool, tramps.pool, ftramp[ptr]);
      }
      ClosureGone(live, gm.segs, passed, pool, ftramp, issued, ptr, tramps.pool);
      gm.Free(ptr);
      issued := issued - {ptr};
    }
  }
}
