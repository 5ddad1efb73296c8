// tramp.c: the pool of static trampolines, with allocation, release and the eager freeing of
// tables that no trampoline of is in use.

module Trampolines {
  import opened Rings
  import opened Lists
  import opened Pool

  datatype Status = Uninitialized | Passed | Failed

  // A page does not fit the code table: initialisation fails without settling the matter.
  predicate Hopeless(p: Platform) { p.hasCode && p.pageSize >= 0 && p.pageSize > p.mapSize }

  // The feature can be used: the architecture has the code, its table is no smaller than a page, and
  // a file to map it from and the first table can be had.
  predicate Supported(p: Platform, first: TableMemory) {
    p.hasCode && (p.pageSize < 0 || p.pageSize <= p.mapSize) && p.hasFile && first.Granted?
  }

  // What malloc and mmap give a new table: nothing, or a table, an array and a pair of mappings.
  datatype TableMemory = Denied | Granted(table: Addr, slots: Addr, code: Addr)

  // What the architecture and the system answer when the feature is set up.
  datatype Platform = Platform(hasCode: bool, size: nat, mapSize: nat, pageSize: int, hasFile: bool)

  ghost predicate MayGrant(sh: Shape, p: Pool, mem: TableMemory) {
    mem.Granted? ==> Unused(sh, p, mem.table, mem.slots, mem.code)
  }

  // Whether tramp_add, which adds x, then drops the table of x: it is wholly free and another
  // table has free trampolines.
  ghost predicate Drops(sh: Shape, p: Pool, x: Addr)
    requires x in p.tramp && p.tramp[x].data.table in p.free
  {
    var f := p.free[p.tramp[x].data.table];
    |f| + 1 == sh.ntramp && |p.order| + (if f == [] then 1 else 0) > 1
  }

  ghost predicate SameTables(p: Pool, g: Pool) {
    forall t :: t in g.table ==>
      t in p.table && g.table[t].data == p.table[t].data.(free := g.table[t].data.free, nfree := g.table[t].data.nfree)
  }

  // No table or trampoline is lost or moved.
  ghost predicate Kept(p: Pool, g: Pool) {
    && (forall x :: x in p.tramp ==> x in g.tramp && g.tramp[x].data == p.tramp[x].data)
    && (forall t :: t in p.table ==> t in g.table && g.table[t].data.codeTable == p.table[t].data.codeTable)
  }

  // x went back to its table: everything else is as it was, or the whole table is gone.
  ghost predicate PutBack(sh: Shape, p: Pool, g: Pool, x: Addr)
    requires x in p.tramp && p.tramp[x].data.table in p.free
  {
    var t := p.tramp[x].data.table;
    && g.live == p.live - {x} && SameTables(p, g)
    && g.free == (if Drops(sh, p, x) then p.free - {t} else p.free[t := [x] + p.free[t]])
    && (forall y {:trigger g.tramp[y]} :: y in g.tramp ==> y in p.tramp && g.tramp[y].data == p.tramp[y].data)
    && (forall y :: y in p.tramp && (p.tramp[y].data.table != t || !Drops(sh, p, x)) ==> y in g.tramp)
  }

  lemma OnlyOne(s: seq<Addr>, t: Addr)
    requires Distinct(s)
    ensures (forall u :: u in s ==> u == t) ==> |s| <= 1
  {
    if |s| > 1 {
      assert s[0] != s[1] && s[0] in s && s[1] in s;
    }
  }

  class TrampGlobals {
    var status: Status
    var shape: Shape
    var pool: Pool
    var parms: map<Addr, (Addr, Addr)>

    ghost predicate Valid()
      reads this
    {
      if status == Passed then PoolOK(shape, pool) else pool.table == map[] && pool.live == {}
    }

    constructor ()
      ensures Valid() && status == Uninitialized
    {
      status := Uninitialized;
      shape := Shape(1, 1, 1);
      pool := Pool(0, 0, map[], map[], [], map[], {});
      parms := map[];
    }

    // tramp_table_add
    method TableAdd(t: Addr, ghost w: Work)
      requires PoolX(shape, pool, w) && w.e == t && t in pool.table && t !in pool.order
      modifies this`pool
      ensures PoolX(shape, pool, w) && SameData(old(pool).table, pool.table)
      ensures pool.order == [t] + old(pool).order && pool.nfreeTables == old(pool).nfreeTables + 1
      ensures pool == old(pool).(table := pool.table, freeTables := pool.freeTables,
                                 nfreeTables := pool.nfreeTables, order := pool.order)
    {
      hide PoolX, IsList;
      List(shape, pool, w, t);
      ghost var p := pool;
      var head := pool.freeTables;
      pool := pool.(table := pool.table[t := pool.table[t].(next := head, prev := 0)]);
      if head != 0 {
        pool := pool.(table := pool.table[head := pool.table[head].(prev := t)]);
      }
      pool := pool.(freeTables := t, nfreeTables := pool.nfreeTables + 1, order := [t] + pool.order);
      assert pool == Listed(p, t);
    }

    // tramp_table_del
    method TableDel(t: Addr, ghost w: Work)
      requires PoolX(shape, pool, w) && w.e == t && t in pool.order
      modifies this`pool
      ensures PoolX(shape, pool, w) && SameData(old(pool).table, pool.table) && t != 0 && t in pool.table
      ensures t !in pool.order && pool.nfreeTables == old(pool).nfreeTables - 1
      ensures pool == old(pool).(table := pool.table, freeTables := pool.freeTables,
                                 nfreeTables := pool.nfreeTables, order := pool.order)
    {
      hide PoolX, IsList, Removed;
      ghost var k :| 0 <= k < |pool.order| && pool.order[k] == t;
      Unlist(shape, pool, w, k);
      ghost var p := pool;
      var n := pool.table[t];
      pool := pool.(nfreeTables := pool.nfreeTables - 1);
      if n.prev != 0 {
        pool := pool.(table := pool.table[n.prev := pool.table[n.prev].(next := n.next)]);
      }
      var next := pool.table[t].next;
      if next != 0 {
        pool := pool.(table := pool.table[next := pool.table[next].(prev := pool.table[t].prev)]);
      }
      if pool.freeTables == t {
        pool := pool.(freeTables := pool.table[t].next);
      }
      pool := pool.(order := Removed(pool.order, k));
      assert pool == Unlisted(p, k);
    }

    // tramp_table_free, after tramp_table_unmap
    method TableFree(t: Addr)
      requires PoolX(shape, pool, Work(0, 0, t)) && t in pool.table && t !in pool.order &&
               |pool.free[t]| == shape.ntramp
      modifies this`pool
      ensures PoolOK(shape, pool) && pool == Dropped(old(pool), t)
      ensures forall x :: x in pool.live ==> x in old(pool).tramp && old(pool).tramp[x].data.table != t
    {
      hide PoolX;
      Drop(shape, pool, t);
      pool := pool.(tramp := pool.tramp - (set x | x in pool.tramp && pool.tramp[x].data.table == t));
      pool := pool.(table := pool.table - {t}, free := pool.free - {t});
    }

    // The first half of tramp_add: x becomes the head of its table's free list.
    method PushFree(x: Addr, ghost w: Work)
      requires PoolX(shape, pool, w) && x in pool.live && w.e == 0
      modifies this`pool
      ensures var p := old(pool);
              && x in p.tramp && p.tramp[x].data.table in p.table && p.tramp[x].data.table in p.free
              && var t := p.tramp[x].data.table;
              && t != 0 && (p.table[t].data.free != 0 ==> p.table[t].data.free in p.tramp)
              && (t in p.order <==> p.free[t] != []) && p.table[t].data.nfree == |p.free[t]|
              && pool == Given(p, x) && PoolX(shape, pool, w.(e := t)) && SameData(p.tramp, pool.tramp)
    {
      hide PoolX, IsList;
      Give(shape, pool, w, x);
      ghost var p := pool;
      var t := pool.tramp[x].data.table;
      var f := pool.table[t].data.free;
      pool := pool.(tramp := pool.tramp[x := pool.tramp[x].(next := f, prev := 0)]);
      if f != 0 {
        pool := pool.(tramp := pool.tramp[f := pool.tramp[f].(prev := x)]);
      }
      var tb := pool.table[t].data;
      pool := pool.(table := pool.table[t := pool.table[t].(data := Counted(tb, x, tb.nfree + 1))],
                    free := pool.free[t := [x] + pool.free[t]], live := pool.live - {x});
      assert pool == Given(p, x);
    }

    // tramp_add
    method TrampAdd(x: Addr, ghost w: Work)
      requires PoolX(shape, pool, w) && x in pool.live && w.e == 0
      requires w == IDLE || (w.b != 0 && x in pool.tramp && pool.tramp[x].data.table == w.b
                             && forall u :: u in pool.order ==> u == w.b)
      modifies this`pool
      ensures PoolX(shape, pool, w) && x in old(pool).tramp && old(pool).tramp[x].data.table in old(pool).free
      ensures PutBack(shape, old(pool), pool, x)
      ensures w.b != 0 ==> !Drops(shape, old(pool), x) && forall u :: u in pool.order ==> u == w.b
    {
      hide PoolX, IsList;
      ghost var p := pool;
      PushFree(x, w);
      var t := pool.tramp[x].data.table;
      ghost var v := w.(e := t);
      if pool.table[t].data.nfree == 1 {
        TableAdd(t, v);
      }
      FreeAtMost(shape, pool, v, t);
      OrderFacts(shape, p, w);
      OrderFacts(shape, pool, v);
      OnlyOne(pool.order, t);
      // At most one table with no trampoline in use is kept.
      if pool.table[t].data.nfree == shape.ntramp && pool.nfreeTables > 1 {
        TableDel(t, v);
        TableFree(t);
      } else {
        Settle(shape, pool, v);
      }
    }

    // tramp_del
    method TrampDel(x: Addr, ghost k: nat)
      requires PoolOK(shape, pool) && x in pool.tramp && pool.tramp[x].data.table in pool.free
      requires k < |pool.free[pool.tramp[x].data.table]| && pool.free[pool.tramp[x].data.table][k] == x
      modifies this`pool
      ensures PoolOK(shape, pool) && SameData(old(pool).tramp, pool.tramp) && SameTables(old(pool), pool)
      ensures pool.live == old(pool).live + {x} && x !in old(pool).live
      ensures var t := old(pool).tramp[x].data.table; pool.free == old(pool).free[t := Removed(old(pool).free[t], k)]
    {
      hide PoolX, IsList, Removed;
      ghost var p := pool;
      var t := pool.tramp[x].data.table;
      FreeTable(shape, pool, t);
      CanTake(shape, pool, t, k);
      Take(shape, pool, t, k);
      var n := pool.tramp[x];
      var tb := pool.table[t].data;
      var nfree: nat := tb.nfree - 1;
      if n.prev != 0 {
        pool := pool.(tramp := pool.tramp[n.prev := pool.tramp[n.prev].(next := n.next)]);
      }
      var next := pool.tramp[x].next;
      if next != 0 {
        pool := pool.(tramp := pool.tramp[next := pool.tramp[next].(prev := pool.tramp[x].prev)]);
      }
      var first := tb.free;
      if first == x {
        first := pool.tramp[x].next;
      }
      pool := pool.(table := pool.table[t := pool.table[t].(data := Counted(tb, first, nfree))],
                    free := pool.free[t := Removed(pool.free[t], k)], live := pool.live + {x});
      assert pool == Taken(p, t, k);
      FreeAtMost(shape, p, IDLE, t);
      if pool.table[t].data.nfree == 0 {
        TableDel(t, Work(0, 0, t));
      }
      RemovedLength(p.free[t], k);
      Settle(shape, pool, Work(0, 0, t));
    }

    // The body of the loop in tramp_table_alloc: the i-th trampoline of the new table
    method AddNext(t: Addr, ghost code0: Addr, slots: Addr, i: nat, code: Addr, parm: Addr)
      requires PoolX(shape, pool, Work(t, i, 0)) && t in pool.table && t in pool.free && i < shape.ntramp && t != 0
      requires pool.table[t].data.slots == slots && pool.table[t].data.codeTable == code0
      requires code == CodeAt(shape, code0, i) && parm == code + shape.mapSize && |pool.free[t]| == i
      requires forall u :: u in pool.order ==> u == t
      modifies this`pool
      ensures PoolX(shape, pool, Work(t, i + 1, 0)) && pool.table.Keys == old(pool).table.Keys && t in pool.free
      ensures pool.table[t].data.slots == slots && pool.table[t].data.codeTable == code0
      ensures pool.live == old(pool).live && (forall u :: u in pool.order ==> u == t) && Kept(old(pool), pool)
      ensures |pool.free[t]| == i + 1
    {
      hide PoolX, IsList, Spot, CodeAt;
      ghost var w := Work(t, i, 0);
      MakeTramp(shape, pool, w, Node(0, 0, Tramp(t, code, parm)));
      var x := Spot(slots, i);
      ghost var g := pool;
      pool := pool.(tramp := pool.tramp[x := Node(0, 0, Tramp(t, code, parm))], live := pool.live + {x});
      ghost var k := pool;
      InPool(shape, g, w);
      TrampAdd(x, Work(t, i + 1, 0));
      assert pool.table.Keys == k.table.Keys by {
        InPool(shape, pool, Work(t, i + 1, 0));
        InPool(shape, k, Work(t, i + 1, 0));
      }
    }

    // tramp_table_alloc
    method TableAlloc(mem: TableMemory) returns (ok: bool)
      requires PoolOK(shape, pool) && (pool.nfreeTables == 0 ==> MayGrant(shape, pool, mem))
      modifies this`pool
      ensures PoolOK(shape, pool) && (ok <==> old(pool).nfreeTables > 0 || mem.Granted?)
      ensures old(pool).nfreeTables > 0 || mem.Denied? ==> pool == old(pool)
      ensures ok ==> pool.nfreeTables > 0 && Kept(old(pool), pool) && pool.live == old(pool).live
      ensures old(pool).nfreeTables == 0 && mem.Granted? ==>
                && mem.table !in old(pool).table && pool.table.Keys == old(pool).table.Keys + {mem.table}
                && pool.table[mem.table].data.slots == mem.slots && pool.table[mem.table].data.codeTable == mem.code
    {
      hide PoolX, IsList, Spot, CodeAt;
      OrderFacts(shape, pool, IDLE);
      if pool.nfreeTables > 0 {
        return true;
      }
      if mem.Denied? {
        return false;
      }
      ghost var p := pool;
      var t, slots, code0 := mem.table, mem.slots, mem.code;
      var node := Node(0, 0, Table(code0, code0 + shape.mapSize, slots, 0, 0));
      MakeTable(shape, pool, t, slots, code0, node);
      pool := pool.(table := pool.table[t := node], free := pool.free[t := []]);
      var i, code, parm := 0, code0, code0 + shape.mapSize;
      FirstCode(shape, code0);
      while i < shape.ntramp
        invariant 0 <= i <= shape.ntramp && PoolX(shape, pool, Work(t, i, 0)) && t in pool.table && t in pool.free
        invariant pool.table[t].data.slots == slots && pool.table[t].data.codeTable == code0
        invariant code == CodeAt(shape, code0, i) && parm == code + shape.mapSize
        invariant pool.live == p.live && (forall u :: u in pool.order ==> u == t) && Kept(p, pool)
        invariant |pool.free[t]| == i && pool.table.Keys == p.table.Keys + {t}
      {
        AddNext(t, code0, slots, i, code, parm);
        NextCode(shape, code0, i);
        code, parm := code + shape.size, parm + shape.size;
        i := i + 1;
      }
      TableMade(shape, pool, Work(t, i, 0));
      SomeFree(shape, pool, t);
      ok := true;
    }

    // ffi_tramp_init
    method Init(platform: Platform, mem: TableMemory) returns (ok: bool)
      requires Valid() && PlatformOK(platform, mem)
      modifies this`status, this`shape, this`pool
      ensures Valid() && (ok <==> status == Passed)
      ensures old(status) != Uninitialized ==> status == old(status) && shape == old(shape) && pool == old(pool)
      ensures old(status) == Uninitialized && ok ==> pool.nfreeTables > 0 && pool.live == {}
      ensures old(status) == Uninitialized ==> (status == Uninitialized <==> Hopeless(platform))
      ensures old(status) == Uninitialized ==> (ok <==> Supported(platform, mem))
      ensures old(status) == Uninitialized && ok ==>
                && shape == Shape(platform.size, platform.mapSize, platform.mapSize / platform.size)
                && pool.table.Keys == {mem.table} && pool.table[mem.table].data.slots == mem.slots
                && pool.table[mem.table].data.codeTable == mem.code
    {
      if status == Passed {
        return true;
      }
      if status == Failed {
        return false;
      }
      if !platform.hasCode {
        status := Failed;
        return false;
      }
      pool := Pool(0, 0, map[], map[], [], map[], {});
      shape := Shape(platform.size, platform.mapSize, platform.mapSize / platform.size);
      if platform.pageSize >= 0 && platform.pageSize > platform.mapSize {
        return false;
      }
      EmptyPool(shape, pool);
      ok := false;
      if platform.hasFile {
        ok := TableAlloc(mem);
      }
      status := if ok then Passed else Failed;
    }

    // ffi_tramp_alloc: 0 when there is no trampoline to be had
    method Alloc(flags: int, platform: Platform, first: TableMemory, mem: TableMemory) returns (x: Addr)
      requires Valid() && PlatformOK(platform, first)
      requires status == Passed && pool.nfreeTables == 0 ==> MayGrant(shape, pool, mem)
      modifies this`status, this`shape, this`pool
      ensures Valid()
      ensures x == 0 ==> pool.live == old(pool).live
      ensures x != 0 ==>
                status == Passed && x !in old(pool).live && pool.live == old(pool).live + {x} && x in pool.tramp
      ensures old(status) == Passed ==> status == Passed && shape == old(shape) && Kept(old(pool), pool)
      ensures old(status) != Uninitialized || Hopeless(platform) ==> status == old(status)
      ensures x != 0 <==>
                && flags == 0
                && if old(status) == Uninitialized then Supported(platform, first)
                   else old(status) == Passed && (old(pool).nfreeTables > 0 || mem.Granted?)
      ensures old(status) == Passed && old(pool).nfreeTables > 0 && x != 0 ==>
                old(pool).freeTables in old(pool).table && x == old(pool).table[old(pool).freeTables].data.free
      ensures old(status) == Uninitialized ==> (status == Passed <==> Supported(platform, first))
      ensures old(status) == Uninitialized && status == Passed ==>
                shape == Shape(platform.size, platform.mapSize, platform.mapSize / platform.size)
    {
      hide PoolX;
      var ok := Init(platform, first);
      if !ok || flags != 0 {
        return 0;
      }
      ok := TableAlloc(mem);
      if !ok {
        return 0;
      }
      OrderFacts(shape, pool, IDLE);
      var t := pool.freeTables;
      ListedHead(shape, pool);
      CanTake(shape, pool, t, 0);
      x := pool.table[t].data.free;
      ghost var p := pool;
      TrampDel(x, 0);
      KeptData(shape, old(pool), p, pool);
    }

    // ffi_tramp_free
    method Release(x: Addr)
      requires status == Passed && Valid() && x in pool.live
      modifies this`pool
      ensures Valid() && x in old(pool).tramp && old(pool).tramp[x].data.table in old(pool).free
      ensures PutBack(shape, old(pool), pool, x)
      ensures forall y :: y in pool.live ==>
                y in old(pool).tramp && y in pool.tramp && pool.tramp[y].data == old(pool).tramp[y].data
    {
      hide PoolX;
      InPool(shape, pool, IDLE);
      TrampAdd(x, IDLE);
      InPool(shape, pool, IDLE);
    }

    // ffi_tramp_get_addr
    method GetAddr(x: Addr) returns (code: Addr)
      requires x in pool.tramp
      ensures code == pool.tramp[x].data.code
    {
      code := pool.tramp[x].data.code;
    }

    // What the code of trampoline y finds, one mapping above itself
    ghost predicate ParmsFor(y: Addr, target: Addr, data: Addr)
      reads this
      requires y in pool.tramp
    {
      var at := pool.tramp[y].data.code + shape.mapSize;
      at in parms && parms[at] == (target, data)
    }

    // ffi_tramp_set_parms
    method SetParms(x: Addr, target: Addr, data: Addr)
      requires status == Passed && Valid() && x in pool.tramp
      modifies this`parms
      ensures Valid() && ParmsFor(x, target, data)
      ensures forall y, a, b :: y in pool.tramp && y != x ==> (ParmsFor(y, a, b) <==> old(ParmsFor(y, a, b)))
    {
      SlotsApart(shape, pool, x, x);
      forall y | y in pool.tramp && y != x
        ensures pool.tramp[y].data.code + shape.mapSize != pool.tramp[x].data.parm
      {
        SlotsApart(shape, pool, x, y);
      }
      parms := parms[pool.tramp[x].data.parm := (target, data)];
    }
  }

  // The architecture's table has room for at least one trampoline, and malloc gives no null.
  ghost predicate PlatformOK(platform: Platform, mem: TableMemory) {
    && 0 < platform.size <= platform.mapSize
    && (mem.Granted? ==> mem.table != 0 && mem.slots > 0)
  }

  lemma EmptyPool(sh: Shape, p: Pool)
    requires p == Pool(0, 0, map[], map[], [], map[], {}) && 0 < sh.size <= sh.mapSize &&
             sh.ntramp == sh.mapSize / sh.size
    ensures PoolOK(sh, p)
  {
    assert sh.mapSize / sh.size >= 1;
  }

  lemma ListedHead(sh: Shape, p: Pool)
    requires PoolOK(sh, p) && p.nfreeTables > 0
    ensures p.freeTables in p.table && p.freeTables in p.free && p.free[p.freeTables] != []
  {
    OrderFacts(sh, p, IDLE);
    assert TableOK(sh, p, IDLE, p.freeTables);
  }

  lemma KeptData(sh: Shape, p: Pool, g: Pool, k: Pool)
    requires PoolOK(sh, g) && PoolOK(sh, k) && SameData(g.tramp, k.tramp) && SameTables(g, k) &&
             k.free.Keys == g.free.Keys
    ensures Kept(p, g) ==> Kept(p, k)
  {
    InPool(sh, g, IDLE);
    InPool(sh, k, IDLE);
  }

  lemma FirstCode(sh: Shape, code: Addr)
    ensures CodeAt(sh, code, 0) == code
  {
  }

  lemma NextCode(sh: Shape, code: Addr, i: nat)
    ensures CodeAt(sh, code, i + 1) == CodeAt(sh, code, i) + sh.size
  {
  }

  lemma InPool(sh: Shape, p: Pool, w: Work)
    requires PoolX(sh, p, w)
    ensures p.live <= p.tramp.Keys && p.free.Keys == p.table.Keys
  {
  }

  lemma SomeFree(sh: Shape, p: Pool, t: Addr)
    requires PoolOK(sh, p) && t in p.free && p.free[t] != []
    ensures p.nfreeTables > 0
  {
    assert TableOK(sh, p, IDLE, t);
  }

  lemma FreeTable(sh: Shape, p: Pool, t: Addr)
    requires PoolOK(sh, p) && t in p.free
    ensures t in p.table
  {
  }

  lemma RemovedLength(s: seq<Addr>, k: nat)
    requires k < |s|
    ensures |Removed(s, k)| == |s| - 1
  {
  }
}
