// The static trampolines of libffi as a value: tables of trampolines, each with a list of its
// free ones, and the list of the tables that have some.

module Pool {
  import opened Words
  import opened Rings
  import opened Lists

  // sizeof (struct tramp)
  const TRAMP_BYTES: nat := 40

  // What the architecture tells about its trampoline code table.
  datatype Shape = Shape(size: nat, mapSize: nat, ntramp: nat)

  ghost predicate ShapeOK(sh: Shape) { sh.size > 0 && sh.ntramp == sh.mapSize / sh.size && sh.ntramp > 0 }

  datatype Tramp = Tramp(table: Addr, code: Addr, parm: Addr)

  datatype Table = Table(codeTable: Addr, parmTable: Addr, slots: Addr, free: Addr, nfree: nat)

  // order is the list of tables, free the list of each table, live the trampolines handed out.
  datatype Pool = Pool(
    freeTables: Addr, nfreeTables: nat,
    table: map<Addr, Node<Table>>, tramp: map<Addr, Node<Tramp>>,
    ghost order: seq<Addr>, ghost free: map<Addr, seq<Addr>>, ghost live: set<Addr>)

  // The table b is being populated and has made trampolines so far; b is 0 otherwise. Whether the
  // table e belongs on the list of tables is not settled; e is 0 otherwise.
  datatype Work = Work(b: Addr, made: nat, e: Addr)

  const IDLE := Work(0, 0, 0)

  function Made(sh: Shape, w: Work, t: Addr): nat { if t == w.b then w.made else sh.ntramp }

  function Spot(slots: Addr, i: int): Addr { slots + TRAMP_BYTES * i }

  function IndexOf(slots: Addr, x: Addr): int { (x - slots) / TRAMP_BYTES }

  function CodeAt(sh: Shape, codeTable: Addr, i: int): Addr { codeTable + i * sh.size }

  // A trampoline is an element of its table's array, its code the slot with the same index and
  // its parameters exactly one mapping above the code.
  ghost predicate TrampOK(sh: Shape, p: Pool, w: Work, x: Addr) {
    && x in p.tramp && p.tramp[x].data.table in p.table
    && var t := p.tramp[x].data.table;
    var tb := p.table[t].data;
    && 0 <= IndexOf(tb.slots, x) < Made(sh, w, t) && x == Spot(tb.slots, IndexOf(tb.slots, x)) && x != 0
    && p.tramp[x].data.code == CodeAt(sh, tb.codeTable, IndexOf(tb.slots, x))
    && p.tramp[x].data.parm == p.tramp[x].data.code + sh.mapSize
    && t in p.free && (x in p.live <==> x !in p.free[t])
  }

  ghost predicate TableOK(sh: Shape, p: Pool, w: Work, t: Addr) {
    && t in p.table && t in p.free && t != 0
    && var tb := p.table[t].data;
    && tb.slots > 0 && tb.parmTable == tb.codeTable + sh.mapSize
    && IsList(p.tramp, tb.free, p.free[t]) && tb.nfree == |p.free[t]|
    && (forall x :: x in p.free[t] ==> x in p.tramp && p.tramp[x].data.table == t)
    && (forall i {:trigger Spot(tb.slots, i)} :: 0 <= i < Made(sh, w, t) ==>
         Spot(tb.slots, i) in p.tramp && p.tramp[Spot(tb.slots, i)].data.table == t)
    && (t != w.e ==> (t in p.order <==> p.free[t] != []))
  }

  // Two tables share neither mapped memory nor their arrays, and are not both wholly free.
  ghost predicate TablesApart(sh: Shape, p: Pool, w: Work, t: Addr, u: Addr) {
    t in p.table && u in p.table && t != u ==>
      var a, b := p.table[t].data, p.table[u].data;
      && (a.codeTable + 2 * sh.mapSize <= b.codeTable || b.codeTable + 2 * sh.mapSize <= a.codeTable)
      && (a.slots + TRAMP_BYTES * sh.ntramp <= b.slots || b.slots + TRAMP_BYTES * sh.ntramp <= a.slots)
      && (w.e == 0 || (t != w.e && u != w.e) ==> a.nfree < sh.ntramp || b.nfree < sh.ntramp)
  }

  ghost predicate PoolX(sh: Shape, p: Pool, w: Work) {
    && ShapeOK(sh) && w.made <= sh.ntramp
    && p.free.Keys == p.table.Keys && p.live <= p.tramp.Keys
    && IsList(p.table, p.freeTables, p.order) && p.nfreeTables == |p.order|
    && (forall t :: t in p.order ==> t in p.table)
    && (forall x {:trigger TrampOK(sh, p, w, x)} :: x in p.tramp ==> TrampOK(sh, p, w, x))
    && (forall t {:trigger TableOK(sh, p, w, t)} :: t in p.table ==> TableOK(sh, p, w, t))
    && (forall t, u {:trigger TablesApart(sh, p, w, t, u)} :: TablesApart(sh, p, w, t, u))
  }

  ghost predicate PoolOK(sh: Shape, p: Pool) { PoolX(sh, p, IDLE) }

  // ---- A trampoline goes back to its table ----------------------------------------------

  function Counted(tb: Table, free: Addr, nfree: nat): Table { tb.(free := free, nfree := nfree) }

  // The first part of tramp_add
  ghost function Given(p: Pool, x: Addr): Pool
    requires x in p.tramp && p.tramp[x].data.table in p.table && p.tramp[x].data.table in p.free
    requires var f := p.table[p.tramp[x].data.table].data.free; f != 0 ==> f in p.tramp
  {
    var t := p.tramp[x].data.table;
    var tb := p.table[t].data;
    p.(tramp := PushLinks(p.tramp, tb.free, x),
       table := p.table[t := p.table[t].(data := Counted(tb, x, tb.nfree + 1))],
       free := p.free[t := [x] + p.free[t]], live := p.live - {x})
  }

  lemma Give(sh: Shape, p: Pool, w: Work, x: Addr)
    requires PoolX(sh, p, w) && x in p.live && w.e == 0
    ensures x in p.tramp && p.tramp[x].data.table in p.table && p.tramp[x].data.table in p.free
    ensures var t := p.tramp[x].data.table;
            var f := p.table[t].data.free;
            && t != 0 && (f != 0 ==> f in p.tramp) && p.table[t].data.nfree == |p.free[t]|
            && (t in p.order <==> p.free[t] != [])
            && PoolX(sh, Given(p, x), w.(e := t)) && SameData(p.tramp, Given(p, x).tramp)
  {
    hide IsList, Spot, IndexOf, CodeAt;
    assert TrampOK(sh, p, w, x);
    var t := p.tramp[x].data.table;
    assert TableOK(sh, p, w, t);
    var tb := p.table[t].data;
    PushList(p.tramp, tb.free, p.free[t], x);
    var g, v := Given(p, x), w.(e := t);
    ListFrame(p.table, g.table, p.freeTables, p.order);
    forall y {:trigger TrampOK(sh, g, v, y)} | y in g.tramp ensures TrampOK(sh, g, v, y) {
      assert TrampOK(sh, p, w, y);
    }
    forall u {:trigger TableOK(sh, g, v, u)} | u in g.table ensures TableOK(sh, g, v, u) {
      GiveTable(sh, p, w, x, u);
    }
    forall a, b {:trigger TablesApart(sh, g, v, a, b)} ensures TablesApart(sh, g, v, a, b) {
      assert TablesApart(sh, p, w, a, b);
    }
  }

  lemma GiveTable(sh: Shape, p: Pool, w: Work, x: Addr, u: Addr)
    requires PoolX(sh, p, w) && x in p.live && w.e == 0 && u in p.table
    requires x in p.tramp && p.tramp[x].data.table in p.table && p.tramp[x].data.table in p.free
    requires var f := p.table[p.tramp[x].data.table].data.free; f != 0 ==> f in p.tramp
    ensures TableOK(sh, Given(p, x), w.(e := p.tramp[x].data.table), u)
  {
    hide IsList, Spot, IndexOf, CodeAt, TablesApart;
    var t := p.tramp[x].data.table;
    assert TrampOK(sh, p, w, x) && TableOK(sh, p, w, t) && TableOK(sh, p, w, u);
    PushList(p.tramp, p.table[t].data.free, p.free[t], x);
    if u != t {
      ListFrame(p.tramp, Given(p, x).tramp, p.table[u].data.free, p.free[u]);
    }
  }

  // tramp_table_add
  ghost function Listed(p: Pool, t: Addr): Pool
    requires t in p.table && (p.freeTables != 0 ==> p.freeTables in p.table)
  {
    p.(table := PushLinks(p.table, p.freeTables, t), freeTables := t,
       nfreeTables := p.nfreeTables + 1, order := [t] + p.order)
  }

  lemma List(sh: Shape, p: Pool, w: Work, t: Addr)
    requires PoolX(sh, p, w) && w.e == t && t in p.table && t !in p.order
    ensures p.freeTables != 0 ==> p.freeTables in p.table
    ensures PoolX(sh, Listed(p, t), w) && SameData(p.table, Listed(p, t).table)
  {
    hide IsList, Spot, IndexOf, CodeAt;
    assert TableOK(sh, p, w, t);
    PushList(p.table, p.freeTables, p.order, t);
    var g := Listed(p, t);
    Unchanged(sh, p, g, w);
    forall u {:trigger TableOK(sh, g, w, u)} | u in g.table ensures TableOK(sh, g, w, u) {
      assert TableOK(sh, p, w, u);
    }
  }

  // Only links between tables change.
  lemma Unchanged(sh: Shape, p: Pool, g: Pool, w: Work)
    requires PoolX(sh, p, w) && SameData(p.table, g.table) && g.tramp == p.tramp && g.free == p.free && g.live == p.live
    ensures forall x {:trigger TrampOK(sh, g, w, x)} :: x in g.tramp ==> TrampOK(sh, g, w, x)
    ensures forall t, u {:trigger TablesApart(sh, g, w, t, u)} :: TablesApart(sh, g, w, t, u)
  {
    hide Spot, IndexOf, CodeAt;
    forall y {:trigger TrampOK(sh, g, w, y)} | y in g.tramp ensures TrampOK(sh, g, w, y) {
      assert TrampOK(sh, p, w, y);
    }
    forall a, b {:trigger TablesApart(sh, g, w, a, b)} ensures TablesApart(sh, g, w, a, b) {
      assert TablesApart(sh, p, w, a, b);
    }
  }

  // tramp_table_del
  ghost function Unlisted(p: Pool, k: nat): Pool
    requires k < |p.order| && p.nfreeTables > 0 && p.order[k] in p.table
    requires var n := p.table[p.order[k]]; (n.prev != 0 ==> n.prev in p.table) && (n.next != 0 ==> n.next in p.table)
  {
    var t := p.order[k];
    p.(table := UnlinkPrev(UnlinkNext(p.table, t), t), nfreeTables := p.nfreeTables - 1,
       freeTables := if p.freeTables == t then p.table[t].next else p.freeTables, order := Removed(p.order, k))
  }

  lemma Unlist(sh: Shape, p: Pool, w: Work, k: nat)
    requires PoolX(sh, p, w) && k < |p.order| && w.e == p.order[k]
    ensures w.e in p.table && p.nfreeTables > 0
    ensures var n := p.table[w.e]; (n.prev != 0 ==> n.prev in p.table) && (n.next != 0 ==> n.next in p.table)
    ensures PoolX(sh, Unlisted(p, k), w) && SameData(p.table, Unlisted(p, k).table)
    ensures w.e !in Unlisted(p, k).order && w.e != 0
  {
    hide IsList, Spot, IndexOf, CodeAt;
    var t := p.order[k];
    Lists.Neighbours(p.table, p.freeTables, p.order, k);
    UnlinkList(p.table, p.freeTables, p.order, k);
    OrderDistinct(p);
    RemovedMembers(p.order, k);
    var g := Unlisted(p, k);
    Unchanged(sh, p, g, w);
    forall u {:trigger TableOK(sh, g, w, u)} | u in g.table ensures TableOK(sh, g, w, u) {
      UnlistTable(sh, p, g, w, u);
    }
  }

  // Another order of the tables, but for e
  lemma UnlistTable(sh: Shape, p: Pool, g: Pool, w: Work, u: Addr)
    requires PoolX(sh, p, w) && SameData(p.table, g.table) && g.tramp == p.tramp && g.free == p.free && g.live == p.live
    requires u in p.table && (u != w.e ==> (u in g.order <==> u in p.order))
    ensures TableOK(sh, g, w, u)
  {
    hide IsList, Spot, IndexOf, CodeAt, TrampOK, TablesApart;
    assert TableOK(sh, p, w, u);
  }

  lemma OrderDistinct(p: Pool)
    requires IsList(p.table, p.freeTables, p.order)
    ensures Distinct(p.order)
  {
  }

  // With table e on the list exactly if it has free trampolines, and not wholly free beside
  // another one with free trampolines, all is settled.
  lemma Settle(sh: Shape, p: Pool, w: Work)
    requires PoolX(sh, p, w) && w.e in p.table
    requires w.e in p.order <==> p.free[w.e] != []
    requires |p.free[w.e]| < sh.ntramp || |p.order| <= 1
    ensures PoolX(sh, p, w.(e := 0))
  {
    hide IsList, Spot, IndexOf, CodeAt;
    var v, t := w.(e := 0), w.e;
    assert TableOK(sh, p, w, t);
    forall x {:trigger TrampOK(sh, p, v, x)} | x in p.tramp ensures TrampOK(sh, p, v, x) {
      assert TrampOK(sh, p, w, x);
    }
    forall u {:trigger TableOK(sh, p, v, u)} | u in p.table ensures TableOK(sh, p, v, u) {
      assert TableOK(sh, p, w, u);
    }
    forall a, b {:trigger TablesApart(sh, p, v, a, b)} ensures TablesApart(sh, p, v, a, b) {
      assert TablesApart(sh, p, w, a, b);
      if a in p.table && b in p.table && a != b && (a == t || b == t) && |p.order| <= 1 {
        assert TableOK(sh, p, w, a) && TableOK(sh, p, w, b);
        AtMostOne(p.order, a, b);
      }
    }
  }

  lemma AtMostOne(s: seq<Addr>, a: Addr, b: Addr)
    requires |s| <= 1 && a != b
    ensures a !in s || b !in s
  {
  }

  // ---- Counting -------------------------------------------------------------------------

  function Block(slots: Addr, n: nat): set<Addr> { set i | 0 <= i < n :: Spot(slots, i) }

  lemma {:induction false} BlockCount(slots: Addr, n: nat)
    ensures |Block(slots, n)| == n
  {
    if n > 0 {
      BlockCount(slots, n - 1);
      assert Block(slots, n) == Block(slots, n - 1) + {Spot(slots, n - 1)};
      assert Spot(slots, n - 1) !in Block(slots, n - 1);
    }
  }

  lemma {:induction false} DistinctCount(s: seq<Addr>)
    requires Distinct(s)
    ensures |set x | x in s| == |s|
  {
    if s != [] {
      DistinctCount(s[1..]);
      assert s == [s[0]] + s[1..];
      assert (set x | x in s) == (set x | x in s[1..]) + {s[0]};
    }
  }

  lemma SubsetCount(a: set<Addr>, b: set<Addr>)
    requires a <= b
    ensures |a| <= |b|
  {
    assert b == a + (b - a);
  }

  lemma InBlock(sh: Shape, p: Pool, w: Work, t: Addr, x: Addr)
    requires PoolX(sh, p, w) && t in p.table && x in p.tramp && p.tramp[x].data.table == t
    ensures x in Block(p.table[t].data.slots, Made(sh, w, t))
  {
    assert TrampOK(sh, p, w, x);
  }

  lemma FreeDistinct(sh: Shape, p: Pool, w: Work, t: Addr)
    requires PoolX(sh, p, w) && t in p.table
    ensures t in p.free && Distinct(p.free[t]) && p.table[t].data.nfree == |p.free[t]|
    ensures forall x :: x in p.free[t] ==> x in p.tramp && p.tramp[x].data.table == t
  {
    assert TableOK(sh, p, w, t);
  }

  // A table with as many free trampolines as it has room for has none that is live.
  lemma AllFree(sh: Shape, p: Pool, w: Work, t: Addr)
    requires PoolX(sh, p, w) && t in p.table && |p.free[t]| == Made(sh, w, t)
    ensures forall x :: x in p.live ==> x in p.tramp && p.tramp[x].data.table != t
  {
    hide PoolX, TrampOK, TableOK, Spot, Block;
    var n, slots := Made(sh, w, t), p.table[t].data.slots;
    FreeDistinct(sh, p, w, t);
    var f := set x | x in p.free[t];
    BlockCount(slots, n);
    DistinctCount(p.free[t]);
    forall x | x in f ensures x in Block(slots, n) {
      InBlock(sh, p, w, t, x);
    }
    forall x | x in p.live ensures x in p.tramp && p.tramp[x].data.table != t {
      LiveNotFree(sh, p, w, x);
      if p.tramp[x].data.table == t {
        InBlock(sh, p, w, t, x);
        SubsetCount(f, Block(slots, n) - {x});
      }
    }
  }

  lemma FreeAtMost(sh: Shape, p: Pool, w: Work, t: Addr)
    requires PoolX(sh, p, w) && t in p.table
    ensures t in p.free && |p.free[t]| == p.table[t].data.nfree && |p.free[t]| <= Made(sh, w, t) <= sh.ntramp
  {
    hide TrampOK, TableOK, Spot, Block;
    var n, slots := Made(sh, w, t), p.table[t].data.slots;
    FreeDistinct(sh, p, w, t);
    var f := set x | x in p.free[t];
    BlockCount(slots, n);
    DistinctCount(p.free[t]);
    forall x | x in f ensures x in Block(slots, n) {
      InBlock(sh, p, w, t, x);
    }
    SubsetCount(f, Block(slots, n));
  }

  lemma OrderFacts(sh: Shape, p: Pool, w: Work)
    requires PoolX(sh, p, w)
    ensures p.nfreeTables == |p.order| && Distinct(p.order) && w.made <= sh.ntramp && sh.ntramp > 0
    ensures forall t :: t in p.order ==> t in p.table
    ensures p.order != [] ==> p.freeTables == p.order[0] != 0 && p.freeTables in p.table
  {
    if p.order != [] {
      assert NodeAt(p.table, p.order, 0);
    }
  }

  lemma LiveNotFree(sh: Shape, p: Pool, w: Work, x: Addr)
    requires PoolX(sh, p, w) && x in p.live
    ensures x in p.tramp && p.tramp[x].data.table in p.free && x !in p.free[p.tramp[x].data.table]
  {
    assert TrampOK(sh, p, w, x);
  }

  // tramp_table_free: the table, its array and its two mappings are gone.
  ghost function Dropped(p: Pool, t: Addr): Pool {
    p.(table := p.table - {t}, free := p.free - {t},
       tramp := p.tramp - (set x | x in p.tramp && p.tramp[x].data.table == t))
  }

  lemma Drop(sh: Shape, p: Pool, t: Addr)
    requires PoolX(sh, p, Work(0, 0, t)) && t in p.table && t !in p.order && |p.free[t]| == sh.ntramp
    ensures PoolOK(sh, Dropped(p, t)) && (forall x :: x in p.live ==> x in p.tramp && p.tramp[x].data.table != t)
  {
    hide IsList, Spot, IndexOf, CodeAt;
    var g, w := Dropped(p, t), Work(0, 0, t);
    assert TableOK(sh, p, w, t);
    AllFree(sh, p, w, t);
    ListFrame(p.table, g.table, p.freeTables, p.order);
    forall x {:trigger TrampOK(sh, g, IDLE, x)} | x in g.tramp ensures TrampOK(sh, g, IDLE, x) {
      assert TrampOK(sh, p, w, x);
    }
    forall u {:trigger TableOK(sh, g, IDLE, u)} | u in g.table ensures TableOK(sh, g, IDLE, u) {
      assert TableOK(sh, p, w, u);
      ListFrame(p.tramp, g.tramp, p.table[u].data.free, p.free[u]);
    }
    forall a, b {:trigger TablesApart(sh, g, IDLE, a, b)} ensures TablesApart(sh, g, IDLE, a, b) {
      assert TablesApart(sh, p, w, a, b);
    }
    forall x | x in g.live ensures x in g.tramp.Keys {
      assert x in g.tramp;
    }
  }

  // ---- A trampoline is handed out -------------------------------------------------------

  // The k-th free trampoline of table t can be unlinked.
  ghost predicate Takable(p: Pool, t: Addr, k: nat) {
    && t in p.table && t in p.free && k < |p.free[t]| && p.free[t][k] in p.tramp && p.table[t].data.nfree > 0
    && var n := p.tramp[p.free[t][k]];
    (n.prev != 0 ==> n.prev in p.tramp) && (n.next != 0 ==> n.next in p.tramp)
  }

  // The first part of tramp_del
  ghost function Taken(p: Pool, t: Addr, k: nat): Pool
    requires Takable(p, t, k)
  {
    var x, tb := p.free[t][k], p.table[t].data;
    p.(tramp := UnlinkPrev(UnlinkNext(p.tramp, x), x),
       table := p.table[t := p.table[t].(
           data := Counted(tb, if tb.free == x then p.tramp[x].next else tb.free, tb.nfree - 1))],
       free := p.free[t := Removed(p.free[t], k)], live := p.live + {x})
  }

  lemma CanTake(sh: Shape, p: Pool, t: Addr, k: nat)
    requires PoolOK(sh, p) && t in p.table && t in p.free && k < |p.free[t]|
    ensures var x := p.free[t][k];
            && x in p.tramp && p.tramp[x].data.table == t && x !in p.live && x != 0 && t != 0
            && p.table[t].data.nfree == |p.free[t]| && t in p.order
            && (p.tramp[x].prev != 0 ==> p.tramp[x].prev in p.tramp)
            && (p.tramp[x].next != 0 ==> p.tramp[x].next in p.tramp)
            && (p.table[t].data.free == x <==> k == 0)
    ensures p.free[t][0] == p.table[t].data.free
  {
    assert TableOK(sh, p, IDLE, t);
    assert TrampOK(sh, p, IDLE, p.free[t][k]);
    Lists.Neighbours(p.tramp, p.table[t].data.free, p.free[t], k);
  }

  lemma Take(sh: Shape, p: Pool, t: Addr, k: nat)
    requires PoolOK(sh, p) && Takable(p, t, k)
    ensures PoolX(sh, Taken(p, t, k), Work(0, 0, t)) && SameData(p.tramp, Taken(p, t, k).tramp)
  {
    hide IsList, Spot, IndexOf, CodeAt;
    CanTake(sh, p, t, k);
    var w := Work(0, 0, t);
    assert TableOK(sh, p, IDLE, t);
    UnlinkList(p.tramp, p.table[t].data.free, p.free[t], k);
    var g := Taken(p, t, k);
    ListFrame(p.table, g.table, p.freeTables, p.order);
    forall y {:trigger TrampOK(sh, g, w, y)} | y in g.tramp ensures TrampOK(sh, g, w, y) {
      TakeTramp(sh, p, t, k, y);
    }
    forall u {:trigger TableOK(sh, g, w, u)} | u in g.table ensures TableOK(sh, g, w, u) {
      TakeTable(sh, p, t, k, u);
    }
    forall a, b {:trigger TablesApart(sh, g, w, a, b)} ensures TablesApart(sh, g, w, a, b) {
      assert TablesApart(sh, p, IDLE, a, b);
    }
  }

  lemma TakeTramp(sh: Shape, p: Pool, t: Addr, k: nat, y: Addr)
    requires PoolOK(sh, p) && Takable(p, t, k) && y in p.tramp
    ensures TrampOK(sh, Taken(p, t, k), Work(0, 0, t), y)
  {
    hide IsList, Spot, IndexOf, CodeAt, TablesApart;
    assert TableOK(sh, p, IDLE, t) && TrampOK(sh, p, IDLE, y);
    FreeDistinct(sh, p, IDLE, t);
    RemovedMembers(p.free[t], k);
    UnlinkList(p.tramp, p.table[t].data.free, p.free[t], k);
  }

  lemma TakeTable(sh: Shape, p: Pool, t: Addr, k: nat, u: Addr)
    requires PoolOK(sh, p) && Takable(p, t, k) && u in p.table
    ensures TableOK(sh, Taken(p, t, k), Work(0, 0, t), u)
  {
    hide IsList, Spot, IndexOf, CodeAt, TrampOK, TablesApart;
    CanTake(sh, p, t, k);
    assert TableOK(sh, p, IDLE, t) && TableOK(sh, p, IDLE, u);
    FreeDistinct(sh, p, IDLE, t);
    RemovedMembers(p.free[t], k);
    UnlinkList(p.tramp, p.table[t].data.free, p.free[t], k);
    if u != t {
      TakeOther(sh, p, t, k, u);
    }
  }

  lemma TakeOther(sh: Shape, p: Pool, t: Addr, k: nat, u: Addr)
    requires PoolOK(sh, p) && Takable(p, t, k)
    requires u in p.table && u != t
    ensures u in p.free && IsList(Taken(p, t, k).tramp, p.table[u].data.free, p.free[u])
  {
    hide IsList, Spot, IndexOf, CodeAt;
    assert TableOK(sh, p, IDLE, t) && TableOK(sh, p, IDLE, u);
    FreeDistinct(sh, p, IDLE, t);
    RemovedMembers(p.free[t], k);
    UnlinkList(p.tramp, p.table[t].data.free, p.free[t], k);
    ListFrame(p.tramp, Taken(p, t, k).tramp, p.table[u].data.free, p.free[u]);
  }

  // ---- A table is made ------------------------------------------------------------------

  ghost function WithTable(p: Pool, t: Addr, n: Node<Table>): Pool {
    p.(table := p.table[t := n], free := p.free[t := []])
  }

  // Memory malloc and mmap give: unused, aligned as they promise or just not null.
  ghost predicate Unused(sh: Shape, p: Pool, t: Addr, slots: Addr, code: Addr) {
    && t != 0 && t !in p.table && slots > 0
    && (forall u :: u in p.table ==>
          var b := p.table[u].data;
          && (code + 2 * sh.mapSize <= b.codeTable || b.codeTable + 2 * sh.mapSize <= code)
          && (slots + TRAMP_BYTES * sh.ntramp <= b.slots || b.slots + TRAMP_BYTES * sh.ntramp <= slots))
  }

  lemma MakeTable(sh: Shape, p: Pool, t: Addr, slots: Addr, code: Addr, n: Node<Table>)
    requires PoolOK(sh, p) && p.order == [] && Unused(sh, p, t, slots, code)
    requires n.data == Table(code, code + sh.mapSize, slots, 0, 0)
    ensures PoolX(sh, WithTable(p, t, n), Work(t, 0, 0))
  {
    hide Spot, IndexOf, CodeAt;
    var g, w := WithTable(p, t, n), Work(t, 0, 0);
    forall x {:trigger TrampOK(sh, g, w, x)} | x in g.tramp ensures TrampOK(sh, g, w, x) {
      assert TrampOK(sh, p, IDLE, x);
    }
    forall u {:trigger TableOK(sh, g, w, u)} | u in g.table ensures TableOK(sh, g, w, u) {
      if u != t {
        assert TableOK(sh, p, IDLE, u);
      }
    }
    forall a, b {:trigger TablesApart(sh, g, w, a, b)} ensures TablesApart(sh, g, w, a, b) {
      assert TablesApart(sh, p, IDLE, a, b);
    }
  }

  ghost function WithTramp(p: Pool, x: Addr, n: Node<Tramp>): Pool {
    p.(tramp := p.tramp[x := n], live := p.live + {x})
  }

  lemma MakeTramp(sh: Shape, p: Pool, w: Work, n: Node<Tramp>)
    requires PoolX(sh, p, w) && w.b in p.table && w.made < sh.ntramp && w.e == 0
    requires var tb := p.table[w.b].data;
             n.data == Tramp(w.b, CodeAt(sh, tb.codeTable, w.made), CodeAt(sh, tb.codeTable, w.made) + sh.mapSize)
    ensures var x := Spot(p.table[w.b].data.slots, w.made);
            x !in p.tramp && x > 0 && PoolX(sh, WithTramp(p, x, n), w.(made := w.made + 1))
  {
    var tb := p.table[w.b].data;
    var x := Spot(tb.slots, w.made);
    assert TableOK(sh, p, w, w.b);
    NotMade(sh, p, w);
    var g, v := WithTramp(p, x, n), w.(made := w.made + 1);
    forall y {:trigger TrampOK(sh, g, v, y)} | y in g.tramp ensures TrampOK(sh, g, v, y) {
      if y != x {
        assert TrampOK(sh, p, w, y);
      }
    }
    forall u {:trigger TableOK(sh, g, v, u)} | u in g.table ensures TableOK(sh, g, v, u) {
      assert TableOK(sh, p, w, u);
      ListFrame(p.tramp, g.tramp, p.table[u].data.free, p.free[u]);
    }
    forall a, b {:trigger TablesApart(sh, g, v, a, b)} ensures TablesApart(sh, g, v, a, b) {
      assert TablesApart(sh, p, w, a, b);
    }
  }

  // The next slot of the table under construction is not in use.
  lemma NotMade(sh: Shape, p: Pool, w: Work)
    requires PoolX(sh, p, w) && w.b in p.table && w.made < sh.ntramp
    ensures Spot(p.table[w.b].data.slots, w.made) !in p.tramp
  {
    var x := Spot(p.table[w.b].data.slots, w.made);
    forall y | y in p.tramp ensures y != x {
      assert TrampOK(sh, p, w, y);
      assert TablesApart(sh, p, w, p.tramp[y].data.table, w.b);
    }
  }

  lemma TableMade(sh: Shape, p: Pool, w: Work)
    requires PoolX(sh, p, w) && w.made == sh.ntramp && w.e == 0
    ensures PoolOK(sh, p)
  {
    forall x {:trigger TrampOK(sh, p, IDLE, x)} | x in p.tramp ensures TrampOK(sh, p, IDLE, x) {
      assert TrampOK(sh, p, w, x);
      assert TableOK(sh, p, w, p.tramp[x].data.table);
    }
    forall u {:trigger TableOK(sh, p, IDLE, u)} | u in p.table ensures TableOK(sh, p, IDLE, u) {
      assert TableOK(sh, p, w, u);
    }
    forall a, b {:trigger TablesApart(sh, p, IDLE, a, b)} ensures TablesApart(sh, p, IDLE, a, b) {
      assert TablesApart(sh, p, w, a, b);
    }
  }

  // ---- What the invariant says ----------------------------------------------------------

  // The list of tables is exactly the mapped tables with free trampolines, each once, and its
  // counter counts them; so is each table's own list and counter.
  lemma ListedExactly(sh: Shape, p: Pool, t: Addr)
    requires PoolOK(sh, p)
    ensures t in p.order <==> t in p.table && p.table[t].data.nfree > 0
    ensures p.nfreeTables == |set u | u in p.table && p.table[u].data.nfree > 0|
    ensures t in p.table ==>
              && t in p.free
              && p.table[t].data.nfree == |set x | x in p.tramp && p.tramp[x].data.table == t && x !in p.live|
  {
    hide PoolX, TrampOK, TableOK;
    OrderFacts(sh, p, IDLE);
    DistinctCount(p.order);
    forall u ensures u in p.order <==> u in p.table && p.table[u].data.nfree > 0 {
      ListedIfFree(sh, p, u);
    }
    assert (set u | u in p.order) == (set u | u in p.table && p.table[u].data.nfree > 0);
    if t in p.table {
      FreeDistinct(sh, p, IDLE, t);
      DistinctCount(p.free[t]);
      forall x ensures x in p.free[t] <==> x in p.tramp && p.tramp[x].data.table == t && x !in p.live {
        FreeIfNotLive(sh, p, t, x);
      }
      assert (set x | x in p.free[t]) == (set x | x in p.tramp && p.tramp[x].data.table == t && x !in p.live);
    }
  }

  lemma ListedIfFree(sh: Shape, p: Pool, t: Addr)
    requires PoolOK(sh, p)
    ensures t in p.order <==> t in p.table && p.table[t].data.nfree > 0
  {
    if t in p.table {
      assert TableOK(sh, p, IDLE, t);
    }
  }

  lemma FreeIfNotLive(sh: Shape, p: Pool, t: Addr, x: Addr)
    requires PoolOK(sh, p) && t in p.table && t in p.free
    ensures x in p.free[t] <==> x in p.tramp && p.tramp[x].data.table == t && x !in p.live
  {
    FreeDistinct(sh, p, IDLE, t);
    if x in p.tramp {
      assert TrampOK(sh, p, IDLE, x);
    }
  }

  // A live trampoline's table is mapped; of all tables at most one has no live trampoline.
  lemma LiveIsMapped(sh: Shape, p: Pool, x: Addr)
    requires PoolOK(sh, p) && x in p.live
    ensures x in p.tramp && p.tramp[x].data.table in p.table
    ensures p.table[p.tramp[x].data.table].data.nfree < sh.ntramp
  {
    hide PoolX, TableOK;
    LiveNotFree(sh, p, IDLE, x);
    var t := p.tramp[x].data.table;
    InTable(sh, p, x);
    FreeAtMost(sh, p, IDLE, t);
    if p.table[t].data.nfree == sh.ntramp {
      AllFree(sh, p, IDLE, t);
    }
  }

  lemma InTable(sh: Shape, p: Pool, x: Addr)
    requires PoolOK(sh, p) && x in p.tramp
    ensures p.tramp[x].data.table in p.table && p.tramp[x].data.table != 0
  {
    assert TrampOK(sh, p, IDLE, x);
    assert TableOK(sh, p, IDLE, p.tramp[x].data.table);
  }

  lemma OneWhollyFree(sh: Shape, p: Pool, t: Addr, u: Addr)
    requires PoolOK(sh, p) && t in p.table && u in p.table
    requires p.table[t].data.nfree == sh.ntramp && p.table[u].data.nfree == sh.ntramp
    ensures t == u
  {
    assert TablesApart(sh, p, IDLE, t, u);
  }

  // The code slots of two trampolines do not overlap, nor do their parameter blocks, and the
  // parameters of a trampoline are exactly one mapping above its code.
  lemma SlotsApart(sh: Shape, p: Pool, x: Addr, y: Addr)
    requires PoolOK(sh, p) && x in p.tramp && y in p.tramp
    ensures var a, b := p.tramp[x].data, p.tramp[y].data;
            && a.parm == a.code + sh.mapSize
            && (x != y ==> a.code + sh.size <= b.code || b.code + sh.size <= a.code)
            && (x != y ==> a.parm + sh.size <= b.parm || b.parm + sh.size <= a.parm)
            && (a.code + sh.size <= b.parm || b.parm + sh.size <= a.code)
  {
    hide Spot, IndexOf, CodeAt;
    assert TrampOK(sh, p, IDLE, x) && TrampOK(sh, p, IDLE, y);
    InTable(sh, p, x);
    InTable(sh, p, y);
    var t, u := p.tramp[x].data.table, p.tramp[y].data.table;
    var a, b := p.table[t].data, p.table[u].data;
    SlotInside(sh, a, IndexOf(a.slots, x));
    SlotInside(sh, b, IndexOf(b.slots, y));
    if t != u {
      assert TablesApart(sh, p, IDLE, t, u);
    } else if x != y {
      SlotsOrdered(sh, a, IndexOf(a.slots, x), IndexOf(a.slots, y));
    }
  }

  lemma SlotInside(sh: Shape, tb: Table, i: int)
    requires ShapeOK(sh) && 0 <= i < sh.ntramp
    ensures tb.codeTable <= CodeAt(sh, tb.codeTable, i) &&
            CodeAt(sh, tb.codeTable, i) + sh.size <= tb.codeTable + sh.mapSize
  {
    assert sh.mapSize >= sh.ntramp * sh.size;
    assert (i + 1) * sh.size <= sh.ntramp * sh.size;
  }

  lemma SlotsOrdered(sh: Shape, tb: Table, i: int, j: int)
    requires i != j
    ensures var c, d := CodeAt(sh, tb.codeTable, i), CodeAt(sh, tb.codeTable, j);
            c + sh.size <= d || d + sh.size <= c
  {
    if i < j {
      Further(sh, tb.codeTable, i, j);
    } else {
      Further(sh, tb.codeTable, j, i);
    }
  }

  lemma Further(sh: Shape, code: Addr, i: int, j: int)
    requires i < j
    ensures CodeAt(sh, code, i) + sh.size <= CodeAt(sh, code, j)
  {
    assert j * sh.size == i * sh.size + (j - i) * sh.size;
    AtLeastOnce(sh.size, j - i);
  }

  // ---- Conservation ---------------------------------------------------------------------

  ghost function LiveIn(p: Pool, ts: set<Addr>): set<Addr> {
    set x | x in p.live && x in p.tramp && p.tramp[x].data.table in ts
  }

  ghost function FreeIn(p: Pool, ts: set<Addr>): set<Addr> {
    set x | x in p.tramp && x !in p.live && p.tramp[x].data.table in ts
  }

  lemma TableCount(sh: Shape, p: Pool, t: Addr)
    requires PoolOK(sh, p) && t in p.table
    ensures |LiveIn(p, {t})| + |FreeIn(p, {t})| == sh.ntramp
  {
    hide PoolX, TrampOK, TableOK, Block;
    var slots := p.table[t].data.slots;
    BlockCount(slots, sh.ntramp);
    forall x ensures x in Block(slots, sh.ntramp) <==> x in p.tramp && p.tramp[x].data.table == t {
      BlockIs(sh, p, t, x);
    }
    assert LiveIn(p, {t}) + FreeIn(p, {t}) == Block(slots, sh.ntramp);
    assert LiveIn(p, {t}) !! FreeIn(p, {t});
  }

  lemma BlockIs(sh: Shape, p: Pool, t: Addr, x: Addr)
    requires PoolOK(sh, p) && t in p.table
    ensures x in Block(p.table[t].data.slots, sh.ntramp) <==> x in p.tramp && p.tramp[x].data.table == t
  {
    hide Spot, IndexOf, CodeAt;
    assert TableOK(sh, p, IDLE, t);
    if x in p.tramp && p.tramp[x].data.table == t {
      InBlock(sh, p, IDLE, t, x);
    }
  }

  // However trampolines are handed out and come back, those in use and those free are together
  // ntramp for every mapped table.
  lemma {:induction false} Conserved(sh: Shape, p: Pool, ts: set<Addr>)
    requires PoolOK(sh, p) && ts <= p.table.Keys
    ensures |LiveIn(p, ts)| + |FreeIn(p, ts)| == sh.ntramp * |ts|
    decreases |ts|
  {
    hide PoolX;
    if ts == {} {
      assert LiveIn(p, ts) == {} && FreeIn(p, ts) == {};
    } else {
      var t := Some(ts);
      var rest := ts - {t};
      Conserved(sh, p, rest);
      TableCount(sh, p, t);
      assert LiveIn(p, ts) == LiveIn(p, rest) + LiveIn(p, {t}) && LiveIn(p, rest) !! LiveIn(p, {t});
      assert FreeIn(p, ts) == FreeIn(p, rest) + FreeIn(p, {t}) && FreeIn(p, rest) !! FreeIn(p, {t});
      assert sh.ntramp * |ts| == sh.ntramp * |rest| + sh.ntramp;
    }
  }

  lemma Some<T>(s: set<T>) returns (x: T)
    requires s != {}
    ensures x in s
  {
    x :| x in s;
  }

  lemma AllConserved(sh: Shape, p: Pool)
    requires PoolOK(sh, p)
    ensures |p.live| + |p.tramp.Keys - p.live| == sh.ntramp * |p.table|
  {
    hide TrampOK, TableOK, TablesApart, IsList;
    Conserved(sh, p, p.table.Keys);
    forall x | x in p.tramp ensures p.tramp[x].data.table in p.table {
      InTable(sh, p, x);
    }
    assert LiveIn(p, p.table.Keys) == p.live;
    assert FreeIn(p, p.table.Keys) == p.tramp.Keys - p.live;
  }
}
