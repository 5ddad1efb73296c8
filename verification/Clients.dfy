// Whole runs: whatever a client does with its blocks, adapting to the addresses it gets, it sees
// blocks of bytes that nobody else touches, although they share one heap.

module Clients {
  import opened Words
  import opened Rings
  import opened Bytes
  import opened HeapState
  import opened HeapSteps
  import opened Segments
  import opened Requests
  import opened Allocator
  import opened Memalign
  import opened Payloads
  import opened Realloc

  // A call together with what the client then writes into its new or longer block, and a client's
  // own writing inside a block.
  datatype Call =
    | NewBlock(data: seq<Byte>)
    | NewAligned(alignment: SizeT, data: seq<Byte>)
    | Resized(block: Addr, data: seq<Byte>)
    | Released(block: Addr)
    | Written(block: Addr, at: nat, data: seq<Byte>)

  // The blocks a client has, with their contents
  type Blocks = map<Addr, seq<Byte>>

  // ---- What a client expects ------------------------------------------------------------

  // The old bytes as far as they fit, then the new ones
  function Refilled(old_bytes: seq<Byte>, data: seq<Byte>): (s: seq<Byte>)
    ensures |s| == |data|
  {
    if |data| <= |old_bytes| then old_bytes[..|data|] else old_bytes + data[|old_bytes|..]
  }

  function Overwritten(bytes: seq<Byte>, at: nat, data: seq<Byte>): (s: seq<Byte>)
    requires at + |data| <= |bytes|
    ensures |s| == |bytes|
  {
    bytes[..at] + data + bytes[at + |data|..]
  }

  // The blocks after a call that returned result, null if it could not be served. Calls about
  // blocks the client does not have are not made.
  function After(blocks: Blocks, call: Call, result: Addr): Blocks {
    match call
    case NewBlock(data) => if result == 0 then blocks else blocks[result := data]
    case NewAligned(_, data) => if result == 0 then blocks else blocks[result := data]
    case Resized(b, data) =>
      if b in blocks && result != 0 then (blocks - {b})[result := Refilled(blocks[b], data)] else blocks
    case Released(b) => blocks - {b}
    case Written(b, at, data) =>
      if b in blocks && at + |data| <= |blocks[b]| then blocks[b := Overwritten(blocks[b], at, data)] else blocks
  }

  // After the first k calls of a client whose next call may depend on the results so far
  ghost function Expected(client: seq<Addr> -> Call, results: seq<Addr>, k: nat): Blocks
    requires k <= |results|
  {
    if k == 0 then map[] else After(Expected(client, results, k - 1), client(results[..k - 1]), results[k - 1])
  }

  // A new block is none the client has, and is aligned as asked for.
  ghost predicate ResultOK(blocks: Blocks, call: Call, result: Addr) {
    match call
    case NewBlock(_) => result != 0 ==> result !in blocks && result % 8 == 0
    case NewAligned(al, _) => result != 0 ==> result !in blocks && (al > 0 && IsPow2(al) ==> result % al == 0)
    case Resized(b, _) => result != 0 ==> result == b || result !in blocks
    case _ => true
  }

  // ---- What can be served ---------------------------------------------------------------

  // More than the bytes a call may make the allocator ask the system for: its data with head,
  // slack for the alignment, the space after top and the rounding up to pages
  function Need(call: Call, granularity: nat): nat {
    match call
    case NewBlock(data) => |data| + 256 + granularity
    case NewAligned(al, data) => |data| + 2 * al + 256 + granularity
    case Resized(_, data) => |data| + 256 + granularity
    case _ => 0
  }

  // A call for a block whose size size_t can tell, with all that is added to it
  predicate WantsBlock(blocks: Blocks, call: Call, granularity: nat) {
    && (call.NewBlock? || call.NewAligned? || (call.Resized? && call.block in blocks))
    && Need(call, granularity) < WORD64
  }

  // The system refuses some size that would be enough.
  ghost predicate TurnsDown(answer: SizeT -> Mapping, need: nat) {
    exists s: SizeT :: 0 < s <= need && s % 8 == 0 && answer(s).Failed?
  }

  lemma SystemRefused(h: Heap, bytes: SizeT, granularity: PageSize, answer: SizeT -> Mapping, need: nat)
    requires Memalign.RefusedBy(h, bytes, granularity, answer)
    requires bytes + 128 + granularity < need < WORD64
    ensures TurnsDown(answer, need)
  {
    hide SystemSize, CanServe, RequestSize, IsPageSize;
    PageBound(granularity);
    NeededFits(bytes);
    SystemSizeFits(RequestSize(bytes), granularity);
    assert answer(SystemSize(RequestSize(bytes), granularity)).Failed?;
  }

  lemma AlignedRefused(h: Heap, bytes: SizeT, alignment: nat, a: nat, granularity: PageSize, answer: SizeT -> Mapping)
    requires a < 2 * alignment + MIN_CHUNK_SIZE + 1
    requires bytes + 2 * alignment + 256 + granularity < WORD64
    requires bytes >= MAX_REQUEST - a || Memalign.RefusedBy(h, WithSlack(bytes, a), granularity, answer)
    ensures TurnsDown(answer, bytes + 2 * alignment + 256 + granularity)
  {
    hide SystemSize, CanServe, RequestSize, IsPageSize, WithSlack, NeededSize, TurnsDown, Memalign.RefusedBy;
    PageBound(granularity);
    NeededFits(bytes);
    SlackIs(bytes, a);
    SystemRefused(h, WithSlack(bytes, a), granularity, answer, bytes + 2 * alignment + 256 + granularity);
  }

  // ---- What the heap holds --------------------------------------------------------------

  ghost predicate BackedAt(h: Heap, memory: Memory, blocks: Blocks, b: Addr) {
    b in blocks ==>
      && b - 16 in h.live && b - 16 in h.cs && |blocks[b]| + CHUNK_OVERHEAD <= h.cs[b - 16].size
      && HoldsAt(memory, b, blocks[b])
  }

  // Every block has a live chunk with room for it, whose payload starts with the block's bytes, and
  // there are no other live chunks.
  ghost predicate Backed(h: Heap, memory: Memory, blocks: Blocks) {
    && (forall b {:trigger BackedAt(h, memory, blocks, b)} :: BackedAt(h, memory, blocks, b))
    && (forall p :: p in h.live ==> p + 16 in blocks)
  }

  // The bytes written at a new or changed block reach no other.
  lemma Filled(h: Heap, m: Memory, blocks: Blocks, b: Addr, at: nat, data: seq<Byte>, bytes: seq<Byte>)
    requires HeapOK(h) && b - 16 in h.live && b - 16 in h.cs
    requires |bytes| + CHUNK_OVERHEAD <= h.cs[b - 16].size && at + |data| <= |bytes|
    requires bytes[at..at + |data|] == data
    requires HoldsAt(m, b, bytes[..at]) && HoldsAt(m, b + at + |data|, bytes[at + |data|..])
    requires forall c {:trigger BackedAt(h, m, blocks, c)} :: c != b ==> BackedAt(h, m, blocks, c)
    requires forall p :: p in h.live ==> p == b - 16 || p + 16 in blocks
    ensures Backed(h, Write(m, b + at, data), blocks[b := bytes])
  {
    var n, after := Write(m, b + at, data), blocks[b := bytes];
    forall c {:trigger BackedAt(h, n, after, c)} ensures BackedAt(h, n, after, c) {
      if c == b {
        HoldsParts(m, b, at, data, bytes);
      } else if c in blocks {
        assert BackedAt(h, m, blocks, c);
        PayloadsApart(h, b - 16, c - 16);
        Untouched(m, c, blocks[c], b + at, data);
      }
    }
  }

  lemma HoldsParts(m: Memory, b: Addr, at: nat, data: seq<Byte>, bytes: seq<Byte>)
    requires at + |data| <= |bytes| && bytes[at..at + |data|] == data
    requires HoldsAt(m, b, bytes[..at]) && HoldsAt(m, b + at + |data|, bytes[at + |data|..])
    ensures HoldsAt(Write(m, b + at, data), b, bytes)
  {
    hide HoldsAt, Write;
    var n, front, rest := Write(m, b + at, data), bytes[..at], bytes[at + |data|..];
    Bytes.Written(m, b + at, data);
    Untouched(m, b, front, b + at, data);
    Untouched(m, b + at + |data|, rest, b + at, data);
    HoldsBoth(n, b + at, data, rest);
    HoldsBoth(n, b, front, data + rest);
    assert bytes == front + (data + rest);
  }

  lemma HoldsBoth(m: Memory, a: int, x: seq<Byte>, y: seq<Byte>)
    requires HoldsAt(m, a, x) && HoldsAt(m, a + |x|, y)
    ensures HoldsAt(m, a, x + y)
  {
    forall k | 0 <= k < |x + y| ensures ByteHolds(m, a + k, (x + y)[k]) {
      if k < |x| {
        assert ByteHolds(m, a + k, x[k]);
      } else {
        assert ByteHolds(m, a + |x| + (k - |x|), y[k - |x|]);
      }
    }
  }

  // ---- One call -------------------------------------------------------------------------

  method NewStep(m: MallocState, memory: Memory, ghost blocks: Blocks, data: seq<Byte>, answer: SizeT -> Mapping)
    returns (result: Addr, after: Memory)
    requires m.Valid() && Backed(m.heap, memory, blocks) && |data| < WORD64
    requires forall s: SizeT :: Offered(m.segs, answer(s), s)
    modifies m, m.small, m.tree
    ensures m.Valid() && Backed(m.heap, after, After(blocks, NewBlock(data), result))
    ensures ResultOK(blocks, NewBlock(data), result) && (result == 0 ==> m.segs == old(m.segs))
    ensures result == 0 && WantsBlock(blocks, NewBlock(data), m.granularity) ==>
              TurnsDown(answer, Need(NewBlock(data), m.granularity))
  {
    hide HeapX, Served, CanServe, RestPlaced, ExecKept, SystemSize, RequestSize, KeepsLive, Allotted, BackedAt,
         Refused, TurnsDown;
    ghost var h := m.heap;
    after := memory;
    result := m.Malloc(|data|, answer(SystemSize(RequestSize(|data|), m.granularity)));
    if result != 0 {
      after := Write(memory, result, data);
      NewBacked(h, m.heap, memory, blocks, data, result);
    } else if |data| + 256 + m.granularity < WORD64 {
      SystemRefused(h, |data|, m.granularity, answer, |data| + 256 + m.granularity);
    }
  }

  lemma NewBacked(h: Heap, g: Heap, memory: Memory, blocks: Blocks, data: seq<Byte>, b: Addr)
    requires HeapOK(h) && HeapOK(g) && Backed(h, memory, blocks) && |data| < MAX_REQUEST
    requires Allotted(h, g, RequestSize(|data|), b - 16)
    ensures b !in blocks && b % 8 == 0 && Backed(g, Write(memory, b, data), blocks[b := data])
  {
    RequestFits(|data|);
    Given(h, g, |data|, b - 16);
    NewKept(h, g, memory, blocks, b);
    Filled(g, memory, blocks, b, 0, data, data);
  }

  lemma NewKept(h: Heap, g: Heap, memory: Memory, blocks: Blocks, b: Addr)
    requires HeapOK(h) && Backed(h, memory, blocks) && b - 16 !in h.live && KeepsLive(h, g)
    requires g.live == h.live + {b - 16} && HeapOK(g)
    ensures b !in blocks && (forall c {:trigger BackedAt(g, memory, blocks, c)} :: BackedAt(g, memory, blocks, c))
    ensures forall p :: p in g.live ==> p == b - 16 || p + 16 in blocks
  {
    assert BackedAt(h, memory, blocks, b);
    forall c {:trigger BackedAt(g, memory, blocks, c)} ensures BackedAt(g, memory, blocks, c) {
      assert BackedAt(h, memory, blocks, c);
    }
  }

  method AlignedStep(m: MallocState, memory: Memory, ghost blocks: Blocks, alignment: SizeT, data: seq<Byte>,
                     answer: SizeT -> Mapping)
    returns (result: Addr, after: Memory)
    requires m.Valid() && Backed(m.heap, memory, blocks) && |data| < WORD64 && alignment <= 0x8000_0000_0000_0000
    requires forall s: SizeT :: Offered(m.segs, answer(s), s)
    modifies m, m.small, m.tree
    ensures m.Valid() && Backed(m.heap, after, After(blocks, NewAligned(alignment, data), result))
    ensures ResultOK(blocks, NewAligned(alignment, data), result) && (result == 0 ==> m.segs == old(m.segs))
    ensures result == 0 && WantsBlock(blocks, NewAligned(alignment, data), m.granularity) ==>
              TurnsDown(answer, Need(NewAligned(alignment, data), m.granularity))
  {
    hide HeapX, ExecKept, KeepsLive, BackedAt, IsPow2, TurnsDown, Memalign.RefusedBy, WithSlack;
    ghost var h := m.heap;
    after := memory;
    var mem, a := Memalign.Memalign(m, alignment, |data|, answer);
    result := mem;
    if result != 0 {
      after := Write(memory, result, data);
      AlignedBacked(h, m.heap, memory, blocks, data, result, a);
    } else if |data| + 2 * alignment + 256 + m.granularity < WORD64 {
      if alignment <= MALLOC_ALIGNMENT {
        SystemRefused(h, |data|, m.granularity, answer, |data| + 2 * alignment + 256 + m.granularity);
      } else {
        AlignedRefused(h, |data|, alignment, a, m.granularity, answer);
      }
    }
  }

  lemma AlignedBacked(h: Heap, g: Heap, memory: Memory, blocks: Blocks, data: seq<Byte>, b: Addr, a: nat)
    requires HeapOK(h) && HeapOK(g) && Backed(h, memory, blocks) && |data| < WORD64 &&
             Memalign.Aligned(h, g, |data|, b - 16, a)
    ensures b !in blocks && Backed(g, Write(memory, b, data), blocks[b := data])
  {
    hide HeapX, KeepsLive, BackedAt, Write, NeededSize;
    NewKept(h, g, memory, blocks, b);
    Filled(g, memory, blocks, b, 0, data, data);
  }

  method ResizedStep(m: MallocState, memory: Memory, blocks: Blocks, b: Addr, data: seq<Byte>,
                     answer: SizeT -> Mapping)
    returns (result: Addr, after: Memory)
    requires m.Valid() && Backed(m.heap, memory, blocks) && |data| < WORD64 && b in blocks
    requires forall s: SizeT :: Offered(m.segs, answer(s), s)
    modifies m, m.small, m.tree
    ensures m.Valid() && Backed(m.heap, after, After(blocks, Resized(b, data), result))
    ensures ResultOK(blocks, Resized(b, data), result) && (result == 0 ==> m.segs == old(m.segs))
    ensures result == 0 && WantsBlock(blocks, Resized(b, data), m.granularity) ==>
              TurnsDown(answer, Need(Resized(b, data), m.granularity))
  {
    hide HeapX, ExecKept, KeepsLive, BackedAt, Backed, SystemSize, RequestSize, NeededSize, Replaced, Snug, InPlace,
         Copied, OthersUnchanged, Refilled, Write, Refused, TurnsDown;
    ghost var h := m.heap;
    IsBacked(h, memory, blocks, b);
    PageBound(m.granularity);
    result, after := Realloc.Realloc(m, memory, b, |data|, answer(SystemSize(RequestSize(|data|), m.granularity)));
    if result != 0 {
      ghost var n := after;
      var kept := if |blocks[b]| < |data| then |blocks[b]| else |data|;
      after := Write(after, result + kept, data[kept..]);
      ResizedBacked(h, m.heap, memory, n, blocks, b, result, data);
    } else if |data| + 256 + m.granularity < WORD64 {
      SystemRefused(h, |data|, m.granularity, answer, |data| + 256 + m.granularity);
    }
  }

  lemma IsBacked(h: Heap, memory: Memory, blocks: Blocks, b: Addr)
    requires Backed(h, memory, blocks) && b in blocks
    ensures BackedAt(h, memory, blocks, b) && b - 16 in h.live && b - 16 in h.cs
  {
    assert BackedAt(h, memory, blocks, b);
  }

  lemma ResizedBacked(h: Heap, g: Heap, m: Memory, n: Memory, blocks: Blocks, b: Addr, c: Addr, data: seq<Byte>)
    requires HeapOK(h) && HeapOK(g) && Backed(h, m, blocks) && b in blocks && b - 16 in h.cs
    requires Replaced(h, g, b - 16, c - 16, |data|)
    requires Copied(m, n, b, c, Min(h.cs[b - 16].size - CHUNK_OVERHEAD, |data|)) && OthersUnchanged(h, m, n, b - 16)
    ensures c == b || c !in blocks
    ensures var kept := Min(|blocks[b]|, |data|);
            kept >= 0 && Backed(g, Write(n, c + kept, data[kept..]), (blocks - {b})[c := Refilled(blocks[b], data)])
  {
    hide HeapX, Copied, OthersUnchanged, HoldsAt, Write, KeepsLive;
    IsBacked(h, m, blocks, b);
    var kept, rest, bytes := Min(|blocks[b]|, |data|), blocks - {b}, Refilled(blocks[b], data);
    assert c in blocks ==> BackedAt(h, m, blocks, c);
    OthersStay(h, g, m, n, blocks, b, c);
    assert bytes[..kept] == blocks[b][..kept] && bytes[kept..kept + |data[kept..]|] == data[kept..];
    HoldsNone(n, c + kept + |data[kept..]|, bytes[kept + |data[kept..]|..]);
    Shorter(m, n, b, c, Min(h.cs[b - 16].size - CHUNK_OVERHEAD, |data|), kept);
    Prefix(m, n, b, c, blocks[b], kept);
    Filled(g, n, rest, c, kept, data[kept..], bytes);
  }

  lemma HoldsNone(m: Memory, a: int, bytes: seq<Byte>)
    requires bytes == []
    ensures HoldsAt(m, a, bytes)
  {
  }

  lemma Shorter(m: Memory, n: Memory, b: Addr, c: Addr, count: int, kept: int)
    requires Copied(m, n, b, c, count) && kept <= count
    ensures Copied(m, n, b, c, kept)
  {
  }

  lemma Prefix(m: Memory, n: Memory, b: Addr, c: Addr, bytes: seq<Byte>, kept: nat)
    requires HoldsAt(m, b, bytes) && kept <= |bytes| && Copied(m, n, b, c, kept)
    ensures HoldsAt(n, c, bytes[..kept])
  {
    forall k | 0 <= k < kept ensures ByteHolds(n, c + k, bytes[..kept][k]) {
      assert ByteHolds(m, b + k, bytes[k]);
    }
  }

  lemma OthersStay(h: Heap, g: Heap, m: Memory, n: Memory, blocks: Blocks, b: Addr, c: Addr)
    requires HeapOK(h) && HeapOK(g) && Backed(h, m, blocks) && b in blocks && b - 16 in h.cs
    requires g.live == h.live - {b - 16} + {c - 16} && Others(h, g, b - 16) && OthersUnchanged(h, m, n, b - 16)
    ensures var rest := blocks - {b};
            && (forall d {:trigger BackedAt(g, n, rest, d)} :: d != c ==> BackedAt(g, n, rest, d))
            && (forall p :: p in g.live ==> p == c - 16 || p + 16 in rest)
  {
    var rest := blocks - {b};
    forall d {:trigger BackedAt(g, n, rest, d)} | d != c ensures BackedAt(g, n, rest, d) {
      if d in rest {
        assert BackedAt(h, m, blocks, d);
        StaysHeld(h, m, n, d, blocks[d], b - 16);
      }
    }
  }

  lemma StaysHeld(h: Heap, m: Memory, n: Memory, d: Addr, bytes: seq<Byte>, p: Addr)
    requires d - 16 in h.live && d - 16 in h.cs && d - 16 != p && |bytes| + CHUNK_OVERHEAD <= h.cs[d - 16].size
    requires HoldsAt(m, d, bytes) && OthersUnchanged(h, m, n, p)
    ensures HoldsAt(n, d, bytes)
  {
    assert Realloc.Unchanged(m, n, Start(d - 16), Stop(h, d - 16));
    forall k | 0 <= k < |bytes| ensures ByteHolds(n, d + k, bytes[k]) {
      assert ByteHolds(m, d + k, bytes[k]);
    }
  }

  method ReleasedStep(m: MallocState, memory: Memory, ghost blocks: Blocks, b: Addr)
    requires m.Valid() && Backed(m.heap, memory, blocks) && b in blocks
    modifies m`own, m`tags, m`heap, m.small, m.tree
    ensures m.Valid() && Backed(m.heap, memory, blocks - {b})
  {
    hide HeapX, BackedAt, Rejoined, KeepsLive;
    ghost var h := m.heap;
    IsBacked(h, memory, blocks, b);
    InUse(h, b - 16);
    m.Free(b);
    ReleasedBacked(h, m.heap, memory, blocks, b);
  }

  lemma ReleasedBacked(h: Heap, g: Heap, memory: Memory, blocks: Blocks, b: Addr)
    requires HeapOK(h) && HeapOK(g) && Backed(h, memory, blocks) && b in blocks
    requires g.live == h.live - {b - 16} && KeepsLive(h, g)
    ensures Backed(g, memory, blocks - {b})
  {
    forall d {:trigger BackedAt(g, memory, blocks - {b}, d)} ensures BackedAt(g, memory, blocks - {b}, d) {
      assert BackedAt(h, memory, blocks, d);
    }
  }

  lemma WrittenBacked(h: Heap, memory: Memory, blocks: Blocks, b: Addr, at: nat, data: seq<Byte>)
    requires HeapOK(h) && Backed(h, memory, blocks) && b in blocks && at + |data| <= |blocks[b]|
    ensures Backed(h, Write(memory, b + at, data), blocks[b := Overwritten(blocks[b], at, data)])
  {
    hide HeapX, HoldsAt, Write;
    IsBacked(h, memory, blocks, b);
    var bytes := Overwritten(blocks[b], at, data);
    var end := at + |data|;
    assert bytes[at..end] == data && bytes[..at] == blocks[b][0..at] && bytes[end..] == blocks[b][end..|blocks[b]|];
    HoldsPart(memory, b, blocks[b], 0, at);
    HoldsPart(memory, b, blocks[b], end, |blocks[b]|);
    assert b + end == b + at + |data|;
    Filled(h, memory, blocks, b, at, data, bytes);
  }

  lemma HoldsPart(m: Memory, a: int, bytes: seq<Byte>, i: nat, j: nat)
    requires HoldsAt(m, a, bytes) && i <= j <= |bytes|
    ensures HoldsAt(m, a + i, bytes[i..j])
  {
    forall k | 0 <= k < j - i ensures ByteHolds(m, a + i + k, bytes[i..j][k]) {
      assert ByteHolds(m, a + (i + k), bytes[i + k]);
    }
  }

  // Lengths are what size_t can tell.
  predicate CallFits(call: Call) { call.Released? || |call.data| < WORD64 }

  // One call. answer tells what mmap would answer to each size at that time.
  method Step(m: MallocState, memory: Memory, blocks: Blocks, call: Call, answer: SizeT -> Mapping)
    returns (result: Addr, after: Memory)
    requires m.Valid() && Backed(m.heap, memory, blocks) && CallFits(call)
    requires forall s: SizeT :: Offered(m.segs, answer(s), s)
    modifies m, m.small, m.tree
    ensures m.Valid() && Backed(m.heap, after, After(blocks, call, result)) && ResultOK(blocks, call, result)
    ensures result == 0 ==> m.segs == old(m.segs)
    ensures result == 0 && WantsBlock(blocks, call, m.granularity) ==> TurnsDown(answer, Need(call, m.granularity))
  {
    hide HeapX, Backed, TurnsDown;
    result, after := 0, memory;
    match call
    case NewBlock(data) =>
      result, after := NewStep(m, memory, blocks, data, answer);
    case NewAligned(al, data) =>
      if al <= 0x8000_0000_0000_0000 {
        result, after := AlignedStep(m, memory, blocks, al, data, answer);
      }
    case Resized(b, data) =>
      if b in blocks {
        result, after := ResizedStep(m, memory, blocks, b, data, answer);
      }
    case Released(b) =>
      if b in blocks {
        ReleasedStep(m, memory, blocks, b);
      } else {
        assert blocks - {b} == blocks;
      }
    case Written(b, at, data) =>
      if b in blocks && at + |data| <= |blocks[b]| {
        after := Write(memory, b + at, data);
        WrittenBacked(m.heap, memory, blocks, b, at, data);
      }
  }

  // ---- Whole runs -----------------------------------------------------------------------

  lemma {:induction false} ExpectedOnce(client: seq<Addr> -> Call, results: seq<Addr>, r: Addr, k: nat)
    requires k <= |results|
    ensures Expected(client, results + [r], k) == Expected(client, results, k)
  {
    if k > 0 {
      ExpectedOnce(client, results, r, k - 1);
      assert (results + [r])[..k - 1] == results[..k - 1];
    }
  }

  ghost predicate ResultAt(client: seq<Addr> -> Call, results: seq<Addr>, k: nat)
    requires k < |results|
  {
    ResultOK(Expected(client, results, k), client(results[..k]), results[k])
  }

  // What mmap answers at the k-th call, when the heap has the segments segs
  type System = (nat, seq<Segment>, SizeT) -> Mapping

  // A call for a block within range gets one, unless the system refuses memory that would be enough.
  ghost predicate ServedAt(client: seq<Addr> -> Call, results: seq<Addr>, k: nat, granularity: nat,
                           system: System, segs: seq<Segment>)
    requires k < |results|
  {
    var call := client(results[..k]);
    results[k] == 0 && WantsBlock(Expected(client, results, k), call, granularity) ==>
      TurnsDown((s: SizeT) => system(k, segs, s), Need(call, granularity))
  }

  // However many calls a client makes and whatever it makes of the results: the heap stays valid,
  // every block the client should have is there with the bytes it should have, every new block
  // is new and aligned, and every request is served that need not be refused. held tells the
  // segments at each call.
  method Run(m: MallocState, client: seq<Addr> -> Call, n: nat, system: System)
    returns (results: seq<Addr>, memory: Memory, ghost held: seq<seq<Segment>>)
    requires m.Valid() && m.heap.live == {} && forall results :: CallFits(client(results))
    requires forall k, segs, s: SizeT :: Offered(segs, system(k, segs, s), s)
    modifies m, m.small, m.tree
    ensures m.Valid() && |results| == n && Backed(m.heap, memory, Expected(client, results, n))
    ensures forall k :: 0 <= k < n ==> ResultAt(client, results, k)
    ensures |held| == n + 1 && held[0] == old(m.segs) && held[n] == m.segs
    ensures forall k :: 0 <= k < n ==> ServedAt(client, results, k, m.granularity, system, held[k])
    ensures forall k :: 0 <= k < n && results[k] == 0 ==> held[k + 1] == held[k]
  {
    hide HeapX, ResultOK, BackedAt, Need, TurnsDown, Offered;
    results, memory, held := [], map[], [m.segs];
    var blocks: Blocks := map[];
    NoneBacked(m.heap, memory);
    while |results| < n
      invariant m.Valid() && |results| <= n && blocks == Expected(client, results, |results|)
      invariant Backed(m.heap, memory, blocks)
      invariant forall k :: 0 <= k < |results| ==> ResultAt(client, results, k)
      invariant |held| == |results| + 1 && held[0] == old(m.segs) && held[|results|] == m.segs
      invariant forall k :: 0 <= k < |results| ==> ServedAt(client, results, k, m.granularity, system, held[k])
      invariant forall k :: 0 <= k < |results| && results[k] == 0 ==> held[k + 1] == held[k]
    {
      var call, k, segs := client(results), |results|, m.segs;
      var result: Addr;
      result, memory := Step(m, memory, blocks, call, (s: SizeT) => system(k, segs, s));
      RunOn(client, results, result, system, m.granularity, held, m.segs);
      results, held := results + [result], held + [m.segs];
      blocks := After(blocks, call, result);
    }
  }

  // What holds of the calls so far holds with one more, if it does of that one.
  lemma RunOn(client: seq<Addr> -> Call, before: seq<Addr>, result: Addr, system: System, granularity: nat,
              held: seq<seq<Segment>>, segs: seq<Segment>)
    requires |held| == |before| + 1
    requires var call, blocks, k := client(before), Expected(client, before, |before|), |before|;
             && ResultOK(blocks, call, result)
             && (result == 0 && WantsBlock(blocks, call, granularity) ==>
                   TurnsDown((s: SizeT) => system(k, held[k], s), Need(call, granularity)))
    requires forall k :: 0 <= k < |before| ==> ResultAt(client, before, k)
    requires forall k :: 0 <= k < |before| ==> ServedAt(client, before, k, granularity, system, held[k])
    ensures var results := before + [result];
            && Expected(client, results, |results|) == After(Expected(client, before, |before|), client(before), result)
            && (forall k :: 0 <= k < |results| ==> ResultAt(client, results, k))
            && (forall k :: 0 <= k < |results| ==>
                  ServedAt(client, results, k, granularity, system, (held + [segs])[k]))
  {
    hide ResultOK, TurnsDown, Need, WantsBlock, After;
    var results := before + [result];
    assert results[..|before|] == before && before[..|before|] == before;
    ExpectedOnce(client, before, result, |before|);
    forall k | 0 <= k < |results|
      ensures ResultAt(client, results, k) && ServedAt(client, results, k, granularity, system, (held + [segs])[k])
    {
      ExpectedOnce(client, before, result, k);
      assert results[..k] == before[..k];
      if k < |before| {
        assert ResultAt(client, before, k) && ServedAt(client, before, k, granularity, system, held[k]);
      }
    }
  }

  lemma NoneBacked(h: Heap, memory: Memory)
    requires h.live == {}
    ensures Backed(h, memory, map[])
  {
  }

  // Two blocks of a client have no byte in common.
  lemma BlocksApart(h: Heap, memory: Memory, blocks: Blocks, b: Addr, c: Addr)
    requires HeapOK(h) && Backed(h, memory, blocks) && b in blocks && c in blocks && b != c
    ensures Separate(b, |blocks[b]|, c, |blocks[c]|)
  {
    IsBacked(h, memory, blocks, b);
    IsBacked(h, memory, blocks, c);
    PayloadsApart(h, b - 16, c - 16);
  }
}
