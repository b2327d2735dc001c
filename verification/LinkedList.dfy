/** The first-fit heap whose free list is threaded through the free regions themselves. */
module LinkedList {
  import opened Common
  import opened Arithmetic
  import opened Alignment

  const NODE_SIZE := 16
  const NODE_ALIGN := 8

  /** The heap as the client sees it: free regions in list order, blocks handed out, bytes lost to alignment. */
  datatype Heap = Heap(free: seq<Block>, live: seq<Block>, lost: nat)

  // ---------- Sizes and fit ----------

  /** `size_align`: the padded size and the alignment used for a layout, or nothing if `expect` panics. */
  function SizeAlign(l: Layout): (r: Option<(nat, nat)>)
    requires l.Valid()
  {
    var align := if l.align < NODE_ALIGN then NODE_ALIGN else l.align;
    if l.size + align - 1 > ISIZE_MAX then None
    else
      var padded := AlignUp(l.size, align);
      Some((if padded < NODE_SIZE then NODE_SIZE else padded, align))
  }

  /** `alloc_from_region`: where a request would start in the region, if it fits there. */
  function AllocFromRegion(r: Block, size: nat, align: nat): (start: Option<nat>)
    requires align > 0
  {
    var start := AlignUp(r.addr, align);
    if start + size > USIZE_MAX || start + size > r.End() then None
    else
      var excess := r.End() - (start + size);
      if 0 < excess < NODE_SIZE then None else Some(start)
  }

  /** A block of `size` bytes at `s` fits region `r`: aligned, as low as possible, leaving nothing or a node. */
  predicate Admits(r: Block, size: nat, align: nat, s: nat)
    requires align > 0
  {
    && r.addr <= s < r.addr + align && s % align == 0 && s + size <= r.addr + r.size
    && (s + size == r.addr + r.size || s + size + 16 <= r.addr + r.size)
  }

  /** A region gives a block exactly where one fits. */
  lemma FitIff(r: Block, size: nat, align: nat, s: nat)
    requires align > 0 && r.End() <= USIZE_MAX
    ensures AllocFromRegion(r, size, align) == Some(s) <==> Admits(r, size, align, s)
  {
    if Admits(r, size, align, s) {
      LeastAligned(r.addr, align, s);
    }
  }

  /** The first region in list order that fits, or the length of the list. */
  function FirstFit(free: seq<Block>, size: nat, align: nat): (k: nat)
    requires align > 0
    ensures k <= |free|
    ensures k < |free| ==> AllocFromRegion(free[k], size, align).Some?
    ensures forall i :: 0 <= i < k ==> AllocFromRegion(free[i], size, align).None?
  {
    if free == [] || AllocFromRegion(free[0], size, align).Some? then 0
    else 1 + FirstFit(free[1..], size, align)
  }

  // ---------- Operations on the abstract heap ----------

  /** The rest of region `r` behind a block that ends at `end`, as a list of at most one region. */
  function Excess(r: Block, end: nat): seq<Block> {
    if end < r.End() then [Block(end, r.End() - end)] else []
  }

  function AllocHeap(h: Heap, size: nat, align: nat): Heap
    requires align > 0
  {
    var k := FirstFit(h.free, size, align);
    if k == |h.free| then h
    else
      var r, start := h.free[k], AllocFromRegion(h.free[k], size, align).value;
      Heap(Excess(r, start + size) + RemoveAt(h.free, k), h.live + [Block(start, size)],
           h.lost + (start - r.addr))
  }

  function DeallocHeap(h: Heap, i: nat): Heap
    requires i < |h.live|
  {
    Heap([h.live[i]] + h.free, RemoveAt(h.live, i), h.lost)
  }

  // ---------- The invariant ----------

  predicate RegionOk(x: Block) { x.addr % NODE_ALIGN == 0 && x.size >= NODE_SIZE }

  ghost predicate AllOk(xs: seq<Block>, heap: Block) {
    forall x :: x in xs ==> RegionOk(x) && Within(x, heap)
  }

  /** Free and live blocks are disjoint, inside the heap, able to hold a node, and account for every byte. */
  ghost predicate Inv(h: Heap, heap: Block) {
    && AllOk(h.free, heap) && AllOk(h.live, heap)
    && Apart(h.free + h.live)
    && Bytes(h.free) + Bytes(h.live) + h.lost == heap.size
  }

  lemma {:induction false} PowerAligned(n: nat)
    requires PowerOfTwo(n) && n >= 8
    ensures n % 8 == 0
  {
    assert PowerOfTwo(n / 2);
    assert PowerOfTwo(n / 2 / 2);
    assert PowerOfTwo(n / 2 / 2 / 2);
  }

  lemma MultipleOfMultiple(x: nat, n: nat)
    requires n > 0 && n % 8 == 0 && x % n == 0
    ensures x % 8 == 0
  {
    var q, m := x / n, n / 8;
    assert x == n * q;
    assert n == 8 * m;
    assert x == 8 * (m * q);
  }

  /** Padded sizes and alignments keep block ends on node boundaries. */
  lemma SizeAlignOk(l: Layout)
    requires l.Valid() && SizeAlign(l).Some?
    ensures var (size, align) := SizeAlign(l).value;
            && align >= l.align && align % NODE_ALIGN == 0 && PowerOfTwo(align) && 0 < align <= ISIZE_MAX
            && size >= l.size && size >= NODE_SIZE && size % NODE_ALIGN == 0
            && (size == NODE_SIZE || size < l.size + align)
            && (l.align <= NODE_ALIGN ==> align == NODE_ALIGN)
  {
    var (size, align) := SizeAlign(l).value;
    assert PowerOfTwo(8) by {
      assert PowerOfTwo(4) by { assert PowerOfTwo(2); }
    }
    PowerAligned(align);
    MultipleOfMultiple(AlignUp(l.size, align), align);
  }

  // ---------- Every operation keeps the invariant ----------

  /** The pieces an allocation cuts region `r` into. */
  lemma CutRegion(r: Block, size: nat, align: nat)
    requires align > 0 && align % NODE_ALIGN == 0 && size % NODE_ALIGN == 0 && size >= NODE_SIZE
    requires AllocFromRegion(r, size, align).Some?
    ensures var start := AllocFromRegion(r, size, align).value;
            var block, rest := Block(start, size), Excess(r, start + size);
            && RegionOk(block) && Within(block, r) && Apart(rest) && Separate(rest, [block])
            && (forall x :: x in rest ==> RegionOk(x) && Within(x, r))
            && Bytes(rest) + size + (start - r.addr) == r.size
  {
    var start := AlignUp(r.addr, align);
    MultipleOfMultiple(start, align);
    AddAligned(start, size);
    ExcessBytes(r, start + size);
  }

  lemma AddAligned(x: nat, y: nat)
    requires x % NODE_ALIGN == 0 && y % NODE_ALIGN == 0
    ensures (x + y) % NODE_ALIGN == 0
  {
    var p, q := x / NODE_ALIGN, y / NODE_ALIGN;
    assert x + y == NODE_ALIGN * (p + q);
    MultipleAligned(p + q, NODE_ALIGN);
  }

  lemma ExcessBytes(r: Block, end: nat)
    requires end <= r.End()
    ensures Bytes(Excess(r, end)) == r.End() - end
  {
  }

  lemma SeparateWithin(xs: seq<Block>, ys: seq<Block>, r: Block)
    requires Separate(xs, [r]) && (forall y :: y in ys ==> Within(y, r))
    ensures Separate(xs, ys) && Separate(ys, xs)
  {
    forall x, y | x in xs && y in ys ensures Disjoint(x, y) {
      assert r in [r];
    }
  }

  /** Replacing a free region by its pieces keeps all blocks apart. */
  lemma ApartAfterAlloc(free: seq<Block>, live: seq<Block>, k: nat, rest: seq<Block>, block: Block)
    requires Apart(free + live) && k < |free|
    requires Within(block, free[k]) && (forall x :: x in rest ==> Within(x, free[k]))
    requires Apart(rest) && Separate(rest, [block])
    ensures Apart(rest + RemoveAt(free, k) + (live + [block]))
  {
    var others := RemoveAt(free, k);
    ApartAppend(free, live);
    ApartRemove(free, k);
    assert free[k] in free;
    assert Separate(live, [free[k]]);
    SeparateWithin(others, rest, free[k]);
    SeparateWithin(others, [block], free[k]);
    SeparateWithin(live, rest, free[k]);
    SeparateWithin(live, [block], free[k]);
    ApartAppend(rest, others);
    ApartAppend(live, [block]);
    ApartAppend(rest + others, live + [block]);
  }

  lemma AllocBytes(h: Heap, k: nat, rest: seq<Block>, block: Block)
    requires k < |h.free| && Bytes(rest) + block.size <= h.free[k].size
    ensures Bytes(rest + RemoveAt(h.free, k)) + Bytes(h.live + [block])
            + (h.free[k].size - Bytes(rest) - block.size) == Bytes(h.free) + Bytes(h.live)
  {
    BytesRemove(h.free, k);
    BytesAppend(rest, RemoveAt(h.free, k));
    BytesAppend(h.live, [block]);
  }

  lemma AllocKeeps(h: Heap, heap: Block, size: nat, align: nat)
    requires Inv(h, heap)
    requires align > 0 && align % NODE_ALIGN == 0 && size % NODE_ALIGN == 0 && size >= NODE_SIZE
    ensures Inv(AllocHeap(h, size, align), heap)
  {
    var k := FirstFit(h.free, size, align);
    if k < |h.free| {
      CutKeeps(h, heap, size, align, k, AllocFromRegion(h.free[k], size, align).value);
    }
  }

  lemma CutKeeps(h: Heap, heap: Block, size: nat, align: nat, k: nat, start: nat)
    requires Inv(h, heap) && k < |h.free|
    requires align > 0 && align % NODE_ALIGN == 0 && size % NODE_ALIGN == 0 && size >= NODE_SIZE
    requires AllocFromRegion(h.free[k], size, align) == Some(start)
    ensures start >= h.free[k].addr
    ensures Inv(Heap(Excess(h.free[k], start + size) + RemoveAt(h.free, k), h.live + [Block(start, size)],
                     h.lost + (start - h.free[k].addr)), heap)
  {
    CutRegion(h.free[k], size, align);
    PiecesKeep(h, heap, k, Excess(h.free[k], start + size), Block(start, size), start - h.free[k].addr);
  }

  /** The heap with free region `k` cut into a block, a remainder and lost bytes. */
  lemma PiecesKeep(h: Heap, heap: Block, k: nat, rest: seq<Block>, block: Block, lost: nat)
    requires Inv(h, heap) && k < |h.free| && Bytes(rest) + block.size + lost == h.free[k].size
    requires RegionOk(block) && Within(block, h.free[k]) && Apart(rest) && Separate(rest, [block])
    requires forall x :: x in rest ==> RegionOk(x) && Within(x, h.free[k])
    ensures Inv(Heap(rest + RemoveAt(h.free, k), h.live + [block], h.lost + lost), heap)
  {
    ApartAfterAlloc(h.free, h.live, k, rest, block);
    AllocBytes(h, k, rest, block);
    PiecesOk(h.free, k, rest, heap);
    assert Within(block, heap);
  }

  lemma PiecesOk(free: seq<Block>, k: nat, rest: seq<Block>, heap: Block)
    requires AllOk(free, heap) && k < |free|
    requires forall x :: x in rest ==> RegionOk(x) && Within(x, free[k])
    ensures AllOk(rest + RemoveAt(free, k), heap) && Within(free[k], heap)
  {
    assert free[k] in free;
    assert forall x :: x in RemoveAt(free, k) ==> x in free;
  }

  lemma ApartAfterDealloc(free: seq<Block>, live: seq<Block>, i: nat)
    requires Apart(free + live) && i < |live|
    ensures Apart([live[i]] + free + RemoveAt(live, i))
  {
    ApartAppend(free, live);
    ApartRemove(live, i);
    assert live[i] in live && live[i] in [live[i]];
    assert Separate([live[i]], free) && Separate([live[i]], RemoveAt(live, i));
    ApartAppend([live[i]], free);
    ApartAppend([live[i]] + free, RemoveAt(live, i));
  }

  lemma DeallocKeeps(h: Heap, heap: Block, i: nat)
    requires Inv(h, heap) && i < |h.live|
    ensures Inv(DeallocHeap(h, i), heap)
  {
    var x, others := h.live[i], RemoveAt(h.live, i);
    ApartAfterDealloc(h.free, h.live, i);
    BytesRemove(h.live, i);
    BytesAppend([x], h.free);
    assert x in h.live;
    assert AllOk([x] + h.free, heap) && AllOk(others, heap);
  }

  // ---------- Runs ----------

  datatype Op = Alloc(layout: Layout) | Dealloc(i: nat)

  /** Callers pass valid layouts and free only what is live. */
  predicate Legal(h: Heap, op: Op) {
    match op
    case Alloc(l) => l.Valid()
    case Dealloc(i) => i < |h.live|
  }

  function Step(h: Heap, op: Op): Heap
    requires Legal(h, op)
  {
    match op
    case Alloc(l) =>
      if SizeAlign(l).None? then h else AllocHeap(h, SizeAlign(l).value.0, SizeAlign(l).value.1)
    case Dealloc(i) => DeallocHeap(h, i)
  }

  predicate LegalRun(h: Heap, ops: seq<Op>)
    decreases |ops|
  {
    ops == [] || (Legal(h, ops[0]) && LegalRun(Step(h, ops[0]), ops[1..]))
  }

  function Run(h: Heap, ops: seq<Op>): Heap
    requires LegalRun(h, ops)
    decreases |ops|
  {
    if ops == [] then h else Run(Step(h, ops[0]), ops[1..])
  }

  lemma StepKeeps(h: Heap, heap: Block, op: Op)
    requires Inv(h, heap) && Legal(h, op)
    ensures Inv(Step(h, op), heap)
  {
    match op
    case Alloc(l) =>
      if SizeAlign(l).Some? {
        SizeAlignOk(l);
        AllocKeeps(h, heap, SizeAlign(l).value.0, SizeAlign(l).value.1);
      }
    case Dealloc(i) => DeallocKeeps(h, heap, i);
  }

  /** Disjointness, containment, alignment and conservation hold after every run. */
  lemma {:induction false} RunKeeps(h: Heap, heap: Block, ops: seq<Op>)
    requires Inv(h, heap) && LegalRun(h, ops)
    ensures Inv(Run(h, ops), heap)
    decreases |ops|
  {
    if ops != [] {
      StepKeeps(h, heap, ops[0]);
      RunKeeps(Step(h, ops[0]), heap, ops[1..]);
    }
  }

  /** No request asks for more than node alignment. */
  predicate SmallAligns(ops: seq<Op>) {
    forall i :: 0 <= i < |ops| && ops[i].Alloc? ==> ops[i].layout.align <= NODE_ALIGN
  }

  /** Without large alignments no byte is ever lost. */
  lemma {:induction false} NothingLost(h: Heap, heap: Block, ops: seq<Op>)
    requires Inv(h, heap) && LegalRun(h, ops) && SmallAligns(ops)
    ensures Run(h, ops).lost == h.lost
    decreases |ops|
  {
    if ops != [] {
      var op := ops[0];
      if op.Alloc? && SizeAlign(op.layout).Some? {
        SizeAlignOk(op.layout);
        var k := FirstFit(h.free, SizeAlign(op.layout).value.0, NODE_ALIGN);
        if k < |h.free| {
          assert RegionOk(h.free[k]);
        }
      }
      StepKeeps(h, heap, op);
      NothingLost(Step(h, op), heap, ops[1..]);
    }
  }

  // ---------- The partition only gets finer ----------

  ghost predicate Finer(h': Heap, h: Heap) {
    forall x :: x in h'.free + h'.live ==> exists y :: y in h.free + h.live && Within(x, y)
  }

  lemma StepFiner(h: Heap, op: Op)
    requires Legal(h, op)
    ensures Finer(Step(h, op), h)
  {
    var h' := Step(h, op);
    forall x | x in h'.free + h'.live ensures exists y :: y in h.free + h.live && Within(x, y) {
      if x in h.free + h.live {
        assert Within(x, x);
      } else {
        var (size, align) := SizeAlign(op.layout).value;
        var r := h.free[FirstFit(h.free, size, align)];
        assert r in h.free + h.live && Within(x, r);
      }
    }
  }

  lemma FinerTransitive(h0: Heap, h1: Heap, h2: Heap)
    requires Finer(h2, h1) && Finer(h1, h0)
    ensures Finer(h2, h0)
  {
    forall x | x in h2.free + h2.live ensures exists z :: z in h0.free + h0.live && Within(x, z) {
      var y :| y in h1.free + h1.live && Within(x, y);
      var z :| z in h0.free + h0.live && Within(y, z);
      assert Within(x, z);
    }
  }

  /** Every later block lies within one earlier block: regions are split and never merged. */
  lemma {:induction false} RunFiner(h: Heap, ops: seq<Op>)
    requires LegalRun(h, ops)
    ensures Finer(Run(h, ops), h)
    decreases |ops|
  {
    if ops == [] {
      assert forall x :: x in h.free + h.live ==> Within(x, x);
    } else {
      StepFiner(h, ops[0]);
      RunFiner(Step(h, ops[0]), ops[1..]);
      FinerTransitive(h, Step(h, ops[0]), Run(h, ops));
    }
  }

  lemma NoneLargeEnough(h': Heap, h: Heap, size: nat, align: nat)
    requires Finer(h', h) && align > 0
    requires forall x :: x in h.free + h.live ==> x.size < size
    ensures FirstFit(h'.free, size, align) == |h'.free|
  {
    forall i | 0 <= i < |h'.free| ensures AllocFromRegion(h'.free[i], size, align).None? {
      assert h'.free[i] in h'.free + h'.live;
      var y :| y in h.free + h.live && Within(h'.free[i], y);
    }
  }

  /** Once every block is smaller than a request, that request fails after any run, even one that frees everything. */
  lemma FailsForever(h: Heap, ops: seq<Op>, size: nat, align: nat)
    requires LegalRun(h, ops) && align > 0
    requires forall x :: x in h.free + h.live ==> x.size < size
    ensures AllocHeap(Run(h, ops), size, align) == Run(h, ops)
  {
    RunFiner(h, ops);
    NoneLargeEnough(Run(h, ops), h, size, align);
  }

  // ---------- The list threaded through the heap's own memory ----------

  /** Address of the node number `i`; 0, the null pointer, behind the last. */
  function AddrAt(free: seq<Block>, i: nat): nat {
    if i < |free| then free[i].addr else 0
  }

  /** The node at `addr`: its size, and in the next word the address of the next one. */
  predicate NodeAt(mem: Memory, addr: nat, size: nat, next: nat) {
    addr in mem && addr + 8 in mem && mem[addr] == size && mem[addr + 8] == next
  }

  /** Node number `i` holds the size of its region and the address of the next one. */
  predicate LinkedAt(mem: Memory, free: seq<Block>, i: nat)
    requires i < |free|
  {
    NodeAt(mem, free[i].addr, free[i].size, AddrAt(free, i + 1))
  }

  /** Following the pointers from `head` visits exactly the regions `free`, in order. */
  ghost predicate Threaded(mem: Memory, head: nat, free: seq<Block>) {
    && head == AddrAt(free, 0)
    && forall i :: 0 <= i < |free| ==> LinkedAt(mem, free, i)
  }

  /** The words of the blocks `xs` are the same in both memories. */
  ghost predicate SameWords(mem: Memory, mem': Memory, xs: seq<Block>) {
    forall a: nat :: Covers(xs, a) ==> (a in mem' <==> a in mem) && (a in mem ==> mem'[a] == mem[a])
  }

  ghost predicate Covers(xs: seq<Block>, a: nat) {
    exists x :: x in xs && x.addr <= a < x.End()
  }

  /** Regions that can hold their own node and do not overlap. */
  ghost predicate NodesApart(free: seq<Block>) {
    Apart(free) && forall i :: 0 <= i < |free| ==> free[i].size >= NODE_SIZE && free[i].addr > 0
  }

  lemma PushNode(mem: Memory, head: nat, free: seq<Block>, x: Block)
    requires Threaded(mem, head, free) && NodesApart([x] + free)
    ensures Threaded(mem[x.addr := x.size][x.addr + 8 := head], x.addr, [x] + free)
  {
    var mem', all := mem[x.addr := x.size][x.addr + 8 := head], [x] + free;
    forall i | 0 <= i < |all| ensures LinkedAt(mem', all, i) {
      if i > 0 {
        assert LinkedAt(mem, free, i - 1);
        assert Disjoint(all[0], all[i]);
        assert all[i] == free[i - 1];
      }
    }
  }

  /** The memory and head pointer after node `k` is unlinked. */
  function Unlink(mem: Memory, free: seq<Block>, k: nat): Memory
    requires k < |free|
  {
    var mem' := mem[free[k].addr + 8 := 0];
    if k == 0 then mem' else mem'[free[k - 1].addr + 8 := AddrAt(free, k + 1)]
  }

  lemma UnlinkThreaded(mem: Memory, head: nat, free: seq<Block>, k: nat)
    requires Threaded(mem, head, free) && NodesApart(free) && k < |free|
    ensures Threaded(Unlink(mem, free, k), if k == 0 then AddrAt(free, 1) else head, RemoveAt(free, k))
    ensures free[k].addr in Unlink(mem, free, k) && Unlink(mem, free, k)[free[k].addr] == free[k].size
  {
    var mem', rest := Unlink(mem, free, k), RemoveAt(free, k);
    forall i | 0 <= i < |rest| ensures LinkedAt(mem', rest, i) {
      RestLinked(mem, head, free, k, i);
    }
    SizeKept(mem, head, free, k);
  }

  lemma RestLinked(mem: Memory, head: nat, free: seq<Block>, k: nat, i: nat)
    requires Threaded(mem, head, free) && NodesApart(free) && k < |free| && i < |free| - 1
    ensures LinkedAt(Unlink(mem, free, k), RemoveAt(free, k), i)
  {
    UnlinkedNode(mem, head, free, k, if i < k then i else i + 1);
    RemovedAt(free, k, i);
  }

  lemma RemovedAt(free: seq<Block>, k: nat, i: nat)
    requires k < |free| && i < |free| - 1
    ensures var rest, j := RemoveAt(free, k), if i < k then i else i + 1;
            rest[i] == free[j] && AddrAt(rest, i + 1) == AddrAt(free, if j + 1 == k then k + 1 else j + 1)
  {
  }

  /** The unlinked region still holds its own size. */
  lemma SizeKept(mem: Memory, head: nat, free: seq<Block>, k: nat)
    requires Threaded(mem, head, free) && NodesApart(free) && k < |free|
    ensures free[k].addr in Unlink(mem, free, k) && Unlink(mem, free, k)[free[k].addr] == free[k].size
  {
    assert LinkedAt(mem, free, k);
    assert k > 0 ==> Disjoint(free[k - 1], free[k]);
  }

  /** Unlinking node `k` only changes the pointer of the node before it. */
  lemma UnlinkedNode(mem: Memory, head: nat, free: seq<Block>, k: nat, j: nat)
    requires Threaded(mem, head, free) && NodesApart(free) && k < |free| && j < |free| && j != k
    ensures NodeAt(Unlink(mem, free, k), free[j].addr, free[j].size, AddrAt(free, if j + 1 == k then k + 1 else j + 1))
  {
    assert LinkedAt(mem, free, j);
    assert Disjoint(free[if j < k then j else k], free[if j < k then k else j]);
    if k > 0 && j != k - 1 {
      assert Disjoint(free[if j < k - 1 then j else k - 1], free[if j < k - 1 then k - 1 else j]);
    }
  }

  lemma FreeNodesApart(h: Heap, heap: Block)
    requires Inv(h, heap) && heap.addr > 0
    ensures NodesApart(h.free)
  {
    ApartAppend(h.free, h.live);
    forall i | 0 <= i < |h.free| ensures h.free[i].size >= NODE_SIZE && h.free[i].addr > 0 {
      assert h.free[i] in h.free;
    }
  }

  lemma FreeNotLive(h: Heap, heap: Block, k: nat, a: nat)
    requires Inv(h, heap) && k < |h.free| && h.free[k].addr <= a < h.free[k].End()
    ensures !Covers(h.live, a)
  {
    ApartAppend(h.free, h.live);
    forall x | x in h.live ensures !(x.addr <= a < x.End()) {
      assert h.free[k] in h.free;
    }
  }

  /** A write inside a free region does not touch a live block. */
  lemma FreeWordKeepsLive(h: Heap, heap: Block, mem: Memory, k: nat, a: nat, v: nat)
    requires Inv(h, heap) && k < |h.free| && h.free[k].addr <= a < h.free[k].End()
    ensures SameWords(mem, mem[a := v], h.live)
  {
    FreeNotLive(h, heap, k, a);
  }

  lemma SameWordsTwice(m0: Memory, m1: Memory, m2: Memory, xs: seq<Block>)
    requires SameWords(m0, m1, xs) && SameWords(m1, m2, xs)
    ensures SameWords(m0, m2, xs)
  {
  }

  lemma UnlinkKeepsLive(h: Heap, heap: Block, mem: Memory, k: nat)
    requires Inv(h, heap) && k < |h.free|
    ensures SameWords(mem, Unlink(mem, h.free, k), h.live)
  {
    assert h.free[k] in h.free;
    var m1 := mem[h.free[k].addr + 8 := 0];
    FreeWordKeepsLive(h, heap, mem, k, h.free[k].addr + 8, 0);
    if k > 0 {
      assert h.free[k - 1] in h.free;
      FreeWordKeepsLive(h, heap, m1, k - 1, h.free[k - 1].addr + 8, AddrAt(h.free, k + 1));
      SameWordsTwice(mem, m1, Unlink(mem, h.free, k), h.live);
    }
  }

  /** Writing the node of region `x`, a part of free region `k`, does not touch a live block. */
  lemma PushKeepsLive(h: Heap, heap: Block, mem: Memory, k: nat, x: Block, next: nat)
    requires Inv(h, heap) && k < |h.free| && Within(x, h.free[k]) && x.size >= NODE_SIZE
    ensures SameWords(mem, mem[x.addr := x.size][x.addr + 8 := next], h.live)
  {
    var m1 := mem[x.addr := x.size];
    FreeWordKeepsLive(h, heap, mem, k, x.addr, x.size);
    FreeWordKeepsLive(h, heap, m1, k, x.addr + 8, next);
    SameWordsTwice(mem, m1, m1[x.addr + 8 := next], h.live);
  }

  /** Words written by clients in their own blocks are never part of a list node. */
  lemma ClientKeepsList(h: Heap, heap: Block, mem: Memory, head: nat, i: nat, a: nat, v: nat)
    requires Inv(h, heap) && Threaded(mem, head, h.free)
    requires i < |h.live| && h.live[i].addr <= a && a + 8 <= h.live[i].End()
    ensures Threaded(mem[a := v], head, h.free)
  {
    var mem' := mem[a := v];
    ApartAppend(h.free, h.live);
    forall k | 0 <= k < |h.free| ensures LinkedAt(mem', h.free, k) {
      assert LinkedAt(mem, h.free, k);
      assert h.free[k] in h.free && h.live[i] in h.live;
      assert Disjoint(h.free[k], h.live[i]);
    }
  }

  /** The address an allocation returns, before any list is touched. */
  function Granted(h: Heap, size: nat, align: nat): Pointer
    requires align > 0
  {
    var k := FirstFit(h.free, size, align);
    if k == |h.free| then Null else Ptr(AllocFromRegion(h.free[k], size, align).value)
  }

  /** A block fits region `r` somewhere. */
  ghost predicate CanHold(r: Block, size: nat, align: nat)
    requires align > 0
  {
    exists s: nat :: Admits(r, size, align, s)
  }

  lemma FitsIff(r: Block, size: nat, align: nat)
    requires align > 0 && r.End() <= USIZE_MAX
    ensures AllocFromRegion(r, size, align).Some? <==> CanHold(r, size, align)
  {
    var fit := AllocFromRegion(r, size, align);
    if fit.Some? {
      FitIff(r, size, align, fit.value);
    }
    if s: nat :| Admits(r, size, align, s) {
      FitIff(r, size, align, s);
    }
  }

  /** An allocation fails if and only if the block fits no free region. */
  lemma NullIff(h: Heap, heap: Block, size: nat, align: nat)
    requires align > 0 && Inv(h, heap) && heap.End() <= USIZE_MAX
    ensures Granted(h, size, align).Null? <==> forall i :: 0 <= i < |h.free| ==> !CanHold(h.free[i], size, align)
  {
    forall i | 0 <= i < |h.free|
      ensures AllocFromRegion(h.free[i], size, align).Some? <==> CanHold(h.free[i], size, align)
    {
      assert h.free[i] in h.free && Within(h.free[i], heap);
      FitsIff(h.free[i], size, align);
    }
  }

  /** And what it returns is the place in the first region that admits it. */
  lemma GrantedFirst(h: Heap, heap: Block, size: nat, align: nat, i: nat, s: nat)
    requires align > 0 && Inv(h, heap) && heap.End() <= USIZE_MAX && i < |h.free| && Admits(h.free[i], size, align, s)
    requires forall j :: 0 <= j < i ==> !CanHold(h.free[j], size, align)
    ensures FirstFit(h.free, size, align) == i && Granted(h, size, align) == Ptr(s)
  {
    forall j | 0 <= j < i ensures AllocFromRegion(h.free[j], size, align).None? {
      assert h.free[j] in h.free && Within(h.free[j], heap);
      FitsIff(h.free[j], size, align);
    }
    assert h.free[i] in h.free && Within(h.free[i], heap);
    FitIff(h.free[i], size, align, s);
    FirstFitIs(h.free, size, align, i);
  }

  /** A block that is freed is given out again to the next request of its layout, and leaves no trace. */
  lemma Reused(h: Heap, heap: Block, i: nat, size: nat, align: nat)
    requires align > 0 && Inv(h, heap) && heap.End() <= USIZE_MAX
    requires i < |h.live| && h.live[i].size == size && h.live[i].addr % align == 0
    ensures var freed := DeallocHeap(h, i);
            && Granted(freed, size, align) == Ptr(h.live[i].addr)
            && AllocHeap(freed, size, align) == Heap(h.free, RemoveAt(h.live, i) + [h.live[i]], h.lost)
  {
    var freed, x := DeallocHeap(h, i), h.live[i];
    DeallocKeeps(h, heap, i);
    assert freed.free[0] == x;
    assert Admits(x, size, align, x.addr);
    GrantedFirst(freed, heap, size, align, 0, x.addr);
    FitIff(x, size, align, x.addr) by { assert x in h.live && Within(x, heap); }
    assert RemoveAt(freed.free, 0) == h.free;
    assert Excess(x, x.addr + size) + h.free == h.free;
  }

  /** Allocating a block and freeing it again. */
  function AllocAndFree(h: Heap, size: nat, align: nat): Heap
    requires align > 0
  {
    var taken := AllocHeap(h, size, align);
    if |taken.live| > |h.live| then DeallocHeap(taken, |h.live|) else h
  }

  function Round(size: nat, align: nat): Heap -> Heap
    requires align > 0
  {
    h => AllocAndFree(h, size, align)
  }

  /** A loop that allocates and frees one layout never exhausts the heap: every round gets the same address. */
  lemma ChurnNeverFails(h: Heap, heap: Block, size: nat, align: nat, n: nat)
    requires Inv(h, heap) && heap.End() <= USIZE_MAX
    requires align > 0 && align % NODE_ALIGN == 0 && size % NODE_ALIGN == 0 && size >= NODE_SIZE
    requires Granted(h, size, align).Ptr?
    ensures var after := Iterate(Round(size, align), h, n);
            Inv(after, heap) && Granted(after, size, align) == Granted(h, size, align)
  {
    var granted := Granted(h, size, align);
    var served := x => Inv(x, heap) && Granted(x, size, align) == granted;
    forall x | served(x) ensures served(Round(size, align)(x)) {
      OneRound(x, heap, size, align);
    }
    IterateKeeps(Round(size, align), served, h, n);
  }

  lemma OneRound(h: Heap, heap: Block, size: nat, align: nat)
    requires Inv(h, heap) && heap.End() <= USIZE_MAX
    requires align > 0 && align % NODE_ALIGN == 0 && size % NODE_ALIGN == 0 && size >= NODE_SIZE
    requires Granted(h, size, align).Ptr?
    ensures var freed := AllocAndFree(h, size, align);
            Inv(freed, heap) && Granted(freed, size, align) == Granted(h, size, align)
  {
    var taken, n := AllocHeap(h, size, align), |h.live|;
    assert taken.live == h.live + [Block(Granted(h, size, align).addr, size)];
    AllocKeeps(h, heap, size, align);
    DeallocKeeps(taken, heap, n);
    Reused(taken, heap, n, size, align);
  }

  /** The padded size is the least multiple of the alignment that covers the request, and at least a node. */
  lemma SizeAlignExact(l: Layout, size: nat, align: nat)
    requires l.Valid()
    ensures SizeAlign(l) == Some((size, align)) <==>
            && align == (if l.align < 8 then 8 else l.align) && l.size + align - 1 <= ISIZE_MAX
            && exists m: nat :: LeastMultiple(m, l.size, align) && size == if m < 16 then 16 else m
  {
    var a := if l.align < 8 then 8 else l.align;
    var m := AlignUp(l.size, a);
    assert LeastMultiple(m, l.size, a);
    forall k: nat | LeastMultiple(k, l.size, a) ensures k == m {
      LeastAligned(l.size, a, k);
    }
  }

  predicate LeastMultiple(m: nat, size: nat, align: nat) {
    align > 0 && size <= m < size + align && m % align == 0
  }

  lemma PointerAligned(start: nat, align: nat, l: Layout)
    requires l.Valid() && align == (if l.align < NODE_ALIGN then NODE_ALIGN else l.align)
    requires start % align == 0
    ensures start % l.align == 0
  {
    if l.align < NODE_ALIGN {
      SmallPower(l.align);
      SmallDivides(start, l.align);
    }
  }

  lemma SmallDivides(x: nat, n: nat)
    requires (n == 1 || n == 2 || n == 4) && x % 8 == 0
    ensures x % n == 0
  {
    if n == 4 {
      assert x % 4 == 0;
    } else if n == 2 {
      assert x % 2 == 0;
    }
  }

  lemma SmallPower(n: nat)
    requires PowerOfTwo(n) && n < 8
    ensures n == 1 || n == 2 || n == 4
  {
    if n > 1 {
      assert PowerOfTwo(n / 2);
    }
  }

  /** Rounding a region's start up never leaves `usize` in a heap in the lower half of the address space. */
  lemma AlignUpInRange(h: Heap, heap: Block, align: nat)
    requires Inv(h, heap) && heap.End() <= ISIZE_MAX + 1 && 0 < align <= ISIZE_MAX
    ensures AllInRange(h.free, align)
  {
    forall i | 0 <= i < |h.free| ensures StartInRange(h.free[i], align) {
      assert h.free[i] in h.free && Within(h.free[i], heap);
    }
  }

  predicate StartInRange(x: Block, align: nat)
    requires align > 0
  {
    AlignUp(x.addr, align) <= USIZE_MAX
  }

  ghost predicate AllInRange(free: seq<Block>, align: nat)
    requires align > 0
  {
    forall i {:trigger StartInRange(free[i], align)} :: 0 <= i < |free| ==> StartInRange(free[i], align)
  }

  /** What an allocation from region `k` leaves in the list. */
  lemma AfterAlloc(h: Heap, heap: Block, size: nat, align: nat, k: nat, start: nat, rest: Block)
    requires Inv(h, heap) && heap.addr > 0
    requires align > 0 && align % NODE_ALIGN == 0 && size % NODE_ALIGN == 0 && size >= NODE_SIZE
    requires k == FirstFit(h.free, size, align) < |h.free|
    requires Some(start) == AllocFromRegion(h.free[k], size, align)
    requires rest == Block(start + size, h.free[k].End() - (start + size))
    ensures AllocHeap(h, size, align).free == (if rest.size > 0 then [rest] else []) + RemoveAt(h.free, k)
    ensures NodesApart(AllocHeap(h, size, align).free)
    ensures rest.size > 0 ==> RegionOk(rest) && Within(rest, h.free[k])
  {
    CutRegion(h.free[k], size, align);
    AllocKeeps(h, heap, size, align);
    FreeNodesApart(AllocHeap(h, size, align), heap);
    assert rest.size > 0 ==> rest in Excess(h.free[k], start + size);
  }

  class LinkedListAllocator {
    var head: nat
    var mem: Memory
    ghost var heap: Block
    ghost var h: Heap

    ghost predicate Valid()
      reads this
    {
      && heap.addr > 0 && heap.End() <= ISIZE_MAX + 1
      && Inv(h, heap) && Threaded(mem, head, h.free)
    }

    constructor (start: nat, size: nat, mem: Memory)
      requires start > 0 && start % NODE_ALIGN == 0 && size >= NODE_SIZE && start + size <= ISIZE_MAX + 1
      ensures Valid() && heap == Block(start, size) && h == Heap([heap], [], 0)
    {
      head := 0;
      this.mem := mem;
      heap := Block(start, size);
      h := Heap([Block(start, size)], [], 0);
      new;
      AddFreeRegion(start, size, []);
    }

    /** Puts a region at the front of the list by writing a node into it. */
    method AddFreeRegion(addr: nat, size: nat, ghost free: seq<Block>)
      requires addr % NODE_ALIGN == 0 && size >= NODE_SIZE
      requires Threaded(mem, head, free) && NodesApart([Block(addr, size)] + free)
      modifies this`head, this`mem
      ensures Threaded(mem, head, [Block(addr, size)] + free)
      ensures mem == old(mem)[addr := size][addr + 8 := old(head)]
    {
      PushNode(mem, head, free, Block(addr, size));
      mem := mem[addr := size][addr + 8 := head];
      head := addr;
    }

    /** Unlinks region number `i`, whose predecessor is `prev`. */
    method Detach(prev: nat, region: nat, ghost free: seq<Block>, ghost i: nat)
      requires Threaded(mem, head, free) && NodesApart(free)
      requires i < |free| && region == free[i].addr && prev == (if i == 0 then 0 else free[i - 1].addr)
      modifies this`head, this`mem
      ensures mem == Unlink(old(mem), free, i) && Threaded(mem, head, RemoveAt(free, i))
      ensures region in mem && mem[region] == free[i].size
    {
      assert LinkedAt(mem, free, i);
      UnlinkThreaded(mem, head, free, i);
      var next := mem[region + 8];
      mem := mem[region + 8 := 0];
      if prev == 0 {
        head := next;
      } else {
        mem := mem[prev + 8 := next];
      }
    }

    /** Walks the list to the first region that fits and unlinks it. */
    method FindRegion(size: nat, align: nat, ghost free: seq<Block>) returns (region: nat, start: nat)
      requires align > 0 && Threaded(mem, head, free) && NodesApart(free) && AllInRange(free, align)
      modifies this`head, this`mem
      ensures var k := FirstFit(free, size, align);
              if k == |free| then region == 0 && mem == old(mem) && head == old(head)
              else
                && region == free[k].addr && Some(start) == AllocFromRegion(free[k], size, align)
                && region in mem && mem[region] == free[k].size
                && Threaded(mem, head, RemoveAt(free, k)) && mem == Unlink(old(mem), free, k)
    {
      ghost var i := 0;
      var prev := 0;
      region, start := head, 0;
      while region != 0
        invariant i <= |free| && region == AddrAt(free, i)
        invariant prev == if i == 0 then 0 else free[i - 1].addr
        invariant forall j :: 0 <= j < i ==> AllocFromRegion(free[j], size, align).None?
        decreases |free| - i
      {
        assert LinkedAt(mem, free, i);
        assert StartInRange(free[i], align);
        var fit := AllocFromRegion(Block(region, mem[region]), size, align);
        if fit.Some? {
          FirstFitIs(free, size, align, i);
          Detach(prev, region, free, i);
          start := fit.value;
          return;
        }
        prev, region := region, mem[region + 8];
        i := i + 1;
      }
      FirstFitIs(free, size, align, i);
    }

    /** Returns what is left of region `k` to the list. */
    method PutBack(addr: nat, size: nat, ghost h0: Heap, ghost k: nat)
      requires Inv(h0, heap) && k < |h0.free| && Within(Block(addr, size), h0.free[k]) && RegionOk(Block(addr, size))
      requires var others := RemoveAt(h0.free, k);
               Threaded(mem, head, others) && NodesApart([Block(addr, size)] + others)
      modifies this`head, this`mem
      ensures Threaded(mem, head, [Block(addr, size)] + RemoveAt(h0.free, k))
      ensures SameWords(old(mem), mem, h0.live)
    {
      PushKeepsLive(h0, heap, mem, k, Block(addr, size), head);
      AddFreeRegion(addr, size, RemoveAt(h0.free, k));
    }

    /** `alloc` for a padded size and alignment. */
    method AllocSized(size: nat, align: nat) returns (p: Pointer)
      requires Valid()
      requires 0 < align <= ISIZE_MAX && align % NODE_ALIGN == 0 && size % NODE_ALIGN == 0 && size >= NODE_SIZE
      modifies this
      ensures Valid() && heap == old(heap)
      ensures h == AllocHeap(old(h), size, align) && p == Granted(old(h), size, align)
      ensures SameWords(old(mem), mem, old(h.live))
    {
      ghost var h0, free := h, h.free;
      ghost var k := FirstFit(free, size, align);
      FreeNodesApart(h0, heap);
      AlignUpInRange(h0, heap, align);
      var region, start := FindRegion(size, align, free);
      if region == 0 {
        return Null;
      }
      UnlinkKeepsLive(h0, heap, old(mem), k);
      var end := start + size;
      var excess := region + mem[region] - end;
      ghost var mem1 := mem;
      AfterAlloc(h0, heap, size, align, k, start, Block(end, excess));
      if excess > 0 {
        PutBack(end, excess, h0, k);
        SameWordsTwice(old(mem), mem1, mem, h0.live);
      } else {
        assert [] + RemoveAt(free, k) == RemoveAt(free, k);
      }
      AllocKeeps(h0, heap, size, align);
      h := AllocHeap(h0, size, align);
      return Ptr(start);
    }

    method Alloc(l: Layout) returns (p: Pointer)
      requires Valid() && l.Valid()
      modifies this
      ensures Valid() && heap == old(heap)
      ensures h == Step(old(h), Op.Alloc(l))
      ensures SameWords(old(mem), mem, old(h.live))
      ensures p == if SizeAlign(l).None? then Panics else Granted(old(h), SizeAlign(l).value.0, SizeAlign(l).value.1)
      ensures SizeAlign(l).Some? ==>
                (p.Null? <==> forall i :: 0 <= i < |old(h).free| ==>
                   !CanHold(old(h).free[i], SizeAlign(l).value.0, SizeAlign(l).value.1))
      ensures p.Ptr? ==> p.addr % l.align == 0
    {
      var sa := SizeAlign(l);
      if sa.None? { return Panics; }
      SizeAlignOk(l);
      NullIff(h, heap, sa.value.0, sa.value.1);
      p := AllocSized(sa.value.0, sa.value.1);
      if p.Ptr? {
        PointerAligned(p.addr, sa.value.1, l);
      }
    }

    method Dealloc(addr: nat, l: Layout, ghost i: nat)
      requires Valid() && l.Valid() && SizeAlign(l).Some?
      requires i < |h.live| && h.live[i] == Block(addr, SizeAlign(l).value.0)
      modifies this
      ensures Valid() && heap == old(heap)
      ensures h == Step(old(h), Op.Dealloc(i))
      ensures SameWords(old(mem), mem, h.live)
    {
      var size := SizeAlign(l).value.0;
      ghost var h0, x := h, Block(addr, size);
      h := DeallocHeap(h0, i);
      DeallocKeeps(h0, heap, i);
      FreeNodesApart(h, heap);
      PushKeepsLive(h, heap, mem, 0, x, head);
      assert h.free[0] == x && x in h.free;
      AddFreeRegion(addr, size, h0.free);
    }

    /** A client stores a word anywhere in a block it owns: the list is not affected. */
    method ClientWrite(a: nat, value: nat, ghost i: nat)
      requires Valid() && i < |h.live| && h.live[i].addr <= a && a + 8 <= h.live[i].End()
      modifies this`mem
      ensures Valid() && mem == old(mem)[a := value]
    {
      ClientKeepsList(h, heap, mem, head, i, a, value);
      mem := mem[a := value];
    }
  }

  lemma {:induction false} FirstFitIs(free: seq<Block>, size: nat, align: nat, k: nat)
    requires align > 0 && k <= |free|
    requires forall j :: 0 <= j < k ==> AllocFromRegion(free[j], size, align).None?
    requires k < |free| ==> AllocFromRegion(free[k], size, align).Some?
    ensures FirstFit(free, size, align) == k
  {
    if k > 0 {
      FirstFitIs(free[1..], size, align, k - 1);
    }
  }
}
