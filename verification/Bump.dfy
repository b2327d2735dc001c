/** The bump allocator: a pointer that only moves up, reset when the last live block is freed. */
module Bump {
  import opened Alignment

  /**
   `next` and `allocations` are the allocator's own fields. `live` holds the blocks handed out and
   not yet freed, and `aligns` the alignment each was requested with.
   */
  datatype State = State(next: nat, allocations: int, live: seq<Block>, aligns: seq<nat>)

  datatype Op = Alloc(layout: Layout) | Dealloc(i: nat)

  predicate Legal(s: State, op: Op) {
    match op
    case Alloc(l) => l.Valid()
    case Dealloc(i) => i < |s.live| && i < |s.aligns|
  }

  /** Whether a request still fits below the end of the heap. */
  predicate HasSpace(s: State, heap: Block, l: Layout)
    requires l.align > 0
  {
    AlignUp(s.next, l.align) + l.size <= heap.End()
  }

  /** There is space if and only if some aligned address from `next` on leaves room for the block. */
  lemma SpaceIff(s: State, heap: Block, l: Layout)
    requires l.align > 0
    ensures HasSpace(s, heap, l) <==> !NoRoom(s.next, heap.addr + heap.size, l.size, l.align)
  {
    if t: nat :| s.next <= t && Aligned(t, l.align) && t + l.size <= heap.End() {
      if t < s.next + l.align {
        LeastAligned(s.next, l.align, t);
      }
    }
    if HasSpace(s, heap, l) {
      assert Aligned(AlignUp(s.next, l.align), l.align);
    }
  }

  /** Every aligned address from `next` on is too close to `end`. */
  ghost predicate NoRoom(next: nat, end: nat, size: nat, align: nat)
    requires align > 0
  {
    forall t: nat :: next <= t && Aligned(t, align) ==> t + size > end
  }

  function Step(s: State, heap: Block, op: Op): State
    requires Legal(s, op)
  {
    match op
    case Alloc(l) =>
      if HasSpace(s, heap, l) then
        var start := AlignUp(s.next, l.align);
        State(start + l.size, s.allocations + 1, s.live + [Block(start, l.size)], s.aligns + [l.align])
      else s
    case Dealloc(i) =>
      var left := s.allocations - 1;
      State(if left == 0 then heap.addr else s.next, left, RemoveAt(s.live, i), RemoveAt(s.aligns, i))
  }

  /** The counter counts live blocks, which are aligned and apart and lie below `next`. */
  ghost predicate Inv(s: State, heap: Block) {
    && heap.addr <= s.next <= heap.End()
    && s.allocations == |s.live| == |s.aligns|
    && Apart(s.live)
    && (forall i :: 0 <= i < |s.live| ==> AlignedAt(s.live, s.aligns, i))
    && forall x :: x in s.live ==> Within(x, Block(heap.addr, s.next - heap.addr))
  }

  /** Block number `i` is aligned as it was requested. */
  predicate AlignedAt(live: seq<Block>, aligns: seq<nat>, i: nat) {
    i < |live| && i < |aligns| && aligns[i] > 0 && live[i].addr % aligns[i] == 0
  }

  lemma StepKeeps(s: State, heap: Block, op: Op)
    requires Inv(s, heap) && Legal(s, op)
    ensures Inv(Step(s, heap, op), heap)
  {
    match op
    case Alloc(l) =>
      if HasSpace(s, heap, l) {
        AllocKeeps(s, heap, AlignUp(s.next, l.align), l);
      }
    case Dealloc(i) => DeallocKeeps(s, heap, i);
  }

  lemma AllocKeeps(s: State, heap: Block, start: nat, l: Layout)
    requires Inv(s, heap) && l.align > 0
    requires s.next <= start && start % l.align == 0 && start + l.size <= heap.End()
    ensures Inv(State(start + l.size, s.allocations + 1, s.live + [Block(start, l.size)], s.aligns + [l.align]), heap)
  {
    var block := Block(start, l.size);
    var live, aligns := s.live + [block], s.aligns + [l.align];
    assert Separate(s.live, [block]);
    ApartAppend(s.live, [block]);
    forall j | 0 <= j < |live| ensures AlignedAt(live, aligns, j) {
      assert j < |s.live| ==> AlignedAt(s.live, s.aligns, j);
    }
  }

  lemma DeallocKeeps(s: State, heap: Block, i: nat)
    requires Inv(s, heap) && i < |s.live|
    ensures Inv(Step(s, heap, Dealloc(i)), heap)
  {
    ApartRemove(s.live, i);
    forall j | 0 <= j < |s.live| - 1 ensures AlignedAt(RemoveAt(s.live, i), RemoveAt(s.aligns, i), j) {
      StillAligned(s.live, s.aligns, i, j);
    }
  }

  lemma StillAligned(live: seq<Block>, aligns: seq<nat>, i: nat, j: nat)
    requires i < |live| == |aligns| && j < |live| - 1 && AlignedAt(live, aligns, if j < i then j else j + 1)
    ensures AlignedAt(RemoveAt(live, i), RemoveAt(aligns, i), j)
  {
  }

  /** Freeing the only live block makes the whole heap available again; freeing another one moves nothing. */
  lemma ResetIff(s: State, heap: Block, i: nat)
    requires Inv(s, heap) && i < |s.live|
    ensures var s' := Step(s, heap, Dealloc(i));
            && s'.next == (if |s.live| == 1 then heap.addr else s.next)
            && s'.allocations == |s.live| - 1 && |s'.live| == |s.live| - 1
  {
  }

  predicate LegalRun(s: State, heap: Block, ops: seq<Op>)
    decreases |ops|
  {
    ops == [] || (Legal(s, ops[0]) && LegalRun(Step(s, heap, ops[0]), heap, ops[1..]))
  }

  function Run(s: State, heap: Block, ops: seq<Op>): State
    requires LegalRun(s, heap, ops)
    decreases |ops|
  {
    if ops == [] then s else Run(Step(s, heap, ops[0]), heap, ops[1..])
  }

  /** In every matched run the counter is exact and live blocks stay aligned and apart, reset or not. */
  lemma {:induction false} RunKeeps(s: State, heap: Block, ops: seq<Op>)
    requires Inv(s, heap) && LegalRun(s, heap, ops)
    ensures Inv(Run(s, heap, ops), heap)
    decreases |ops|
  {
    if ops != [] {
      StepKeeps(s, heap, ops[0]);
      RunKeeps(Step(s, heap, ops[0]), heap, ops[1..]);
    }
  }

  class BumpAllocator {
    var heapStart: nat
    var heapEnd: nat
    var next: nat
    var allocations: nat
    ghost var live: seq<Block>
    ghost var aligns: seq<nat>

    ghost function Heap(): Block
      requires heapStart <= heapEnd
      reads this
    {
      Block(heapStart, heapEnd - heapStart)
    }

    ghost function Abs(): State
      reads this
    {
      State(next, allocations, live, aligns)
    }

    ghost predicate Valid()
      reads this
    {
      heapStart <= heapEnd <= ISIZE_MAX + 1 && Inv(Abs(), Heap())
    }

    constructor (start: nat, size: nat)
      requires start + size <= ISIZE_MAX + 1
      ensures Valid() && Heap() == Block(start, size) && Abs() == State(start, 0, [], [])
    {
      heapStart, heapEnd, next, allocations := start, start + size, start, 0;
      live, aligns := [], [];
    }

    /** Returns null exactly when the aligned request does not fit; the block is new and aligned. */
    method Alloc(l: Layout) returns (p: Pointer)
      requires Valid() && l.Valid()
      modifies this
      ensures Valid() && Heap() == old(Heap())
      ensures Abs() == Step(old(Abs()), old(Heap()), Op.Alloc(l))
      ensures !p.Panics? && (p.Null? <==> !HasSpace(old(Abs()), old(Heap()), l))
      ensures p.Null? <==> NoRoom(old(next), heapEnd, l.size, l.align)
      ensures p.Ptr? ==> old(next) <= p.addr < old(next) + l.align && next == p.addr + l.size
      ensures p.Ptr? ==> p.addr % l.align == 0 && Block(p.addr, l.size) in live
                         && Separate(old(live), [Block(p.addr, l.size)])
    {
      StepKeeps(Abs(), Heap(), Op.Alloc(l));
      SpaceIff(Abs(), Heap(), l);
      var start := AlignUp(next, l.align);
      assert start <= USIZE_MAX;
      if start + l.size > USIZE_MAX { return Null; }
      var end := start + l.size;
      if end > heapEnd { return Null; }
      next := end;
      allocations := allocations + 1;
      live, aligns := live + [Block(start, l.size)], aligns + [l.align];
      return Ptr(start);
    }

    method Dealloc(ghost i: nat)
      requires Valid() && i < |live|
      modifies this
      ensures Valid() && Heap() == old(Heap())
      ensures Abs() == Step(old(Abs()), old(Heap()), Op.Dealloc(i))
      ensures next == if |old(live)| == 1 then heapStart else old(next)
      ensures next < old(next) ==> live == []
    {
      StepKeeps(Abs(), Heap(), Op.Dealloc(i));
      live, aligns := RemoveAt(live, i), RemoveAt(aligns, i);
      allocations := allocations - 1;
      if allocations == 0 {
        next := heapStart;
      }
    }
  }
}
