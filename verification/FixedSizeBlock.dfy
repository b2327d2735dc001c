/** The fixed-size-block heap: one free list per block size, over a fallback heap. */
module FixedSizeBlock {
  import opened Common
  import opened Arithmetic
  import opened Alignment

  const BLOCK_SIZES: seq<nat> := [8, 16, 32, 64, 128, 256, 512, 1024, 2048]
  const CLASSES := 9

  function SizeOf(i: nat): nat
    requires i < CLASSES
  {
    BLOCK_SIZES[i]
  }

  // ---------- Size classes ----------

  function Required(l: Layout): nat { if l.size < l.align then l.align else l.size }

  /** The first class, from `i` on, whose blocks are large enough. */
  function ListIndexFrom(l: Layout, i: nat): (r: Option<nat>)
    requires i <= CLASSES
    ensures r.Some? ==> i <= r.value < CLASSES && SizeOf(r.value) >= Required(l)
    ensures forall j :: i <= j < (if r.Some? then r.value else CLASSES) ==> SizeOf(j) < Required(l)
    decreases CLASSES - i
  {
    if i == CLASSES then None
    else if SizeOf(i) >= Required(l) then Some(i)
    else ListIndexFrom(l, i + 1)
  }

  function ListIndex(l: Layout): Option<nat> { ListIndexFrom(l, 0) }

  /** The block sizes. */
  predicate IsClassSize(n: nat) { n in {8, 16, 32, 64, 128, 256, 512, 1024, 2048} }

  /** Every class has one of these sizes, holds an 8-byte node at its alignment, and every size is a class. */
  lemma ClassSizes(n: nat) returns (i: nat)
    ensures forall c :: 0 <= c < CLASSES ==> IsClassSize(SizeOf(c)) && SizeOf(c) >= 8 && SizeOf(c) % 8 == 0
    ensures IsClassSize(n) ==> i < CLASSES && SizeOf(i) == n
  {
    i := if n <= 8 then 0 else if n <= 16 then 1 else if n <= 32 then 2 else if n <= 64 then 3 else if n <= 128 then 4
         else if n <= 256 then 5 else if n <= 512 then 6 else if n <= 1024 then 7 else 8;
  }

  /** A layout is served by the smallest class that holds its size and its alignment, and by none beyond 2048. */
  lemma SmallestClass(l: Layout, n: nat)
    ensures ListIndex(l).None? <==> l.size > 2048 || l.align > 2048
    ensures ListIndex(l).Some? ==>
              var size := SizeOf(ListIndex(l).value);
              && size >= l.size && size >= l.align
              && (IsClassSize(n) && n >= l.size && n >= l.align ==> size <= n)
  {
    var i := ClassSizes(n);
    assert SizeOf(8) == 2048 && forall c :: 0 <= c < CLASSES ==> SizeOf(c) <= 2048;
    Increasing();
  }

  lemma Increasing()
    ensures forall c, c' :: 0 <= c <= c' < CLASSES ==> SizeOf(c) <= SizeOf(c')
  {
  }

  lemma {:induction false} PowerDividesSize(a: nat, i: nat)
    requires PowerOfTwo(a) && i < CLASSES && a <= SizeOf(i)
    ensures SizeOf(i) % a == 0
  {
    SmallPowers(a);
  }

  /** The powers of two up to 2048. */
  lemma SmallPowers(a: nat)
    requires PowerOfTwo(a) && a <= 2048
    ensures a in {1, 2, 4, 8, 16, 32, 64, 128, 256, 512, 1024, 2048}
  {
    if a > 1 {
      SmallPowers(a / 2);
    }
  }

  /** A block of the chosen class is large enough and aligned for the layout. */
  lemma BlockServes(l: Layout, addr: nat)
    requires l.Valid() && ListIndex(l).Some? && addr % SizeOf(ListIndex(l).value) == 0
    ensures SizeOf(ListIndex(l).value) >= l.size && addr % l.align == 0
  {
    var size := SizeOf(ListIndex(l).value);
    PowerDividesSize(l.align, ListIndex(l).value);
    MultipleDivides(addr, size, l.align);
  }

  lemma MultipleDivides(x: nat, n: nat, a: nat)
    requires n > 0 && a > 0 && x % n == 0 && n % a == 0
    ensures x % a == 0
  {
    var p, q := x / n, n / a;
    assert x == n * p && n == a * q;
    assert x == a * (q * p);
    MultipleAligned(q * p, a);
  }

  // ---------- The abstract allocator ----------

  /**
   `pool` holds every class block ever taken from the fallback, `lists[i]` the positions in `pool` of
   the free blocks of class `i`, `large` the blocks the fallback serves directly.
   */
  datatype State = State(pool: seq<Block>, lists: seq<seq<nat>>, large: seq<Block>)

  /** Position `b` of the pool is a block of class `i`. */
  predicate InClass(s: State, b: nat, i: nat) {
    b < |s.pool| && i < CLASSES && s.pool[b].size == SizeOf(i)
  }

  ghost predicate Inv(s: State) {
    && |s.lists| == CLASSES
    && Apart(s.pool + s.large)
    && (forall b :: 0 <= b < |s.pool| ==> PoolBlockOk(s.pool[b]))
    && (forall i :: 0 <= i < CLASSES ==> ListOk(s, i))
  }

  predicate PoolBlockOk(x: Block) { x.addr > 0 && x.size in BLOCK_SIZES && x.size > 0 && x.addr % x.size == 0 }

  /** The list of class `i` names blocks of that class, each once. */
  ghost predicate ListOk(s: State, i: nat)
    requires |s.lists| == CLASSES && i < CLASSES
  {
    && (forall b :: b in s.lists[i] ==> InClass(s, b, i))
    && (forall j, k :: 0 <= j < k < |s.lists[i]| ==> s.lists[i][j] != s.lists[i][k])
  }

  /** A class block that is handed out. */
  ghost predicate Live(s: State, b: nat, i: nat) {
    InClass(s, b, i) && i < |s.lists| && b !in s.lists[i]
  }

  function Blocks(s: State): seq<Block> { s.pool + s.large }

  /** What the fallback heap promises: a block of the size, aligned, apart from everything it gave out. */
  ghost predicate FallbackGives(s: State, size: nat, align: nat, r: Option<nat>)
    requires align > 0
  {
    r.Some? ==> r.value > 0 && r.value % align == 0 && Separate(Blocks(s), [Block(r.value, size)])
  }

  datatype Op =
    | AllocClass(i: nat, fallback: Option<nat>)
    | DeallocClass(i: nat, b: nat)
    | AllocLarge(layout: Layout, fallback: Option<nat>)
    | DeallocLarge(k: nat)

  ghost predicate Legal(s: State, op: Op)
    requires |s.lists| == CLASSES
  {
    match op
    case AllocClass(i, f) => i < CLASSES && (s.lists[i] == [] ==> FallbackGives(s, SizeOf(i), SizeOf(i), f))
    case DeallocClass(i, b) => i < CLASSES && Live(s, b, i)
    case AllocLarge(l, f) => l.Valid() && FallbackGives(s, l.size, l.align, f)
    case DeallocLarge(k) => k < |s.large|
  }

  /** The state after an operation. */
  function Step(s: State, op: Op): State
    requires |s.lists| == CLASSES
  {
    match op
    case AllocClass(i, f) =>
      if i >= CLASSES then s
      else if s.lists[i] != [] then s.(lists := s.lists[i := s.lists[i][1..]])
      else if f.Some? then s.(pool := s.pool + [Block(f.value, SizeOf(i))])
      else s
    case DeallocClass(i, b) => if i < CLASSES then s.(lists := s.lists[i := [b] + s.lists[i]]) else s
    case AllocLarge(l, f) => if f.Some? then s.(large := s.large + [Block(f.value, l.size)]) else s
    case DeallocLarge(k) => if k < |s.large| then s.(large := RemoveAt(s.large, k)) else s
  }

  /** The pool position that an allocation of class `i` hands out, if any. */
  function Handed(s: State, i: nat, f: Option<nat>): Option<nat>
    requires |s.lists| == CLASSES && i < CLASSES
  {
    if s.lists[i] != [] then Some(s.lists[i][0]) else if f.Some? then Some(|s.pool|) else None
  }

  lemma AddToPool(s: State, x: Block)
    requires Apart(s.pool + s.large) && Separate(Blocks(s), [x])
    ensures Apart(s.pool + [x] + s.large) && Apart(s.pool + (s.large + [x]))
  {
    ApartAppend(s.pool, s.large);
    forall y | y in Blocks(s) ensures Disjoint(y, x) {
      assert x in [x];
    }
    ApartAppend(s.pool, [x]);
    ApartAppend(s.pool + [x], s.large);
    ApartAppend(s.large, [x]);
    ApartAppend(s.pool, s.large + [x]);
  }

  lemma StepKeeps(s: State, op: Op)
    requires Inv(s) && Legal(s, op)
    ensures Inv(Step(s, op))
  {
    var s' := Step(s, op);
    match op
    case AllocClass(i, f) =>
      if s.lists[i] == [] && f.Some? {
        AddToPool(s, Block(f.value, SizeOf(i)));
      }
      forall c | 0 <= c < CLASSES ensures ListOk(s', c) {
        assert ListOk(s, c);
        assert s.lists[i] != [] ==> forall b :: b in s.lists[i][1..] ==> b in s.lists[i];
      }
    case DeallocClass(i, b) =>
      forall c | 0 <= c < CLASSES ensures ListOk(s', c) {
        assert ListOk(s, c);
      }
    case AllocLarge(l, f) =>
      if f.Some? {
        AddToPool(s, Block(f.value, l.size));
      }
      assert forall c :: 0 <= c < CLASSES && ListOk(s, c) ==> ListOk(s', c);
    case DeallocLarge(k) =>
      ApartAppend(s.pool, s.large);
      ApartRemove(s.large, k);
      ApartAppend(s.pool, RemoveAt(s.large, k));
      assert forall c :: 0 <= c < CLASSES && ListOk(s, c) ==> ListOk(s', c);
  }

  /** A handed-out block was not live before, is live now, and nobody else's status changed. */
  lemma HandedWasFree(s: State, i: nat, f: Option<nat>, b: nat, c: nat)
    requires Inv(s) && i < CLASSES && c < CLASSES && Legal(s, AllocClass(i, f)) && Handed(s, i, f).Some?
    ensures var h, s' := Handed(s, i, f).value, Step(s, AllocClass(i, f));
            && !Live(s, h, i) && Live(s', h, i)
            && (!(b == h && c == i) ==> (Live(s', b, c) <==> Live(s, b, c)))
  {
    assert ListOk(s, i) && ListOk(s, c);
    var list := s.lists[i];
    if list != [] {
      assert list[0] in list;
      assert forall x :: x in list <==> x == list[0] || x in list[1..];
    }
  }

  // ---------- Every run ----------

  const EMPTY := State([], [[], [], [], [], [], [], [], [], []], [])

  /** The states of a run from the empty allocator, one legal operation apart. */
  ghost predicate IsRun(run: seq<State>) {
    && |run| > 0 && run[0] == EMPTY
    && forall t :: 0 <= t < |run| - 1 ==> IsStep(run[t], run[t + 1])
  }

  ghost predicate IsStep(s: State, s': State) {
    |s.lists| == CLASSES && exists op :: Legal(s, op) && s' == Step(s, op)
  }

  lemma RunPrefix(run: seq<State>)
    requires IsRun(run) && |run| > 1
    ensures IsRun(run[..|run| - 1]) && IsStep(run[|run| - 2], run[|run| - 1])
  {
    var n := |run| - 1;
    assert forall t :: 0 <= t < n - 1 ==> IsStep(run[t], run[t + 1]);
    assert IsStep(run[n - 1], run[n - 1 + 1]);
  }

  lemma IsStepKeeps(s: State, s': State)
    requires Inv(s) && IsStep(s, s')
    ensures Inv(s')
  {
    var op :| Legal(s, op) && s' == Step(s, op);
    StepKeeps(s, op);
  }

  lemma EmptyOk()
    ensures Inv(EMPTY)
  {
  }

  /** In every run blocks never overlap, free lists are duplicate-free and alignment holds. */
  lemma {:induction false} RunKeeps(run: seq<State>)
    requires IsRun(run)
    ensures Inv(run[|run| - 1])
  {
    if |run| == 1 {
      EmptyOk();
    } else {
      RunPrefix(run);
      RunKeeps(run[..|run| - 1]);
      IsStepKeeps(run[|run| - 2], run[|run| - 1]);
    }
  }

  /** The blocks of class `i` taken from the fallback so far. */
  ghost function ClassSet(s: State, i: nat): set<nat> {
    set b: nat | b < |s.pool| && InClass(s, b, i)
  }

  /** The blocks of class `i` that are handed out. */
  ghost function LiveSet(s: State, i: nat): set<nat> {
    set b: nat | b < |s.pool| && Live(s, b, i)
  }

  /** Every class block is either free or live. */
  lemma LiveCount(s: State, i: nat)
    requires Inv(s) && i < CLASSES
    ensures |LiveSet(s, i)| == |ClassSet(s, i)| - |s.lists[i]|
  {
    assert ListOk(s, i);
    DistinctCount(s.lists[i]);
    assert ClassSet(s, i) == LiveSet(s, i) + Members(s.lists[i]);
    assert LiveSet(s, i) !! Members(s.lists[i]);
  }

  /** The fallback is asked for a new block of a class only when all blocks of that class are live. */
  lemma TakenStep(s: State, op: Op, i: nat)
    requires Inv(s) && Legal(s, op) && i < CLASSES
    ensures var s' := Step(s, op);
            || |ClassSet(s', i)| == |ClassSet(s, i)|
            || (|ClassSet(s', i)| == |ClassSet(s, i)| + 1 && s'.lists[i] == [])
  {
    var s' := Step(s, op);
    if op.AllocClass? && s.lists[op.i] == [] && op.fallback.Some? {
      PoolGrown(s, s', op.i, op.fallback.value, i);
    } else {
      SamePool(s, s', i);
    }
  }

  lemma SamePool(s: State, s': State, i: nat)
    requires s'.pool == s.pool
    ensures ClassSet(s', i) == ClassSet(s, i)
  {
  }

  lemma PoolGrown(s: State, s': State, c: nat, addr: nat, i: nat)
    requires c < CLASSES && i < CLASSES && s'.pool == s.pool + [Block(addr, SizeOf(c))]
    ensures ClassSet(s', i) == ClassSet(s, i) + (if c == i then {|s.pool|} else {})
  {
    SizesDiffer(c, i);
    forall b: nat | b < |s'.pool| ensures InClass(s', b, i) <==> InClass(s, b, i) || (b == |s.pool| && c == i) {
    }
  }

  lemma SizesDiffer(c: nat, i: nat)
    requires c < CLASSES && i < CLASSES
    ensures SizeOf(c) == SizeOf(i) <==> c == i
  {
  }

  /** The largest number of blocks of class `i` that were live at the same time. */
  ghost function Peak(run: seq<State>, i: nat): nat {
    if run == [] then 0 else Max(Peak(run[..|run| - 1], i), |LiveSet(run[|run| - 1], i)|)
  }

  function Max(x: nat, y: nat): nat { if x < y then y else x }

  /** A step either takes no new block of the class, or makes all its blocks live at once. */
  lemma PeakStep(s: State, s': State, i: nat)
    requires Inv(s) && IsStep(s, s') && i < CLASSES
    ensures |LiveSet(s', i)| <= |ClassSet(s', i)|
    ensures || |ClassSet(s', i)| == |ClassSet(s, i)|
            || (|ClassSet(s', i)| == |ClassSet(s, i)| + 1 && |LiveSet(s', i)| == |ClassSet(s', i)|)
  {
    IsStepKeeps(s, s');
    LiveCount(s', i);
    var op :| Legal(s, op) && s' == Step(s, op);
    TakenStep(s, op, i);
  }

  /** The number of blocks of a class ever taken from the fallback is the peak number live at once. */
  lemma {:induction false} TakenIsPeak(run: seq<State>, i: nat)
    requires IsRun(run) && i < CLASSES
    ensures |ClassSet(run[|run| - 1], i)| == Peak(run, i)
  {
    if |run| == 1 {
      assert ClassSet(run[0], i) == {} && LiveSet(run[0], i) == {};
      assert Peak(run[..0], i) == 0;
    } else {
      var before := run[..|run| - 1];
      RunPrefix(run);
      RunKeeps(before);
      TakenIsPeak(before, i);
      PeakStep(run[|run| - 2], run[|run| - 1], i);
    }
  }

  // ---------- Free lists threaded through the free blocks ----------

  function AddrAt(pool: seq<Block>, list: seq<nat>, k: nat): nat {
    if k < |list| && list[k] < |pool| then pool[list[k]].addr else 0
  }

  /** A free block's first word is the address of the next free block, 0 at the end. */
  predicate LinkedAt(mem: Memory, pool: seq<Block>, list: seq<nat>, k: nat) {
    var addr := AddrAt(pool, list, k);
    addr in mem && mem[addr] == AddrAt(pool, list, k + 1)
  }

  ghost predicate Threaded(mem: Memory, head: nat, pool: seq<Block>, list: seq<nat>) {
    && head == AddrAt(pool, list, 0)
    && forall k: nat :: k < |list| ==> LinkedAt(mem, pool, list, k)
  }

  lemma Popped(mem: Memory, head: nat, pool: seq<Block>, list: seq<nat>)
    requires Threaded(mem, head, pool, list) && list != []
    ensures head in mem && Threaded(mem, mem[head], pool, list[1..])
  {
    assert LinkedAt(mem, pool, list, 0);
    forall k: nat | k < |list[1..]| ensures LinkedAt(mem, pool, list[1..], k) {
      assert LinkedAt(mem, pool, list, k + 1);
    }
  }

  lemma PoolGrows(mem: Memory, head: nat, pool: seq<Block>, list: seq<nat>, x: Block)
    requires Threaded(mem, head, pool, list) && forall b :: b in list ==> b < |pool|
    ensures Threaded(mem, head, pool + [x], list)
  {
    forall k: nat ensures AddrAt(pool + [x], list, k) == AddrAt(pool, list, k) {
      assert k < |list| ==> list[k] in list;
    }
    forall k: nat | k < |list| ensures LinkedAt(mem, pool + [x], list, k) {
      assert LinkedAt(mem, pool, list, k);
    }
  }

  lemma DistinctAddresses(s: State, b: nat, b': nat)
    requires Inv(s) && b < |s.pool| && b' < |s.pool| && b != b'
    ensures s.pool[b].addr != s.pool[b'].addr
  {
    ApartAppend(s.pool, s.large);
    assert PoolBlockOk(s.pool[b]) && PoolBlockOk(s.pool[b']);
    assert Disjoint(s.pool[if b < b' then b else b'], s.pool[if b < b' then b' else b]);
  }

  /** Writing the first word of a block that is not in the list leaves the list alone. */
  lemma WriteOutsideList(s: State, mem: Memory, head: nat, list: seq<nat>, b: nat, v: nat)
    requires Inv(s) && b < |s.pool| && b !in list && (forall x :: x in list ==> x < |s.pool|)
    requires Threaded(mem, head, s.pool, list)
    ensures Threaded(mem[s.pool[b].addr := v], head, s.pool, list)
  {
    var mem' := mem[s.pool[b].addr := v];
    forall k: nat | k < |list| ensures LinkedAt(mem', s.pool, list, k) {
      assert LinkedAt(mem, s.pool, list, k) && list[k] in list;
      DistinctAddresses(s, list[k], b);
    }
  }

  lemma Pushed(s: State, mem: Memory, head: nat, list: seq<nat>, b: nat)
    requires Inv(s) && b < |s.pool| && b !in list && (forall x :: x in list ==> x < |s.pool|)
    requires Threaded(mem, head, s.pool, list)
    ensures Threaded(mem[s.pool[b].addr := head], s.pool[b].addr, s.pool, [b] + list)
  {
    var mem', all := mem[s.pool[b].addr := head], [b] + list;
    WriteOutsideList(s, mem, head, list, b, head);
    assert forall k: nat :: AddrAt(s.pool, all, k + 1) == AddrAt(s.pool, list, k);
    forall k: nat | k < |all| ensures LinkedAt(mem', s.pool, all, k) {
      if k > 0 {
        assert LinkedAt(mem', s.pool, list, k - 1);
        assert AddrAt(s.pool, all, k - 1 + 1) == AddrAt(s.pool, list, k - 1);
      }
    }
  }

  /** A block that a client holds: a class block that is not free, or a large one. */
  ghost predicate Held(s: State, x: Block) {
    x in s.large || exists b: nat, i: nat :: Live(s, b, i) && s.pool[b] == x
  }

  lemma HeldNotListed(s: State, x: Block, c: nat, y: nat)
    requires Inv(s) && Held(s, x) && c < CLASSES && y in s.lists[c]
    ensures InClass(s, y, c) && Disjoint(x, s.pool[y])
  {
    assert ListOk(s, c);
    ApartAppend(s.pool, s.large);
    if x in s.large {
      assert s.pool[y] in s.pool;
    } else {
      var b: nat, i: nat :| Live(s, b, i) && s.pool[b] == x;
      LiveNotListed(s, b, i, c, y);
      assert Disjoint(s.pool[if b < y then b else y], s.pool[if b < y then y else b]);
    }
  }

  lemma LiveNotListed(s: State, b: nat, i: nat, c: nat, y: nat)
    requires |s.lists| == CLASSES && c < CLASSES && ListOk(s, c) && Live(s, b, i) && y in s.lists[c]
    ensures b != y
  {
    assert c != i ==> SizeOf(c) != SizeOf(i);
  }

  /** Words written by clients in their own blocks are never part of a free list. */
  lemma ClientKeepsLists(s: State, mem: Memory, head: nat, c: nat, x: Block, a: nat, v: nat)
    requires Inv(s) && c < CLASSES && Threaded(mem, head, s.pool, s.lists[c])
    requires Held(s, x) && x.addr <= a && a + 8 <= x.End()
    ensures Threaded(mem[a := v], head, s.pool, s.lists[c])
  {
    var list, mem' := s.lists[c], mem[a := v];
    forall k: nat | k < |list| ensures LinkedAt(mem', s.pool, list, k) {
      assert LinkedAt(mem, s.pool, list, k) && list[k] in list;
      HeldNotListed(s, x, c, list[k]);
      assert PoolBlockOk(s.pool[list[k]]);
    }
  }

  class FixedSizeBlockAllocator {
    const heads: array<nat>
    var mem: Memory
    ghost var s: State

    ghost predicate Valid()
      reads this, heads
    {
      && heads.Length == CLASSES && Inv(s)
      && forall i :: 0 <= i < CLASSES ==> Threaded(mem, heads[i], s.pool, s.lists[i])
    }

    constructor (mem: Memory)
      ensures Valid() && fresh(heads) && s == EMPTY
    {
      EmptyOk();
      heads := new nat[CLASSES](_ => 0);
      this.mem := mem;
      s := EMPTY;
    }

    /** `fallback` is what the fallback heap answers if it is asked. */
    method Alloc(l: Layout, fallback: Option<nat>) returns (p: Option<nat>)
      requires Valid() && l.Valid() && Legal(s, AllocOp(l, fallback))
      modifies this, heads
      ensures Valid() && s == Step(old(s), AllocOp(l, fallback)) && mem == Taken(old(s), old(mem), ListIndex(l))
      ensures p.Some? ==> p.value > 0 && p.value % l.align == 0
      ensures match ListIndex(l)
              case None => p == fallback
              case Some(i) =>
                match Handed(old(s), i, fallback)
                case None => p == None
                case Some(b) => b < |s.pool| && p == Some(s.pool[b].addr) && s.pool[b].size >= l.size
    {
      var index := ListIndex(l);
      StepKeeps(s, AllocOp(l, fallback));
      if index.None? {
        s := Step(s, AllocOp(l, fallback));
        return fallback;
      }
      var i := index.value;
      assert ListOk(s, i) && Threaded(mem, heads[i], s.pool, s.lists[i]);
      if heads[i] != 0 {
        ghost var b := s.lists[i][0];
        assert b in s.lists[i] && PoolBlockOk(s.pool[b]);
        var node := heads[i];
        BlockServes(l, node);
        forall c | 0 <= c < CLASSES
          ensures if c == i then node in mem && Threaded(mem[node := 0], mem[node], s.pool, s.lists[i][1..])
                  else Threaded(mem[node := 0], heads[c], s.pool, s.lists[c])
        {
          TakenLists(s, mem, heads[..], i, c);
        }
        heads[i] := mem[node];
        mem := mem[node := 0];
        s := Step(s, AllocOp(l, fallback));
        return Some(node);
      }
      EmptyList(s, i);
      if fallback.Some? {
        BlockServes(l, fallback.value);
        GrownLists(s, mem, heads[..], Block(fallback.value, SizeOf(i)));
      }
      s := Step(s, AllocOp(l, fallback));
      return fallback;
    }

    /** Frees the block at pool position `b`, or the large block number `b`. */
    method Dealloc(ptr: nat, l: Layout, ghost b: nat)
      requires Valid() && l.Valid() && Legal(s, DeallocOp(l, b))
      requires ptr == if ListIndex(l).Some? then s.pool[b].addr else s.large[b].addr
      modifies this, heads
      ensures Valid() && s == Step(old(s), DeallocOp(l, b))
      ensures mem == if ListIndex(l).Some? then old(mem)[ptr := old(heads[ListIndex(l).value])] else old(mem)
    {
      var index := ListIndex(l);
      StepKeeps(s, DeallocOp(l, b));
      if index.Some? {
        var i := index.value;
        forall c | 0 <= c < CLASSES
          ensures if c == i then Threaded(mem[ptr := heads[i]], ptr, s.pool, [b] + s.lists[i])
                  else Threaded(mem[ptr := heads[i]], heads[c], s.pool, s.lists[c])
        {
          FreedLists(s, mem, heads[..], i, b, c);
        }
        mem := mem[ptr := heads[i]];
        heads[i] := ptr;
      }
      s := Step(s, DeallocOp(l, b));
    }

    /** A client stores a word anywhere in a block it holds: no list is affected. */
    method ClientWrite(a: nat, value: nat, ghost x: Block)
      requires Valid() && Held(s, x) && x.addr <= a && a + 8 <= x.End()
      modifies this`mem
      ensures Valid() && mem == old(mem)[a := value]
    {
      forall c | 0 <= c < CLASSES ensures Threaded(mem[a := value], heads[c], s.pool, s.lists[c]) {
        ClientKeepsLists(s, mem, heads[c], c, x, a, value);
      }
      mem := mem[a := value];
    }
  }

  /** Memory after an allocation of class `i`: the pointer in a block taken from the list is cleared. */
  ghost function Taken(s: State, mem: Memory, i: Option<nat>): Memory {
    if i.Some? && i.value < |s.lists| && s.lists[i.value] != [] then mem[AddrAt(s.pool, s.lists[i.value], 0) := 0]
    else mem
  }

  function AllocOp(l: Layout, fallback: Option<nat>): Op {
    if ListIndex(l).Some? then AllocClass(ListIndex(l).value, fallback) else AllocLarge(l, fallback)
  }

  function DeallocOp(l: Layout, b: nat): Op {
    if ListIndex(l).Some? then DeallocClass(ListIndex(l).value, b) else DeallocLarge(b)
  }

  lemma EmptyList(s: State, i: nat)
    requires Inv(s) && i < CLASSES
    ensures AddrAt(s.pool, s.lists[i], 0) == 0 <==> s.lists[i] == []
  {
    if s.lists[i] != [] {
      assert ListOk(s, i) && s.lists[i][0] in s.lists[i];
      assert PoolBlockOk(s.pool[s.lists[i][0]]);
    }
  }

  lemma GrownLists(s: State, mem: Memory, heads: seq<nat>, x: Block)
    requires Inv(s) && |heads| == CLASSES
    requires forall i :: 0 <= i < CLASSES ==> Threaded(mem, heads[i], s.pool, s.lists[i])
    ensures forall i :: 0 <= i < CLASSES ==> Threaded(mem, heads[i], s.pool + [x], s.lists[i])
  {
    forall i | 0 <= i < CLASSES ensures Threaded(mem, heads[i], s.pool + [x], s.lists[i]) {
      assert ListOk(s, i);
      PoolGrows(mem, heads[i], s.pool, s.lists[i], x);
    }
  }

  lemma TakenLists(s: State, mem: Memory, heads: seq<nat>, i: nat, c: nat)
    requires Inv(s) && |heads| == CLASSES && i < CLASSES && c < CLASSES && s.lists[i] != []
    requires Threaded(mem, heads[i], s.pool, s.lists[i]) && Threaded(mem, heads[c], s.pool, s.lists[c])
    ensures var node, rest := heads[i], s.lists[i][1..];
            if c == i then node in mem && Threaded(mem[node := 0], mem[node], s.pool, rest)
            else Threaded(mem[node := 0], heads[c], s.pool, s.lists[c])
  {
    var list := s.lists[i];
    var b, rest := list[0], list[1..];
    assert ListOk(s, i) && ListOk(s, c);
    assert b in list && heads[i] == s.pool[b].addr;
    if c == i {
      Popped(mem, heads[i], s.pool, list);
      assert forall x :: x in rest ==> x in list;
      WriteOutsideList(s, mem, mem[heads[i]], rest, b, 0);
    } else {
      assert SizeOf(c) != SizeOf(i);
      assert b !in s.lists[c];
      WriteOutsideList(s, mem, heads[c], s.lists[c], b, 0);
    }
  }

  lemma FreedLists(s: State, mem: Memory, heads: seq<nat>, i: nat, b: nat, c: nat)
    requires Inv(s) && |heads| == CLASSES && i < CLASSES && c < CLASSES && Live(s, b, i)
    requires Threaded(mem, heads[c], s.pool, s.lists[c])
    ensures var mem', addr := mem[s.pool[b].addr := heads[i]], s.pool[b].addr;
            if c == i then Threaded(mem', addr, s.pool, [b] + s.lists[i])
            else Threaded(mem', heads[c], s.pool, s.lists[c])
  {
    assert ListOk(s, c);
    if c == i {
      Pushed(s, mem, heads[i], s.lists[i], b);
    } else {
      assert SizeOf(c) != SizeOf(i);
      assert b !in s.lists[c];
      WriteOutsideList(s, mem, heads[c], s.lists[c], b, heads[i]);
    }
  }
}
