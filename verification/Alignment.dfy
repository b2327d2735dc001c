/** Rounding addresses up, memory layouts and memory blocks, shared by the heap allocators. */
module Alignment {
  import opened Arithmetic

  const USIZE_MAX := 0xFFFF_FFFF_FFFF_FFFF
  const ISIZE_MAX := 0x7FFF_FFFF_FFFF_FFFF

  predicate PowerOfTwo(n: nat) {
    n == 1 || (n > 1 && n % 2 == 0 && PowerOfTwo(n / 2))
  }

  predicate Aligned(addr: nat, align: nat)
    requires align > 0
  {
    addr % align == 0
  }

  /** The least multiple of `align` that is at least `addr`. */
  function AlignUp(addr: nat, align: nat): (r: nat)
    requires align > 0
    ensures addr <= r < addr + align && Aligned(r, align)
  {
    var remainder := addr % align;
    if remainder == 0 then addr
    else
      NextMultiple(addr, align);
      addr - remainder + align
  }

  /** There is only one aligned address in `align` consecutive ones. */
  lemma LeastAligned(addr: nat, align: nat, s: nat)
    requires align > 0 && addr <= s < addr + align && s % align == 0
    ensures s == AlignUp(addr, align)
  {
    var t := AlignUp(addr, align);
    var p, q := s / align, t / align;
    assert s == align * p && t == align * q;
    assert (p - q) * align == s - t;
    if p != q {
      MultipleIsFar(p - q, align);
    }
  }

  lemma NextMultiple(addr: nat, align: nat)
    requires align > 0
    ensures (addr - addr % align + align) % align == 0
  {
    var q := addr / align;
    assert addr - addr % align + align == align * q + align == align * (q + 1);
    MultipleAligned(q + 1, align);
  }

  /** A run of bytes in memory. */
  datatype Block = Block(addr: nat, size: nat) {
    function End(): nat { addr + size }
  }

  predicate Disjoint(x: Block, y: Block) { x.End() <= y.addr || y.End() <= x.addr }

  predicate Within(x: Block, y: Block) { y.addr <= x.addr && x.End() <= y.End() }

  /** Different blocks of the sequence do not overlap, and none occurs twice. */
  ghost predicate Apart(xs: seq<Block>) {
    forall i, j :: 0 <= i < j < |xs| ==> Disjoint(xs[i], xs[j])
  }

  /** No block of `xs` overlaps one of `ys`. */
  ghost predicate Separate(xs: seq<Block>, ys: seq<Block>) {
    forall x, y :: x in xs && y in ys ==> Disjoint(x, y)
  }

  lemma ApartAppend(xs: seq<Block>, ys: seq<Block>)
    ensures Apart(xs + ys) <==> Apart(xs) && Apart(ys) && Separate(xs, ys)
  {
    if Apart(xs + ys) {
      ApartParts(xs, ys);
    }
  }

  lemma ApartParts(xs: seq<Block>, ys: seq<Block>)
    requires Apart(xs + ys)
    ensures Apart(xs) && Apart(ys) && Separate(xs, ys)
  {
    var all := xs + ys;
    assert forall i :: 0 <= i < |xs| ==> all[i] == xs[i];
    assert forall j :: 0 <= j < |ys| ==> all[|xs| + j] == ys[j];
    forall x, y | x in xs && y in ys ensures Disjoint(x, y) {
      var i :| 0 <= i < |xs| && xs[i] == x;
      var j :| 0 <= j < |ys| && ys[j] == y;
      assert Disjoint(all[i], all[|xs| + j]);
    }
  }

  lemma ApartRemove(xs: seq<Block>, k: nat)
    requires Apart(xs) && k < |xs|
    ensures Apart(RemoveAt(xs, k)) && Separate(RemoveAt(xs, k), [xs[k]])
    ensures forall x :: x in RemoveAt(xs, k) ==> x in xs
  {
    var rest := RemoveAt(xs, k);
    assert forall i :: 0 <= i < |rest| ==> rest[i] == xs[if i < k then i else i + 1];
  }

  /** Memory as 8-byte words by address. */
  type Memory = map<nat, nat>

  /** What an allocation returns, unless it panics. */
  datatype Pointer = Null | Ptr(addr: nat) | Panics

  /** What a caller asks for; the rounded-up size fits `isize`, as `Layout` guarantees. */
  datatype Layout = Layout(size: nat, align: nat) {
    predicate Valid() {
      size > 0 && PowerOfTwo(align) && size + align - 1 <= ISIZE_MAX
    }
  }

  function RemoveAt<T>(xs: seq<T>, k: nat): (r: seq<T>)
    requires k < |xs|
  {
    xs[..k] + xs[k + 1..]
  }

  function Bytes(xs: seq<Block>): nat {
    if xs == [] then 0 else xs[0].size + Bytes(xs[1..])
  }

  lemma {:induction false} BytesAppend(xs: seq<Block>, ys: seq<Block>)
    ensures Bytes(xs + ys) == Bytes(xs) + Bytes(ys)
  {
    if xs == [] {
      assert xs + ys == ys;
    } else {
      BytesAppend(xs[1..], ys);
      assert (xs + ys)[1..] == xs[1..] + ys;
    }
  }

  lemma BytesRemove(xs: seq<Block>, k: nat)
    requires k < |xs|
    ensures Bytes(RemoveAt(xs, k)) + xs[k].size == Bytes(xs)
  {
    BytesAppend(xs[..k], xs[k + 1..]);
    BytesAppend(xs[..k], xs[k..]);
    assert xs == xs[..k] + xs[k..];
    assert xs[k..][1..] == xs[k + 1..];
  }
}
