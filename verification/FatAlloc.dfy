/** Allocation of free clusters, and what a newly written file looks like on disk. */
module FatAlloc {
  import opened Common
  import opened Bytes
  import opened BlockDevice
  import opened FatLayout
  import opened FatContent

  /** The free clusters of the volume. */
  ghost function FreeSet(b: BootSector, d: Disk): set<u32> {
    set k: u32 | k < b.Entries() && k >= 2 && b.Entry(d, k) == 0
  }

  /** `c` is the lowest-numbered free cluster. */
  ghost predicate FirstFree(b: BootSector, d: Disk, c: u32) {
    && b.InRange(c) && b.Entry(d, c) == 0
    && forall k: u32 :: b.InRange(k) && k < c ==> b.Entry(d, k) != 0
  }

  ghost predicate NoneFree(b: BootSector, d: Disk) {
    forall k: u32 :: b.InRange(k) ==> b.Entry(d, k) != 0
  }

  /** `cs` are the `|cs|` lowest-numbered free clusters, in increasing order. */
  ghost predicate LowestFree(b: BootSector, d: Disk, cs: seq<u32>) {
    && (forall i :: 0 <= i < |cs| ==> b.InRange(cs[i]) && b.Entry(d, cs[i]) == 0)
    && (forall i, j :: 0 <= i < j < |cs| ==> cs[i] < cs[j])
    && (cs != [] ==>
          forall k: u32 :: b.InRange(k) && b.Entry(d, k) == 0 && k <= cs[|cs| - 1] ==> k in cs)
  }

  function LinkAfter(cs: seq<u32>, i: nat): u32
    requires i < |cs|
  {
    if i + 1 < |cs| then cs[i + 1] else END_OF_CHAIN
  }

  /** From `d` to `d'` the table gained exactly one chain, `cs`. */
  ghost predicate Linked(b: BootSector, d: Disk, d': Disk, cs: seq<u32>) {
    && (forall i {:trigger b.Entry(d', cs[i])} :: 0 <= i < |cs| ==> b.Entry(d', cs[i]) == LinkAfter(cs, i))
    && (forall k: u32 :: k < b.Entries() && k !in cs ==> b.Entry(d', k) == b.Entry(d, k))
  }

  /** What `create_file` stores in the first sector of the `i`-th cluster: data, then zeros. */
  function FirstSector(b: BootSector, data: seq<u8>, i: nat): Sector {
    var at := ClusterSize(b) * i;
    seq(SECTOR_SIZE, k requires 0 <= k < SECTOR_SIZE => if at + k < |data| then data[at + k] else 0)
  }

  /** Outside the FAT copies only the first sectors of `cs` changed, and they hold `data`. */
  ghost predicate DataStored(b: BootSector, d: Disk, d': Disk, cs: seq<u32>, data: seq<u8>) {
    && (forall i :: 0 <= i < |cs| ==> At(d', b.ClusterToSector(cs[i])) == FirstSector(b, data, i))
    && (forall lba :: (lba < b.FatStart() || lba >= b.DataStart())
          && (forall i :: 0 <= i < |cs| ==> lba != b.ClusterToSector(cs[i]))
          ==> At(d', lba) == At(d, lba))
  }

  /** The state of the disk once `cs` is allocated and filled from `data`. */
  ghost predicate LaidOut(b: BootSector, d: Disk, d': Disk, cs: seq<u32>, data: seq<u8>) {
    LowestFree(b, d, cs) && Linked(b, d, d', cs) && DataStored(b, d, d', cs, data)
  }

  /** The chunk of at most `size` bytes that starts at `pos`. */
  function ChunkAt(data: seq<u8>, pos: nat, size: nat): (c: seq<u8>)
    requires pos <= |data|
    ensures |c| == if |data| - pos < size then |data| - pos else size
  {
    data[pos..if |data| - pos < size then |data| else pos + size]
  }

  /** How many chunks of `size` bytes `len` bytes make. */
  function ChunkCount(len: nat, size: nat): nat
    requires size > 0
  {
    if len == 0 then 0 else if len <= size then 1 else 1 + ChunkCount(len - size, size)
  }

  lemma {:induction false} ChunkCountBounds(len: nat, size: nat)
    requires size > 0 && len > 0
    ensures ChunkCount(len, size) >= 1
    ensures size * (ChunkCount(len, size) - 1) < len <= size * ChunkCount(len, size)
    decreases len
  {
    if len > size {
      ChunkCountBounds(len - size, size);
      var n := ChunkCount(len, size);
      assert size * (n - 1) == size * (n - 2) + size;
      assert size * n == size * (n - 1) + size;
    }
  }

  /** Allocated clusters are linked to something, so a later search does not return them. */
  lemma LinkedInUse(b: BootSector, d: Disk, d': Disk, cs: seq<u32>, c: u32)
    requires b.Geometry() && LowestFree(b, d, cs) && Linked(b, d, d', cs) && c in cs
    ensures b.Entry(d', c) != 0
  {
    var i :| 0 <= i < |cs| && cs[i] == c;
    assert LinkAfter(cs, i) != 0;
  }

  /** The next free cluster was free all along, is new, and every lower free one is taken. */
  lemma NextFree(b: BootSector, d: Disk, d': Disk, cs: seq<u32>, c: u32)
    requires b.Geometry() && LowestFree(b, d, cs) && Linked(b, d, d', cs) && FirstFree(b, d', c)
    ensures c !in cs && b.Entry(d, c) == 0
    ensures forall k: u32 :: b.InRange(k) && b.Entry(d, k) == 0 && k < c ==> k in cs
  {
    if c in cs {
      LinkedInUse(b, d, d', cs, c);
      assert false;
    }
    forall k: u32 | b.InRange(k) && b.Entry(d, k) == 0 && k < c ensures k in cs {
      assert b.Entry(d', k) != 0;
    }
  }

  /** Appending the next free cluster keeps the list equal to the lowest free clusters. */
  lemma ExtendLowest(b: BootSector, d: Disk, cs: seq<u32>, c: u32)
    requires LowestFree(b, d, cs) && c !in cs && b.InRange(c) && b.Entry(d, c) == 0
    requires forall k: u32 :: b.InRange(k) && b.Entry(d, k) == 0 && k < c ==> k in cs
    ensures LowestFree(b, d, cs + [c])
  {
    var all := cs + [c];
    if cs != [] {
      LastBelow(b, d, cs, c);
    }
    forall k: u32 | b.InRange(k) && b.Entry(d, k) == 0 && k <= c ensures k in all {
      assert k == c ==> all[|cs|] == k;
    }
  }

  lemma LastBelow(b: BootSector, d: Disk, cs: seq<u32>, c: u32)
    requires LowestFree(b, d, cs) && cs != [] && c !in cs && b.InRange(c) && b.Entry(d, c) == 0
    ensures forall i :: 0 <= i < |cs| ==> cs[i] < c
  {
    assert cs[|cs| - 1] < c;
  }

  /** The table after `c` was linked behind `prev`, if any, and given the value `v`. */
  ghost predicate Chained(b: BootSector, d: Disk, d': Disk, prev: Option<u32>, c: u32, v: u32) {
    && (forall k: u32 :: k < b.Entries() ==>
          b.Entry(d', k) == if k == c then v else if prev == Some(k) then c else b.Entry(d, k))
    && b.OnlyFatChanged(d, d')
  }

  function LastOf(cs: seq<u32>): Option<u32> {
    if cs == [] then None else Some(cs[|cs| - 1])
  }

  /** Linking `c` behind the last cluster and marking it as the end extends the chain by `c`. */
  lemma ExtendLinked(b: BootSector, d: Disk, d0: Disk, d1: Disk, cs: seq<u32>, c: u32)
    requires LowestFree(b, d, cs + [c]) && c !in cs && Linked(b, d, d0, cs)
    requires Chained(b, d0, d1, LastOf(cs), c, END_OF_CHAIN)
    ensures Linked(b, d, d1, cs + [c])
  {
    var cs' := cs + [c];
    assert forall i :: 0 <= i < |cs'| ==> b.InRange(cs'[i]);
    forall i | 0 <= i < |cs'| ensures b.Entry(d1, cs'[i]) == LinkAfter(cs', i) {
      if i < |cs| - 1 {
        assert cs'[i] < cs'[|cs| - 1];
        assert b.Entry(d0, cs[i]) == LinkAfter(cs, i);
      }
    }
  }

  /** Writing a data sector leaves the table and its mirror alone. */
  lemma DataWriteKeepsFat(b: BootSector, d: Disk, d': Disk, lba: int)
    requires b.Geometry() && lba >= b.DataStart() && OnlyAt(d, d', lba)
    ensures forall k: u32 :: k < b.Entries() ==> b.Entry(d', k) == b.Entry(d, k)
    ensures b.numFats >= 2 && b.Mirrored(d) ==> b.Mirrored(d')
  {
    FatAreaBounds(b);
    assert forall k: u32 :: k < b.Entries() ==> b.FatSector(k) < b.DataStart();
    if b.numFats >= 2 && b.Mirrored(d) {
      forall i | b.FatStart() <= i < b.FatStart() + b.sectorsPerFat
        ensures At(d', i) == At(d', i + b.sectorsPerFat)
      {
        assert At(d, i) == At(d, i + b.sectorsPerFat);
      }
    }
  }

  /** `allocate_cluster` on the disk: `prev`, if any, points to `c`, then `c` gets the value `v`. */
  function LinkFree(b: BootSector, d: Disk, prev: Option<u32>, c: u32, v: u32): Disk {
    StoreEntry(b, if prev.Some? then StoreEntry(b, d, prev.value, c) else d, c, v)
  }

  lemma LinkFreeRefines(b: BootSector, d: Disk, prev: Option<u32>, c: u32, v: u32)
    requires b.Geometry() && c < b.Entries() && (prev.Some? ==> prev.value < b.Entries())
    ensures Chained(b, d, LinkFree(b, d, prev, c, v), prev, c, v)
    ensures b.numFats >= 2 && b.Mirrored(d) ==> b.Mirrored(LinkFree(b, d, prev, c, v))
  {
    var d0 := if prev.Some? then StoreEntry(b, d, prev.value, c) else d;
    if prev.Some? {
      StoreEntryRefines(b, d, prev.value, c);
    }
    StoreEntryRefines(b, d0, c, v);
    ChainedInTwo(b, d, d0, StoreEntry(b, d0, c, v), prev, c, v);
  }

  lemma ChainedInTwo(b: BootSector, d: Disk, d0: Disk, d1: Disk, prev: Option<u32>, c: u32, v: u32)
    requires if prev.None? then d0 == d else b.EntryStored(d, d0, prev.value, c)
    requires b.EntryStored(d0, d1, c, v)
    ensures Chained(b, d, d1, prev, c, v)
  {
  }

  /** Linking a cluster and then filling its first sector extends the stored data. */
  lemma ExtendData(b: BootSector, d: Disk, d0: Disk, d1: Disk, cs: seq<u32>, c: u32, data: seq<u8>)
    requires b.Geometry() && LowestFree(b, d, cs + [c]) && c !in cs
    requires DataStored(b, d, d0, cs, data) && b.OnlyFatChanged(d0, d1)
    ensures DataStored(b, d, d1[b.ClusterToSector(c) := FirstSector(b, data, |cs|)], cs + [c], data)
  {
    var cs', at := cs + [c], b.ClusterToSector(c);
    var d2 := d1[at := FirstSector(b, data, |cs|)];
    forall i | 0 <= i < |cs'| ensures At(d2, b.ClusterToSector(cs'[i])) == FirstSector(b, data, i) {
      if i < |cs| {
        StillStored(b, d, d0, d1, cs, c, data, i);
      }
    }
    forall lba | (lba < b.FatStart() || lba >= b.DataStart())
                 && (forall i :: 0 <= i < |cs'| ==> lba != b.ClusterToSector(cs'[i]))
      ensures At(d2, lba) == At(d, lba)
    {
      assert lba != b.ClusterToSector(cs'[|cs|]);
      assert forall i :: 0 <= i < |cs| ==> cs'[i] == cs[i];
      assert At(d0, lba) == At(d, lba);
    }
  }

  /** The data already stored stays when the next cluster is filled. */
  lemma StillStored(b: BootSector, d: Disk, d0: Disk, d1: Disk, cs: seq<u32>, c: u32, data: seq<u8>, i: nat)
    requires b.Geometry() && LowestFree(b, d, cs + [c]) && c !in cs && i < |cs|
    requires DataStored(b, d, d0, cs, data) && b.OnlyFatChanged(d0, d1)
    ensures b.ClusterToSector(cs[i]) != b.ClusterToSector(c)
    ensures At(d1, b.ClusterToSector(cs[i])) == FirstSector(b, data, i)
  {
    assert (cs + [c])[i] == cs[i];
    InRangeFits(b, cs[i]);
    if b.ClusterToSector(cs[i]) == b.ClusterToSector(c) {
      ClustersDisjoint(b, cs[i], 0, c, 0);
      assert false;
    }
  }

  /** The disk after one round of the data loop: `c` linked behind `prev` and its first sector filled. */
  function StoreOne(b: BootSector, d: Disk, prev: Option<u32>, c: u32, s: Sector): Disk {
    LinkFree(b, d, prev, c, END_OF_CHAIN)[b.ClusterToSector(c) := s]
  }

  /** The disk after the data loop of `create_file` has put `data` into the clusters `cs`. */
  function AfterStoring(b: BootSector, d: Disk, cs: seq<u32>, data: seq<u8>): Disk {
    if cs == [] then d
    else
      var init, c := cs[..|cs| - 1], cs[|cs| - 1];
      StoreOne(b, AfterStoring(b, d, init, data), LastOf(init), c, FirstSector(b, data, |init|))
  }

  /** One round of the data loop, as it shows in the table and in the data sectors. */
  lemma ExtendLaidOut(b: BootSector, d: Disk, d0: Disk, cs: seq<u32>, c: u32, data: seq<u8>)
    requires b.Geometry() && LaidOut(b, d, d0, cs, data) && LowestFree(b, d, cs + [c]) && c !in cs
    ensures LaidOut(b, d, StoreOne(b, d0, LastOf(cs), c, FirstSector(b, data, |cs|)), cs + [c], data)
  {
    var d1, s, at := LinkFree(b, d0, LastOf(cs), c, END_OF_CHAIN), FirstSector(b, data, |cs|), b.ClusterToSector(c);
    LastInRange(b, d, cs, c);
    LinkFreeRefines(b, d0, LastOf(cs), c, END_OF_CHAIN);
    ExtendLinked(b, d, d0, d1, cs, c);
    ExtendData(b, d, d0, d1, cs, c, data);
    InRangeFits(b, c);
    DataWriteKeepsFat(b, d1, d1[at := s], at);
    LinkedFrame(b, d, d1, d1[at := s], cs + [c]);
  }

  lemma LastInRange(b: BootSector, d: Disk, cs: seq<u32>, c: u32)
    requires LowestFree(b, d, cs + [c])
    ensures b.InRange(c) && (cs != [] ==> b.InRange(cs[|cs| - 1]))
  {
    var all := cs + [c];
    assert all[|cs|] == c && (cs != [] ==> all[|cs| - 1] == cs[|cs| - 1]);
  }

  lemma LowestPrefix(b: BootSector, d: Disk, cs: seq<u32>)
    requires LowestFree(b, d, cs) && cs != []
    ensures var init := cs[..|cs| - 1];
            LowestFree(b, d, init) && cs[|cs| - 1] !in init && cs == init + [cs[|cs| - 1]]
  {
  }

  /** The data loop leaves exactly one new chain, filled with the data, and touches nothing else. */
  lemma {:induction false} StoringLaysOut(b: BootSector, d: Disk, cs: seq<u32>, data: seq<u8>)
    requires b.Geometry() && LowestFree(b, d, cs)
    ensures LaidOut(b, d, AfterStoring(b, d, cs, data), cs, data)
  {
    if cs == [] {
      NothingLaidOut(b, d, data);
    } else {
      var init := cs[..|cs| - 1];
      LowestPrefix(b, d, cs);
      StoringLaysOut(b, d, init, data);
      ExtendLaidOut(b, d, AfterStoring(b, d, init, data), init, cs[|cs| - 1], data);
    }
  }

  /** The data loop keeps mirrored FAT copies mirrored. */
  lemma {:induction false} StoringMirrors(b: BootSector, d: Disk, cs: seq<u32>, data: seq<u8>)
    requires b.Geometry() && b.numFats >= 2 && b.Mirrored(d) && (forall i :: 0 <= i < |cs| ==> b.InRange(cs[i]))
    ensures b.Mirrored(AfterStoring(b, d, cs, data))
  {
    if cs != [] {
      var init, c := cs[..|cs| - 1], cs[|cs| - 1];
      var d0 := AfterStoring(b, d, init, data);
      StoringMirrors(b, d, init, data);
      LinkFreeRefines(b, d0, LastOf(init), c, END_OF_CHAIN);
      var d1 := LinkFree(b, d0, LastOf(init), c, END_OF_CHAIN);
      InRangeFits(b, c);
      DataWriteKeepsFat(b, d1, AfterStoring(b, d, cs, data), b.ClusterToSector(c));
    }
  }

  lemma LinkedFrame(b: BootSector, d: Disk, d0: Disk, d1: Disk, cs: seq<u32>)
    requires Linked(b, d, d0, cs)
    requires forall i :: 0 <= i < |cs| ==> b.InRange(cs[i])
    requires forall k: u32 :: k < b.Entries() ==> b.Entry(d1, k) == b.Entry(d0, k)
    ensures Linked(b, d, d1, cs)
  {
  }

  /** Allocation stops for lack of clusters exactly when it has used up all the free ones. */
  lemma FreeCount(b: BootSector, d: Disk, d': Disk, cs: seq<u32>)
    requires b.Geometry() && LowestFree(b, d, cs) && Linked(b, d, d', cs)
    ensures |cs| <= |FreeSet(b, d)|
    ensures NoneFree(b, d') ==> |cs| == |FreeSet(b, d)|
  {
    var used, free := Members(cs), FreeSet(b, d);
    DistinctCount(cs);
    assert free == used + (free - used);
    if NoneFree(b, d') {
      AllUsed(b, d, d', cs);
      assert free == used;
    }
  }

  lemma AllUsed(b: BootSector, d: Disk, d': Disk, cs: seq<u32>)
    requires Linked(b, d, d', cs) && NoneFree(b, d')
    ensures forall k :: k in FreeSet(b, d) ==> k in cs
  {
    forall k | k in FreeSet(b, d) ensures k in cs {
      assert b.InRange(k) && b.Entry(d', k) != 0;
    }
  }

  /** The sector filled from the chunk at `pos` is the one `FirstSector` describes. */
  lemma ChunkFillsSector(b: BootSector, data: seq<u8>, i: nat, pos: nat, chunk: seq<u8>, s: Sector)
    requires b.sectorsPerCluster > 0 && pos == ClusterSize(b) * i && pos <= |data|
    requires chunk == ChunkAt(data, pos, ClusterSize(b))
    requires forall k :: 0 <= k < SECTOR_SIZE ==> s[k] == if k < |chunk| then chunk[k] else 0
    ensures s == FirstSector(b, data, i)
  {
  }

  /** Position and remaining chunks after the chunk at `pos`. */
  lemma AfterChunk(data: seq<u8>, pos: nat, size: nat, i: nat)
    requires size > 0 && pos < |data| && pos == size * i
    ensures var pos' := pos + |ChunkAt(data, pos, size)|;
            && pos < pos' <= |data| && (pos' < |data| ==> pos' == size * (i + 1))
            && ChunkCount(|data| - pos, size) == 1 + ChunkCount(|data| - pos', size)
  {
    assert size * (i + 1) == size * i + size;
  }

  lemma NothingLaidOut(b: BootSector, d: Disk, data: seq<u8>)
    ensures LaidOut(b, d, d, [], data)
  {
  }
}
